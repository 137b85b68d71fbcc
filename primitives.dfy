/**
 * The few pieces of the .NET base library that the contact core relies on,
 * written out so that their edge cases are part of the model:
 *   - `char.IsWhiteSpace` and `string.IsNullOrWhiteSpace` / `IsNullOrEmpty`,
 *   - `int.TryParse(string, out int)` under the default `NumberStyles.Integer`
 *     with the invariant signs `+` and `-`,
 *   - `int.ToString()` (decimal, leading `-` for negatives).
 */
module NetText {

  datatype Option<+T> = None | Some(value: T)

  const Int32Min: int := -0x8000_0000
  const Int32Max: int := 0x7FFF_FFFF

  predicate IsInt32(n: int) {
    Int32Min <= n <= Int32Max
  }

  /** The values of C#'s `int`. */
  type Int32 = n: int | IsInt32(n)

  // ---------------------------------------------------------------------------
  // Whitespace
  // ---------------------------------------------------------------------------

  /** `char.IsWhiteSpace`: the Unicode space, line and paragraph separators,
      the controls U+0009..U+000D, and U+0085. */
  predicate IsWhiteSpace(ch: char)
    ensures IsParseWhite(ch) ==> IsWhiteSpace(ch)
    ensures IsDigit(ch) || ch == '@' || ch == '+' || ch == '-' || ch == '\0' ==> !IsWhiteSpace(ch)
  {
    var x := ch as int;
    (0x09 <= x <= 0x0D) || x == 0x20 || x == 0x85 || x == 0xA0 || x == 0x1680
    || (0x2000 <= x <= 0x200A) || x == 0x2028 || x == 0x2029 || x == 0x202F
    || x == 0x205F || x == 0x3000
  }

  /** `string.IsNullOrWhiteSpace` on a present string: empty or all white. */
  predicate IsNullOrWhiteSpace(s: string)
    ensures s == [] ==> IsNullOrWhiteSpace(s)
    ensures (exists i :: 0 <= i < |s| && IsDigit(s[i])) ==> !IsNullOrWhiteSpace(s)
    ensures '@' in s ==> !IsNullOrWhiteSpace(s)
  {
    forall i :: 0 <= i < |s| ==> IsWhiteSpace(s[i])
  }

  /** `string.IsNullOrEmpty` on an optional (C# nullable) string. */
  predicate IsNullOrEmpty(s: Option<string>) {
    s == None || s == Some("")
  }

  // ---------------------------------------------------------------------------
  // int.TryParse
  // ---------------------------------------------------------------------------

  /** The whitespace the number parser skips (narrower than `IsWhiteSpace`). */
  predicate IsParseWhite(ch: char) {
    ch == ' ' || ('\t' <= ch <= '\r')
  }

  /** Only the ASCII digits are digits to the parser. */
  predicate IsDigit(ch: char) {
    '0' <= ch <= '9'
  }

  predicate AllDigits(s: string) {
    forall i :: 0 <= i < |s| ==> IsDigit(s[i])
  }

  function DigitValue(ch: char): (d: nat)
    requires IsDigit(ch)
    ensures d < 10
  {
    (ch as int) - ('0' as int)
  }

  /** The index of the first character at or after `i` that is not parse-white. */
  function SkipParseWhite(s: string, i: nat): (j: nat)
    requires i <= |s|
    ensures i <= j <= |s|
    ensures forall k :: i <= k < j ==> IsParseWhite(s[k])
    ensures j < |s| ==> !IsParseWhite(s[j])
    decreases |s| - i
  {
    if i < |s| && IsParseWhite(s[i]) then SkipParseWhite(s, i + 1) else i
  }

  /** The index of the first character at or after `i` that is not a digit. */
  function SkipDigits(s: string, i: nat): (j: nat)
    requires i <= |s|
    ensures i <= j <= |s|
    ensures AllDigits(s[i..j])
    ensures j < |s| ==> !IsDigit(s[j])
    decreases |s| - i
  {
    if i < |s| && IsDigit(s[i]) then SkipDigits(s, i + 1) else i
  }

  /** The value of a string of decimal digits, most significant first. */
  function DigitsValue(ds: string): nat
    requires AllDigits(ds)
  {
    if ds == [] then 0
    else 10 * DigitsValue(ds[..|ds| - 1]) + DigitValue(ds[|ds| - 1])
  }

  /** The parser accepts trailing NUL characters after the number. */
  predicate AllNul(s: string) {
    forall i :: 0 <= i < |s| ==> s[i] == '\0'
  }

  /**
   * `int.TryParse(s, out n)`: `Some(n)` when it returns true.  Accepted form:
   * parse-white*, an optional `+` or `-`, one or more digits, parse-white*,
   * NUL*; and the value must fit in an `int` (overflow makes it return false).
   */
  function ParseInt32(s: string): (r: Option<int>)
    ensures r.Some? ==> IsInt32(r.value)
  {
    var a := SkipParseWhite(s, 0);
    var negative := a < |s| && s[a] == '-';
    var b := if a < |s| && (s[a] == '-' || s[a] == '+') then a + 1 else a;
    var c := SkipDigits(s, b);
    var d := SkipParseWhite(s, c);
    if c == b || !AllNul(s[d..]) then None
    else
      var magnitude: int := DigitsValue(s[b..c]);
      var v := if negative then -magnitude else magnitude;
      if IsInt32(v) then Some(v) else None
  }

  // ---------------------------------------------------------------------------
  // int.ToString
  // ---------------------------------------------------------------------------

  function DigitChar(d: nat): (ch: char)
    requires d < 10
    ensures IsDigit(ch) && DigitValue(ch) == d
  {
    ('0' as int + d) as char
  }

  /** The shortest decimal spelling of `n`. */
  function NatToString(n: nat): (s: string)
    ensures |s| >= 1 && AllDigits(s)
    ensures s[0] == '0' <==> n == 0
  {
    if n < 10 then [DigitChar(n)] else NatToString(n / 10) + [DigitChar(n % 10)]
  }

  /** `int.ToString()`: decimal, a leading `-` for negative values. */
  function Int32ToString(n: int): (s: string)
    ensures |s| >= 1
    ensures s[0] == '-' <==> n < 0
    ensures n < 0 ==> |s| >= 2 && AllDigits(s[1..]) && s[1] != '0'
    ensures n >= 0 ==> AllDigits(s) && (s[0] == '0' <==> n == 0)
  {
    if n < 0 then "-" + NatToString(-n) else NatToString(n)
  }

  // ---------------------------------------------------------------------------
  // Lemmas
  // ---------------------------------------------------------------------------

  lemma {:induction false} DigitsValueOfNatToString(n: nat)
    ensures DigitsValue(NatToString(n)) == n
  {
    if n >= 10 {
      var s := NatToString(n);
      assert s[..|s| - 1] == NatToString(n / 10);
      DigitsValueOfNatToString(n / 10);
    }
  }

  lemma {:induction false} SkipDigitsToEnd(s: string, i: nat)
    requires i <= |s|
    requires AllDigits(s[i..])
    ensures SkipDigits(s, i) == |s|
    decreases |s| - i
  {
    if i < |s| {
      assert s[i] == s[i..][0];
      assert s[i + 1..] == s[i..][1..];
      SkipDigitsToEnd(s, i + 1);
    }
  }

  /**
   * A plain run of digits parses to its value when that fits in an `int`;
   * a larger value overflows and the parse fails.
   */
  lemma ParseInt32OfDigits(s: string)
    requires s != [] && AllDigits(s)
    ensures ParseInt32(s) == if DigitsValue(s) <= Int32Max then Some(DigitsValue(s)) else None
  {
    assert !IsParseWhite(s[0]) && s[0] != '-' && s[0] != '+';
    assert SkipParseWhite(s, 0) == 0;
    SkipDigitsToEnd(s, 0);
    assert s[0..|s|] == s;
  }

  /**
   * A `-` then digits parses to the negated value when it fits in an `int`,
   * down to -2147483648; any lower value overflows and the parse fails.
   */
  lemma ParseInt32OfNegativeDigits(s: string)
    requires |s| >= 2 && s[0] == '-' && AllDigits(s[1..])
    ensures ParseInt32(s) ==
      if DigitsValue(s[1..]) <= -Int32Min then Some(-(DigitsValue(s[1..]) as int)) else None
  {
    assert SkipParseWhite(s, 0) == 0;
    SkipDigitsToEnd(s, 1);
    assert s[1..|s|] == s[1..];
  }

  /**
   * `int.ToString` of any integer, in range or not, parses back exactly when
   * the integer fits in an `int`: one past either end of the range fails.
   */
  lemma ParseInt32OfAnyToString(n: int)
    ensures ParseInt32(Int32ToString(n)) == if IsInt32(n) then Some(n) else None
  {
    var s := Int32ToString(n);
    if n < 0 {
      var m: nat := -n;
      assert s[1..] == NatToString(m);
      DigitsValueOfNatToString(m);
      assert DigitsValue(s[1..]) == m;
      ParseInt32OfNegativeDigits(s);
    } else {
      DigitsValueOfNatToString(n);
      ParseInt32OfDigits(s);
    }
  }

  /** Distinct ids spell distinct strings. */
  lemma Int32ToStringInjective(a: int, b: int)
    requires IsInt32(a) && IsInt32(b)
    requires Int32ToString(a) == Int32ToString(b)
    ensures a == b
  {
    ParseInt32OfAnyToString(a);
    ParseInt32OfAnyToString(b);
  }

  /** At most two digits spell a value below 100. */
  lemma DigitsValueShort(ds: string)
    requires AllDigits(ds) && |ds| <= 2
    ensures DigitsValue(ds) < 100
  {
    if ds != [] {
      var init := ds[..|ds| - 1];
      if init != [] {
        assert init[..|init| - 1] == [];
      }
    }
  }

  /**
   * On a two-character string, the parser succeeds exactly when the string is
   * two digits, a sign then a digit, a parse-white then a digit, or a digit
   * then a parse-white or a NUL.
   */
  lemma ParseInt32OfLengthTwo(s: string)
    requires |s| == 2
    ensures ParseInt32(s).Some? <==>
      (IsDigit(s[0]) && IsDigit(s[1]))
      || ((s[0] == '+' || s[0] == '-' || IsParseWhite(s[0])) && IsDigit(s[1]))
      || (IsDigit(s[0]) && (IsParseWhite(s[1]) || s[1] == '\0'))
  {
    var a := SkipParseWhite(s, 0);
    var b := if a < |s| && (s[a] == '-' || s[a] == '+') then a + 1 else a;
    var c := SkipDigits(s, b);
    var d := SkipParseWhite(s, c);
    assert s[2..] == [];
    if c != b {
      DigitsValueShort(s[b..c]);
    }
    if IsDigit(s[0]) && IsDigit(s[1]) {
      SkipDigitsToEnd(s, 0);
    } else if (s[0] == '+' || s[0] == '-' || IsParseWhite(s[0])) && IsDigit(s[1]) {
      assert SkipParseWhite(s, 1) == 1;
      assert b == 1;
      assert SkipDigits(s, 2) == 2;
      assert c == 2 && d == 2;
    } else if IsDigit(s[0]) && (IsParseWhite(s[1]) || s[1] == '\0') {
      assert a == 0 && b == 0 && c == 1;
      assert AllNul(s[d..]) by {
        if IsParseWhite(s[1]) { assert d == 2; } else { assert d == 1; }
      }
    } else if c != b {
      assert b == 0 && c == 1 && d == 1;
      assert s[d..][0] == s[1];
    }
  }
}
