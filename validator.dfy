/**
 * `ContatoValidator.Validate`: checks the four text fields of a contact and
 * returns the list of violations, at most one per field, in the order
 * Nome, Email, DDD, Telefone.
 *
 * `Violations` is the specification: the messages of the fixed template whose
 * failure condition holds, in template order.  `Validate` is the method that
 * grows its error list block by block, as the source does, and is proved to
 * return exactly `Violations`.
 */
module ContatoValidator {
  import opened NetText
  import opened ContatoModel

  datatype Field = Nome | Email | Ddd | Telefone

  /** Position of a field in the check order. */
  function FieldRank(f: Field): nat {
    match f
    case Nome => 0
    case Email => 1
    case Ddd => 2
    case Telefone => 3
  }

  /** The kinds of message the validator can add (the Portuguese wording is not modelled). */
  datatype Message =
    | NomeRequired        // name blank
    | NomeTooLong         // name over 100 characters
    | EmailRequired       // email blank
    | EmailInvalid        // email without '@'
    | EmailTooLong        // email over 255 characters
    | DddBadSize          // area code blank or not exactly 2 characters
    | DddNotNumeric       // area code rejected by int.TryParse
    | TelefoneBadLength   // phone blank or length outside 10..11

  function FieldOf(m: Message): Field {
    match m
    case NomeRequired | NomeTooLong => Nome
    case EmailRequired | EmailInvalid | EmailTooLong => Email
    case DddBadSize | DddNotNumeric => Ddd
    case TelefoneBadLength => Telefone
  }

  const MaxNomeLength: nat := 100
  const MaxEmailLength: nat := 255
  const DddLength: nat := 2
  const MinTelefoneLength: nat := 10
  const MaxTelefoneLength: nat := 11

  const NomeSlots: seq<Message> := [NomeRequired, NomeTooLong]
  const EmailSlots: seq<Message> := [EmailRequired, EmailInvalid, EmailTooLong]
  const DddSlots: seq<Message> := [DddBadSize, DddNotNumeric]
  const TelefoneSlots: seq<Message> := [TelefoneBadLength]

  /** Every message the validator can produce, in the order it checks them. */
  const Template: seq<Message> := NomeSlots + EmailSlots + DddSlots + TelefoneSlots

  /** Position of a message in the template. */
  function TemplateIndex(m: Message): (k: nat)
    ensures k < |Template| && Template[k] == m
  {
    match m
    case NomeRequired => 0
    case NomeTooLong => 1
    case EmailRequired => 2
    case EmailInvalid => 3
    case EmailTooLong => 4
    case DddBadSize => 5
    case DddNotNumeric => 6
    case TelefoneBadLength => 7
  }

  /**
   * The condition under which the validator reports `m` for `c`.  Within one
   * field the checks are an if / else-if chain, so a later message of the
   * same field requires every earlier check of that field to have passed.
   */
  predicate Fails(c: Contato, m: Message) {
    match m
    case NomeRequired => IsNullOrWhiteSpace(c.nome)
    case NomeTooLong => !IsNullOrWhiteSpace(c.nome) && |c.nome| > MaxNomeLength
    case EmailRequired => IsNullOrWhiteSpace(c.email)
    case EmailInvalid => !IsNullOrWhiteSpace(c.email) && '@' !in c.email
    case EmailTooLong =>
      !IsNullOrWhiteSpace(c.email) && '@' in c.email && |c.email| > MaxEmailLength
    case DddBadSize => IsNullOrWhiteSpace(c.ddd) || |c.ddd| != DddLength
    case DddNotNumeric =>
      !IsNullOrWhiteSpace(c.ddd) && |c.ddd| == DddLength && ParseInt32(c.ddd).None?
    case TelefoneBadLength =>
      IsNullOrWhiteSpace(c.telefone) || |c.telefone| < MinTelefoneLength
      || |c.telefone| > MaxTelefoneLength
  }

  /** The messages of `ms` that `c` fails, in the order of `ms`. */
  function Select(ms: seq<Message>, c: Contato): (r: seq<Message>)
    ensures |r| <= |ms|
    ensures forall m :: m in r ==> m in ms
  {
    if ms == [] then []
    else (if Fails(c, ms[0]) then [ms[0]] else []) + Select(ms[1..], c)
  }

  /** What `Validate` returns for `c`. */
  function Violations(c: Contato): (v: seq<Message>)
    ensures |v| <= |Template|
    ensures IsValid(c) ==> v == []
  {
    var v := Select(Template, c);
    if v != [] then
      SelectMembership(Template, c, v[0]);
      v
    else v
  }

  // Acceptance, stated field by field without reference to the messages.

  predicate NomeOk(nome: string) {
    !IsNullOrWhiteSpace(nome) && |nome| <= MaxNomeLength
  }

  predicate EmailOk(email: string) {
    !IsNullOrWhiteSpace(email) && '@' in email && |email| <= MaxEmailLength
  }

  predicate DddOk(ddd: string) {
    !IsNullOrWhiteSpace(ddd) && |ddd| == DddLength && ParseInt32(ddd).Some?
  }

  predicate TelefoneOk(telefone: string) {
    !IsNullOrWhiteSpace(telefone)
    && MinTelefoneLength <= |telefone| <= MaxTelefoneLength
  }

  predicate IsValid(c: Contato) {
    NomeOk(c.nome) && EmailOk(c.email) && DddOk(c.ddd) && TelefoneOk(c.telefone)
  }

  /** The rule of field `f`, as above. */
  predicate FieldOk(c: Contato, f: Field) {
    match f
    case Nome => NomeOk(c.nome)
    case Email => EmailOk(c.email)
    case Ddd => DddOk(c.ddd)
    case Telefone => TelefoneOk(c.telefone)
  }

  /** What each field's if / else-if chain adds to the list. */
  function NomeErrors(c: Contato): seq<Message> {
    if IsNullOrWhiteSpace(c.nome) then [NomeRequired]
    else if |c.nome| > MaxNomeLength then [NomeTooLong] else []
  }

  function EmailErrors(c: Contato): seq<Message> {
    if IsNullOrWhiteSpace(c.email) then [EmailRequired]
    else if '@' !in c.email then [EmailInvalid]
    else if |c.email| > MaxEmailLength then [EmailTooLong] else []
  }

  function DddErrors(c: Contato): seq<Message> {
    if IsNullOrWhiteSpace(c.ddd) || |c.ddd| != DddLength then [DddBadSize]
    else if ParseInt32(c.ddd).None? then [DddNotNumeric] else []
  }

  function TelefoneErrors(c: Contato): seq<Message> {
    if IsNullOrWhiteSpace(c.telefone) || |c.telefone| < MinTelefoneLength
       || |c.telefone| > MaxTelefoneLength then [TelefoneBadLength] else []
  }

  // ---------------------------------------------------------------------------
  // The method
  // ---------------------------------------------------------------------------

  /** `ContatoValidator.Validate`: the error list, grown one field at a time. */
  method Validate(c: Contato) returns (errors: seq<Message>)
    ensures errors == Violations(c)
  {
    errors := [];

    if IsNullOrWhiteSpace(c.nome) {
      errors := errors + [NomeRequired];
    } else if |c.nome| > MaxNomeLength {
      errors := errors + [NomeTooLong];
    }
    assert errors == NomeErrors(c);

    ghost var before := errors;
    if IsNullOrWhiteSpace(c.email) {
      errors := errors + [EmailRequired];
    } else if '@' !in c.email {
      errors := errors + [EmailInvalid];
    } else if |c.email| > MaxEmailLength {
      errors := errors + [EmailTooLong];
    }
    assert errors == before + EmailErrors(c);

    before := errors;
    if IsNullOrWhiteSpace(c.ddd) || |c.ddd| != DddLength {
      errors := errors + [DddBadSize];
    } else if ParseInt32(c.ddd).None? {
      errors := errors + [DddNotNumeric];
    }
    assert errors == before + DddErrors(c);

    before := errors;
    if IsNullOrWhiteSpace(c.telefone) || |c.telefone| < MinTelefoneLength
       || |c.telefone| > MaxTelefoneLength {
      errors := errors + [TelefoneBadLength];
    }
    assert errors == before + TelefoneErrors(c);

    ViolationsClosedForm(c);
  }

  // ---------------------------------------------------------------------------
  // Lemmas
  // ---------------------------------------------------------------------------

  lemma SelectCons(m: Message, rest: seq<Message>, c: Contato)
    ensures Select([m] + rest, c) == (if Fails(c, m) then [m] else []) + Select(rest, c)
  {
    assert ([m] + rest)[0] == m;
    assert ([m] + rest)[1..] == rest;
  }

  lemma {:induction false} SelectAppend(a: seq<Message>, b: seq<Message>, c: Contato)
    ensures Select(a + b, c) == Select(a, c) + Select(b, c)
  {
    if a != [] {
      SelectCons(a[0], a[1..] + b, c);
      assert a + b == [a[0]] + (a[1..] + b);
      SelectCons(a[0], a[1..], c);
      assert a == [a[0]] + a[1..];
      SelectAppend(a[1..], b, c);
    } else {
      assert a + b == b;
    }
  }

  lemma {:induction false} SelectMembership(ms: seq<Message>, c: Contato, m: Message)
    ensures m in Select(ms, c) <==> m in ms && Fails(c, m)
  {
    if ms != [] {
      assert ms == [ms[0]] + ms[1..];
      SelectMembership(ms[1..], c, m);
    }
  }

  /** The result is the four fields' contributions, in check order. */
  lemma ViolationsByField(c: Contato)
    ensures Violations(c) ==
      Select(NomeSlots, c) + Select(EmailSlots, c) + Select(DddSlots, c)
      + Select(TelefoneSlots, c)
  {
    SelectAppend(NomeSlots + EmailSlots + DddSlots, TelefoneSlots, c);
    SelectAppend(NomeSlots + EmailSlots, DddSlots, c);
    SelectAppend(NomeSlots, EmailSlots, c);
  }

  /** The result, field by field, as the four if / else-if chains. */
  lemma ViolationsClosedForm(c: Contato)
    ensures Violations(c) == NomeErrors(c) + EmailErrors(c) + DddErrors(c) + TelefoneErrors(c)
  {
    ViolationsByField(c);
    NomeSlotsSelect(c);
    EmailSlotsSelect(c);
    DddSlotsSelect(c);
    TelefoneSlotsSelect(c);
  }

  /** A message is only ever reported for a field whose rule is broken. */
  lemma FailsBreaksRule(c: Contato, m: Message)
    ensures Fails(c, m) ==> !FieldOk(c, FieldOf(m))
  {
  }

  /** A message is reported exactly when its failure condition holds. */
  lemma ViolationsMembership(c: Contato, m: Message)
    ensures m in Violations(c) <==> Fails(c, m)
  {
    SelectMembership(Template, c, m);
    assert Template[TemplateIndex(m)] == m;
  }

  lemma SelectSingle(m: Message, c: Contato)
    ensures Select([m], c) == if Fails(c, m) then [m] else []
  {
    SelectCons(m, [], c);
    assert [m] + [] == [m];
  }

  /** The name slots, selected: the name's if / else-if chain. */
  lemma NomeSlotsSelect(c: Contato)
    ensures Select(NomeSlots, c) == NomeErrors(c)
  {
    SelectSingle(NomeTooLong, c);
    SelectCons(NomeRequired, [NomeTooLong], c);
    assert NomeSlots == [NomeRequired] + [NomeTooLong];
  }

  /** The email slots, selected: the email's if / else-if chain. */
  lemma EmailSlotsSelect(c: Contato)
    ensures Select(EmailSlots, c) == EmailErrors(c)
  {
    SelectSingle(EmailTooLong, c);
    SelectCons(EmailInvalid, [EmailTooLong], c);
    assert [EmailInvalid, EmailTooLong] == [EmailInvalid] + [EmailTooLong];
    SelectCons(EmailRequired, [EmailInvalid, EmailTooLong], c);
    assert EmailSlots == [EmailRequired] + [EmailInvalid, EmailTooLong];
  }

  /** The area-code slots, selected: the area code's if / else-if chain. */
  lemma DddSlotsSelect(c: Contato)
    ensures Select(DddSlots, c) == DddErrors(c)
  {
    SelectSingle(DddNotNumeric, c);
    SelectCons(DddBadSize, [DddNotNumeric], c);
    assert DddSlots == [DddBadSize] + [DddNotNumeric];
  }

  /** The phone slot, selected. */
  lemma TelefoneSlotsSelect(c: Contato)
    ensures Select(TelefoneSlots, c) == TelefoneErrors(c)
  {
    SelectSingle(TelefoneBadLength, c);
  }

  /** Each slot list, selected, holds at most one message, of its own field. */
  lemma SlotSelects(c: Contato)
    ensures |Select(NomeSlots, c)| <= 1 && |Select(EmailSlots, c)| <= 1
    ensures |Select(DddSlots, c)| <= 1 && |Select(TelefoneSlots, c)| <= 1
    ensures forall m :: m in Select(NomeSlots, c) ==> FieldOf(m) == Nome
    ensures forall m :: m in Select(EmailSlots, c) ==> FieldOf(m) == Email
    ensures forall m :: m in Select(DddSlots, c) ==> FieldOf(m) == Ddd
    ensures forall m :: m in Select(TelefoneSlots, c) ==> FieldOf(m) == Telefone
  {
    SlotSelect(NomeSlots, Nome, c);
    SlotSelect(EmailSlots, Email, c);
    SlotSelect(DddSlots, Ddd, c);
    SlotSelect(TelefoneSlots, Telefone, c);
  }

  /** Selecting from one field's slots keeps at most one message, of that field. */
  lemma SlotSelect(slots: seq<Message>, f: Field, c: Contato)
    requires slots in [NomeSlots, EmailSlots, DddSlots, TelefoneSlots]
    requires forall m :: m in slots ==> FieldOf(m) == f
    ensures |Select(slots, c)| <= 1
    ensures forall m :: m in Select(slots, c) ==> FieldOf(m) == f
  {
    if slots == NomeSlots {
      NomeSlotsSelect(c);
    } else if slots == EmailSlots {
      EmailSlotsSelect(c);
    } else if slots == DddSlots {
      DddSlotsSelect(c);
    } else {
      TelefoneSlotsSelect(c);
    }
  }

  /**
   * The result lists at most one message per field, in the field order
   * Nome, Email, DDD, Telefone, and is a subsequence of the template.
   */
  lemma ViolationsOrdered(c: Contato)
    ensures |Violations(c)| <= 4
    ensures forall i, j :: 0 <= i < j < |Violations(c)| ==>
      FieldRank(FieldOf(Violations(c)[i])) < FieldRank(FieldOf(Violations(c)[j]))
      && TemplateIndex(Violations(c)[i]) < TemplateIndex(Violations(c)[j])
  {
    ViolationsByField(c);
    SlotSelects(c);
    var v := Violations(c);
    FieldsInOrder(Select(NomeSlots, c), Select(EmailSlots, c), Select(DddSlots, c),
                  Select(TelefoneSlots, c));
    forall i, j | 0 <= i < j < |v|
      ensures TemplateIndex(v[i]) < TemplateIndex(v[j])
    {
      RankOrdersTemplate(v[i], v[j]);
    }
  }

  /**
   * Four lists of at most one message each, of the fields Nome, Email, DDD
   * and Telefone respectively: their concatenation has strictly rising fields.
   */
  lemma FieldsInOrder(n: seq<Message>, e: seq<Message>, d: seq<Message>, t: seq<Message>)
    requires |n| <= 1 && |e| <= 1 && |d| <= 1 && |t| <= 1
    requires forall m :: m in n ==> FieldOf(m) == Nome
    requires forall m :: m in e ==> FieldOf(m) == Email
    requires forall m :: m in d ==> FieldOf(m) == Ddd
    requires forall m :: m in t ==> FieldOf(m) == Telefone
    ensures |n + e + d + t| <= 4
    ensures forall i, j :: 0 <= i < j < |n + e + d + t| ==>
      FieldRank(FieldOf((n + e + d + t)[i])) < FieldRank(FieldOf((n + e + d + t)[j]))
  {
    var v := n + e + d + t;
    forall i | 0 <= i < |v|
      ensures FieldRank(FieldOf(v[i])) ==
        if i < |n| then 0 else if i < |n + e| then 1 else if i < |n + e + d| then 2 else 3
    {
      if i < |n| {
        assert v[i] in n;
      } else if i < |n + e| {
        assert v[i] == e[i - |n|];
      } else if i < |n + e + d| {
        assert v[i] == d[i - |n + e|];
      } else {
        assert v[i] == t[i - |n + e + d|];
      }
    }
  }

  /** Messages of an earlier field sit earlier in the template. */
  lemma RankOrdersTemplate(m1: Message, m2: Message)
    requires FieldRank(FieldOf(m1)) < FieldRank(FieldOf(m2))
    ensures TemplateIndex(m1) < TemplateIndex(m2)
  {
  }

  /** A contact passes validation exactly when all four field rules hold. */
  lemma ValidIffNoViolations(c: Contato)
    ensures Violations(c) == [] <==> IsValid(c)
  {
    ViolationsByField(c);
    NomeSlotsSelect(c);
    EmailSlotsSelect(c);
    DddSlotsSelect(c);
    TelefoneSlotsSelect(c);
    if IsValid(c) {
      assert !Fails(c, DddNotNumeric);
    } else if !NomeOk(c.nome) {
      ViolationsMembership(c, if IsNullOrWhiteSpace(c.nome) then NomeRequired else NomeTooLong);
    } else if !EmailOk(c.email) {
      ViolationsMembership(c,
        if IsNullOrWhiteSpace(c.email) then EmailRequired
        else if '@' !in c.email then EmailInvalid
        else EmailTooLong);
    } else if !DddOk(c.ddd) {
      ViolationsMembership(c,
        if IsNullOrWhiteSpace(c.ddd) || |c.ddd| != DddLength then DddBadSize
        else DddNotNumeric);
    } else {
      ViolationsMembership(c, TelefoneBadLength);
    }
  }

  /** Name: blank gives "required"; otherwise over 100 characters gives "too long". */
  lemma NomeRules(c: Contato)
    ensures NomeRequired in Violations(c) <==> IsNullOrWhiteSpace(c.nome)
    ensures NomeTooLong in Violations(c) <==>
      !IsNullOrWhiteSpace(c.nome) && |c.nome| > MaxNomeLength
    ensures !IsNullOrWhiteSpace(c.nome) && |c.nome| == 100 ==>
      forall m :: m in Violations(c) ==> FieldOf(m) != Nome
  {
    ViolationsMembership(c, NomeRequired);
    ViolationsMembership(c, NomeTooLong);
    forall m | m in Violations(c) ensures FieldOf(m) == Nome ==> Fails(c, m) {
      ViolationsMembership(c, m);
    }
  }

  /**
   * Email: the first failing check wins.  Blank gives "required"; no '@'
   * gives "invalid" whatever the length; only then over 255 gives "too long".
   */
  lemma EmailRules(c: Contato)
    ensures EmailRequired in Violations(c) <==> IsNullOrWhiteSpace(c.email)
    ensures EmailInvalid in Violations(c) <==>
      !IsNullOrWhiteSpace(c.email) && '@' !in c.email
    ensures EmailTooLong in Violations(c) <==>
      !IsNullOrWhiteSpace(c.email) && '@' in c.email && |c.email| > MaxEmailLength
    ensures !IsNullOrWhiteSpace(c.email) && '@' !in c.email && |c.email| == 300 ==>
      forall m :: m in Violations(c) && FieldOf(m) == Email ==> m == EmailInvalid
  {
    ViolationsMembership(c, EmailRequired);
    ViolationsMembership(c, EmailInvalid);
    ViolationsMembership(c, EmailTooLong);
  }

  /**
   * Area code: blank or not two characters gives the size message; otherwise
   * a failed `int.TryParse` gives the numeric message.  On two characters the
   * parse accepts two digits; a `+`, a `-` or a parse-white character (space,
   * or U+0009..U+000D) before a digit; and a digit followed by a parse-white
   * character or a NUL.
   */
  lemma DddRules(c: Contato)
    ensures DddBadSize in Violations(c) <==>
      IsNullOrWhiteSpace(c.ddd) || |c.ddd| != DddLength
    ensures DddNotNumeric in Violations(c) <==>
      !IsNullOrWhiteSpace(c.ddd) && |c.ddd| == DddLength && ParseInt32(c.ddd).None?
    ensures |c.ddd| == 2 && !IsNullOrWhiteSpace(c.ddd) ==>
      (DddNotNumeric in Violations(c) <==>
        !((IsDigit(c.ddd[0]) && IsDigit(c.ddd[1]))
          || ((c.ddd[0] == '+' || c.ddd[0] == '-' || IsParseWhite(c.ddd[0])) && IsDigit(c.ddd[1]))
          || (IsDigit(c.ddd[0]) && (IsParseWhite(c.ddd[1]) || c.ddd[1] == '\0'))))
  {
    ViolationsMembership(c, DddBadSize);
    ViolationsMembership(c, DddNotNumeric);
    if |c.ddd| == 2 {
      ParseInt32OfLengthTwo(c.ddd);
    }
  }

  /** Phone: fails iff blank or its length is outside 10..11; digits are not checked. */
  lemma TelefoneRules(c: Contato)
    ensures TelefoneBadLength in Violations(c) <==>
      IsNullOrWhiteSpace(c.telefone) || |c.telefone| < MinTelefoneLength
      || |c.telefone| > MaxTelefoneLength
  {
    ViolationsMembership(c, TelefoneBadLength);
  }

  /** Concrete area codes: "11", "-1", "+1" and " 1" pass; "1" and "111" have the wrong size; "1a" is not numeric. */
  lemma DddExamples(c: Contato)
    ensures c.ddd in ["11", "-1", "+1", " 1"] ==>
      DddBadSize !in Violations(c) && DddNotNumeric !in Violations(c)
    ensures c.ddd in ["1", "111"] ==> DddBadSize in Violations(c)
    ensures c.ddd == "1a" ==> DddNotNumeric in Violations(c) && DddBadSize !in Violations(c)
  {
    DddRules(c);
    var d := c.ddd;
    if d in ["11", "-1", "+1", " 1", "1a"] {
      assert |d| == 2 && d[1] in "1a" && !IsWhiteSpace(d[1]);
      ParseInt32OfLengthTwo(d);
    }
  }

  /** A default-constructed Contato fails every field, one message each. */
  lemma DefaultContatoViolations()
    ensures Violations(Contato()) == [NomeRequired, EmailRequired, DddBadSize, TelefoneBadLength]
  {
    ViolationsByField(Contato());
    NomeSlotsSelect(Contato());
    EmailSlotsSelect(Contato());
    DddSlotsSelect(Contato());
    TelefoneSlotsSelect(Contato());
  }
}
