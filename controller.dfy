/**
 * `ContatosController`: the five API actions over a contact store and a
 * shared in-memory cache.
 *
 * State: the store (id -> contact, with the next identity value), the cache
 * (key -> entry with an absolute expiry), and the cache clock `now`.
 * Reads go through the cache; writes go to the store only and never touch the
 * cache, so an entry cached before a write is served until it expires.
 */
module Controllers {
  import opened NetText
  import opened ContatoModel
  import opened ContatoValidator

  // ---------------------------------------------------------------------------
  // Time: the cache clock counts .NET ticks (100 ns).
  // ---------------------------------------------------------------------------

  const TicksPerMinute: int := 600_000_000
  /** Lifetime of a list entry: 10 minutes from the moment it is set. */
  const ListTtl: int := 10 * TicksPerMinute
  /** Lifetime of a single-contact entry: 5 minutes from the moment it is set. */
  const ItemTtl: int := 5 * TicksPerMinute

  // ---------------------------------------------------------------------------
  // Cache keys
  // ---------------------------------------------------------------------------

  const AllKey: string := "all_contatos"
  const DddKeyPrefix: string := "contatos_ddd_"
  const ItemKeyPrefix: string := "contato_"

  /** The area-code filter of a list query: none when the parameter is null or empty. */
  function Filter(ddd: Option<string>): Option<string> {
    if IsNullOrEmpty(ddd) then None else ddd
  }

  /** Cache key of a list query. */
  function ListKey(ddd: Option<string>): (k: string)
    ensures IsNullOrEmpty(ddd) ==> k == AllKey
    ensures !IsNullOrEmpty(ddd) ==>
      |k| > |DddKeyPrefix| && k[..|DddKeyPrefix|] == DddKeyPrefix && k[|DddKeyPrefix|..] == ddd.value
  {
    if IsNullOrEmpty(ddd) then AllKey else DddKeyPrefix + ddd.value
  }

  /** Cache key of a single contact, spelled from the parsed id. */
  function ItemKey(id: int): (k: string)
    ensures |k| > |ItemKeyPrefix| && k[..|ItemKeyPrefix|] == ItemKeyPrefix
    ensures IsInt32(id) ==> ParseInt32(k[|ItemKeyPrefix|..]) == Some(id)
  {
    ParseInt32OfAnyToString(id);

    ItemKeyPrefix + Int32ToString(id)
  }

  predicate IsListKey(k: string) {
    k == AllKey
    || (|k| > |DddKeyPrefix| && k[..|DddKeyPrefix|] == DddKeyPrefix)
  }

  // ---------------------------------------------------------------------------
  // Cache entries
  // ---------------------------------------------------------------------------

  datatype CacheValue = ListValue(contatos: seq<Contato>) | ItemValue(contato: Contato)

  /** An entry and its absolute expiration time. */
  datatype Entry = Entry(value: CacheValue, expiry: int)

  /** An entry is served while the clock is before its expiry. */
  predicate IsLive(e: Entry, now: int) {
    now < e.expiry
  }

  /** `TryGetValue<List<Contato>>`: a live entry that holds a list. */
  function CachedList(cache: map<string, Entry>, key: string, now: int): (r: Option<seq<Contato>>)
    ensures r.Some? <==> key in cache && now < cache[key].expiry && cache[key].value.ListValue?
    ensures r.Some? ==> cache[key].value == ListValue(r.value)
  {
    if key in cache && IsLive(cache[key], now) && cache[key].value.ListValue?
    then Some(cache[key].value.contatos) else None
  }

  /** `TryGetValue<Contato>`: a live entry that holds one contact. */
  function CachedItem(cache: map<string, Entry>, key: string, now: int): (r: Option<Contato>)
    ensures r.Some? <==> key in cache && now < cache[key].expiry && cache[key].value.ItemValue?
    ensures r.Some? ==> cache[key].value == ItemValue(r.value)
  {
    if key in cache && IsLive(cache[key], now) && cache[key].value.ItemValue?
    then Some(cache[key].value.contato) else None
  }

  /** `Set(key, value, ttl)`: insert or overwrite, expiring `ttl` after `now`. */
  function SetEntry(cache: map<string, Entry>, key: string, v: CacheValue, now: int, ttl: int)
    : (r: map<string, Entry>)
    ensures r.Keys == cache.Keys + {key}
    ensures r[key] == Entry(v, now + ttl)
    ensures forall k :: k in cache && k != key ==> r[k] == cache[k]
  {
    cache[key := Entry(v, now + ttl)]
  }

  // ---------------------------------------------------------------------------
  // The store
  // ---------------------------------------------------------------------------

  /** Column limits of the Contatos table. */
  predicate FitsColumns(c: Contato) {
    |c.nome| <= 100 && |c.email| <= 255 && |c.telefone| <= 11 && |c.ddd| <= 3
  }

  /** `Contatos.Any(c => c.Email == email)`. */
  predicate EmailInUse(store: map<int, Contato>, email: string) {
    exists k | k in store :: store[k].email == email
  }

  /** Some contact other than `id` already has `email`. */
  predicate EmailUsedByOther(store: map<int, Contato>, email: string, id: int) {
    exists k | k in store :: k != id && store[k].email == email
  }

  /**
   * What the table guarantees: the key of each row is its Id, ids come from an
   * identity counter starting at 1, emails are unique (the unique index) and
   * every value fits its column.
   */
  ghost predicate StoreInvariant(store: map<int, Contato>, nextId: int) {
    && 1 <= nextId <= Int32Max + 1
    && (forall k :: k in store ==> 1 <= k < nextId && store[k].id == k && FitsColumns(store[k]))
    && (forall j, k :: j in store && k in store && j != k ==> store[j].email != store[k].email)
  }

  /** Whether the list query with filter `ddd` selects `c`. */
  predicate Matches(c: Contato, ddd: Option<string>) {
    IsNullOrEmpty(ddd) || c.ddd == ddd.value
  }

  /**
   * The list query: the stored contacts with id in [1, bound) that match the
   * filter, in ascending id order.
   */
  function Query(store: map<int, Contato>, ddd: Option<string>, bound: int): (q: seq<Contato>)
    ensures |q| <= if bound <= 1 then 0 else bound - 1
    ensures forall i :: 0 <= i < |q| ==> Matches(q[i], ddd) && q[i] in store.Values
    decreases bound
  {
    if bound <= 1 then []
    else
      Query(store, ddd, bound - 1)
      + (if bound - 1 in store && Matches(store[bound - 1], ddd) then [store[bound - 1]] else [])
  }

  // ---------------------------------------------------------------------------
  // Outcomes
  // ---------------------------------------------------------------------------

  datatype BadRequestReason =
    | Invalid(errors: seq<Message>)   // validation failed, all messages
    | DuplicateEmail                  // Create: an existing contact has the email
    | MalformedId                     // the id in the path is not an int
    | IdMismatch                      // Update: path id differs from body Id

  /** Errors raised by the database at save time, which the actions do not catch. */
  datatype StoreFault =
    | UniqueEmailViolation    // the unique index on Email rejects an update
    | ExplicitIdentityInsert  // an insert that carries its own Id
    | IdentityExhausted       // the identity counter is past the int range

  datatype Outcome =
    | Created(contato: Contato)
    | OkList(contatos: seq<Contato>)
    | OkItem(contato: Contato)
    | Updated(id: Int32)
    | Deleted(id: Int32)
    | BadRequest(reason: BadRequestReason)
    | NotFound
    | StoreFailure(fault: StoreFault)

  /**
   * What the cache holds: non-empty lists under list keys, a contact under its
   * own item key, only contacts with ids the store has already handed out,
   * and no entry that outlives its lifetime counted from now.
   */
  ghost predicate CacheInvariant(cache: map<string, Entry>, now: int, nextId: int) {
    forall k :: k in cache ==> EntryInvariant(k, cache[k], now, nextId)
  }

  ghost predicate EntryInvariant(k: string, e: Entry, now: int, nextId: int) {
    match e.value
    case ListValue(l) =>
      && IsListKey(k) && l != [] && e.expiry <= now + ListTtl
      && (forall i :: 0 <= i < |l| ==> l[i].id < nextId)
    case ItemValue(c) =>
      k == ItemKey(c.id) && c.id < nextId && e.expiry <= now + ItemTtl
  }

  // ---------------------------------------------------------------------------
  // The controller
  // ---------------------------------------------------------------------------

  class ContatosController {
    var store: map<int, Contato>
    var nextId: int
    var cache: map<string, Entry>
    var now: int

    ghost predicate Valid()
      reads this
    {
      StoreInvariant(store, nextId) && CacheInvariant(cache, now, nextId)
    }

    /** A controller over a table already holding `seed`, with an empty cache. */
    constructor (seed: map<int, Contato>, firstFreeId: int, clock: int)
      requires StoreInvariant(seed, firstFreeId)
      ensures Valid()
      ensures store == seed && nextId == firstFreeId && cache == map[] && now == clock
    {
      store := seed;
      nextId := firstFreeId;
      cache := map[];
      now := clock;
    }

    /** The clock moves forward; nothing else changes. */
    method AdvanceClock(elapsed: nat)
      requires Valid()
      modifies this
      ensures Valid()
      ensures now == old(now) + elapsed
      ensures store == old(store) && nextId == old(nextId) && cache == old(cache)
    {
      now := now + elapsed;
    }

    /** POST: validate, reject a duplicate email, insert under a fresh id. */
    method Create(c: Contato) returns (r: Outcome)
      requires Valid()
      modifies this
      ensures Valid()
      ensures cache == old(cache) && now == old(now)
      ensures Violations(c) != [] ==>
        r == BadRequest(Invalid(Violations(c))) && store == old(store) && nextId == old(nextId)
      ensures Violations(c) == [] && EmailInUse(old(store), c.email) ==>
        r == BadRequest(DuplicateEmail) && store == old(store) && nextId == old(nextId)
      ensures Violations(c) == [] && !EmailInUse(old(store), c.email) && c.id != 0 ==>
        r == StoreFailure(ExplicitIdentityInsert) && store == old(store) && nextId == old(nextId)
      ensures Violations(c) == [] && !EmailInUse(old(store), c.email) && c.id == 0
              && old(nextId) > Int32Max ==>
        r == StoreFailure(IdentityExhausted) && store == old(store) && nextId == old(nextId)
      ensures Violations(c) == [] && !EmailInUse(old(store), c.email) && c.id == 0
              && old(nextId) <= Int32Max ==>
        && r.Created?
        && r.contato == c.(id := r.contato.id)
        && r.contato.id == old(nextId) && r.contato.id !in old(store)
        && store == old(store)[r.contato.id := r.contato]
        && nextId == old(nextId) + 1
    {
      var errors := Validate(c);
      if errors != [] {
        return BadRequest(Invalid(errors));
      }
      if EmailInUse(store, c.email) {
        return BadRequest(DuplicateEmail);
      }
      if c.id != 0 {
        return StoreFailure(ExplicitIdentityInsert);
      }
      if nextId > Int32Max {
        return StoreFailure(IdentityExhausted);
      }
      ValidFitsColumns(c);
      var created := c.(id := nextId);
      store := store[nextId := created];
      nextId := nextId + 1;
      r := Created(created);
    }

    /** GET list: a live cached list, else the query, cached only when non-empty. */
    method GetAll(ddd: Option<string>) returns (r: Outcome)
      requires Valid()
      modifies this
      ensures Valid()
      ensures store == old(store) && nextId == old(nextId) && now == old(now)
      ensures CachedList(old(cache), ListKey(ddd), now).Some? ==>
        r == OkList(CachedList(old(cache), ListKey(ddd), now).value) && cache == old(cache)
      ensures CachedList(old(cache), ListKey(ddd), now).None? && Query(store, ddd, nextId) == [] ==>
        r == NotFound && cache == old(cache)
      ensures CachedList(old(cache), ListKey(ddd), now).None? && Query(store, ddd, nextId) != [] ==>
        && r == OkList(Query(store, ddd, nextId))
        && cache == SetEntry(old(cache), ListKey(ddd), ListValue(Query(store, ddd, nextId)), now, ListTtl)
    {
      var key := ListKey(ddd);
      var hit := CachedList(cache, key, now);
      if hit.Some? {
        return OkList(hit.value);
      }
      var contatos := Query(store, ddd, nextId);
      if contatos == [] {
        return NotFound;
      }
      ListKeyIsListKey(ddd);
      QuerySound(store, ddd, nextId);
      cache := SetEntry(cache, key, ListValue(contatos), now, ListTtl);
      r := OkList(contatos);
    }

    /** GET one: parse the id, then a live cached contact, else the store (cached when found). */
    method GetById(id: string) returns (r: Outcome)
      requires Valid()
      modifies this
      ensures Valid()
      ensures store == old(store) && nextId == old(nextId) && now == old(now)
      ensures ParseInt32(id).None? ==> r == BadRequest(MalformedId) && cache == old(cache)
      ensures ParseInt32(id).Some? && CachedItem(old(cache), ItemKey(ParseInt32(id).value), now).Some? ==>
        r == OkItem(CachedItem(old(cache), ItemKey(ParseInt32(id).value), now).value)
        && cache == old(cache)
      ensures ParseInt32(id).Some? && CachedItem(old(cache), ItemKey(ParseInt32(id).value), now).None?
              && ParseInt32(id).value !in store ==>
        r == NotFound && cache == old(cache)
      ensures ParseInt32(id).Some? && CachedItem(old(cache), ItemKey(ParseInt32(id).value), now).None?
              && ParseInt32(id).value in store ==>
        && r == OkItem(store[ParseInt32(id).value])
        && cache == SetEntry(old(cache), ItemKey(ParseInt32(id).value),
                             ItemValue(store[ParseInt32(id).value]), now, ItemTtl)
    {
      var parsed := ParseInt32(id);
      if parsed.None? {
        return BadRequest(MalformedId);
      }
      var n := parsed.value;
      var key := ItemKey(n);
      var hit := CachedItem(cache, key, now);
      if hit.Some? {
        return OkItem(hit.value);
      }
      if n !in store {
        return NotFound;
      }
      var contato := store[n];
      cache := SetEntry(cache, key, ItemValue(contato), now, ItemTtl);
      r := OkItem(contato);
    }

    /** PUT: ids must agree, body must validate, the contact must exist; whole-record replace. */
    method Update(id: Int32, c: Contato) returns (r: Outcome)
      requires Valid()
      modifies this
      ensures Valid()
      ensures cache == old(cache) && now == old(now) && nextId == old(nextId)
      ensures id != c.id ==> r == BadRequest(IdMismatch) && store == old(store)
      ensures id == c.id && Violations(c) != [] ==>
        r == BadRequest(Invalid(Violations(c))) && store == old(store)
      ensures id == c.id && Violations(c) == [] && id !in old(store) ==>
        r == NotFound && store == old(store)
      ensures id == c.id && Violations(c) == [] && id in old(store)
              && EmailUsedByOther(old(store), c.email, id) ==>
        r == StoreFailure(UniqueEmailViolation) && store == old(store)
      ensures id == c.id && Violations(c) == [] && id in old(store)
              && !EmailUsedByOther(old(store), c.email, id) ==>
        r == Updated(id) && store == old(store)[id := c]
    {
      if id != c.id {
        return BadRequest(IdMismatch);
      }
      var errors := Validate(c);
      if errors != [] {
        return BadRequest(Invalid(errors));
      }
      if id !in store {
        return NotFound;
      }
      if EmailUsedByOther(store, c.email, id) {
        return StoreFailure(UniqueEmailViolation);
      }
      ValidFitsColumns(c);
      store := store[id := c];
      r := Updated(id);
    }

    /** DELETE: parse the id; the contact must exist; remove exactly that row. */
    method Delete(id: string) returns (r: Outcome)
      requires Valid()
      modifies this
      ensures Valid()
      ensures cache == old(cache) && now == old(now) && nextId == old(nextId)
      ensures ParseInt32(id).None? ==> r == BadRequest(MalformedId) && store == old(store)
      ensures ParseInt32(id).Some? && ParseInt32(id).value !in old(store) ==>
        r == NotFound && store == old(store)
      ensures ParseInt32(id).Some? && ParseInt32(id).value in old(store) ==>
        r == Deleted(ParseInt32(id).value) && store == old(store) - {ParseInt32(id).value}
    {
      var parsed := ParseInt32(id);
      if parsed.None? {
        return BadRequest(MalformedId);
      }
      var n := parsed.value;
      if n !in store {
        return NotFound;
      }
      store := store - {n};
      r := Deleted(n);
    }
  }

  // ---------------------------------------------------------------------------
  // Lemmas
  // ---------------------------------------------------------------------------

  /** A contact that passes validation fits the table's columns. */
  lemma ValidFitsColumns(c: Contato)
    requires Violations(c) == []
    ensures FitsColumns(c)
  {
    ValidIffNoViolations(c);
  }

  lemma ListKeyIsListKey(ddd: Option<string>)
    ensures IsListKey(ListKey(ddd))
  {
    if !IsNullOrEmpty(ddd) {
      assert (DddKeyPrefix + ddd.value)[..|DddKeyPrefix|] == DddKeyPrefix;
    }
  }

  /** No list key is ever an item key. */
  lemma KeyFamiliesDisjoint(ddd: Option<string>, id: int)
    ensures ListKey(ddd) != ItemKey(id)
    ensures !IsListKey(ItemKey(id))
  {
    var item := ItemKey(id);
    assert item[0] == 'c' && item[7] == '_';
    if |item| > |DddKeyPrefix| {
      assert item[..|DddKeyPrefix|][7] == '_';
    }
    ListKeyIsListKey(ddd);
  }

  /** Two list queries share a cache key exactly when they have the same filter. */
  lemma ListKeyInjective(d1: Option<string>, d2: Option<string>)
    ensures ListKey(d1) == ListKey(d2) <==> Filter(d1) == Filter(d2)
  {
    if !IsNullOrEmpty(d1) && !IsNullOrEmpty(d2) && ListKey(d1) == ListKey(d2) {
      assert d1.value == ListKey(d1)[|DddKeyPrefix|..];
      assert d2.value == ListKey(d2)[|DddKeyPrefix|..];
    }
    if IsNullOrEmpty(d1) != IsNullOrEmpty(d2) {
      assert AllKey[0] == 'a';
      assert (DddKeyPrefix + (if IsNullOrEmpty(d1) then d2 else d1).value)[0] == 'c';
    }
  }

  /** Two ids share an item key exactly when they are equal. */
  lemma ItemKeyInjective(a: Int32, b: Int32)
    ensures ItemKey(a) == ItemKey(b) <==> a == b
  {
    if ItemKey(a) == ItemKey(b) {
      assert Int32ToString(a) == ItemKey(a)[|ItemKeyPrefix|..];
      assert Int32ToString(b) == ItemKey(b)[|ItemKeyPrefix|..];
      Int32ToStringInjective(a, b);
    }
  }

  /** A set entry is served from `now` until just before `now + ttl`, and the other keys are untouched. */
  lemma SetEntryLifetime(cache: map<string, Entry>, key: string, v: CacheValue, now: int, ttl: int, t: int, other: string)
    requires other != key
    ensures var c' := SetEntry(cache, key, v, now, ttl);
      && (key in c' && IsLive(c'[key], t) <==> t < now + ttl)
      && c'[key].value == v
      && (other in c' <==> other in cache)
      && (other in cache ==> c'[other] == cache[other])
  {
  }

  /**
   * A typed list lookup after `Set`: the list just set is found until its
   * expiry, a contact set under the key makes the list lookup miss, and the
   * lookups at every other key are unaffected.
   */
  lemma ListLookupAfterSet(cache: map<string, Entry>, key: string, v: CacheValue, now: int, ttl: int,
                           t: int, other: string)
    requires other != key
    ensures CachedList(SetEntry(cache, key, v, now, ttl), key, t) ==
      if t < now + ttl && v.ListValue? then Some(v.contatos) else None
    ensures CachedList(SetEntry(cache, key, v, now, ttl), other, t) == CachedList(cache, other, t)
  {
  }

  /**
   * A typed contact lookup after `Set`: the contact just set is found until its
   * expiry, a list set under the key makes the contact lookup miss, and the
   * lookups at every other key are unaffected.
   */
  lemma ItemLookupAfterSet(cache: map<string, Entry>, key: string, v: CacheValue, now: int, ttl: int,
                           t: int, other: string)
    requires other != key
    ensures CachedItem(SetEntry(cache, key, v, now, ttl), key, t) ==
      if t < now + ttl && v.ItemValue? then Some(v.contato) else None
    ensures CachedItem(SetEntry(cache, key, v, now, ttl), other, t) == CachedItem(cache, other, t)
  {
  }

  /** One step of the list query: the query up to `bound - 1`, then possibly row `bound - 1`. */
  lemma QueryStep(store: map<int, Contato>, ddd: Option<string>, bound: int)
    requires bound > 1
    ensures Query(store, ddd, bound) == Query(store, ddd, bound - 1)
      + (if bound - 1 in store && Matches(store[bound - 1], ddd) then [store[bound - 1]] else [])
  {
  }

  /** Everything the list query returns is a stored contact with id in [1, bound) that matches. */
  lemma {:induction false} QuerySound(store: map<int, Contato>, ddd: Option<string>, bound: int)
    requires forall k :: k in store ==> store[k].id == k
    ensures forall c :: c in Query(store, ddd, bound) ==>
      1 <= c.id < bound && c.id in store && store[c.id] == c && Matches(c, ddd)
    decreases bound
  {
    if bound > 1 {
      QuerySound(store, ddd, bound - 1);
      QueryStep(store, ddd, bound);
    }
  }

  /** Every stored contact with id in [1, bound) that matches is returned. */
  lemma {:induction false} QueryComplete(store: map<int, Contato>, ddd: Option<string>, bound: int)
    ensures forall k :: 1 <= k < bound && k in store && Matches(store[k], ddd) ==>
      store[k] in Query(store, ddd, bound)
    decreases bound
  {
    if bound > 1 {
      QueryComplete(store, ddd, bound - 1);
      QueryStep(store, ddd, bound);
    }
  }

  /** The list query returns contacts in strictly ascending id order, so none twice. */
  lemma {:induction false} QuerySorted(store: map<int, Contato>, ddd: Option<string>, bound: int)
    requires forall k :: k in store ==> store[k].id == k
    ensures forall i, j :: 0 <= i < j < |Query(store, ddd, bound)| ==>
      Query(store, ddd, bound)[i].id < Query(store, ddd, bound)[j].id
    decreases bound
  {
    if bound > 1 {
      QuerySorted(store, ddd, bound - 1);
      QuerySound(store, ddd, bound - 1);
      QueryStep(store, ddd, bound);
      var p := Query(store, ddd, bound - 1);
      var q := Query(store, ddd, bound);
      forall i, j | 0 <= i < j < |q| ensures q[i].id < q[j].id {
        assert q[i] == p[i] && p[i] in p;
        if j >= |p| {
          assert q[j] == store[bound - 1];
        } else {
          assert q[j] == p[j];
        }
      }
    }
  }

  /** With no filter the query returns every stored contact. */
  lemma QueryAll(store: map<int, Contato>, ddd: Option<string>, bound: int)
    requires IsNullOrEmpty(ddd)
    requires forall k :: k in store ==> store[k].id == k && 1 <= k < bound
    ensures forall k :: k in store ==> store[k] in Query(store, ddd, bound)
    ensures forall c :: c in Query(store, ddd, bound) ==> c.id in store && store[c.id] == c
  {
    QuerySound(store, ddd, bound);
    QueryComplete(store, ddd, bound);
  }
}
