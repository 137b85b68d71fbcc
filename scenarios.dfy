/**
 * Sequences of controller actions and what the caching policy makes of them.
 * Each method drives a controller through a few actions and states, in its
 * postcondition, what the later action answers.
 */
module ControllerScenarios {
  import opened NetText
  import opened ContatoModel
  import opened Controllers

  /** A contact returned by Create is found by GetById with its new id. */
  method CreateThenGetById(ctl: ContatosController, c: Contato)
    returns (created: Outcome, fetched: Outcome)
    requires ctl.Valid()
    modifies ctl
    ensures ctl.Valid()
    ensures created.Created? ==> fetched == OkItem(created.contato)
  {
    created := ctl.Create(c);
    fetched := created;
    if created.Created? {
      var id := created.contato.id;
      ParseInt32OfAnyToString(id);
      NoEntryForFreshId(ctl.cache, ctl.now, ctl.nextId - 1);
      fetched := ctl.GetById(Int32ToString(id));
    }
  }

  /**
   * A contact read before an Update is read again, unchanged, right after it:
   * Update writes the store and leaves the cached copy in place.
   */
  method StaleItemAfterUpdate(ctl: ContatosController, id: Int32, c: Contato)
    returns (before: Outcome, updated: Outcome, after: Outcome)
    requires ctl.Valid()
    modifies ctl
    ensures ctl.Valid()
    ensures updated == Updated(id) ==> id in ctl.store && ctl.store[id] == c
    ensures before.OkItem? ==> after == before
  {
    before := ctl.GetById(Int32ToString(id));
    updated := ctl.Update(id, c);
    after := ctl.GetById(Int32ToString(id));
  }

  /**
   * A list read before a Create is read again, unchanged, right after it, and
   * does not contain the new contact even when it matches the filter.
   */
  method StaleListAfterCreate(ctl: ContatosController, ddd: Option<string>, c: Contato)
    returns (before: Outcome, created: Outcome, after: Outcome)
    requires ctl.Valid()
    modifies ctl
    ensures ctl.Valid()
    ensures before.OkList? ==> after == before
    ensures before.OkList? && created.Created? ==> created.contato !in after.contatos
  {
    before := ctl.GetAll(ddd);
    ghost var bound := ctl.nextId;
    created := ctl.Create(c);
    after := ctl.GetAll(ddd);
    if before.OkList? && created.Created? {
      assert forall i :: 0 <= i < |after.contatos| ==> after.contatos[i].id < bound;
    }
  }

  /** After the item lifetime has passed, GetById answers from the store. */
  method GetByIdAfterItemTtl(ctl: ContatosController, id: string) returns (r: Outcome)
    requires ctl.Valid()
    modifies ctl
    ensures ctl.Valid()
    ensures ParseInt32(id).Some? ==>
      r == if ParseInt32(id).value in ctl.store then OkItem(ctl.store[ParseInt32(id).value]) else NotFound
  {
    ctl.AdvanceClock(ItemTtl as nat);
    r := ctl.GetById(id);
  }

  /** After the list lifetime has passed, GetAll answers from the store. */
  method GetAllAfterListTtl(ctl: ContatosController, ddd: Option<string>) returns (r: Outcome)
    requires ctl.Valid()
    modifies ctl
    ensures ctl.Valid()
    ensures Query(ctl.store, ddd, ctl.nextId) == [] ==> r == NotFound
    ensures Query(ctl.store, ddd, ctl.nextId) != [] ==> r == OkList(Query(ctl.store, ddd, ctl.nextId))
  {
    ctl.AdvanceClock(ListTtl as nat);
    r := ctl.GetAll(ddd);
  }

  /** A deleted id is never handed out again by a later Create. */
  method DeleteThenCreate(ctl: ContatosController, id: string, c: Contato)
    returns (deleted: Outcome, created: Outcome)
    requires ctl.Valid()
    modifies ctl
    ensures ctl.Valid()
    ensures deleted.Deleted? && created.Created? ==> created.contato.id != deleted.id
  {
    deleted := ctl.Delete(id);
    created := ctl.Create(c);
  }

  /** The cache holds nothing under the item key of an id the store has not handed out. */
  lemma NoEntryForFreshId(cache: map<string, Entry>, now: int, id: int)
    requires IsInt32(id)
    requires CacheInvariant(cache, now, id)
    ensures CachedItem(cache, ItemKey(id), now).None?
  {
    var key := ItemKey(id);
    if key in cache {
      KeyFamiliesDisjoint(None, id);
      var e := cache[key];
      assert EntryInvariant(key, e, now, id);
      if e.value.ItemValue? {
        ItemKeyInjective(e.value.contato.id, id);
      }
    }
  }
}
