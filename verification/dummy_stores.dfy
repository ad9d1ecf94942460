/**
 * The concrete stores of the test suite, and the fixture's CRUD and batch
 * scenarios (test/persistence/DummyPersistenceFixture.go) replayed on the
 * Dummy store with generated ids as inputs.
 */
module DummyStores {
  import opened Wrappers
  import opened Queries
  import opened Persistence
  import opened KeyedStores
  import opened Dummies
  import DummyMaps
  import DummyRefs
  import Identifiable

  /** A Dummy always has a Key. */
  function DummyKey(d: Dummy): Option<string> {
    Some(d.Key)
  }

  /** `GetAsNullableString("Key")` on a map record: the string under "Key", if there is one. */
  function MapKey(m: DummyMaps.Fields): Option<string> {
    if "Key" in m && m["Key"].Str? then Some(m["Key"].s) else None
  }

  /** `NewDummyMemoryPersistence`: the engine over Dummy values, whose zero value is `Dummy{}`. */
  method NewDummyMemoryPersistence() returns (p: KeyedMemoryPersistence<Dummy>)
    ensures fresh(p) && fresh(p.Store) && fresh(p.Store.base)
    ensures p.KeyOf == DummyKey && p.Store.Ident == DummyIdentity() && p.Store.base.Clone == CloneOf
    ensures p.Store.base.Items == [] && p.Store.base.MaxPageSize == 100
    ensures !p.Store.base.HasLoader && !p.Store.base.HasSaver && p.Store.base.Saved == []
  {
    p := new KeyedMemoryPersistence(CloneOf, DummyIdentity(), DummyKey);
  }

  /** `NewDummyMapMemoryPersistence`. */
  method NewDummyMapMemoryPersistence() returns (p: KeyedMemoryPersistence<DummyMaps.Fields>)
    ensures fresh(p) && fresh(p.Store) && fresh(p.Store.base)
    ensures p.KeyOf == MapKey && p.Store.Ident == DummyMaps.DummyMapIdentity()
    ensures p.Store.base.Clone == DummyMaps.CloneOf
    ensures p.Store.base.Items == [] && p.Store.base.MaxPageSize == 100
    ensures !p.Store.base.HasLoader && !p.Store.base.HasSaver && p.Store.base.Saved == []
  {
    p := new KeyedMemoryPersistence(DummyMaps.CloneOf, DummyMaps.DummyMapIdentity(), MapKey);
  }

  /** The DummyRef store reads `item.Key` through the pointer; nil has no Key. */
  function RefKey(p: DummyRefs.Ref): (r: Option<string>)
    ensures r.Some? <==> p.Some?
    ensures p.Some? ==> r.value == p.value.Key
  {
    match p
    case None => None
    case Some(d) => Some(d.Key)
  }

  /**
   * `NewDummyRefMemoryPersistence`: the engine over `*DummyRef` pointers,
   * whose zero value, answered for a missing id, is nil.
   */
  method NewDummyRefMemoryPersistence() returns (p: KeyedMemoryPersistence<DummyRefs.Ref>)
    ensures fresh(p) && fresh(p.Store) && fresh(p.Store.base)
    ensures p.KeyOf == RefKey && p.Store.Ident == DummyRefs.RefIdentity()
    ensures p.Store.base.Clone == DummyRefs.CloneRef
    ensures p.Store.base.Items == [] && p.Store.base.MaxPageSize == 100
    ensures !p.Store.base.HasLoader && !p.Store.base.HasSaver && p.Store.base.Saved == []
  {
    p := new KeyedMemoryPersistence(DummyRefs.CloneRef, DummyRefs.RefIdentity(), RefKey);
  }

  /**
   * On a fresh DummyRef store holding one created record, `GetOneById`
   * answers a pointer to a copy of it for its id, and nil for any other
   * id, so a caller can tell a missing id from a stored record.
   */
  method RefMissingScenario(id1: string, other: string)
    returns (created: DummyRefs.Ref, found: DummyRefs.Ref, missing: DummyRefs.Ref)
    requires id1 != "" && other != id1
    ensures created == Some(Dummy(id1, "Key 1", "Content 1"))
    ensures found == created
    ensures missing == None
  {
    var p := NewDummyRefMemoryPersistence();
    var err;
    created, err := p.Store.Create(Some(Dummy("", "Key 1", "Content 1")), id1, None);
    found := p.Store.GetOneById(id1);
    missing := p.Store.GetOneById(other);
  }

  /**
   * `NewDummyInterfacableMemoryPersistence`: the record type is not part of
   * this model beyond having a Key field, read by `keyField`; its clone and
   * id capability are parameters.
   */
  method NewDummyInterfacableMemoryPersistence<T(!new)>(clone: T -> T, ident: Identifiable.Identity<T, string>,
                                                       keyField: T -> string)
    returns (p: KeyedMemoryPersistence<T>)
    ensures fresh(p) && fresh(p.Store) && fresh(p.Store.base)
    ensures forall x :: p.KeyOf(x) == Some(keyField(x))
    ensures p.Store.Ident == ident && p.Store.base.Clone == clone
    ensures p.Store.base.Items == [] && p.Store.base.MaxPageSize == 100
    ensures !p.Store.base.HasLoader && !p.Store.base.HasSaver && p.Store.base.Saved == []
  {
    p := new KeyedMemoryPersistence(clone, ident, FieldKey(keyField));
  }

  /** A Key accessor that always finds the Key field. */
  function FieldKey<T(!new)>(keyField: T -> string): (keyOf: T -> Option<string>)
    ensures forall x :: keyOf(x) == Some(keyField(x))
  {
    x => Some(keyField(x))
  }

  /**
   * On a record type with a Key field, an empty or missing "Key" parameter
   * lets every record through, a key k exactly those with Key == k, and
   * the comparator compares Key lengths.
   */
  lemma FieldFilterAccepts<T(!new)>(keyField: T -> string, x: T, y: T, filter: FilterParams)
    ensures FilterKey(filter) == "" ==> KeyFilter(FieldKey(keyField), FilterKey(filter))(x)
    ensures FilterKey(filter) != "" ==>
            (KeyFilter(FieldKey(keyField), FilterKey(filter))(x) <==> keyField(x) == FilterKey(filter))
    ensures KeyLengthLess(FieldKey(keyField))(x, y) <==> |keyField(x)| < |keyField(y)|
  {
  }

  /**
   * The DummyRef store's filter and comparator, read through the pointer:
   * the filter on a pointer to an object looks at the object's Key, and the
   * comparator compares the two objects' Key lengths.
   */
  lemma RefFilterAccepts(r: DummyRefs.DummyRef, r2: DummyRefs.DummyRef, filter: FilterParams)
    ensures FilterKey(filter) == "" ==> KeyFilter(RefKey, FilterKey(filter))(Some(r.Snapshot()))
    ensures FilterKey(filter) != "" ==>
            (KeyFilter(RefKey, FilterKey(filter))(Some(r.Snapshot())) <==> r.Key == FilterKey(filter))
    ensures KeyLengthLess(RefKey)(Some(r.Snapshot()), Some(r2.Snapshot())) <==> |r.Key| < |r2.Key|
  {
  }

  /**
   * The map store's filter: a map without a string "Key" fails even for an
   * empty filter key; one with a Key passes iff the filter key is empty or
   * equal to it.
   */
  lemma MapFilterAccepts(m: DummyMaps.Fields, key: string)
    ensures !("Key" in m && m["Key"].Str?) ==> !KeyFilter(MapKey, key)(m)
    ensures "Key" in m && m["Key"].Str? ==>
            (KeyFilter(MapKey, key)(m) <==> key == "" || m["Key"] == DummyMaps.Str(key))
  {
  }

  /** On Dummy records an empty or missing "Key" parameter lets all through; a key k lets through exactly Key == k. */
  lemma DummyFilterAccepts(d: Dummy, filter: FilterParams)
    ensures FilterKey(filter) == "" ==> KeyFilter(DummyKey, FilterKey(filter))(d)
    ensures FilterKey(filter) != "" ==> (KeyFilter(DummyKey, FilterKey(filter))(d) <==> d.Key == FilterKey(filter))
  {
  }

  /** The fixture's records: "Key 2" sorts before "Key 11", whatever the ids and contents. */
  lemma FixtureKeyOrder(a: Dummy, b: Dummy)
    requires a.Key == "Key 2" && b.Key == "Key 11"
    ensures KeyLengthLess(DummyKey)(a, b) && !KeyLengthLess(DummyKey)(b, a)
  {
  }

  /** A two-record permutation ordered by key length, with different key lengths, is determined. */
  lemma TwoByKeyLength(o: seq<Dummy>, a: Dummy, b: Dummy)
    requires multiset(o) == multiset([a, b])
    requires |a.Key| > |b.Key|
    requires forall i, j :: 0 <= i < j < |o| ==> KeyLength(DummyKey, o[i]) <= KeyLength(DummyKey, o[j])
    ensures o == [b, a]
  {
    assert |o| == |multiset(o)| == 2;
    assert o == [o[0], o[1]];
    assert multiset{o[0], o[1]} == multiset{a, b};
    assert o == [a, b] || o == [b, a];
    assert KeyLength(DummyKey, o[0]) <= KeyLength(DummyKey, o[1]);
  }

  /**
   * The fixture's set-up: a fresh Dummy store with no Saver holding the
   * two fixture records, created with ids `id1` and `id2`. Create keeps
   * Key and Content and sets the generated id.
   */
  method FixtureStore(id1: string, id2: string)
    returns (p: KeyedMemoryPersistence<Dummy>, created1: Dummy, created2: Dummy)
    requires id1 != "" && id2 != ""
    ensures fresh(p) && fresh(p.Store) && fresh(p.Store.base)
    ensures p.KeyOf == DummyKey && p.Store.Ident == DummyIdentity() && p.Store.base.Clone == CloneOf
    ensures p.Store.base.MaxPageSize == 100 && !p.Store.base.HasSaver
    ensures created1 == Dummy(id1, "Key 11", "Content 1") && created2 == Dummy(id2, "Key 2", "Content 2")
    ensures p.Store.base.Items == [created1, created2]
  {
    p := NewDummyMemoryPersistence();
    var err;
    created1, err := p.Store.Create(Dummy("", "Key 11", "Content 1"), id1, None);
    created2, err := p.Store.Create(Dummy("", "Key 2", "Content 2"), id2, None);
  }

  /**
   * The first half of the fixture's CRUD test on a fresh Dummy store with
   * no Saver, given the two ids the generator hands out: Create keeps Key
   * and Content and sets the generated id; the unfiltered default page
   * lists "Key 2" before "Key 11"; the empty filter counts both records.
   */
  method CrudQueryScenario(id1: string, id2: string)
    returns (created1: Dummy, created2: Dummy, page: DataPage<Dummy>, count: int)
    requires id1 != "" && id2 != ""
    ensures created1 == Dummy(id1, "Key 11", "Content 1") && created2 == Dummy(id2, "Key 2", "Content 2")
    ensures page.Data == [created2, created1] && page.Total == 0
    ensures count == 2
  {
    var p;
    p, created1, created2 := FixtureStore(id1, id2);
    ghost var items := p.Store.base.Items;
    EmptyKeyPassesAll(items, DummyKey);
    assert CloneAll(items, CloneOf) == items;

    ghost var ordered;
    page, ordered := p.GetPageByFilter(map[], PagingParams(None, None, false));
    TwoByKeyLength(ordered, created1, created2);

    count := p.GetCountByFilter(map[]);
  }

  /**
   * The update steps of the fixture's CRUD test on the set-up store:
   * Update with new Content, then a partial update naming only Content.
   * Both keep the id and Key, and only the first record changes.
   */
  method UpdateSteps(p: KeyedMemoryPersistence<Dummy>, created1: Dummy, created2: Dummy)
    returns (updated: Dummy, patched: Dummy)
    requires p.Store.Ident == DummyIdentity() && p.Store.base.Clone == CloneOf && !p.Store.base.HasSaver
    requires created1.Id != created2.Id && p.Store.base.Items == [created1, created2]
    modifies p.Store.base
    ensures updated == created1.(Content := "Updated Content 1")
    ensures patched == created1.(Content := "Partially Updated Content 1")
    ensures p.Store.base.Items == [patched, created2]
  {
    var err;
    updated, err := p.Store.Update(created1.(Content := "Updated Content 1"), None);
    assert p.Store.base.Items == [updated, created2];
    patched, err := p.Store.UpdatePartially(created1.Id, d => SetProperties(d, map["Content" := "Partially Updated Content 1"]), None);
  }

  /**
   * The second half of the fixture's CRUD test: Update and the
   * Content-only partial update keep the id and Key; GetOneById sees the
   * patch; DeleteById returns the patched record; afterwards GetOneById
   * answers the zero Dummy.
   */
  method CrudUpdateScenario(id1: string, id2: string)
    returns (updated: Dummy, patched: Dummy, found: Dummy, deleted: Dummy, afterDelete: Dummy)
    requires id1 != "" && id2 != "" && id1 != id2
    ensures updated == Dummy(id1, "Key 11", "Updated Content 1")
    ensures patched == Dummy(id1, "Key 11", "Partially Updated Content 1")
    ensures found == patched && deleted == patched
    ensures afterDelete == Zero
  {
    var p, created1, created2 := FixtureStore(id1, id2);
    updated, patched := UpdateSteps(p, created1, created2);
    found := p.Store.GetOneById(id1);
    var err;
    deleted, err := p.Store.DeleteById(id1, None);
    assert p.Store.base.Items == [created2];
    afterDelete := p.Store.GetOneById(id1);
  }

  /**
   * The fixture's batch test: after two creates, `GetListByIds` of both
   * ids returns both records; after `DeleteByIds` of both ids the store is
   * empty and `GetListByIds` returns nothing.
   */
  method BatchScenario(id1: string, id2: string) returns (before: seq<Dummy>, after: seq<Dummy>)
    requires id1 != "" && id2 != ""
    ensures |before| == 2 && after == []
  {
    var p, created1, created2 := FixtureStore(id1, id2);
    var err;
    ghost var items := p.Store.base.Items;
    ghost var f := Identifiable.IdFilter(DummyIdentity(), [id1, id2]);
    assert f(created1) by { assert DummyIdentity().IsEqualId(created1, [id1, id2][0]); }
    assert f(created2) by { assert DummyIdentity().IsEqualId(created2, [id1, id2][1]); }
    MatchingAll(items, Some(f));
    before := p.Store.GetListByIds([id1, id2]);
    err := p.Store.DeleteByIds([id1, id2], None);
    Identifiable.DeletedIdsAreGone(items, DummyIdentity(), [id1, id2]);
    after := p.Store.GetListByIds([id1, id2]);
    assert after == [] by {
      assert p.Store.base.Items == Matching(items, Some(Negate(f)));
    }
  }
}
