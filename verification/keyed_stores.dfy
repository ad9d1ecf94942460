/**
 * The concrete test stores: DummyMemoryPersistence, DummyRefMemoryPersistence,
 * DummyInterfacableMemoryPersistence and DummyMapMemoryPersistence. Each
 * embeds the identifiable engine and adds `GetPageByFilter` and
 * `GetCountByFilter`, which read the "Key" filter parameter, build a Key
 * filter and a key-length comparator, and delegate.
 *
 * The four differ only in how a record's Key is read, so one class,
 * parameterised by that accessor, models them all. The accessor answers
 * None when a record has no string Key (only possible for a map record).
 */
module KeyedStores {
  import opened Wrappers
  import opened Queries
  import opened Persistence
  import Identifiable
  import Sorting

  /** Filter parameters: a string map. */
  type FilterParams = map<string, string>

  /** `filter.GetAsNullableString("Key")`, with a missing parameter read as "". */
  function FilterKey(filter: FilterParams): (r: string)
    ensures "Key" in filter ==> r == filter["Key"]
    ensures "Key" !in filter ==> r == ""
  {
    if "Key" in filter then filter["Key"] else ""
  }

  /**
   * The Key filter closure: a record passes iff it has a Key, and the
   * filter key is empty or equal to it.
   */
  function KeyFilter<T(!new)>(keyOf: T -> Option<string>, key: string): (f: T -> bool)
    ensures forall x :: f(x) <==> keyOf(x).Some? && (key == "" || keyOf(x).value == key)
  {
    x => keyOf(x).Some? && !(key != "" && keyOf(x).value != key)
  }

  /** The length of a record's Key; a record without one reads as "". */
  function KeyLength<T>(keyOf: T -> Option<string>, x: T): nat {
    |keyOf(x).GetOr("")|
  }

  /** The comparator: a sorts before b iff a's Key is shorter than b's. */
  function KeyLengthLess<T(!new)>(keyOf: T -> Option<string>): (less: (T, T) -> bool)
    ensures forall a, b :: less(a, b) <==> KeyLength(keyOf, a) < KeyLength(keyOf, b)
  {
    (a, b) => KeyLength(keyOf, a) < KeyLength(keyOf, b)
  }

  /** Comparing key lengths is a strict weak order, so the sort's result is ordered by it. */
  lemma KeyLengthLessIsStrictWeakOrder<T(!new)>(keyOf: T -> Option<string>)
    ensures Sorting.StrictWeakOrder(KeyLengthLess(keyOf))
  {
  }

  /** Sorted by the comparator means key lengths never decrease along the sequence. */
  lemma SortedByKeyLength<T(!new)>(s: seq<T>, keyOf: T -> Option<string>)
    requires Sorting.SortedBy(s, KeyLengthLess(keyOf))
    ensures forall i, j :: 0 <= i < j < |s| ==> KeyLength(keyOf, s[i]) <= KeyLength(keyOf, s[j])
  {
    forall i, j | 0 <= i < j < |s|
      ensures KeyLength(keyOf, s[i]) <= KeyLength(keyOf, s[j])
    {
      assert !KeyLengthLess(keyOf)(s[j], s[i]);
    }
  }

  /** When every record has a Key, an empty filter key lets every record through. */
  lemma {:induction false} EmptyKeyPassesAll<T(!new)>(s: seq<T>, keyOf: T -> Option<string>)
    requires forall x :: keyOf(x).Some?
    ensures Matching(s, Some(KeyFilter(keyOf, ""))) == s
  {
    forall i | 0 <= i < |s|
      ensures Passes(Some(KeyFilter(keyOf, "")), s[i])
    {
    }
    MatchingAll(s, Some(KeyFilter(keyOf, "")));
  }

  /** A record without a Key never passes, whatever the filter key. */
  lemma {:induction false} KeylessNeverMatches<T(!new)>(s: seq<T>, keyOf: T -> Option<string>, key: string)
    requires forall i :: 0 <= i < |s| ==> keyOf(s[i]).None?
    ensures Matching(s, Some(KeyFilter(keyOf, key))) == []
  {
    MatchingEmpty(s, Some(KeyFilter(keyOf, key)));
  }

  class KeyedMemoryPersistence<T(!new)> {
    /** The embedded identifiable engine. */
    const Store: Identifiable.IdentifiableMemoryPersistence<T, string>
    /** How this store reads a record's Key. */
    const KeyOf: T -> Option<string>

    /** A store over a fresh identifiable engine, as the `New...MemoryPersistence` constructors build it. */
    constructor (clone: T -> T, ident: Identifiable.Identity<T, string>, keyOf: T -> Option<string>)
      ensures fresh(Store) && fresh(Store.base) && KeyOf == keyOf
      ensures Store.Ident == ident && Store.base.Clone == clone
      ensures Store.base.Items == [] && !Store.base.Opened && Store.base.MaxPageSize == 100
      ensures !Store.base.HasLoader && !Store.base.HasSaver && Store.base.Saved == []
    {
      Store := new Identifiable.IdentifiableMemoryPersistence(clone, ident);
      KeyOf := keyOf;
    }

    /**
     * The page of records that pass the Key filter, ordered by key length
     * (not stably), cut by skip and take, with no projection. Nothing
     * stored changes.
     */
    method GetPageByFilter(filter: FilterParams, paging: PagingParams)
      returns (page: DataPage<T>, ghost ordered: seq<T>)
      requires TakeOf(paging, Store.base.MaxPageSize) >= 0
      ensures multiset(ordered) ==
              multiset(CloneAll(Matching(Store.base.Items, Some(KeyFilter(KeyOf, FilterKey(filter)))), Store.base.Clone))
      ensures forall i, j :: 0 <= i < j < |ordered| ==> KeyLength(KeyOf, ordered[i]) <= KeyLength(KeyOf, ordered[j])
      ensures page.Data == Window(ordered, SkipOf(paging), TakeOf(paging, Store.base.MaxPageSize))
      ensures page.Total ==
              if paging.Total then |Matching(Store.base.Items, Some(KeyFilter(KeyOf, FilterKey(filter))))| else 0
    {
      var key := FilterKey(filter);
      KeyLengthLessIsStrictWeakOrder(KeyOf);
      page, ordered := Store.base.GetPageByFilter(Some(KeyFilter(KeyOf, key)), paging, Some(KeyLengthLess(KeyOf)), None);
      SortedByKeyLength(ordered, KeyOf);
    }

    /**
     * The number of records that pass the Key filter. The filter is never
     * nil, so when every record has a Key an empty filter key counts them all.
     */
    method GetCountByFilter(filter: FilterParams) returns (count: int)
      ensures count == |Matching(Store.base.Items, Some(KeyFilter(KeyOf, FilterKey(filter))))|
      ensures FilterKey(filter) == "" && (forall x :: KeyOf(x).Some?) ==> count == |Store.base.Items|
    {
      count := Store.base.GetCountByFilter(Some(KeyFilter(KeyOf, FilterKey(filter))));
      if FilterKey(filter) == "" && (forall x :: KeyOf(x).Some?) {
        EmptyKeyPassesAll(Store.base.Items, KeyOf);
      }
    }
  }
}
