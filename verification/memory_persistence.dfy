/**
 * The in-memory persistence engine of persistence/MemoryPersistence.go: an
 * ordered sequence of records, an Opened flag and a page-size bound, loaded
 * from and saved to an external Loader/Saver, and queried through the
 * filter, sort, page and projection pipeline.
 *
 * The lock is left out: every method is one atomic step. The Loader and the
 * Saver are external collaborators: whether one is configured is a field,
 * and what it answers when called is a parameter of the method that calls it.
 */
module Persistence {
  import opened Wrappers
  import opened Queries
  import Sorting

  /** The failures the Loader/Saver collaborators report. */
  datatype Error =
    | ConfigError(code: string)  // e.g. NO_PATH: no data file configured
    | NotExist                   // the data file does not exist
    | FileError(code: string)    // READ_FAILED or WRITE_FAILED
    | ConvertError               // the file content is not a JSON array of records
    | SaverError(message: string) // any other failure of a collaborator

  /** Paging parameters; an absent skip or take falls back to the engine's default. */
  datatype PagingParams = PagingParams(Skip: Option<int>, Take: Option<int>, Total: bool)

  /** `paging.GetSkip(-1)`: an absent skip reads as -1, that is, no skip. */
  function SkipOf(paging: PagingParams): (r: int)
    ensures paging.Skip.Some? ==> r == paging.Skip.value
    ensures paging.Skip.None? ==> r == -1
  {
    paging.Skip.GetOr(-1)
  }

  /** `paging.GetTake(MaxPageSize)`: an absent take reads as the page-size bound. */
  function TakeOf(paging: PagingParams, maxPageSize: int): (r: int)
    ensures paging.Take.Some? ==> r == paging.Take.value
    ensures paging.Take.None? ==> r == maxPageSize
  {
    paging.Take.GetOr(maxPageSize)
  }

  /** A page of records and, when requested, the unpaged match count (0 otherwise). */
  datatype DataPage<T> = DataPage(Data: seq<T>, Total: int)

  /** What `Loader.Load` answers: a possibly nil list and a possibly nil error. */
  datatype LoadReply<T> = LoadReply(Items: Option<seq<T>>, Err: Option<Error>)

  class MemoryPersistence<T(!new)> {
    /** The record type's `Clone`. */
    const Clone: T -> T
    var Items: seq<T>
    /** Whether a Loader, resp. a Saver, is configured (non-nil). */
    var HasLoader: bool
    var HasSaver: bool
    var Opened: bool
    var MaxPageSize: int
    /** Every sequence handed to the Saver, oldest first. */
    ghost var Saved: seq<seq<T>>

    /** `NewMemoryPersistence`: empty, closed, no Loader or Saver, page-size bound 0. */
    constructor (clone: T -> T)
      ensures Clone == clone
      ensures Items == [] && !Opened && MaxPageSize == 0
      ensures !HasLoader && !HasSaver && Saved == []
    {
      Clone := clone;
      Items := [];
      HasLoader, HasSaver := false, false;
      Opened := false;
      MaxPageSize := 0;
      Saved := [];
    }

    function IsOpen(): bool
      reads this
    {
      Opened
    }

    /**
     * The effect of one call of `Save` on the Saver's log, given what the
     * Saver answered: with a Saver the current records are handed over and
     * its answer is returned; without one nothing happens and there is no
     * error.
     */
    ghost predicate Persisted(before: seq<seq<T>>, reply: Option<Error>, err: Option<Error>)
      reads this
    {
      if HasSaver then Saved == before + [Items] && err == reply
      else Saved == before && err.None?
    }

    /**
     * `load`: with a Loader whose answer is a list and no error, the records
     * become clones of the loaded ones; the Loader's error is returned.
     */
    method Load(reply: LoadReply<T>) returns (err: Option<Error>)
      modifies this`Items
      ensures err == (if HasLoader then reply.Err else None)
      ensures Items == if HasLoader && reply.Err.None? && reply.Items.Some?
                       then CloneAll(reply.Items.value, Clone) else old(Items)
    {
      if !HasLoader {
        return None;
      }
      if reply.Err.None? && reply.Items.Some? {
        var items := reply.Items.value;
        var loaded := [];
        var i := 0;
        while i < |items|
          invariant 0 <= i <= |items|
          invariant loaded == CloneAll(items[..i], Clone)
        {
          assert items[..i + 1] == items[..i] + [items[i]];
          CloneAllSnoc(items[..i], items[i], Clone);
          loaded := loaded + [Clone(items[i])];
          i := i + 1;
        }
        assert items[..i] == items;
        Items := loaded;
      }
      err := reply.Err;
    }

    /** `Open`: loads, and marks the store Opened only when loading succeeded. */
    method Open(reply: LoadReply<T>) returns (err: Option<Error>)
      modifies this`Items, this`Opened
      ensures err == (if HasLoader then reply.Err else None)
      ensures Items == if HasLoader && reply.Err.None? && reply.Items.Some?
                       then CloneAll(reply.Items.value, Clone) else old(Items)
      ensures Opened == (err.None? || old(Opened))
    {
      err := Load(reply);
      if err.Some? {
        return;
      }
      Opened := true;
    }

    /** `Save`: hands the whole current record sequence to the Saver, if any. */
    method Save(reply: Option<Error>) returns (err: Option<Error>)
      modifies this`Saved
      ensures Persisted(old(Saved), reply, err)
    {
      if !HasSaver {
        return None;
      }
      Saved := Saved + [Items];
      err := reply;
    }

    /** `Close`: saves, then marks the store closed whatever the save answered. */
    method Close(reply: Option<Error>) returns (err: Option<Error>)
      modifies this`Saved, this`Opened
      ensures Persisted(old(Saved), reply, err)
      ensures !Opened
    {
      err := Save(reply);
      Opened := false;
    }

    /**
     * `Clear`: saves the current records first; only if that succeeds are
     * the records dropped. The Saver thus receives the records being cleared.
     */
    method Clear(reply: Option<Error>) returns (err: Option<Error>)
      modifies this`Items, this`Saved
      ensures Saved == (if HasSaver then old(Saved) + [old(Items)] else old(Saved))
      ensures err == (if HasSaver then reply else None)
      ensures Items == if err.Some? then old(Items) else []
    {
      err := Save(reply);
      if err.Some? {
        return;
      }
      Items := [];
    }

    /** Clones of the records that pass `filterFunc` (all when it is nil), in storage order. */
    method CollectMatches(filterFunc: Option<T -> bool>) returns (items: seq<T>)
      ensures items == CloneAll(Matching(Items, filterFunc), Clone)
    {
      items := [];
      var i := 0;
      while i < |Items|
        invariant 0 <= i <= |Items|
        invariant items == CloneAll(Matching(Items[..i], filterFunc), Clone)
      {
        var v := Items[i];
        MatchingPrefix(Items, i, filterFunc);
        if filterFunc.None? || filterFunc.value(v) {
          CloneAllSnoc(Matching(Items[..i], filterFunc), v, Clone);
          items := items + [Clone(v)];
        }
        i := i + 1;
      }
      assert Items[..i] == Items;
    }

    /** Reorders `items` with `sort.Sort` over a Sorter holding `sortFunc`. */
    static method SortItems(items: seq<T>, sortFunc: (T, T) -> bool) returns (sorted: seq<T>)
      ensures multiset(sorted) == multiset(items)
      ensures Sorting.StrictWeakOrder(sortFunc) ==> Sorting.SortedBy(sorted, sortFunc)
    {
      var a := new T[|items|](k requires 0 <= k < |items| => items[k]);
      assert a[..] == items;
      Sorting.Sort(Sorting.Sorter(a, Some(sortFunc)));
      sorted := a[..];
    }

    /** The paging step: drops the first `skip` items when `skip` is positive, then keeps at most `take`. */
    static method Paginate(items: seq<T>, skip: int, take: int) returns (page: seq<T>)
      requires take >= 0
      ensures page == Window(items, skip, take)
    {
      page := items;
      if skip > 0 {
        var s := skip;
        if s >= |page| {
          s := |page|;
        }
        page := page[s..];
      }
      if |page| >= take {
        page := page[..take];
      }
    }

    /** The projection loop: with a `selectFunc`, each item is overwritten by its image, in place. */
    static method ProjectAll(items: seq<T>, selectFunc: Option<T -> T>) returns (r: seq<T>)
      ensures r == Project(items, selectFunc)
    {
      r := items;
      if selectFunc.Some? {
        var i := 0;
        while i < |r|
          invariant 0 <= i <= |r| == |items|
          invariant forall k :: 0 <= k < i ==> r[k] == selectFunc.value(items[k])
          invariant forall k :: i <= k < |r| ==> r[k] == items[k]
        {
          r := r[i := selectFunc.value(r[i])];
          i := i + 1;
        }
      }
    }

    /**
     * `GetPageByFilter`: clones of the matches, reordered by `sortFunc` when
     * one is given, cut to the page `paging` describes, then projected.
     * `ordered` is the sorted sequence the page is cut from. A negative take
     * makes the Go code panic while slicing, so the take must not be negative.
     */
    method GetPageByFilter(filterFunc: Option<T -> bool>, paging: PagingParams,
                           sortFunc: Option<(T, T) -> bool>, selectFunc: Option<T -> T>)
      returns (page: DataPage<T>, ghost ordered: seq<T>)
      requires TakeOf(paging, MaxPageSize) >= 0
      ensures multiset(ordered) == multiset(CloneAll(Matching(Items, filterFunc), Clone))
      ensures sortFunc.None? ==> ordered == CloneAll(Matching(Items, filterFunc), Clone)
      ensures sortFunc.Some? && Sorting.StrictWeakOrder(sortFunc.value) ==> Sorting.SortedBy(ordered, sortFunc.value)
      ensures page.Data == Project(Window(ordered, SkipOf(paging), TakeOf(paging, MaxPageSize)), selectFunc)
      ensures |page.Data| == Min(TakeOf(paging, MaxPageSize), Max(0, |Matching(Items, filterFunc)| - Max(SkipOf(paging), 0)))
      ensures page.Total == if paging.Total then |Matching(Items, filterFunc)| else 0
    {
      var items := CollectMatches(filterFunc);

      if sortFunc.Some? {
        items := SortItems(items, sortFunc.value);
      }
      ordered := items;
      assert |ordered| == |multiset(ordered)| == |CloneAll(Matching(Items, filterFunc), Clone)|;

      var total := 0;
      if paging.Total {
        total := |items|;
      }
      items := Paginate(items, SkipOf(paging), TakeOf(paging, MaxPageSize));
      items := ProjectAll(items, selectFunc);
      page := DataPage(items, total);
    }

    /**
     * `GetListByFilter`: the same pipeline without paging; nil (empty) when
     * nothing matches.
     */
    method GetListByFilter(filterFunc: Option<T -> bool>, sortFunc: Option<(T, T) -> bool>,
                           selectFunc: Option<T -> T>)
      returns (list: seq<T>, ghost ordered: seq<T>)
      ensures multiset(ordered) == multiset(CloneAll(Matching(Items, filterFunc), Clone))
      ensures sortFunc.None? ==> ordered == CloneAll(Matching(Items, filterFunc), Clone)
      ensures sortFunc.Some? && Sorting.StrictWeakOrder(sortFunc.value) ==> Sorting.SortedBy(ordered, sortFunc.value)
      ensures list == Project(ordered, selectFunc)
      ensures list == [] <==> Matching(Items, filterFunc) == []
    {
      var items := CollectMatches(filterFunc);
      ordered := items;
      if |items| == 0 {
        return [], ordered;
      }

      if sortFunc.Some? {
        items := SortItems(items, sortFunc.value);
      }
      ordered := items;

      items := ProjectAll(items, selectFunc);
      list := items;
    }

    /**
     * `GetOneRandom`: one of the clones of the matches, chosen at random.
     * The Go code dereferences a nil pointer when nothing matches, so at
     * least one record must match.
     */
    method GetOneRandom(filterFunc: Option<T -> bool>) returns (result: T)
      requires Matching(Items, filterFunc) != []
      ensures exists k :: 0 <= k < |Matching(Items, filterFunc)| && result == Clone(Matching(Items, filterFunc)[k])
    {
      var items := CollectMatches(filterFunc);
      var k :| 0 <= k < |items|;
      result := items[k];
    }

    /** `Create`: appends a clone of `item`, saves, and returns another clone of it. */
    method Create(item: T, reply: Option<Error>) returns (result: T, err: Option<Error>)
      modifies this`Items, this`Saved
      ensures Items == old(Items) + [Clone(item)]
      ensures Persisted(old(Saved), reply, err)
      ensures result == Clone(item)
    {
      Items := Items + [Clone(item)];
      err := Save(reply);
      result := Clone(item);
    }

    /**
     * The removal loop of `DeleteByFilter`: walks the records with an index
     * that advances only past kept records, splicing out every record that
     * passes `filterFunc`, and counts the removals.
     */
    static method RemoveMatches(records: seq<T>, filterFunc: T -> bool) returns (items: seq<T>, deleted: int)
      ensures items == Matching(records, Some(Negate(filterFunc)))
      ensures deleted == |Matching(records, Some(filterFunc))|
    {
      items := records;
      deleted := 0;
      var i := 0;
      ghost var k := 0;
      while i < |items|
        invariant 0 <= i <= |items| && 0 <= k <= |records|
        invariant items[..i] == Matching(records[..k], Some(Negate(filterFunc)))
        invariant items[i..] == records[k..]
        invariant deleted == |Matching(records[..k], Some(filterFunc))|
        decreases |items| - i
      {
        MatchingPrefix(records, k, Some(Negate(filterFunc)));
        MatchingPrefix(records, k, Some(filterFunc));
        assert items[i] == records[k];
        ghost var prev := items;
        assert prev[i + 1..] == prev[i..][1..] == records[k + 1..];
        if filterFunc(items[i]) {
          if i == |items| - 1 {
            items := items[..i];
          } else {
            items := items[..i] + items[i + 1..];
          }
          assert items[..i] == prev[..i] && items[i..] == prev[i + 1..];
          deleted := deleted + 1;
        } else {
          assert items[..i + 1] == items[..i] + [items[i]];
          i := i + 1;
        }
        k := k + 1;
      }
      assert records[..k] == records;
      assert items == items[..i];
    }

    /**
     * `DeleteByFilter`: removes every record that passes `filterFunc`,
     * keeping the others in order; saves only when something was removed.
     */
    method DeleteByFilter(filterFunc: T -> bool, reply: Option<Error>) returns (err: Option<Error>)
      modifies this`Items, this`Saved
      ensures Items == Matching(old(Items), Some(Negate(filterFunc)))
      ensures Matching(old(Items), Some(filterFunc)) == [] ==> err.None? && Saved == old(Saved)
      ensures Matching(old(Items), Some(filterFunc)) != [] ==> Persisted(old(Saved), reply, err)
    {
      var items, deleted := RemoveMatches(Items, filterFunc);
      Items := items;

      if deleted == 0 {
        return None;
      }
      err := Save(reply);
    }

    /** `GetCountByFilter`: the number of matches; 0 for a nil filter. */
    method GetCountByFilter(filterFunc: Option<T -> bool>) returns (count: int)
      ensures count == if filterFunc.None? then 0 else |Matching(Items, filterFunc)|
    {
      count := 0;
      if filterFunc.Some? {
        var i := 0;
        while i < |Items|
          invariant 0 <= i <= |Items|
          invariant count == |Matching(Items[..i], filterFunc)|
        {
          MatchingPrefix(Items, i, filterFunc);
          if filterFunc.value(Items[i]) {
            count := count + 1;
          }
          i := i + 1;
        }
        assert Items[..i] == Items;
      }
    }
  }
}
