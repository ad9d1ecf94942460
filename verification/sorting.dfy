/**
 * The sort adapter of persistence/Sorter.go and the standard-library
 * `sort.Sort` that drives it.
 *
 * A `Sorter` is a Go struct value holding a slice header and a comparator, so
 * copies of it share the same backing array: it is a datatype whose `items`
 * field is an array, and `Swap` writes through it.
 */
module Sorting {
  import opened Wrappers

  /** `less` is a strict weak order: irreflexive, transitive, and its negation is transitive. */
  ghost predicate StrictWeakOrder<T(!new)>(less: (T, T) -> bool) {
    && (forall a :: !less(a, a))
    && (forall a, b, c :: less(a, b) && less(b, c) ==> less(a, c))
    && (forall a, b, c :: !less(a, b) && !less(b, c) ==> !less(a, c))
  }

  /** No element is strictly less than one that comes before it. */
  ghost predicate SortedBy<T>(s: seq<T>, less: (T, T) -> bool) {
    forall i, j :: 0 <= i < j < |s| ==> !less(s[j], s[i])
  }

  /** `s` with the elements at positions `i` and `j` exchanged. */
  function Swapped<T>(s: seq<T>, i: int, j: int): (r: seq<T>)
    requires 0 <= i < |s| && 0 <= j < |s|
    ensures |r| == |s| && r[i] == s[j] && r[j] == s[i]
    ensures forall k :: 0 <= k < |s| && k != i && k != j ==> r[k] == s[k]
  {
    s[i := s[j]][j := s[i]]
  }

  /** Exchanging two positions keeps the multiset of elements. */
  lemma SwappedIsPermutation<T>(s: seq<T>, i: int, j: int)
    requires 0 <= i < |s| && 0 <= j < |s|
    ensures multiset(Swapped(s, i, j)) == multiset(s)
  {
    var t := s[i := s[j]];
    assert multiset(t) == multiset(s) - multiset{s[i]} + multiset{s[j]};
    assert multiset(t[j := s[i]]) == multiset(t) - multiset{t[j]} + multiset{s[i]};
  }

  /** Swapping the same two positions twice restores the sequence. */
  lemma SwappedTwice<T>(s: seq<T>, i: int, j: int)
    requires 0 <= i < |s| && 0 <= j < |s|
    ensures Swapped(Swapped(s, i, j), i, j) == s
  {
    var t := Swapped(Swapped(s, i, j), i, j);
    assert forall k :: 0 <= k < |s| ==> t[k] == s[k];
  }

  /** The sort.Interface adapter over a slice of records and a comparator. */
  datatype Sorter<!T> = Sorter(items: array<T>, compFunc: Option<(T, T) -> bool>) {

    /** The number of items being sorted. */
    function Len(): (n: int)
      ensures n == items.Length
    {
      items.Length
    }

    /** Exchanges the items at `i` and `j` in the shared backing array. */
    method Swap(i: int, j: int)
      requires 0 <= i < items.Length && 0 <= j < items.Length
      modifies items
      ensures items[..] == Swapped(old(items[..]), i, j)
      ensures multiset(items[..]) == multiset(old(items[..]))
    {
      items[i], items[j] := items[j], items[i];
      SwappedIsPermutation(old(items[..]), i, j);
    }

    /**
     * Whether item `i` orders before item `j`. The Go code panics on a nil
     * comparator, so a comparator is required.
     */
    function Less(i: int, j: int): (r: bool)
      requires compFunc.Some?
      requires 0 <= i < items.Length && 0 <= j < items.Length
      reads items
      ensures r == compFunc.value(items[i], items[j])
    {
      compFunc.value(items[i], items[j])
    }
  }

  /** The prefix `s[..n]` is ordered by `less`. */
  ghost predicate PrefixSorted<T>(s: seq<T>, n: int, less: (T, T) -> bool) {
    forall p, q :: 0 <= p < q < n && q < |s| ==> !less(s[q], s[p])
  }

  /**
   * Midway through inserting `s[j]` into the sorted prefix `s[..i + 1]`:
   * everything but position `j` is in order, and `s[j]` is below all that
   * follows it up to `i`.
   */
  ghost predicate Inserting<T>(s: seq<T>, less: (T, T) -> bool, j: int, i: int) {
    && 0 <= j <= i < |s|
    && (forall p, q :: 0 <= p < q <= i && p != j && q != j ==> !less(s[q], s[p]))
    && (forall q :: j < q <= i ==> less(s[j], s[q]))
  }

  /** One swap moves the inserted element one step down and keeps the insertion invariant. */
  lemma InsertStep<T(!new)>(s: seq<T>, less: (T, T) -> bool, j: int, i: int)
    requires StrictWeakOrder(less) && Inserting(s, less, j, i)
    requires j > 0 && less(s[j], s[j - 1])
    ensures Inserting(Swapped(s, j, j - 1), less, j - 1, i)
  {
    var t := Swapped(s, j, j - 1);
    forall q | j - 1 < q <= i
      ensures less(t[j - 1], t[q])
    {
      if q > j {
        assert less(s[j], s[q]);
      }
    }
  }

  /** Once the inserted element is not below its left neighbour, the prefix up to `i` is sorted. */
  lemma InsertDone<T(!new)>(s: seq<T>, less: (T, T) -> bool, j: int, i: int)
    requires StrictWeakOrder(less) && Inserting(s, less, j, i)
    requires j == 0 || !less(s[j], s[j - 1])
    ensures PrefixSorted(s, i + 1, less)
  {
    forall p, q | 0 <= p < q <= i
      ensures !less(s[q], s[p])
    {
      if q == j && p < j - 1 {
        assert !less(s[j], s[j - 1]) && !less(s[j - 1], s[p]);
      }
    }
  }

  /**
   * One round of insertion: moves `items[i]` down through the sorted prefix
   * with `Less` and `Swap`, so that the prefix up to `i` is sorted.
   */
  method InsertOne<T(!new)>(data: Sorter<T>, i: int)
    requires data.compFunc.Some? && 0 < i < data.items.Length
    modifies data.items
    ensures multiset(data.items[..]) == multiset(old(data.items[..]))
    ensures StrictWeakOrder(data.compFunc.value) && PrefixSorted(old(data.items[..]), i, data.compFunc.value) ==>
            PrefixSorted(data.items[..], i + 1, data.compFunc.value)
  {
    ghost var less := data.compFunc.value;
    ghost var swo := StrictWeakOrder(less) && PrefixSorted(data.items[..], i, less);
    var j := i;
    while j > 0 && data.Less(j, j - 1)
      invariant 0 <= j <= i
      invariant multiset(data.items[..]) == multiset(old(data.items[..]))
      invariant swo ==> Inserting(data.items[..], less, j, i)
      decreases j
    {
      ghost var s := data.items[..];
      data.Swap(j, j - 1);
      if swo {
        InsertStep(s, less, j, i);
      }
      j := j - 1;
    }
    if swo {
      InsertDone(data.items[..], less, j, i);
    }
  }

  /**
   * Go's `sort.Sort` driven through a `Sorter`. The body is the insertion
   * sort Go runs on short slices; the contract promises only what `sort.Sort`
   * promises for any input: a permutation, ordered when the comparator is a
   * strict weak order, and nothing about the relative order of equal items.
   */
  method Sort<T(!new)>(data: Sorter<T>)
    requires data.compFunc.Some?
    modifies data.items
    ensures multiset(data.items[..]) == multiset(old(data.items[..]))
    ensures StrictWeakOrder(data.compFunc.value) ==> SortedBy(data.items[..], data.compFunc.value)
  {
    var n := data.Len();
    var i := 1;
    while i < n
      invariant 1 <= i && (i <= n || n == 0)
      invariant multiset(data.items[..]) == multiset(old(data.items[..]))
      invariant StrictWeakOrder(data.compFunc.value) ==> PrefixSorted(data.items[..], i, data.compFunc.value)
    {
      InsertOne(data, i);
      i := i + 1;
    }
  }
}
