/**
 * Specification functions for the query pipeline of
 * persistence/MemoryPersistence.go: filter, clone, window and projection.
 * The engine's methods are proved against these.
 */
module Queries {
  import opened Wrappers

  function Min(a: int, b: int): int { if a < b then a else b }
  function Max(a: int, b: int): int { if a < b then b else a }

  /** A nil filter lets every record through. */
  function Passes<T>(filter: Option<T -> bool>, x: T): bool {
    filter.None? || filter.value(x)
  }

  /** The complement of a predicate. */
  function Negate<T(!new)>(p: T -> bool): (q: T -> bool)
    ensures forall x :: q(x) == !p(x)
  {
    x => !p(x)
  }

  /** The records of `s` that pass `filter`, in storage order. */
  function Matching<T>(s: seq<T>, filter: Option<T -> bool>): (r: seq<T>)
    ensures |r| <= |s|
    ensures filter.None? ==> r == s
  {
    if s == [] then []
    else Matching(s[..|s| - 1], filter) + (if Passes(filter, s[|s| - 1]) then [s[|s| - 1]] else [])
  }

  /** Element-wise clones, in order. */
  function CloneAll<T>(s: seq<T>, clone: T -> T): seq<T> {
    seq(|s|, i requires 0 <= i < |s| => clone(s[i]))
  }

  /**
   * Drops the first `skip` items (none when `skip` is not positive, all when
   * it passes the end) and keeps at most `take` of the rest.
   */
  function Window<T>(s: seq<T>, skip: int, take: int): (r: seq<T>)
    requires take >= 0
    ensures |r| == Min(take, Max(0, |s| - Max(skip, 0)))
    ensures forall k :: 0 <= k < |r| ==> r[k] == s[Max(skip, 0) + k]
  {
    var rest := if skip > 0 then (if skip >= |s| then s[|s|..] else s[skip..]) else s;
    if |rest| >= take then rest[..take] else rest
  }

  /** Replaces every element by its projection, when a projection is given. */
  function Project<T>(s: seq<T>, select: Option<T -> T>): (r: seq<T>)
    ensures |r| == |s|
    ensures select.None? ==> r == s
    ensures select.Some? ==> forall k :: 0 <= k < |s| ==> r[k] == select.value(s[k])
  {
    if select.None? then s else seq(|s|, i requires 0 <= i < |s| => select.value(s[i]))
  }

  /** Extending a scanned prefix by one element extends the matches by that element when it passes. */
  lemma MatchingPrefix<T>(s: seq<T>, i: int, filter: Option<T -> bool>)
    requires 0 <= i < |s|
    ensures Matching(s[..i + 1], filter) == Matching(s[..i], filter) + (if Passes(filter, s[i]) then [s[i]] else [])
  {
    assert s[..i + 1][..i] == s[..i];
  }

  lemma CloneAllSnoc<T>(s: seq<T>, x: T, clone: T -> T)
    ensures CloneAll(s + [x], clone) == CloneAll(s, clone) + [clone(x)]
  {
  }

  lemma {:induction false} MatchingAppend<T>(a: seq<T>, b: seq<T>, filter: Option<T -> bool>)
    ensures Matching(a + b, filter) == Matching(a, filter) + Matching(b, filter)
    decreases |b|
  {
    if b == [] {
      assert a + b == a;
    } else {
      var b' := b[..|b| - 1];
      assert (a + b)[..|a + b| - 1] == a + b';
      MatchingAppend(a, b', filter);
    }
  }

  /** A record is matched exactly when it is stored and passes the filter. */
  lemma {:induction false} MatchingMembers<T>(s: seq<T>, filter: Option<T -> bool>, x: T)
    ensures x in Matching(s, filter) <==> x in s && Passes(filter, x)
  {
    if s != [] {
      var s' := s[..|s| - 1];
      MatchingMembers(s', filter, x);
      assert s == s' + [s[|s| - 1]];
    }
  }

  /** Nothing is matched exactly when no stored record passes the filter. */
  lemma {:induction false} MatchingEmpty<T>(s: seq<T>, filter: Option<T -> bool>)
    ensures Matching(s, filter) == [] <==> forall i :: 0 <= i < |s| ==> !Passes(filter, s[i])
  {
    if s != [] {
      var s' := s[..|s| - 1];
      MatchingEmpty(s', filter);
      assert forall i :: 0 <= i < |s'| ==> s'[i] == s[i];
    }
  }

  /** When every stored record passes, everything is matched. */
  lemma {:induction false} MatchingAll<T>(s: seq<T>, filter: Option<T -> bool>)
    requires forall i :: 0 <= i < |s| ==> Passes(filter, s[i])
    ensures Matching(s, filter) == s
  {
    if s != [] {
      var s' := s[..|s| - 1];
      assert forall i :: 0 <= i < |s'| ==> s'[i] == s[i];
      MatchingAll(s', filter);
      assert s == s' + [s[|s| - 1]];
    }
  }

  /** Each record either passes `p` or its negation: the two selections partition `s`. */
  lemma {:induction false} MatchingSplit<T(!new)>(s: seq<T>, p: T -> bool)
    ensures |Matching(s, Some(p))| + |Matching(s, Some(Negate(p)))| == |s|
  {
    if s != [] {
      MatchingSplit(s[..|s| - 1], p);
    }
  }

  /** The records left after removing the matches of `p` contain no match of `p`. */
  lemma {:induction false} MatchingOfRemaining<T(!new)>(s: seq<T>, p: T -> bool)
    ensures Matching(Matching(s, Some(Negate(p))), Some(p)) == []
  {
    var rest := Matching(s, Some(Negate(p)));
    forall i | 0 <= i < |rest|
      ensures !p(rest[i])
    {
      MatchingMembers(s, Some(Negate(p)), rest[i]);
    }
    MatchingEmpty(rest, Some(p));
  }
}
