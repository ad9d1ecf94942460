/**
 * The identity layer of persistence/IdentifiableMemoryPersistence.go: id
 * lookup, create with id generation, upsert, strict update, partial update
 * and deletion by id, on top of a MemoryPersistence it embeds.
 *
 * Records are found by a linear scan for the FIRST record whose
 * `IsEqualId(id)` holds; a missing id is not an error: the operation returns
 * the zero value of the record type and changes nothing.
 */
module Identifiable {
  import opened Wrappers
  import opened Queries
  import opened Persistence

  /**
   * The id capability of a record type (IIdentifiable): id test, id read,
   * zero-id test, id assignment, and the type's zero value. `WithGeneratedId`
   * is `WithId` applied to an id the id generator produced.
   */
  datatype Identity<!T, !K> = Identity(
    IsEqualId: (T, K) -> bool,
    GetId: T -> K,
    IsZeroId: T -> bool,
    WithId: (T, K) -> T,
    Zero: T)

  /** The index of the first record of `s` whose id equals `id`, or -1. */
  function IndexOfId<T, K>(s: seq<T>, ident: Identity<T, K>, id: K): (r: int)
    ensures -1 <= r < |s|
  {
    if s == [] then -1
    else if ident.IsEqualId(s[0], id) then 0
    else
      var j := IndexOfId(s[1..], ident, id);
      if j < 0 then -1 else j + 1
  }

  /** IndexOfId finds the least matching index, and -1 exactly when none matches. */
  lemma {:induction false} IndexOfIdIsFirst<T, K>(s: seq<T>, ident: Identity<T, K>, id: K)
    ensures IndexOfId(s, ident, id) == -1 <==> forall i :: 0 <= i < |s| ==> !ident.IsEqualId(s[i], id)
    ensures IndexOfId(s, ident, id) >= 0 ==> ident.IsEqualId(s[IndexOfId(s, ident, id)], id)
    ensures forall i :: 0 <= i < IndexOfId(s, ident, id) ==> !ident.IsEqualId(s[i], id)
  {
    if s != [] && !ident.IsEqualId(s[0], id) {
      IndexOfIdIsFirst(s[1..], ident, id);
      assert forall i :: 1 <= i < |s| ==> s[i] == s[1..][i - 1];
    }
  }

  /** Whether `item`'s id is one of `ids`. */
  function HasAnyId<T, K>(ident: Identity<T, K>, item: T, ids: seq<K>): bool {
    exists k :: 0 <= k < |ids| && ident.IsEqualId(item, ids[k])
  }

  /** The filter closure of `GetListByIds` and `DeleteByIds`. */
  function IdFilter<T(!new), K>(ident: Identity<T, K>, ids: seq<K>): (f: T -> bool)
    ensures forall x :: f(x) == HasAnyId(ident, x, ids)
  {
    x => HasAnyId(ident, x, ids)
  }

  /** The record `Create` and `Set` store: a clone of `item`, given `generated` as id when its id is zero. */
  function Stamp<T, K>(ident: Identity<T, K>, clone: T -> T, item: T, generated: K): (r: T)
    ensures ident.IsZeroId(clone(item)) ==> r == ident.WithId(clone(item), generated)
    ensures !ident.IsZeroId(clone(item)) ==> r == clone(item)
  {
    var c := clone(item);
    if ident.IsZeroId(c) then ident.WithId(c, generated) else c
  }

  /** `s` without its element at `i`. */
  function RemoveAt<T>(s: seq<T>, i: int): (r: seq<T>)
    requires 0 <= i < |s|
    ensures |r| == |s| - 1
    ensures forall k :: 0 <= k < i ==> r[k] == s[k]
    ensures forall k :: i <= k < |r| ==> r[k] == s[k + 1]
  {
    s[..i] + s[i + 1..]
  }

  /** Removing one element removes exactly one occurrence of it from the multiset. */
  lemma RemoveAtIsPermutation<T>(s: seq<T>, i: int)
    requires 0 <= i < |s|
    ensures multiset(RemoveAt(s, i)) + multiset{s[i]} == multiset(s)
  {
    assert s == s[..i] + [s[i]] + s[i + 1..];
  }

  class IdentifiableMemoryPersistence<T(!new), K(!new)> {
    /** The embedded MemoryPersistence. */
    const base: MemoryPersistence<T>
    const Ident: Identity<T, K>

    /** `NewIdentifiableMemoryPersistence`: an empty store with page-size bound 100. */
    constructor (clone: T -> T, ident: Identity<T, K>)
      ensures fresh(base) && Ident == ident && base.Clone == clone
      ensures base.Items == [] && !base.Opened && base.MaxPageSize == 100
      ensures !base.HasLoader && !base.HasSaver && base.Saved == []
    {
      Ident := ident;
      var b := new MemoryPersistence(clone);
      b.MaxPageSize := 100;
      base := b;
    }

    /** `Configure`: the configured `options.max_page_size` when there is one, else the current bound. */
    method Configure(maxPageSize: Option<int>)
      modifies base`MaxPageSize
      ensures base.MaxPageSize == maxPageSize.GetOr(old(base.MaxPageSize))
    {
      base.MaxPageSize := maxPageSize.GetOr(base.MaxPageSize);
    }

    /** `GetIndexById`: the first index whose record has id `id`, or -1. */
    method GetIndexById(id: K) returns (index: int)
      ensures index == IndexOfId(base.Items, Ident, id)
    {
      IndexOfIdIsFirst(base.Items, Ident, id);
      var i := 0;
      while i < |base.Items|
        invariant 0 <= i <= |base.Items|
        invariant forall j :: 0 <= j < i ==> !Ident.IsEqualId(base.Items[j], id)
      {
        if Ident.IsEqualId(base.Items[i], id) {
          return i;
        }
        i := i + 1;
      }
      return -1;
    }

    /** `GetOneById`: a clone of the first record with id `id`, or the zero value. */
    method GetOneById(id: K) returns (result: T)
      ensures var i := IndexOfId(base.Items, Ident, id);
              result == if i < 0 then Ident.Zero else base.Clone(base.Items[i])
    {
      var i := 0;
      IndexOfIdIsFirst(base.Items, Ident, id);
      while i < |base.Items|
        invariant 0 <= i <= |base.Items|
        invariant forall j :: 0 <= j < i ==> !Ident.IsEqualId(base.Items[j], id)
      {
        var item := base.Items[i];
        if Ident.IsEqualId(item, id) {
          return base.Clone(item);
        }
        i := i + 1;
      }
      return Ident.Zero;
    }

    /** `GetListByIds`: clones of the stored records whose id is in `ids`, in storage order. */
    method GetListByIds(ids: seq<K>) returns (items: seq<T>)
      ensures items == CloneAll(Matching(base.Items, Some(IdFilter(Ident, ids))), base.Clone)
      ensures items == [] <==> forall i :: 0 <= i < |base.Items| ==> !HasAnyId(Ident, base.Items[i], ids)
    {
      ghost var ordered;
      items, ordered := base.GetListByFilter(Some(IdFilter(Ident, ids)), None, None);
      MatchingEmpty(base.Items, Some(IdFilter(Ident, ids)));
    }

    /**
     * `Create`: stores a clone of `item`, with `generated` as its id when
     * the clone's id is zero, saves, and returns a clone of what was stored.
     */
    method Create(item: T, generated: K, reply: Option<Error>) returns (result: T, err: Option<Error>)
      modifies base`Items, base`Saved
      ensures base.Items == old(base.Items) + [Stamp(Ident, base.Clone, item, generated)]
      ensures base.Persisted(old(base.Saved), reply, err)
      ensures result == base.Clone(Stamp(Ident, base.Clone, item, generated))
    {
      var newItem := base.Clone(item);
      if Ident.IsZeroId(newItem) {
        newItem := Ident.WithId(newItem, generated);
      }
      base.Items := base.Items + [newItem];
      err := base.Save(reply);
      result := base.Clone(newItem);
    }

    /**
     * `Set`: an upsert keyed on the id `item` had BEFORE any id was
     * generated. The first record with that id is overwritten; when there is
     * none the new record is appended.
     */
    method Set(item: T, generated: K, reply: Option<Error>) returns (result: T, err: Option<Error>)
      modifies base`Items, base`Saved
      ensures var i := IndexOfId(old(base.Items), Ident, Ident.GetId(item));
              var newItem := Stamp(Ident, base.Clone, item, generated);
              base.Items == if i < 0 then old(base.Items) + [newItem] else old(base.Items)[i := newItem]
      ensures base.Persisted(old(base.Saved), reply, err)
      ensures result == base.Clone(Stamp(Ident, base.Clone, item, generated))
    {
      var newItem := base.Clone(item);
      if Ident.IsZeroId(newItem) {
        newItem := Ident.WithId(newItem, generated);
      }
      var index := GetIndexById(Ident.GetId(item));
      if index < 0 {
        base.Items := base.Items + [newItem];
      } else {
        base.Items := base.Items[index := newItem];
      }
      err := base.Save(reply);
      result := base.Clone(newItem);
    }

    /**
     * `Update`: overwrites the first record with `item`'s id by a clone of
     * `item` and saves; when there is none, returns the zero value, saves
     * nothing and changes nothing.
     */
    method Update(item: T, reply: Option<Error>) returns (result: T, err: Option<Error>)
      modifies base`Items, base`Saved
      ensures var i := IndexOfId(old(base.Items), Ident, Ident.GetId(item));
              if i < 0 then
                result == Ident.Zero && err.None? && base.Items == old(base.Items) && base.Saved == old(base.Saved)
              else
                base.Items == old(base.Items)[i := base.Clone(item)] &&
                base.Persisted(old(base.Saved), reply, err) &&
                result == base.Clone(base.Clone(item))
    {
      var index := GetIndexById(Ident.GetId(item));
      if index < 0 {
        return Ident.Zero, None;
      }
      var newItem := base.Clone(item);
      base.Items := base.Items[index := newItem];
      err := base.Save(reply);
      result := base.Clone(newItem);
    }

    /**
     * `UpdatePartially`: applies `patch` (setting the named fields) to a
     * clone of the first record with id `id`, stores it back and saves; when
     * there is none, returns the zero value and changes nothing.
     */
    method UpdatePartially(id: K, patch: T -> T, reply: Option<Error>) returns (result: T, err: Option<Error>)
      modifies base`Items, base`Saved
      ensures var i := IndexOfId(old(base.Items), Ident, id);
              if i < 0 then
                result == Ident.Zero && err.None? && base.Items == old(base.Items) && base.Saved == old(base.Saved)
              else
                base.Items == old(base.Items)[i := patch(base.Clone(old(base.Items)[i]))] &&
                base.Persisted(old(base.Saved), reply, err) &&
                result == base.Clone(base.Items[i])
    {
      var index := GetIndexById(id);
      if index < 0 {
        return Ident.Zero, None;
      }
      var newItem := base.Clone(base.Items[index]);
      newItem := patch(newItem);
      base.Items := base.Items[index := newItem];
      err := base.Save(reply);
      result := base.Clone(newItem);
    }

    /**
     * `DeleteById`: removes the first record with id `id`, keeping the
     * others in order, saves, and returns the removed record itself (not a
     * clone); when there is none, returns the zero value and changes nothing.
     */
    method DeleteById(id: K, reply: Option<Error>) returns (result: T, err: Option<Error>)
      modifies base`Items, base`Saved
      ensures var i := IndexOfId(old(base.Items), Ident, id);
              if i < 0 then
                result == Ident.Zero && err.None? && base.Items == old(base.Items) && base.Saved == old(base.Saved)
              else
                result == old(base.Items)[i] &&
                base.Items == RemoveAt(old(base.Items), i) &&
                base.Persisted(old(base.Saved), reply, err)
    {
      var index := GetIndexById(id);
      if index < 0 {
        return Ident.Zero, None;
      }
      var oldItem := base.Items[index];
      base.Items := base.Items[..index] + base.Items[index + 1..];
      err := base.Save(reply);
      result := oldItem;
    }

    /** `DeleteByIds`: removes every record whose id is in `ids`, keeping the others in order. */
    method DeleteByIds(ids: seq<K>, reply: Option<Error>) returns (err: Option<Error>)
      modifies base`Items, base`Saved
      ensures base.Items == Matching(old(base.Items), Some(Negate(IdFilter(Ident, ids))))
      ensures Matching(old(base.Items), Some(IdFilter(Ident, ids))) == [] ==> err.None? && base.Saved == old(base.Saved)
      ensures Matching(old(base.Items), Some(IdFilter(Ident, ids))) != [] ==> base.Persisted(old(base.Saved), reply, err)
    {
      err := base.DeleteByFilter(IdFilter(Ident, ids), reply);
    }
  }

  /** After `DeleteByIds(ids)`, `GetListByIds(ids)` finds nothing: no remaining record has one of those ids. */
  lemma DeletedIdsAreGone<T(!new), K(!new)>(s: seq<T>, ident: Identity<T, K>, ids: seq<K>)
    ensures Matching(Matching(s, Some(Negate(IdFilter(ident, ids)))), Some(IdFilter(ident, ids))) == []
  {
    MatchingOfRemaining(s, IdFilter(ident, ids));
  }

  /** `DeleteByIds` removes exactly as many records as `GetListByIds` would have returned. */
  lemma DeleteByIdsCount<T(!new), K(!new)>(s: seq<T>, ident: Identity<T, K>, ids: seq<K>)
    ensures |Matching(s, Some(Negate(IdFilter(ident, ids))))| == |s| - |Matching(s, Some(IdFilter(ident, ids)))|
  {
    MatchingSplit(s, IdFilter(ident, ids));
  }
}
