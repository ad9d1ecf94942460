/**
 * The pointer record of test/persistence/DummyRef.go. Every method has a
 * pointer receiver, so `WithId` and `WithGeneratedId` write into the
 * object they are called on. The engine stores `*DummyRef` pointers; a
 * stored pointer is written as `Ref`: nil, or the field values of the
 * object it points to.
 */
module DummyRefs {
  import opened Wrappers
  import Identifiable
  import Dummies

  /** A `*DummyRef` as the store holds it: None for nil, else the object's field values. */
  type Ref = Option<Dummies.Dummy>

  /**
   * `Clone` through a pointer: a pointer to a copy of the object. Go
   * dereferences a nil receiver and panics; the model answers nil.
   */
  function CloneRef(p: Ref): (r: Ref)
    ensures r.Some? <==> p.Some?
    ensures p.Some? ==> r.value == p.value.Clone()
  {
    match p
    case None => None
    case Some(d) => Some(d.Clone())
  }

  /** `IsEqualId` through a pointer; nil has no id. */
  function RefIsEqualId(p: Ref, id: string): (r: bool)
    ensures r <==> p.Some? && p.value.IsEqualId(id)
  {
    p.Some? && p.value.Id == id
  }

  /** `GetId` through a pointer; nil reads as the empty id. */
  function RefGetId(p: Ref): (r: string)
    ensures p.Some? ==> r == p.value.GetId()
  {
    if p.Some? then p.value.Id else ""
  }

  /** `IsZeroId` through a pointer; nil is never stamped. */
  function RefIsZeroId(p: Ref): (r: bool)
    ensures r <==> p.Some? && p.value.IsZeroId()
  {
    p.Some? && p.value.Id == ""
  }

  /** `WithId` through a pointer: the same object with the new id. */
  function RefWithId(p: Ref, id: string): (r: Ref)
    ensures r.Some? <==> p.Some?
    ensures p.Some? ==> r.value == p.value.WithId(id)
  {
    match p
    case None => None
    case Some(d) => Some(d.(Id := id))
  }

  /** The id capability of `*DummyRef`, whose zero value is the nil pointer. */
  function RefIdentity(): (ident: Identifiable.Identity<Ref, string>)
    ensures ident.Zero == None
  {
    Identifiable.Identity(RefIsEqualId, RefGetId, RefIsZeroId, RefWithId, None)
  }

  /**
   * A not-found answer is told apart from a stored record: over non-nil
   * records, the result `GetOneById` gives (the zero value when no record
   * has the id, else a clone of the first that has it) is nil exactly when
   * no record has the id, and otherwise a copy of that record.
   */
  lemma {:induction false} RefLookupIsNilOnlyWhenMissing(s: seq<Ref>, id: string)
    requires forall i :: 0 <= i < |s| ==> s[i].Some?
    ensures var i := Identifiable.IndexOfId(s, RefIdentity(), id);
            var result := if i < 0 then RefIdentity().Zero else CloneRef(s[i]);
            && (result.None? <==> forall k :: 0 <= k < |s| ==> !(s[k].Some? && s[k].value.Id == id))
            && (result.Some? ==> result.value.Id == id && result == s[i])
  {
    Identifiable.IndexOfIdIsFirst(s, RefIdentity(), id);
  }

  /** What Create stores for a non-nil pointer: the pointed-to record, stamped as a Dummy would be. */
  lemma RefStampIsDummyStamp(d: Dummies.Dummy, generated: string)
    ensures Identifiable.Stamp(RefIdentity(), CloneRef, Some(d), generated)
            == Some(Identifiable.Stamp(Dummies.DummyIdentity(), Dummies.CloneOf, d, generated))
  {
  }

  class DummyRef {
    var Id: string
    var Key: string
    var Content: string

    constructor (id: string, key: string, content: string)
      ensures Id == id && Key == key && Content == content
    {
      Id := id;
      Key := key;
      Content := content;
    }

    /** The current field values, as a value record. */
    function Snapshot(): (r: Dummies.Dummy)
      reads this
      ensures r.Id == Id && r.Key == Key && r.Content == Content
    {
      Dummies.Dummy(Id, Key, Content)
    }

    /** `Clone`: a new object with the same three fields; the receiver is untouched. */
    method Clone() returns (r: DummyRef)
      ensures fresh(r) && r.Snapshot() == Snapshot()
    {
      r := new DummyRef(Id, Key, Content);
    }

    /** Agrees with the value record's `IsEqualId` on the current fields. */
    function IsEqualId(id: string): (r: bool)
      reads this
      ensures r == Snapshot().IsEqualId(id)
    {
      Id == id
    }

    /** Agrees with the value record's `GetId` on the current fields. */
    function GetId(): (r: string)
      reads this
      ensures r == Snapshot().GetId()
    {
      Id
    }

    /** Agrees with the value record's `IsZeroId` on the current fields. */
    function IsZeroId(): (r: bool)
      reads this
      ensures r == Snapshot().IsZeroId()
    {
      Id == ""
    }

    /** `WithId`: sets the id of this very object and returns it. */
    method WithId(id: string) returns (r: DummyRef)
      modifies this
      ensures r == this && Snapshot() == old(Snapshot()).WithId(id)
    {
      Id := id;
      r := this;
    }

    /** `WithGeneratedId`: sets the generated id on this very object and returns it. */
    method WithGeneratedId(generated: string) returns (r: DummyRef)
      modifies this
      ensures r == this && Snapshot() == old(Snapshot()).WithGeneratedId(generated)
    {
      Id := generated;
      r := this;
    }
  }

  /**
   * The start of `Create` for a DummyRef: clone, then stamp the clone. The
   * caller's object is never written, and the stored object is a fresh
   * one whose fields are what Stamp gives for the stored pointer.
   */
  method StampClone(item: DummyRef, generated: string) returns (newItem: DummyRef)
    ensures fresh(newItem) && item.Snapshot() == old(item.Snapshot())
    ensures Some(newItem.Snapshot()) ==
            Identifiable.Stamp(RefIdentity(), CloneRef, Some(item.Snapshot()), generated)
  {
    newItem := item.Clone();
    if newItem.IsZeroId() {
      newItem := newItem.WithGeneratedId(generated);
    }
  }
}
