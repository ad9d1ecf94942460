/** The value record of test/persistence/Dummy.go. Every method has a value receiver. */
module Dummies {
  import Identifiable

  datatype Dummy = Dummy(Id: string, Key: string, Content: string) {

    /** A field-for-field copy. */
    function Clone(): (r: Dummy)
      ensures r == this
    {
      Dummy(Id, Key, Content)
    }

    /** The record's id. */
    function GetId(): (r: string)
      ensures r == Id
    {
      Id
    }

    /** Holds exactly when the record's id is `id`. */
    function IsEqualId(id: string): (r: bool)
      ensures r <==> GetId() == id
    {
      Id == id
    }

    /** Holds exactly when the id is unset, that is, equal to the empty id. */
    function IsZeroId(): (r: bool)
      ensures r <==> IsEqualId("")
    {
      Id == ""
    }

    /** A copy with id `id`; the receiver, a value, is untouched. */
    function WithId(id: string): (r: Dummy)
      ensures r.GetId() == id && r.IsEqualId(id)
      ensures r.Key == Key && r.Content == Content
    {
      this.(Id := id)
    }

    /** A copy with the id the id generator produced. */
    function WithGeneratedId(generated: string): (r: Dummy)
      ensures r == WithId(generated)
    {
      this.(Id := generated)
    }
  }

  /** The zero value `Dummy{}`. */
  const Zero := Dummy("", "", "")

  function CloneOf(d: Dummy): Dummy { d.Clone() }

  /** Dummy's id capability, as the engine uses it. */
  function DummyIdentity(): Identifiable.Identity<Dummy, string> {
    Identifiable.Identity(
      (d: Dummy, id: string) => d.IsEqualId(id),
      (d: Dummy) => d.GetId(),
      (d: Dummy) => d.IsZeroId(),
      (d: Dummy, id: string) => d.WithId(id),
      Zero)
  }

  /**
   * The partial-update patch on a Dummy: each field named in `data` takes
   * the given value, every other field keeps its value. Field names are
   * matched exactly here.
   */
  function SetProperties(d: Dummy, data: map<string, string>): Dummy {
    Dummy(
      if "Id" in data then data["Id"] else d.Id,
      if "Key" in data then data["Key"] else d.Key,
      if "Content" in data then data["Content"] else d.Content)
  }

  /** A patch that names only Content changes only Content: the id and Key survive `UpdatePartially`. */
  lemma PatchContentOnly(d: Dummy, content: string)
    ensures SetProperties(d, map["Content" := content]) == d.(Content := content)
  {
  }

  /** `IsEqualId`, `GetId` and `IsZeroId` agree: a record has id `id` exactly when `GetId` returns it, and a zero id is the empty one. */
  lemma IdAccessorsAgree(d: Dummy, id: string)
    ensures d.IsEqualId(id) <==> d.GetId() == id
    ensures d.IsZeroId() <==> d.IsEqualId("")
  {
  }

  /**
   * What `Create` stores for a Dummy: the input's id when it is set, else
   * the generated one, and the input's Key and Content. With a non-empty
   * generated id the stored id is never zero.
   */
  lemma StampKeepsFields(d: Dummy, generated: string)
    ensures var s := Identifiable.Stamp(DummyIdentity(), CloneOf, d, generated);
            && s.Id == (if d.Id == "" then generated else d.Id)
            && s.Key == d.Key && s.Content == d.Content
            && (generated != "" ==> !s.IsZeroId())
  {
  }
}
