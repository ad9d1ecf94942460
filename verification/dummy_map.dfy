/**
 * The map record of test/persistence/DummyMap.go: a `map[string]any`.
 *
 * A Go map is a reference, so `WithId` and `WithGeneratedId`, which write
 * into the receiver, are methods of a class holding the map; the lookups
 * are functions of the map's contents, which is also what the engine stores.
 */
module DummyMaps {
  import Identifiable

  /** A dynamically typed map value: a string, or a value of another type. */
  datatype Any = Str(s: string) | NotString(tag: int)

  type Fields = map<string, Any>

  /** Holds iff "Id" is present, holds a string, and that string is `id`. */
  function IsEqualId(d: Fields, id: string): (r: bool)
    ensures r <==> "Id" in d && d["Id"] == Str(id)
  {
    if "Id" in d then
      match d["Id"]
      case Str(s) => s == id
      case NotString(_) => false
    else false
  }

  /** The string under "Id", or "" when it is absent or not a string. */
  function GetId(d: Fields): (r: string)
    ensures r != "" ==> "Id" in d && d["Id"] == Str(r)
  {
    if "Id" in d && d["Id"].Str? then d["Id"].s else ""
  }

  /** Holds only when "Id" is present as the empty string. */
  function IsZeroId(d: Fields): (r: bool)
    ensures r <==> "Id" in d && d["Id"] == Str("")
  {
    if "Id" in d then
      match d["Id"]
      case Str(s) => s == ""
      case NotString(_) => false
    else false
  }

  /** The map with "Id" set to `id`, as `WithId` leaves it. */
  function SetId(d: Fields, id: string): (r: Fields)
    ensures IsEqualId(r, id) && GetId(r) == id
    ensures r.Keys == d.Keys + {"Id"}
    ensures forall k :: k in d && k != "Id" ==> r[k] == d[k]
  {
    d["Id" := Str(id)]
  }

  /** The zero value: a nil map, which reads as empty. */
  const Zero: Fields := map[]

  function CloneOf(d: Fields): Fields { d }

  /** DummyMap's id capability over map contents. */
  function DummyMapIdentity(): Identifiable.Identity<Fields, string> {
    Identifiable.Identity(IsEqualId, GetId, IsZeroId, SetId, Zero)
  }

  /**
   * The lookups disagree on a map without a string "Id": `GetId` reads ""
   * but `IsEqualId("")` and `IsZeroId` are false. Otherwise a map has id
   * `id` exactly when `GetId` returns it.
   */
  lemma IdAccessorsAgree(d: Fields, id: string)
    ensures ("Id" in d && d["Id"].Str?) ==> (IsEqualId(d, id) <==> GetId(d) == id)
    ensures !("Id" in d && d["Id"].Str?) ==> !IsEqualId(d, id) && !IsZeroId(d) && GetId(d) == ""
    ensures IsZeroId(d) <==> "Id" in d && d["Id"] == Str("")
  {
  }

  /** A map without "Id" is not given a generated id by `Create`: it is stored as it came. */
  lemma NoIdIsNotStamped(d: Fields, generated: string)
    requires "Id" !in d
    ensures Identifiable.Stamp(DummyMapIdentity(), CloneOf, d, generated) == d
  {
  }

  /** A map with "Id" present as "" gets the generated id, and keeps every other entry. */
  lemma EmptyIdIsStamped(d: Fields, generated: string)
    requires "Id" in d && d["Id"] == Str("")
    ensures var s := Identifiable.Stamp(DummyMapIdentity(), CloneOf, d, generated);
            GetId(s) == generated && s.Keys == d.Keys &&
            forall k :: k in d && k != "Id" ==> s[k] == d[k]
  {
  }

  /** A DummyMap object: a reference to a mutable map. */
  class DummyMap {
    var fields: Fields

    constructor (f: Fields)
      ensures fields == f
    {
      fields := f;
    }

    /** `Clone`: a new map filled entry by entry with the same keys and values. */
    method Clone() returns (buf: DummyMap)
      ensures fresh(buf) && buf.fields == fields
    {
      buf := new DummyMap(map[]);
      var keys := fields.Keys;
      while keys != {}
        invariant keys <= fields.Keys
        invariant buf.fields.Keys == fields.Keys - keys
        invariant forall k :: k in buf.fields ==> buf.fields[k] == fields[k]
        modifies buf
        decreases keys
      {
        var k :| k in keys;
        buf.fields := buf.fields[k := fields[k]];
        keys := keys - {k};
      }
    }

    /** `WithId`: writes "Id" into this very map and returns it. */
    method WithId(id: string) returns (r: DummyMap)
      modifies this
      ensures r == this && fields == SetId(old(fields), id)
    {
      fields := fields["Id" := Str(id)];
      r := this;
    }

    /** `WithGeneratedId`: writes the generated id into this very map and returns it. */
    method WithGeneratedId(generated: string) returns (r: DummyMap)
      modifies this
      ensures r == this && fields == SetId(old(fields), generated)
    {
      fields := fields["Id" := Str(generated)];
      r := this;
    }
  }

  /**
   * The start of `Create` for a DummyMap: clone, then stamp the clone. The
   * caller's map is never written; the stored map is a fresh one holding
   * what Stamp describes.
   */
  method StampClone(item: DummyMap, generated: string) returns (newItem: DummyMap)
    ensures fresh(newItem) && item.fields == old(item.fields)
    ensures newItem.fields == Identifiable.Stamp(DummyMapIdentity(), CloneOf, item.fields, generated)
  {
    newItem := item.Clone();
    if IsZeroId(newItem.fields) {
      newItem := newItem.WithGeneratedId(generated);
    }
  }
}
