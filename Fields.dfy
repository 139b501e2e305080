/** What the two scripts derive identically for fields: the variable-length
    flag and the eight legacy records written ahead of the extracted ones. */
module Fields {
  import opened Records

  /** `isVLEncoded(t)`: the length-prefixed encodings. */
  predicate IsVLEncoded(tag: string) {
    tag == "VL" || tag == "ACCOUNT" || tag == "VECTOR256"
  }

  /** The fields that cannot be scraped from SField.cpp, in the order they
      are written. None is variable-length, and each is a signing field
      exactly when it is serialized. */
  function LegacyFields(): (r: seq<FieldDescriptor>)
    ensures |r| == 8
    ensures forall i :: 0 <= i < |r| ==> !r[i].isVLEncoded && r[i].isSigningField == r[i].isSerialized
  {
    [ FieldDescriptor("Generic", 0, false, false, false, "Unknown"),
      FieldDescriptor("Invalid", -1, false, false, false, "Unknown"),
      FieldDescriptor("ObjectEndMarker", 1, false, true, true, "STObject"),
      FieldDescriptor("ArrayEndMarker", 1, false, true, true, "STArray"),
      FieldDescriptor("hash", 257, false, false, false, "Hash256"),
      FieldDescriptor("index", 258, false, false, false, "Hash256"),
      FieldDescriptor("taker_gets_funded", 258, false, false, false, "Amount"),
      FieldDescriptor("taker_pays_funded", 259, false, false, false, "Amount") ]
  }

  /** No two legacy fields share a name. */
  lemma LegacyNamesDistinct()
    ensures forall i, j :: 0 <= i < j < 8 ==> LegacyFields()[i].name != LegacyFields()[j].name
  {
  }

  /** No two legacy fields share a (type, nth) pair, although `index` and
      `taker_gets_funded` share nth 258 across two types. */
  lemma LegacyCodesDistinct()
    ensures forall i, j :: 0 <= i < j < 8 ==>
      (LegacyFields()[i].typeName, LegacyFields()[i].nth) != (LegacyFields()[j].typeName, LegacyFields()[j].nth)
  {
  }

  /** One descriptor per match, made by `field`, in source order. */
  function Descriptors(hits: seq<FieldHit>, field: FieldHit -> FieldDescriptor): (r: seq<FieldDescriptor>)
    ensures |r| == |hits|
    ensures forall i :: 0 <= i < |hits| ==> r[i] == field(hits[i])
  {
    if hits == [] then [] else [field(hits[0])] + Descriptors(hits[1..], field)
  }

  /** FIELDS: the legacy records, then one descriptor per match, in source
      order. */
  function FieldSection(hits: seq<FieldHit>, field: FieldHit -> FieldDescriptor): (r: seq<FieldDescriptor>)
    ensures |r| == 8 + |hits| && r[..8] == LegacyFields()
    ensures forall i :: 0 <= i < |hits| ==> r[8 + i] == field(hits[i])
  {
    LegacyFields() + Descriptors(hits, field)
  }
}
