/**
 * Structural conversions between JSON values and yrs values, and the JSON forms of text
 * deltas and of a whole document (rust/src/doc/conversions/conversion.rs). The same
 * conversions appear a second time, unchanged, in rust/src/doc/operations/delta_ops.rs;
 * they are defined once here.
 */
module Conversion {
  import opened Wrappers
  import opened Numbers
  import opened Json
  import opened Yrs
  import opened DocumentTypes
  import Constants

  /** The string every byte buffer is shown as. */
  const BUFFER_TEXT: string := "<buffer>"

  // ---------------------------------------------------------------------------------------
  // Values

  /** `yrs_any_to_json` (lines 16-36); `any_to_json` in delta_ops.rs is the same function. */
  function AnyToJson(a: Any): (r: Json)
    ensures (a.Null? || a.Undefined?) <==> r.JNull?
    ensures a.Buffer? ==> r == JString(BUFFER_TEXT)
    ensures a.String? ==> r == JString(a.s)
    ensures a.Array? <==> r.JArray?
    ensures a.Map? <==> r.JObject?
    ensures a.Map? ==> r.fields.Keys == a.entries.Keys
    decreases a
  {
    match a
    case Null => JNull
    case Undefined => JNull
    case Bool(b) => JBool(b)
    case Number(f) => JNumber(FromF64(f).UnwrapOr(PosInt(0)))
    case String(s) => JString(s)
    case Array(items) => JArray(seq(|items|, i requires 0 <= i < |items| => AnyToJson(items[i])))
    case Map(entries) => JObject(map k | k in entries :: AnyToJson(entries[k]))
    case BigInt(i) => JNumber(FromI64(i))
    case Buffer(_) => JString(BUFFER_TEXT)
  }

  /**
   * `json_to_yrs_any` (lines 39-64); `json_value_to_yrs_any` in delta_ops.rs is the same
   * function. Every number becomes a double: an integer that fits in `i64` through
   * `i as f64`, any other number through `as_f64`. The `Undefined` branch of the source is
   * unreachable because `as_f64` always has a value.
   */
  function JsonToAny(j: Json): (r: Any)
    ensures j.JNull? <==> r.Null?
    ensures j.JNumber? <==> r.Number?
    ensures j.JString? ==> r == String(j.s)
    ensures j.JArray? <==> r.Array?
    ensures j.JObject? <==> r.Map?
    ensures j.JObject? ==> r.entries.Keys == j.fields.Keys
    decreases j
  {
    match j
    case JNull => Null
    case JBool(b) => Bool(b)
    case JNumber(n) => Number(NumberToF64(n))
    case JString(s) => String(s)
    case JArray(items) => Array(seq(|items|, i requires 0 <= i < |items| => JsonToAny(items[i])))
    case JObject(fields) => Map(map k | k in fields :: JsonToAny(fields[k]))
  }

  /** Lines 44-47: `i as f64` when the number is an `i64`, otherwise `as_f64`. */
  function NumberToF64(n: Number): (r: F64)
    ensures AsI64(n).Some? ==> r == FromInt(AsI64(n).value)
    ensures n.Float? ==> r == n.f
  {
    match AsI64(n)
    case Some(i) => FromInt(i)
    case None => AsF64(n)
  }

  /**
   * A JSON tree whose numbers are all finite doubles: an integer comes back from yrs as
   * a double, so only those survive the trip.
   */
  predicate DoublesOnlyJson(j: Json)
    decreases j
  {
    match j
    case JNumber(n) => n.Float? && IsFinite(n.f)
    case JArray(items) => forall i | 0 <= i < |items| :: DoublesOnlyJson(items[i])
    case JObject(fields) => forall k | k in fields :: DoublesOnlyJson(fields[k])
    case _ => true
  }

  /** A yrs value built only from null, booleans, finite doubles, strings, arrays and maps. */
  predicate PlainAny(a: Any)
    decreases a
  {
    match a
    case Null => true
    case Bool(_) => true
    case Number(f) => IsFinite(f)
    case String(_) => true
    case Array(items) => forall i | 0 <= i < |items| :: PlainAny(items[i])
    case Map(entries) => forall k | k in entries :: PlainAny(entries[k])
    case _ => false
  }

  /**
   * JSON to yrs and back is the identity on trees built from null, bools, finite doubles,
   * strings, arrays and objects.
   */
  lemma {:induction false} JsonRoundTrip(j: Json)
    requires DoublesOnlyJson(j)
    ensures AnyToJson(JsonToAny(j)) == j
    decreases j
  {
    match j
    case JArray(items) =>
      var a := JsonToAny(j);
      forall i | 0 <= i < |items| ensures AnyToJson(a.items[i]) == items[i] {
        JsonRoundTrip(items[i]);
      }
    case JObject(fields) =>
      var a := JsonToAny(j);
      forall k | k in fields ensures AnyToJson(a.entries[k]) == fields[k] {
        JsonRoundTrip(fields[k]);
      }
    case _ =>
  }

  /** yrs to JSON and back is the identity on plain values. */
  lemma {:induction false} AnyRoundTrip(a: Any)
    requires PlainAny(a)
    ensures JsonToAny(AnyToJson(a)) == a
    decreases a
  {
    match a
    case Array(items) =>
      var j := AnyToJson(a);
      forall i | 0 <= i < |items| ensures JsonToAny(j.items[i]) == items[i] {
        AnyRoundTrip(items[i]);
      }
    case Map(entries) =>
      var j := AnyToJson(a);
      forall k | k in entries ensures JsonToAny(j.fields[k]) == entries[k] {
        AnyRoundTrip(entries[k]);
      }
    case _ =>
  }

  /**
   * An integer does not survive the round trip unchanged: it comes back as the double it
   * converts to, which serde_json prints with a fraction (`42` returns as `42.0`).
   */
  lemma IntegerComesBackAsDouble(n: U64)
    requires n <= I64_MAX
    ensures AnyToJson(JsonToAny(JNumber(PosInt(n)))) == JNumber(Float(FromInt(n)))
    ensures AnyToJson(JsonToAny(JNumber(PosInt(n)))) != JNumber(PosInt(n))
  {
  }

  // ---------------------------------------------------------------------------------------
  // Deltas

  function AttributesToJson(attrs: map<string, Any>): (r: map<string, Json>)
    ensures r.Keys == attrs.Keys
    ensures forall k | k in r :: r[k] == AnyToJson(attrs[k])
  {
    map k | k in attrs :: AnyToJson(attrs[k])
  }

  /**
   * `delta_to_json` (lines 67-108). An insert carries its text, rendered to a string by the
   * reader, and a retain or delete its length; formatting goes under "attributes" when the
   * operation has any. The conversion never fails.
   */
  function DeltaToJson(d: Delta): (r: Json)
    ensures r.JObject?
    ensures "insert" in r.fields <==> d.Inserted?
    ensures "retain" in r.fields <==> d.Retain?
    ensures "delete" in r.fields <==> d.Deleted?
    ensures Constants.ATTRIBUTES in r.fields <==> !d.Deleted? && d.attributes.Some?
    ensures d.Inserted? ==> r.fields["insert"] == JString(d.insert)
    ensures d.Retain? ==> ValueAsU64(r.fields["retain"]) == Some(d.len)
    ensures d.Deleted? ==> ValueAsU64(r.fields["delete"]) == Some(d.len) && |r.fields| == 1
  {
    match d
    case Inserted(s, attrs) =>
      var base := map["insert" := JString(s)];
      JObject(if attrs.Some? then base[Constants.ATTRIBUTES := JObject(AttributesToJson(attrs.value))] else base)
    case Retain(n, attrs) =>
      var base := map["retain" := JNumber(FromU32(n))];
      JObject(if attrs.Some? then base[Constants.ATTRIBUTES := JObject(AttributesToJson(attrs.value))] else base)
    case Deleted(n) =>
      JObject(map["delete" := JNumber(FromU32(n))])
  }

  /** `deltas_to_json` (lines 111-121): one object per operation, in order. */
  function DeltasToJson(ds: seq<Delta>): (r: Json)
    ensures r.JArray? && |r.items| == |ds|
    ensures forall i | 0 <= i < |ds| :: r.items[i] == DeltaToJson(ds[i])
  {
    JArray(seq(|ds|, i requires 0 <= i < |ds| => DeltaToJson(ds[i])))
  }

  // ---------------------------------------------------------------------------------------
  // Documents

  const DOC_ID_KEY: string := "docId"
  const DELTA_KEY: string := "delta"

  /**
   * Lines 130-157: the JSON object of one block. `parse` is `serde_json::from_str`; a
   * delta that does not parse is written as null.
   */
  function BlockToJson(b: BlockDoc, parse: string -> Option<Json>): (r: map<string, Json>)
    ensures Constants.PARENT_ID in r <==> b.parentId.Some?
    ensures Constants.PREV_ID in r <==> b.prevId.Some?
    ensures DELTA_KEY in r <==> b.delta.Some?
    ensures b.delta.Some? ==> r[DELTA_KEY] == parse(b.delta.value).UnwrapOr(JNull)
    ensures Constants.ID in r && Constants.TYPE in r && Constants.ATTRIBUTES in r
  {
    var base := map[
      Constants.ID := JString(b.id),
      Constants.TYPE := JString(b.ty),
      Constants.ATTRIBUTES := JObject(map k | k in b.attributes :: JString(b.attributes[k]))];
    var withParent := if b.parentId.Some? then base[Constants.PARENT_ID := JString(b.parentId.value)] else base;
    var withPrev := if b.prevId.Some? then withParent[Constants.PREV_ID := JString(b.prevId.value)] else withParent;
    if b.delta.Some? then withPrev[DELTA_KEY := parse(b.delta.value).UnwrapOr(JNull)] else withPrev
  }

  /**
   * Reads a block back from its JSON object, leaving out the delta, which is written in
   * parsed form; `nextId` and `oldParentId` are not written, so they come back absent.
   */
  function BlockFromJson(fields: map<string, Json>): (r: Option<BlockDoc>)
  {
    if Constants.ID in fields && fields[Constants.ID].JString?
       && Constants.TYPE in fields && fields[Constants.TYPE].JString?
       && Constants.ATTRIBUTES in fields && fields[Constants.ATTRIBUTES].JObject?
       && (forall k | k in fields[Constants.ATTRIBUTES].fields :: fields[Constants.ATTRIBUTES].fields[k].JString?)
       && (Constants.PARENT_ID in fields ==> fields[Constants.PARENT_ID].JString?)
       && (Constants.PREV_ID in fields ==> fields[Constants.PREV_ID].JString?)
    then
      var attrs := fields[Constants.ATTRIBUTES].fields;
      Some(BlockDoc(
        fields[Constants.ID].s,
        fields[Constants.TYPE].s,
        map k | k in attrs :: attrs[k].s,
        None,
        if Constants.PARENT_ID in fields then Some(fields[Constants.PARENT_ID].s) else None,
        if Constants.PREV_ID in fields then Some(fields[Constants.PREV_ID].s) else None,
        None,
        None))
    else None
  }

  /** A block's JSON object carries its id, type, attributes, parent and predecessor. */
  lemma BlockJsonRoundTrip(b: BlockDoc, parse: string -> Option<Json>)
    ensures BlockFromJson(BlockToJson(b, parse)) == Some(b.(delta := None, nextId := None, oldParentId := None))
  {
    var r := BlockToJson(b, parse);
    var attrs := r[Constants.ATTRIBUTES].fields;
    assert (map k | k in attrs :: attrs[k].s) == b.attributes;
  }

  /** Lines 164-166. */
  function ChildrenToJson(children: map<string, seq<string>>): (r: map<string, Json>)
    ensures r.Keys == children.Keys
    ensures forall p | p in r ::
      && r[p].JArray?
      && |r[p].items| == |children[p]|
      && forall i | 0 <= i < |children[p]| :: r[p].items[i] == JString(children[p][i])
  {
    map p | p in children :: JArray(seq(|children[p]|, i requires 0 <= i < |children[p]| => JString(children[p][i])))
  }

  /** The "blocks" object of the document. */
  function BlocksToJson(blocks: map<string, BlockDoc>, parse: string -> Option<Json>): (r: map<string, Json>)
    ensures r.Keys == blocks.Keys
    ensures forall id | id in r :: r[id] == JObject(BlockToJson(blocks[id], parse))
  {
    map id | id in blocks :: JObject(BlockToJson(blocks[id], parse))
  }

  /** Lines 127-160: one object per block. */
  method CollectBlocks(blocks: map<string, BlockDoc>, parse: string -> Option<Json>) returns (r: map<string, Json>)
    ensures r == BlocksToJson(blocks, parse)
  {
    r := map[];
    var todo := blocks.Keys;
    while todo != {}
      invariant todo <= blocks.Keys
      invariant r.Keys == blocks.Keys - todo
      invariant forall id | id in r :: r[id] == BlocksToJson(blocks, parse)[id]
      decreases todo
    {
      var id :| id in todo;
      r := r[id := JObject(BlockToJson(blocks[id], parse))];
      todo := todo - {id};
    }
    MapsEqual(r, BlocksToJson(blocks, parse));
  }

  /** `json!` on a list of strings: a JSON array of those strings, in order. */
  function JsonStrings(xs: seq<string>): (r: Json)
    ensures r.JArray? && |r.items| == |xs|
    ensures forall i | 0 <= i < |xs| :: r.items[i] == JString(xs[i])
  {
    if xs == [] then JArray([]) else JArray([JString(xs[0])] + JsonStrings(xs[1..]).items)
  }

  /** Lines 163-166: one array per parent. */
  method CollectChildren(children: map<string, seq<string>>) returns (r: map<string, Json>)
    ensures r == ChildrenToJson(children)
  {
    r := map[];
    var todo := children.Keys;
    while todo != {}
      invariant todo <= children.Keys
      invariant r.Keys == children.Keys - todo
      invariant forall p | p in r :: r[p] == ChildrenToJson(children)[p]
      decreases todo
    {
      var p :| p in todo;
      r := r[p := JsonStrings(children[p])];
      assert r[p].items == ChildrenToJson(children)[p].items;
      todo := todo - {p};
    }
    MapsEqual(r, ChildrenToJson(children));
  }

  /**
   * `document_to_json` (lines 126-175): the top level has exactly "docId", "blocks" and
   * "childrenMap". It never fails.
   */
  method DocumentToJson(state: DocumentState, parse: string -> Option<Json>) returns (r: Json)
    ensures r.JObject? && r.fields.Keys == {DOC_ID_KEY, Constants.BLOCKS, Constants.CHILDREN_MAP}
    ensures r.fields[DOC_ID_KEY] == JString(state.docId)
    ensures r.fields[Constants.BLOCKS] == JObject(BlocksToJson(state.blocks, parse))
    ensures r.fields[Constants.CHILDREN_MAP] == JObject(ChildrenToJson(state.childrenMap))
  {
    var blocksJson := CollectBlocks(state.blocks, parse);
    var childrenJson := CollectChildren(state.childrenMap);
    assert |DOC_ID_KEY| == 5 && |Constants.BLOCKS| == 6 && |Constants.CHILDREN_MAP| == 11;
    r := JObject(map[
      DOC_ID_KEY := JString(state.docId),
      Constants.BLOCKS := JObject(blocksJson),
      Constants.CHILDREN_MAP := JObject(childrenJson)]);
  }
}
