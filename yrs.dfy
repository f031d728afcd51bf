/**
 * The values of the yrs CRDT library as the document layer sees them: plain values
 * (`yrs::Any`), what a shared map hands back on a read (`yrs::Out`), shared text, and the
 * delta operations that edit text. The CRDT machinery itself (clocks, merging, encoding)
 * is not part of this model.
 */
module Yrs {
  import opened Wrappers
  import opened Numbers
  import Utf16

  datatype Any =
    | Null
    | Undefined
    | Bool(b: bool)
    | Number(f: F64)
    | BigInt(i: I64)
    | String(s: string)
    | Buffer(bytes: seq<bv8>)
    | Array(items: seq<Any>)
    | Map(entries: map<string, Any>)

  /** Shared text, as the UTF-16 code units lengths and positions are counted in. */
  datatype Text = Text(units: seq<Utf16.CodeUnit>)

  /** A value read from a shared map or array. */
  datatype Out =
    | Value(any: Any)
    | YMap(entries: map<string, Out>)
    | YArray(items: seq<Out>)
    | YText(text: Text)

  /** A text edit (`yrs::types::Delta`), with formatting attributes as plain values. */
  datatype Delta =
    | Inserted(insert: string, attributes: Option<map<string, Any>>)
    | Retain(len: U32, attributes: Option<map<string, Any>>)
    | Deleted(len: U32)

  function Min(a: int, b: int): int { if a <= b then a else b }

  /**
   * The substrate's `Text::apply_delta`, in the usual rich-text delta reading: an insert
   * places its text at the position and moves past it, a retain moves forward, a delete
   * removes units at the position. Positions that run past the end are clamped to it.
   * Formatting attributes are not represented in `Text` and are dropped.
   */
  function ApplyDelta(t: Text, ds: seq<Delta>): Text
  {
    Text(ApplyFrom(t.units, ds, 0))
  }

  function ApplyFrom(units: seq<Utf16.CodeUnit>, ds: seq<Delta>, pos: nat): seq<Utf16.CodeUnit>
    decreases |ds|
  {
    if ds == [] then units
    else
      var (units', pos') := Step(units, ds[0], pos);
      ApplyFrom(units', ds[1..], pos')
  }

  /** One operation: the new content and the new position. */
  function Step(units: seq<Utf16.CodeUnit>, d: Delta, pos: nat): (seq<Utf16.CodeUnit>, nat)
  {
    var p := Min(pos, |units|);
    match d
    case Inserted(s, _) =>
      var e := Utf16.Encode(s);
      (units[..p] + e + units[p..], p + |e|)
    case Retain(n, _) =>
      (units, Min(p + n, |units|))
    case Deleted(n) =>
      (units[..p] + units[Min(p + n, |units|)..], p)
  }

  /**
   * `text.delta(txn)`: the content as a list of insert chunks. Without formatting the
   * whole content is one chunk, and an empty text has none.
   */
  function TextDelta(t: Text): (r: seq<Delta>)
    ensures t.units == [] <==> r == []
  {
    if t.units == [] then [] else [Inserted(Utf16.Decode(t.units), None)]
  }

  /** Display of a string value is the string itself. */
  predicate IsStringValue(o: Out)
  {
    o.Value? && o.any.String?
  }
}
