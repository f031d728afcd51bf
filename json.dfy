/** JSON values as the serde_json crate represents them (`serde_json::Value`). */
module Json {
  import opened Wrappers
  import opened Numbers

  /** serde_json keeps an integer as `PosInt` when it is non-negative, as `NegInt` otherwise. */
  datatype Number = PosInt(u: U64) | NegInt(i: I64) | Float(f: F64)

  datatype Json =
    | JNull
    | JBool(b: bool)
    | JNumber(n: Number)
    | JString(s: string)
    | JArray(items: seq<Json>)
    | JObject(fields: map<string, Json>)

  /** `Number::as_u64` */
  function AsU64(n: Number): (r: Option<U64>)
    ensures r.Some? <==> n.PosInt?
  {
    match n
    case PosInt(u) => Some(u)
    case _ => None
  }

  /** `Number::as_i64` */
  function AsI64(n: Number): (r: Option<I64>)
    ensures r.Some? <==> (n.NegInt? || (n.PosInt? && n.u <= I64_MAX))
  {
    match n
    case PosInt(u) => if u <= I64_MAX then Some(u) else None
    case NegInt(i) => Some(i)
    case Float(_) => None
  }

  /** `Number::as_f64`: always a value for the three representations. */
  function AsF64(n: Number): F64
  {
    match n
    case PosInt(u) => FromInt(u)
    case NegInt(i) => FromInt(i)
    case Float(f) => f
  }

  /** `Number::from_f64`: refuses infinities and NaN. */
  function FromF64(f: F64): (r: Option<Number>)
    ensures r.Some? <==> IsFinite(f)
  {
    if IsFinite(f) then Some(Float(f)) else None
  }

  /** `Number::from(i64)` */
  function FromI64(i: I64): (r: Number)
    ensures AsI64(r) == Some(i)
  {
    if i < 0 then NegInt(i) else PosInt(i)
  }

  /** `Number::from(u32)` */
  function FromU32(n: U32): (r: Number)
    ensures AsU64(r) == Some(n)
  {
    PosInt(n)
  }

  /** `Value::as_str` */
  function AsStr(j: Json): (r: Option<string>)
    ensures r.Some? <==> j.JString?
  {
    if j.JString? then Some(j.s) else None
  }

  /** `Value::as_u64` */
  function ValueAsU64(j: Json): (r: Option<U64>)
    ensures r.Some? <==> (j.JNumber? && j.n.PosInt?)
  {
    if j.JNumber? then AsU64(j.n) else None
  }
}
