/**
 * Validation and application of a text delta coming back from the editor
 * (rust/src/doc/operations/delta_ops.rs). Every operation is checked against a running
 * text length and cursor, counted in UTF-16 code units, before any of them is applied.
 */
module DeltaOps {
  import opened Wrappers
  import opened Errors
  import opened Numbers
  import opened Json
  import opened Yrs
  import Utf16
  import Conversion
  import Constants

  const INSERT: string := "insert"
  const RETAIN: string := "retain"
  const DELETE: string := "delete"

  /** One operation as the editor sends it: a JSON object read into a map. */
  type Op = map<string, Json>

  /** The running state of the scan: the cursor and the length of the text so far. */
  datatype Scan = Scan(cursor: nat, len: nat)

  predicate InText(s: Scan)
  {
    s.cursor <= s.len
  }

  /** `parse_attributes` (lines 141-151): present attributes become a map, an object's fields converted. */
  function ParseAttributes(d: Op): (r: Option<map<string, Any>>)
    ensures r.Some? <==> Constants.ATTRIBUTES in d
    ensures r.Some? && d[Constants.ATTRIBUTES].JObject? ==> r.value.Keys == d[Constants.ATTRIBUTES].fields.Keys
    ensures r.Some? && !d[Constants.ATTRIBUTES].JObject? ==> r.value == map[]
  {
    if Constants.ATTRIBUTES !in d then None
    else
      var a := d[Constants.ATTRIBUTES];
      if a.JObject? then Some(map k | k in a.fields :: Conversion.JsonToAny(a.fields[k]))
      else Some(map[])
  }

  /** `insert.encode_utf16().count() as u32` (line 87). */
  function InsertLength(s: string): (r: U32)
    ensures Utf16.Length(s) < U32_MODULUS ==> r == Utf16.Length(s)
  {
    Utf16.Length(s) % U32_MODULUS
  }

  /**
   * `parse_delta_operation` (lines 76-139). The key decides the kind, insert before retain
   * before delete; a zero-length operation is accepted as a no-op and changes nothing.
   * Every accepted operation keeps the cursor within the text, which is what keeps the
   * subtraction of line 105 from underflowing.
   */
  function ParseDeltaOperation(d: Op, s: Scan): (r: Result<(Delta, Scan), DocError>)
    requires InText(s)
    ensures r.Ok? ==> InText(r.value.1)
    ensures r.Err? ==> r.error.InvalidOperation?
    ensures INSERT !in d && RETAIN !in d && DELETE !in d ==> r.Err?
    ensures r.Ok? ==> (r.value.1 == s <==> OpLength(r.value.0) == 0)
  {
    if INSERT in d then
      match AsStr(d[INSERT])
      case None => Err(InvalidOperation("Insert value must be a string"))
      case Some(text) =>
        var n := InsertLength(text);
        if n == 0 then Ok((Retain(0, None), s))
        else Ok((Inserted(text, ParseAttributes(d)), Scan(s.cursor + n, s.len + n)))
    else if RETAIN in d then
      match ValueAsU64(d[RETAIN])
      case None => Err(InvalidOperation("Retain value must be a number"))
      case Some(v) =>
        var n := TruncateToU32(v);
        if n > s.len - s.cursor then Err(InvalidOperation("Retain exceeds text length"))
        else if n == 0 then Ok((Retain(0, None), s))
        else Ok((Retain(n, ParseAttributes(d)), Scan(s.cursor + n, s.len)))
    else if DELETE in d then
      match ValueAsU64(d[DELETE])
      case None => Err(InvalidOperation("Delete value must be a number"))
      case Some(v) =>
        var n := TruncateToU32(v);
        if n > s.len then Err(InvalidOperation("Delete exceeds text length"))
        else if n == 0 then Ok((Deleted(0), s))
        else Ok((Deleted(n), Scan(if s.cursor >= n then s.cursor - n else 0, s.len - n)))
    else Err(InvalidOperation("Invalid delta operation"))
  }

  /** The number of code units an operation inserts, keeps or removes. */
  function OpLength(d: Delta): nat
  {
    match d
    case Inserted(text, _) => InsertLength(text)
    case Retain(n, _) => n
    case Deleted(n) => n
  }

  /**
   * Lines 65-68: parses the operations in order, threading the scan; the first failure is
   * the result. `acc` holds the operations parsed so far.
   */
  function ParseFrom(ops: seq<Op>, s: Scan, acc: seq<Delta>): (r: Result<(seq<Delta>, Scan), DocError>)
    requires InText(s)
    ensures r.Ok? ==> InText(r.value.1) && |r.value.0| == |acc| + |ops| && r.value.0[..|acc|] == acc
    decreases |ops|
  {
    if ops == [] then Ok((acc, s))
    else
      match ParseDeltaOperation(ops[0], s)
      case Err(e) => Err(e)
      case Ok((delta, s')) => ParseFrom(ops[1..], s', acc + [delta])
  }

  function ParseAll(ops: seq<Op>, textLen: nat): Result<(seq<Delta>, Scan), DocError>
  {
    ParseFrom(ops, Scan(0, textLen), [])
  }

  /**
   * `apply_delta_diff_to_text` (lines 54-74): every operation is validated before the
   * text is touched; on a failure the text is left as it was and the error is returned,
   * otherwise the parsed operations are applied.
   */
  method ApplyDeltaDiffToText(text: Text, delta: seq<Op>) returns (newText: Text, r: Outcome<()>)
    ensures r.Err? <==> ParseAll(delta, |text.units|).Err?
    ensures r.Err? ==> newText == text && r.error == ParseAll(delta, |text.units|).error
    ensures r.Ok? ==> newText == ApplyDelta(text, ParseAll(delta, |text.units|).value.0)
  {
    var scan := Scan(0, |text.units|);
    var deltas: seq<Delta> := [];
    var i := 0;
    while i < |delta|
      invariant 0 <= i <= |delta|
      invariant InText(scan)
      invariant ParseFrom(delta[i..], scan, deltas) == ParseAll(delta, |text.units|)
    {
      assert delta[i..][1..] == delta[i + 1..];
      var parsed := ParseDeltaOperation(delta[i], scan);
      if parsed.Err? {
        return text, Err(parsed.error);
      }
      deltas := deltas + [parsed.value.0];
      scan := parsed.value.1;
      i := i + 1;
    }
    assert delta[i..] == [];
    newText := ApplyDelta(text, deltas);
    r := Ok(());
  }

  /**
   * `apply_delta_to_text` (lines 23-52). The editor computes the difference between the
   * current content and `newDelta`; that call into the editor is the parameter `diff`,
   * which hands back the parsed JSON of its answer, or `None` when the answer is not JSON.
   * An answer that is not a list of objects is a decoding error, an empty list changes
   * nothing.
   */
  method ApplyDeltaToText(text: Text, newDelta: string, diff: (Json, string) -> Option<Json>)
    returns (newText: Text, r: Outcome<()>)
    ensures r.Ok? <==> DeltaEdit(text, newDelta, diff).Ok?
    ensures r.Ok? ==> newText == DeltaEdit(text, newDelta, diff).value
    ensures r.Err? ==> newText == text && r.error == DeltaEdit(text, newDelta, diff).error
    ensures var answer := diff(Conversion.DeltasToJson(TextDelta(text)), newDelta);
      && (!IsOpList(answer) ==> newText == text && r.Err? && r.error.DecodingError?)
      && (IsOpList(answer) ==>
            (r.Err? <==> ParseAll(OpList(answer), |text.units|).Err?)
            && (r.Err? ==> newText == text)
            && (r.Ok? ==> newText == ApplyDelta(text, ParseAll(OpList(answer), |text.units|).value.0)))
  {
    var current := Conversion.DeltasToJson(TextDelta(text));
    var answer := diff(current, newDelta);
    if !IsOpList(answer) {
      return text, Err(DecodingError("Failed to parse delta diff"));
    }
    var ops := OpList(answer);
    if ops == [] {
      assert ParseAll(ops, |text.units|) == Ok(([], Scan(0, |text.units|)));
      return text, Ok(());
    }
    newText, r := ApplyDeltaDiffToText(text, ops);
  }

  /** What `apply_delta_to_text` makes of `text`: the edited text, or the error it reports. */
  function DeltaEdit(text: Text, newDelta: string, diff: (Json, string) -> Option<Json>): Outcome<Text>
  {
    var answer := diff(Conversion.DeltasToJson(TextDelta(text)), newDelta);
    if !IsOpList(answer) then Err(DecodingError("Failed to parse delta diff"))
    else
      match ParseAll(OpList(answer), |text.units|)
      case Err(e) => Err(e)
      case Ok((ds, _)) => Ok(ApplyDelta(text, ds))
  }

  /** The answer parses as `Vec<HashMap<String, Value>>`: a JSON array of objects. */
  predicate IsOpList(answer: Option<Json>)
  {
    answer.Some? && answer.value.JArray? && forall i | 0 <= i < |answer.value.items| :: answer.value.items[i].JObject?
  }

  function OpList(answer: Option<Json>): (r: seq<Op>)
    requires IsOpList(answer)
    ensures |r| == |answer.value.items|
  {
    seq(|answer.value.items|, i requires 0 <= i < |answer.value.items| => answer.value.items[i].fields)
  }

  // ---------------------------------------------------------------------------------------
  // What the scan tells about the edited text

  /**
   * The operations, applied from `pos`, never delete past the end of the text, and no
   * insert is 2^32 code units long or longer.
   */
  predicate WithinText(units: seq<Utf16.CodeUnit>, ds: seq<Delta>, pos: nat)
    decreases |ds|
  {
    ds != [] ==>
      && (ds[0].Deleted? ==> Min(pos, |units|) + ds[0].len <= |units|)
      && (ds[0].Inserted? ==> Utf16.Length(ds[0].insert) < U32_MODULUS)
      && WithinText(Step(units, ds[0], pos).0, ds[1..], Step(units, ds[0], pos).1)
  }

  /**
   * One accepted operation keeps the scan's length equal to the text's length and its
   * cursor at or before the position the edit reaches.
   */
  lemma StepTracksText(units: seq<Utf16.CodeUnit>, pos: nat, d: Op, s: Scan)
    requires InText(s) && |units| == s.len && s.cursor <= pos <= |units|
    requires ParseDeltaOperation(d, s).Ok?
    requires var delta := ParseDeltaOperation(d, s).value.0;
      && (delta.Deleted? ==> pos + delta.len <= |units|)
      && (delta.Inserted? ==> Utf16.Length(delta.insert) < U32_MODULUS)
    ensures var (delta, s') := ParseDeltaOperation(d, s).value;
      var (units', pos') := Step(units, delta, pos);
      |units'| == s'.len && s'.cursor <= pos' <= |units'|
  {
    var delta := ParseDeltaOperation(d, s).value.0;
    if delta.Inserted? {
      Utf16.EncodeLength(delta.insert);
    }
  }

  /**
   * As long as no operation deletes past the end of the text, the length the scan ends
   * with is the length of the text once the parsed operations are applied.
   */
  lemma {:induction false} ParseTracksText(ops: seq<Op>, s: Scan, acc: seq<Delta>, units: seq<Utf16.CodeUnit>, pos: nat)
    requires InText(s) && |units| == s.len && s.cursor <= pos <= |units|
    requires ParseFrom(ops, s, acc).Ok?
    requires WithinText(units, ParseFrom(ops, s, acc).value.0[|acc|..], pos)
    ensures |ApplyFrom(units, ParseFrom(ops, s, acc).value.0[|acc|..], pos)| == ParseFrom(ops, s, acc).value.1.len
    decreases |ops|
  {
    if ops != [] {
      var (delta, s') := ParseDeltaOperation(ops[0], s).value;
      var (ds, f) := ParseFrom(ops, s, acc).value;
      assert ParseFrom(ops, s, acc) == ParseFrom(ops[1..], s', acc + [delta]);
      var rest := ds[|acc|..];
      assert ds[..|acc| + 1] == acc + [delta];
      assert rest[0] == delta;
      assert rest[1..] == ds[|acc + [delta]|..];
      StepTracksText(units, pos, ops[0], s);
      var (units', pos') := Step(units, delta, pos);
      ParseTracksText(ops[1..], s', acc + [delta], units', pos');
    } else {
      assert ParseFrom(ops, s, acc).value.0[|acc|..] == [];
    }
  }

  /** The scan's final length is the length of the edited text, for edits that stay within it. */
  lemma ScanLengthIsTextLength(text: Text, ops: seq<Op>)
    requires ParseAll(ops, |text.units|).Ok?
    requires WithinText(text.units, ParseAll(ops, |text.units|).value.0, 0)
    ensures |ApplyDelta(text, ParseAll(ops, |text.units|).value.0).units| == ParseAll(ops, |text.units|).value.1.len
  {
    var ds := ParseAll(ops, |text.units|).value.0;
    assert ds[0..] == ds;
    ParseTracksText(ops, Scan(0, |text.units|), [], text.units, 0);
  }

  /**
   * A delete is checked against the whole length (line 124), not against what lies after
   * the cursor, and it moves the cursor back (line 133): at cursor 8 of a 10-unit text a
   * delete of 5 is accepted.
   */
  lemma DeleteIsCheckedAgainstWholeLength()
    ensures ParseDeltaOperation(map[DELETE := JNumber(PosInt(5))], Scan(8, 10)) == Ok((Deleted(5), Scan(3, 5)))
  {
  }

  // ---------------------------------------------------------------------------------------
  // The cases of the source's own tests (delta_ops.rs lines 297-368)

  lemma InsertHello()
    ensures ParseDeltaOperation(map[INSERT := JString("hello")], Scan(0, 0)) == Ok((Inserted("hello", None), Scan(5, 5)))
  {
    assert Utf16.Length("hello") == 5 by {
      assert "hello"[1..] == "ello" && "ello"[1..] == "llo" && "llo"[1..] == "lo" && "lo"[1..] == "o" && "o"[1..] == "";
    }
  }

  lemma RetainWithinText()
    ensures ParseDeltaOperation(map[RETAIN := JNumber(PosInt(3))], Scan(2, 10)) == Ok((Retain(3, None), Scan(5, 10)))
  {
  }

  lemma DeleteMovesCursorBack()
    ensures ParseDeltaOperation(map[DELETE := JNumber(PosInt(3))], Scan(5, 10)) == Ok((Deleted(3), Scan(2, 7)))
  {
  }

  lemma RetainPastEndFails()
    ensures ParseDeltaOperation(map[RETAIN := JNumber(PosInt(10))], Scan(3, 5)).Err?
  {
  }

  /** Line 103: the `as u32` cast keeps the low 32 bits, so a retain of 2^32 + 1 is read as 1. */
  lemma RetainCountIsTruncated()
    ensures ParseDeltaOperation(map[RETAIN := JNumber(PosInt(U32_MODULUS + 1))], Scan(0, 1)) == Ok((Retain(1, None), Scan(1, 1)))
  {
  }

  /** Insert is looked at before retain and delete. */
  lemma InsertTakesPrecedence(text: string, n: U64, s: Scan)
    requires InText(s)
    ensures ParseDeltaOperation(map[INSERT := JString(text), RETAIN := JNumber(PosInt(n)), DELETE := JNumber(PosInt(n))], s)
         == ParseDeltaOperation(map[INSERT := JString(text)], s)
  {
  }

  /** A non-string insert is refused even when a valid retain is present. */
  lemma NonStringInsertFails(n: U64, s: Scan)
    requires InText(s)
    ensures ParseDeltaOperation(map[INSERT := JNumber(PosInt(n)), RETAIN := JNumber(PosInt(0))], s).Err?
  {
  }
}
