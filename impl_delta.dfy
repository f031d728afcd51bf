/**
 * Delta validation and application in the earlier document variant
 * (rust/src/doc/utils/document_impl.rs:730-960). The checks are those of delta_ops.rs
 * with two differences in form: the room left for a retain is a saturating difference,
 * and a last check rejects a cursor left past the end of the text. Both are shown here to
 * change nothing: on every operation list the two variants accept the same lists and
 * build the same edits.
 */
module ImplDelta {
  import opened Wrappers
  import opened Numbers
  import opened Json
  import opened Yrs
  import opened DeltaOps
  import Conversion

  /** `current_len.saturating_sub(cursor_pos)` (line 861). */
  function SaturatingSub(a: nat, b: nat): (r: nat)
    ensures b <= a ==> r == a - b
    ensures a < b ==> r == 0
  {
    if a >= b then a - b else 0
  }

  /**
   * One operation of the closure at lines 804-943: the kind is decided by the key, insert
   * before retain before delete; a zero length is a no-op.
   */
  function ImplParseOperation(d: Op, s: Scan): Result<(Delta, Scan), string>
  {
    if INSERT in d then
      match AsStr(d[INSERT])
      case None => Err("Insert value must be a string")
      case Some(text) =>
        var n := InsertLength(text);
        if n == 0 then Ok((Retain(0, None), s))
        else Ok((Inserted(text, ParseAttributes(d)), Scan(s.cursor + n, s.len + n)))
    else if RETAIN in d then
      match ValueAsU64(d[RETAIN])
      case None => Err("Retain value must be a number")
      case Some(v) =>
        var n := TruncateToU32(v);
        if n > SaturatingSub(s.len, s.cursor) then Err("Retain operation exceeds remaining text length")
        else if n == 0 then Ok((Retain(0, None), s))
        else Ok((Retain(n, ParseAttributes(d)), Scan(s.cursor + n, s.len)))
    else if DELETE in d then
      match ValueAsU64(d[DELETE])
      case None => Err("Delete value must be a number")
      case Some(v) =>
        var n := TruncateToU32(v);
        if n > s.len then Err("Delete operation exceeds text length")
        else if n == 0 then Ok((Deleted(0), s))
        else Ok((Deleted(n), Scan(SaturatingSub(s.cursor, n), s.len - n)))
    else Err("Invalid delta operation")
  }

  /** The operations parsed in order from scan `s`; the first failure is the result. */
  function ImplParseFrom(ops: seq<Op>, s: Scan, acc: seq<Delta>): Result<(seq<Delta>, Scan), string>
    decreases |ops|
  {
    if ops == [] then Ok((acc, s))
    else
      match ImplParseOperation(ops[0], s)
      case Err(e) => Err(e)
      case Ok((delta, s')) => ImplParseFrom(ops[1..], s', acc + [delta])
  }

  /** Lines 797-954: the whole list parsed from the start of the text, then the final cursor check. */
  function ImplParseAll(ops: seq<Op>, textLen: nat): Result<seq<Delta>, string>
  {
    match ImplParseFrom(ops, Scan(0, textLen), [])
    case Err(e) => Err(e)
    case Ok((ds, s)) =>
      if s.cursor > s.len then Err("Cursor position exceeds text length") else Ok(ds)
  }

  /**
   * From a scan whose cursor lies within the text, one operation is accepted here exactly
   * when delta_ops.rs accepts it, with the same edit and the same next scan.
   */
  lemma OperationAgrees(d: Op, s: Scan)
    requires InText(s)
    ensures ImplParseOperation(d, s).Ok? <==> ParseDeltaOperation(d, s).Ok?
    ensures ImplParseOperation(d, s).Ok? ==> ImplParseOperation(d, s).value == ParseDeltaOperation(d, s).value
  {
  }

  lemma {:induction false} ParseFromAgrees(ops: seq<Op>, s: Scan, acc: seq<Delta>)
    requires InText(s)
    ensures ImplParseFrom(ops, s, acc).Ok? <==> ParseFrom(ops, s, acc).Ok?
    ensures ImplParseFrom(ops, s, acc).Ok? ==> ImplParseFrom(ops, s, acc).value == ParseFrom(ops, s, acc).value
    decreases |ops|
  {
    if ops != [] {
      OperationAgrees(ops[0], s);
      if ParseDeltaOperation(ops[0], s).Ok? {
        var (delta, s') := ParseDeltaOperation(ops[0], s).value;
        ParseFromAgrees(ops[1..], s', acc + [delta]);
      }
    }
  }

  /**
   * The two validations accept the same operation lists and produce the same edits; the
   * saturating difference never saturates and the final cursor check never fires.
   */
  lemma ParseAllAgrees(ops: seq<Op>, textLen: nat)
    ensures ImplParseAll(ops, textLen).Ok? <==> ParseAll(ops, textLen).Ok?
    ensures ImplParseAll(ops, textLen).Ok? ==> ImplParseAll(ops, textLen).value == ParseAll(ops, textLen).value.0
  {
    ParseFromAgrees(ops, Scan(0, textLen), []);
  }

  /**
   * `apply_delta_diff_to_text` (lines 788-960): the length and cursor are threaded through
   * the operations, the final cursor is checked, and only then is the text edited; on a
   * failure the text is left as it was.
   */
  method ImplApplyDeltaDiffToText(text: Text, delta: seq<Op>) returns (newText: Text, r: Result<(), string>)
    ensures r.Ok? <==> ImplParseAll(delta, |text.units|).Ok?
    ensures r.Err? ==> newText == text && r.error == ImplParseAll(delta, |text.units|).error
    ensures r.Ok? ==> newText == ApplyDelta(text, ImplParseAll(delta, |text.units|).value)
  {
    var currentLen: nat := |text.units|;
    var cursorPos: nat := 0;
    var deltas: seq<Delta> := [];
    var i := 0;
    while i < |delta|
      invariant 0 <= i <= |delta|
      invariant ImplParseFrom(delta[i..], Scan(cursorPos, currentLen), deltas) == ImplParseFrom(delta, Scan(0, |text.units|), [])
    {
      assert delta[i..][1..] == delta[i + 1..];
      var parsed := ImplParseOperation(delta[i], Scan(cursorPos, currentLen));
      if parsed.Err? {
        return text, Err(parsed.error);
      }
      deltas := deltas + [parsed.value.0];
      cursorPos := parsed.value.1.cursor;
      currentLen := parsed.value.1.len;
      i := i + 1;
    }
    assert delta[i..] == [];
    if cursorPos > currentLen {
      return text, Err("Cursor position exceeds text length");
    }
    newText := ApplyDelta(text, deltas);
    r := Ok(());
  }

  /**
   * What `apply_delta_to_text` of this variant (lines 728-786) makes of `text`: the
   * editor's answer to the current content and `newDelta` must be a list of objects; an
   * empty list changes nothing.
   */
  function ImplDeltaEdit(text: Text, newDelta: string, diff: (Json, string) -> Option<Json>): Result<Text, string>
  {
    var answer := diff(Conversion.DeltasToJson(TextDelta(text)), newDelta);
    if !IsOpList(answer) then Err("Failed to parse delta diff")
    else if OpList(answer) == [] then Ok(text)
    else
      match ImplParseAll(OpList(answer), |text.units|)
      case Err(e) => Err(e)
      case Ok(ds) => Ok(ApplyDelta(text, ds))
  }

  /** Both variants of `apply_delta_to_text` succeed on the same answers and make the same text. */
  lemma DeltaEditAgrees(text: Text, newDelta: string, diff: (Json, string) -> Option<Json>)
    ensures ImplDeltaEdit(text, newDelta, diff).Ok? <==> DeltaEdit(text, newDelta, diff).Ok?
    ensures ImplDeltaEdit(text, newDelta, diff).Ok? ==> ImplDeltaEdit(text, newDelta, diff).value == DeltaEdit(text, newDelta, diff).value
  {
    var answer := diff(Conversion.DeltasToJson(TextDelta(text)), newDelta);
    if IsOpList(answer) {
      ParseAllAgrees(OpList(answer), |text.units|);
      if OpList(answer) == [] {
        assert ParseAll([], |text.units|) == Ok(([], Scan(0, |text.units|)));
        assert ApplyDelta(text, []) == text;
      }
    }
  }

  method ImplApplyDeltaToText(text: Text, newDelta: string, diff: (Json, string) -> Option<Json>)
    returns (newText: Text, r: Result<(), string>)
    ensures r.Ok? <==> ImplDeltaEdit(text, newDelta, diff).Ok?
    ensures r.Ok? ==> newText == ImplDeltaEdit(text, newDelta, diff).value
    ensures r.Err? ==> newText == text && r.error == ImplDeltaEdit(text, newDelta, diff).error
  {
    var answer := diff(Conversion.DeltasToJson(TextDelta(text)), newDelta);
    if !IsOpList(answer) {
      return text, Err("Failed to parse delta diff");
    }
    var ops := OpList(answer);
    if ops == [] {
      return text, Ok(());
    }
    newText, r := ImplApplyDeltaDiffToText(text, ops);
  }
}
