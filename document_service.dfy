/**
 * The document service (rust/src/doc/document_service.rs): one document whose root map
 * the editor changes through batches of block actions, each batch inside one transaction.
 * Encoding the transaction's changes as update bytes, and the CRDT's merge, decode and
 * apply steps, are passed in as functions.
 */
module Service {
  import opened Wrappers
  import opened Numbers
  import opened Errors
  import opened Json
  import opened Yrs
  import opened Sorting
  import opened Store
  import opened DocumentTypes
  import opened RootMap
  import opened BlockOps
  import opened UpdateOps
  import Constants

  /**
   * How a call ends. `Diverges` stands for the case the source never returns from: deleting
   * a block whose descendants, followed through `parentId`, run into a cycle.
   */
  datatype Reply<T> = Done(result: Outcome<T>) | Diverges

  /** A move that lacks the old path, the parent or the old parent. */
  predicate IncompleteMove(a: BlockAction)
  {
    a.action == Move && !(a.oldPath.Some? && a.block.parentId.Some? && a.block.oldParentId.Some?)
  }

  /** The one kind of step that can fail besides an incomplete move: an edit of a block's text. */
  predicate EditsText(a: BlockAction)
  {
    (a.action == Insert || a.action == Update) && a.block.delta.Some?
  }

  /** A deletion that would recurse forever. */
  ghost predicate DeleteDiverges(b: BlocksMap, a: BlockAction)
  {
    a.action == Delete && FindDescendants(ParentGroups(b), a.block.id).None?
  }

  /**
   * What one action of `apply_action`'s loop (lines 73-99) does to the blocks map `b`,
   * leaving `b'` and the reply `r`: the action goes to the block operation of its kind,
   * whose whole effect holds; a move missing a required field fails with
   * `InvalidOperation` and changes nothing, and a deletion that would recurse forever
   * never returns.
   */
  ghost predicate DispatchSpec(b: BlocksMap, a: BlockAction, diff: (Json, string) -> Option<Json>, b': BlocksMap, r: Reply<()>)
  {
    if IncompleteMove(a) then r == Done(Err(InvalidOperation("Missing required fields for move operation"))) && b' == b
    else match a.action
      case Insert => r.Done? && InsertSpec(b, a.block, diff, b', r.result)
      case Update => r.Done? && UpdateSpec(b, a.block, diff, b', r.result)
      case Delete =>
        if DeleteDiverges(b, a) then r == Diverges && b' == b
        else r == Done(Ok(())) && DeleteSpec(b, a.block.id, b')
      case Move =>
        r == Done(Ok(())) && MoveSpec(b, a.block.id, a.block.parentId.value, a.block.oldParentId.value, a.block.prevId, a.block.nextId, b')
  }

  /**
   * The first `n` actions went through, each doing what `DispatchSpec` says to the map
   * before it, `trace[j]`, and leaving the next one, `trace[j + 1]`.
   */
  ghost predicate Ran(trace: seq<BlocksMap>, actions: seq<BlockAction>, diff: (Json, string) -> Option<Json>, n: nat)
  {
    && n < |trace| && n <= |actions|
    && forall j | 0 <= j < n :: DispatchSpec(trace[j], actions[j], diff, trace[j + 1], Done(Ok(())))
  }

  /** A trace that ran `n` actions still does when a map is added at its end. */
  lemma RanExtends(trace: seq<BlocksMap>, actions: seq<BlockAction>, diff: (Json, string) -> Option<Json>, n: nat, b: BlocksMap)
    requires Ran(trace, actions, diff, n)
    ensures Ran(trace + [b], actions, diff, n)
  {
    forall j | 0 <= j < n
      ensures DispatchSpec((trace + [b])[j], actions[j], diff, (trace + [b])[j + 1], Done(Ok(())))
    {
      assert (trace + [b])[j] == trace[j] && (trace + [b])[j + 1] == trace[j + 1];
    }
  }

  /** One more action that went through makes the trace one step longer. */
  lemma RanStep(trace: seq<BlocksMap>, actions: seq<BlockAction>, diff: (Json, string) -> Option<Json>, n: nat, b: BlocksMap)
    requires Ran(trace, actions, diff, n) && |trace| == n + 1 && n < |actions|
    requires DispatchSpec(trace[n], actions[n], diff, b, Done(Ok(())))
    ensures Ran(trace + [b], actions, diff, n + 1)
  {
    RanExtends(trace, actions, diff, n, b);
    assert (trace + [b])[n] == trace[n] && (trace + [b])[n + 1] == b;
  }

  /**
   * The loop of `apply_action` (lines 70-100) on the blocks map `b0`: the actions run in
   * list order until one fails or diverges. `ran` is the number of actions that went
   * through and `trace` the maps the loop went through, the last being `b`; the action
   * that ended the loop early, if any, did what `DispatchSpec` says with the reply `r`.
   */
  method RunActions(b0: BlocksMap, actions: seq<BlockAction>, diff: (Json, string) -> Option<Json>)
    returns (b: BlocksMap, r: Reply<()>, ghost ran: nat, ghost trace: seq<BlocksMap>)
    requires Valid(b0)
    ensures Valid(b)
    ensures ran <= |actions|
    ensures ran == |actions| <==> r == Done(Ok(()))
    ensures |trace| == (if ran < |actions| then ran + 2 else ran + 1) && trace[0] == b0 && b == trace[|trace| - 1]
    ensures Ran(trace, actions, diff, ran)
    ensures ran < |actions| ==> DispatchSpec(trace[ran], actions[ran], diff, trace[ran + 1], r)
    ensures forall j | 0 <= j < ran :: !IncompleteMove(actions[j])
    ensures ran < |actions| && IncompleteMove(actions[ran]) ==>
      r == Done(Err(InvalidOperation("Missing required fields for move operation")))
    ensures r.Done? && r.result.Err? ==> IncompleteMove(actions[ran]) || EditsText(actions[ran])
    ensures r.Diverges? ==> actions[ran].action == Delete
  {
    b, r, trace := b0, Done(Ok(())), [b0];
    var i := 0;
    while i < |actions|
      invariant i <= |actions| && Valid(b)
      invariant |trace| == i + 1 && trace[0] == b0 && trace[i] == b
      invariant Ran(trace, actions, diff, i)
      invariant forall j | 0 <= j < i :: !IncompleteMove(actions[j])
      invariant r == Done(Ok(()))
    {
      var b', step := Dispatch(b, actions[i], diff);
      if step != Done(Ok(())) {
        RanExtends(trace, actions, diff, i, b');
        trace := trace + [b'];
        assert trace[i] == b && trace[i + 1] == b';
        return b', step, i, trace;
      }
      RanStep(trace, actions, diff, i, b');
      b, trace, i := b', trace + [b'], i + 1;
    }
    ran := i;
  }

  /** The body of `apply_action`'s loop (lines 73-99). */
  method Dispatch(b: BlocksMap, a: BlockAction, diff: (Json, string) -> Option<Json>)
    returns (b': BlocksMap, r: Reply<()>)
    requires Valid(b)
    ensures Valid(b') && DispatchSpec(b, a, diff, b', r)
    ensures r.Diverges? <==> DeleteDiverges(b, a)
    ensures r.Done? && r.result.Err? ==> IncompleteMove(a) || (EditsText(a) && NewText(b, a.block, diff).Err? && r.result.error == NewText(b, a.block, diff).error)
    ensures EditsText(a) ==> (r.result.Err? <==> NewText(b, a.block, diff).Err?)
  {
    match a.action
    case Insert =>
      var res;
      b', res := InsertNode(b, a.block, diff);
      r := Done(res);
    case Update =>
      var res;
      b', res := UpdateNode(b, a.block, diff);
      r := Done(res);
    case Delete =>
      if FindDescendants(ParentGroups(b), a.block.id).None? {
        return b, Diverges;
      }
      var res;
      b', res := DeleteNode(b, a.block.id);
      r := Done(res);
    case Move =>
      if a.oldPath.Some? && a.block.parentId.Some? && a.block.oldParentId.Some? {
        b' := MoveBlock(b, a.block.id, a.block.parentId.value, a.block.oldParentId.value, a.block.prevId, a.block.nextId);
        r := Done(Ok(()));
      } else {
        b' := b;
        r := Done(Err(InvalidOperation("Missing required fields for move operation")));
      }
  }

  /** `merge_updates` of the service (lines 146-160): a failed merge is reported as an `EncodingError`. */
  function MergeUpdates(updates: seq<Bytes>, merge: seq<Bytes> -> Option<Bytes>): (r: Outcome<Bytes>)
    ensures r.Ok? <==> merge(updates).Some?
    ensures r.Ok? ==> r.value == merge(updates).value
    ensures r.Err? ==> r.error.EncodingError?
  {
    match merge(updates)
    case None => Err(EncodingError("Failed to merge updates"))
    case Some(u) => Ok(u)
  }

  class DocumentService {
    var root: Root
    const docId: string

    ghost predicate Valid()
      reads this
    {
      ValidRoot(root)
    }

    /** `new` (lines 22-27): an empty document. */
    constructor ()
      ensures Valid()
      ensures root == EmptyRoot() && docId == "xxxx"
    {
      root := EmptyRoot();
      docId := "xxxx";
    }

    /**
     * `init_empty_doc` (lines 32-52): makes sure the root map has a blocks map and nothing
     * else, and hands back the whole state encoded by `encodeState`.
     */
    method InitEmptyDoc(encodeState: Root -> Bytes) returns (r: Outcome<Bytes>)
      requires Valid()
      modifies this
      ensures Valid()
      ensures root == old(root).(blocks := Some(BlocksOrInit(old(root))))
      ensures r == Ok(encodeState(root))
    {
      root := root.(blocks := Some(BlocksOrInit(root)));
      r := Ok(encodeState(root));
    }

    /**
     * `set_root_node_id` (lines 166-180): the id goes under "document" in the root map; the
     * changes are encoded by `encodeDiff` from the states before and after.
     */
    method SetRootNodeId(id: string, encodeDiff: (Root, Root) -> Bytes) returns (r: Outcome<Bytes>)
      requires Valid()
      modifies this
      ensures Valid()
      ensures root == old(root).(rootId := Some(Str(id)))
      ensures r == Ok(encodeDiff(old(root), root))
    {
      var before := root;
      root := root.(rootId := Some(Str(id)));
      r := Ok(encodeDiff(before, root));
    }

    /** `get_document_state` (lines 132-144). */
    method GetDocumentState(render: Out -> string, serialize: Json -> Option<string>) returns (r: Outcome<DocumentState>)
      ensures r == StateOf(root, docId, render, serialize)
    {
      r := ExtractDocumentState(root, docId, render, serialize);
    }

    /** `apply_updates` (lines 113-127): the updates are applied to this document in place. */
    method ApplyUpdates(updates: seq<Bytes>, merge: seq<Bytes> -> Option<Bytes>,
                           decode: Bytes -> Option<DecodedUpdate>, apply: (Root, DecodedUpdate) -> Root) returns (r: Outcome<()>)
      requires Valid()
      requires forall rt, u :: ValidRoot(rt) ==> ValidRoot(apply(rt, u))
      modifies this
      ensures Valid()
      ensures (root, r) == ApplyUpdatesInner(old(root), updates, merge, decode, apply)
    {
      UpdateErrors(root, updates, merge, decode, apply);
      var result := ApplyUpdatesInner(root, updates, merge, decode, apply);
      if result.1.Ok? {
        assert ValidRoot(apply(root, decode(merge(updates).value).value));
      }
      root := result.0;
      r := result.1;
    }

    /**
     * `apply_action` (lines 57-108): the actions run in list order on the blocks map,
     * created if missing, as `RunActions` says. The first failure ends the batch with its
     * error and no update bytes; the changes made before it stay. When all actions ran,
     * the changes are encoded by `encodeDiff`. Nothing but the blocks map changes.
     */
    method ApplyAction(actions: seq<BlockAction>, diff: (Json, string) -> Option<Json>, encodeDiff: (Root, Root) -> Bytes)
      returns (reply: Reply<Bytes>, ghost ran: nat, ghost trace: seq<BlocksMap>)
      requires Valid()
      modifies this
      ensures Valid()
      ensures ran <= |actions|
      ensures ran == |actions| <==> reply.Done? && reply.result.Ok?
      ensures |trace| == if ran < |actions| then ran + 2 else ran + 1
      ensures trace[0] == BlocksOrInit(old(root))
      ensures Ran(trace, actions, diff, ran)
      ensures ran < |actions| ==>
        DispatchSpec(trace[ran], actions[ran], diff, trace[ran + 1], if reply.Diverges? then Diverges else Done(Err(reply.result.error)))
      ensures actions != [] ==> root.blocks == Some(trace[|trace| - 1])
      ensures ran == |actions| ==> reply == Done(Ok(encodeDiff(old(root), root)))
      ensures ran < |actions| && IncompleteMove(actions[ran]) ==>
        reply == Done(Err(InvalidOperation("Missing required fields for move operation")))
      ensures reply.Done? && reply.result.Err? ==> IncompleteMove(actions[ran]) || EditsText(actions[ran])
      ensures reply.Diverges? ==> actions[ran].action == Delete
      ensures root.children == old(root.children) && root.rootId == old(root.rootId)
      ensures actions == [] ==> root == old(root)
    {
      var before := root;
      if actions == [] {
        reply, ran, trace := Done(Ok(encodeDiff(before, root))), 0, [BlocksOrInit(root)];
        return;
      }
      var b, r;
      b, r, ran, trace := RunActions(BlocksOrInit(root), actions, diff);
      root := root.(blocks := Some(b));
      match r
      case Diverges => reply := Diverges;
      case Done(Err(e)) => reply := Done(Err(e));
      case Done(Ok(())) => reply := Done(Ok(encodeDiff(before, root)));
    }
  }

  /**
   * A root map without a children map, such as `init_empty_doc` leaves behind, never reads
   * as a document state; once its blocks read, the failure is the missing children map.
   */
  lemma NoChildrenMapCannotBeRead(root: Root, docId: string, render: Out -> string, serialize: Json -> Option<string>)
    requires root.children.None?
    ensures StateOf(root, docId, render, serialize).Err?
    ensures root.blocks.Some? && root.blocks.value.entries == map[] ==>
      StateOf(root, docId, render, serialize) == Err(StateError("Children map not found in document"))
  {
    if root.blocks.Some? && root.blocks.value.entries == map[] {
      var b := root.blocks.value;
      BlocksFromResult(b, b.order, map[], render, serialize);
      forall k | k in b.order
        ensures Extracted(b, k, render, serialize).Ok?
      {
        assert !IsMapEntry(b, k);
      }
    }
  }
}
