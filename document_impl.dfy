/**
 * The earlier variant of the document service (rust/src/doc/utils/document_impl.rs).
 * Besides the blocks map it keeps, under "childrenMap", an array of child ids per block,
 * which inserts, deletes and moves update by path index. Its chain repair rewrites at most
 * one block: the first, in the map's iteration order, that is stored as a plain map value
 * and names the block as its `prevId`. The batch of actions fails only on an incomplete
 * move; the results of the block operations are otherwise dropped. An index out of range
 * in an array call makes yrs panic, which here is the outcome `Panicked`.
 */
module DocumentImpl {
  import opened Wrappers
  import opened Numbers
  import opened Json
  import opened Yrs
  import opened Store
  import opened DocumentTypes
  import opened ChildArrays
  import opened ImplDelta
  import BlockOps
  import Service
  import Constants

  /**
   * How a call of this variant ends: with its `Result`, with a panic of yrs on an array
   * index out of range, or, for the recursion of `delete_node`, with the model's depth
   * bound used up.
   */
  datatype Ending<T> = Returned(result: Result<T, string>) | Panicked | OutOfFuel

  const BLOCK_NOT_REMOVED: string := "Failed to remove block from blocks map: item not found"
  const CHILD_LIST_NOT_REMOVED: string := "Failed to remove block from children map: item not found"

  // ---------------------------------------------------------------------------------------
  // Paths

  /** `zip(..).all(|(a, b)| a == b)`: the two sequences agree as far as both go. */
  function AgreeAsFarAsBoth(a: seq<U32>, b: seq<U32>): (r: bool)
    ensures r <==> forall i | 0 <= i < |a| && i < |b| :: a[i] == b[i]
  {
    if a == [] || b == [] then true
    else
      var rest := AgreeAsFarAsBoth(a[1..], b[1..]);
      assert forall i | 1 <= i < |a| && i < |b| :: a[i] == a[1..][i - 1] && b[i] == b[1..][i - 1];
      a[0] == b[0] && rest
  }

  /**
   * `is_same_path_except_last` (lines 259-276). Two empty paths are excluded: the length
   * minus one of line 271 underflows on them.
   */
  function IsSamePathExceptLast(oldPath: seq<U32>, newPath: seq<U32>): (r: bool)
    requires oldPath != [] || newPath != []
    ensures r <==> |oldPath| == |newPath| && forall i | 0 <= i < |oldPath| - 1 :: oldPath[i] == newPath[i]
  {
    |oldPath| == |newPath| && AgreeAsFarAsBoth(oldPath[..|oldPath| - 1], newPath)
  }

  // ---------------------------------------------------------------------------------------
  // Chain repair

  /** A block stored as a plain map value (not a shared map) whose "prevId" is the string `p`. */
  predicate PlainRefersTo(o: Out, p: string)
  {
    o.Value? && o.any.Map? && Constants.PREV_ID in o.any.entries && o.any.entries[Constants.PREV_ID] == String(p)
  }

  /** The index of the first element of `s` that satisfies `f`. */
  function FirstIndex(s: seq<string>, f: string -> bool): (r: Option<nat>)
    ensures r.Some? ==> r.value < |s| && f(s[r.value]) && forall j | 0 <= j < r.value :: !f(s[j])
    ensures r.None? ==> forall j | 0 <= j < |s| :: !f(s[j])
  {
    if s == [] then None
    else if f(s[0]) then Some(0)
    else match FirstIndex(s[1..], f)
      case None => None
      case Some(i) => Some(i + 1)
  }

  function RefersTo(b: BlocksMap, p: string): string -> bool
  {
    k => k in b.entries && PlainRefersTo(b.entries[k], p)
  }

  /**
   * `find_block_referencing_prev_id` (lines 369-388): the first block, in the map's
   * iteration order, stored as a plain map value whose "prevId" is `p`. Blocks stored as
   * shared maps are never found.
   */
  function FindReferencing(b: BlocksMap, p: string): (r: Option<string>)
    requires Valid(b)
    ensures r.Some? ==> r.value in b.entries && PlainRefersTo(b.entries[r.value], p)
    ensures r.None? ==> forall k | k in b.entries :: !PlainRefersTo(b.entries[k], p)
  {
    match FirstIndex(b.order, RefersTo(b, p))
    case None =>
      assert forall k | k in b.entries :: exists j | 0 <= j < |b.order| :: b.order[j] == k;
      None
    case Some(i) => Some(b.order[i])
  }

  function RefersToOther(b: BlocksMap, p: string, x: string): string -> bool
  {
    k => k != x && k in b.entries && PlainRefersTo(b.entries[k], p)
  }

  /** The block the repair finds once block `x` has been made a shared map. */
  function Follower(b: BlocksMap, p: string, x: string): (r: Option<string>)
    requires Valid(b)
    ensures r.Some? ==> r.value != x && r.value in b.entries && PlainRefersTo(b.entries[r.value], p)
  {
    match FirstIndex(b.order, RefersToOther(b, p, x))
    case None => None
    case Some(i) => Some(b.order[i])
  }

  /** What the repair leaves of the follower: a shared map holding at most a "prevId". */
  function PrevEntry(v: Option<string>): (r: map<string, Out>)
    ensures Constants.PREV_ID in r <==> v.Some?
  {
    if v.Some? then map[Constants.PREV_ID := Str(v.value)] else map[]
  }

  /**
   * Apart from block `x`, `b'` is `b` with the follower of `p` (not `x` itself) rewritten
   * as a shared map that holds only a "prevId" of `v`, or nothing when `v` is none: the
   * follower was a plain map value, which `get_or_init_map` replaces by an empty shared
   * map before the write.
   */
  ghost predicate Relinked(b: BlocksMap, b': BlocksMap, p: string, x: string, v: Option<string>)
    requires Valid(b)
  {
    var n := Follower(b, p, x);
    && (n.Some? ==> n.value in b'.entries && b'.entries[n.value] == YMap(PrevEntry(v)))
    && forall k | k in b.entries && k != x && Some(k) != n :: k in b'.entries && b'.entries[k] == b.entries[k]
  }

  lemma {:induction false} FirstIndexAgrees(s: seq<string>, t: seq<string>, f: string -> bool, g: string -> bool, x: string)
    requires forall j | 0 <= j < |s| :: g(s[j]) == f(s[j])
    requires t == s || (t == s + [x] && !g(x))
    requires forall j | 0 <= j < |s| :: s[j] != x || !f(s[j])
    ensures FirstIndex(t, g) == FirstIndex(s, f)
    decreases |s|
  {
    if s == [] {
      if t != s {
        assert t[1..] == [];
      }
    } else if !f(s[0]) {
      if t == s {
        FirstIndexAgrees(s[1..], s[1..], f, g, x);
      } else {
        assert t[1..] == s[1..] + [x];
        FirstIndexAgrees(s[1..], t[1..], f, g, x);
      }
    }
  }

  /**
   * Once block `x` has been made a shared map and nothing else has changed, the lookup
   * finds the follower of `p` other than `x`.
   */
  lemma FindAfterMaking(b: BlocksMap, b1: BlocksMap, p: string, x: string)
    requires Valid(b) && Valid(b1)
    requires x in b1.entries && b1.entries[x].YMap?
    requires forall k | k in b.entries && k != x :: k in b1.entries && b1.entries[k] == b.entries[k]
    requires b1.order == b.order || (x !in b.entries && b1.order == b.order + [x])
    ensures FindReferencing(b1, p) == Follower(b, p, x)
  {
    FirstIndexAgrees(b.order, b1.order, RefersToOther(b, p, x), RefersTo(b1, p), x);
  }

  /**
   * `remove_block_from_prev_id_chain` (lines 390-430): the block's `prevId` is handed to
   * the block found following it, or that block's `prevId` is removed when the block has
   * none. The block itself becomes a shared map if it was not one.
   */
  method RemoveFromChain(b: BlocksMap, blockId: string) returns (b': BlocksMap)
    requires Valid(b)
    ensures Valid(b') && b'.entries.Keys == b.entries.Keys + {blockId}
    ensures b'.entries[blockId].YMap? && Fields(b', blockId) == Fields(b, blockId)
    ensures b'.order == b.order || (blockId !in b.entries && b'.order == b.order + [blockId])
    ensures Relinked(b, b', blockId, blockId, PrevIdOf(b, blockId))
  {
    var b1 := InitMap(b, blockId);
    InitMapOrder(b, blockId);
    BlockOps.InitMapFields(b, blockId, b1);
    BlockOps.PrevIdFromField(b, b1, blockId);
    b' := RewriteFollower(b, b1, blockId, blockId, PrevIdOf(b1, blockId));
  }

  /**
   * Lines 419-428 and 320-333, the write both repairs share: the first block found
   * following `p` in `b1`, which is block `x` made a shared map, gets a "prevId" of `v`,
   * or loses its "prevId" when `v` is none. `b0` is the map before `x` was made.
   */
  method RewriteFollower(ghost b0: BlocksMap, b1: BlocksMap, p: string, x: string, v: Option<string>)
    returns (b': BlocksMap)
    requires Valid(b0) && Valid(b1)
    requires x in b1.entries && b1.entries[x].YMap? && OthersKept(b0, b1, x)
    requires b1.order == b0.order || (x !in b0.entries && b1.order == b0.order + [x])
    ensures Valid(b') && b'.entries.Keys == b1.entries.Keys && b'.order == b1.order
    ensures b'.entries[x] == b1.entries[x]
    ensures Relinked(b0, b', p, x, v)
  {
    var next := FindReferencing(b1, p);
    FindAfterMaking(b0, b1, p, x);
    if next.None? {
      return b1;
    }
    var n := next.value;
    assert Fields(b1, n) == map[];
    if v.Some? {
      b' := SetField(b1, n, Constants.PREV_ID, Str(v.value));
    } else {
      b' := RemoveField(b1, n, Constants.PREV_ID);
    }
    assert b'.entries == b1.entries[n := YMap(PrevEntry(v))];
    FollowerRewritten(b0, b1, b', p, x, v);
  }

  lemma FollowerRewritten(b0: BlocksMap, b1: BlocksMap, b': BlocksMap, p: string, x: string, v: Option<string>)
    requires Valid(b0) && OthersKept(b0, b1, x)
    requires Follower(b0, p, x).Some?
    requires b'.entries == b1.entries[Follower(b0, p, x).value := YMap(PrevEntry(v))]
    ensures Relinked(b0, b', p, x, v)
  {
  }

  /**
   * Blocks stored as shared maps, which is how this variant's own inserts store them,
   * never take part in the repair: it only makes block `x` a shared map.
   */
  lemma SharedMapsAreNotRelinked(b: BlocksMap, p: string, x: string)
    requires Valid(b)
    requires forall k | k in b.entries :: b.entries[k].YMap?
    ensures Follower(b, p, x).None?
  {
  }

  // ---------------------------------------------------------------------------------------
  // Text

  /** The text a delta makes of `t`; a delta that fails leaves it as it was. */
  function EditedText(t: Text, delta: string, diff: (Json, string) -> Option<Json>): Text
  {
    var e := ImplDeltaEdit(t, delta, diff);
    if e.Ok? then e.value else t
  }

  /**
   * `get_or_init_text(TEXT)` on block `id` and this variant's `apply_delta_to_text`, whose
   * result the callers drop (lines 223-227, 312-316).
   */
  method EditText(b: BlocksMap, id: string, delta: string, diff: (Json, string) -> Option<Json>)
    returns (b': BlocksMap)
    requires Valid(b) && id in b.entries
    ensures Valid(b') && b'.order == b.order && b'.entries.Keys == b.entries.Keys
    ensures b'.entries[id].YMap?
    ensures Field(b', id, Constants.TEXT) == Some(YText(EditedText(BlockOps.TextOf(Fields(b, id)), delta, diff)))
    ensures forall f | f != Constants.TEXT :: Field(b', id, f) == Field(b, id, f)
    ensures forall k | k in b.entries && k != id :: b'.entries[k] == b.entries[k]
  {
    var t := BlockOps.TextOf(Fields(b, id));
    var b1 := SetField(b, id, Constants.TEXT, YText(t));
    BlockOps.SetFieldFields(b, id, Constants.TEXT, YText(t), b1);
    var edited, _ := ImplApplyDeltaToText(t, delta, diff);
    b' := SetField(b1, id, Constants.TEXT, YText(edited));
    BlockOps.SetFieldFields(b1, id, Constants.TEXT, YText(edited), b');
  }

  // ---------------------------------------------------------------------------------------
  // Block operations

  /** The fields of block `id` other than those named. */
  ghost predicate SameFieldsBut(b: BlocksMap, b': BlocksMap, id: string, changed: set<string>)
  {
    forall f | f !in changed :: Field(b', id, f) == Field(b, id, f)
  }

  /** The blocks other than `id` are as they were. */
  ghost predicate OthersKept(b: BlocksMap, b': BlocksMap, id: string)
  {
    forall k | k in b.entries && k != id :: k in b'.entries && b'.entries[k] == b.entries[k]
  }

  /**
   * The first writes of `insert_node` (lines 288-316): id, type, parent unless it is the
   * default one, attributes, and the text edited by the delta.
   */
  method WriteBlock(b: BlocksMap, block: BlockDoc, diff: (Json, string) -> Option<Json>) returns (b': BlocksMap)
    requires Valid(b)
    ensures Valid(b') && b'.entries.Keys == b.entries.Keys + {block.id}
    ensures b'.entries[block.id].YMap?
    ensures b'.order == b.order || (block.id !in b.entries && b'.order == b.order + [block.id])
    ensures OthersKept(b, b', block.id)
    ensures Field(b', block.id, Constants.ID) == Some(Str(block.id))
    ensures Field(b', block.id, Constants.TYPE) == Some(Str(block.ty))
    ensures Field(b', block.id, Constants.ATTRIBUTES) == Some(YMap(BlockOps.StrAttrs(block.attributes)))
    ensures Field(b', block.id, Constants.PARENT_ID)
      == (if BlockOps.ParentOf(block) != Constants.DEFAULT_PARENT then Some(Str(BlockOps.ParentOf(block)))
          else Field(b, block.id, Constants.PARENT_ID))
    ensures Field(b', block.id, Constants.TEXT)
      == (if block.delta.Some? then Some(YText(EditedText(BlockOps.TextOf(Fields(b, block.id)), block.delta.value, diff)))
          else Field(b, block.id, Constants.TEXT))
    ensures SameFieldsBut(b, b', block.id, {Constants.ID, Constants.TYPE, Constants.PARENT_ID, Constants.ATTRIBUTES, Constants.TEXT})
  {
    var id := block.id;
    var b1 := BlockOps.WriteNode(b, block);
    BlockOps.FieldNamesDiffer();
    assert BlockOps.TextOf(Fields(b1, id)) == BlockOps.TextOf(Fields(b, id)) by {
      assert Field(b1, id, Constants.TEXT) == Field(b, id, Constants.TEXT);
    }
    b' := EditTextIfAny(b1, id, block.delta, diff);
  }

  /** Lines 312-316: the text is edited only when the block carries a delta. */
  method EditTextIfAny(b: BlocksMap, id: string, delta: Option<string>, diff: (Json, string) -> Option<Json>)
    returns (b': BlocksMap)
    requires Valid(b) && id in b.entries && b.entries[id].YMap?
    ensures Valid(b') && b'.order == b.order && b'.entries.Keys == b.entries.Keys
    ensures b'.entries[id].YMap?
    ensures Field(b', id, Constants.TEXT)
      == if delta.Some? then Some(YText(EditedText(BlockOps.TextOf(Fields(b, id)), delta.value, diff))) else Field(b, id, Constants.TEXT)
    ensures forall f | f != Constants.TEXT :: Field(b', id, f) == Field(b, id, f)
    ensures forall k | k in b.entries && k != id :: b'.entries[k] == b.entries[k]
  {
    b' := b;
    if delta.Some? {
      b' := EditText(b, id, delta.value, diff);
    }
  }

  /**
   * Lines 318-336: the first block found following `p` now follows block `id`, which
   * takes `p` as its own `prevId`. `b0` is the map before block `id` was written.
   */
  method TakePrev(ghost b0: BlocksMap, b: BlocksMap, id: string, p: string) returns (b': BlocksMap)
    requires Valid(b0) && Valid(b)
    requires id in b.entries && b.entries[id].YMap? && OthersKept(b0, b, id)
    requires b.order == b0.order || (id !in b0.entries && b.order == b0.order + [id])
    ensures Valid(b') && b'.entries.Keys == b.entries.Keys
    ensures Relinked(b0, b', p, id, Some(id))
    ensures Field(b', id, Constants.PREV_ID) == Some(Str(p))
    ensures forall f | f != Constants.PREV_ID :: Field(b', id, f) == Field(b, id, f)
  {
    var b1 := RewriteFollower(b0, b, p, id, Some(id));
    b' := SetField(b1, id, Constants.PREV_ID, Str(p));
    BlockOps.SetFieldFields(b1, id, Constants.PREV_ID, Str(p), b');
    RelinkedKept(b0, b1, b', p, id, Some(id));
  }

  /**
   * Lines 338-363: the new block goes into its parent's array at the last index of its
   * path, or at the end when that index lies past it, and gets an array of its own.
   */
  function AddChild(c: Children, parent: string, path: seq<U32>, id: string): (c': Children)
    ensures c'.Keys == c.Keys + {id} + (if parent != Constants.DEFAULT_PARENT then {parent} else {})
    ensures parent != Constants.DEFAULT_PARENT ==> c'[parent] == PlaceChild(ArrayOf(c, parent), LastOrZero(path), id)
    ensures parent == Constants.DEFAULT_PARENT || parent != id ==> c'[id] == ArrayOf(c, id)
    ensures forall k | k in c && k != id && k != parent :: c'[k] == c[k]
  {
    var c1 := if parent != Constants.DEFAULT_PARENT then c[parent := PlaceChild(ArrayOf(c, parent), LastOrZero(path), id)] else c;
    InitArray(c1, id)
  }

  /**
   * What `insert_node` leaves in the two maps: the block's id, type, attributes, parent
   * (unless the default one) and text written, its `prevId` taken and that block's
   * follower handed over to it, every other block as it was; in the children map, the
   * block placed in its parent's array and given an array of its own.
   */
  ghost predicate InsertSpec(b: BlocksMap, c: Children, action: BlockAction, diff: (Json, string) -> Option<Json>, b': BlocksMap, c': Children)
    requires Valid(b)
  {
    && b'.entries.Keys == b.entries.Keys + {action.block.id}
    && Field(b', action.block.id, Constants.ID) == Some(Str(action.block.id))
    && Field(b', action.block.id, Constants.TYPE) == Some(Str(action.block.ty))
    && Field(b', action.block.id, Constants.ATTRIBUTES) == Some(YMap(BlockOps.StrAttrs(action.block.attributes)))
    && Field(b', action.block.id, Constants.PARENT_ID)
       == (if BlockOps.ParentOf(action.block) != Constants.DEFAULT_PARENT then Some(Str(BlockOps.ParentOf(action.block)))
           else Field(b, action.block.id, Constants.PARENT_ID))
    && Field(b', action.block.id, Constants.TEXT)
       == (if action.block.delta.Some? then Some(YText(EditedText(BlockOps.TextOf(Fields(b, action.block.id)), action.block.delta.value, diff)))
           else Field(b, action.block.id, Constants.TEXT))
    && Field(b', action.block.id, Constants.PREV_ID)
       == (if action.block.prevId.Some? then Some(Str(action.block.prevId.value)) else Field(b, action.block.id, Constants.PREV_ID))
    && (action.block.prevId.Some? ==> Relinked(b, b', action.block.prevId.value, action.block.id, Some(action.block.id)))
    && (action.block.prevId.None? ==> OthersKept(b, b', action.block.id))
    && c' == AddChild(c, BlockOps.ParentOf(action.block), action.path, action.block.id)
  }

  /**
   * `insert_node` (lines 278-367): writes the block's id, type, parent and attributes,
   * edits its text, hands its `prevId`'s follower over to it and takes that `prevId`,
   * places it in its parent's children array and gives it a children array of its own.
   * It always returns `Ok`.
   */
  method InsertNode(b: BlocksMap, c: Children, action: BlockAction, diff: (Json, string) -> Option<Json>)
    returns (b': BlocksMap, c': Children, r: Result<(), string>)
    requires Valid(b)
    ensures r.Ok?
    ensures Valid(b') && InsertSpec(b, c, action, diff, b', c')
  {
    var block := action.block;
    var b1 := WriteBlock(b, block, diff);
    b' := TakePrevIfAny(b, b1, block.id, block.prevId);
    KeptBesidePrev(b1, b', block.id);
    c' := AddChild(c, BlockOps.ParentOf(block), action.path, block.id);
    r := Ok(());
  }

  /** Lines 318-336 run only when the block names a `prevId`. */
  method TakePrevIfAny(ghost b0: BlocksMap, b: BlocksMap, id: string, prevId: Option<string>) returns (b': BlocksMap)
    requires Valid(b0) && Valid(b)
    requires id in b.entries && b.entries[id].YMap? && OthersKept(b0, b, id)
    requires b.order == b0.order || (id !in b0.entries && b.order == b0.order + [id])
    ensures Valid(b') && b'.entries.Keys == b.entries.Keys
    ensures prevId.Some? ==> Relinked(b0, b', prevId.value, id, Some(id))
    ensures prevId.None? ==> b' == b
    ensures Field(b', id, Constants.PREV_ID) == if prevId.Some? then Some(Str(prevId.value)) else Field(b, id, Constants.PREV_ID)
    ensures forall f | f != Constants.PREV_ID :: Field(b', id, f) == Field(b, id, f)
  {
    b' := b;
    if prevId.Some? {
      b' := TakePrev(b0, b, id, prevId.value);
    }
  }

  /** Setting a block's `prevId` leaves the fields `insert_node` wrote before as they were. */
  lemma KeptBesidePrev(b: BlocksMap, b': BlocksMap, id: string)
    requires forall f | f != Constants.PREV_ID :: Field(b', id, f) == Field(b, id, f)
    ensures Field(b', id, Constants.ID) == Field(b, id, Constants.ID)
    ensures Field(b', id, Constants.TYPE) == Field(b, id, Constants.TYPE)
    ensures Field(b', id, Constants.ATTRIBUTES) == Field(b, id, Constants.ATTRIBUTES)
    ensures Field(b', id, Constants.PARENT_ID) == Field(b, id, Constants.PARENT_ID)
    ensures Field(b', id, Constants.TEXT) == Field(b, id, Constants.TEXT)
  {
    assert |Constants.PREV_ID| == 6 && |Constants.ID| == 2 && |Constants.TYPE| == 4 && |Constants.TEXT| == 4;
    assert |Constants.ATTRIBUTES| == 10 && |Constants.PARENT_ID| == 8;
  }

  /** Lines 209-222: the attributes, when there are any, are merged into the block's attributes map. */
  method MergeAttributesIfAny(b: BlocksMap, id: string, attrs: map<string, string>) returns (b': BlocksMap)
    requires Valid(b)
    ensures Valid(b') && b'.entries.Keys == b.entries.Keys + {id} && b'.entries[id].YMap?
    ensures OthersKept(b, b', id)
    ensures AttrsOf(Fields(b', id)) == AttrsOf(Fields(b, id)) + BlockOps.StrAttrs(attrs)
    ensures attrs == map[] ==> Field(b', id, Constants.ATTRIBUTES) == Field(b, id, Constants.ATTRIBUTES)
    ensures SameFieldsBut(b, b', id, {Constants.ATTRIBUTES})
  {
    var b1 := InitMap(b, id);
    BlockOps.InitMapFields(b, id, b1);
    BlockOps.AttrsFromField(b, b1, id);
    b' := b1;
    if attrs != map[] {
      b' := BlockOps.MergeAttributes(b1, id, attrs);
      BlockOps.AddAttrsFields(b1, id, BlockOps.StrAttrs(attrs), b');
    }
  }

  /**
   * What the Update branch of `apply_action_inner` (lines 206-229) leaves: the attributes
   * merged into the block's attributes map when there are any, the text edited when a
   * delta is given, the block a shared map from then on, and every other field and every
   * other block as it was.
   */
  ghost predicate UpdateSpec(b: BlocksMap, block: BlockDoc, diff: (Json, string) -> Option<Json>, b': BlocksMap)
  {
    && b'.entries.Keys == b.entries.Keys + {block.id}
    && AttrsOf(Fields(b', block.id)) == AttrsOf(Fields(b, block.id)) + BlockOps.StrAttrs(block.attributes)
    && (block.attributes == map[] ==> Field(b', block.id, Constants.ATTRIBUTES) == Field(b, block.id, Constants.ATTRIBUTES))
    && Field(b', block.id, Constants.TEXT)
       == (if block.delta.Some? then Some(YText(EditedText(BlockOps.TextOf(Fields(b, block.id)), block.delta.value, diff)))
           else Field(b, block.id, Constants.TEXT))
    && SameFieldsBut(b, b', block.id, {Constants.ATTRIBUTES, Constants.TEXT})
    && b'.entries[block.id].YMap?
    && OthersKept(b, b', block.id)
  }

  /** The Update branch of `apply_action_inner` (lines 206-229). */
  method UpdateNode(b: BlocksMap, block: BlockDoc, diff: (Json, string) -> Option<Json>) returns (b': BlocksMap)
    requires Valid(b)
    ensures Valid(b') && UpdateSpec(b, block, diff, b')
  {
    var id := block.id;
    var b1 := MergeAttributesIfAny(b, id, block.attributes);
    b' := b1;
    if block.delta.Some? {
      assert BlockOps.TextOf(Fields(b1, id)) == BlockOps.TextOf(Fields(b, id)) by {
        assert Field(b1, id, Constants.TEXT) == Field(b, id, Constants.TEXT);
      }
      b' := EditText(b1, id, block.delta.value, diff);
      BlockOps.AttrsFromField(b1, b', id);
    }
  }

  /** What the chain repair leaves in a follower's place: a shared map holding at most a "prevId". */
  predicate IsRewritten(o: Out)
  {
    o.YMap? && o.entries.Keys <= {Constants.PREV_ID}
  }

  /** Every block of `b'` was in `b`, and is as it was there or is a follower the chain repair rewrote. */
  ghost predicate BlocksKept(b: BlocksMap, b': BlocksMap)
  {
    forall k | k in b'.entries :: k in b.entries && (b'.entries[k] == b.entries[k] || IsRewritten(b'.entries[k]))
  }

  /** Every array of `c'` but `p`'s was in `c` and is as it was there. */
  ghost predicate ArraysKept(c: Children, c': Children, p: string)
  {
    forall k | k in c' && k != p :: k in c && c'[k] == c[k]
  }

  /** Every id an array of `c'` lists, the same block's array in `c` listed too. */
  ghost predicate ArraysShrink(c: Children, c': Children)
  {
    forall k, x | k in c' && x in c'[k] :: x in ArrayOf(c, k)
  }

  /**
   * The blocks a `delete_node` of `x` with `n` levels of fuel can visit: `x` itself and,
   * one level down, those below every child listed in `x`'s array.
   */
  ghost function Reach(c: Children, x: string, n: nat): set<string>
    decreases n, 0
  {
    if n == 0 then {} else {x} + ReachAll(c, ArrayOf(c, x), n - 1)
  }

  /** The blocks below any of `xs`. */
  ghost function ReachAll(c: Children, xs: seq<string>, n: nat): set<string>
    decreases n, 1, |xs|
  {
    if xs == [] then {} else Reach(c, xs[0], n) + ReachAll(c, xs[1..], n)
  }

  /** What a deletion reaches from one of `xs` it reaches from the list. */
  lemma {:induction false} ReachAllHas(c: Children, xs: seq<string>, n: nat, y: string)
    requires y in xs
    ensures Reach(c, y, n) <= ReachAll(c, xs, n)
    decreases |xs|
  {
    if xs[0] != y {
      ReachAllHas(c, xs[1..], n, y);
    }
  }

  /** Whatever a deletion reaches from the list it reaches from one of `xs`. */
  lemma {:induction false} ReachAllFrom(c: Children, xs: seq<string>, n: nat, z: string) returns (y: string)
    requires z in ReachAll(c, xs, n)
    ensures y in xs && z in Reach(c, y, n)
    decreases |xs|
  {
    if z in Reach(c, xs[0], n) {
      y := xs[0];
    } else {
      y := ReachAllFrom(c, xs[1..], n, z);
    }
  }

  /**
   * What any `delete_node` of a block whose visits stay within `reach` leaves, whatever its
   * outcome: arrays are created or emptied only for `p` and the blocks in `reach`, and every
   * other array is as it was; arrays never gain an id; blocks are added or removed only in
   * `reach`; and every block left is as it was or is a follower the chain repair rewrote.
   */
  ghost predicate DeleteFrame(b: BlocksMap, c: Children, b': BlocksMap, c': Children, p: string, reach: set<string>)
  {
    && c'.Keys <= c.Keys + reach + {p}
    && (forall k | k in c && k != p && k !in reach :: k in c' && c'[k] == c[k])
    && ArraysShrink(c, c')
    && b'.entries.Keys <= b.entries.Keys + reach
    && (forall k | k in b.entries && k !in reach :: k in b'.entries)
    && (forall k | k in b'.entries :: (k in b.entries && b'.entries[k] == b.entries[k]) || IsRewritten(b'.entries[k]))
  }

  lemma FrameTrans(b0: BlocksMap, c0: Children, b1: BlocksMap, c1: Children, b2: BlocksMap, c2: Children,
                   p: string, r1: set<string>, r2: set<string>)
    requires DeleteFrame(b0, c0, b1, c1, p, r1) && DeleteFrame(b1, c1, b2, c2, p, r2)
    ensures DeleteFrame(b0, c0, b2, c2, p, r1 + r2)
  {
    forall k, x | k in c2 && x in c2[k]
      ensures x in ArrayOf(c0, k)
    {
      assert x in ArrayOf(c1, k);
    }
  }

  /** A frame still holds with more blocks allowed to change, and with `p` among them. */
  lemma FrameWiden(b: BlocksMap, c: Children, b': BlocksMap, c': Children, p: string, r: set<string>, q: string, r': set<string>)
    requires DeleteFrame(b, c, b', c', p, r)
    requires r <= r' && (p == q || p in r')
    ensures DeleteFrame(b, c, b', c', q, r')
  {
  }

  /** Shrinking arrays can only shrink what a deletion reaches. */
  lemma {:induction false} ReachShrinks(c: Children, c': Children, x: string, n: nat)
    requires ArraysShrink(c, c')
    ensures Reach(c', x, n) <= Reach(c, x, n)
    decreases n
  {
    if n > 0 {
      var m := n - 1;
      var below', below := ReachAll(c', ArrayOf(c', x), m), ReachAll(c, ArrayOf(c, x), m);
      forall z | z in below'
        ensures z in below
      {
        var y := ReachAllFrom(c', ArrayOf(c', x), m, z);
        ReachShrinks(c, c', y, m);
        ReachAllHas(c, ArrayOf(c, x), m, y);
      }
    }
  }

  /** The children a deletion reads from a shrunk copy of the block's array stay within its reach. */
  lemma KidsWithinReach(c: Children, c1: Children, blockId: string, kids: seq<string>, fuel: nat)
    requires ArraysShrink(c, c1) && fuel > 0
    requires forall x | x in kids :: x in ArrayOf(c, blockId)
    ensures {blockId} + ReachAll(c1, kids, fuel - 1) <= Reach(c, blockId, fuel)
  {
    var m := fuel - 1;
    var below1, below := ReachAll(c1, kids, m), ReachAll(c, ArrayOf(c, blockId), m);
    forall z | z in below1
      ensures z in below
    {
      var y := ReachAllFrom(c1, kids, m, z);
      ReachShrinks(c, c1, y, m);
      ReachAllHas(c, ArrayOf(c, blockId), m, y);
    }
  }

  /**
   * What `delete_node` (lines 432-510) leaves. With no fuel left it ends there; an empty
   * parent array makes yrs panic; an error names the map the block was missing from.
   * When it succeeds, the block and its listed children are gone from both maps, every
   * other block is as it was or is a follower the repairs rewrote, and every array but
   * the parent's is as it was; the parent's, if the parent was not itself deleted, has
   * lost the block. A block without children whose parent array is not empty is always
   * deleted, and exactly it. Whatever the outcome, arrays and blocks change only for the
   * parent and the blocks the deletion can reach, as `DeleteFrame` says.
   */
  ghost predicate DeleteSpec(b: BlocksMap, c: Children, blockId: string, parentId: string, fuel: nat,
                             b': BlocksMap, c': Children, r: Ending<()>)
  {
    && DeleteOutcome(b, c, blockId, parentId, fuel, b', c', r)
    && DeleteFrame(b, c, b', c', parentId, Reach(c, blockId, fuel))
  }

  /** The outcome of `delete_node` and, when it succeeds, what is gone and what is kept. */
  ghost predicate DeleteOutcome(b: BlocksMap, c: Children, blockId: string, parentId: string, fuel: nat,
                                b': BlocksMap, c': Children, r: Ending<()>)
  {
    && (fuel == 0 ==> r == OutOfFuel)
    && (fuel > 0 && parentId != Constants.DEFAULT_PARENT && ArrayOf(c, parentId) == [] ==> r == Panicked)
    && (r.Returned? && r.result.Err? ==> r.result.error in {BLOCK_NOT_REMOVED, CHILD_LIST_NOT_REMOVED})
    && (r == Returned(Ok(())) ==>
          && b'.entries.Keys <= b.entries.Keys - {blockId}
          && c'.Keys <= c.Keys - {blockId}
          && BlocksKept(b, b')
          && ArraysKept(c, c', parentId)
          && (parentId != Constants.DEFAULT_PARENT && parentId in c' ==>
                c[parentId] != [] && c'[parentId] == RemoveAt(c[parentId], RemovalIndex(c[parentId], blockId)))
          && (parentId != blockId ==> forall x | x in ArrayOf(c, blockId) :: x !in b'.entries && x !in c'))
    && (fuel > 0 && parentId != blockId && ArrayOf(c, blockId) == []
        && (parentId == Constants.DEFAULT_PARENT || ArrayOf(c, parentId) != []) ==>
          && r == Returned(Ok(()))
          && b'.entries.Keys == b.entries.Keys - {blockId}
          && c'.Keys == c.Keys - {blockId}
          && (parentId != Constants.DEFAULT_PARENT ==>
                c'[parentId] == RemoveAt(c[parentId], RemovalIndex(c[parentId], blockId))))
  }

  /**
   * `delete_node` (lines 432-510): repairs the chain, takes the block out of its parent's
   * array (its first occurrence, or the head when it is not there; an empty array makes
   * yrs panic), deletes every child listed in its own array, recursively, and finally
   * removes the block from the blocks map and from the children map, failing when either
   * is already gone. `fuel` bounds the depth of the recursion.
   */
  method DeleteNode(b: BlocksMap, c: Children, blockId: string, parentId: string, fuel: nat)
    returns (b': BlocksMap, c': Children, r: Ending<()>)
    requires Valid(b)
    ensures Valid(b') && DeleteSpec(b, c, blockId, parentId, fuel, b', c', r)
    decreases fuel, 1
  {
    if fuel == 0 {
      return b, c, OutOfFuel;
    }
    var b1 := Unchain(b, blockId);
    var c1, kids, panicked := Detach(c, blockId, parentId);
    if panicked {
      DeleteFramed(b, b1, b1, b1, c, c1, c1, c1, kids, blockId, parentId, panicked, fuel);
      return b1, c1, Panicked;
    }
    b', c', r := DeleteBelow(b, c, b1, c1, kids, blockId, parentId, fuel);
  }

  /**
   * Lines 455-507, once the block is out of the chain (`b1`) and out of its parent's array
   * (`c1`): its children are deleted, then the block's own entries.
   */
  method DeleteBelow(ghost b: BlocksMap, ghost c: Children, b1: BlocksMap, c1: Children, kids: seq<string>,
                     blockId: string, parentId: string, fuel: nat)
    returns (b': BlocksMap, c': Children, r: Ending<()>)
    requires Valid(b1) && fuel > 0
    requires Unchained(b, b1, blockId) && Detached(c, c1, kids, blockId, parentId, false)
    ensures Valid(b') && DeleteSpec(b, c, blockId, parentId, fuel, b', c', r)
    decreases fuel, 0
  {
    var b3, c3, r3 := DeleteChildren(b1, c1, kids, blockId, fuel - 1);
    if r3 != Returned(Ok(())) {
      DeleteEnded(b, b1, b3, b3, c, c1, c3, c3, kids, blockId, parentId, fuel, r3, r3);
      return b3, c3, r3;
    }
    b', c', r := RemoveEntries(b3, c3, blockId);
    DeleteEnded(b, b1, b3, b', c, c1, c3, c', kids, blockId, parentId, fuel, r3, r);
  }

  /** What `delete_node` leaves, from its steps past the parent's array, whichever it ended at. */
  lemma DeleteEnded(b: BlocksMap, b1: BlocksMap, b3: BlocksMap, b': BlocksMap,
                    c: Children, c1: Children, c3: Children, c': Children, kids: seq<string>, blockId: string, parentId: string,
                    fuel: nat, r3: Ending<()>, r: Ending<()>)
    requires fuel > 0
    requires Unchained(b, b1, blockId) && Detached(c, c1, kids, blockId, parentId, false)
    requires ChildrenDeleted(b1, c1, kids, blockId, fuel - 1, b3, c3, r3)
    requires r3 == Returned(Ok(())) ==> EntriesRemoved(b3, c3, blockId, b', c', r)
    requires r3 != Returned(Ok(())) ==> b' == b3 && c' == c3 && r == r3
    ensures DeleteSpec(b, c, blockId, parentId, fuel, b', c', r)
  {
    if r == Returned(Ok(())) {
      DeleteKept(b, b1, b3, b', c, c1, c3, c', kids, blockId, parentId, fuel);
    }
    DeleteFramed(b, b1, b3, b', c, c1, c3, c', kids, blockId, parentId, false, fuel);
  }

  /** What a successful `delete_node` leaves, from its steps. */
  lemma DeleteKept(b: BlocksMap, b1: BlocksMap, b3: BlocksMap, b': BlocksMap,
                   c: Children, c1: Children, c3: Children, c': Children, kids: seq<string>, blockId: string, parentId: string,
                   fuel: nat)
    requires Unchained(b, b1, blockId)
    requires Detached(c, c1, kids, blockId, parentId, false)
    requires b3.entries.Keys <= b1.entries.Keys && c3.Keys <= c1.Keys
    requires BlocksKept(b1, b3) && ArraysKept(c1, c3, blockId)
    requires forall x | x in kids :: x !in b3.entries && x !in c3
    requires kids == [] ==> b3 == b1 && c3 == c1
    requires b'.entries == b3.entries - {blockId} && c' == c3 - {blockId}
    requires fuel > 0 && (parentId == Constants.DEFAULT_PARENT || ArrayOf(c, parentId) != [])
    ensures DeleteOutcome(b, c, blockId, parentId, fuel, b', c', Returned(Ok(())))
  {
  }

  /** The frame of a `delete_node`, from its steps, whichever of them it ended at. */
  lemma DeleteFramed(b: BlocksMap, b1: BlocksMap, b3: BlocksMap, b': BlocksMap,
                     c: Children, c1: Children, c3: Children, c': Children, kids: seq<string>, blockId: string, parentId: string,
                     panicked: bool, fuel: nat)
    requires fuel > 0
    requires Unchained(b, b1, blockId)
    requires Detached(c, c1, kids, blockId, parentId, panicked)
    requires panicked ==> b3 == b1 && c3 == c1
    requires !panicked ==> DeleteFrame(b1, c1, b3, c3, blockId, ReachAll(c1, kids, fuel - 1))
    requires (b' == b3 && c' == c3) || DeleteFrame(b3, c3, b', c', blockId, {blockId})
    ensures DeleteFrame(b, c, b', c', parentId, Reach(c, blockId, fuel))
  {
    var below := ReachAll(c1, kids, fuel - 1);
    if b' != b3 || c' != c3 {
      FrameWiden(b3, c3, b', c', blockId, {blockId}, parentId, {blockId});
    }
    assert DeleteFrame(b, c, b1, c1, parentId, {blockId});
    FrameWiden(b1, c1, b3, c3, blockId, below, parentId, {blockId} + below);
    FrameTrans(b, c, b1, c1, b3, c3, parentId, {blockId}, {blockId} + below);
    FrameTrans(b, c, b3, c3, b', c', parentId, {blockId} + ({blockId} + below), {blockId});
    KidsWithinReach(c, c1, blockId, kids, fuel);
    FrameWiden(b, c, b', c', parentId, {blockId} + ({blockId} + below) + {blockId}, parentId, Reach(c, blockId, fuel));
  }

  /**
   * Lines 484-507: the block leaves the blocks map and then the children map; a block
   * already gone from either is an error, and then the children map is as it was.
   */
  ghost predicate EntriesRemoved(b: BlocksMap, c: Children, blockId: string, b': BlocksMap, c': Children, r: Ending<()>)
  {
    && r.Returned?
    && (r == Returned(Ok(())) <==> blockId in b.entries && blockId in c)
    && (blockId !in b.entries ==> r.result == Err(BLOCK_NOT_REMOVED))
    && (blockId in b.entries && blockId !in c ==> r.result == Err(CHILD_LIST_NOT_REMOVED))
    && b'.entries == b.entries - {blockId}
    && c' == (if r == Returned(Ok(())) then c - {blockId} else c)
    && DeleteFrame(b, c, b', c', blockId, {blockId})
  }

  /** Lines 484-507, as `EntriesRemoved` says. */
  method RemoveEntries(b: BlocksMap, c: Children, blockId: string) returns (b': BlocksMap, c': Children, r: Ending<()>)
    requires Valid(b)
    ensures Valid(b') && EntriesRemoved(b, c, blockId, b', c', r)
  {
    b', c' := b, c;
    if blockId !in b'.entries {
      return b', c', Returned(Err(BLOCK_NOT_REMOVED));
    }
    b' := Remove(b', blockId);
    if blockId !in c' {
      return b', c', Returned(Err(CHILD_LIST_NOT_REMOVED));
    }
    c' := c' - {blockId};
    r := Returned(Ok(()));
  }

  /**
   * The chain repair as `delete_node` relies on it: the keys are kept and the block's own
   * added; the other blocks are as they were, but for the follower it rewrote; the block
   * is as it was when it was a map already, and an empty one otherwise.
   */
  ghost predicate Unchained(b: BlocksMap, b': BlocksMap, blockId: string)
  {
    && b'.entries.Keys == b.entries.Keys + {blockId}
    && (forall k | k in b'.entries && k != blockId ::
          k in b.entries && (b'.entries[k] == b.entries[k] || IsRewritten(b'.entries[k])))
    && ((blockId in b.entries && b'.entries[blockId] == b.entries[blockId]) || IsRewritten(b'.entries[blockId]))
  }

  /** Line 443: the chain repair, as `Unchained` says. */
  method Unchain(b: BlocksMap, blockId: string) returns (b': BlocksMap)
    requires Valid(b)
    ensures Valid(b') && Unchained(b, b', blockId)
  {
    b' := RemoveFromChain(b, blockId);
    assert b'.entries[blockId] == YMap(Fields(b, blockId));
  }

  /**
   * Lines 445-461: the block leaves its parent's array, and `kids` is its own array, which is
   * created when missing. An empty parent array panics, with that array created. Either
   * way no other array changes and no array gains an id.
   */
  ghost predicate Detached(c: Children, c1: Children, kids: seq<string>, blockId: string, parentId: string, panicked: bool)
  {
    && (panicked <==> parentId != Constants.DEFAULT_PARENT && ArrayOf(c, parentId) == [])
    && (!panicked ==> c1.Keys == c.Keys + {blockId})
    && (!panicked && parentId != blockId ==> kids == ArrayOf(c, blockId))
    && (!panicked && parentId != Constants.DEFAULT_PARENT && parentId != blockId ==>
          c[parentId] != [] && c1[parentId] == RemoveAt(c[parentId], RemovalIndex(c[parentId], blockId)))
    && (!panicked ==> forall k | k in c1 && k != parentId && k != blockId :: k in c && c1[k] == c[k])
    && c1.Keys <= c.Keys + {blockId, parentId}
    && (forall k | k in c && k != parentId && k != blockId :: k in c1 && c1[k] == c[k])
    && ArraysShrink(c, c1)
    && (forall x | x in kids :: x in ArrayOf(c, blockId))
  }

  /**
   * Lines 445-461: the removal from the parent's array (an empty array makes yrs panic)
   * and the snapshot of the block's own array, created when missing.
   */
  method Detach(c: Children, blockId: string, parentId: string)
    returns (c1: Children, kids: seq<string>, panicked: bool)
    ensures Detached(c, c1, kids, blockId, parentId, panicked)
  {
    c1 := c;
    if parentId != Constants.DEFAULT_PARENT {
      var siblings := ArrayOf(c, parentId);
      if siblings == [] {
        PutShrinks(c, parentId, []);
        return c[parentId := []], [], true;
      }
      RemovalTakesFirst(siblings, blockId);
      c1 := c[parentId := RemoveAt(siblings, RemovalIndex(siblings, blockId))];
      PutShrinks(c, parentId, c1[parentId]);
    }
    kids := ArrayOf(c1, blockId);
    InitShrinks(c, c1, blockId);
    c1 := InitArray(c1, blockId);
    panicked := false;
  }

  /** Putting under `k` an array that lists only ids `k`'s array listed shrinks the arrays. */
  lemma PutShrinks(c: Children, k: string, s: seq<string>)
    requires forall x | x in s :: x in ArrayOf(c, k)
    ensures ArraysShrink(c, c[k := s])
  {
  }

  /** `get_or_init_array` keeps the arrays shrunk, and what it reads lists only ids listed before. */
  lemma InitShrinks(c: Children, c0: Children, id: string)
    requires ArraysShrink(c, c0)
    ensures ArraysShrink(c, InitArray(c0, id))
    ensures forall x | x in ArrayOf(c0, id) :: x in ArrayOf(c, id)
  {
  }

  /**
   * What deleting the children listed in `kids` leaves: an error names a map a block was
   * missing from; on success every child is gone from both maps, every other block is as
   * it was or is a follower the repairs rewrote, and every array but this block's is as
   * it was; whatever the outcome, changes stay within the children's reach. No children,
   * nothing done.
   */
  ghost predicate ChildrenDeleted(b: BlocksMap, c: Children, kids: seq<string>, blockId: string, fuel: nat,
                                  b': BlocksMap, c': Children, r: Ending<()>)
  {
    && (r.Returned? && r.result.Err? ==> r.result.error in {BLOCK_NOT_REMOVED, CHILD_LIST_NOT_REMOVED})
    && (r == Returned(Ok(())) ==>
          && b'.entries.Keys <= b.entries.Keys && c'.Keys <= c.Keys
          && BlocksKept(b, b') && ArraysKept(c, c', blockId)
          && forall x | x in kids :: x !in b'.entries && x !in c')
    && DeleteFrame(b, c, b', c', blockId, ReachAll(c, kids, fuel))
    && (kids == [] ==> b' == b && c' == c && r == Returned(Ok(())))
  }

  /**
   * Lines 455-481: the children listed in `kids` are deleted in order, each with this
   * block as its parent; the first that does not end with `Ok` ends the loop with its
   * outcome.
   */
  method DeleteChildren(b: BlocksMap, c: Children, kids: seq<string>, blockId: string, fuel: nat)
    returns (b': BlocksMap, c': Children, r: Ending<()>)
    requires Valid(b)
    ensures Valid(b') && ChildrenDeleted(b, c, kids, blockId, fuel, b', c', r)
    decreases fuel, 2
  {
    b', c' := b, c;
    var i := 0;
    while i < |kids|
      invariant 0 <= i <= |kids|
      invariant Valid(b') && ChildrenSoFar(b, c, kids, i, blockId, fuel, b', c')
    {
      var step;
      ghost var b0, c0 := b', c';
      b', c', step := DeleteNode(b', c', kids[i], blockId, fuel);
      ChildStep(b, c, b0, c0, b', c', kids, i, blockId, fuel, step);
      if step != Returned(Ok(())) {
        return b', c', step;
      }
      i := i + 1;
    }
    r := Returned(Ok(()));
  }

  /** What the first `i` children's deletions have left when each ended with `Ok`. */
  ghost predicate ChildrenSoFar(b: BlocksMap, c: Children, kids: seq<string>, i: nat, blockId: string, fuel: nat,
                                b': BlocksMap, c': Children)
    requires i <= |kids|
  {
    && b'.entries.Keys <= b.entries.Keys && c'.Keys <= c.Keys
    && BlocksKept(b, b') && ArraysKept(c, c', blockId)
    && (forall j | 0 <= j < i :: kids[j] !in b'.entries && kids[j] !in c')
    && (i == 0 ==> b' == b && c' == c)
    && (i == |kids| ==> ChildrenDeleted(b, c, kids, blockId, fuel, b', c', Returned(Ok(()))))
    && DeleteFrame(b, c, b', c', blockId, ReachAll(c, kids, fuel))
  }

  /** One more child deleted: either all is still well, or the loop ends with that child's outcome. */
  lemma ChildStep(b: BlocksMap, c: Children, b0: BlocksMap, c0: Children, b': BlocksMap, c': Children,
                  kids: seq<string>, i: nat, blockId: string, fuel: nat, step: Ending<()>)
    requires i < |kids|
    requires ChildrenSoFar(b, c, kids, i, blockId, fuel, b0, c0)
    requires DeleteSpec(b0, c0, kids[i], blockId, fuel, b', c', step)
    ensures step == Returned(Ok(())) ==> ChildrenSoFar(b, c, kids, i + 1, blockId, fuel, b', c')
    ensures step != Returned(Ok(())) ==> ChildrenDeleted(b, c, kids, blockId, fuel, b', c', step)
  {
    ChildFramed(b, c, b0, c0, b', c', kids, i, blockId, fuel);
    if step == Returned(Ok(())) {
      KeptTwice(b, b0, b', c, c0, c', blockId);
    }
  }

  /** One child's deletion, from arrays shrunk by the earlier ones, stays within the reach of the list. */
  lemma ChildFramed(b: BlocksMap, c: Children, b0: BlocksMap, c0: Children, b': BlocksMap, c': Children,
                    kids: seq<string>, i: nat, blockId: string, fuel: nat)
    requires i < |kids|
    requires DeleteFrame(b, c, b0, c0, blockId, ReachAll(c, kids, fuel))
    requires DeleteFrame(b0, c0, b', c', blockId, Reach(c0, kids[i], fuel))
    ensures DeleteFrame(b, c, b', c', blockId, ReachAll(c, kids, fuel))
  {
    var all := ReachAll(c, kids, fuel);
    ReachShrinks(c, c0, kids[i], fuel);
    ReachAllHas(c, kids, fuel, kids[i]);
    FrameTrans(b, c, b0, c0, b', c', blockId, all, Reach(c0, kids[i], fuel));
    FrameWiden(b, c, b', c', blockId, all + Reach(c0, kids[i], fuel), blockId, all);
  }

  lemma KeptTwice(b: BlocksMap, b1: BlocksMap, b2: BlocksMap, c: Children, c1: Children, c2: Children, p: string)
    requires BlocksKept(b, b1) && BlocksKept(b1, b2)
    requires ArraysKept(c, c1, p) && ArraysKept(c1, c2, p)
    ensures BlocksKept(b, b2) && ArraysKept(c, c2, p)
  {
  }

  /** A write that touches only block `x` keeps what the repair did. */
  lemma RelinkedKept(b: BlocksMap, b1: BlocksMap, b': BlocksMap, p: string, x: string, v: Option<string>)
    requires Valid(b) && Relinked(b, b1, p, x, v)
    requires forall k | k in b1.entries && k != x :: k in b'.entries && b'.entries[k] == b1.entries[k]
    ensures Relinked(b, b', p, x, v)
  {
  }

  /** Lines 529-538: the chain is repaired, then the block's `prevId` is set or removed. */
  method RelinkMoved(b: BlocksMap, nodeId: string, prevId: Option<string>) returns (b': BlocksMap)
    requires Valid(b)
    ensures Valid(b') && b'.entries.Keys == b.entries.Keys + {nodeId}
    ensures Field(b', nodeId, Constants.PREV_ID) == (if prevId.Some? then Some(Str(prevId.value)) else None)
    ensures SameFieldsBut(b, b', nodeId, {Constants.PREV_ID})
    ensures b'.entries[nodeId].YMap?
    ensures Relinked(b, b', nodeId, nodeId, PrevIdOf(b, nodeId))
  {
    var b1 := RemoveFromChain(b, nodeId);
    b' := SetPrev(b1, nodeId, prevId);
    RelinkedKept(b, b1, b', nodeId, nodeId, PrevIdOf(b, nodeId));
  }

  /** Lines 533-538: the block's `prevId` is set, or removed when there is none. */
  method SetPrev(b: BlocksMap, nodeId: string, prevId: Option<string>) returns (b': BlocksMap)
    requires Valid(b) && nodeId in b.entries
    ensures Valid(b') && b'.entries.Keys == b.entries.Keys
    ensures Field(b', nodeId, Constants.PREV_ID) == (if prevId.Some? then Some(Str(prevId.value)) else None)
    ensures forall f | f != Constants.PREV_ID :: Field(b', nodeId, f) == Field(b, nodeId, f)
    ensures b'.entries[nodeId].YMap?
    ensures forall k | k in b.entries && k != nodeId :: k in b'.entries && b'.entries[k] == b.entries[k]
  {
    if prevId.Some? {
      b' := SetField(b, nodeId, Constants.PREV_ID, Str(prevId.value));
      BlockOps.SetFieldFields(b, nodeId, Constants.PREV_ID, Str(prevId.value), b');
    } else {
      b' := RemoveField(b, nodeId, Constants.PREV_ID);
      BlockOps.RemoveFieldFields(b, nodeId, Constants.PREV_ID, b');
    }
  }

  /**
   * Lines 546-578: the children arrays after a move. An empty old or new path is an
   * error; within one parent the element at the old index moves to the new index; across
   * parents the element at the old index leaves the old parent's array and the block's id
   * goes in at the new index of the new parent's array. An index out of range panics.
   */
  method MoveChild(c: Children, oldPath: seq<U32>, newPath: seq<U32>, parentId: string, oldParentId: string, nodeId: string)
    returns (c': Children, r: Ending<()>)
    ensures oldPath == [] ==> r == Returned(Err("Empty old path for move operation")) && c' == c
    ensures oldPath != [] && newPath == [] ==> r == Returned(Err("Empty new path for move operation")) && c' == c
    ensures oldPath != [] && newPath != [] && parentId == oldParentId ==>
      var s := ArrayOf(c, parentId); var src := LastOrZero(oldPath); var tgt := LastOrZero(newPath);
      if MoveInRange(|s|, src, tgt) then r == Returned(Ok(())) && c' == c[parentId := MoveTo(s, src, tgt)]
      else r == Panicked
    ensures oldPath != [] && newPath != [] && parentId != oldParentId ==>
      var olds := ArrayOf(c, oldParentId); var news := ArrayOf(c, parentId);
      var src := LastOrZero(oldPath); var tgt := LastOrZero(newPath);
      if src < |olds| && tgt <= |news| then
        && r == Returned(Ok(()))
        && c' == c[oldParentId := RemoveAt(olds, src)][parentId := InsertAt(news, tgt, nodeId)]
      else r == Panicked
  {
    c' := c;
    if oldPath == [] {
      return c', Returned(Err("Empty old path for move operation"));
    }
    if newPath == [] {
      return c', Returned(Err("Empty new path for move operation"));
    }
    var oldIndex := LastOrZero(oldPath);
    var newIndex := LastOrZero(newPath);
    if parentId == oldParentId {
      var siblings := ArrayOf(c, parentId);
      if !MoveInRange(|siblings|, oldIndex, newIndex) {
        return c[parentId := siblings], Panicked;
      }
      return c[parentId := MoveTo(siblings, oldIndex, newIndex)], Returned(Ok(()));
    }
    var olds := ArrayOf(c, oldParentId);
    if oldIndex >= |olds| {
      return c[oldParentId := olds], Panicked;
    }
    var c1 := c[oldParentId := RemoveAt(olds, oldIndex)];
    var news := ArrayOf(c1, parentId);
    if newIndex > |news| {
      return c1[parentId := news], Panicked;
    }
    c' := c1[parentId := InsertAt(news, newIndex, nodeId)];
    r := Returned(Ok(()));
  }

  /**
   * What `move_block` (lines 512-579) leaves: the chain repaired and the block's `prevId`
   * set or removed, the block a shared map from then on, which stays done even when a path then turns out to be empty, and the
   * block moved in the children arrays as `MoveChild` says.
   */
  ghost predicate MoveSpec(b: BlocksMap, c: Children, oldPath: seq<U32>, newPath: seq<U32>,
                           parentId: string, oldParentId: string, nodeId: string, prevId: Option<string>,
                           b': BlocksMap, c': Children, r: Ending<()>)
    requires Valid(b)
  {
    && b'.entries.Keys == b.entries.Keys + {nodeId}
    && Field(b', nodeId, Constants.PREV_ID) == (if prevId.Some? then Some(Str(prevId.value)) else None)
    && SameFieldsBut(b, b', nodeId, {Constants.PREV_ID})
    && b'.entries[nodeId].YMap?
    && Relinked(b, b', nodeId, nodeId, PrevIdOf(b, nodeId))
    && (oldPath == [] ==> r == Returned(Err("Empty old path for move operation")) && c' == c)
    && (oldPath != [] && newPath == [] ==> r == Returned(Err("Empty new path for move operation")) && c' == c)
    && (oldPath != [] && newPath != [] && parentId == oldParentId ==>
          var s := ArrayOf(c, parentId); var src := LastOrZero(oldPath); var tgt := LastOrZero(newPath);
          if MoveInRange(|s|, src, tgt) then r == Returned(Ok(())) && c' == c[parentId := MoveTo(s, src, tgt)]
          else r == Panicked)
    && (oldPath != [] && newPath != [] && parentId != oldParentId ==>
          var olds := ArrayOf(c, oldParentId); var news := ArrayOf(c, parentId);
          var src := LastOrZero(oldPath); var tgt := LastOrZero(newPath);
          if src < |olds| && tgt <= |news| then
            && r == Returned(Ok(()))
            && c' == c[oldParentId := RemoveAt(olds, src)][parentId := InsertAt(news, tgt, nodeId)]
          else r == Panicked)
  }

  /** `move_block` (lines 512-579). */
  method MoveBlock(b: BlocksMap, c: Children, oldPath: seq<U32>, newPath: seq<U32>,
                   parentId: string, oldParentId: string, nodeId: string, prevId: Option<string>)
    returns (b': BlocksMap, c': Children, r: Ending<()>)
    requires Valid(b)
    ensures Valid(b') && MoveSpec(b, c, oldPath, newPath, parentId, oldParentId, nodeId, prevId, b', c', r)
  {
    b' := RelinkMoved(b, nodeId, prevId);
    c', r := MoveChild(c, oldPath, newPath, parentId, oldParentId, nodeId);
  }

  // ---------------------------------------------------------------------------------------
  // The service

  /** The two entries of the root map this variant uses; `None` where there is no map. */
  datatype ImplRoot = ImplRoot(blocks: Option<BlocksMap>, children: Option<Children>)

  ghost predicate ValidImplRoot(root: ImplRoot)
  {
    root.blocks.Some? ==> Valid(root.blocks.value)
  }

  function BlocksOf(root: ImplRoot): (r: BlocksMap)
    requires ValidImplRoot(root)
    ensures Valid(r)
  {
    if root.blocks.Some? then root.blocks.value else Empty()
  }

  function ChildrenOf(root: ImplRoot): Children
  {
    root.children.UnwrapOr(map[])
  }

  /**
   * What one complete action does to the blocks map and the children map, by kind: the
   * contract of `InsertNode`, `UpdateNode`, `DeleteNode` or `MoveBlock`, with `step` the
   * outcome the loop sees (an insert or an update always goes through).
   */
  ghost predicate StepSpec(b: BlocksMap, c: Children, a: BlockAction, diff: (Json, string) -> Option<Json>, fuel: nat,
                           b': BlocksMap, c': Children, step: Ending<()>)
  {
    && Valid(b)
    && !Service.IncompleteMove(a)
    && match a.action
       case Insert => step == Returned(Ok(())) && InsertSpec(b, c, a, diff, b', c')
       case Update => step == Returned(Ok(())) && c' == c && UpdateSpec(b, a.block, diff, b')
       case Delete =>
         DeleteSpec(b, c, a.block.id, a.block.parentId.UnwrapOr(Constants.DEFAULT_PARENT), fuel, b', c', step)
       case Move =>
         MoveSpec(b, c, a.oldPath.value, a.path, a.block.parentId.value, a.block.oldParentId.value,
                  a.block.id, a.block.prevId, b', c', step)
  }

  /**
   * One action of the loop in `apply_action_inner` (lines 157-246): an insert or an
   * update always goes through, whatever its own result; a move or a delete can make yrs
   * panic, or run out of fuel. The errors a move or a delete returns are dropped.
   */
  method ApplyOne(b: BlocksMap, c: Children, a: BlockAction, diff: (Json, string) -> Option<Json>, fuel: nat)
    returns (b': BlocksMap, c': Children, step: Ending<()>)
    requires Valid(b) && !Service.IncompleteMove(a)
    ensures Valid(b') && StepSpec(b, c, a, diff, fuel, b', c', step)
    ensures !step.Returned? ==> MayPanic(a)
  {
    b', c', step := b, c, Returned(Ok(()));
    match a.action {
      case Move =>
        b', c', step := MoveBlock(b, c, a.oldPath.value, a.path, a.block.parentId.value,
                                  a.block.oldParentId.value, a.block.id, a.block.prevId);
      case Insert =>
        var dropped;
        b', c', dropped := InsertNode(b, c, a, diff);
      case Update =>
        b' := UpdateNode(b, a.block, diff);
      case Delete =>
        b', c', step := DeleteNode(b, c, a.block.id, a.block.parentId.UnwrapOr(Constants.DEFAULT_PARENT), fuel);
    }
  }

  /**
   * `trace` holds the maps the loop went through and `steps` the outcomes it saw: each of
   * the first `n` actions took `trace[j]` to `trace[j + 1]` as `StepSpec` says, and came
   * back (possibly with an error that the loop drops).
   */
  ghost predicate ImplRan(trace: seq<(BlocksMap, Children)>, steps: seq<Ending<()>>, actions: seq<BlockAction>,
                          diff: (Json, string) -> Option<Json>, fuel: nat, n: nat)
  {
    && n < |trace| && n <= |actions| && n <= |steps|
    && forall j | 0 <= j < n ::
         steps[j].Returned? && StepSpec(trace[j].0, trace[j].1, actions[j], diff, fuel, trace[j + 1].0, trace[j + 1].1, steps[j])
  }

  /** The actions a trace ran were complete. */
  lemma ImplRanComplete(trace: seq<(BlocksMap, Children)>, steps: seq<Ending<()>>, actions: seq<BlockAction>,
                        diff: (Json, string) -> Option<Json>, fuel: nat, n: nat)
    requires ImplRan(trace, steps, actions, diff, fuel, n)
    ensures forall j | 0 <= j < n :: !Service.IncompleteMove(actions[j])
  {
    forall j | 0 <= j < n
      ensures !Service.IncompleteMove(actions[j])
    {
      assert StepSpec(trace[j].0, trace[j].1, actions[j], diff, fuel, trace[j + 1].0, trace[j + 1].1, steps[j]);
    }
  }

  /** A trace that ran `n` actions still does when a state and an outcome are added at its end. */
  lemma ImplRanExtends(trace: seq<(BlocksMap, Children)>, steps: seq<Ending<()>>, actions: seq<BlockAction>,
                       diff: (Json, string) -> Option<Json>, fuel: nat, n: nat, s: (BlocksMap, Children), step: Ending<()>)
    requires ImplRan(trace, steps, actions, diff, fuel, n)
    ensures ImplRan(trace + [s], steps + [step], actions, diff, fuel, n)
  {
    forall j | 0 <= j < n
      ensures (steps + [step])[j].Returned?
      ensures StepSpec((trace + [s])[j].0, (trace + [s])[j].1, actions[j], diff, fuel,
                       (trace + [s])[j + 1].0, (trace + [s])[j + 1].1, (steps + [step])[j])
    {
      assert (trace + [s])[j] == trace[j] && (trace + [s])[j + 1] == trace[j + 1];
      assert (steps + [step])[j] == steps[j];
    }
  }

  /** One more action that came back makes the trace one step longer. */
  lemma ImplRanStep(trace: seq<(BlocksMap, Children)>, steps: seq<Ending<()>>, actions: seq<BlockAction>,
                    diff: (Json, string) -> Option<Json>, fuel: nat, n: nat, s: (BlocksMap, Children), step: Ending<()>)
    requires ImplRan(trace, steps, actions, diff, fuel, n) && |trace| == n + 1 && |steps| == n && n < |actions|
    requires step.Returned? && StepSpec(trace[n].0, trace[n].1, actions[n], diff, fuel, s.0, s.1, step)
    ensures ImplRan(trace + [s], steps + [step], actions, diff, fuel, n + 1)
  {
    ImplRanExtends(trace, steps, actions, diff, fuel, n, s, step);
    assert (trace + [s])[n] == trace[n] && (trace + [s])[n + 1] == s && (steps + [step])[n] == step;
  }

  /**
   * The loop of `apply_action_inner` (lines 142-248) from the maps `b0` and `c0`: the
   * actions run in list order until a move lacks a required field, or one makes yrs panic
   * or runs out of fuel. `ran` counts the actions that completed; `trace` ends with the
   * maps `b` and `c`, one state after the action that ended the loop when that action ran.
   */
  method RunImplActions(b0: BlocksMap, c0: Children, actions: seq<BlockAction>, diff: (Json, string) -> Option<Json>,
                        fuel: nat)
    returns (b: BlocksMap, c: Children, reply: Ending<()>, ghost ran: nat,
             ghost trace: seq<(BlocksMap, Children)>, ghost steps: seq<Ending<()>>)
    requires Valid(b0)
    ensures Valid(b) && ran <= |actions|
    ensures ran == |actions| <==> reply == Returned(Ok(()))
    ensures ImplRan(trace, steps, actions, diff, fuel, ran)
    ensures trace[0] == (b0, c0) && (b, c) == trace[|trace| - 1]
    ensures ran == |actions| ==> |trace| == ran + 1
    ensures ran < |actions| && Service.IncompleteMove(actions[ran]) ==>
      |trace| == ran + 1 && reply == Returned(Err("Invalid Move action: missing required fields"))
    ensures ran < |actions| && !Service.IncompleteMove(actions[ran]) ==>
      && |trace| == ran + 2 && !reply.Returned? && MayPanic(actions[ran])
      && StepSpec(trace[ran].0, trace[ran].1, actions[ran], diff, fuel, trace[ran + 1].0, trace[ran + 1].1, reply)
    ensures reply.Returned? && reply.result.Err? ==>
      ran < |actions| && Service.IncompleteMove(actions[ran]) && reply.result.error == "Invalid Move action: missing required fields"
  {
    b, c, reply, trace, steps := b0, c0, Returned(Ok(())), [(b0, c0)], [];
    var i := 0;
    while i < |actions|
      invariant i <= |actions| && Valid(b)
      invariant |trace| == i + 1 && |steps| == i && trace[0] == (b0, c0) && trace[i] == (b, c)
      invariant ImplRan(trace, steps, actions, diff, fuel, i)
      invariant reply == Returned(Ok(()))
    {
      if Service.IncompleteMove(actions[i]) {
        return b, c, Returned(Err("Invalid Move action: missing required fields")), i, trace, steps;
      }
      var b', c', step := ApplyOne(b, c, actions[i], diff, fuel);
      if !step.Returned? {
        ImplRanExtends(trace, steps, actions, diff, fuel, i, (b', c'), step);
        trace, steps := trace + [(b', c')], steps + [step];
        assert trace[i] == (b, c) && trace[i + 1] == (b', c');
        return b', c', step, i, trace, steps;
      }
      ImplRanStep(trace, steps, actions, diff, fuel, i, (b', c'), step);
      b, c, trace, steps, i := b', c', trace + [(b', c')], steps + [step], i + 1;
    }
    ran := i;
  }

  /** The kinds of action that can end a batch early without an error: they can make yrs panic. */
  predicate MayPanic(a: BlockAction)
  {
    a.action == Move || a.action == Delete
  }

  class DocumentServiceImpl {
    var root: ImplRoot
    const docId: string

    ghost predicate Valid()
      reads this
    {
      ValidImplRoot(root)
    }

    /** `new` (lines 78-82). */
    constructor (docId: string)
      ensures Valid()
      ensures root == ImplRoot(None, None) && this.docId == docId
    {
      root := ImplRoot(None, None);
      this.docId := docId;
    }

    /**
     * `init_empty_doc_inner` (lines 93-129): creates the blocks map and the children map
     * when missing and hands back the whole state, encoded by `encodeState`.
     */
    method InitEmptyDocInner(encodeState: ImplRoot -> Bytes) returns (r: Result<Bytes, string>)
      requires Valid()
      modifies this
      ensures Valid()
      ensures root.blocks.Some? && root.children.Some?
      ensures old(root.blocks).Some? ==> root.blocks == old(root.blocks)
      ensures old(root.blocks).None? ==> root.blocks.value.entries == map[]
      ensures root.children == Some(old(ChildrenOf(root)))
      ensures r == Ok(encodeState(root))
    {
      root := ImplRoot(Some(BlocksOf(root)), Some(ChildrenOf(root)));
      r := Ok(encodeState(root));
    }

    /**
     * `apply_action_inner` (lines 131-257): before each action the children and blocks
     * maps are created if missing, which once done leaves them as they are, so the loop
     * runs on the maps as first created. A move lacking its old path, parent or old parent
     * ends the batch with an error; every other action runs with its result dropped, so no
     * other action fails the batch, though a move or a delete can make yrs panic. When all
     * actions ran, the changes are encoded by `encodeDiff`. `ran` counts the actions that
     * completed and `trace` the maps they went through, as `RunImplActions` states.
     */
    method ApplyActionInner(actions: seq<BlockAction>, diff: (Json, string) -> Option<Json>,
                            encodeDiff: (ImplRoot, ImplRoot) -> Bytes, fuel: nat)
      returns (reply: Ending<Bytes>, ghost ran: nat, ghost trace: seq<(BlocksMap, Children)>, ghost steps: seq<Ending<()>>)
      requires Valid()
      modifies this
      ensures Valid()
      ensures ran <= |actions|
      ensures ImplRan(trace, steps, actions, diff, fuel, ran)
      ensures trace[0] == (BlocksOf(old(root)), ChildrenOf(old(root)))
      ensures forall j | 0 <= j < ran :: !Service.IncompleteMove(actions[j])
      ensures ran == |actions| <==> reply.Returned? && reply.result.Ok?
      ensures ran == |actions| ==> reply == Returned(Ok(encodeDiff(old(root), root)))
      ensures reply.Returned? && reply.result.Err? ==>
        Service.IncompleteMove(actions[ran]) && reply.result.error == "Invalid Move action: missing required fields"
      ensures ran < |actions| && Service.IncompleteMove(actions[ran]) ==>
        reply == Returned(Err("Invalid Move action: missing required fields"))
      ensures ran < |actions| && !Service.IncompleteMove(actions[ran]) ==>
        && |trace| == ran + 2 && !reply.Returned? && MayPanic(actions[ran])
        && StepSpec(trace[ran].0, trace[ran].1, actions[ran], diff, fuel, trace[ran + 1].0, trace[ran + 1].1,
                    if reply.Panicked? then Panicked else OutOfFuel)
      ensures actions == [] ==> root == old(root)
      ensures actions != [] ==> root == ImplRoot(Some(trace[|trace| - 1].0), Some(trace[|trace| - 1].1))
    {
      var before := root;
      if actions == [] {
        return Returned(Ok(encodeDiff(before, root))), 0, [(BlocksOf(root), ChildrenOf(root))], [];
      }
      var b, c, r;
      b, c, r, ran, trace, steps := RunImplActions(BlocksOf(root), ChildrenOf(root), actions, diff, fuel);
      ImplRanComplete(trace, steps, actions, diff, fuel, ran);
      root := ImplRoot(Some(b), Some(c));
      match r
      case Panicked => reply := Panicked;
      case OutOfFuel => reply := OutOfFuel;
      case Returned(Err(e)) => reply := Returned(Err(e));
      case Returned(Ok(_)) => reply := Returned(Ok(encodeDiff(before, root)));
    }
  }
}
