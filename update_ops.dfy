/**
 * Reading the document back out of the CRDT (rust/src/doc/operations/update_ops.rs):
 * the blocks and the parent-to-children lists become a `DocumentState`, each block
 * becoming a `BlockDoc` with defaults for what it lacks, and each child list put into
 * chain order by the sorter. Also the error mapping of merging and applying remote updates,
 * whose CRDT work is passed in.
 */
module UpdateOps {
  import opened Wrappers
  import opened Numbers
  import opened Errors
  import opened Json
  import opened Yrs
  import opened Sorting
  import opened Store
  import opened DocumentTypes
  import opened RootMap
  import Constants
  import Conversion
  import Utf16

  /** A decoded update; what it holds is the CRDT's business. */
  datatype DecodedUpdate = DecodedUpdate(payload: Bytes)

  // ---------------------------------------------------------------------------------------
  // One block

  /**
   * `Out::to_string`: a string value reads as the string itself and shared text as its
   * content; how any other value prints (yrs' `Display`) is the parameter `render`.
   */
  function Display(o: Out, render: Out -> string): string
  {
    if o.Value? && o.any.String? then o.any.s
    else if o.YText? then Utf16.Decode(o.text.units)
    else render(o)
  }

  /** An optional field as `get(..).map(|out| out.to_string(txn))` reads it. */
  function DisplayField(fields: map<string, Out>, f: string, render: Out -> string): Option<string>
  {
    if f in fields then Some(Display(fields[f], render)) else None
  }

  /** Every attribute printed as a string. */
  function AttributeStrings(attrs: map<string, Out>, render: Out -> string): map<string, string>
  {
    map k | k in attrs :: Display(attrs[k], render)
  }

  /**
   * The serialised delta of a block's text, if it has one. Serialising the JSON (the
   * parameter `serialize`) is the one step that can fail, with `StateEncodingFailed`.
   */
  function DeltaString(fields: map<string, Out>, serialize: Json -> Option<string>): Outcome<Option<string>>
  {
    if Constants.TEXT in fields && fields[Constants.TEXT].YText? then
      match serialize(Conversion.DeltasToJson(TextDelta(fields[Constants.TEXT].text)))
      case None => Err(StateEncodingFailed("Failed to serialize deltas"))
      case Some(s) => Ok(Some(s))
    else Ok(None)
  }

  /** `extract_block` (lines 123-189) on a block stored under `key` as a map of `fields`. */
  function BlockOf(key: string, fields: map<string, Out>, render: Out -> string, serialize: Json -> Option<string>): Outcome<BlockDoc>
  {
    match DeltaString(fields, serialize)
    case Err(e) => Err(e)
    case Ok(delta) =>
      Ok(BlockDoc(
        if Constants.ID in fields then Display(fields[Constants.ID], render) else key,
        DisplayField(fields, Constants.TYPE, render).UnwrapOr(""),
        AttributeStrings(AttrsOf(fields), render),
        delta,
        DisplayField(fields, Constants.PARENT_ID, render),
        DisplayField(fields, Constants.PREV_ID, render),
        DisplayField(fields, Constants.NEXT_ID, render),
        None))
  }

  predicate IsMapEntry(b: BlocksMap, key: string)
  {
    key in b.entries && b.entries[key].YMap?
  }

  /** `extract_block` on the blocks map: an entry that is not a map yields no block. */
  function Extracted(b: BlocksMap, key: string, render: Out -> string, serialize: Json -> Option<string>): Outcome<Option<BlockDoc>>
  {
    if !IsMapEntry(b, key) then Ok(None)
    else
      match BlockOf(key, b.entries[key].entries, render, serialize)
      case Err(e) => Err(e)
      case Ok(block) => Ok(Some(block))
  }

  /**
   * What `extract_block` assumes in place of a missing field: the key for the id, ""
   * for the type, no attributes, and no delta, parent, previous or next block. Only the
   * serialisation of an existing text can make it fail.
   */
  lemma BlockDefaults(key: string, fields: map<string, Out>, render: Out -> string, serialize: Json -> Option<string>)
    ensures BlockOf(key, fields, render, serialize).Err? <==> DeltaString(fields, serialize).Err?
    ensures BlockOf(key, fields, render, serialize).Ok? ==>
      var blk := BlockOf(key, fields, render, serialize).value;
      && (Constants.ID !in fields ==> blk.id == key)
      && (Constants.TYPE !in fields ==> blk.ty == "")
      && (Constants.ATTRIBUTES !in fields ==> blk.attributes == map[])
      && (Constants.TEXT !in fields ==> blk.delta.None?)
      && (Constants.PARENT_ID !in fields ==> blk.parentId.None?)
      && (Constants.PREV_ID !in fields ==> blk.prevId.None?)
      && blk.oldParentId.None?
  {
  }

  /**
   * A block whose id, type, parent and attributes were stored as strings, as inserting a
   * block does, reads back as those same values.
   */
  lemma StoredBlockReadsBack(key: string, fields: map<string, Out>, block: BlockDoc,
                             render: Out -> string, serialize: Json -> Option<string>)
    requires Constants.ID in fields && fields[Constants.ID] == Str(block.id)
    requires Constants.TYPE in fields && fields[Constants.TYPE] == Str(block.ty)
    requires Constants.ATTRIBUTES in fields && fields[Constants.ATTRIBUTES] == YMap(map k | k in block.attributes :: Str(block.attributes[k]))
    requires block.parentId.Some? ==> Constants.PARENT_ID in fields && fields[Constants.PARENT_ID] == Str(block.parentId.value)
    requires DeltaString(fields, serialize).Ok?
    ensures BlockOf(key, fields, render, serialize).Ok?
    ensures var blk := BlockOf(key, fields, render, serialize).value;
      && blk.id == block.id && blk.ty == block.ty && blk.attributes == block.attributes
      && (block.parentId.Some? ==> blk.parentId == block.parentId)
  {
    var blk := BlockOf(key, fields, render, serialize).value;
    assert AttrsOf(fields) == map k | k in block.attributes :: Str(block.attributes[k]);
    assert blk.attributes.Keys == block.attributes.Keys;
    forall k | k in block.attributes
      ensures blk.attributes[k] == block.attributes[k]
    {
      assert AttrsOf(fields)[k] == Str(block.attributes[k]);
    }
  }

  /**
   * `extract_block` (lines 123-189): reads one entry of the blocks map, printing its
   * attributes one by one.
   */
  method ExtractBlock(b: BlocksMap, key: string, render: Out -> string, serialize: Json -> Option<string>)
    returns (r: Outcome<Option<BlockDoc>>)
    ensures r == Extracted(b, key, render, serialize)
  {
    if !IsMapEntry(b, key) {
      return Ok(None);
    }
    var fields := b.entries[key].entries;
    var delta := DeltaString(fields, serialize);
    if delta.Err? {
      return Err(delta.error);
    }
    var attrs := AttrsOf(fields);
    var printed: map<string, string> := map[];
    var rest := attrs.Keys;
    while rest != {}
      invariant rest <= attrs.Keys
      invariant printed == map k | k in attrs.Keys - rest :: Display(attrs[k], render)
      decreases rest
    {
      var k :| k in rest;
      printed := printed[k := Display(attrs[k], render)];
      rest := rest - {k};
    }
    assert attrs.Keys - rest == attrs.Keys;
    var block := BlockDoc(
      if Constants.ID in fields then Display(fields[Constants.ID], render) else key,
      DisplayField(fields, Constants.TYPE, render).UnwrapOr(""),
      printed,
      delta.value,
      DisplayField(fields, Constants.PARENT_ID, render),
      DisplayField(fields, Constants.PREV_ID, render),
      DisplayField(fields, Constants.NEXT_ID, render),
      None);
    r := Ok(Some(block));
  }

  // ---------------------------------------------------------------------------------------
  // All blocks

  /**
   * Lines 63-72: the blocks under the keys `keys`, in that order, added to `acc`; the
   * first block that cannot be read ends the loop with its error.
   */
  function BlocksFrom(b: BlocksMap, keys: seq<string>, acc: map<string, BlockDoc>,
                      render: Out -> string, serialize: Json -> Option<string>): Outcome<map<string, BlockDoc>>
    decreases |keys|
  {
    if keys == [] then Ok(acc)
    else
      match Extracted(b, keys[0], render, serialize)
      case Err(e) => Err(e)
      case Ok(None) => BlocksFrom(b, keys[1..], acc, render, serialize)
      case Ok(Some(block)) => BlocksFrom(b, keys[1..], acc[keys[0] := block], render, serialize)
  }

  /**
   * The blocks read are exactly those stored as maps, each as `extract_block` reads it;
   * reading fails exactly when some block cannot be read, and then with that block's error.
   */
  lemma {:induction false} BlocksFromResult(b: BlocksMap, keys: seq<string>, acc: map<string, BlockDoc>,
                                            render: Out -> string, serialize: Json -> Option<string>)
    ensures var r := BlocksFrom(b, keys, acc, render, serialize);
      && (r.Ok? <==> forall k | k in keys :: Extracted(b, k, render, serialize).Ok?)
      && (r.Err? ==> exists k | k in keys :: Extracted(b, k, render, serialize) == Err(r.error))
      && (r.Ok? ==> r.value.Keys == acc.Keys + set k | k in keys && IsMapEntry(b, k))
      && (r.Ok? ==> forall k | k in r.value ::
            r.value[k] == if k in keys && IsMapEntry(b, k) then Extracted(b, k, render, serialize).value.value else acc[k])
    decreases |keys|
  {
    if keys != [] {
      var k0 := keys[0];
      var e := Extracted(b, k0, render, serialize);
      assert forall k :: k in keys <==> k == k0 || k in keys[1..];
      if e.Ok? {
        var acc' := if e.value.Some? then acc[k0 := e.value.value] else acc;
        BlocksFromResult(b, keys[1..], acc', render, serialize);
      }
    }
  }

  // ---------------------------------------------------------------------------------------
  // Children lists

  /** Lines 85-94: the string entries of a children array, empty strings dropped. */
  function ChildIds(items: seq<Out>): (r: seq<string>)
    ensures forall x :: x in r <==> x != "" && Str(x) in items
    decreases |items|
  {
    if items == [] then []
    else
      var rest := ChildIds(items[1..]);
      assert forall o :: o in items <==> o == items[0] || o in items[1..];
      if IsStringValue(items[0]) && items[0].any.s != "" then [items[0].any.s] + rest else rest
  }

  /** Lines 80-98: one list per entry of the children map that is an array. */
  function ChildLists(children: map<string, Out>): map<string, seq<string>>
  {
    map p | p in children && children[p].YArray? :: ChildIds(children[p].items)
  }

  /** The children map handed back: every list as the sorter orders it. */
  function SortedChildren(lists: map<string, seq<string>>, blocks: map<string, BlockDoc>): map<string, seq<string>>
  {
    map p | p in lists :: SortGroup(lists[p], blocks)
  }

  lemma SortedChildrenByGroup(lists: map<string, seq<string>>, blocks: map<string, BlockDoc>, sorted: map<string, seq<string>>)
    requires sorted.Keys == lists.Keys
    requires forall p | p in sorted :: sorted[p] == SortGroup(lists[p], blocks)
    ensures sorted == SortedChildren(lists, blocks)
  {
    MapsEqual(sorted, SortedChildren(lists, blocks));
  }

  // ---------------------------------------------------------------------------------------
  // The document state

  /**
   * `extract_document_state` (lines 50-120): a `StateError` when the blocks map, the
   * children map or a string root id is missing, in that order of checking; otherwise the
   * blocks, the sorted child lists and the root id.
   */
  function StateOf(root: Root, docId: string, render: Out -> string, serialize: Json -> Option<string>): Outcome<DocumentState>
  {
    if root.blocks.None? then Err(StateError("Blocks map not found in document"))
    else
      var b := root.blocks.value;
      match BlocksFrom(b, b.order, map[], render, serialize)
      case Err(e) => Err(e)
      case Ok(blocks) =>
        if root.children.None? then Err(StateError("Children map not found in document"))
        else if !(root.rootId.Some? && IsStringValue(root.rootId.value)) then Err(StateError("Root ID not found in document"))
        else Ok(DocumentState(docId, blocks, SortedChildren(ChildLists(root.children.value), blocks), root.rootId.value.any.s))
  }

  /** Lines 63-72: every entry of the blocks map, in the map's order. */
  method ExtractBlocks(b: BlocksMap, render: Out -> string, serialize: Json -> Option<string>)
    returns (r: Outcome<map<string, BlockDoc>>)
    ensures r == BlocksFrom(b, b.order, map[], render, serialize)
  {
    var blocks: map<string, BlockDoc> := map[];
    for i := 0 to |b.order|
      invariant BlocksFrom(b, b.order[i..], blocks, render, serialize) == BlocksFrom(b, b.order, map[], render, serialize)
    {
      assert b.order[i..][1..] == b.order[i + 1..];
      var block := ExtractBlock(b, b.order[i], render, serialize);
      if block.Err? {
        return Err(block.error);
      }
      if block.value.Some? {
        blocks := blocks[b.order[i] := block.value.value];
      }
    }
    assert b.order[|b.order|..] == [];
    r := Ok(blocks);
  }

  /** Lines 80-98: a list for every parent whose entry is an array. */
  method CollectChildLists(children: map<string, Out>) returns (lists: map<string, seq<string>>)
    ensures lists == ChildLists(children)
  {
    lists := map[];
    var rest := children.Keys;
    while rest != {}
      invariant rest <= children.Keys
      invariant lists == map p | p in children.Keys - rest && children[p].YArray? :: ChildIds(children[p].items)
      decreases rest
    {
      var p :| p in rest;
      if children[p].YArray? {
        lists := lists[p := ChildIds(children[p].items)];
      }
      rest := rest - {p};
    }
    assert children.Keys - rest == children.Keys;
  }

  /** `extract_document_state` (lines 50-120), step by step as the source takes them. */
  method ExtractDocumentState(root: Root, docId: string, render: Out -> string, serialize: Json -> Option<string>)
    returns (r: Outcome<DocumentState>)
    ensures r == StateOf(root, docId, render, serialize)
  {
    if root.blocks.None? {
      return Err(StateError("Blocks map not found in document"));
    }
    var blocks := ExtractBlocks(root.blocks.value, render, serialize);
    if blocks.Err? {
      return Err(blocks.error);
    }
    if root.children.None? {
      return Err(StateError("Children map not found in document"));
    }
    var lists := CollectChildLists(root.children.value);
    var sorted := SortBlocksByChain(lists, blocks.value);
    SortedChildrenByGroup(lists, blocks.value, sorted);
    if !(root.rootId.Some? && IsStringValue(root.rootId.value)) {
      return Err(StateError("Root ID not found in document"));
    }
    r := Ok(DocumentState(docId, blocks.value, sorted, root.rootId.value.any.s));
  }

  /**
   * When extraction fails and why: a `StateError` for a missing blocks map, children map
   * or root id, a `StateEncodingFailed` for a block whose text cannot be serialised, and
   * nothing else.
   */
  lemma StateErrors(root: Root, docId: string, render: Out -> string, serialize: Json -> Option<string>)
    ensures var r := StateOf(root, docId, render, serialize);
      && (root.blocks.None? ==> r == Err(StateError("Blocks map not found in document")))
      && (r.Ok? <==>
            && root.blocks.Some? && root.children.Some?
            && root.rootId.Some? && IsStringValue(root.rootId.value)
            && forall k | k in root.blocks.value.order :: DeltaString(Fields(root.blocks.value, k), serialize).Ok?)
      && (r.Err? ==> r.error.StateError? || r.error.StateEncodingFailed?)
  {
    if root.blocks.Some? {
      var b := root.blocks.value;
      BlocksFromResult(b, b.order, map[], render, serialize);
      forall k | k in b.order
        ensures Extracted(b, k, render, serialize).Ok? <==> DeltaString(Fields(b, k), serialize).Ok?
      {
        if !IsMapEntry(b, k) {
          assert Fields(b, k) == map[];
        }
      }
      var r := BlocksFrom(b, b.order, map[], render, serialize);
      if r.Err? {
        var k :| k in b.order && Extracted(b, k, render, serialize) == Err(r.error);
        assert r.error.StateEncodingFailed?;
      }
    }
  }

  /**
   * The blocks of an extracted state are exactly the entries of the blocks map that are
   * maps, each read by `extract_block` under its key.
   */
  lemma ExtractedBlocks(root: Root, docId: string, render: Out -> string, serialize: Json -> Option<string>)
    requires ValidRoot(root)
    requires StateOf(root, docId, render, serialize).Ok?
    ensures var s := StateOf(root, docId, render, serialize).value;
      && s.blocks.Keys == set k | k in root.blocks.value.entries && root.blocks.value.entries[k].YMap?
      && (forall k | k in s.blocks :: Ok(s.blocks[k]) == BlockOf(k, Fields(root.blocks.value, k), render, serialize))
      && s.docId == docId
  {
    var b := root.blocks.value;
    BlocksFromResult(b, b.order, map[], render, serialize);
  }

  /**
   * Once every entry of the blocks map is a map, as after an insert with a `prevId`, a
   * delete or a move, every entry is extracted as a block; a non-map entry those operations
   * turned into an empty map comes back with its key as id, the empty type and no
   * attributes.
   */
  lemma ExtractedEveryEntry(root: Root, docId: string, render: Out -> string, serialize: Json -> Option<string>)
    requires ValidRoot(root) && root.blocks.Some? && AllMaps(root.blocks.value)
    requires StateOf(root, docId, render, serialize).Ok?
    ensures var s := StateOf(root, docId, render, serialize).value;
      && s.blocks.Keys == root.blocks.value.entries.Keys
      && forall k | k in s.blocks && Fields(root.blocks.value, k) == map[] :: s.blocks[k] == BlockDoc(k, "", map[], None, None, None, None, None)
  {
    ExtractedBlocks(root, docId, render, serialize);
    var s := StateOf(root, docId, render, serialize).value;
    forall k | k in s.blocks && Fields(root.blocks.value, k) == map[]
      ensures s.blocks[k] == BlockDoc(k, "", map[], None, None, None, None, None)
    {
      BlockDefaults(k, map[], render, serialize);
    }
  }

  /**
   * The child lists of an extracted state: one per array in the children map, each
   * holding every non-empty string of its array exactly once, and nothing else.
   */
  lemma ExtractedChildren(root: Root, docId: string, render: Out -> string, serialize: Json -> Option<string>)
    requires StateOf(root, docId, render, serialize).Ok?
    ensures var s := StateOf(root, docId, render, serialize).value;
      && s.childrenMap.Keys == set p | p in root.children.value && root.children.value[p].YArray?
      && forall p | p in s.childrenMap ::
           && NoDup(s.childrenMap[p])
           && forall x :: x in s.childrenMap[p] <==> x != "" && Str(x) in root.children.value[p].items
  {
    var s := StateOf(root, docId, render, serialize).value;
    SortedChildLists(root.children.value, s.blocks);
  }

  lemma SortedChildLists(children: map<string, Out>, blocks: map<string, BlockDoc>)
    ensures var m := SortedChildren(ChildLists(children), blocks);
      && m.Keys == set p | p in children && children[p].YArray?
      && forall p | p in m ::
           && NoDup(m[p])
           && forall x :: x in m[p] <==> x != "" && Str(x) in children[p].items
  {
    var lists := ChildLists(children);
    var m := SortedChildren(lists, blocks);
    forall p | p in m
      ensures NoDup(m[p])
      ensures forall x :: x in m[p] <==> x != "" && Str(x) in children[p].items
    {
      SortGroupIsPermutation(lists[p], blocks);
      assert forall x :: x in m[p] <==> x in Elems(lists[p]);
    }
  }

  // ---------------------------------------------------------------------------------------
  // Remote updates

  /** `merge_updates` (lines 192-197): the CRDT merge is the parameter `merge`. */
  function MergeUpdates(updates: seq<Bytes>, merge: seq<Bytes> -> Option<Bytes>): (r: Outcome<Bytes>)
    ensures r.Ok? <==> merge(updates).Some?
    ensures r.Ok? ==> r.value == merge(updates).value
    ensures r.Err? ==> r.error.MergeError?
  {
    match merge(updates)
    case None => Err(MergeError("Failed to merge updates"))
    case Some(u) => Ok(u)
  }

  /**
   * `apply_updates_inner` (lines 17-47): merge, decode, apply. Merging (`merge`), decoding
   * (`decode`) and applying a decoded update to the document (`apply`) are the CRDT's.
   * The document is the first component of the result.
   */
  function ApplyUpdatesInner(root: Root, updates: seq<Bytes>, merge: seq<Bytes> -> Option<Bytes>,
                                decode: Bytes -> Option<DecodedUpdate>, apply: (Root, DecodedUpdate) -> Root): (r: (Root, Outcome<()>))
  {
    match MergeUpdates(updates, merge)
    case Err(e) => (root, Err(e))
    case Ok(merged) =>
      match decode(merged)
      case None => (root, Err(UpdateDecodingFailed("Failed to decode update")))
      case Some(u) => (apply(root, u), Ok(()))
  }

  /**
   * A merge failure is a `MergeError`, a decoding failure an `UpdateDecodingFailed`, and
   * in both cases the document is left as it was; otherwise the decoded merge is applied.
   */
  lemma UpdateErrors(root: Root, updates: seq<Bytes>, merge: seq<Bytes> -> Option<Bytes>,
                        decode: Bytes -> Option<DecodedUpdate>, apply: (Root, DecodedUpdate) -> Root)
    ensures var (root', r) := ApplyUpdatesInner(root, updates, merge, decode, apply);
      && (merge(updates).None? ==> r.Err? && r.error.MergeError? && root' == root)
      && (merge(updates).Some? && decode(merge(updates).value).None? ==>
            r.Err? && r.error.UpdateDecodingFailed? && root' == root)
      && (r.Ok? <==> merge(updates).Some? && decode(merge(updates).value).Some?)
      && (r.Ok? ==> root' == apply(root, decode(merge(updates).value).value))
  {
  }
}
