# AppFlowy editor sync plugin: a Dafny model of the document core

The plugin keeps an AppFlowy editor document in a yrs (Yjs-compatible CRDT) document, so
that several devices can edit it and merge their updates. The yrs root holds a **blocks
map** with one nested map per block, keyed by block id. Each block map stores the block's
`id`, `type`, `parentId`, an `attributes` map and a `text` (a yrs text edited through
Quill-style deltas). It may also store a `prevId` naming the block it follows. The root
also holds a **children map** (parent id to an ordered list of child ids) and a `document`
entry naming the root block.

The editor sends batches of block actions: insert, update, delete and move. An action
edits the blocks map, and the changes go back as an encoded update. Reading the document
back goes through `extract_document_state`. That step orders every parent's children with
the chain sorter: chain heads first, device by device and by timestamp, then each chain
by `prevId`. Text edits are deltas (insert / retain / delete in UTF-16 code units). They
are validated against the text length before the text is touched.

The model covers:

- the block operations of `block_ops.rs`, over a value-level blocks map (`Store.BlocksMap`:
  the entries, plus the order in which the map yields them);
- delta validation and application (`delta_ops.rs`), and the value conversions between
  yrs values and JSON (`conversion.rs`);
- document extraction and update error mapping (`update_ops.rs`), and the chain sorter
  (`sorting.rs`);
- the service class with its dispatcher (`document_service.rs`);
- the earlier document variant in `utils/document_impl.rs`. It keeps children in yrs
  arrays, repairs chains differently, can panic, and recurses when deleting.

The CRDT engine (merge, decode, apply, encode), the editor's diff callback, JSON
serialisation and yrs' printing of values are functions passed in as parameters.

## Model

| member | source | states |
|---|---|---|
| Sorting.SortBlocksByChain | rust/src/doc/utils/sorting.rs:11-149 | one sorted list per parent of the children map, exactly its keys; each list is the group order `SortGroup` and holds every distinct child id once and nothing else |
| Sorting.SortChildList | rust/src/doc/utils/sorting.rs:18-145 | the loops for one parent compute the specified group order |
| Sorting.GroupByDevice | rust/src/doc/utils/sorting.rs:24-34 | the device table holds exactly the non-empty device buckets, each member under its `device` attribute ("unknown" when absent) |
| Sorting.LinkSuccessors | rust/src/doc/utils/sorting.rs:36-45 | the successor table lists, for each `prevId`, exactly the members naming it; `hasPrev` is exactly the members with a `prevId` |
| Sorting.CollectRoots | rust/src/doc/utils/sorting.rs:47-60 | the root table holds, for each device with any, exactly its members without a `prevId` |
| Sorting.PushSuccessors | rust/src/doc/utils/sorting.rs:116-120 | successors are pushed in reverse, visited ones skipped, so the earliest is popped first |
| Sorting.WalkChain | rust/src/doc/utils/sorting.rs:86-122 | the stack loop from one root is the depth-first walk specification |
| Sorting.WalkFromRoots | rust/src/doc/utils/sorting.rs:85-123 | every root not yet visited is walked in turn |
| Sorting.AppendRemaining | rust/src/doc/utils/sorting.rs:137-143 | the ids not yet visited are appended once each, in order |
| Sorting.RunDevice | rust/src/doc/utils/sorting.rs:71-134 | a device is processed only when it has roots: its roots by timestamp, then its unvisited blocks |
| Sorting.SortGroupIsPermutation | rust/src/doc/utils/document_impl.rs:1209-1347 | no block is lost or repeated: the sorted list holds each distinct child id exactly once, in both copies of the sorter |
| Sorting.SortGroupHeads | rust/src/doc/utils/sorting.rs:67-134 | the chain heads come out in device order and, within a device, by timestamp, and every head among the children comes out |
| Sorting.SortGroupHeadsOrdered | rust/src/doc/utils/sorting.rs:27-83 | the heads in a sorted list are ordered by device, then by timestamp, and are exactly the heads among the children |
| Sorting.SortGroupWithoutHeads | rust/src/doc/utils/sorting.rs:137-143 | with no chain head (as in a `prevId` cycle) the sorted list is the child list with repeats dropped |
| Sorting.CycleComesOutOnce | rust/src/doc/utils/sorting.rs:137-143 | two blocks naming each other as `prevId` come out once each, in child-list order |
| Sorting.ChainComesOutInOrder | rust/src/doc/utils/sorting.rs:86-122 | a head x, then y after x, then z after y come out as x, y, z whatever their devices |
| Sorting.FirstSuccessorEarliest | rust/src/doc/utils/sorting.rs:36-45 | the first unvisited successor in the pushed order is a member that follows the block, and its timestamp is the least among the unvisited followers |
| Sorting.PushUnvisitedTop | rust/src/doc/utils/sorting.rs:116-120 | pushing the successors puts the first unvisited one on top of the stack, and leaves the stack as it was when all are visited |
| Sorting.WalkEmitsFirstSuccessorNext | rust/src/doc/utils/sorting.rs:86-122 | depth first: a block popped with an unvisited successor is emitted and immediately followed by its earliest unvisited successor |
| Sorting.WalkBacktracks | rust/src/doc/utils/sorting.rs:86-122 | a block with no unvisited successor is emitted and the walk resumes with the rest of the stack |
| Sorting.SortGroupTail | rust/src/doc/utils/sorting.rs:67-143 | the sorted list is the device phases' output followed by the child ids they left, in child-list order, once each; the phases emit only members, and every member of a device with roots |
| Sorting.TwoRootsComeOutDepthFirst | rust/src/doc/utils/sorting_test.rs:725-753 | two roots a1, a2 of one device, a1 earlier, and a3 following a1 come out as a1, a3, a2: the chain of the first root is finished before the second root |
| Sorting.ChainAcrossDevices | rust/src/doc/utils/sorting_test.rs:756-802 | a1 <- a2 <- b1 <- b2 across two devices and a lone c1 on a third come out as a1, a2, b1, b2, c1 when the devices are ordered a, b, c |
| Sorting.SortByStable | rust/src/doc/utils/sorting.rs:74-81 | the timestamp sort is stable: ids with equal keys keep their relative order |
| Sorting.SortBySorted | rust/src/doc/utils/sorting.rs:74-81 | the sort orders by key under lexicographic string order |
| Sorting.StrLeTotal | rust/src/doc/utils/sorting.rs:80 | the string comparison is total (with StrLeTransitive and StrLeAntisymmetric, a total order) |
| Sorting.StrLeTransitive | rust/src/doc/utils/sorting.rs:80 | the string comparison is transitive |
| Sorting.OnlyRootIsHead | rust/src/doc/utils/sorting.rs:47-60 | when one member is the only chain head, only its device has roots, and they are that member alone |
| Sorting.PhasesOneActive | rust/src/doc/utils/sorting.rs:69-134 | devices without roots contribute nothing, so the phases reduce to the one device with roots |
| Sorting.Members | rust/src/doc/utils/sorting.rs:18-22 | the members are the child ids that have a block record, each once |
| Store.Put | rust/src/doc/operations/block_ops.rs:29-42 | an insert sets the key to the value and leaves every other entry; an existing key keeps its place in the map's order |
| Store.InitMap | rust/src/doc/operations/block_ops.rs:27 | `get_or_init_map` keeps a map entry, replaces a non-map entry by an empty map, and leaves other entries alone |
| Store.SetField | rust/src/doc/operations/block_ops.rs:29-33 | writing one field of a block changes that field only |
| Store.WithAttrs | rust/src/doc/operations/block_ops.rs:84-93 | inserting attributes merges them over the existing ones and keeps the block's other fields |
| Store.OriginOf | rust/src/doc/operations/block_ops.rs:418-440 | the origin carried over is the block's top-level `device` and `timestamp`, when they are plain values |
| BlockOps.FindBlockReferencingPrevId | rust/src/doc/operations/block_ops.rs:201-248 | the ids found are exactly the blocks whose `prevId` is the given id, in map order; each block is read as a map on the way |
| BlockOps.HandlePrevIdChain | rust/src/doc/operations/block_ops.rs:250-291 | with a `prevId`, every block that followed it now follows the new block and nothing else changes; without one the map is unchanged |
| BlockOps.RemoveBlockFromPrevIdChain | rust/src/doc/operations/block_ops.rs:293-355 | the block's followers take over its `prevId` (or lose theirs, inheriting its origin into their attributes); afterwards nothing follows the removed block |
| BlockOps.RelinkIsUnlink | rust/src/doc/operations/block_ops.rs:311-353 | the relinking loop computes the specified unlink |
| BlockOps.HandleFollowingConnection | rust/src/doc/operations/block_ops.rs:357-447 | the `prevId` followers are repointed; the `nextId` block follows the new block, which takes the next block's origin into its attributes |
| BlockOps.LinkNext | rust/src/doc/operations/block_ops.rs:400-445 | the next block gets the new block as `prevId`; only that field and the new block's attributes change |
| BlockOps.EditText | rust/src/doc/operations/block_ops.rs:45-48 | the block gets a text (empty when missing); a delta that fails leaves the text as it was and reports the error |
| BlockOps.WriteNode | rust/src/doc/operations/block_ops.rs:27-42 | id, type, parent (unless the default parent) and attributes are written; no other field or block changes |
| BlockOps.InsertNode | rust/src/doc/operations/block_ops.rs:18-75 | `InsertSpec`: fails exactly when the delta does; the block gets its id, type, parent, attributes (with the origin fields) and text, every other field of it kept; on success it follows its `prevId` (or itself, when its `nextId` is itself), followers of the `prevId` now follow it and its `nextId` follows it with its other fields kept; every other block keeps every field; with a `prevId` every entry is a map afterwards (the follower search reads each through `get_or_init_map`), and without one, or after a failed delta, every other entry is exactly as it was |
| BlockOps.InsertReadsOthersAsMaps | rust/src/doc/operations/block_ops.rs:201-248 | after an insert with a `prevId`, each block it does not rewrite is its old entry as `get_or_init_map` leaves it: a map stays as it was, a non-map entry becomes an empty map |
| BlockOps.WriteAndEdit | rust/src/doc/operations/block_ops.rs:27-48 | the first writes and the text edit: fails exactly when the delta does; the block's id, type, parent, attributes and text are as written; every other entry is exactly as it was |
| BlockOps.InsertNodeCompose | rust/src/doc/operations/block_ops.rs:18-75 | the insert's two halves compose to its stated effect on the original map |
| BlockOps.LinkNode | rust/src/doc/operations/block_ops.rs:51-71 | the chain links are made as `insert_node` makes them after its writes |
| BlockOps.UpdateNode | rust/src/doc/operations/block_ops.rs:77-103 | `UpdateSpec`: fails exactly when the delta does; attributes are merged over the old ones (left alone when none are sent), the text edited when a delta is given; the block is a map afterwards, as `get_or_init_map` leaves it; its other fields are untouched and every other entry is exactly as it was |
| BlockOps.MergeAttributes | rust/src/doc/operations/block_ops.rs:84-93 | each sent attribute is inserted as a string; old attributes stay unless overwritten |
| BlockOps.BuildParentChildStructure | rust/src/doc/operations/block_ops.rs:451-488 | every block sits under its parent id ("root" without a string `parentId`), exactly once, and nowhere else |
| BlockOps.DescendantsClosed | rust/src/doc/operations/block_ops.rs:491-509 | the descendants are closed under children, contain only children of the block or of other descendants, and never the block itself |
| BlockOps.DeleteNode | rust/src/doc/operations/block_ops.rs:105-140 | `DeleteSpec`: the delete succeeds; exactly the block and all its descendants leave the map; survivors keep every field but `prevId` and attributes; a survivor that followed none of the removed blocks keeps those too; one that followed the block now follows the block's own `prevId` (or, when it had none, loses its `prevId` and takes over the block's origin attributes); every surviving entry is a map afterwards, since the follower search reads each through `get_or_init_map` |
| BlockOps.DeleteReadsSurvivorsAsMaps | rust/src/doc/operations/block_ops.rs:201-248 | after a delete, a survivor that followed none of the removed blocks is its old entry as `get_or_init_map` leaves it: a map stays as it was, a non-map entry becomes an empty map |
| BlockOps.DeleteLeafClosesGap | rust/src/doc/operations/block_ops.rs:105-140 | deleting a leaf closes the gap in its chain: with A, B, C chained, deleting B leaves C following A |
| BlockOps.MoveBlock | rust/src/doc/operations/block_ops.rs:142-191 | `MoveSpec`: the block leaves its chain and takes its new place: `prevId` as given, the new parent when it changed, followers of the new `prevId` follow it, `nextId` follows it; the other blocks keep every field but `prevId` and attributes, and those change only for the repointed followers; every entry is a map afterwards (the follower search reads each through `get_or_init_map`) |
| BlockOps.MoveReadsOthersAsMaps | rust/src/doc/operations/block_ops.rs:201-248 | after a move, each block it does not repoint, other than `nextId`, is its old entry as `get_or_init_map` leaves it: a map stays as it was, a non-map entry becomes an empty map |
| BlockOps.MoveCompose | rust/src/doc/operations/block_ops.rs:142-191 | the unlink, relink and placement steps compose to the move's stated effect |
| DeltaOps.ParseDeltaOperation | rust/src/doc/operations/delta_ops.rs:76-139 | every accepted operation keeps the cursor within the text; failures are invalid-operation errors; an operation without a known key fails; only zero lengths leave the scan unchanged |
| DeltaOps.ParseFrom | rust/src/doc/operations/delta_ops.rs:65-68 | parsing keeps the operations already parsed and adds one edit per operation |
| DeltaOps.ApplyDeltaDiffToText | rust/src/doc/operations/delta_ops.rs:54-74 | all operations are validated first; on a failure the text is unchanged and the first error is returned, otherwise the parsed edits are applied |
| DeltaOps.ApplyDeltaToText | rust/src/doc/operations/delta_ops.rs:23-52 | an editor answer that is not a list of objects is a decoding error and leaves the text; otherwise the text changes exactly when validation succeeds |
| DeltaOps.ParseAttributes | rust/src/doc/operations/delta_ops.rs:141-151 | attributes are present exactly when the operation has them; an object keeps its keys |
| DeltaOps.InsertLength | rust/src/doc/operations/delta_ops.rs:87 | an insert counts UTF-16 code units |
| DeltaOps.ParseTracksText | rust/src/doc/operations/delta_ops.rs:65-68 | while no delete runs past the end, the scan's length equals the edited text's length |
| DeltaOps.ScanLengthIsTextLength | rust/src/doc/operations/delta_ops.rs:54-74 | the validated length is the length of the text after the edit |
| DeltaOps.DeleteIsCheckedAgainstWholeLength | rust/src/doc/operations/delta_ops.rs:120-135 | a delete is checked against the whole length and moves the cursor back: at cursor 8 of 10 units a delete of 5 is accepted |
| DeltaOps.InsertHello | rust/src/doc/operations/delta_ops.rs:297-315 | inserting "hello" into an empty text advances cursor and length by 5 |
| DeltaOps.RetainWithinText | rust/src/doc/operations/delta_ops.rs:317-335 | a retain of 3 at cursor 2 of 10 moves the cursor to 5 |
| DeltaOps.DeleteMovesCursorBack | rust/src/doc/operations/delta_ops.rs:337-355 | a delete of 3 at cursor 5 of 10 leaves cursor 2 and length 7 |
| DeltaOps.RetainPastEndFails | rust/src/doc/operations/delta_ops.rs:357-368 | a retain past the remaining text is refused |
| DeltaOps.RetainCountIsTruncated | rust/src/doc/operations/delta_ops.rs:103 | the count is cast to 32 bits: a retain of 2^32 + 1 is read as 1 |
| DeltaOps.InsertTakesPrecedence | rust/src/doc/operations/delta_ops.rs:83-101 | an insert key decides the kind even when retain and delete keys are present |
| DeltaOps.NonStringInsertFails | rust/src/doc/operations/delta_ops.rs:83-86 | a non-string insert is refused even beside a valid retain |
| Conversion.AnyToJson | rust/src/doc/conversions/conversion.rs:16-36 | nulls map to null, strings to strings, buffers to a fixed text, arrays to arrays, maps to objects with the same keys |
| Conversion.JsonToAny | rust/src/doc/conversions/conversion.rs:39-64 | each JSON kind maps to its yrs kind; objects keep their keys; every number becomes a number |
| Conversion.NumberToF64 | rust/src/doc/conversions/conversion.rs:44-47 | an integer that fits in i64 becomes `i as f64`; a float stays itself |
| Conversion.JsonRoundTrip | rust/src/doc/conversions/conversion.rs:16-64 | JSON whose numbers are finite doubles survives the trip to yrs and back |
| Conversion.AnyRoundTrip | rust/src/doc/conversions/conversion.rs:16-64 | plain yrs values, finite doubles included, survive the trip to JSON and back |
| Conversion.IntegerComesBackAsDouble | rust/src/doc/operations/delta_ops.rs:266-295 | an integer such as 42 comes back from the round trip as a double, not as the integer |
| Conversion.DeltaToJson | rust/src/doc/conversions/conversion.rs:67-108 | exactly one of insert/retain/delete, carrying the text or length; attributes only when present and not on a delete |
| Conversion.DeltasToJson | rust/src/doc/conversions/conversion.rs:111-121 | one object per operation, in order |
| Conversion.BlockToJson | rust/src/doc/conversions/conversion.rs:130-157 | id, type and attributes always; parent, prevId and delta exactly when present; a delta that does not parse becomes null |
| Conversion.BlockJsonRoundTrip | rust/src/doc/conversions/conversion.rs:130-157 | a block's id, type, attributes, parent and prevId are recovered from its JSON object |
| Conversion.CollectBlocks | rust/src/doc/conversions/conversion.rs:127-160 | the loop that writes one JSON object per block builds exactly the blocks object `BlocksToJson` |
| Conversion.CollectChildren | rust/src/doc/conversions/conversion.rs:163-166 | the loop that writes one array per parent builds exactly the children object `ChildrenToJson` |
| Conversion.JsonStrings | rust/src/doc/conversions/conversion.rs:165 | `json!` on a list of ids is an array of the same length holding each id as a JSON string, in order |
| Conversion.DocumentToJson | rust/src/doc/conversions/conversion.rs:126-175 | the top level has exactly docId, blocks and childrenMap, holding the state's values |
| UpdateOps.ExtractBlock | rust/src/doc/operations/update_ops.rs:123-189 | one entry is read as the specified block, its attributes printed one by one |
| UpdateOps.BlockDefaults | rust/src/doc/operations/update_ops.rs:123-189 | missing fields get defaults (key for id, "" for type, nothing else); only a text that cannot be serialised fails |
| UpdateOps.StoredBlockReadsBack | rust/src/doc/operations/update_ops.rs:123-189 | a block stored as `insert_node` stores it reads back with the same id, type, attributes and parent |
| UpdateOps.ExtractBlocks | rust/src/doc/operations/update_ops.rs:63-72 | the loop reads every entry in map order |
| UpdateOps.BlocksFromResult | rust/src/doc/operations/update_ops.rs:63-72 | reading fails exactly when some block fails, with that block's error; otherwise exactly the map entries that are maps are read |
| UpdateOps.ChildIds | rust/src/doc/operations/update_ops.rs:85-94 | the child ids are exactly the non-empty strings of the array |
| UpdateOps.CollectChildLists | rust/src/doc/operations/update_ops.rs:80-98 | a list for each parent whose entry is an array |
| UpdateOps.ExtractDocumentState | rust/src/doc/operations/update_ops.rs:50-120 | the steps compute the specified document state |
| UpdateOps.StateErrors | rust/src/doc/operations/update_ops.rs:50-120 | extraction succeeds exactly when the blocks map, children map and a string root id exist and every text serialises; failures are only state or encoding errors |
| UpdateOps.ExtractedBlocks | rust/src/doc/operations/update_ops.rs:63-72 | the extracted blocks are exactly the map entries that are maps, each read under its key |
| UpdateOps.ExtractedEveryEntry | rust/src/doc/operations/update_ops.rs:63-72 | once every entry is a map, as after an insert with a `prevId`, a delete or a move, every entry is extracted; an entry made an empty map comes back as a block with its key as id, an empty type and nothing else |
| UpdateOps.ExtractedChildren | rust/src/doc/operations/update_ops.rs:76-110 | one child list per array, holding each non-empty id once and nothing else, after sorting |
| UpdateOps.MergeUpdates | rust/src/doc/operations/update_ops.rs:192-197 | a merge succeeds exactly when the CRDT merge does, with its bytes; failures are merge errors |
| UpdateOps.UpdateErrors | rust/src/doc/operations/update_ops.rs:17-47 | a merge failure is a merge error and a decode failure a decoding error, both leaving the document; otherwise the decoded merge is applied |
| Service.Dispatch | rust/src/doc/document_service.rs:70-100 | `DispatchSpec`: each action does what its operation's contract says to the blocks map; an incomplete move fails and changes nothing; a delete on a `parentId` cycle diverges and nothing else does; an error comes only from an incomplete move or a failing delta |
| Service.RunActions | rust/src/doc/document_service.rs:70-100 | the actions run in order: the trace of blocks maps steps by `DispatchSpec` through every action that went through, the action that ended the run (if any) took the last step with the reply returned, and the run is complete exactly when the reply is `Ok` |
| Service.MergeUpdates | rust/src/doc/document_service.rs:147-160 | the service reports a failed merge as an encoding error and otherwise returns the merged bytes |
| Service.NoChildrenMapCannotBeRead | rust/src/doc/document_service.rs:32-52 | a document with only a blocks map, as `init_empty_doc` leaves it, cannot be read back |
| Service.DocumentService.constructor | rust/src/doc/document_service.rs:23-27 | a new service holds an empty root |
| Service.DocumentService.InitEmptyDoc | rust/src/doc/document_service.rs:32-52 | only the blocks map is created if missing; the whole state is returned encoded |
| Service.DocumentService.SetRootNodeId | rust/src/doc/document_service.rs:166-180 | the root id is stored under "document" and nothing else changes; the diff is returned |
| Service.DocumentService.GetDocumentState | rust/src/doc/document_service.rs:132-144 | the state is the extraction of the current root |
| Service.DocumentService.ApplyUpdates | rust/src/doc/document_service.rs:113-127 | updates are merged, decoded and applied to this document in place |
| Service.DocumentService.ApplyAction | rust/src/doc/document_service.rs:57-108 | the blocks map afterwards is the end of the trace `RunActions` states: each action that ran did what `DispatchSpec` says, and the one that failed (if any) too; the first failure ends the batch, keeping earlier changes; a full run returns the diff; the children map and root id are never touched |
| ChildArrays.InsertAt | rust/src/doc/utils/document_impl.rs:338-363 | `insert` puts the id at the index and keeps every other element |
| ChildArrays.RemoveAt | rust/src/doc/utils/document_impl.rs:446-451 | `remove` drops exactly the element at the index |
| ChildArrays.RemoveUndoesInsert | rust/src/doc/utils/document_impl.rs:338-363 | removing what was inserted gives the array back |
| ChildArrays.InsertUndoesRemove | rust/src/doc/utils/document_impl.rs:446-451 | putting a removed element back gives the array back |
| ChildArrays.PlaceChildPlaces | rust/src/doc/utils/document_impl.rs:340-352 | the new child sits at the last path index (or at the end) and the others keep their order |
| ChildArrays.Position | rust/src/doc/utils/document_impl.rs:446-451 | the index found is the first occurrence of the id, or none when it is absent |
| ChildArrays.RemovalTakesFirst | rust/src/doc/utils/document_impl.rs:446-451 | the delete removes the first occurrence of the block, or the head of the array when it is absent |
| ChildArrays.MoveIsRemoveThenInsert | rust/src/doc/utils/document_impl.rs:553-565 | a move within one array is a removal then an insertion at the adjusted index |
| ChildArrays.MovePermutes | rust/src/doc/utils/document_impl.rs:553-565 | a move keeps every child and puts the moved one at the adjusted index |
| ImplDelta.SaturatingSub | rust/src/doc/utils/document_impl.rs:861 | the room left is the difference, or 0 when the cursor is past the length |
| ImplDelta.ParseAllAgrees | rust/src/doc/utils/document_impl.rs:797-954 | this variant accepts the same operation lists as delta_ops.rs and makes the same edits; the final cursor check never fires |
| ImplDelta.ImplApplyDeltaDiffToText | rust/src/doc/utils/document_impl.rs:788-960 | validation precedes the edit; on a failure the text is unchanged |
| ImplDelta.DeltaEditAgrees | rust/src/doc/utils/document_impl.rs:728-786 | both variants of `apply_delta_to_text` succeed on the same answers and make the same text |
| ImplDelta.ImplApplyDeltaToText | rust/src/doc/utils/document_impl.rs:728-786 | a non-list answer is refused, an empty list changes nothing, otherwise the validated edit is applied |
| DocumentImpl.IsSamePathExceptLast | rust/src/doc/utils/document_impl.rs:259-276 | true exactly when the paths have equal length and agree on every element but the last |
| DocumentImpl.FindReferencing | rust/src/doc/utils/document_impl.rs:369-388 | the id found is a plain-map block whose `prevId` is the given one; none is found only when no such block exists |
| DocumentImpl.FindAfterMaking | rust/src/doc/utils/document_impl.rs:369-388 | after the block itself is made a shared map, the lookup finds its follower other than itself |
| DocumentImpl.SharedMapsAreNotRelinked | rust/src/doc/utils/document_impl.rs:369-388 | when every block is a shared map, as this variant stores them, no follower is ever found |
| DocumentImpl.RemoveFromChain | rust/src/doc/utils/document_impl.rs:390-430 | the follower takes the block's `prevId` (or loses its own); the block keeps its fields |
| DocumentImpl.InsertNode | rust/src/doc/utils/document_impl.rs:278-367 | `InsertSpec`: the block is written with its id, type, attributes, parent and text, and takes over the follower's `prevId`, the chain being repaired around it; it is placed in its parent's array and gets one of its own; other blocks are kept; it always succeeds |
| DocumentImpl.AddChild | rust/src/doc/utils/document_impl.rs:338-363 | the new child goes into its parent's array at the last path index and gets an array of its own; other arrays are unchanged |
| DocumentImpl.UpdateNode | rust/src/doc/utils/document_impl.rs:206-229 | `UpdateSpec`: attributes are merged when sent, the text edited when a delta is given; the block is a shared map afterwards (`get_or_init_map`, line 209); its other fields and every other block are unchanged |
| DocumentImpl.DeleteNode | rust/src/doc/utils/document_impl.rs:432-510 | `DeleteSpec`: an empty parent array panics; errors are the two removal errors; on success the block is gone from both maps, so are the children its array listed, and survivors are kept or only had their `prevId` rewritten; its parent's array lost the block at its first occurrence (or its head) and every other array is unchanged; a leaf whose parent array is not empty always succeeds; whatever the outcome (an error a child hit included), only the parent's array and those of the blocks the deletion can reach through the children arrays within its fuel are created or changed, no array gains an id, blocks are added or removed only among those reached, and every block left is as it was or holds at most a `prevId` |
| DocumentImpl.DeleteBelow | rust/src/doc/utils/document_impl.rs:455-507 | `DeleteSpec`, for the steps after the block left its parent's array: children first, then the block's own entries |
| DocumentImpl.DeleteChildren | rust/src/doc/utils/document_impl.rs:455-481 | `ChildrenDeleted`: the first child deletion that does not succeed ends the loop with its outcome; on success every listed child is gone from both maps and only this block's array changed; in any case changes stay within what the children reach |
| DocumentImpl.Detach | rust/src/doc/utils/document_impl.rs:445-461 | `Detached`: an empty parent array panics; otherwise the block leaves its parent's array at its first occurrence (or its head) and its own array is read, created when missing; no other array changes and none gains an id |
| DocumentImpl.RemoveEntries | rust/src/doc/utils/document_impl.rs:484-507 | the block leaves both maps, or an error names the map it was missing from; a missing children entry leaves the block removed from the blocks map |
| DocumentImpl.MoveChild | rust/src/doc/utils/document_impl.rs:514-579 | empty paths fail; within one parent the array is moved; across parents the block is removed from the old array and inserted in the new; out-of-range indices panic |
| DocumentImpl.MoveBlock | rust/src/doc/utils/document_impl.rs:512-579 | `MoveSpec`: the block leaves its chain, takes the given `prevId` (or loses its own), and is a shared map afterwards (`get_or_init_map`, line 533), with or without a `prevId`; its other fields are kept; it moves between children arrays as stated |
| DocumentImpl.ApplyOne | rust/src/doc/utils/document_impl.rs:157-246 | `StepSpec`: each kind of action does what `InsertNode`, `UpdateNode`, `DeleteNode` or `MoveBlock` states to both maps; an insert or update always completes; only a move or a delete can panic or run out of fuel |
| DocumentImpl.RunImplActions | rust/src/doc/utils/document_impl.rs:157-246 | the actions run in order: the trace of (blocks, children) states steps by `StepSpec` through every completed action, the action that panicked or ran out of fuel took its last step, and an incomplete move ends the run without a step and with its error |
| DocumentImpl.ImplRanComplete | rust/src/doc/utils/document_impl.rs:166-176 | every action a trace ran was a complete one |
| DocumentImpl.DocumentServiceImpl.constructor | rust/src/doc/utils/document_impl.rs:78-82 | a new document has neither map |
| DocumentImpl.DocumentServiceImpl.InitEmptyDocInner | rust/src/doc/utils/document_impl.rs:93-129 | both maps exist afterwards, existing ones unchanged; the whole state is returned encoded |
| DocumentImpl.DocumentServiceImpl.ApplyActionInner | rust/src/doc/utils/document_impl.rs:131-257 | the maps afterwards are the end of the trace `RunImplActions` states, starting from the maps as first created; only an incomplete move fails the batch; other results are dropped; a full run returns the diff; a panic comes only from a move or a delete |
| Utf16.EncodeLength | rust/src/doc/operations/delta_ops.rs:87 | the encoding has exactly the counted number of code units |
| Utf16.DecodeEncode | rust/src/doc/operations/delta_ops.rs:174 | a text kept as UTF-16 code units reads back as the string that was inserted |
| Numbers.TruncateToU32 | rust/src/doc/operations/delta_ops.rs:103 | the cast keeps the value below 2^32 and otherwise agrees modulo 2^32 |
| Json.FromF64 | rust/src/doc/conversions/conversion.rs:21-23 | a double becomes a JSON number exactly when it is finite |

## Left out

- The 32-bit scan counters of `parse_delta_operation` (delta_ops.rs:94-95) are unbounded naturals, so their overflow is not modelled. The `as u32` casts are modelled.
- The iteration order of Rust `HashMap`s and yrs maps is unspecified. The model fixes it as state: the blocks map's `order`, and first-occurrence order of the child list in the sorter.
- `json_to_yrs_any` falls back to `Undefined` for a number that is neither an i64 nor an f64. serde_json answers `as_f64` for every number, so the fallback cannot be reached and is not modelled.
- Floating-point values are kept symbolic (`i as f64` and raw bit patterns); there is no float arithmetic.
- The yrs CRDT engine (merge, decode, apply and encode of updates) is passed in as function parameters, because its internals are not part of this code.
- The editor's diff callback is the parameter `diff`, JSON serialisation is `serialize` / `parse`, and yrs' printing of non-string values is `render`.
- Text formatting attributes stored inside yrs text runs are not modelled; the text is its UTF-16 code units.
- Logging calls are left out; they change no state.
- Rust panics in the earlier variant are outcomes (`Ending.Panicked`) rather than unwinding.
- The unused parent argument of `delete_node` and the unused paths of `move_block` in block_ops.rs are not parameters of the model.
- `find_block_index` (block_ops.rs:194-199) is not modelled: nothing in the core calls it.
- BlockOps.DeleteNode: requires the descendant search to end. On a `parentId` cycle the source recurses without end; the dispatcher reports that case as `Diverges`.
- BlockOps.DeleteNode: a survivor that followed one of the removed descendants (not the block itself) is stated only to keep its fields other than `prevId` and attributes; the chain repairs inside the removed subtree are not spelled out.
- DocumentImpl.DeleteNode: a survivor whose `prevId` entry was rewritten is stated only to hold nothing but a `prevId`, not which one.
- DocumentImpl.DeleteNode: after an error, the maps are bounded by `DeleteFrame` (only the parent's array and what the deletion reaches can have changed) but how far the deletion got, that is which of the reached blocks are already gone, is not stated.
- DocumentImpl.DeleteNode: the recursion over children is bounded by `fuel`. Running out is an outcome, `OutOfFuel`, not a behaviour of the source.
- The earlier variant's own copies of `apply_updates_inner`, `any_to_json`, `json_value_to_yrs_any` and `delta_to_json` are the same code as update_ops.rs, delta_ops.rs and conversion.rs, and are not modelled a second time.
- `merge_updates` in document_service.rs reports an encoding error, while update_ops.rs reports a merge error; each is modelled as its own code writes it.
- `NEXT_ID`, `DEVICE` and `TIMESTAMP` are not in constants.rs. They are modelled as the keys "nextId", "device" and "timestamp".
- The sorter's tests are covered by the general lemmas and by four concrete lemmas: a chain across devices (ChainComesOutInOrder), a `prevId` cycle (CycleComesOutOnce), two roots in one device (TwoRootsComeOutDepthFirst) and a chain across three devices (ChainAcrossDevices). The larger cases in sorting_test.rs (test_improved_block_sorting, test_complex_document_structure and the rest) are not proved one by one.
- block_ops.rs calls `apply_delta_to_text` with three arguments. The model uses the four-argument form, with the editor's diff as `diff`.
