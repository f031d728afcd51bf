/**
 * The block operations on the shared "blocks" map (rust/src/doc/operations/block_ops.rs):
 * inserting, updating, deleting and moving a block, and the upkeep of the `prevId` chains
 * that order siblings.
 *
 * Each operation takes the blocks map and gives back the map it leaves. The source writes
 * into the map as it goes and stops at the first error, so a failed operation hands back
 * the writes made before the failure. Blocks are described field by field through
 * `Store.Field`.
 */
module BlockOps {
  import opened Wrappers
  import opened Errors
  import opened Json
  import opened Yrs
  import opened Sorting
  import opened Store
  import opened DocumentTypes
  import Constants
  import DeltaOps

  // ---------------------------------------------------------------------------------------
  // The prevId chain

  /** Blocks whose `prevId` field is the string `p`. */
  function RefersTo(b: BlocksMap, p: string): string -> bool
  {
    id => PrevIdOf(b, id) == Some(p)
  }

  lemma PrefixSnoc(s: seq<string>, i: nat)
    requires i < |s|
    ensures s[..i + 1] == s[..i] + [s[i]]
  {
  }

  /** The entries of `b` with those of the ids in `s` read as maps. */
  function NormalizedOn(b: BlocksMap, s: seq<string>): map<string, Out>
  {
    map k | k in b.entries :: if k in s then AsMap(b.entries[k]) else b.entries[k]
  }

  lemma NormalizedOnStep(b: BlocksMap, s: seq<string>, id: string)
    requires id in b.entries
    ensures NormalizedOn(b, s)[id := AsMap(NormalizedOn(b, s)[id])] == NormalizedOn(b, s + [id])
  {
  }

  /** Reading one more block as a map extends the normalised prefix by that block. */
  lemma InitMapNormalizes(b: BlocksMap, s: seq<string>, b0: BlocksMap, id: string)
    requires Valid(b0) && id in b.entries && b0.entries == NormalizedOn(b, s)
    ensures InitMap(b0, id).entries == NormalizedOn(b, s + [id])
  {
    NormalizedOnStep(b, s, id);
  }

  lemma NormalizedOnFields(b: BlocksMap, s: seq<string>, b': BlocksMap)
    requires b'.entries == NormalizedOn(b, s)
    ensures forall k :: Fields(b', k) == Fields(b, k)
  {
  }

  /**
   * `find_block_referencing_prev_id`: the ids whose `prevId` is `p`, in the map's iteration
   * order. Looking at a block goes through `get_or_init_map`, so every non-map entry is
   * replaced by an empty map on the way.
   */
  method FindBlockReferencingPrevId(b: BlocksMap, p: string) returns (b': BlocksMap, ids: seq<string>)
    requires Valid(b)
    ensures Valid(b') && b'.order == b.order && b'.entries == Normalized(b)
    ensures ids == Filter(b.order, RefersTo(b, p))
  {
    b' := b;
    ids := [];
    var i := 0;
    NormalizedOnNone(b);
    assert b.order[..0] == [];
    while i < |b.order|
      invariant 0 <= i <= |b.order|
      invariant b'.order == b.order && b'.entries == NormalizedOn(b, b.order[..i])
      invariant ids == Followers(b, p, b.order[..i])
    {
      b', ids := LookAt(b, p, i, b', ids);
      i := i + 1;
    }
    assert b.order[..i] == b.order;
    FollowersIsFilter(b, p, b.order);
    NormalizedOnAll(b);
    NormalizedValid(b, b');
  }

  /** The blocks of `s` whose `prevId` is `p`, in order. */
  function Followers(b: BlocksMap, p: string, s: seq<string>): seq<string>
    decreases |s|
  {
    if s == [] then []
    else Followers(b, p, s[..|s| - 1]) + (if PrevIdOf(b, s[|s| - 1]) == Some(p) then [s[|s| - 1]] else [])
  }

  lemma {:induction false} FollowersIsFilter(b: BlocksMap, p: string, s: seq<string>)
    ensures Followers(b, p, s) == Filter(s, RefersTo(b, p))
    decreases |s|
  {
    if s != [] {
      FollowersIsFilter(b, p, s[..|s| - 1]);
      assert s == s[..|s| - 1] + [s[|s| - 1]];
      FilterSnoc(s[..|s| - 1], s[|s| - 1], RefersTo(b, p));
    }
  }

  lemma NormalizedValid(b: BlocksMap, b': BlocksMap)
    requires Valid(b) && b'.order == b.order && b'.entries == Normalized(b)
    ensures Valid(b')
  {
  }

  lemma NormalizedOnNone(b: BlocksMap)
    ensures NormalizedOn(b, []) == b.entries
  {
    MapsEqual(NormalizedOn(b, []), b.entries);
  }

  lemma NormalizedOnAll(b: BlocksMap)
    requires Valid(b)
    ensures NormalizedOn(b, b.order) == Normalized(b)
  {
    MapsEqual(NormalizedOn(b, b.order), Normalized(b));
  }

  /** One step of the search: the next block is read as a map and kept when it follows `p`. */
  method LookAt(b: BlocksMap, p: string, i: nat, b0: BlocksMap, ids0: seq<string>) returns (b1: BlocksMap, ids: seq<string>)
    requires Valid(b) && i < |b.order| && b0.order == b.order
    requires b0.entries == NormalizedOn(b, b.order[..i]) && ids0 == Followers(b, p, b.order[..i])
    ensures Valid(b1) && b1.order == b.order && b1.entries == NormalizedOn(b, b.order[..i + 1])
    ensures ids == Followers(b, p, b.order[..i + 1])
  {
    var id := b.order[i];
    assert Valid(b0);
    NormalizedOnFields(b, b.order[..i], b0);
    InitMapNormalizes(b, b.order[..i], b0, id);
    b1 := InitMap(b0, id);
    assert PrevIdOf(b, id) == PrevIdOf(b1, id);
    PrefixSnoc(b.order, i);
    assert b.order[..i + 1][..i] == b.order[..i];
    ids := ids0;
    if PrevIdOf(b1, id) == Some(p) {
      ids := ids + [id];
    }
  }

  /** Sets the `prevId` of every block in `ids` to `v`. */
  method SetPrevIds(b: BlocksMap, ids: seq<string>, v: string) returns (b': BlocksMap)
    requires Valid(b) && forall id | id in ids :: id in b.entries
    ensures Valid(b') && b'.order == b.order && b'.entries.Keys == b.entries.Keys
    ensures forall k | k in b.entries ::
      b'.entries[k] == if k in ids then YMap(Fields(b, k)[Constants.PREV_ID := Str(v)]) else b.entries[k]
  {
    b' := b;
    var i := 0;
    while i < |ids|
      invariant 0 <= i <= |ids|
      invariant Valid(b') && b'.order == b.order && b'.entries.Keys == b.entries.Keys
      invariant forall k | k in b.entries ::
        b'.entries[k] == if k in ids[..i] then YMap(Fields(b, k)[Constants.PREV_ID := Str(v)]) else b.entries[k]
    {
      b' := SetField(b', ids[i], Constants.PREV_ID, Str(v));
      PrefixSnoc(ids, i);
      i := i + 1;
    }
    assert ids[..i] == ids;
  }

  /** Every block whose `prevId` is `p` now has `prevId` `v`; every other entry is read as a map. */
  function Repoint(b: BlocksMap, p: string, v: string): map<string, Out>
  {
    map k | k in b.entries ::
      if PrevIdOf(b, k) == Some(p) then YMap(Fields(b, k)[Constants.PREV_ID := Str(v)]) else AsMap(b.entries[k])
  }

  /** Repointing touches the `prevId` field of the blocks that followed `p`, and nothing else. */
  lemma RepointFields(b: BlocksMap, p: string, v: string, b': BlocksMap)
    requires b'.entries == Repoint(b, p, v)
    ensures forall k, f | f != Constants.PREV_ID :: Field(b', k, f) == Field(b, k, f)
    ensures forall k ::
      Field(b', k, Constants.PREV_ID) == (if PrevIdOf(b, k) == Some(p) then Some(Str(v)) else Field(b, k, Constants.PREV_ID))
  {
  }

  /** Setting the `prevId` of the blocks found to follow `p` is repointing them. */
  lemma SetAfterFindIsRepoint(b: BlocksMap, p: string, v: string, b1: BlocksMap, ids: seq<string>, b2: BlocksMap)
    requires Valid(b) && b1.entries == Normalized(b) && ids == Filter(b.order, RefersTo(b, p))
    requires b2.entries.Keys == b1.entries.Keys
    requires forall k | k in b1.entries ::
      b2.entries[k] == if k in ids then YMap(Fields(b1, k)[Constants.PREV_ID := Str(v)]) else b1.entries[k]
    ensures b2.entries == Repoint(b, p, v)
  {
    var r := Repoint(b, p, v);
    forall k | k in b.entries
      ensures b2.entries[k] == r[k]
    {
      assert k in b.order;
      assert (k in ids) == RefersTo(b, p)(k);
      assert Fields(b1, k) == Fields(b, k);
    }
    MapsEqual(b2.entries, r);
  }

  /**
   * `handle_prev_id_chain`: with a `prevId`, the block takes the place right after it, so
   * every block that followed that `prevId` now follows `blockId`. Without one nothing
   * changes. It never fails.
   */
  method HandlePrevIdChain(b: BlocksMap, blockId: string, prevId: Option<string>) returns (b': BlocksMap)
    requires Valid(b)
    ensures Valid(b') && b'.order == b.order && b'.entries.Keys == b.entries.Keys
    ensures prevId.None? ==> b' == b
    ensures prevId.Some? ==> b'.entries == Repoint(b, prevId.value, blockId) && AllMaps(b')
    ensures forall k, f | f != Constants.PREV_ID :: Field(b', k, f) == Field(b, k, f)
    ensures forall k ::
      Field(b', k, Constants.PREV_ID) == (if prevId.Some? && PrevIdOf(b, k) == prevId then Some(Str(blockId)) else Field(b, k, Constants.PREV_ID))
  {
    b' := b;
    if prevId.Some? {
      var ids;
      var b1;
      b1, ids := FindBlockReferencingPrevId(b, prevId.value);
      b' := SetPrevIds(b1, ids, blockId);
      SetAfterFindIsRepoint(b, prevId.value, blockId, b1, ids, b');
      RepointFields(b, prevId.value, blockId, b');
    }
  }

  /** `handle_prev_id_chain` as the insert relies on it, field by field. */
  method FollowInstead(b: BlocksMap, blockId: string, prevId: Option<string>) returns (b': BlocksMap)
    requires Valid(b)
    ensures Valid(b') && b'.entries.Keys == b.entries.Keys
    ensures prevId.Some? ==> AllMaps(b')
    ensures prevId.None? ==> b' == b
    ensures forall k, f | f != Constants.PREV_ID :: Field(b', k, f) == Field(b, k, f)
    ensures forall k ::
      Field(b', k, Constants.PREV_ID) == (if prevId.Some? && PrevIdOf(b, k) == prevId then Some(Str(blockId)) else Field(b, k, Constants.PREV_ID))
  {
    b' := HandlePrevIdChain(b, blockId, prevId);
  }

  /**
   * A block that followed a removed block: it now follows the removed block's `prevId`, or,
   * when there is none, it loses its `prevId` and takes `origin` into its attributes.
   */
  function Relinked(fields: map<string, Out>, prev: Option<string>, origin: map<string, Out>): Out
  {
    if prev.Some? then YMap(fields[Constants.PREV_ID := Str(prev.value)])
    else YMap(WithAttrs(fields - {Constants.PREV_ID}, origin))
  }

  /**
   * What `remove_block_from_prev_id_chain` leaves: every block that followed `x` now
   * follows `x`'s own `prevId`; when `x` has none, those blocks lose their `prevId` and
   * take `x`'s top-level device and timestamp into their attributes, becoming chain heads
   * of `x`'s origin. Every other entry is read as a map.
   */
  function Unlink(b: BlocksMap, x: string): map<string, Out>
  {
    map k | k in b.entries.Keys + {x} ::
      if PrevIdOf(b, k) == Some(x) then Relinked(Fields(b, k), PrevIdOf(b, x), OriginOf(Fields(b, x)))
      else if k in b.entries then AsMap(b.entries[k])
      else YMap(map[])
  }

  /** The loop of `remove_block_from_prev_id_chain` over the blocks that followed `blockId`. */
  method RelinkFollowers(b: BlocksMap, blockId: string, ids: seq<string>, prev: Option<string>) returns (b': BlocksMap)
    requires Valid(b) && NoDup(ids) && forall id | id in ids :: id in b.entries
    requires prev.None? ==> blockId !in ids
    ensures Valid(b') && b'.order == b.order && b'.entries.Keys == b.entries.Keys
    ensures forall k | k in b.entries ::
      b'.entries[k] == if k in ids then Relinked(Fields(b, k), prev, OriginOf(Fields(b, blockId))) else b.entries[k]
  {
    b' := b;
    var i := 0;
    while i < |ids|
      invariant 0 <= i <= |ids|
      invariant Valid(b') && b'.order == b.order && b'.entries.Keys == b.entries.Keys
      invariant forall k | k in b.entries ::
        b'.entries[k] == if k in ids[..i] then Relinked(Fields(b, k), prev, OriginOf(Fields(b, blockId))) else b.entries[k]
    {
      var n := ids[i];
      assert n !in ids[..i];
      assert Fields(b', n) == Fields(b, n);
      if prev.Some? {
        b' := SetField(b', n, Constants.PREV_ID, Str(prev.value));
      } else {
        assert blockId !in ids[..i];
        assert Fields(b', blockId) == Fields(b, blockId);
        b' := RemoveField(b', n, Constants.PREV_ID);
        b' := Put(b', n, YMap(WithAttrs(Fields(b', n), OriginOf(Fields(b', blockId)))));
      }
      PrefixSnoc(ids, i);
      i := i + 1;
    }
    assert ids[..i] == ids;
  }

  /** Relinking the blocks found to follow `x`, after `x` was read as a map, is `Unlink`. */
  lemma RelinkIsUnlink(b: BlocksMap, x: string, b1: BlocksMap, b2: BlocksMap, ids: seq<string>, b3: BlocksMap)
    requires Valid(b) && b1 == InitMap(b, x) && Valid(b1)
    requires b2.entries == Normalized(b1) && ids == Filter(b1.order, RefersTo(b1, x))
    requires b3.entries.Keys == b2.entries.Keys
    requires forall k | k in b2.entries ::
      b3.entries[k] == if k in ids then Relinked(Fields(b2, k), PrevIdOf(b1, x), OriginOf(Fields(b2, x))) else b2.entries[k]
    ensures b3.entries == Unlink(b, x)
  {
    assert Fields(b2, x) == Fields(b, x);
    var u := Unlink(b, x);
    assert u.Keys == b3.entries.Keys;
    forall k | k in b3.entries
      ensures b3.entries[k] == u[k]
    {
      RelinkIsUnlinkAt(b, x, b1, b2, ids, k);
    }
    MapsEqual(b3.entries, u);
  }

  lemma RelinkIsUnlinkAt(b: BlocksMap, x: string, b1: BlocksMap, b2: BlocksMap, ids: seq<string>, k: string)
    requires Valid(b) && b1 == InitMap(b, x) && Valid(b1)
    requires b2.entries == Normalized(b1) && ids == Filter(b1.order, RefersTo(b1, x))
    requires k in b2.entries
    ensures Unlink(b, x)[k] ==
      if k in ids then Relinked(Fields(b2, k), PrevIdOf(b1, x), OriginOf(Fields(b2, x))) else b2.entries[k]
  {
    assert k in b1.order;
    assert (k in ids) == RefersTo(b1, x)(k);
    assert Fields(b2, k) == Fields(b1, k) == Fields(b, k);
    assert Fields(b2, x) == Fields(b1, x) == Fields(b, x);
  }

  /** `remove_block_from_prev_id_chain`: closes the gap `blockId` leaves in its chain. */
  method RemoveBlockFromPrevIdChain(b: BlocksMap, blockId: string) returns (b': BlocksMap)
    requires Valid(b)
    ensures Valid(b') && b'.entries.Keys == b.entries.Keys + {blockId}
    ensures forall k | k in b'.entries :: b'.entries[k].YMap?
    ensures blockId in b.entries ==> b'.order == b.order
    ensures forall k, f | f != Constants.PREV_ID && f != Constants.ATTRIBUTES :: Field(b', k, f) == Field(b, k, f)
    ensures forall k ::
      Field(b', k, Constants.PREV_ID)
      == if PrevIdOf(b, k) != Some(blockId) then Field(b, k, Constants.PREV_ID)
         else if PrevIdOf(b, blockId).Some? then Some(Str(PrevIdOf(b, blockId).value))
         else None
    ensures forall k ::
      Field(b', k, Constants.ATTRIBUTES)
      == if PrevIdOf(b, k) == Some(blockId) && PrevIdOf(b, blockId).None? then Some(YMap(AttrsOf(Fields(b, k)) + OriginOf(Fields(b, blockId))))
         else Field(b, k, Constants.ATTRIBUTES)
    ensures PrevIdOf(b, blockId) != Some(blockId) ==> forall k :: PrevIdOf(b', k) != Some(blockId)
  {
    var b1 := InitMap(b, blockId);
    var prev := PrevIdOf(b1, blockId);
    var b2, nextBlocks := FindBlockReferencingPrevId(b1, blockId);
    FilterNoDup(b1.order, RefersTo(b1, blockId));
    b' := RelinkFollowers(b2, blockId, nextBlocks, prev);
    RelinkIsUnlink(b, blockId, b1, b2, nextBlocks, b');
    UnlinkOtherFields(b, blockId, b');
    UnlinkPrevField(b, blockId, b');
    UnlinkAttrsField(b, blockId, b');
  }

  /** What `remove_block_from_prev_id_chain` does to each field, block by block. */
  lemma UnlinkOtherFields(b: BlocksMap, x: string, b': BlocksMap)
    requires b'.entries == Unlink(b, x)
    ensures forall k, f | f != Constants.PREV_ID && f != Constants.ATTRIBUTES :: Field(b', k, f) == Field(b, k, f)
    ensures forall k | k in b'.entries :: b'.entries[k].YMap?
  {
  }

  lemma UnlinkPrevField(b: BlocksMap, x: string, b': BlocksMap)
    requires b'.entries == Unlink(b, x)
    ensures forall k ::
      Field(b', k, Constants.PREV_ID)
      == if PrevIdOf(b, k) != Some(x) then Field(b, k, Constants.PREV_ID)
         else if PrevIdOf(b, x).Some? then Some(Str(PrevIdOf(b, x).value))
         else None
    ensures PrevIdOf(b, x) != Some(x) ==> forall k :: PrevIdOf(b', k) != Some(x)
  {
  }

  lemma UnlinkAttrsField(b: BlocksMap, x: string, b': BlocksMap)
    requires b'.entries == Unlink(b, x)
    ensures forall k ::
      Field(b', k, Constants.ATTRIBUTES)
      == if PrevIdOf(b, k) == Some(x) && PrevIdOf(b, x).None? then Some(YMap(AttrsOf(Fields(b, k)) + OriginOf(Fields(b, x))))
         else Field(b, k, Constants.ATTRIBUTES)
  {
  }

  // ---------------------------------------------------------------------------------------
  // Reading fields through their values

  lemma PrevIdFromField(b: BlocksMap, b': BlocksMap, k: string)
    requires Field(b', k, Constants.PREV_ID) == Field(b, k, Constants.PREV_ID)
    ensures PrevIdOf(b', k) == PrevIdOf(b, k)
  {
  }

  lemma AttrsFromField(b: BlocksMap, b': BlocksMap, k: string)
    requires Field(b', k, Constants.ATTRIBUTES) == Field(b, k, Constants.ATTRIBUTES)
    ensures AttrsOf(Fields(b', k)) == AttrsOf(Fields(b, k))
  {
  }

  lemma OriginFromFields(b: BlocksMap, b': BlocksMap, k: string)
    requires Field(b', k, Constants.DEVICE) == Field(b, k, Constants.DEVICE)
    requires Field(b', k, Constants.TIMESTAMP) == Field(b, k, Constants.TIMESTAMP)
    ensures OriginOf(Fields(b', k)) == OriginOf(Fields(b, k))
  {
  }

  /** The names of a block's fields are pairwise different. */
  lemma FieldNamesDiffer()
    ensures Constants.ID != Constants.TYPE && Constants.ID != Constants.PARENT_ID && Constants.ID != Constants.ATTRIBUTES
    ensures Constants.ID != Constants.TEXT && Constants.ID != Constants.PREV_ID && Constants.ID != Constants.DEVICE
    ensures Constants.ID != Constants.TIMESTAMP && Constants.TYPE != Constants.PARENT_ID && Constants.TYPE != Constants.ATTRIBUTES
    ensures Constants.TYPE != Constants.TEXT && Constants.TYPE != Constants.PREV_ID && Constants.TYPE != Constants.DEVICE
    ensures Constants.TYPE != Constants.TIMESTAMP && Constants.PARENT_ID != Constants.ATTRIBUTES && Constants.PARENT_ID != Constants.TEXT
    ensures Constants.PARENT_ID != Constants.PREV_ID && Constants.PARENT_ID != Constants.DEVICE && Constants.PARENT_ID != Constants.TIMESTAMP
    ensures Constants.ATTRIBUTES != Constants.TEXT && Constants.ATTRIBUTES != Constants.PREV_ID && Constants.ATTRIBUTES != Constants.DEVICE
    ensures Constants.ATTRIBUTES != Constants.TIMESTAMP && Constants.TEXT != Constants.PREV_ID && Constants.TEXT != Constants.DEVICE
    ensures Constants.TEXT != Constants.TIMESTAMP && Constants.PREV_ID != Constants.DEVICE && Constants.PREV_ID != Constants.TIMESTAMP
    ensures Constants.DEVICE != Constants.TIMESTAMP
  {
  }

  lemma SetFieldFields(b: BlocksMap, id: string, g: string, v: Out, b': BlocksMap)
    requires b'.entries == b.entries[id := YMap(Fields(b, id)[g := v])]
    ensures Field(b', id, g) == Some(v)
    ensures forall k, f | !(k == id && f == g) :: Field(b', k, f) == Field(b, k, f)
  {
  }

  lemma RemoveFieldFields(b: BlocksMap, id: string, g: string, b': BlocksMap)
    requires b'.entries == b.entries[id := YMap(Fields(b, id) - {g})]
    ensures Field(b', id, g) == None
    ensures forall k, f | !(k == id && f == g) :: Field(b', k, f) == Field(b, k, f)
  {
  }

  lemma InitMapFields(b: BlocksMap, id: string, b': BlocksMap)
    requires Valid(b) && b' == InitMap(b, id)
    ensures forall k, f :: Field(b', k, f) == Field(b, k, f)
  {
    forall k, f
      ensures Field(b', k, f) == Field(b, k, f)
    {
      assert Fields(b', k) == Fields(b, k);
    }
  }

  lemma AddAttrsFields(b: BlocksMap, id: string, extra: map<string, Out>, b': BlocksMap)
    requires b'.entries == b.entries[id := YMap(WithAttrs(Fields(b, id), extra))]
    ensures AttrsOf(Fields(b', id)) == AttrsOf(Fields(b, id)) + extra
    ensures Field(b', id, Constants.ATTRIBUTES) == Some(YMap(AttrsOf(Fields(b, id)) + extra))
    ensures forall k, f | !(k == id && f == Constants.ATTRIBUTES) :: Field(b', k, f) == Field(b, k, f)
  {
  }

  // ---------------------------------------------------------------------------------------
  // The following block

  /**
   * `handle_following_connection`: with a `prevId`, the blocks that followed it are pointed
   * at `blockId` (the same repair as `handle_prev_id_chain`). With a `nextId`, that block
   * is made to follow `blockId`, and `blockId` takes the next block's top-level device and
   * timestamp into its attributes. It never fails.
   */
  method HandleFollowingConnection(b: BlocksMap, blockId: string, nextId: Option<string>, prevId: Option<string>)
    returns (b': BlocksMap)
    requires Valid(b)
    ensures Valid(b')
    ensures b'.entries.Keys == b.entries.Keys + (if nextId.Some? then {nextId.value, blockId} else {})
    ensures nextId.Some? ==> Field(b', nextId.value, Constants.PREV_ID) == Some(Str(blockId))
    ensures nextId.Some? ==>
      AttrsOf(Fields(b', blockId)) == AttrsOf(Fields(b, blockId)) + OriginOf(Fields(b, nextId.value))
    ensures forall k, f | f != Constants.PREV_ID && !(k == blockId && f == Constants.ATTRIBUTES) ::
      Field(b', k, f) == Field(b, k, f)
    ensures nextId.None? ==> Field(b', blockId, Constants.ATTRIBUTES) == Field(b, blockId, Constants.ATTRIBUTES)
    ensures forall k | Some(k) != nextId ::
      Field(b', k, Constants.PREV_ID)
      == if prevId.Some? && PrevIdOf(b, k) == prevId then Some(Str(blockId)) else Field(b, k, Constants.PREV_ID)
    ensures prevId.Some? || AllMaps(b) ==> AllMaps(b')
    ensures prevId.None? ==> OthersUnchanged(b, b', {blockId} + (if nextId.Some? then {nextId.value} else {}))
  {
    b' := FollowInstead(b, blockId, prevId);
    if nextId.Some? {
      ghost var b1 := b';
      OriginFromFields(b, b1, nextId.value);
      AttrsFromField(b, b1, blockId);
      b' := LinkNext(b', blockId, nextId.value);
    }
  }

  /** The `nextId` half of `handle_following_connection`. */
  method LinkNext(b: BlocksMap, blockId: string, n: string) returns (b': BlocksMap)
    requires Valid(b)
    ensures Valid(b') && b'.entries.Keys == b.entries.Keys + {n, blockId}
    ensures Field(b', n, Constants.PREV_ID) == Some(Str(blockId))
    ensures AttrsOf(Fields(b', blockId)) == AttrsOf(Fields(b, blockId)) + OriginOf(Fields(b, n))
    ensures forall k, f | !(k == n && f == Constants.PREV_ID) && !(k == blockId && f == Constants.ATTRIBUTES) ::
      Field(b', k, f) == Field(b, k, f)
    ensures AllMaps(b) ==> AllMaps(b')
    ensures OthersUnchanged(b, b', {n, blockId})
  {
    var b1 := SetField(b, n, Constants.PREV_ID, Str(blockId));
    SetFieldFields(b, n, Constants.PREV_ID, Str(blockId), b1);
    PutMapShape(b, n, YMap(Fields(b, n)[Constants.PREV_ID := Str(blockId)]));
    OriginFromFields(b, b1, n);
    AttrsFromField(b, b1, blockId);
    b' := AddAttrs(b1, blockId, OriginOf(Fields(b1, n)));
    OthersUnchangedTrans(b, b1, b', {n}, {blockId});
    assert {n} + {blockId} == {n, blockId};
  }

  /** `get_or_init_map(ATTRIBUTES)` on block `id`, then `extra` inserted into that map. */
  method AddAttrs(b: BlocksMap, id: string, extra: map<string, Out>) returns (b': BlocksMap)
    requires Valid(b)
    ensures Valid(b') && b'.entries.Keys == b.entries.Keys + {id}
    ensures AttrsOf(Fields(b', id)) == AttrsOf(Fields(b, id)) + extra
    ensures forall k, f | !(k == id && f == Constants.ATTRIBUTES) :: Field(b', k, f) == Field(b, k, f)
    ensures AllMaps(b) ==> AllMaps(b')
    ensures OthersUnchanged(b, b', {id})
  {
    var b1 := InitMap(b, id);
    InitMapFields(b, id, b1);
    var v := YMap(WithAttrs(Fields(b1, id), extra));
    b' := Put(b1, id, v);
    AddAttrsFields(b1, id, extra, b');
    PutMapShape(b1, id, v);
  }

  // ---------------------------------------------------------------------------------------
  // Writing a block

  /** The text stored under a block's "text" key; none reads as the empty text. */
  function TextOf(fields: map<string, Out>): Text
  {
    if Constants.TEXT in fields && fields[Constants.TEXT].YText? then fields[Constants.TEXT].text else Text([])
  }

  /** The attributes the editor sends, as the string values they are stored as. */
  function StrAttrs(attrs: map<string, string>): (r: map<string, Out>)
    ensures r.Keys == attrs.Keys
  {
    map k | k in attrs :: Str(attrs[k])
  }

  /** The parent an insert names; `DEFAULT_PARENT` when it names none. */
  function ParentOf(block: BlockDoc): string
  {
    block.parentId.UnwrapOr(Constants.DEFAULT_PARENT)
  }

  /**
   * `get_or_init_text(TEXT)` on block `id` followed by `apply_delta_to_text`: a block
   * without text gets an empty one, which the delta then edits. A delta that does not
   * parse leaves the text as it was and reports the error.
   */
  method EditText(b: BlocksMap, id: string, delta: string, diff: (Json, string) -> Option<Json>)
    returns (b': BlocksMap, r: Outcome<()>)
    requires Valid(b)
    ensures Valid(b') && b'.entries.Keys == b.entries.Keys + {id}
    ensures r.Ok? <==> DeltaOps.DeltaEdit(TextOf(Fields(b, id)), delta, diff).Ok?
    ensures r.Err? ==> r.error == DeltaOps.DeltaEdit(TextOf(Fields(b, id)), delta, diff).error
    ensures Field(b', id, Constants.TEXT)
      == Some(YText(if r.Ok? then DeltaOps.DeltaEdit(TextOf(Fields(b, id)), delta, diff).value else TextOf(Fields(b, id))))
    ensures forall k, f | !(k == id && f == Constants.TEXT) :: Field(b', k, f) == Field(b, k, f)
    ensures b'.entries[id].YMap? && OthersUnchanged(b, b', {id})
  {
    var t := TextOf(Fields(b, id));
    var b1 := SetField(b, id, Constants.TEXT, YText(t));
    SetFieldFields(b, id, Constants.TEXT, YText(t), b1);
    var edited;
    edited, r := DeltaOps.ApplyDeltaToText(t, delta, diff);
    b' := SetField(b1, id, Constants.TEXT, YText(edited));
    SetFieldFields(b1, id, Constants.TEXT, YText(edited), b');
  }

  /** The first writes of `insert_node`: id, type, parent (unless the default one) and attributes. */
  method WriteNode(b: BlocksMap, block: BlockDoc) returns (b': BlocksMap)
    requires Valid(b)
    ensures Valid(b') && b'.entries.Keys == b.entries.Keys + {block.id}
    ensures Field(b', block.id, Constants.ID) == Some(Str(block.id))
    ensures Field(b', block.id, Constants.TYPE) == Some(Str(block.ty))
    ensures Field(b', block.id, Constants.PARENT_ID)
      == if ParentOf(block) != Constants.DEFAULT_PARENT then Some(Str(ParentOf(block))) else Field(b, block.id, Constants.PARENT_ID)
    ensures Field(b', block.id, Constants.ATTRIBUTES) == Some(YMap(StrAttrs(block.attributes)))
    ensures forall k, f | !(k == block.id && f in {Constants.ID, Constants.TYPE, Constants.PARENT_ID, Constants.ATTRIBUTES}) ::
      Field(b', k, f) == Field(b, k, f)
    ensures b'.entries[block.id].YMap?
    ensures forall k | k in b.entries && k != block.id :: b'.entries[k] == b.entries[k]
    ensures b'.order == b.order || (block.id !in b.entries && b'.order == b.order + [block.id])
  {
    var b3 := WriteIdAndType(b, block.id, block.ty);
    b' := SetParentAndAttrs(b3, block.id, ParentOf(block), block.attributes);
    assert |Constants.ID| == 2 && |Constants.TYPE| == 4 && |Constants.PARENT_ID| == 8 && |Constants.ATTRIBUTES| == 10;
  }

  method SetParentAndAttrs(b: BlocksMap, id: string, parentId: string, attrs: map<string, string>) returns (b': BlocksMap)
    requires Valid(b) && id in b.entries
    ensures Valid(b') && b'.entries.Keys == b.entries.Keys && b'.order == b.order
    ensures Field(b', id, Constants.PARENT_ID)
      == if parentId != Constants.DEFAULT_PARENT then Some(Str(parentId)) else Field(b, id, Constants.PARENT_ID)
    ensures Field(b', id, Constants.ATTRIBUTES) == Some(YMap(StrAttrs(attrs)))
    ensures forall k, f | !(k == id && f in {Constants.PARENT_ID, Constants.ATTRIBUTES}) :: Field(b', k, f) == Field(b, k, f)
    ensures b'.entries[id].YMap?
    ensures forall k | k in b.entries && k != id :: b'.entries[k] == b.entries[k]
  {
    var b1 := b;
    if parentId != Constants.DEFAULT_PARENT {
      b1 := SetField(b, id, Constants.PARENT_ID, Str(parentId));
      SetFieldFields(b, id, Constants.PARENT_ID, Str(parentId), b1);
    }
    b' := SetField(b1, id, Constants.ATTRIBUTES, YMap(StrAttrs(attrs)));
    SetFieldFields(b1, id, Constants.ATTRIBUTES, YMap(StrAttrs(attrs)), b');
    assert |Constants.PARENT_ID| == 8 && |Constants.ATTRIBUTES| == 10;
  }

  /** `get_or_init_map(id)` and the block's id and type. */
  method WriteIdAndType(b: BlocksMap, id: string, ty: string) returns (b': BlocksMap)
    requires Valid(b)
    ensures Valid(b') && b'.entries.Keys == b.entries.Keys + {id}
    ensures Field(b', id, Constants.ID) == Some(Str(id))
    ensures Field(b', id, Constants.TYPE) == Some(Str(ty))
    ensures forall k, f | !(k == id && f in {Constants.ID, Constants.TYPE}) :: Field(b', k, f) == Field(b, k, f)
    ensures b'.entries[id].YMap?
    ensures forall k | k in b.entries && k != id :: b'.entries[k] == b.entries[k]
    ensures b'.order == b.order || (id !in b.entries && b'.order == b.order + [id])
  {
    var b1 := InitMap(b, id);
    InitMapOrder(b, id);
    InitMapFields(b, id, b1);
    b' := SetIdAndType(b1, id, ty);
  }

  method SetIdAndType(b: BlocksMap, id: string, ty: string) returns (b': BlocksMap)
    requires Valid(b) && id in b.entries
    ensures Valid(b') && b'.entries.Keys == b.entries.Keys && b'.order == b.order
    ensures Field(b', id, Constants.ID) == Some(Str(id))
    ensures Field(b', id, Constants.TYPE) == Some(Str(ty))
    ensures forall k, f | !(k == id && f in {Constants.ID, Constants.TYPE}) :: Field(b', k, f) == Field(b, k, f)
    ensures b'.entries[id].YMap?
    ensures forall k | k in b.entries && k != id :: b'.entries[k] == b.entries[k]
  {
    var b1 := SetField(b, id, Constants.ID, Str(id));
    SetFieldFields(b, id, Constants.ID, Str(id), b1);
    b' := SetField(b1, id, Constants.TYPE, Str(ty));
    SetFieldFields(b1, id, Constants.TYPE, Str(ty), b');
    assert |Constants.ID| == 2 && |Constants.TYPE| == 4;
  }

  /** What the delta of an insert or update makes of the block's current text. */
  function NewText(b: BlocksMap, block: BlockDoc, diff: (Json, string) -> Option<Json>): Outcome<Text>
    requires block.delta.Some?
  {
    DeltaOps.DeltaEdit(TextOf(Fields(b, block.id)), block.delta.value, diff)
  }

  /**
   * What `insert_node` leaves. The block has the id, type and parent written, and its text
   * edited by the delta; a delta that fails stops the insert there, with the block's
   * attributes written and every other block untouched. Otherwise the blocks that followed
   * its `prevId` now follow it, its `nextId` block follows it and lends it its origin, and
   * it follows its `prevId`; nothing else changes field by field. The search for the blocks
   * following `prevId` reads every entry through `get_or_init_map`, so with a `prevId` every
   * entry is a map afterwards; without one, and after a failed delta, the other entries are
   * exactly as they were.
   */
  ghost predicate InsertSpec(b: BlocksMap, block: BlockDoc, diff: (Json, string) -> Option<Json>, b': BlocksMap, r: Outcome<()>)
  {
    && (r.Err? <==> block.delta.Some? && NewText(b, block, diff).Err?)
    && (r.Err? ==> r.error == NewText(b, block, diff).error)
    && Field(b', block.id, Constants.ID) == Some(Str(block.id))
    && Field(b', block.id, Constants.TYPE) == Some(Str(block.ty))
    && Field(b', block.id, Constants.PARENT_ID)
       == (if ParentOf(block) != Constants.DEFAULT_PARENT then Some(Str(ParentOf(block))) else Field(b, block.id, Constants.PARENT_ID))
    && (block.delta.None? ==> Field(b', block.id, Constants.TEXT) == Field(b, block.id, Constants.TEXT))
    && (block.delta.Some? ==>
          Field(b', block.id, Constants.TEXT) == Some(YText(if r.Ok? then NewText(b, block, diff).value else TextOf(Fields(b, block.id)))))
    && (forall f | f !in {Constants.ID, Constants.TYPE, Constants.PARENT_ID, Constants.TEXT, Constants.ATTRIBUTES, Constants.PREV_ID} ::
          Field(b', block.id, f) == Field(b, block.id, f))
    && Field(b', block.id, Constants.PREV_ID)
       == (if r.Ok? && block.prevId.Some? then Some(Str(block.prevId.value))
           else if r.Ok? && block.nextId == Some(block.id) then Some(Str(block.id))
           else Field(b, block.id, Constants.PREV_ID))
    && (r.Err? ==> Field(b', block.id, Constants.ATTRIBUTES) == Some(YMap(StrAttrs(block.attributes))))
    && (r.Err? ==> forall k, f | k != block.id :: Field(b', k, f) == Field(b, k, f))
    && (r.Ok? ==> b'.entries.Keys == b.entries.Keys + {block.id} + (if block.nextId.Some? then {block.nextId.value} else {}))
    && (r.Ok? ==>
          AttrsOf(Fields(b', block.id)) == StrAttrs(block.attributes) + (if block.nextId.Some? then OriginOf(Fields(b, block.nextId.value)) else map[]))
    && (r.Ok? && block.nextId.Some? && block.nextId.value != block.id ==>
          && Field(b', block.nextId.value, Constants.PREV_ID) == Some(Str(block.id))
          && forall f | f != Constants.PREV_ID :: Field(b', block.nextId.value, f) == Field(b, block.nextId.value, f))
    && (r.Ok? ==> forall k | k != block.id && Some(k) != block.nextId && block.prevId.Some? && PrevIdOf(b, k) == block.prevId ::
          Field(b', k, Constants.PREV_ID) == Some(Str(block.id)))
    && (r.Ok? ==> forall k, f | k != block.id && Some(k) != block.nextId
          && !(f == Constants.PREV_ID && block.prevId.Some? && PrevIdOf(b, k) == block.prevId) ::
          Field(b', k, f) == Field(b, k, f))
    && (r.Err? ==> OthersUnchanged(b, b', {block.id}))
    && (r.Ok? && block.prevId.None? ==>
          OthersUnchanged(b, b', {block.id} + (if block.nextId.Some? then {block.nextId.value} else {})))
    && (r.Ok? && block.prevId.Some? ==> AllMaps(b'))
  }

  /**
   * `insert_node`: writes the block's id, type, parent and attributes, edits its text with
   * the delta, then links it into its chain. A delta that fails stops the insert after the
   * first writes.
   */
  method InsertNode(b: BlocksMap, block: BlockDoc, diff: (Json, string) -> Option<Json>)
    returns (b': BlocksMap, r: Outcome<()>)
    requires Valid(b)
    ensures Valid(b') && InsertSpec(b, block, diff, b', r)
  {
    var b2;
    b2, r := WriteAndEdit(b, block, diff);
    if r.Err? {
      b' := b2;
      InsertFailed(b, block, diff, b2, r);
      return;
    }
    b' := LinkNode(b2, block);
    InsertLinked(b, block, diff, b2, b', r);
  }

  /** A delta that fails stops `insert_node` after the first writes. */
  lemma InsertFailed(b: BlocksMap, block: BlockDoc, diff: (Json, string) -> Option<Json>, b2: BlocksMap, r: Outcome<()>)
    requires WriteAndEditSpec(b, block, diff, b2, r) && r.Err?
    ensures InsertSpec(b, block, diff, b2, r)
  {
    assert |Constants.PREV_ID| == 6 && |Constants.ID| == 2 && |Constants.TYPE| == 4 && |Constants.TEXT| == 4;
    assert |Constants.ATTRIBUTES| == 10 && |Constants.PARENT_ID| == 8;
  }

  /** The first writes, then the chain links, make up `insert_node`. */
  lemma InsertLinked(b: BlocksMap, block: BlockDoc, diff: (Json, string) -> Option<Json>, b2: BlocksMap, b': BlocksMap,
                     r: Outcome<()>)
    requires b2.entries.Keys == b.entries.Keys + {block.id}
    requires WriteAndEditSpec(b, block, diff, b2, r) && r.Ok?
    requires LinkNodeSpec(b2, block, b')
    ensures InsertSpec(b, block, diff, b', r)
  {
    InsertNodeCompose(b, block, b2, b');
    if block.prevId.None? {
      WriteThenLinkFrame(b, b2, b', block.id, block.nextId);
    }
    GrowKeys(b.entries.Keys, b2.entries.Keys, b'.entries.Keys, block.id, block.nextId);
    assert |Constants.PREV_ID| == 6 && |Constants.ID| == 2 && |Constants.TYPE| == 4 && |Constants.TEXT| == 4;
    assert |Constants.ATTRIBUTES| == 10 && |Constants.PARENT_ID| == 8;
  }

  /** What the first writes of `insert_node` leave: the block's own fields written, the text edited, nothing else changed. */
  ghost predicate WriteAndEditSpec(b: BlocksMap, block: BlockDoc, diff: (Json, string) -> Option<Json>, b': BlocksMap, r: Outcome<()>)
  {
    && (r.Err? <==> block.delta.Some? && NewText(b, block, diff).Err?)
    && (r.Err? ==> r.error == NewText(b, block, diff).error)
    && Field(b', block.id, Constants.ID) == Some(Str(block.id))
    && Field(b', block.id, Constants.TYPE) == Some(Str(block.ty))
    && (Field(b', block.id, Constants.PARENT_ID)
        == if ParentOf(block) != Constants.DEFAULT_PARENT then Some(Str(ParentOf(block))) else Field(b, block.id, Constants.PARENT_ID))
    && Field(b', block.id, Constants.ATTRIBUTES) == Some(YMap(StrAttrs(block.attributes)))
    && (block.delta.None? ==> Field(b', block.id, Constants.TEXT) == Field(b, block.id, Constants.TEXT))
    && (block.delta.Some? ==>
        Field(b', block.id, Constants.TEXT) == Some(YText(if r.Ok? then NewText(b, block, diff).value else TextOf(Fields(b, block.id)))))
    && (forall f | f !in {Constants.ID, Constants.TYPE, Constants.PARENT_ID, Constants.ATTRIBUTES, Constants.TEXT} ::
        Field(b', block.id, f) == Field(b, block.id, f))
    && (forall k, f | k != block.id :: Field(b', k, f) == Field(b, k, f))
    && OthersUnchanged(b, b', {block.id})
  }

  /** The first writes of `insert_node`: id, type, parent and attributes, then the text edited by the delta. */
  method WriteAndEdit(b: BlocksMap, block: BlockDoc, diff: (Json, string) -> Option<Json>)
    returns (b': BlocksMap, r: Outcome<()>)
    requires Valid(b)
    ensures Valid(b') && b'.entries.Keys == b.entries.Keys + {block.id}
    ensures WriteAndEditSpec(b, block, diff, b', r)
  {
    var id := block.id;
    var b1 := WriteNode(b, block);
    FieldNamesDiffer();
    b', r := b1, Ok(());
    if block.delta.Some? {
      assert Field(b1, id, Constants.TEXT) == Field(b, id, Constants.TEXT);
      assert TextOf(Fields(b1, id)) == TextOf(Fields(b, id));
      b', r := EditText(b1, id, block.delta.value, diff);
      OthersUnchangedTrans(b, b1, b', {id}, {id});
    }
  }

  /** The entries other than the block and its `nextId` survive the writes and the link. */
  lemma WriteThenLinkFrame(b: BlocksMap, b1: BlocksMap, b2: BlocksMap, id: string, nextId: Option<string>)
    requires OthersUnchanged(b, b1, {id})
    requires OthersUnchanged(b1, b2, {id} + (if nextId.Some? then {nextId.value} else {}))
    ensures OthersUnchanged(b, b2, {id} + (if nextId.Some? then {nextId.value} else {}))
  {
    var touched := {id} + (if nextId.Some? then {nextId.value} else {});
    OthersUnchangedTrans(b, b1, b2, {id}, touched);
    assert {id} + touched == touched;
  }

  lemma GrowKeys(k0: set<string>, k1: set<string>, k2: set<string>, x: string, n: Option<string>)
    requires k1 == k0 + {x}
    requires k2 == k1 + (if n.Some? then {n.value} else {})
    ensures k2 == k0 + {x} + (if n.Some? then {n.value} else {})
  {
  }

  /** What the chain links of `insert_node` change, as `LinkNode` makes them. */
  ghost predicate LinkNodeSpec(b: BlocksMap, block: BlockDoc, b': BlocksMap)
  {
    && b'.entries.Keys == b.entries.Keys + (if block.nextId.Some? then {block.nextId.value} else {})
    && (AttrsOf(Fields(b', block.id))
        == AttrsOf(Fields(b, block.id)) + (if block.nextId.Some? then OriginOf(Fields(b, block.nextId.value)) else map[]))
    && (Field(b', block.id, Constants.PREV_ID)
        == if block.prevId.Some? then Some(Str(block.prevId.value))
           else if block.nextId == Some(block.id) then Some(Str(block.id))
           else Field(b, block.id, Constants.PREV_ID))
    && (block.nextId.Some? && block.nextId.value != block.id ==>
        && Field(b', block.nextId.value, Constants.PREV_ID) == Some(Str(block.id))
        && forall f | f != Constants.PREV_ID :: Field(b', block.nextId.value, f) == Field(b, block.nextId.value, f))
    && (forall k | k != block.id && Some(k) != block.nextId && block.prevId.Some? && PrevIdOf(b, k) == block.prevId ::
        Field(b', k, Constants.PREV_ID) == Some(Str(block.id)))
    && (forall k, f | k != block.id && Some(k) != block.nextId
        && !(f == Constants.PREV_ID && block.prevId.Some? && PrevIdOf(b, k) == block.prevId) ::
        Field(b', k, f) == Field(b, k, f))
    && (forall f | f != Constants.PREV_ID && f != Constants.ATTRIBUTES :: Field(b', block.id, f) == Field(b, block.id, f))
    && (block.prevId.Some? ==> AllMaps(b'))
    && (block.prevId.None? ==> OthersUnchanged(b, b', {block.id} + (if block.nextId.Some? then {block.nextId.value} else {})))
  }

  /**
   * The second half of `insert_node`: the blocks that followed the block's `prevId` now
   * follow it, its `nextId` block follows it and lends it its origin, and it follows its
   * `prevId`.
   */
  method LinkNode(b: BlocksMap, block: BlockDoc) returns (b': BlocksMap)
    requires Valid(b) && block.id in b.entries
    ensures Valid(b') && LinkNodeSpec(b, block, b')
  {
    var id := block.id;
    var b4 := Reconnect(b, block);
    b' := b4;
    if block.prevId.Some? {
      b' := SetField(b4, id, Constants.PREV_ID, Str(block.prevId.value));
      SetFieldFields(b4, id, Constants.PREV_ID, Str(block.prevId.value), b');
      PutMapShape(b4, id, YMap(Fields(b4, id)[Constants.PREV_ID := Str(block.prevId.value)]));
    }
    AttrsFromField(b4, b', id);
  }

  /** `handle_prev_id_chain` then `handle_following_connection`, as `LinkNode` relies on them. */
  method Reconnect(b: BlocksMap, block: BlockDoc) returns (b': BlocksMap)
    requires Valid(b) && block.id in b.entries
    ensures Valid(b')
    ensures b'.entries.Keys == b.entries.Keys + (if block.nextId.Some? then {block.nextId.value} else {})
    ensures AttrsOf(Fields(b', block.id))
      == AttrsOf(Fields(b, block.id)) + (if block.nextId.Some? then OriginOf(Fields(b, block.nextId.value)) else map[])
    ensures block.nextId.Some? ==> Field(b', block.nextId.value, Constants.PREV_ID) == Some(Str(block.id))
    ensures block.prevId.None? ==>
      Field(b', block.id, Constants.PREV_ID)
      == if block.nextId == Some(block.id) then Some(Str(block.id)) else Field(b, block.id, Constants.PREV_ID)
    ensures block.nextId.Some? && block.nextId.value != block.id ==>
      forall f | f != Constants.PREV_ID :: Field(b', block.nextId.value, f) == Field(b, block.nextId.value, f)
    ensures forall k | k != block.id && Some(k) != block.nextId && block.prevId.Some? && PrevIdOf(b, k) == block.prevId ::
      Field(b', k, Constants.PREV_ID) == Some(Str(block.id))
    ensures forall k, f | k != block.id && Some(k) != block.nextId
      && !(f == Constants.PREV_ID && block.prevId.Some? && PrevIdOf(b, k) == block.prevId) ::
      Field(b', k, f) == Field(b, k, f)
    ensures forall f | f != Constants.PREV_ID && f != Constants.ATTRIBUTES :: Field(b', block.id, f) == Field(b, block.id, f)
    ensures block.prevId.Some? ==> AllMaps(b')
    ensures block.prevId.None? ==> OthersUnchanged(b, b', {block.id} + (if block.nextId.Some? then {block.nextId.value} else {}))
  {
    var b3 := FollowInstead(b, block.id, block.prevId);
    b' := HandleFollowingConnection(b3, block.id, block.nextId, block.prevId);
    ReconnectFields(b, block, b3, b');
  }

  /** The two steps of `Reconnect`, field by field. */
  lemma ReconnectFields(b: BlocksMap, block: BlockDoc, b3: BlocksMap, b4: BlocksMap)
    requires forall k, f | f != Constants.PREV_ID :: Field(b3, k, f) == Field(b, k, f)
    requires forall k ::
      Field(b3, k, Constants.PREV_ID)
      == if block.prevId.Some? && PrevIdOf(b, k) == block.prevId then Some(Str(block.id)) else Field(b, k, Constants.PREV_ID)
    requires block.nextId.Some? ==>
      AttrsOf(Fields(b4, block.id)) == AttrsOf(Fields(b3, block.id)) + OriginOf(Fields(b3, block.nextId.value))
    requires forall k, f | f != Constants.PREV_ID && !(k == block.id && f == Constants.ATTRIBUTES) ::
      Field(b4, k, f) == Field(b3, k, f)
    requires block.nextId.None? ==> Field(b4, block.id, Constants.ATTRIBUTES) == Field(b3, block.id, Constants.ATTRIBUTES)
    requires forall k | Some(k) != block.nextId ::
      Field(b4, k, Constants.PREV_ID)
      == if block.prevId.Some? && PrevIdOf(b3, k) == block.prevId then Some(Str(block.id)) else Field(b3, k, Constants.PREV_ID)
    ensures AttrsOf(Fields(b4, block.id))
      == AttrsOf(Fields(b, block.id)) + (if block.nextId.Some? then OriginOf(Fields(b, block.nextId.value)) else map[])
    ensures forall k | k != block.id && Some(k) != block.nextId && block.prevId.Some? && PrevIdOf(b, k) == block.prevId ::
      Field(b4, k, Constants.PREV_ID) == Some(Str(block.id))
    ensures forall k, f | k != block.id && Some(k) != block.nextId
      && !(f == Constants.PREV_ID && block.prevId.Some? && PrevIdOf(b, k) == block.prevId) ::
      Field(b4, k, f) == Field(b, k, f)
    ensures forall f | f != Constants.PREV_ID && f != Constants.ATTRIBUTES :: Field(b4, block.id, f) == Field(b, block.id, f)
  {
    var id := block.id;
    AttrsFromField(b, b3, id);
    if block.nextId.Some? {
      OriginFromFields(b, b3, block.nextId.value);
    } else {
      AttrsFromField(b3, b4, id);
    }
    forall k | k != id && Some(k) != block.nextId && block.prevId.Some? && PrevIdOf(b, k) == block.prevId
      ensures Field(b4, k, Constants.PREV_ID) == Some(Str(id))
    {
      assert Field(b3, k, Constants.PREV_ID) == Some(Str(id));
    }
  }

  /** `insert_node`'s effect on the map it started from, from its two halves. */
  lemma InsertNodeCompose(b: BlocksMap, block: BlockDoc, b2: BlocksMap, b': BlocksMap)
    requires forall k, f | k != block.id :: Field(b2, k, f) == Field(b, k, f)
    requires Field(b2, block.id, Constants.ATTRIBUTES) == Some(YMap(StrAttrs(block.attributes)))
    requires forall f | f !in {Constants.ID, Constants.TYPE, Constants.PARENT_ID, Constants.ATTRIBUTES, Constants.TEXT} ::
      Field(b2, block.id, f) == Field(b, block.id, f)
    requires AttrsOf(Fields(b', block.id))
      == AttrsOf(Fields(b2, block.id)) + (if block.nextId.Some? then OriginOf(Fields(b2, block.nextId.value)) else map[])
    requires forall k | k != block.id && Some(k) != block.nextId && block.prevId.Some? && PrevIdOf(b2, k) == block.prevId ::
      Field(b', k, Constants.PREV_ID) == Some(Str(block.id))
    requires forall k, f | k != block.id && Some(k) != block.nextId
      && !(f == Constants.PREV_ID && block.prevId.Some? && PrevIdOf(b2, k) == block.prevId) ::
      Field(b', k, f) == Field(b2, k, f)
    ensures AttrsOf(Fields(b', block.id))
      == StrAttrs(block.attributes) + (if block.nextId.Some? then OriginOf(Fields(b, block.nextId.value)) else map[])
    ensures forall k | k != block.id && Some(k) != block.nextId && block.prevId.Some? && PrevIdOf(b, k) == block.prevId ::
      Field(b', k, Constants.PREV_ID) == Some(Str(block.id))
    ensures forall k, f | k != block.id && Some(k) != block.nextId
      && !(f == Constants.PREV_ID && block.prevId.Some? && PrevIdOf(b, k) == block.prevId) ::
      Field(b', k, f) == Field(b, k, f)
  {
    FieldNamesDiffer();
    forall k | k != block.id
      ensures PrevIdOf(b2, k) == PrevIdOf(b, k)
    {
      PrevIdFromField(b, b2, k);
    }
    if block.nextId.Some? {
      OriginFromFields(b, b2, block.nextId.value);
    }
  }

  /**
   * After an insert with a `prevId`, a block the insert does not rewrite is its old entry
   * read as a map: a non-map entry has become an empty map, which extraction reads as a
   * block.
   */
  lemma InsertReadsOthersAsMaps(b: BlocksMap, block: BlockDoc, diff: (Json, string) -> Option<Json>, b': BlocksMap, r: Outcome<()>)
    requires InsertSpec(b, block, diff, b', r) && r.Ok? && block.prevId.Some?
    ensures forall k | k in b.entries && k != block.id && Some(k) != block.nextId && PrevIdOf(b, k) != block.prevId ::
      b'.entries[k] == AsMap(b.entries[k])
  {
    forall k | k in b.entries && k != block.id && Some(k) != block.nextId && PrevIdOf(b, k) != block.prevId
      ensures b'.entries[k] == AsMap(b.entries[k])
    {
      assert forall f :: Field(b', k, f) == Field(b, k, f);
      EntryFromFields(b, b', k);
    }
  }

  /** The attributes of `attrs` whose keys are in `done`, as stored values. */
  function StrAttrsOn(attrs: map<string, string>, done: set<string>): map<string, Out>
  {
    map k | k in attrs && k in done :: Str(attrs[k])
  }

  lemma StrAttrsOnStep(attrs: map<string, string>, rest: set<string>, k: string)
    requires k in rest && rest <= attrs.Keys
    ensures StrAttrsOn(attrs, attrs.Keys - rest) + map[k := Str(attrs[k])] == StrAttrsOn(attrs, attrs.Keys - (rest - {k}))
  {
  }

  lemma WithAttrsTwice(fields: map<string, Out>, a: map<string, Out>, c: map<string, Out>)
    ensures WithAttrs(WithAttrs(fields, a), c) == WithAttrs(fields, a + c)
  {
    var w := WithAttrs(fields, a);
    assert AttrsOf(w) == AttrsOf(fields) + a;
    assert AttrsOf(fields) + a + c == AttrsOf(fields) + (a + c);
    assert w[Constants.ATTRIBUTES := YMap(AttrsOf(w) + c)] == fields[Constants.ATTRIBUTES := YMap(AttrsOf(fields) + (a + c))];
  }

  /**
   * `get_or_init_map(ATTRIBUTES)` on block `id` and one `insert` per attribute: the
   * existing attributes stay unless overwritten.
   */
  method MergeAttributes(b: BlocksMap, id: string, attrs: map<string, string>) returns (b': BlocksMap)
    requires Valid(b) && id in b.entries
    ensures Valid(b') && b'.order == b.order
    ensures b'.entries == b.entries[id := YMap(WithAttrs(Fields(b, id), StrAttrs(attrs)))]
  {
    b' := Put(b, id, YMap(WithAttrs(Fields(b, id), map[])));
    var rest := attrs.Keys;
    while rest != {}
      invariant rest <= attrs.Keys
      invariant Valid(b') && b'.order == b.order
      invariant b'.entries == b.entries[id := YMap(WithAttrs(Fields(b, id), StrAttrsOn(attrs, attrs.Keys - rest)))]
      decreases rest
    {
      var k :| k in rest;
      b' := InsertAttr(b, id, attrs, rest, k, b');
      rest := rest - {k};
    }
    assert StrAttrsOn(attrs, attrs.Keys - rest) == StrAttrs(attrs);
  }

  /** One `insert` of the attribute loop of `MergeAttributes`. */
  method InsertAttr(b: BlocksMap, id: string, attrs: map<string, string>, rest: set<string>, k: string, b0: BlocksMap)
    returns (b1: BlocksMap)
    requires Valid(b0) && b0.order == b.order && id in b.entries && k in rest && rest <= attrs.Keys
    requires b0.entries == b.entries[id := YMap(WithAttrs(Fields(b, id), StrAttrsOn(attrs, attrs.Keys - rest)))]
    ensures Valid(b1) && b1.order == b.order
    ensures b1.entries == b.entries[id := YMap(WithAttrs(Fields(b, id), StrAttrsOn(attrs, attrs.Keys - (rest - {k}))))]
  {
    ghost var done := StrAttrsOn(attrs, attrs.Keys - rest);
    assert Fields(b0, id) == WithAttrs(Fields(b, id), done);
    WithAttrsTwice(Fields(b, id), done, map[k := Str(attrs[k])]);
    StrAttrsOnStep(attrs, rest, k);
    b1 := Put(b0, id, YMap(WithAttrs(Fields(b0, id), map[k := Str(attrs[k])])));
  }

  /**
   * What `update_node` leaves: the attributes sent (when there are any) merged into the
   * block's attributes, its text edited by the delta (when there is one, and left as it
   * was when the delta fails), the block a map from then on, and every other field and
   * every other entry untouched.
   */
  ghost predicate UpdateSpec(b: BlocksMap, block: BlockDoc, diff: (Json, string) -> Option<Json>, b': BlocksMap, r: Outcome<()>)
  {
    && b'.entries.Keys == b.entries.Keys + {block.id}
    && (r.Err? <==> block.delta.Some? && NewText(b, block, diff).Err?)
    && (r.Err? ==> r.error == NewText(b, block, diff).error)
    && AttrsOf(Fields(b', block.id)) == AttrsOf(Fields(b, block.id)) + StrAttrs(block.attributes)
    && (block.attributes == map[] ==> Field(b', block.id, Constants.ATTRIBUTES) == Field(b, block.id, Constants.ATTRIBUTES))
    && (block.delta.None? ==> Field(b', block.id, Constants.TEXT) == Field(b, block.id, Constants.TEXT))
    && (block.delta.Some? ==>
          Field(b', block.id, Constants.TEXT) == Some(YText(if r.Ok? then NewText(b, block, diff).value else TextOf(Fields(b, block.id)))))
    && (forall f | f != Constants.ATTRIBUTES && f != Constants.TEXT :: Field(b', block.id, f) == Field(b, block.id, f))
    && (forall k, f | k != block.id :: Field(b', k, f) == Field(b, k, f))
    && b'.entries[block.id].YMap?
    && OthersUnchanged(b, b', {block.id})
  }

  /** `update_node`: merges the attributes sent into the block's and edits its text with the delta. */
  method UpdateNode(b: BlocksMap, block: BlockDoc, diff: (Json, string) -> Option<Json>)
    returns (b': BlocksMap, r: Outcome<()>)
    requires Valid(b)
    ensures Valid(b') && UpdateSpec(b, block, diff, b', r)
  {
    var id := block.id;
    var b2 := MergeAttributesIfAny(b, id, block.attributes);
    b' := b2;
    r := Ok(());
    if block.delta.Some? {
      assert Field(b2, id, Constants.TEXT) == Field(b, id, Constants.TEXT);
      assert TextOf(Fields(b2, id)) == TextOf(Fields(b, id));
      b', r := EditText(b2, id, block.delta.value, diff);
      AttrsFromField(b2, b', id);
      OthersUnchangedTrans(b, b2, b', {id}, {id});
    }
  }

  /** The attribute half of `update_node`: the block is read as a map, then the attributes merged. */
  method MergeAttributesIfAny(b: BlocksMap, id: string, attrs: map<string, string>) returns (b': BlocksMap)
    requires Valid(b)
    ensures Valid(b') && b'.entries.Keys == b.entries.Keys + {id}
    ensures AttrsOf(Fields(b', id)) == AttrsOf(Fields(b, id)) + StrAttrs(attrs)
    ensures attrs == map[] ==> Field(b', id, Constants.ATTRIBUTES) == Field(b, id, Constants.ATTRIBUTES)
    ensures forall k, f | !(k == id && f == Constants.ATTRIBUTES) :: Field(b', k, f) == Field(b, k, f)
    ensures b'.entries[id].YMap? && OthersUnchanged(b, b', {id})
  {
    var b1 := InitMap(b, id);
    InitMapFields(b, id, b1);
    b' := b1;
    if attrs != map[] {
      b' := MergeAttributes(b1, id, attrs);
      AddAttrsFields(b1, id, StrAttrs(attrs), b');
    }
    AttrsFromField(b, b1, id);
  }

  // ---------------------------------------------------------------------------------------
  // Parents and descendants

  /** The group of blocks without a string `parentId`. */
  const ROOT_GROUP: string := "root"

  /** The parent a block is grouped under. */
  function ParentKey(b: BlocksMap, id: string): string
  {
    StringField(Fields(b, id), Constants.PARENT_ID).UnwrapOr(ROOT_GROUP)
  }

  function HasParent(b: BlocksMap, p: string): string -> bool
  {
    id => ParentKey(b, id) == p
  }

  /** The ids of `s` grouped by parent, each group in the order of `s`. */
  function GroupsOn(b: BlocksMap, s: seq<string>): map<string, seq<string>>
  {
    map p | p in (set id | id in s :: ParentKey(b, id)) :: Filter(s, HasParent(b, p))
  }

  /** The parent-to-children table of the whole map. */
  function ParentGroups(b: BlocksMap): map<string, seq<string>>
  {
    GroupsOn(b, b.order)
  }

  lemma GroupsOnStep(b: BlocksMap, s: seq<string>, x: string)
    ensures GroupsOn(b, s + [x])
      == GroupsOn(b, s)[ParentKey(b, x) := (if ParentKey(b, x) in GroupsOn(b, s) then GroupsOn(b, s)[ParentKey(b, x)] else []) + [x]]
  {
    var g := GroupsOn(b, s);
    var g' := GroupsOn(b, s + [x]);
    var px := ParentKey(b, x);
    var h := g[px := (if px in g then g[px] else []) + [x]];
    assert g'.Keys == h.Keys;
    forall p | p in g'
      ensures g'[p] == h[p]
    {
      GroupAt(b, s, x, p);
    }
    MapsEqual(g', h);
  }

  /** The group of `p` after one more id. */
  lemma GroupAt(b: BlocksMap, s: seq<string>, x: string, p: string)
    requires p in GroupsOn(b, s + [x])
    ensures var g := GroupsOn(b, s);
      GroupsOn(b, s + [x])[p]
      == if p == ParentKey(b, x) then (if p in g then g[p] else []) + [x] else g[p]
  {
    FilterSnoc(s, x, HasParent(b, p));
    if p == ParentKey(b, x) && p !in GroupsOn(b, s) {
      assert forall y | y in s :: !HasParent(b, p)(y);
      FilterNone(s, HasParent(b, p));
    }
  }

  /**
   * `build_parent_child_structure`: every block under its parent's id, or under "root" when
   * it has no string `parentId`. Reading a block goes through `get_or_init_map`.
   */
  method BuildParentChildStructure(b: BlocksMap) returns (b': BlocksMap, byParent: map<string, seq<string>>)
    requires Valid(b)
    ensures Valid(b') && b'.order == b.order && b'.entries == Normalized(b)
    ensures byParent == ParentGroups(b)
    ensures forall p, id :: p in byParent && id in byParent[p] <==> id in b.entries && p == ParentKey(b, id)
    ensures forall p | p in byParent :: NoDup(byParent[p])
  {
    var blockIds := b.order;
    b' := b;
    byParent := map[];
    var i := 0;
    assert b.entries == NormalizedOn(b, blockIds[..0]);
    assert GroupsOn(b, blockIds[..0]) == map[];
    while i < |blockIds|
      invariant 0 <= i <= |blockIds|
      invariant b'.order == blockIds && b'.entries == NormalizedOn(b, blockIds[..i])
      invariant byParent == GroupsOn(b, blockIds[..i])
    {
      var id := blockIds[i];
      NormalizedOnFields(b, blockIds[..i], b');
      InitMapNormalizes(b, blockIds[..i], b', id);
      b' := InitMap(b', id);
      var parentId := StringField(Fields(b', id), Constants.PARENT_ID).UnwrapOr(ROOT_GROUP);
      assert parentId == ParentKey(b, id);
      GroupsOnStep(b, blockIds[..i], id);
      byParent := byParent[parentId := (if parentId in byParent then byParent[parentId] else []) + [id]];
      PrefixSnoc(blockIds, i);
      i := i + 1;
    }
    assert blockIds[..i] == blockIds;
    forall p | p in byParent
      ensures NoDup(byParent[p])
    {
      FilterNoDup(b.order, HasParent(b, p));
    }
  }

  /** Every id that occurs in some group. */
  function Universe(g: map<string, seq<string>>): set<string>
  {
    set p, c | p in g && c in g[p] :: c
  }

  function ChildrenIn(g: map<string, seq<string>>, id: string): (r: seq<string>)
    ensures forall c | c in r :: c in Universe(g)
  {
    if id in g then g[id] else []
  }

  /**
   * `find_descendants`, depth first: each child followed by its own descendants. `path`
   * holds the ids on the current recursion path; a child already on it means the source
   * would recurse forever, and the result is then `None`.
   */
  function Descendants(g: map<string, seq<string>>, id: string, path: set<string>): Option<seq<string>>
    decreases |Universe(g) - path|, 1, 0
  {
    ChildrenDesc(g, ChildrenIn(g, id), path)
  }

  /** The loop of `find_descendants` over the children `cs`. */
  function ChildrenDesc(g: map<string, seq<string>>, cs: seq<string>, path: set<string>): Option<seq<string>>
    requires forall c | c in cs :: c in Universe(g)
    decreases |Universe(g) - path|, 0, |cs|
  {
    if cs == [] then Some([])
    else if cs[0] in path then None
    else
      var c := cs[0];
      VisitShrinks(Universe(g), path, c);
      match Descendants(g, c, path + {c})
      case None => None
      case Some(d) =>
        match ChildrenDesc(g, cs[1..], path)
        case None => None
        case Some(rest) => Some([c] + d + rest)
  }

  /** The descendants of `id`; `None` when a `parentId` cycle is reachable from it. */
  function FindDescendants(g: map<string, seq<string>>, id: string): Option<seq<string>>
  {
    Descendants(g, id, {id})
  }

  /**
   * What the descendants are: every child of `id` and of every descendant is one, every
   * descendant is a child of `id` or of another descendant, and none is on the path (in
   * particular `id` is not its own descendant).
   */
  lemma {:induction false} DescendantsClosed(g: map<string, seq<string>>, id: string, path: set<string>)
    requires Descendants(g, id, path).Some?
    ensures var ds := Descendants(g, id, path).value;
      && (forall c | c in ChildrenIn(g, id) :: c in ds)
      && (forall x, c | x in ds && c in ChildrenIn(g, x) :: c in ds)
      && (forall x | x in ds :: x in ChildrenIn(g, id) || exists y | y in ds :: x in ChildrenIn(g, y))
      && (forall x | x in ds :: x !in path)
    decreases |Universe(g) - path|, 1, 0
  {
    ChildrenDescClosed(g, ChildrenIn(g, id), path);
  }

  lemma {:induction false} ChildrenDescClosed(g: map<string, seq<string>>, cs: seq<string>, path: set<string>)
    requires forall c | c in cs :: c in Universe(g)
    requires ChildrenDesc(g, cs, path).Some?
    ensures var ds := ChildrenDesc(g, cs, path).value;
      && (forall c | c in cs :: c in ds)
      && (forall x, c | x in ds && c in ChildrenIn(g, x) :: c in ds)
      && (forall x | x in ds :: x in cs || exists y | y in ds :: x in ChildrenIn(g, y))
      && (forall x | x in ds :: x !in path)
    decreases |Universe(g) - path|, 0, |cs|
  {
    if cs != [] {
      var c := cs[0];
      VisitShrinks(Universe(g), path, c);
      var d := Descendants(g, c, path + {c}).value;
      var rest := ChildrenDesc(g, cs[1..], path).value;
      var ds := ChildrenDesc(g, cs, path).value;
      assert ds == [c] + d + rest;
      DescendantsClosed(g, c, path + {c});
      ChildrenDescClosed(g, cs[1..], path);
      forall x | x in ds
        ensures x in cs || exists y | y in ds :: x in ChildrenIn(g, y)
      {
        if x in d {
          if x in ChildrenIn(g, c) {
            assert c in ds;
          } else {
            var y :| y in d && x in ChildrenIn(g, y);
            assert y in ds;
          }
        } else if x in rest && x !in cs[1..] {
          var y :| y in rest && x in ChildrenIn(g, y);
          assert y in ds;
        }
      }
    }
  }

  lemma RemoveFields(b: BlocksMap, id: string, b': BlocksMap)
    requires b'.entries == b.entries - {id}
    ensures forall k, f | k != id :: Field(b', k, f) == Field(b, k, f)
  {
  }

  /** Block `k` follows one of `ids`. */
  predicate FollowsOneOf(b: BlocksMap, k: string, ids: set<string>)
  {
    PrevIdOf(b, k).Some? && PrevIdOf(b, k).value in ids
  }

  /** Block `k` has the `prevId` and the attributes it had in `b`. */
  predicate ChainKept(b: BlocksMap, b': BlocksMap, k: string)
  {
    Field(b', k, Constants.PREV_ID) == Field(b, k, Constants.PREV_ID)
    && Field(b', k, Constants.ATTRIBUTES) == Field(b, k, Constants.ATTRIBUTES)
  }

  /**
   * Block `k`, which followed `x`, now follows `x`'s own `prevId`; when `x` had none, `k`
   * lost its `prevId` and took `x`'s top-level device and timestamp into its attributes.
   */
  predicate ClosesGap(b: BlocksMap, b': BlocksMap, x: string, k: string)
  {
    && Field(b', k, Constants.PREV_ID) == (if PrevIdOf(b, x).Some? then Some(Str(PrevIdOf(b, x).value)) else None)
    && Field(b', k, Constants.ATTRIBUTES)
       == (if PrevIdOf(b, x).Some? then Field(b, k, Constants.ATTRIBUTES)
           else Some(YMap(AttrsOf(Fields(b, k)) + OriginOf(Fields(b, x)))))
  }

  /**
   * What `delete_node` leaves: exactly the block and its descendants are gone. The blocks
   * that remain keep every field but `prevId` and attributes; those two are kept too by a
   * block that followed none of the removed ones, and a block that followed the deleted
   * block closes the gap, provided the deleted block's own `prevId` is not one of its
   * descendants. Every remaining entry is a map: the parent table reads each entry through
   * `get_or_init_map`.
   */
  ghost predicate DeleteSpec(b: BlocksMap, blockId: string, b': BlocksMap)
  {
    var found := FindDescendants(ParentGroups(b), blockId);
    && found.Some?
    && b'.entries.Keys == b.entries.Keys - {blockId} - Elems(found.value)
    && (forall k, f | k in b'.entries && f != Constants.PREV_ID && f != Constants.ATTRIBUTES :: Field(b', k, f) == Field(b, k, f))
    && (forall k | k in b'.entries && !FollowsOneOf(b, k, {blockId} + Elems(found.value)) :: ChainKept(b, b', k))
    && (forall k | k in b'.entries && PrevIdOf(b, k) == Some(blockId) && !FollowsOneOf(b, blockId, Elems(found.value)) ::
          ClosesGap(b, b', blockId, k))
    && AllMaps(b')
  }

  /**
   * `delete_node`: removes the block and all its descendants, each after closing the gap it
   * leaves in its `prevId` chain. The block itself is always present by the time it is
   * removed (closing its gap reads it through `get_or_init_map`), so the `BlockNotFound`
   * error is never reported. The source's unused parent argument is left out.
   */
  method DeleteNode(b: BlocksMap, blockId: string) returns (b': BlocksMap, r: Outcome<()>)
    requires Valid(b)
    requires FindDescendants(ParentGroups(b), blockId).Some?
    ensures Valid(b') && r == Ok(()) && DeleteSpec(b, blockId, b')
  {
    var b1, descendants := CollectDescendants(b, blockId);
    var b2 := LeaveChain(b1, blockId);
    var b3 := RemoveDescendants(b2, descendants);
    var found := blockId in b3.entries;
    b' := Remove(b3, blockId);
    RemoveFields(b3, blockId, b');
    r := if found then Ok(()) else Err(BlockNotFound("Block " + blockId + " not found in blocks map"));
    NormalizedFields(b, b1);
    ShrinkKeys(b.entries.Keys, b2.entries.Keys, b3.entries.Keys, b'.entries.Keys, blockId, Elems(descendants));
    DeleteChainCompose(b, b1, b2, b3, b', blockId, Elems(descendants));
  }

  /** The chain fields after `delete_node`, from its steps. */
  lemma DeleteChainCompose(b: BlocksMap, b1: BlocksMap, b2: BlocksMap, b3: BlocksMap, b4: BlocksMap, x: string, ds: set<string>)
    requires forall k :: Fields(b1, k) == Fields(b, k)
    requires forall k | PrevIdOf(b1, k) != Some(x) :: ChainKept(b1, b2, k)
    requires forall k | PrevIdOf(b1, k) == Some(x) :: ClosesGap(b1, b2, x, k)
    requires forall k | k in b3.entries && !FollowsOneOf(b2, k, ds) :: ChainKept(b2, b3, k)
    requires forall k, f | k != x :: Field(b4, k, f) == Field(b3, k, f)
    requires b4.entries.Keys <= b3.entries.Keys - {x}
    ensures forall k | k in b4.entries && !FollowsOneOf(b, k, {x} + ds) :: ChainKept(b, b4, k)
    ensures forall k | k in b4.entries && PrevIdOf(b, k) == Some(x) && !FollowsOneOf(b, x, ds) :: ClosesGap(b, b4, x, k)
  {
    forall k | k in b4.entries && !FollowsOneOf(b, k, {x} + ds)
      ensures ChainKept(b, b4, k)
    {
      assert Fields(b1, k) == Fields(b, k);
      assert ChainKept(b1, b2, k);
      PrevIdFromField(b1, b2, k);
      assert ChainKept(b2, b3, k);
    }
    forall k | k in b4.entries && PrevIdOf(b, k) == Some(x) && !FollowsOneOf(b, x, ds)
      ensures ClosesGap(b, b4, x, k)
    {
      assert Fields(b1, k) == Fields(b, k) && Fields(b1, x) == Fields(b, x);
      assert ClosesGap(b1, b2, x, k);
      assert !FollowsOneOf(b2, k, ds);
      assert ChainKept(b2, b3, k);
      assert Fields(b1, k) == Fields(b, k) && Fields(b1, x) == Fields(b, x);
    }
  }

  /**
   * Deleting a block without descendants takes it out of its chain: every block that
   * remains follows what it followed once that block has left the chain. With A, B and C
   * chained in that order, deleting B leaves C following A.
   */
  lemma {:induction false} DeleteLeafClosesGap(b: BlocksMap, blockId: string, b': BlocksMap)
    requires DeleteSpec(b, blockId, b')
    requires FindDescendants(ParentGroups(b), blockId) == Some([])
    ensures forall k | k in b'.entries :: PrevIdOf(b', k) == AfterUnlink(b, blockId, k)
  {
    assert Elems([]) == {};
    forall k | k in b'.entries
      ensures PrevIdOf(b', k) == AfterUnlink(b, blockId, k)
    {
      if PrevIdOf(b, k) == Some(blockId) {
        assert ClosesGap(b, b', blockId, k);
      } else {
        assert ChainKept(b, b', k);
        PrevIdFromField(b, b', k);
      }
    }
  }

  /**
   * After a delete, a surviving block that followed none of the removed ones is its old
   * entry read as a map: a non-map entry has become an empty map.
   */
  lemma DeleteReadsSurvivorsAsMaps(b: BlocksMap, blockId: string, b': BlocksMap)
    requires DeleteSpec(b, blockId, b')
    ensures var ds := FindDescendants(ParentGroups(b), blockId).value;
      forall k | k in b'.entries && !FollowsOneOf(b, k, {blockId} + Elems(ds)) ::
        k in b.entries && b'.entries[k] == AsMap(b.entries[k])
  {
    var ds := FindDescendants(ParentGroups(b), blockId).value;
    forall k | k in b'.entries && !FollowsOneOf(b, k, {blockId} + Elems(ds))
      ensures k in b.entries && b'.entries[k] == AsMap(b.entries[k])
    {
      assert ChainKept(b, b', k);
      assert forall f :: Field(b', k, f) == Field(b, k, f);
      EntryFromFields(b, b', k);
    }
  }

  lemma ShrinkKeys(k0: set<string>, k2: set<string>, k3: set<string>, k4: set<string>, x: string, d: set<string>)
    requires k2 == k0 + {x} && k3 == k2 - d && k4 == k3 - {x}
    ensures k4 == k0 - {x} - d
  {
  }

  lemma NormalizedFields(b: BlocksMap, b': BlocksMap)
    requires b'.entries == Normalized(b)
    ensures forall k :: Fields(b', k) == Fields(b, k)
    ensures forall k, f :: Field(b', k, f) == Field(b, k, f)
  {
    forall k
      ensures Fields(b', k) == Fields(b, k)
    {
    }
  }

  /**
   * `remove_block_from_prev_id_chain` as `delete_node` relies on it: the blocks that
   * followed `blockId` close the gap, and nothing else changes.
   */
  method LeaveChain(b: BlocksMap, blockId: string) returns (b': BlocksMap)
    requires Valid(b)
    ensures Valid(b') && b'.entries.Keys == b.entries.Keys + {blockId}
    ensures forall k, f | f != Constants.PREV_ID && f != Constants.ATTRIBUTES :: Field(b', k, f) == Field(b, k, f)
    ensures forall k | PrevIdOf(b, k) != Some(blockId) :: ChainKept(b, b', k)
    ensures forall k | PrevIdOf(b, k) == Some(blockId) :: ClosesGap(b, b', blockId, k)
    ensures AllMaps(b')
  {
    b' := RemoveBlockFromPrevIdChain(b, blockId);
  }

  /** The first half of `delete_node`: the parent table is built and the descendants found. */
  method CollectDescendants(b: BlocksMap, blockId: string) returns (b': BlocksMap, descendants: seq<string>)
    requires Valid(b)
    requires FindDescendants(ParentGroups(b), blockId).Some?
    ensures Valid(b') && b'.order == b.order && b'.entries == Normalized(b)
    ensures descendants == FindDescendants(ParentGroups(b), blockId).value && blockId !in descendants
  {
    var byParent;
    b', byParent := BuildParentChildStructure(b);
    descendants := FindDescendants(byParent, blockId).value;
    DescendantsClosed(byParent, blockId, {blockId});
  }

  /** The loop of `delete_node`: each descendant leaves its chain, then the map. */
  method RemoveDescendants(b: BlocksMap, ids: seq<string>) returns (b': BlocksMap)
    requires Valid(b)
    ensures Valid(b') && b'.entries.Keys == b.entries.Keys - Elems(ids)
    ensures forall k, f | k in b'.entries && f != Constants.PREV_ID && f != Constants.ATTRIBUTES ::
      Field(b', k, f) == Field(b, k, f)
    ensures forall k | k in b'.entries && !FollowsOneOf(b, k, Elems(ids)) :: ChainKept(b, b', k)
    ensures AllMaps(b) ==> AllMaps(b')
  {
    b' := b;
    var i := 0;
    while i < |ids|
      invariant 0 <= i <= |ids|
      invariant Valid(b') && b'.entries.Keys == b.entries.Keys - Elems(ids[..i])
      invariant forall k, f | k in b'.entries && f != Constants.PREV_ID && f != Constants.ATTRIBUTES ::
        Field(b', k, f) == Field(b, k, f)
      invariant forall k | k in b'.entries && !FollowsOneOf(b, k, Elems(ids)) :: ChainKept(b, b', k)
      invariant AllMaps(b) ==> AllMaps(b')
    {
      var d := ids[i];
      ghost var before := b';
      b' := LeaveChain(b', d);
      ghost var relinked := b';
      b' := Remove(b', d);
      RemoveFields(relinked, d, b');
      ChainStep(b, before, relinked, b', d, Elems(ids));
      PrefixSnoc(ids, i);
      assert Elems(ids[..i + 1]) == Elems(ids[..i]) + {d};
      i := i + 1;
    }
    assert ids[..i] == ids;
  }

  /** One descendant leaving its chain and the map keeps the chain fields of the blocks that followed none of them. */
  lemma ChainStep(b: BlocksMap, b1: BlocksMap, b2: BlocksMap, b3: BlocksMap, d: string, ds: set<string>)
    requires d in ds
    requires forall k | k in b1.entries && !FollowsOneOf(b, k, ds) :: ChainKept(b, b1, k)
    requires forall k | PrevIdOf(b1, k) != Some(d) :: ChainKept(b1, b2, k)
    requires b2.entries.Keys == b1.entries.Keys + {d} && b3.entries.Keys == b2.entries.Keys - {d}
    requires forall k, f | k != d :: Field(b3, k, f) == Field(b2, k, f)
    ensures forall k | k in b3.entries && !FollowsOneOf(b, k, ds) :: ChainKept(b, b3, k)
  {
    forall k | k in b3.entries && !FollowsOneOf(b, k, ds)
      ensures ChainKept(b, b3, k)
    {
      assert ChainKept(b, b1, k);
      PrevIdFromField(b, b1, k);
      assert ChainKept(b1, b2, k);
    }
  }

  // ---------------------------------------------------------------------------------------
  // Moving a block

  /** The `prevId` block `k` has once `x` has left its chain. */
  function AfterUnlink(b: BlocksMap, x: string, k: string): Option<string>
  {
    if PrevIdOf(b, k) == Some(x) then PrevIdOf(b, x) else PrevIdOf(b, k)
  }

  /** The end of `move_block`: the block's own `prevId` and, when the parent changed, its `parentId`. */
  method SetPlace(b: BlocksMap, blockId: string, parentId: string, oldParentId: string, prevId: Option<string>)
    returns (b': BlocksMap)
    requires Valid(b)
    ensures Valid(b') && b'.entries.Keys == b.entries.Keys + {blockId}
    ensures Field(b', blockId, Constants.PREV_ID) == if prevId.Some? then Some(Str(prevId.value)) else None
    ensures Field(b', blockId, Constants.PARENT_ID)
      == if parentId == oldParentId then Field(b, blockId, Constants.PARENT_ID)
         else if parentId != Constants.DEFAULT_PARENT then Some(Str(parentId))
         else None
    ensures forall k, f | !(k == blockId && (f == Constants.PREV_ID || f == Constants.PARENT_ID)) ::
      Field(b', k, f) == Field(b, k, f)
    ensures AllMaps(b) ==> AllMaps(b')
  {
    var b2 := PlacePrev(b, blockId, prevId);
    b' := PlaceParent(b2, blockId, parentId, oldParentId);
  }

  /** The block's own `prevId`: set to `prevId`, or removed when there is none. */
  method PlacePrev(b: BlocksMap, blockId: string, prevId: Option<string>) returns (b': BlocksMap)
    requires Valid(b)
    ensures Valid(b') && b'.entries.Keys == b.entries.Keys + {blockId}
    ensures Field(b', blockId, Constants.PREV_ID) == if prevId.Some? then Some(Str(prevId.value)) else None
    ensures forall k, f | !(k == blockId && f == Constants.PREV_ID) :: Field(b', k, f) == Field(b, k, f)
    ensures AllMaps(b) ==> AllMaps(b')
  {
    var b1 := InitMap(b, blockId);
    InitMapFields(b, blockId, b1);
    if prevId.Some? {
      b' := SetField(b1, blockId, Constants.PREV_ID, Str(prevId.value));
      SetFieldFields(b1, blockId, Constants.PREV_ID, Str(prevId.value), b');
    } else {
      b' := RemoveField(b1, blockId, Constants.PREV_ID);
      RemoveFieldFields(b1, blockId, Constants.PREV_ID, b');
    }
  }

  /** The block's `parentId` when the parent changed: the new one, or none for the default parent. */
  method PlaceParent(b: BlocksMap, blockId: string, parentId: string, oldParentId: string) returns (b': BlocksMap)
    requires Valid(b) && blockId in b.entries
    ensures Valid(b') && b'.entries.Keys == b.entries.Keys
    ensures Field(b', blockId, Constants.PARENT_ID)
      == if parentId == oldParentId then Field(b, blockId, Constants.PARENT_ID)
         else if parentId != Constants.DEFAULT_PARENT then Some(Str(parentId))
         else None
    ensures forall k, f | !(k == blockId && f == Constants.PARENT_ID) :: Field(b', k, f) == Field(b, k, f)
    ensures AllMaps(b) ==> AllMaps(b')
  {
    b' := b;
    if parentId != oldParentId {
      if parentId != Constants.DEFAULT_PARENT {
        b' := SetField(b, blockId, Constants.PARENT_ID, Str(parentId));
        SetFieldFields(b, blockId, Constants.PARENT_ID, Str(parentId), b');
      } else {
        b' := RemoveField(b, blockId, Constants.PARENT_ID);
        RemoveFieldFields(b, blockId, Constants.PARENT_ID, b');
      }
    }
  }

  /**
   * What `move_block` leaves: the block has left its old chain (its followers close the
   * gap) and taken its place before `nextId` and after `prevId` (the blocks that followed
   * `prevId` now follow it); its own `prevId` is `prevId` (or none), its parent is the new
   * one when the parent changed (none for the default parent), and it takes `nextId`'s
   * origin into its attributes. Every entry is a map afterwards: the chain searches read
   * each entry through `get_or_init_map`.
   */
  ghost predicate MoveSpec(b: BlocksMap, blockId: string, parentId: string, oldParentId: string,
                           prevId: Option<string>, nextId: Option<string>, b': BlocksMap)
  {
    && b'.entries.Keys == b.entries.Keys + {blockId} + (if nextId.Some? then {nextId.value} else {})
    && Field(b', blockId, Constants.PREV_ID) == (if prevId.Some? then Some(Str(prevId.value)) else None)
    && Field(b', blockId, Constants.PARENT_ID)
       == (if parentId == oldParentId then Field(b, blockId, Constants.PARENT_ID)
           else if parentId != Constants.DEFAULT_PARENT then Some(Str(parentId))
           else None)
    && AttrsOf(Fields(b', blockId))
       == AttrsOf(Fields(b, blockId)) + (if nextId.Some? then OriginOf(Fields(b, nextId.value)) else map[])
    && (forall f | f != Constants.PREV_ID && f != Constants.ATTRIBUTES && f != Constants.PARENT_ID ::
          Field(b', blockId, f) == Field(b, blockId, f))
    && (nextId.Some? && nextId.value != blockId ==> Field(b', nextId.value, Constants.PREV_ID) == Some(Str(blockId)))
    && (forall k | k != blockId && Some(k) != nextId ::
          PrevIdOf(b', k)
          == if prevId.Some? && AfterUnlink(b, blockId, k) == prevId then Some(blockId) else AfterUnlink(b, blockId, k))
    && (forall k, f | k != blockId && f != Constants.PREV_ID && f != Constants.ATTRIBUTES :: Field(b', k, f) == Field(b, k, f))
    && (forall k | k != blockId ::
          Field(b', k, Constants.ATTRIBUTES)
          == if PrevIdOf(b, k) == Some(blockId) && PrevIdOf(b, blockId).None? then Some(YMap(AttrsOf(Fields(b, k)) + OriginOf(Fields(b, blockId))))
             else Field(b, k, Constants.ATTRIBUTES))
    && (forall k | k != blockId && Some(k) != nextId && !Repaired(b, blockId, prevId, k) ::
          Field(b', k, Constants.PREV_ID) == Field(b, k, Constants.PREV_ID))
    && AllMaps(b')
  }

  /** Block `k` is one `move_block` repoints: it followed the moved block, or the new `prevId`. */
  predicate Repaired(b: BlocksMap, blockId: string, prevId: Option<string>, k: string)
  {
    PrevIdOf(b, k) == Some(blockId) || (prevId.Some? && PrevIdOf(b, k) == prevId)
  }

  /**
   * `move_block`: leaves the old chain, joins the new one and takes the new parent. It
   * never fails. The paths it is given are not used by the source.
   */
  method MoveBlock(b: BlocksMap, blockId: string, parentId: string, oldParentId: string,
                   prevId: Option<string>, nextId: Option<string>)
    returns (b': BlocksMap)
    requires Valid(b)
    ensures Valid(b') && MoveSpec(b, blockId, parentId, oldParentId, prevId, nextId, b')
  {
    var b1 := RemoveBlockFromPrevIdChain(b, blockId);
    var b2 := HandleFollowingConnection(b1, blockId, nextId, prevId);
    b' := SetPlace(b2, blockId, parentId, oldParentId, prevId);
    MoveCompose(b, blockId, prevId, nextId, b1, b2, b');
    MovePrevKept(b, blockId, prevId, nextId, b1, b2, b');
    MoveKeys(b.entries.Keys, b1.entries.Keys, b2.entries.Keys, b'.entries.Keys, blockId, nextId);
  }

  /**
   * After a move, a block the move does not repoint, other than `nextId`, is its old entry
   * read as a map: a non-map entry has become an empty map.
   */
  lemma MoveReadsOthersAsMaps(b: BlocksMap, blockId: string, parentId: string, oldParentId: string,
                              prevId: Option<string>, nextId: Option<string>, b': BlocksMap)
    requires MoveSpec(b, blockId, parentId, oldParentId, prevId, nextId, b')
    ensures forall k | k in b.entries && k != blockId && Some(k) != nextId && !Repaired(b, blockId, prevId, k) ::
      b'.entries[k] == AsMap(b.entries[k])
  {
    forall k | k in b.entries && k != blockId && Some(k) != nextId && !Repaired(b, blockId, prevId, k)
      ensures b'.entries[k] == AsMap(b.entries[k])
    {
      assert forall f :: Field(b', k, f) == Field(b, k, f);
      EntryFromFields(b, b', k);
    }
  }

  /** A block `move_block` does not repoint keeps its `prevId` field as it was. */
  lemma MovePrevKept(b: BlocksMap, blockId: string, prevId: Option<string>, nextId: Option<string>,
                     b1: BlocksMap, b2: BlocksMap, b3: BlocksMap)
    requires forall k | PrevIdOf(b, k) != Some(blockId) :: Field(b1, k, Constants.PREV_ID) == Field(b, k, Constants.PREV_ID)
    requires forall k | Some(k) != nextId ::
      Field(b2, k, Constants.PREV_ID)
      == if prevId.Some? && PrevIdOf(b1, k) == prevId then Some(Str(blockId)) else Field(b1, k, Constants.PREV_ID)
    requires forall k | k != blockId :: Field(b3, k, Constants.PREV_ID) == Field(b2, k, Constants.PREV_ID)
    ensures forall k | k != blockId && Some(k) != nextId && !Repaired(b, blockId, prevId, k) ::
      Field(b3, k, Constants.PREV_ID) == Field(b, k, Constants.PREV_ID)
  {
    forall k | k != blockId && Some(k) != nextId && !Repaired(b, blockId, prevId, k)
      ensures Field(b3, k, Constants.PREV_ID) == Field(b, k, Constants.PREV_ID)
    {
      PrevIdFromField(b, b1, k);
    }
  }

  lemma MoveKeys(k0: set<string>, k1: set<string>, k2: set<string>, k3: set<string>, x: string, n: Option<string>)
    requires k1 == k0 + {x} && k3 == k2 + {x}
    requires k2 == k1 + (if n.Some? then {n.value, x} else {})
    ensures k3 == k0 + {x} + (if n.Some? then {n.value} else {})
  {
  }

  /** `move_block`'s effect on the map it started from, from its three steps. */
  lemma MoveCompose(b: BlocksMap, blockId: string, prevId: Option<string>, nextId: Option<string>,
                    b1: BlocksMap, b2: BlocksMap, b3: BlocksMap)
    requires forall k, f | f != Constants.PREV_ID && f != Constants.ATTRIBUTES :: Field(b1, k, f) == Field(b, k, f)
    requires forall k ::
      Field(b1, k, Constants.PREV_ID)
      == if PrevIdOf(b, k) != Some(blockId) then Field(b, k, Constants.PREV_ID)
         else if PrevIdOf(b, blockId).Some? then Some(Str(PrevIdOf(b, blockId).value))
         else None
    requires forall k ::
      Field(b1, k, Constants.ATTRIBUTES)
      == if PrevIdOf(b, k) == Some(blockId) && PrevIdOf(b, blockId).None? then Some(YMap(AttrsOf(Fields(b, k)) + OriginOf(Fields(b, blockId))))
         else Field(b, k, Constants.ATTRIBUTES)
    requires nextId.Some? ==> Field(b2, nextId.value, Constants.PREV_ID) == Some(Str(blockId))
    requires nextId.Some? ==>
      AttrsOf(Fields(b2, blockId)) == AttrsOf(Fields(b1, blockId)) + OriginOf(Fields(b1, nextId.value))
    requires forall k, f | f != Constants.PREV_ID && !(k == blockId && f == Constants.ATTRIBUTES) ::
      Field(b2, k, f) == Field(b1, k, f)
    requires nextId.None? ==> Field(b2, blockId, Constants.ATTRIBUTES) == Field(b1, blockId, Constants.ATTRIBUTES)
    requires forall k | Some(k) != nextId ::
      Field(b2, k, Constants.PREV_ID)
      == if prevId.Some? && PrevIdOf(b1, k) == prevId then Some(Str(blockId)) else Field(b1, k, Constants.PREV_ID)
    requires forall k, f | !(k == blockId && (f == Constants.PREV_ID || f == Constants.PARENT_ID)) ::
      Field(b3, k, f) == Field(b2, k, f)
    ensures AttrsOf(Fields(b3, blockId))
      == AttrsOf(Fields(b, blockId)) + (if nextId.Some? then OriginOf(Fields(b, nextId.value)) else map[])
    ensures Field(b2, blockId, Constants.PARENT_ID) == Field(b, blockId, Constants.PARENT_ID)
    ensures forall f | f != Constants.PREV_ID && f != Constants.ATTRIBUTES && f != Constants.PARENT_ID ::
      Field(b3, blockId, f) == Field(b, blockId, f)
    ensures nextId.Some? && nextId.value != blockId ==> Field(b3, nextId.value, Constants.PREV_ID) == Some(Str(blockId))
    ensures forall k | k != blockId && Some(k) != nextId ::
      PrevIdOf(b3, k)
      == if prevId.Some? && AfterUnlink(b, blockId, k) == prevId then Some(blockId) else AfterUnlink(b, blockId, k)
    ensures forall k, f | k != blockId && f != Constants.PREV_ID && f != Constants.ATTRIBUTES ::
      Field(b3, k, f) == Field(b, k, f)
    ensures forall k | k != blockId ::
      Field(b3, k, Constants.ATTRIBUTES)
      == if PrevIdOf(b, k) == Some(blockId) && PrevIdOf(b, blockId).None? then Some(YMap(AttrsOf(Fields(b, k)) + OriginOf(Fields(b, blockId))))
         else Field(b, k, Constants.ATTRIBUTES)
  {
    // Unlinking would change the block's own attributes only if it followed itself and had no `prevId`.
    AttrsFromField(b, b1, blockId);
    AttrsFromField(b2, b3, blockId);
    if nextId.Some? {
      OriginFromFields(b, b1, nextId.value);
    } else {
      AttrsFromField(b1, b2, blockId);
    }
    forall k
      ensures PrevIdOf(b1, k) == AfterUnlink(b, blockId, k)
    {
      if PrevIdOf(b, k) != Some(blockId) {
        PrevIdFromField(b, b1, k);
      }
    }
    forall k | k != blockId && Some(k) != nextId
      ensures PrevIdOf(b3, k)
        == if prevId.Some? && AfterUnlink(b, blockId, k) == prevId then Some(blockId) else AfterUnlink(b, blockId, k)
    {
      PrevIdFromField(b2, b3, k);
      if !(prevId.Some? && PrevIdOf(b1, k) == prevId) {
        PrevIdFromField(b1, b2, k);
      }
    }
  }
}
