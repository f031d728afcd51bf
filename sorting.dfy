/**
 * Deterministic reconciliation order of sibling blocks (rust/src/doc/utils/sorting.rs).
 *
 * For every parent, the sorter groups the parent's children by the device that created
 * them, walks each device's `prevId` chains depth first from the chain heads (blocks
 * without a `prevId`), and appends whatever was not reached. `HashMap` iteration order is
 * fixed here as the order in which ids first occur in the parent's child list.
 *
 * The method `SortBlocksByChain` follows the source loop by loop; the functions `Walk`,
 * `WalkRoots`, `AppendUnvisited`, `DevicePhase`, `Phases` and `SortGroup` state what those
 * loops compute, and the lemmas at the end state what that order guarantees.
 */
module Sorting {
  import opened Wrappers
  import opened DocumentTypes
  import Constants

  // ---------------------------------------------------------------------------------------
  // Sequences of ids

  function Elems(s: seq<string>): set<string>
  {
    set x | x in s
  }

  predicate NoDup(s: seq<string>)
  {
    forall i, j :: 0 <= i < j < |s| ==> s[i] != s[j]
  }

  /** The elements of `s` satisfying `p`, in order. */
  function Filter(s: seq<string>, p: string -> bool): (r: seq<string>)
    ensures forall x :: x in r <==> x in s && p(x)
    ensures |r| <= |s|
    decreases |s|
  {
    if s == [] then []
    else
      assert s == s[..|s| - 1] + [s[|s| - 1]];
      Filter(s[..|s| - 1], p) + (if p(s[|s| - 1]) then [s[|s| - 1]] else [])
  }

  lemma {:induction false} FilterAppend(a: seq<string>, b: seq<string>, p: string -> bool)
    ensures Filter(a + b, p) == Filter(a, p) + Filter(b, p)
    decreases |b|
  {
    if b != [] {
      var c := a + b;
      assert c[..|c| - 1] == a + b[..|b| - 1];
      assert c[|c| - 1] == b[|b| - 1];
      FilterAppend(a, b[..|b| - 1], p);
      assert Filter(c, p) == Filter(a + b[..|b| - 1], p) + (if p(b[|b| - 1]) then [b[|b| - 1]] else []);
      assert Filter(b, p) == Filter(b[..|b| - 1], p) + (if p(b[|b| - 1]) then [b[|b| - 1]] else []);
    } else {
      assert a + b == a;
    }
  }

  lemma FilterSnoc(s: seq<string>, x: string, p: string -> bool)
    ensures Filter(s + [x], p) == Filter(s, p) + (if p(x) then [x] else [])
  {
    assert (s + [x])[..|s|] == s;
  }

  lemma {:induction false} FilterNoDup(s: seq<string>, p: string -> bool)
    requires NoDup(s)
    ensures NoDup(Filter(s, p))
    decreases |s|
  {
    if s != [] {
      FilterNoDup(s[..|s| - 1], p);
    }
  }

  /** Filtering with two predicates that agree on the elements gives the same result. */
  lemma {:induction false} FilterAgree(s: seq<string>, p: string -> bool, q: string -> bool)
    requires forall x | x in s :: p(x) == q(x)
    ensures Filter(s, p) == Filter(s, q)
    decreases |s|
  {
    if s != [] {
      FilterAgree(s[..|s| - 1], p, q);
    }
  }

  lemma {:induction false} FilterNone(s: seq<string>, p: string -> bool)
    requires forall x | x in s :: !p(x)
    ensures Filter(s, p) == []
    decreases |s|
  {
    if s != [] {
      FilterNone(s[..|s| - 1], p);
    }
  }

  // ---------------------------------------------------------------------------------------
  // String order

  /**
   * Rust's `str` ordering: lexicographic by code point (UTF-8 byte order agrees with it),
   * a proper prefix first.
   */
  predicate StrLe(a: string, b: string)
    decreases |a|
  {
    a == [] || (b != [] && (a[0] < b[0] || (a[0] == b[0] && StrLe(a[1..], b[1..]))))
  }

  predicate StrLt(a: string, b: string)
  {
    !StrLe(b, a)
  }

  lemma {:induction false} StrLeReflexive(a: string)
    ensures StrLe(a, a)
    decreases |a|
  {
    if a != [] {
      StrLeReflexive(a[1..]);
    }
  }

  lemma {:induction false} StrLeTotal(a: string, b: string)
    ensures StrLe(a, b) || StrLe(b, a)
    decreases |a|
  {
    if a != [] && b != [] && a[0] == b[0] {
      StrLeTotal(a[1..], b[1..]);
    }
  }

  lemma {:induction false} StrLeAntisymmetric(a: string, b: string)
    requires StrLe(a, b) && StrLe(b, a)
    ensures a == b
    decreases |a|
  {
    if a != [] && b != [] {
      StrLeAntisymmetric(a[1..], b[1..]);
      assert a == [a[0]] + a[1..] && b == [b[0]] + b[1..];
    }
  }

  lemma {:induction false} StrLeTransitive(a: string, b: string, c: string)
    requires StrLe(a, b) && StrLe(b, c)
    ensures StrLe(a, c)
    decreases |a|
  {
    if a != [] && b != [] && c != [] && a[0] == b[0] && b[0] == c[0] {
      StrLeTransitive(a[1..], b[1..], c[1..]);
    }
  }

  // ---------------------------------------------------------------------------------------
  // Stable sort by a string key (`slice::sort_by` with `str::cmp` on the key)

  predicate SortedBy(s: seq<string>, key: string -> string)
  {
    forall i, j :: 0 <= i < j < |s| ==> StrLe(key(s[i]), key(s[j]))
  }

  /** Inserts `x` after every element whose key is not greater than its own. */
  function InsertBy(x: string, s: seq<string>, key: string -> string): (r: seq<string>)
    ensures multiset(r) == multiset(s) + multiset{x}
  {
    if s == [] then [x]
    else if StrLt(key(x), key(s[0])) then [x] + s
    else
      assert s == [s[0]] + s[1..];
      [s[0]] + InsertBy(x, s[1..], key)
  }

  function SortBy(s: seq<string>, key: string -> string): (r: seq<string>)
    ensures multiset(r) == multiset(s)
    ensures |r| == |s| && forall x :: x in r <==> x in s
  {
    if s == [] then []
    else
      assert s == s[..|s| - 1] + [s[|s| - 1]];
      var r := InsertBy(s[|s| - 1], SortBy(s[..|s| - 1], key), key);
      assert forall x :: x in r <==> x in multiset(r);
      r
  }

  lemma {:induction false} InsertBySorted(x: string, s: seq<string>, key: string -> string)
    requires SortedBy(s, key)
    ensures SortedBy(InsertBy(x, s, key), key)
  {
    if s != [] {
      if StrLt(key(x), key(s[0])) {
        StrLeTotal(key(x), key(s[0]));
        forall j | 0 <= j < |s| ensures StrLe(key(x), key(s[j])) {
          if j > 0 { StrLeTransitive(key(x), key(s[0]), key(s[j])); }
        }
      } else {
        InsertBySorted(x, s[1..], key);
        var t := InsertBy(x, s[1..], key);
        forall y | y in t ensures StrLe(key(s[0]), key(y)) {
          assert y in multiset(t);
          if y != x {
            assert y in s[1..];
          }
        }
      }
    }
  }

  /** The sort orders by key. */
  lemma {:induction false} SortBySorted(s: seq<string>, key: string -> string)
    ensures SortedBy(SortBy(s, key), key)
  {
    if s != [] {
      SortBySorted(s[..|s| - 1], key);
      InsertBySorted(s[|s| - 1], SortBy(s[..|s| - 1], key), key);
    }
  }

  function KeyIs(key: string -> string, k: string): string -> bool
  {
    x => key(x) == k
  }

  lemma SortedHeadLe(s: seq<string>, key: string -> string, y: string)
    requires SortedBy(s, key) && y in s
    ensures StrLe(key(s[0]), key(y))
  {
    var j :| 0 <= j < |s| && s[j] == y;
    if j == 0 {
      StrLeReflexive(key(y));
    }
  }

  lemma FilterSingleton(x: string, p: string -> bool)
    ensures Filter([x], p) == if p(x) then [x] else []
  {
    assert [x][..0] == [];
  }

  lemma InsertByStableFront(x: string, s: seq<string>, key: string -> string, k: string)
    requires SortedBy(s, key) && s != [] && StrLt(key(x), key(s[0]))
    ensures Filter([x] + s, KeyIs(key, k)) == Filter(s, KeyIs(key, k)) + (if key(x) == k then [x] else [])
  {
    var p := KeyIs(key, k);
    FilterAppend([x], s, p);
    FilterSingleton(x, p);
    if p(x) {
      forall y | y in s ensures !p(y) {
        SortedHeadLe(s, key, y);
      }
      FilterNone(s, p);
    }
  }

  lemma SortedTail(s: seq<string>, key: string -> string)
    requires SortedBy(s, key) && s != []
    ensures SortedBy(s[1..], key)
  {
    forall i, j | 0 <= i < j < |s| - 1 ensures StrLe(key(s[1..][i]), key(s[1..][j])) {
      assert s[1..][i] == s[i + 1] && s[1..][j] == s[j + 1];
    }
  }

  lemma InsertByStableSkip(x: string, s: seq<string>, key: string -> string, k: string)
    requires s != [] && !StrLt(key(x), key(s[0]))
    requires Filter(InsertBy(x, s[1..], key), KeyIs(key, k))
          == Filter(s[1..], KeyIs(key, k)) + (if key(x) == k then [x] else [])
    ensures Filter(InsertBy(x, s, key), KeyIs(key, k))
         == Filter(s, KeyIs(key, k)) + (if key(x) == k then [x] else [])
  {
    var p := KeyIs(key, k);
    var tail := if key(x) == k then [x] else [];
    var rest := InsertBy(x, s[1..], key);
    var head := [s[0]];
    assert InsertBy(x, s, key) == head + rest;
    FilterAppend(head, rest, p);
    FilterAppend(head, s[1..], p);
    ConsAppend([], s);
    assert [] + [s[0]] == head && [] + s == s;
    var fh, fr, ft := Filter(head, p), Filter(rest, p), Filter(s[1..], p);
    assert fr == ft + tail;
    AppendAssoc(fh, ft, tail);
  }

  lemma {:induction false} InsertByStable(x: string, s: seq<string>, key: string -> string, k: string)
    requires SortedBy(s, key)
    ensures Filter(InsertBy(x, s, key), KeyIs(key, k))
         == Filter(s, KeyIs(key, k)) + (if key(x) == k then [x] else [])
  {
    if s == [] {
      FilterSingleton(x, KeyIs(key, k));
    } else if StrLt(key(x), key(s[0])) {
      InsertByStableFront(x, s, key, k);
    } else {
      SortedTail(s, key);
      InsertByStable(x, s[1..], key, k);
      InsertByStableSkip(x, s, key, k);
    }
  }

  /** The sort is stable: elements with equal keys keep their relative order. */
  lemma {:induction false} SortByStable(s: seq<string>, key: string -> string, k: string)
    ensures Filter(SortBy(s, key), KeyIs(key, k)) == Filter(s, KeyIs(key, k))
  {
    if s != [] {
      SortByStable(s[..|s| - 1], key, k);
      SortBySorted(s[..|s| - 1], key);
      InsertByStable(s[|s| - 1], SortBy(s[..|s| - 1], key), key, k);
    }
  }

  // ---------------------------------------------------------------------------------------
  // What the sorter reads from a block record

  /** The block's `device` attribute, "unknown" when it has none. */
  function DeviceOf(blocks: map<string, BlockDoc>, id: string): string
  {
    if id in blocks && Constants.DEVICE in blocks[id].attributes then
      blocks[id].attributes[Constants.DEVICE]
    else "unknown"
  }

  /** The block's `timestamp` attribute, "" when it has none. */
  function TimestampOf(blocks: map<string, BlockDoc>, id: string): string
  {
    if id in blocks && Constants.TIMESTAMP in blocks[id].attributes then
      blocks[id].attributes[Constants.TIMESTAMP]
    else ""
  }

  function TimestampKey(blocks: map<string, BlockDoc>): string -> string
  {
    id => TimestampOf(blocks, id)
  }

  function SelfKey(): string -> string
  {
    s => s
  }

  function OnDevice(blocks: map<string, BlockDoc>, d: string): string -> bool
  {
    id => DeviceOf(blocks, id) == d
  }

  /** Blocks whose `prevId` names `p`. */
  function Follows(blocks: map<string, BlockDoc>, p: string): string -> bool
  {
    id => id in blocks && blocks[id].prevId == Some(p)
  }

  /** Chain heads: blocks with no `prevId` at all. */
  function IsHead(blocks: map<string, BlockDoc>): string -> bool
  {
    id => id in blocks && blocks[id].prevId.None?
  }

  function Unmarked(marked: set<string>): string -> bool
  {
    id => id !in marked
  }

  // ---------------------------------------------------------------------------------------
  // The derived tables of one parent group

  /** The distinct children that have a block record, in order of first occurrence. */
  function Members(childIds: seq<string>, blocks: map<string, BlockDoc>): (r: seq<string>)
    ensures NoDup(r)
    ensures forall x :: x in r <==> x in childIds && x in blocks
    decreases |childIds|
  {
    if childIds == [] then []
    else
      var m := Members(childIds[..|childIds| - 1], blocks);
      var x := childIds[|childIds| - 1];
      assert childIds == childIds[..|childIds| - 1] + [x];
      if x in blocks && x !in m then m + [x] else m
  }

  /** The members created on device `d`. */
  function Bucket(blocks: map<string, BlockDoc>, members: seq<string>, d: string): seq<string>
  {
    Filter(members, OnDevice(blocks, d))
  }

  /** The chain heads among the members created on device `d`. */
  function Roots(blocks: map<string, BlockDoc>, members: seq<string>, d: string): seq<string>
  {
    Filter(Bucket(blocks, members, d), IsHead(blocks))
  }

  /** The members whose `prevId` names `id`, by timestamp. */
  function Successors(blocks: map<string, BlockDoc>, members: seq<string>, id: string): (r: seq<string>)
    ensures forall x | x in r :: x in members && Follows(blocks, id)(x)
  {
    SortBy(Filter(members, Follows(blocks, id)), TimestampKey(blocks))
  }

  /** The devices of the blocks in `s`, each once. */
  function DistinctDevices(blocks: map<string, BlockDoc>, s: seq<string>): (r: seq<string>)
    ensures NoDup(r)
    ensures forall x | x in s :: DeviceOf(blocks, x) in r
    decreases |s|
  {
    if s == [] then []
    else
      var r := DistinctDevices(blocks, s[..|s| - 1]);
      var d := DeviceOf(blocks, s[|s| - 1]);
      assert s == s[..|s| - 1] + [s[|s| - 1]];
      if d in r then r else r + [d]
  }

  /** The keys of the device buckets in ascending order. */
  function Devices(blocks: map<string, BlockDoc>, members: seq<string>): seq<string>
  {
    SortBy(DistinctDevices(blocks, members), SelfKey())
  }

  // ---------------------------------------------------------------------------------------
  // The traversal, as functions of the ids emitted so far and the visited set

  datatype Trail = Trail(out: seq<string>, visited: set<string>)

  function Emit(t: Trail, id: string): Trail
  {
    Trail(t.out + [id], t.visited + {id})
  }

  /** Pushes `nxt` in reverse order, skipping visited ids, so that `nxt[0]` ends on top. */
  function PushUnvisited(stack: seq<string>, nxt: seq<string>, visited: set<string>): (r: seq<string>)
    ensures forall x | x in r :: x in stack || x in nxt
  {
    if nxt == [] then stack
    else PushUnvisited(stack, nxt[1..], visited) + (if nxt[0] in visited then [] else [nxt[0]])
  }

  lemma VisitShrinks(all: set<string>, visited: set<string>, id: string)
    requires id in all && id !in visited
    ensures |all - (visited + {id})| < |all - visited|
  {
    assert all - visited == (all - (visited + {id})) + {id};
  }

  /** The depth-first walk of lines 94-122: pop, skip if visited, emit, push successors. */
  function Walk(blocks: map<string, BlockDoc>, members: seq<string>, stack: seq<string>, t: Trail): Trail
    requires forall x | x in stack :: x in members
    decreases |Elems(members) - t.visited|, |stack|
  {
    if stack == [] then t
    else
      var id := stack[|stack| - 1];
      var rest := stack[..|stack| - 1];
      if id in t.visited then Walk(blocks, members, rest, t)
      else
        VisitShrinks(Elems(members), t.visited, id);
        Walk(blocks, members, PushUnvisited(rest, Successors(blocks, members, id), t.visited + {id}), Emit(t, id))
  }

  /** Lines 86-123: a walk from every root not yet visited. */
  function WalkRoots(blocks: map<string, BlockDoc>, members: seq<string>, roots: seq<string>, t: Trail): Trail
    requires forall x | x in roots :: x in members
  {
    if roots == [] then t
    else
      WalkRoots(blocks, members, roots[1..],
        if roots[0] in t.visited then t else Walk(blocks, members, [roots[0]], t))
  }

  /** Lines 126-133 and 138-143: emit every id of `ids` not visited yet, in order. */
  function AppendUnvisited(ids: seq<string>, t: Trail): Trail
  {
    if ids == [] then t
    else AppendUnvisited(ids[1..], if ids[0] in t.visited then t else Emit(t, ids[0]))
  }

  /** Lines 71-134 for one device: nothing unless the device has a root. */
  function DevicePhase(blocks: map<string, BlockDoc>, members: seq<string>, d: string, t: Trail): Trail
  {
    var roots := Roots(blocks, members, d);
    if roots == [] then t
    else
      AppendUnvisited(Bucket(blocks, members, d),
        WalkRoots(blocks, members, SortBy(roots, TimestampKey(blocks)), t))
  }

  function Phases(blocks: map<string, BlockDoc>, members: seq<string>, ds: seq<string>, t: Trail): Trail
  {
    if ds == [] then t
    else Phases(blocks, members, ds[1..], DevicePhase(blocks, members, ds[0], t))
  }

  /** The sorted child list of one parent. */
  function SortGroup(childIds: seq<string>, blocks: map<string, BlockDoc>): seq<string>
  {
    var members := Members(childIds, blocks);
    AppendUnvisited(childIds, Phases(blocks, members, Devices(blocks, members), Trail([], {}))).out
  }

  // ---------------------------------------------------------------------------------------
  // The sorter, loop by loop

  /** `blocks_by_device` of lines 25-34 holds exactly the non-empty buckets. */
  ghost predicate BucketTable(blocks: map<string, BlockDoc>, members: seq<string>, byDevice: map<string, seq<string>>)
  {
    && (forall d | d in byDevice :: byDevice[d] == Bucket(blocks, members, d))
    && (forall d | d !in byDevice :: Bucket(blocks, members, d) == [])
  }

  /** `next_blocks` of lines 37-45 holds exactly the non-empty successor lists. */
  ghost predicate NextTable(blocks: map<string, BlockDoc>, members: seq<string>, next: map<string, seq<string>>)
  {
    && (forall p | p in next :: next[p] == Filter(members, Follows(blocks, p)))
    && (forall p | p !in next :: Filter(members, Follows(blocks, p)) == [])
  }

  /** `roots_by_device` of lines 48-60 holds exactly the devices that have roots. */
  ghost predicate RootTable(blocks: map<string, BlockDoc>, members: seq<string>, rootsByDevice: map<string, seq<string>>)
  {
    && (forall d :: d in rootsByDevice <==> Roots(blocks, members, d) != [])
    && (forall d | d in rootsByDevice :: rootsByDevice[d] == Roots(blocks, members, d))
  }

  lemma BucketTableStep(blocks: map<string, BlockDoc>, members: seq<string>, i: nat,
                        byDevice: map<string, seq<string>>)
    requires i < |members| && BucketTable(blocks, members[..i], byDevice)
    ensures var d := DeviceOf(blocks, members[i]);
      BucketTable(blocks, members[..i + 1], byDevice[d := (if d in byDevice then byDevice[d] else []) + [members[i]]])
  {
    assert members[..i + 1] == members[..i] + [members[i]];
    BucketTableSnoc(blocks, members[..i], members[i], byDevice);
  }

  lemma BucketTableSnoc(blocks: map<string, BlockDoc>, s: seq<string>, x: string,
                        byDevice: map<string, seq<string>>)
    requires BucketTable(blocks, s, byDevice)
    ensures var d := DeviceOf(blocks, x);
      BucketTable(blocks, s + [x], byDevice[d := (if d in byDevice then byDevice[d] else []) + [x]])
  {
    var d := DeviceOf(blocks, x);
    var m := byDevice[d := (if d in byDevice then byDevice[d] else []) + [x]];
    forall e | e in m
      ensures m[e] == Bucket(blocks, s + [x], e)
    {
      FilterSnoc(s, x, OnDevice(blocks, e));
    }
    forall e | e !in m
      ensures Bucket(blocks, s + [x], e) == []
    {
      FilterSnoc(s, x, OnDevice(blocks, e));
    }
  }

  /** Lines 25-34. */
  method GroupByDevice(blocks: map<string, BlockDoc>, members: seq<string>)
    returns (byDevice: map<string, seq<string>>)
    ensures BucketTable(blocks, members, byDevice)
  {
    byDevice := map[];
    for i := 0 to |members|
      invariant BucketTable(blocks, members[..i], byDevice)
    {
      var id := members[i];
      var d := DeviceOf(blocks, id);
      BucketTableStep(blocks, members, i, byDevice);
      byDevice := byDevice[d := (if d in byDevice then byDevice[d] else []) + [id]];
    }
    assert members[..|members|] == members;
  }

  lemma NextTableSnoc(blocks: map<string, BlockDoc>, s: seq<string>, x: string, next: map<string, seq<string>>)
    requires x in blocks && NextTable(blocks, s, next)
    ensures blocks[x].prevId.Some? ==>
      var p := blocks[x].prevId.value;
      NextTable(blocks, s + [x], next[p := (if p in next then next[p] else []) + [x]])
    ensures blocks[x].prevId.None? ==> NextTable(blocks, s + [x], next)
  {
    var m := if blocks[x].prevId.Some? then
      var p := blocks[x].prevId.value; next[p := (if p in next then next[p] else []) + [x]]
    else next;
    forall q | q in m
      ensures m[q] == Filter(s + [x], Follows(blocks, q))
    {
      FilterSnoc(s, x, Follows(blocks, q));
    }
    forall q | q !in m
      ensures Filter(s + [x], Follows(blocks, q)) == []
    {
      FilterSnoc(s, x, Follows(blocks, q));
    }
  }

  /** Lines 37-45. */
  method LinkSuccessors(blocks: map<string, BlockDoc>, members: seq<string>)
    returns (next: map<string, seq<string>>, hasPrev: set<string>)
    requires forall x | x in members :: x in blocks
    ensures NextTable(blocks, members, next)
    ensures forall x | x in members :: x in hasPrev <==> blocks[x].prevId.Some?
  {
    next, hasPrev := map[], {};
    for i := 0 to |members|
      invariant NextTable(blocks, members[..i], next)
      invariant forall x | x in members :: x in hasPrev <==> x in members[..i] && blocks[x].prevId.Some?
    {
      var id := members[i];
      assert members[..i + 1] == members[..i] + [id];
      NextTableSnoc(blocks, members[..i], id, next);
      match blocks[id].prevId
      case Some(p) =>
        next := next[p := (if p in next then next[p] else []) + [id]];
        hasPrev := hasPrev + {id};
      case None =>
    }
    assert members[..|members|] == members;
  }

  /** Lines 48-60. */
  method CollectRoots(blocks: map<string, BlockDoc>, members: seq<string>,
                      byDevice: map<string, seq<string>>, hasPrev: set<string>)
    returns (rootsByDevice: map<string, seq<string>>)
    requires forall x | x in members :: x in blocks
    requires BucketTable(blocks, members, byDevice)
    requires forall x | x in members :: x in hasPrev <==> blocks[x].prevId.Some?
    ensures RootTable(blocks, members, rootsByDevice)
  {
    rootsByDevice := map[];
    var pending := byDevice.Keys;
    while pending != {}
      invariant pending <= byDevice.Keys
      invariant forall d :: d in rootsByDevice <==>
        d in byDevice && d !in pending && Roots(blocks, members, d) != []
      invariant forall d | d in rootsByDevice :: rootsByDevice[d] == Roots(blocks, members, d)
      decreases pending
    {
      var d :| d in pending;
      FilterAgree(byDevice[d], Unmarked(hasPrev), IsHead(blocks));
      var roots := Filter(byDevice[d], Unmarked(hasPrev));
      if roots != [] {
        rootsByDevice := rootsByDevice[d := roots];
      }
      pending := pending - {d};
    }
    forall d | d !in byDevice ensures Roots(blocks, members, d) == [] {
      FilterNone(Bucket(blocks, members, d), IsHead(blocks));
    }
  }

  /** Lines 116-120: push the successors in reverse, skipping visited ones. */
  method PushSuccessors(stack0: seq<string>, nextSorted: seq<string>, visited: set<string>)
    returns (stack: seq<string>)
    ensures stack == PushUnvisited(stack0, nextSorted, visited)
  {
    stack := stack0;
    var i := |nextSorted|;
    while i > 0
      invariant 0 <= i <= |nextSorted|
      invariant stack == PushUnvisited(stack0, nextSorted[i..], visited)
    {
      i := i - 1;
      assert nextSorted[i..][1..] == nextSorted[i + 1..];
      if nextSorted[i] !in visited {
        stack := stack + [nextSorted[i]];
      }
    }
  }

  /** Lines 91-122: the depth-first walk from one root. */
  method WalkChain(blocks: map<string, BlockDoc>, members: seq<string>, next: map<string, seq<string>>,
                   root: string, sortedIds0: seq<string>, visited0: set<string>)
    returns (sortedIds: seq<string>, visited: set<string>)
    requires root in members
    requires NextTable(blocks, members, next)
    ensures Trail(sortedIds, visited) == Walk(blocks, members, [root], Trail(sortedIds0, visited0))
  {
    sortedIds, visited := sortedIds0, visited0;
    var stack := [root];
    while stack != []
      invariant forall x | x in stack :: x in members
      invariant Walk(blocks, members, stack, Trail(sortedIds, visited))
             == Walk(blocks, members, [root], Trail(sortedIds0, visited0))
      decreases |Elems(members) - visited|, |stack|
    {
      var id := stack[|stack| - 1];
      stack := stack[..|stack| - 1];
      if id !in visited {
        VisitShrinks(Elems(members), visited, id);
        sortedIds := sortedIds + [id];
        visited := visited + {id};
        var nextSorted: seq<string> := [];
        if id in next {
          nextSorted := SortBy(next[id], TimestampKey(blocks));
        }
        assert nextSorted == Successors(blocks, members, id);
        stack := PushSuccessors(stack, nextSorted, visited);
      }
    }
  }

  /** Lines 126-133 and 138-143: append the ids not visited yet. */
  method AppendRemaining(ids: seq<string>, sortedIds0: seq<string>, visited0: set<string>)
    returns (sortedIds: seq<string>, visited: set<string>)
    ensures Trail(sortedIds, visited) == AppendUnvisited(ids, Trail(sortedIds0, visited0))
  {
    sortedIds, visited := sortedIds0, visited0;
    for i := 0 to |ids|
      invariant AppendUnvisited(ids[i..], Trail(sortedIds, visited))
             == AppendUnvisited(ids, Trail(sortedIds0, visited0))
    {
      assert ids[i..][1..] == ids[i + 1..];
      var id := ids[i];
      if id !in visited {
        sortedIds := sortedIds + [id];
        visited := visited + {id};
      }
    }
  }

  /** Lines 86-123: a walk from every root not visited yet. */
  method WalkFromRoots(blocks: map<string, BlockDoc>, members: seq<string>, next: map<string, seq<string>>,
                       roots: seq<string>, sortedIds0: seq<string>, visited0: set<string>)
    returns (sortedIds: seq<string>, visited: set<string>)
    requires forall x | x in roots :: x in members
    requires NextTable(blocks, members, next)
    ensures Trail(sortedIds, visited) == WalkRoots(blocks, members, roots, Trail(sortedIds0, visited0))
  {
    sortedIds, visited := sortedIds0, visited0;
    for j := 0 to |roots|
      invariant WalkRoots(blocks, members, roots[j..], Trail(sortedIds, visited))
             == WalkRoots(blocks, members, roots, Trail(sortedIds0, visited0))
    {
      assert roots[j..][1..] == roots[j + 1..];
      var root := roots[j];
      if root !in visited {
        sortedIds, visited := WalkChain(blocks, members, next, root, sortedIds, visited);
      }
    }
  }

  /** Lines 71-134 for one device. */
  method RunDevice(blocks: map<string, BlockDoc>, members: seq<string>, byDevice: map<string, seq<string>>,
                   next: map<string, seq<string>>, rootsByDevice: map<string, seq<string>>, d: string,
                   sortedIds0: seq<string>, visited0: set<string>)
    returns (sortedIds: seq<string>, visited: set<string>)
    requires BucketTable(blocks, members, byDevice)
    requires NextTable(blocks, members, next)
    requires RootTable(blocks, members, rootsByDevice)
    ensures Trail(sortedIds, visited) == DevicePhase(blocks, members, d, Trail(sortedIds0, visited0))
  {
    sortedIds, visited := sortedIds0, visited0;
    if d in rootsByDevice {
      var roots := SortBy(rootsByDevice[d], TimestampKey(blocks));
      assert forall x | x in roots :: x in members;
      sortedIds, visited := WalkFromRoots(blocks, members, next, roots, sortedIds, visited);
      if d in byDevice {
        sortedIds, visited := AppendRemaining(byDevice[d], sortedIds, visited);
      }
    }
  }

  /** Lines 18-145 for one parent. */
  method SortChildList(childIds: seq<string>, blocks: map<string, BlockDoc>) returns (sortedIds: seq<string>)
    ensures sortedIds == SortGroup(childIds, blocks)
  {
    var members := Members(childIds, blocks);
    var byDevice := GroupByDevice(blocks, members);
    var next, hasPrev := LinkSuccessors(blocks, members);
    var rootsByDevice := CollectRoots(blocks, members, byDevice, hasPrev);

    sortedIds := [];
    var visited: set<string> := {};
    var devices := Devices(blocks, members);
    for k := 0 to |devices|
      invariant Phases(blocks, members, devices[k..], Trail(sortedIds, visited))
             == Phases(blocks, members, devices, Trail([], {}))
    {
      assert devices[k..][1..] == devices[k + 1..];
      sortedIds, visited := RunDevice(blocks, members, byDevice, next, rootsByDevice, devices[k], sortedIds, visited);
    }
    sortedIds, visited := AppendRemaining(childIds, sortedIds, visited);
  }

  /** `ChainSorting::sort_blocks_by_chain`: one sorted list per parent. */
  method SortBlocksByChain(childrenMap: map<string, seq<string>>, blocks: map<string, BlockDoc>)
    returns (sorted: map<string, seq<string>>)
    ensures sorted.Keys == childrenMap.Keys
    ensures forall p | p in sorted :: sorted[p] == SortGroup(childrenMap[p], blocks)
    ensures forall p | p in sorted :: NoDup(sorted[p]) && Elems(sorted[p]) == Elems(childrenMap[p])
  {
    sorted := map[];
    var pending := childrenMap.Keys;
    while pending != {}
      invariant pending <= childrenMap.Keys
      invariant sorted.Keys == childrenMap.Keys - pending
      invariant forall p | p in sorted :: sorted[p] == SortGroup(childrenMap[p], blocks)
      decreases pending
    {
      var p :| p in pending;
      var ids := SortChildList(childrenMap[p], blocks);
      sorted := sorted[p := ids];
      pending := pending - {p};
    }
    forall p | p in sorted ensures NoDup(sorted[p]) && Elems(sorted[p]) == Elems(childrenMap[p]) {
      SortGroupIsPermutation(childrenMap[p], blocks);
    }
  }

  // ---------------------------------------------------------------------------------------
  // Every distinct child exactly once

  /** The ids emitted so far are distinct and are exactly the visited set. */
  ghost predicate Consistent(t: Trail)
  {
    NoDup(t.out) && Elems(t.out) == t.visited
  }

  lemma EmitConsistent(t: Trail, id: string)
    requires Consistent(t) && id !in t.visited
    ensures Consistent(Emit(t, id))
  {
  }

  lemma {:induction false} WalkConsistent(blocks: map<string, BlockDoc>, members: seq<string>, stack: seq<string>, t: Trail)
    requires forall x | x in stack :: x in members
    requires Consistent(t)
    ensures var r := Walk(blocks, members, stack, t);
      Consistent(r) && t.visited <= r.visited <= t.visited + Elems(members)
    decreases |Elems(members) - t.visited|, |stack|
  {
    if stack != [] {
      var id := stack[|stack| - 1];
      var rest := stack[..|stack| - 1];
      if id in t.visited {
        WalkConsistent(blocks, members, rest, t);
      } else {
        VisitShrinks(Elems(members), t.visited, id);
        EmitConsistent(t, id);
        WalkConsistent(blocks, members, PushUnvisited(rest, Successors(blocks, members, id), t.visited + {id}), Emit(t, id));
      }
    }
  }

  lemma {:induction false} WalkRootsConsistent(blocks: map<string, BlockDoc>, members: seq<string>, roots: seq<string>, t: Trail)
    requires forall x | x in roots :: x in members
    requires Consistent(t)
    ensures var r := WalkRoots(blocks, members, roots, t);
      Consistent(r) && t.visited <= r.visited <= t.visited + Elems(members)
  {
    if roots != [] {
      var t1 := if roots[0] in t.visited then t else Walk(blocks, members, [roots[0]], t);
      if roots[0] !in t.visited {
        WalkConsistent(blocks, members, [roots[0]], t);
      }
      WalkRootsConsistent(blocks, members, roots[1..], t1);
    }
  }

  lemma {:induction false} AppendConsistent(ids: seq<string>, t: Trail)
    requires Consistent(t)
    ensures var r := AppendUnvisited(ids, t);
      Consistent(r) && r.visited == t.visited + Elems(ids)
  {
    if ids != [] {
      var t1 := if ids[0] in t.visited then t else Emit(t, ids[0]);
      if ids[0] !in t.visited {
        EmitConsistent(t, ids[0]);
      }
      AppendConsistent(ids[1..], t1);
      assert Elems(ids) == {ids[0]} + Elems(ids[1..]);
    }
  }

  lemma DevicePhaseConsistent(blocks: map<string, BlockDoc>, members: seq<string>, d: string, t: Trail)
    requires Consistent(t)
    ensures var r := DevicePhase(blocks, members, d, t);
      Consistent(r) && t.visited <= r.visited <= t.visited + Elems(members)
  {
    var roots := Roots(blocks, members, d);
    if roots != [] {
      var sortedRoots := SortBy(roots, TimestampKey(blocks));
      WalkRootsConsistent(blocks, members, sortedRoots, t);
      AppendConsistent(Bucket(blocks, members, d), WalkRoots(blocks, members, sortedRoots, t));
    }
  }

  lemma {:induction false} PhasesConsistent(blocks: map<string, BlockDoc>, members: seq<string>, ds: seq<string>, t: Trail)
    requires Consistent(t)
    ensures var r := Phases(blocks, members, ds, t);
      Consistent(r) && t.visited <= r.visited <= t.visited + Elems(members)
  {
    if ds != [] {
      DevicePhaseConsistent(blocks, members, ds[0], t);
      PhasesConsistent(blocks, members, ds[1..], DevicePhase(blocks, members, ds[0], t));
    }
  }

  /** Every distinct id of the child list appears exactly once, and nothing else does. */
  lemma SortGroupIsPermutation(childIds: seq<string>, blocks: map<string, BlockDoc>)
    ensures NoDup(SortGroup(childIds, blocks))
    ensures Elems(SortGroup(childIds, blocks)) == Elems(childIds)
  {
    var members := Members(childIds, blocks);
    var t0 := Trail([], {});
    PhasesConsistent(blocks, members, Devices(blocks, members), t0);
    var t1 := Phases(blocks, members, Devices(blocks, members), t0);
    AppendConsistent(childIds, t1);
  }

  // ---------------------------------------------------------------------------------------
  // Chain heads come out by device, then by timestamp

  /** The heads of every device in `ds`, each device's by timestamp. */
  function HeadOrder(blocks: map<string, BlockDoc>, members: seq<string>, ds: seq<string>): seq<string>
  {
    if ds == [] then []
    else SortBy(Roots(blocks, members, ds[0]), TimestampKey(blocks)) + HeadOrder(blocks, members, ds[1..])
  }

  lemma {:induction false} WalkKeepsHeads(blocks: map<string, BlockDoc>, members: seq<string>, stack: seq<string>, t: Trail)
    requires forall x | x in stack :: x in members && !IsHead(blocks)(x)
    requires Consistent(t)
    ensures Filter(Walk(blocks, members, stack, t).out, IsHead(blocks)) == Filter(t.out, IsHead(blocks))
    decreases |Elems(members) - t.visited|, |stack|
  {
    if stack != [] {
      var id := stack[|stack| - 1];
      var rest := stack[..|stack| - 1];
      if id in t.visited {
        WalkKeepsHeads(blocks, members, rest, t);
      } else {
        VisitShrinks(Elems(members), t.visited, id);
        EmitConsistent(t, id);
        FilterSnoc(t.out, id, IsHead(blocks));
        WalkKeepsHeads(blocks, members, PushUnvisited(rest, Successors(blocks, members, id), t.visited + {id}), Emit(t, id));
      }
    }
  }

  /** A walk from an unvisited head emits that head and no other. */
  lemma WalkFromHead(blocks: map<string, BlockDoc>, members: seq<string>, r: string, t: Trail)
    requires r in members && IsHead(blocks)(r) && r !in t.visited
    requires Consistent(t)
    ensures Filter(Walk(blocks, members, [r], t).out, IsHead(blocks)) == Filter(t.out, IsHead(blocks)) + [r]
  {
    assert [r][..0] == [];
    var succ := Successors(blocks, members, r);
    EmitConsistent(t, r);
    FilterSnoc(t.out, r, IsHead(blocks));
    WalkKeepsHeads(blocks, members, PushUnvisited([], succ, t.visited + {r}), Emit(t, r));
  }

  /** A head that was unvisited and is not among the heads just emitted stays unvisited. */
  lemma HeadStaysUnvisited(blocks: map<string, BlockDoc>, t: Trail, t1: Trail, added: seq<string>, x: string)
    requires Consistent(t) && Consistent(t1)
    requires Filter(t1.out, IsHead(blocks)) == Filter(t.out, IsHead(blocks)) + added
    requires IsHead(blocks)(x) && x !in t.visited && x !in added
    ensures x !in t1.visited
  {
    assert x !in Filter(t.out, IsHead(blocks));
    assert x !in Filter(t1.out, IsHead(blocks));
  }

  lemma NoDupTail(s: seq<string>)
    requires s != [] && NoDup(s)
    ensures NoDup(s[1..]) && s[0] !in s[1..]
  {
    var tail := s[1..];
    forall i, j | 0 <= i < j < |tail| ensures tail[i] != tail[j] {
      assert tail[i] == s[i + 1] && tail[j] == s[j + 1];
    }
  }

  lemma RestUnvisited(blocks: map<string, BlockDoc>, members: seq<string>, roots: seq<string>, t: Trail, t1: Trail)
    requires roots != [] && NoDup(roots)
    requires forall x | x in roots :: x in members && IsHead(blocks)(x) && x !in t.visited
    requires Consistent(t) && Consistent(t1)
    requires Filter(t1.out, IsHead(blocks)) == Filter(t.out, IsHead(blocks)) + [roots[0]]
    ensures forall x | x in roots[1..] :: x in members && IsHead(blocks)(x) && x !in t1.visited
  {
    NoDupTail(roots);
    forall x | x in roots[1..] ensures x in members && IsHead(blocks)(x) && x !in t1.visited {
      HeadStaysUnvisited(blocks, t, t1, [roots[0]], x);
    }
  }

  lemma ConsAppend(a: seq<string>, s: seq<string>)
    requires s != []
    ensures (a + [s[0]]) + s[1..] == a + s
  {
  }

  lemma {:induction false} WalkRootsEmitsHeads(blocks: map<string, BlockDoc>, members: seq<string>, roots: seq<string>, t: Trail)
    requires forall x | x in roots :: x in members && IsHead(blocks)(x) && x !in t.visited
    requires NoDup(roots)
    requires Consistent(t)
    ensures Filter(WalkRoots(blocks, members, roots, t).out, IsHead(blocks)) == Filter(t.out, IsHead(blocks)) + roots
  {
    if roots == [] {
      assert Filter(t.out, IsHead(blocks)) + roots == Filter(t.out, IsHead(blocks));
    } else {
      var r := roots[0];
      var tail := roots[1..];
      var t1 := Walk(blocks, members, [r], t);
      assert WalkRoots(blocks, members, roots, t) == WalkRoots(blocks, members, tail, t1);
      WalkFromHead(blocks, members, r, t);
      WalkConsistent(blocks, members, [r], t);
      NoDupTail(roots);
      RestUnvisited(blocks, members, roots, t, t1);
      WalkRootsEmitsHeads(blocks, members, tail, t1);
      var before := Filter(t.out, IsHead(blocks));
      var after := Filter(WalkRoots(blocks, members, tail, t1).out, IsHead(blocks));
      assert after == (before + [r]) + tail;
      ConsAppend(before, roots);
    }
  }

  lemma {:induction false} AppendKeepsHeads(blocks: map<string, BlockDoc>, ids: seq<string>, t: Trail)
    requires forall x | x in ids && IsHead(blocks)(x) :: x in t.visited
    requires Consistent(t)
    ensures Filter(AppendUnvisited(ids, t).out, IsHead(blocks)) == Filter(t.out, IsHead(blocks))
  {
    if ids != [] {
      var x := ids[0];
      if x !in t.visited {
        EmitConsistent(t, x);
        FilterSnoc(t.out, x, IsHead(blocks));
        AppendKeepsHeads(blocks, ids[1..], Emit(t, x));
      } else {
        AppendKeepsHeads(blocks, ids[1..], t);
      }
    }
  }

  lemma DevicePhaseEmitsHeads(blocks: map<string, BlockDoc>, members: seq<string>, d: string, t: Trail)
    requires NoDup(members) && forall x | x in members :: x in blocks
    requires forall x | x in Roots(blocks, members, d) :: x !in t.visited
    requires Consistent(t)
    ensures Filter(DevicePhase(blocks, members, d, t).out, IsHead(blocks))
         == Filter(t.out, IsHead(blocks)) + SortBy(Roots(blocks, members, d), TimestampKey(blocks))
  {
    var roots := Roots(blocks, members, d);
    var sortedRoots := SortBy(roots, TimestampKey(blocks));
    if roots == [] {
      assert Filter(t.out, IsHead(blocks)) + sortedRoots == Filter(t.out, IsHead(blocks));
    } else {
      FilterNoDup(members, OnDevice(blocks, d));
      FilterNoDup(Bucket(blocks, members, d), IsHead(blocks));
      SortPreservesNoDup(roots, TimestampKey(blocks));
      WalkRootsEmitsHeads(blocks, members, sortedRoots, t);
      WalkRootsConsistent(blocks, members, sortedRoots, t);
      var t1 := WalkRoots(blocks, members, sortedRoots, t);
      forall x | x in Bucket(blocks, members, d) && IsHead(blocks)(x) ensures x in t1.visited {
        assert x in Filter(t1.out, IsHead(blocks));
      }
      AppendKeepsHeads(blocks, Bucket(blocks, members, d), t1);
    }
  }

  lemma {:induction false} InsertByNoDup(x: string, s: seq<string>, key: string -> string)
    requires NoDup(s) && x !in s
    ensures NoDup(InsertBy(x, s, key))
  {
    if s != [] && !StrLt(key(x), key(s[0])) {
      var tail := s[1..];
      assert NoDup(tail) by {
        forall i, j | 0 <= i < j < |tail| ensures tail[i] != tail[j] {
          assert tail[i] == s[i + 1] && tail[j] == s[j + 1];
        }
      }
      InsertByNoDup(x, tail, key);
      var r := InsertBy(x, tail, key);
      assert s[0] !in tail;
      assert s[0] !in multiset(r) by {
        assert multiset(r) == multiset(tail) + multiset{x};
      }
    }
  }

  lemma {:induction false} SortPreservesNoDup(s: seq<string>, key: string -> string)
    requires NoDup(s)
    ensures NoDup(SortBy(s, key))
  {
    if s != [] {
      var init := s[..|s| - 1];
      assert NoDup(init);
      SortPreservesNoDup(init, key);
      assert s[|s| - 1] !in init;
      InsertByNoDup(s[|s| - 1], SortBy(init, key), key);
    }
  }

  lemma {:induction false} RootsOnDevice(blocks: map<string, BlockDoc>, members: seq<string>, d: string, x: string)
    requires x in Roots(blocks, members, d)
    ensures x in members && IsHead(blocks)(x) && DeviceOf(blocks, x) == d
  {
  }

  lemma {:induction false} HeadOrderDevices(blocks: map<string, BlockDoc>, members: seq<string>, ds: seq<string>, x: string)
    requires x in HeadOrder(blocks, members, ds)
    ensures x in Roots(blocks, members, DeviceOf(blocks, x)) && DeviceOf(blocks, x) in ds
  {
    if x in SortBy(Roots(blocks, members, ds[0]), TimestampKey(blocks)) {
      RootsOnDevice(blocks, members, ds[0], x);
    } else {
      HeadOrderDevices(blocks, members, ds[1..], x);
    }
  }

  lemma {:induction false} HeadOrderCovers(blocks: map<string, BlockDoc>, members: seq<string>, ds: seq<string>, x: string)
    requires x in Roots(blocks, members, DeviceOf(blocks, x)) && DeviceOf(blocks, x) in ds
    ensures x in HeadOrder(blocks, members, ds)
  {
    if ds[0] != DeviceOf(blocks, x) {
      HeadOrderCovers(blocks, members, ds[1..], x);
    }
  }

  lemma {:induction false} PhasesEmitsHeads(blocks: map<string, BlockDoc>, members: seq<string>, ds: seq<string>, t: Trail)
    requires NoDup(members) && forall x | x in members :: x in blocks
    requires NoDup(ds)
    requires forall d, x | d in ds && x in Roots(blocks, members, d) :: x !in t.visited
    requires Consistent(t)
    ensures Filter(Phases(blocks, members, ds, t).out, IsHead(blocks))
         == Filter(t.out, IsHead(blocks)) + HeadOrder(blocks, members, ds)
  {
    if ds == [] {
      assert Filter(t.out, IsHead(blocks)) + [] == Filter(t.out, IsHead(blocks));
    } else {
      var d := ds[0];
      var added := SortBy(Roots(blocks, members, d), TimestampKey(blocks));
      var t1 := DevicePhase(blocks, members, d, t);
      DevicePhaseEmitsHeads(blocks, members, d, t);
      DevicePhaseConsistent(blocks, members, d, t);
      LaterRootsUnvisited(blocks, members, ds, t, t1);
      PhasesEmitsHeads(blocks, members, ds[1..], t1);
      AppendAssoc(Filter(t.out, IsHead(blocks)), added, HeadOrder(blocks, members, ds[1..]));
    }
  }

  lemma AppendAssoc(a: seq<string>, b: seq<string>, c: seq<string>)
    ensures (a + b) + c == a + (b + c)
  {
  }

  lemma LaterRootsUnvisited(blocks: map<string, BlockDoc>, members: seq<string>, ds: seq<string>, t: Trail, t1: Trail)
    requires ds != [] && NoDup(ds)
    requires forall d, x | d in ds && x in Roots(blocks, members, d) :: x !in t.visited
    requires Consistent(t) && Consistent(t1)
    requires Filter(t1.out, IsHead(blocks))
          == Filter(t.out, IsHead(blocks)) + SortBy(Roots(blocks, members, ds[0]), TimestampKey(blocks))
    ensures forall d, x | d in ds[1..] && x in Roots(blocks, members, d) :: x !in t1.visited
  {
    var added := SortBy(Roots(blocks, members, ds[0]), TimestampKey(blocks));
    NoDupTail(ds);
    forall e, x | e in ds[1..] && x in Roots(blocks, members, e) ensures x !in t1.visited {
      RootsOnDevice(blocks, members, e, x);
      if x in added {
        RootsOnDevice(blocks, members, ds[0], x);
      }
      HeadStaysUnvisited(blocks, t, t1, added, x);
    }
  }

  /**
   * Lines 67-134: the chain heads of a parent's children (blocks with no `prevId`) come out
   * device by device in ascending device order, each device's heads by ascending timestamp,
   * and every head among the children comes out.
   */
  lemma SortGroupHeads(childIds: seq<string>, blocks: map<string, BlockDoc>)
    ensures var members := Members(childIds, blocks);
      Filter(SortGroup(childIds, blocks), IsHead(blocks)) == HeadOrder(blocks, members, Devices(blocks, members))
  {
    var members := Members(childIds, blocks);
    var ds := Devices(blocks, members);
    var t0 := Trail([], {});
    SortPreservesNoDup(DistinctDevices(blocks, members), SelfKey());
    PhasesEmitsHeads(blocks, members, ds, t0);
    PhasesConsistent(blocks, members, ds, t0);
    var t1 := Phases(blocks, members, ds, t0);
    assert Filter(t0.out, IsHead(blocks)) == [];
    forall x | x in childIds && IsHead(blocks)(x) ensures x in t1.visited {
      assert x in members;
      var d := DeviceOf(blocks, x);
      assert x in Bucket(blocks, members, d);
      assert x in Roots(blocks, members, d);
      assert d in DistinctDevices(blocks, members);
      HeadOrderCovers(blocks, members, ds, x);
      assert x in Filter(t1.out, IsHead(blocks));
    }
    AppendKeepsHeads(blocks, childIds, t1);
  }

  /** `a` may precede `b`: by device, then, on the same device, by timestamp. */
  predicate DeviceThenTime(blocks: map<string, BlockDoc>, a: string, b: string)
  {
    if DeviceOf(blocks, a) == DeviceOf(blocks, b) then StrLe(TimestampOf(blocks, a), TimestampOf(blocks, b))
    else StrLe(DeviceOf(blocks, a), DeviceOf(blocks, b))
  }

  predicate HeadsOrdered(blocks: map<string, BlockDoc>, h: seq<string>)
  {
    forall i, j | 0 <= i < j < |h| :: DeviceThenTime(blocks, h[i], h[j])
  }

  lemma ConcatOrdered(blocks: map<string, BlockDoc>, a: seq<string>, b: seq<string>)
    requires HeadsOrdered(blocks, a) && HeadsOrdered(blocks, b)
    requires forall x, y | x in a && y in b :: DeviceThenTime(blocks, x, y)
    ensures HeadsOrdered(blocks, a + b)
  {
    var c := a + b;
    forall i, j | 0 <= i < j < |c| ensures DeviceThenTime(blocks, c[i], c[j]) {
      if j < |a| {
        assert c[i] == a[i] && c[j] == a[j];
      } else if i >= |a| {
        assert c[i] == b[i - |a|] && c[j] == b[j - |a|];
      } else {
        assert c[i] in a && c[j] in b;
      }
    }
  }

  /** One device's heads, sorted by timestamp, are ordered. */
  lemma DeviceHeadsOrdered(blocks: map<string, BlockDoc>, members: seq<string>, d: string)
    ensures HeadsOrdered(blocks, SortBy(Roots(blocks, members, d), TimestampKey(blocks)))
  {
    var h := SortBy(Roots(blocks, members, d), TimestampKey(blocks));
    SortBySorted(Roots(blocks, members, d), TimestampKey(blocks));
    forall i, j | 0 <= i < j < |h| ensures DeviceThenTime(blocks, h[i], h[j]) {
      RootsOnDevice(blocks, members, d, h[i]);
      RootsOnDevice(blocks, members, d, h[j]);
    }
  }

  lemma {:induction false} HeadOrderOrdered(blocks: map<string, BlockDoc>, members: seq<string>, ds: seq<string>)
    requires SortedBy(ds, SelfKey()) && NoDup(ds)
    ensures HeadsOrdered(blocks, HeadOrder(blocks, members, ds))
  {
    if ds != [] {
      var d := ds[0];
      var a := SortBy(Roots(blocks, members, d), TimestampKey(blocks));
      var rest := HeadOrder(blocks, members, ds[1..]);
      DeviceHeadsOrdered(blocks, members, d);
      SortedTail(ds, SelfKey());
      NoDupTail(ds);
      HeadOrderOrdered(blocks, members, ds[1..]);
      forall x, y | x in a && y in rest ensures DeviceThenTime(blocks, x, y) {
        RootsOnDevice(blocks, members, d, x);
        HeadOrderDevices(blocks, members, ds[1..], y);
        var k :| 0 <= k < |ds[1..]| && ds[1..][k] == DeviceOf(blocks, y);
        assert ds[k + 1] == DeviceOf(blocks, y);
        assert StrLe(SelfKey()(ds[0]), SelfKey()(ds[k + 1]));
      }
      ConcatOrdered(blocks, a, rest);
    }
  }

  /**
   * Lines 27-34 and 67-83: in every sorted child list the chain heads are exactly the heads
   * among the children, in ascending device order ("unknown" when absent) and, within one
   * device, in ascending timestamp order ("" when absent).
   */
  lemma SortGroupHeadsOrdered(childIds: seq<string>, blocks: map<string, BlockDoc>)
    ensures var h := Filter(SortGroup(childIds, blocks), IsHead(blocks));
      && HeadsOrdered(blocks, h)
      && forall x :: x in h <==> x in childIds && IsHead(blocks)(x)
  {
    var members := Members(childIds, blocks);
    SortGroupHeads(childIds, blocks);
    SortGroupIsPermutation(childIds, blocks);
    SortBySorted(DistinctDevices(blocks, members), SelfKey());
    SortPreservesNoDup(DistinctDevices(blocks, members), SelfKey());
    HeadOrderOrdered(blocks, members, Devices(blocks, members));
    var h := Filter(SortGroup(childIds, blocks), IsHead(blocks));
    forall x ensures x in h <==> x in childIds && IsHead(blocks)(x) {
      assert x in SortGroup(childIds, blocks) <==> x in Elems(SortGroup(childIds, blocks));
      assert x in childIds <==> x in Elems(childIds);
    }
  }

  // ---------------------------------------------------------------------------------------
  // Children without chain heads

  /** The first occurrence of every id of `s` that is not in `seen`, in order. */
  function FirstOccurrences(s: seq<string>, seen: set<string>): seq<string>
  {
    if s == [] then []
    else if s[0] in seen then FirstOccurrences(s[1..], seen)
    else [s[0]] + FirstOccurrences(s[1..], seen + {s[0]})
  }

  lemma {:induction false} AppendIsFirstOccurrences(ids: seq<string>, t: Trail)
    ensures AppendUnvisited(ids, t).out == t.out + FirstOccurrences(ids, t.visited)
  {
    if ids != [] {
      if ids[0] in t.visited {
        AppendIsFirstOccurrences(ids[1..], t);
      } else {
        AppendIsFirstOccurrences(ids[1..], Emit(t, ids[0]));
        AppendAssoc(t.out, [ids[0]], FirstOccurrences(ids[1..], t.visited + {ids[0]}));
      }
    }
  }

  lemma {:induction false} PhasesIdle(blocks: map<string, BlockDoc>, members: seq<string>, ds: seq<string>, t: Trail)
    requires forall x | x in members :: !IsHead(blocks)(x)
    ensures Phases(blocks, members, ds, t) == t
  {
    if ds != [] {
      FilterNone(Bucket(blocks, members, ds[0]), IsHead(blocks));
      PhasesIdle(blocks, members, ds[1..], t);
    }
  }

  /**
   * Lines 137-143: when no child is a chain head (every child has a `prevId`, as in a
   * `prevId` cycle), the sorted list is the child list with repeats dropped.
   */
  lemma SortGroupWithoutHeads(childIds: seq<string>, blocks: map<string, BlockDoc>)
    requires forall x | x in childIds :: !IsHead(blocks)(x)
    ensures SortGroup(childIds, blocks) == FirstOccurrences(childIds, {})
  {
    var members := Members(childIds, blocks);
    var t0 := Trail([], {});
    PhasesIdle(blocks, members, Devices(blocks, members), t0);
    AppendIsFirstOccurrences(childIds, t0);
  }

  /** Two blocks naming each other as `prevId` each come out once, in child-list order. */
  lemma CycleComesOutOnce(blocks: map<string, BlockDoc>, a: string, b: string)
    requires a != b && a in blocks && b in blocks
    requires blocks[a].prevId == Some(b) && blocks[b].prevId == Some(a)
    ensures SortGroup([a, b], blocks) == [a, b]
  {
    SortGroupWithoutHeads([a, b], blocks);
    FirstOccurrencesOfPair(a, b);
  }

  lemma FirstOccurrencesOfPair(a: string, b: string)
    requires a != b
    ensures FirstOccurrences([a, b], {}) == [a, b]
  {
    var s := [a, b];
    assert s[1..] == [b] && [b][1..] == [];
    assert FirstOccurrences([b], {a}) == [b] + FirstOccurrences([], {a, b}) == [b];
    assert FirstOccurrences(s, {}) == [a] + FirstOccurrences([b], {} + {a});
  }

  /**
   * Lines 86-122 on a chain: x, then y whose `prevId` is x, then z whose `prevId` is y,
   * come out in chain order, whatever the devices of y and z.
   */
  lemma ChainComesOutInOrder(blocks: map<string, BlockDoc>, x: string, y: string, z: string)
    requires x != y && y != z && x != z
    requires x in blocks && y in blocks && z in blocks
    requires blocks[x].prevId.None? && blocks[y].prevId == Some(x) && blocks[z].prevId == Some(y)
    ensures SortGroup([x, y, z], blocks) == [x, y, z]
  {
    var c, done := [x, y, z], Trail([x, y, z], {x, y, z});
    MembersOfTriple(blocks, x, y, z);
    WalkAlongChain(blocks, x, y, z);
    ChainHasOneHead(blocks, x, y, z);
    SortGroupIsWalk(blocks, c, x, done);
  }

  lemma ChainHasOneHead(blocks: map<string, BlockDoc>, x: string, y: string, z: string)
    requires x in blocks && y in blocks && z in blocks
    requires blocks[x].prevId.None? && blocks[y].prevId == Some(x) && blocks[z].prevId == Some(y)
    ensures IsHead(blocks)(x)
    ensures forall e | e in [x, y, z] && e != x :: !IsHead(blocks)(e)
    ensures forall e | e in [x, y, z] :: e in {x, y, z}
  {
  }

  /**
   * A group whose children all have records, with one chain head `x` whose walk visits
   * every child, comes out in the order of that walk.
   */
  lemma SortGroupIsWalk(blocks: map<string, BlockDoc>, c: seq<string>, x: string, done: Trail)
    requires Members(c, blocks) == c && x in c && IsHead(blocks)(x)
    requires forall e | e in c && e != x :: !IsHead(blocks)(e)
    requires Walk(blocks, c, [x], Trail([], {})) == done
    requires forall e | e in c :: e in done.visited
    ensures SortGroup(c, blocks) == done.out
  {
    OnlyHeadPhase(blocks, c, x, done);
    AppendAllVisited(c, done);
  }

  /**
   * When `x` is the only chain head among the members and the walk from it visits them
   * all, the device phases come to that walk.
   */
  lemma OnlyHeadPhase(blocks: map<string, BlockDoc>, s: seq<string>, x: string, done: Trail)
    requires NoDup(s) && x in s && IsHead(blocks)(x)
    requires forall e | e in s && e != x :: !IsHead(blocks)(e)
    requires Walk(blocks, s, [x], Trail([], {})) == done
    requires forall e | e in s :: e in done.visited
    ensures Phases(blocks, s, Devices(blocks, s), Trail([], {})) == done
  {
    var d0 := DeviceOf(blocks, x);
    SortPreservesNoDup(DistinctDevices(blocks, s), SelfKey());
    OnlyRootIsHead(blocks, s, x, d0);
    HeadDevicePhase(blocks, s, x, done);
    PhasesOneActive(blocks, s, Devices(blocks, s), d0, Trail([], {}));
  }

  /** The phase of the head's device walks from the head and then finds its bucket visited. */
  lemma HeadDevicePhase(blocks: map<string, BlockDoc>, s: seq<string>, x: string, done: Trail)
    requires x in s && Roots(blocks, s, DeviceOf(blocks, x)) == [x]
    requires Walk(blocks, s, [x], Trail([], {})) == done
    requires forall e | e in s :: e in done.visited
    ensures DevicePhase(blocks, s, DeviceOf(blocks, x), Trail([], {})) == done
  {
    var d0 := DeviceOf(blocks, x);
    SortBy1(x, TimestampKey(blocks));
    WalkRootsOne(blocks, s, x, Trail([], {}));
    AppendAllVisited(Bucket(blocks, s, d0), done);
  }

  lemma WalkRootsOne(blocks: map<string, BlockDoc>, s: seq<string>, x: string, t: Trail)
    requires x in s && x !in t.visited
    ensures WalkRoots(blocks, s, [x], t) == Walk(blocks, s, [x], t)
  {
    assert [x][1..] == [];
  }

  lemma MembersOfTriple(blocks: map<string, BlockDoc>, x: string, y: string, z: string)
    requires x != y && y != z && x != z
    requires x in blocks && y in blocks && z in blocks
    ensures Members([x, y, z], blocks) == [x, y, z]
  {
    MembersSnoc([], x, blocks);
    assert [] + [x] == [x];
    MembersSnoc([x], y, blocks);
    assert [x] + [y] == [x, y];
    MembersSnoc([x, y], z, blocks);
    assert [x, y] + [z] == [x, y, z];
  }

  lemma MembersSnoc(c: seq<string>, last: string, blocks: map<string, BlockDoc>)
    requires last in blocks && last !in c
    ensures Members(c + [last], blocks) == Members(c, blocks) + [last]
  {
    assert (c + [last])[..|c|] == c;
  }

  lemma FilterTriple(x: string, y: string, z: string, p: string -> bool)
    ensures Filter([x, y, z], p)
      == (if p(x) then [x] else []) + (if p(y) then [y] else []) + (if p(z) then [z] else [])
  {
    FilterSnoc([], x, p);
    assert [] + [x] == [x];
    FilterSnoc([x], y, p);
    assert [x] + [y] == [x, y];
    FilterSnoc([x, y], z, p);
    assert [x, y] + [z] == [x, y, z];
  }

  lemma SortBy1(x: string, key: string -> string)
    ensures SortBy([x], key) == [x]
  {
    assert [x][..0] == [];
  }

  /** One step of the walk from a single unvisited id. */
  lemma WalkOne(blocks: map<string, BlockDoc>, members: seq<string>, id: string, t: Trail)
    requires id in members && id !in t.visited
    ensures Walk(blocks, members, [id], t)
      == Walk(blocks, members, PushUnvisited([], Successors(blocks, members, id), t.visited + {id}), Emit(t, id))
  {
    assert [id][..0] == [];
  }

  lemma PushOne(y: string, visited: set<string>)
    requires y !in visited
    ensures PushUnvisited([], [y], visited) == [y]
  {
    assert [y][1..] == [];
  }

  /** A walk along three members, each the single successor of the one before. */
  lemma WalkThree(blocks: map<string, BlockDoc>, s: seq<string>, x: string, y: string, z: string)
    requires x != y && y != z && x != z
    requires x in s && y in s && z in s
    requires Successors(blocks, s, x) == [y] && Successors(blocks, s, y) == [z] && Successors(blocks, s, z) == []
    ensures Walk(blocks, s, [x], Trail([], {})) == Trail([x, y, z], {x, y, z})
  {
    WalkFirstLink(blocks, s, x, y);
    WalkSecondLink(blocks, s, x, y, z);
    WalkChainEnd(blocks, s, x, y, z);
  }

  lemma WalkFirstLink(blocks: map<string, BlockDoc>, s: seq<string>, x: string, y: string)
    requires x != y && x in s && y in s
    requires Successors(blocks, s, x) == [y]
    ensures Walk(blocks, s, [x], Trail([], {})) == Walk(blocks, s, [y], Trail([x], {x}))
  {
    var t0 := Trail([], {});
    assert Emit(t0, x) == Trail([x], {x});
    WalkStep(blocks, s, x, y, t0);
  }

  lemma WalkSecondLink(blocks: map<string, BlockDoc>, s: seq<string>, x: string, y: string, z: string)
    requires x != y && y != z && x != z && y in s && z in s
    requires Successors(blocks, s, y) == [z]
    ensures Walk(blocks, s, [y], Trail([x], {x})) == Walk(blocks, s, [z], Trail([x, y], {x, y}))
  {
    var t1 := Trail([x], {x});
    var t2 := Trail([x, y], {x, y});
    assert Emit(t1, y) == t2;
    WalkStep(blocks, s, y, z, t1);
  }

  /** A step of the walk from `id` to its single successor `next`. */
  lemma WalkStep(blocks: map<string, BlockDoc>, members: seq<string>, id: string, next: string, t: Trail)
    requires id in members && next in members && id !in t.visited && next !in t.visited + {id}
    requires Successors(blocks, members, id) == [next]
    ensures Walk(blocks, members, [id], t) == Walk(blocks, members, [next], Emit(t, id))
  {
    WalkOne(blocks, members, id, t);
    PushOne(next, t.visited + {id});
  }

  lemma WalkChainEnd(blocks: map<string, BlockDoc>, s: seq<string>, x: string, y: string, z: string)
    requires y != z && x != z && z in s
    requires Successors(blocks, s, z) == []
    ensures Walk(blocks, s, [z], Trail([x, y], {x, y})) == Trail([x, y, z], {x, y, z})
  {
    var t2 := Trail([x, y], {x, y});
    WalkOne(blocks, s, z, t2);
    assert Emit(t2, z) == Trail([x, y, z], {x, y, z});
  }

  lemma WalkAlongChain(blocks: map<string, BlockDoc>, x: string, y: string, z: string)
    requires x != y && y != z && x != z
    requires x in blocks && y in blocks && z in blocks
    requires blocks[x].prevId.None? && blocks[y].prevId == Some(x) && blocks[z].prevId == Some(y)
    ensures Walk(blocks, [x, y, z], [x], Trail([], {})) == Trail([x, y, z], {x, y, z})
  {
    SuccessorOfHead(blocks, x, y, z);
    SuccessorOfMiddle(blocks, x, y, z);
    SuccessorOfLast(blocks, x, y, z);
    WalkThree(blocks, [x, y, z], x, y, z);
  }

  lemma SuccessorOfHead(blocks: map<string, BlockDoc>, x: string, y: string, z: string)
    requires x != y && y != z && x != z
    requires x in blocks && y in blocks && z in blocks
    requires blocks[x].prevId.None? && blocks[y].prevId == Some(x) && blocks[z].prevId == Some(y)
    ensures Successors(blocks, [x, y, z], x) == [y]
  {
    FilterTriple(x, y, z, Follows(blocks, x));
    SuccessorsSingle(blocks, [x, y, z], x, y);
  }

  lemma SuccessorOfMiddle(blocks: map<string, BlockDoc>, x: string, y: string, z: string)
    requires x != y && y != z && x != z
    requires x in blocks && y in blocks && z in blocks
    requires blocks[x].prevId.None? && blocks[y].prevId == Some(x) && blocks[z].prevId == Some(y)
    ensures Successors(blocks, [x, y, z], y) == [z]
  {
    FilterTriple(x, y, z, Follows(blocks, y));
    SuccessorsSingle(blocks, [x, y, z], y, z);
  }

  lemma SuccessorOfLast(blocks: map<string, BlockDoc>, x: string, y: string, z: string)
    requires x != y && y != z && x != z
    requires x in blocks && y in blocks && z in blocks
    requires blocks[x].prevId.None? && blocks[y].prevId == Some(x) && blocks[z].prevId == Some(y)
    ensures Successors(blocks, [x, y, z], z) == []
  {
    FilterTriple(x, y, z, Follows(blocks, z));
  }

  lemma SuccessorsSingle(blocks: map<string, BlockDoc>, s: seq<string>, p: string, y: string)
    requires Filter(s, Follows(blocks, p)) == [y]
    ensures Successors(blocks, s, p) == [y]
  {
    SortBy1(y, TimestampKey(blocks));
  }

  /** `x` is the only chain head among `s`, so only its device has roots, and those are `[x]`. */
  lemma OnlyRootIsHead(blocks: map<string, BlockDoc>, s: seq<string>, x: string, d0: string)
    requires NoDup(s) && x in s && IsHead(blocks)(x) && d0 == DeviceOf(blocks, x)
    requires forall e | e in s && e != x :: !IsHead(blocks)(e)
    ensures Roots(blocks, s, d0) == [x]
    ensures forall d | d != d0 :: Roots(blocks, s, d) == []
  {
    FilterNoDup(s, OnDevice(blocks, d0));
    FilterNoDup(Bucket(blocks, s, d0), IsHead(blocks));
    var r := Roots(blocks, s, d0);
    assert Elems(r) == {x};
    NoDupSize(r);
    assert r[0] in r;
    assert r == [x];
    forall d | d != d0
      ensures Roots(blocks, s, d) == []
    {
      FilterNone(Bucket(blocks, s, d), IsHead(blocks));
    }
  }

  /** A list without repeats has as many elements as distinct ones. */
  lemma {:induction false} NoDupSize(r: seq<string>)
    requires NoDup(r)
    ensures |Elems(r)| == |r|
    decreases |r|
  {
    if r != [] {
      var init := r[..|r| - 1];
      NoDupSize(init);
      assert r == init + [r[|r| - 1]];
      assert Elems(r) == Elems(init) + {r[|r| - 1]};
      assert r[|r| - 1] !in Elems(init);
    }
  }

  lemma {:induction false} AppendAllVisited(ids: seq<string>, t: Trail)
    requires forall e | e in ids :: e in t.visited
    ensures AppendUnvisited(ids, t) == t
    decreases |ids|
  {
    if ids != [] {
      AppendAllVisited(ids[1..], t);
    }
  }

  /** Only device `d0` has roots: the device phases come to the phase of `d0` alone. */
  lemma {:induction false} PhasesOneActive(blocks: map<string, BlockDoc>, members: seq<string>, ds: seq<string>,
                                           d0: string, t: Trail)
    requires NoDup(ds) && d0 in ds
    requires forall d | d != d0 :: Roots(blocks, members, d) == []
    ensures Phases(blocks, members, ds, t) == DevicePhase(blocks, members, d0, t)
    decreases |ds|
  {
    if ds[0] == d0 {
      PhasesNoRoots(blocks, members, ds[1..], DevicePhase(blocks, members, d0, t), d0);
    } else {
      assert d0 in ds[1..];
      PhasesOneActive(blocks, members, ds[1..], d0, t);
    }
  }

  lemma {:induction false} PhasesNoRoots(blocks: map<string, BlockDoc>, members: seq<string>, ds: seq<string>,
                                         t: Trail, d0: string)
    requires d0 !in ds
    requires forall d | d != d0 :: Roots(blocks, members, d) == []
    ensures Phases(blocks, members, ds, t) == t
    decreases |ds|
  {
    if ds != [] {
      PhasesNoRoots(blocks, members, ds[1..], t, d0);
    }
  }
  // ---------------------------------------------------------------------------------------
  // Depth first: after a block comes its earliest unvisited successor

  /** The first id of `s` that is not in `visited`. */
  function FirstUnvisited(s: seq<string>, visited: set<string>): (r: Option<string>)
    ensures r.Some? ==> r.value in s && r.value !in visited
    ensures r.None? <==> forall x | x in s :: x in visited
    decreases |s|
  {
    if s == [] then None
    else if s[0] !in visited then Some(s[0])
    else FirstUnvisited(s[1..], visited)
  }

  lemma {:induction false} FirstUnvisitedLeast(s: seq<string>, visited: set<string>, key: string -> string)
    requires SortedBy(s, key) && FirstUnvisited(s, visited).Some?
    ensures forall z | z in s && z !in visited :: StrLe(key(FirstUnvisited(s, visited).value), key(z))
    decreases |s|
  {
    if s[0] !in visited {
      forall z | z in s ensures StrLe(key(s[0]), key(z)) {
        SortedHeadLe(s, key, z);
      }
    } else {
      SortedTail(s, key);
      FirstUnvisitedLeast(s[1..], visited, key);
    }
  }

  /**
   * Lines 100-120: the first unvisited entry of a block's sorted successors is a member
   * naming the block as `prevId` whose timestamp is the earliest among the unvisited ones.
   */
  lemma FirstSuccessorEarliest(blocks: map<string, BlockDoc>, members: seq<string>, id: string,
                               visited: set<string>, y: string)
    requires FirstUnvisited(Successors(blocks, members, id), visited) == Some(y)
    ensures y in members && Follows(blocks, id)(y) && y !in visited
    ensures forall z | z in members && Follows(blocks, id)(z) && z !in visited ::
      StrLe(TimestampOf(blocks, y), TimestampOf(blocks, z))
  {
    var succ := Successors(blocks, members, id);
    SortBySorted(Filter(members, Follows(blocks, id)), TimestampKey(blocks));
    FirstUnvisitedLeast(succ, visited, TimestampKey(blocks));
    forall z | z in members && Follows(blocks, id)(z) && z !in visited
      ensures StrLe(TimestampOf(blocks, y), TimestampOf(blocks, z))
    {
      assert z in succ;
      assert TimestampKey(blocks)(z) == TimestampOf(blocks, z);
    }
  }

  /** Lines 116-120: the first unvisited successor ends on top of the stack. */
  lemma {:induction false} PushUnvisitedTop(stack: seq<string>, nxt: seq<string>, visited: set<string>)
    ensures FirstUnvisited(nxt, visited).None? ==> PushUnvisited(stack, nxt, visited) == stack
    ensures FirstUnvisited(nxt, visited).Some? ==>
      var r := PushUnvisited(stack, nxt, visited);
      |r| > 0 && r[|r| - 1] == FirstUnvisited(nxt, visited).value
    decreases |nxt|
  {
    if nxt != [] {
      PushUnvisitedTop(stack, nxt[1..], visited);
      if nxt[0] in visited {
        var r := PushUnvisited(stack, nxt[1..], visited);
        assert r + [] == r;
      }
    }
  }

  /** The walk only appends to what was emitted before it. */
  lemma {:induction false} WalkExtends(blocks: map<string, BlockDoc>, members: seq<string>, stack: seq<string>, t: Trail)
    requires forall x | x in stack :: x in members
    ensures t.out <= Walk(blocks, members, stack, t).out
    decreases |Elems(members) - t.visited|, |stack|
  {
    if stack != [] {
      var id := stack[|stack| - 1];
      var rest := stack[..|stack| - 1];
      if id in t.visited {
        WalkExtends(blocks, members, rest, t);
      } else {
        VisitShrinks(Elems(members), t.visited, id);
        var t1 := Emit(t, id);
        WalkExtends(blocks, members, PushUnvisited(rest, Successors(blocks, members, id), t.visited + {id}), t1);
        assert t.out <= t1.out;
      }
    }
  }

  /** Lines 94-120: popping an unvisited block emits it and pushes its unvisited successors. */
  lemma WalkPops(blocks: map<string, BlockDoc>, members: seq<string>, rest: seq<string>, id: string, t: Trail)
    requires forall x | x in rest :: x in members
    requires id in members && id !in t.visited
    ensures Walk(blocks, members, rest + [id], t)
         == Walk(blocks, members, PushUnvisited(rest, Successors(blocks, members, id), t.visited + {id}), Emit(t, id))
  {
    var stack := rest + [id];
    assert stack[|stack| - 1] == id && stack[..|stack| - 1] == rest;
  }

  /**
   * Lines 94-122, depth first: when the walk pops an unvisited block that has an unvisited
   * successor, the very next block emitted is its earliest such successor (see
   * `FirstSuccessorEarliest`), before anything else on the stack.
   */
  lemma WalkEmitsFirstSuccessorNext(blocks: map<string, BlockDoc>, members: seq<string>, rest: seq<string>,
                                    id: string, t: Trail, y: string)
    requires forall x | x in rest :: x in members
    requires id in members && id !in t.visited
    requires FirstUnvisited(Successors(blocks, members, id), t.visited + {id}) == Some(y)
    ensures t.out + [id, y] <= Walk(blocks, members, rest + [id], t).out
  {
    var t1 := Emit(t, id);
    var succ := Successors(blocks, members, id);
    var below := PushedBelowTop(members, rest, succ, t.visited + {id}, y);
    WalkPops(blocks, members, rest, id, t);
    WalkPops(blocks, members, below, y, t1);
    var t2 := Emit(t1, y);
    WalkExtends(blocks, members, PushUnvisited(below, Successors(blocks, members, y), t1.visited + {y}), t2);
    assert t2.out == t.out + [id, y];
  }

  /** What lies below the first unvisited successor once the successors are pushed. */
  lemma PushedBelowTop(members: seq<string>, rest: seq<string>, succ: seq<string>, visited: set<string>, y: string)
    returns (below: seq<string>)
    requires forall x | x in rest :: x in members
    requires forall x | x in succ :: x in members
    requires FirstUnvisited(succ, visited) == Some(y)
    ensures PushUnvisited(rest, succ, visited) == below + [y]
    ensures y in members && y !in visited
    ensures forall x | x in below :: x in members
  {
    var st := PushUnvisited(rest, succ, visited);
    PushUnvisitedTop(rest, succ, visited);
    below := st[..|st| - 1];
    assert st == below + [y];
    forall x | x in below ensures x in members {
      assert x in st;
    }
  }

  /**
   * Lines 94-122, backtracking: when the popped block has no unvisited successor, the walk
   * goes on with the rest of the stack.
   */
  lemma WalkBacktracks(blocks: map<string, BlockDoc>, members: seq<string>, rest: seq<string>, id: string, t: Trail)
    requires forall x | x in rest :: x in members
    requires id in members && id !in t.visited
    requires FirstUnvisited(Successors(blocks, members, id), t.visited + {id}).None?
    ensures Walk(blocks, members, rest + [id], t) == Walk(blocks, members, rest, Emit(t, id))
  {
    WalkPops(blocks, members, rest, id, t);
    PushUnvisitedTop(rest, Successors(blocks, members, id), t.visited + {id});
  }

  // ---------------------------------------------------------------------------------------
  // What the device phases leave to the final loop

  /** Dropping the ids of `marked` from the first occurrences is the same as treating them as seen. */
  lemma {:induction false} FirstOccurrencesUnmarked(s: seq<string>, seen: set<string>, marked: set<string>)
    ensures FirstOccurrences(s, seen + marked) == Filter(FirstOccurrences(s, seen), Unmarked(marked))
    decreases |s|
  {
    if s != [] {
      var x := s[0];
      if x in seen {
        FirstOccurrencesUnmarked(s[1..], seen, marked);
      } else {
        var rest := FirstOccurrences(s[1..], seen + {x});
        FirstOccurrencesUnmarked(s[1..], seen + {x}, marked);
        FilterAppend([x], rest, Unmarked(marked));
        FilterSingleton(x, Unmarked(marked));
        assert seen + {x} + marked == seen + marked + {x};
        if x in marked {
          assert seen + marked + {x} == seen + marked;
          assert [] + Filter(rest, Unmarked(marked)) == Filter(rest, Unmarked(marked));
        }
      }
    }
  }

  /** A device with a root emits every member created on it. */
  lemma DevicePhaseCovers(blocks: map<string, BlockDoc>, members: seq<string>, d: string, t: Trail)
    requires Consistent(t) && Roots(blocks, members, d) != []
    ensures Elems(Bucket(blocks, members, d)) <= DevicePhase(blocks, members, d, t).visited
  {
    var sortedRoots := SortBy(Roots(blocks, members, d), TimestampKey(blocks));
    WalkRootsConsistent(blocks, members, sortedRoots, t);
    AppendConsistent(Bucket(blocks, members, d), WalkRoots(blocks, members, sortedRoots, t));
  }

  lemma {:induction false} PhasesCover(blocks: map<string, BlockDoc>, members: seq<string>, ds: seq<string>, t: Trail)
    requires Consistent(t)
    ensures forall d | d in ds && Roots(blocks, members, d) != [] ::
      Elems(Bucket(blocks, members, d)) <= Phases(blocks, members, ds, t).visited
  {
    if ds != [] {
      var t1 := DevicePhase(blocks, members, ds[0], t);
      DevicePhaseConsistent(blocks, members, ds[0], t);
      PhasesConsistent(blocks, members, ds[1..], t1);
      PhasesCover(blocks, members, ds[1..], t1);
      if Roots(blocks, members, ds[0]) != [] {
        DevicePhaseCovers(blocks, members, ds[0], t);
      }
    }
  }

  /**
   * Lines 67-143: the sorted list is what the device phases emit, followed by the child
   * ids they left unvisited in child-list order, each once. The phases emit only members,
   * and every member created on a device with a chain head.
   */
  lemma SortGroupTail(childIds: seq<string>, blocks: map<string, BlockDoc>)
    ensures var members := Members(childIds, blocks);
      var p := Phases(blocks, members, Devices(blocks, members), Trail([], {})).out;
      && SortGroup(childIds, blocks) == p + Filter(FirstOccurrences(childIds, {}), Unmarked(Elems(p)))
      && (forall x | x in p :: x in members)
      && (forall x | x in members && Roots(blocks, members, DeviceOf(blocks, x)) != [] :: x in p)
  {
    var members := Members(childIds, blocks);
    PhasesThenRest(childIds, blocks);
    PhasesEmitRooted(blocks, members);
  }

  lemma PhasesThenRest(childIds: seq<string>, blocks: map<string, BlockDoc>)
    ensures var members := Members(childIds, blocks);
      var p := Phases(blocks, members, Devices(blocks, members), Trail([], {}));
      SortGroup(childIds, blocks) == p.out + Filter(FirstOccurrences(childIds, {}), Unmarked(p.visited))
  {
    var members := Members(childIds, blocks);
    var t1 := Phases(blocks, members, Devices(blocks, members), Trail([], {}));
    AppendIsFirstOccurrences(childIds, t1);
    FirstOccurrencesUnmarked(childIds, {}, t1.visited);
    assert {} + t1.visited == t1.visited;
  }

  lemma PhasesEmitRooted(blocks: map<string, BlockDoc>, members: seq<string>)
    ensures var p := Phases(blocks, members, Devices(blocks, members), Trail([], {}));
      && p.visited == Elems(p.out)
      && (forall x | x in p.out :: x in members)
      && (forall x | x in members && Roots(blocks, members, DeviceOf(blocks, x)) != [] :: x in p.out)
  {
    var ds := Devices(blocks, members);
    var t0 := Trail([], {});
    var t1 := Phases(blocks, members, ds, t0);
    PhasesConsistent(blocks, members, ds, t0);
    PhasesCover(blocks, members, ds, t0);
    forall x | x in members && Roots(blocks, members, DeviceOf(blocks, x)) != [] ensures x in t1.out {
      var d := DeviceOf(blocks, x);
      assert d in ds;
      assert x in Elems(Bucket(blocks, members, d));
    }
    forall x | x in t1.out ensures x in members {
      assert x in Elems(members);
    }
  }

  // ---------------------------------------------------------------------------------------
  // Two roots on one device, the earlier with a follower

  /**
   * Lines 74-122 with two roots on one device: roots x and z, with z's timestamp not
   * earlier than x's, and y whose `prevId` is x, come out as x, y, z: the walk from x
   * takes y before the next root.
   */
  lemma TwoRootsComeOutDepthFirst(blocks: map<string, BlockDoc>, x: string, z: string, y: string)
    requires x != y && y != z && x != z
    requires x in blocks && y in blocks && z in blocks
    requires blocks[x].prevId.None? && blocks[z].prevId.None? && blocks[y].prevId == Some(x)
    requires DeviceOf(blocks, z) == DeviceOf(blocks, x) && DeviceOf(blocks, y) == DeviceOf(blocks, x)
    requires StrLe(TimestampOf(blocks, x), TimestampOf(blocks, z))
    ensures SortGroup([x, z, y], blocks) == [x, y, z]
  {
    var c := [x, z, y];
    var d := DeviceOf(blocks, x);
    var t0 := Trail([], {});
    var done := Trail([x, y, z], {x, y, z});
    MembersOfTriple(blocks, x, z, y);
    DevicesOfTriple(blocks, x, z, y, d);
    assert Phases(blocks, c, [d], t0) == DevicePhase(blocks, c, d, t0) by {
      assert [d][1..] == [];
    }
    TwoRootsBuckets(blocks, x, z, y, d);
    SortPair(x, z, TimestampKey(blocks));
    TwoRootsWalk(blocks, x, z, y);
    AppendAllVisited(c, done);
  }

  lemma DevicesOfTriple(blocks: map<string, BlockDoc>, x: string, y: string, z: string, d: string)
    requires DeviceOf(blocks, x) == d && DeviceOf(blocks, y) == d && DeviceOf(blocks, z) == d
    ensures Devices(blocks, [x, y, z]) == [d]
  {
    assert [x, y, z][..2] == [x, y] && [x, y][..1] == [x] && [x][..0] == [];
    assert DistinctDevices(blocks, [x]) == [d];
    assert DistinctDevices(blocks, [x, y]) == [d];
    SortBy1(d, SelfKey());
  }

  lemma TwoRootsBuckets(blocks: map<string, BlockDoc>, x: string, z: string, y: string, d: string)
    requires x in blocks && y in blocks && z in blocks
    requires blocks[x].prevId.None? && blocks[z].prevId.None? && blocks[y].prevId == Some(x)
    requires DeviceOf(blocks, x) == d && DeviceOf(blocks, z) == d && DeviceOf(blocks, y) == d
    ensures Bucket(blocks, [x, z, y], d) == [x, z, y]
    ensures Roots(blocks, [x, z, y], d) == [x, z]
  {
    FilterTriple(x, z, y, OnDevice(blocks, d));
    FilterTriple(x, z, y, IsHead(blocks));
  }

  /** Two ids already in key order stay in that order, ties included. */
  lemma SortPair(a: string, b: string, key: string -> string)
    requires StrLe(key(a), key(b))
    ensures SortBy([a, b], key) == [a, b]
  {
    assert [a, b][..1] == [a];
    SortBy1(a, key);
    StrLeTotal(key(a), key(b));
    assert InsertBy(b, [a], key) == [a] + InsertBy(b, [], key);
  }

  lemma TwoRootsWalk(blocks: map<string, BlockDoc>, x: string, z: string, y: string)
    requires x != y && y != z && x != z
    requires x in blocks && y in blocks && z in blocks
    requires blocks[x].prevId.None? && blocks[z].prevId.None? && blocks[y].prevId == Some(x)
    ensures var c := [x, z, y];
      AppendUnvisited(c, WalkRoots(blocks, c, [x, z], Trail([], {}))) == Trail([x, y, z], {x, y, z})
  {
    var c := [x, z, y];
    var t1 := Trail([x, y], {x, y});
    var done := Trail([x, y, z], {x, y, z});
    TwoRootsSuccessors(blocks, x, z, y);
    WalkFirstLink(blocks, c, x, y);
    LeafStep(blocks, c, y, Trail([x], {x}));
    assert Emit(Trail([x], {x}), y) == t1;
    assert WalkRoots(blocks, c, [x, z], Trail([], {})) == WalkRoots(blocks, c, [z], t1) by {
      assert [x, z][1..] == [z];
    }
    WalkRootsOne(blocks, c, z, t1);
    WalkChainEnd(blocks, c, x, y, z);
    AppendAllVisited(c, done);
  }

  lemma TwoRootsSuccessors(blocks: map<string, BlockDoc>, x: string, z: string, y: string)
    requires x != y && y != z && x != z
    requires x in blocks && y in blocks && z in blocks
    requires blocks[x].prevId.None? && blocks[z].prevId.None? && blocks[y].prevId == Some(x)
    ensures Successors(blocks, [x, z, y], x) == [y]
    ensures Successors(blocks, [x, z, y], y) == []
    ensures Successors(blocks, [x, z, y], z) == []
  {
    FilterTriple(x, z, y, Follows(blocks, x));
    SuccessorsSingle(blocks, [x, z, y], x, y);
    FilterTriple(x, z, y, Follows(blocks, y));
    FilterTriple(x, z, y, Follows(blocks, z));
  }

  /** A walk from a single member without successors emits it alone. */
  lemma LeafStep(blocks: map<string, BlockDoc>, members: seq<string>, id: string, t: Trail)
    requires id in members && id !in t.visited
    requires Successors(blocks, members, id) == []
    ensures Walk(blocks, members, [id], t) == Emit(t, id)
  {
    WalkOne(blocks, members, id, t);
  }
  // ---------------------------------------------------------------------------------------
  // A chain that crosses devices, then another device's head

  /**
   * The ids of the cross-device example: x1 is a head and x2 follows it on device dx, y1
   * follows x2 and y2 follows y1 on device dy, and z1 is a head on device dz.
   */
  ghost predicate CrossDeviceCase(blocks: map<string, BlockDoc>, x1: string, x2: string, y1: string, y2: string, z1: string,
                                  dx: string, dy: string, dz: string)
  {
    && x1 != x2 && x1 != y1 && x1 != y2 && x1 != z1 && x2 != y1 && x2 != y2 && x2 != z1
    && y1 != y2 && y1 != z1 && y2 != z1
    && x1 in blocks && x2 in blocks && y1 in blocks && y2 in blocks && z1 in blocks
    && blocks[x1].prevId.None? && blocks[x2].prevId == Some(x1) && blocks[y1].prevId == Some(x2)
    && blocks[y2].prevId == Some(y1) && blocks[z1].prevId.None?
    && DeviceOf(blocks, x1) == dx && DeviceOf(blocks, x2) == dx
    && DeviceOf(blocks, y1) == dy && DeviceOf(blocks, y2) == dy && DeviceOf(blocks, z1) == dz
  }

  /**
   * Lines 67-134 across devices: the walk from device dx's head follows the `prevId` chain
   * into device dy, dy has no head and adds nothing, and device dz's head comes last, so
   * x1, x2, y1, y2, z1 come out in that order.
   */
  lemma ChainAcrossDevices(blocks: map<string, BlockDoc>, x1: string, x2: string, y1: string, y2: string, z1: string,
                           dx: string, dy: string, dz: string)
    requires CrossDeviceCase(blocks, x1, x2, y1, y2, z1, dx, dy, dz)
    requires StrLt(dx, dy) && StrLt(dy, dz)
    ensures SortGroup([x1, x2, y1, y2, z1], blocks) == [x1, x2, y1, y2, z1]
  {
    var c := [x1, x2, y1, y2, z1];
    var tx := Trail([x1, x2, y1, y2], {x1, x2, y1, y2});
    var done := Trail(c, {x1, x2, y1, y2, z1});
    DevicesOrdered(dx, dy, dz);
    MembersOfFive(blocks, x1, x2, y1, y2, z1);
    DevicesOfFive(blocks, x1, x2, y1, y2, z1, dx, dy, dz);
    CrossDeviceFirstPhase(blocks, x1, x2, y1, y2, z1, dx, dy, dz);
    CrossDeviceMiddle(blocks, x1, x2, y1, y2, z1, dx, dy, dz);
    CrossDeviceLastPhase(blocks, x1, x2, y1, y2, z1, dx, dy, dz);
    PhasesOfThree(blocks, c, dx, dy, dz, tx, done);
    SortGroupFrom(blocks, c, [dx, dy, dz], done);
  }

  /** A group whose members are its children comes out as the phases emit it when they visit them all. */
  lemma SortGroupFrom(blocks: map<string, BlockDoc>, c: seq<string>, ds: seq<string>, done: Trail)
    requires Members(c, blocks) == c && Devices(blocks, c) == ds
    requires Phases(blocks, c, ds, Trail([], {})) == done
    requires forall e | e in c :: e in done.visited
    ensures SortGroup(c, blocks) == done.out
  {
    AppendAllVisited(c, done);
  }

  lemma PhasesOfThree(blocks: map<string, BlockDoc>, c: seq<string>, dx: string, dy: string, dz: string, tx: Trail, done: Trail)
    requires DevicePhase(blocks, c, dx, Trail([], {})) == tx
    requires Roots(blocks, c, dy) == []
    requires DevicePhase(blocks, c, dz, tx) == done
    ensures Phases(blocks, c, [dx, dy, dz], Trail([], {})) == done
  {
    var ds := [dx, dy, dz];
    assert ds[0] == dx && ds[1..] == [dy, dz];
    assert Phases(blocks, c, ds, Trail([], {})) == Phases(blocks, c, [dy, dz], tx);
    assert DevicePhase(blocks, c, dy, tx) == tx;
    assert [dy, dz][0] == dy && [dy, dz][1..] == [dz];
    assert Phases(blocks, c, [dy, dz], tx) == Phases(blocks, c, [dz], tx);
    assert [dz][0] == dz && [dz][1..] == [];
    assert Phases(blocks, c, [dz], tx) == Phases(blocks, c, [], done);
  }

  lemma DevicesOrdered(dx: string, dy: string, dz: string)
    requires StrLt(dx, dy) && StrLt(dy, dz)
    ensures dx != dy && dy != dz && dx != dz
    ensures StrLe(dx, dy) && StrLe(dy, dz)
  {
    StrLtDistinct(dx, dy);
    StrLtDistinct(dy, dz);
    StrLeTotal(dx, dy);
    StrLeTotal(dy, dz);
    if dx == dz {
      StrLeTransitive(dy, dz, dy);
      StrLeAntisymmetric(dy, dz);
    }
  }

  lemma StrLtDistinct(a: string, b: string)
    requires StrLt(a, b)
    ensures a != b
  {
    if a == b {
      StrLeReflexive(a);
    }
  }

  lemma MembersOfFive(blocks: map<string, BlockDoc>, x1: string, x2: string, y1: string, y2: string, z1: string)
    requires x1 != x2 && x1 != y1 && x1 != y2 && x1 != z1 && x2 != y1 && x2 != y2 && x2 != z1
    requires y1 != y2 && y1 != z1 && y2 != z1
    requires x1 in blocks && x2 in blocks && y1 in blocks && y2 in blocks && z1 in blocks
    ensures Members([x1, x2, y1, y2, z1], blocks) == [x1, x2, y1, y2, z1]
  {
    MembersOfTriple(blocks, x1, x2, y1);
    MembersSnoc([x1, x2, y1], y2, blocks);
    assert [x1, x2, y1] + [y2] == [x1, x2, y1, y2];
    MembersSnoc([x1, x2, y1, y2], z1, blocks);
    assert [x1, x2, y1, y2] + [z1] == [x1, x2, y1, y2, z1];
  }

  lemma DevicesOfFive(blocks: map<string, BlockDoc>, x1: string, x2: string, y1: string, y2: string, z1: string,
                      dx: string, dy: string, dz: string)
    requires DeviceOf(blocks, x1) == dx && DeviceOf(blocks, x2) == dx
    requires DeviceOf(blocks, y1) == dy && DeviceOf(blocks, y2) == dy && DeviceOf(blocks, z1) == dz
    requires dx != dy && dy != dz && dx != dz
    requires StrLe(dx, dy) && StrLe(dy, dz)
    ensures Devices(blocks, [x1, x2, y1, y2, z1]) == [dx, dy, dz]
  {
    DistinctDevicesOfFive(blocks, x1, x2, y1, y2, z1, dx, dy, dz);
    SortThreeInOrder(dx, dy, dz, SelfKey());
  }

  lemma DistinctDevicesOfFive(blocks: map<string, BlockDoc>, x1: string, x2: string, y1: string, y2: string, z1: string,
                              dx: string, dy: string, dz: string)
    requires DeviceOf(blocks, x1) == dx && DeviceOf(blocks, x2) == dx
    requires DeviceOf(blocks, y1) == dy && DeviceOf(blocks, y2) == dy && DeviceOf(blocks, z1) == dz
    requires dx != dy && dy != dz && dx != dz
    ensures DistinctDevices(blocks, [x1, x2, y1, y2, z1]) == [dx, dy, dz]
  {
    var s := [x1, x2, y1, y2, z1];
    assert s[..4] == [x1, x2, y1, y2] && s[..4][..3] == [x1, x2, y1];
    assert [x1, x2, y1][..2] == [x1, x2] && [x1, x2][..1] == [x1] && [x1][..0] == [];
    assert DistinctDevices(blocks, [x1]) == [dx];
    assert DistinctDevices(blocks, [x1, x2]) == [dx];
    assert DistinctDevices(blocks, [x1, x2, y1]) == [dx, dy];
    assert DistinctDevices(blocks, [x1, x2, y1, y2]) == [dx, dy];
  }

  /** An id whose key is not below any key of `s` is inserted at the end. */
  lemma {:induction false} InsertByLast(x: string, s: seq<string>, key: string -> string)
    requires forall y | y in s :: StrLe(key(y), key(x))
    ensures InsertBy(x, s, key) == s + [x]
    decreases |s|
  {
    if s != [] {
      InsertByLast(x, s[1..], key);
      assert s == [s[0]] + s[1..];
    }
  }

  lemma SortThreeInOrder(a: string, b: string, c: string, key: string -> string)
    requires StrLe(key(a), key(b)) && StrLe(key(b), key(c))
    ensures SortBy([a, b, c], key) == [a, b, c]
  {
    var s := [a, b, c];
    assert s[..|s| - 1] == [a, b] && s[|s| - 1] == c;
    StrLeTransitive(key(a), key(b), key(c));
    SortPair(a, b, key);
    assert SortBy(s, key) == InsertBy(c, [a, b], key);
    InsertByLast(c, [a, b], key);
    assert [a, b] + [c] == s;
  }

  lemma FilterPair(a: string, b: string, p: string -> bool)
    ensures Filter([a, b], p) == (if p(a) then [a] else []) + (if p(b) then [b] else [])
  {
    FilterSnoc([a], b, p);
    FilterSingleton(a, p);
    assert [a] + [b] == [a, b];
  }

  lemma FilterFive(a: string, b: string, c: string, d: string, e: string, p: string -> bool)
    ensures Filter([a, b, c, d, e], p)
      == (if p(a) then [a] else []) + (if p(b) then [b] else []) + (if p(c) then [c] else [])
       + (if p(d) then [d] else []) + (if p(e) then [e] else [])
  {
    FilterTriple(a, b, c, p);
    FilterSnoc([a, b, c], d, p);
    assert [a, b, c] + [d] == [a, b, c, d];
    FilterSnoc([a, b, c, d], e, p);
    assert [a, b, c, d] + [e] == [a, b, c, d, e];
  }

  /** Filtering five ids of which only the ones named pass. */
  lemma FilterFiveKeeps(a: string, b: string, c: string, d: string, e: string, p: string -> bool,
                        ka: bool, kb: bool, kc: bool, kd: bool, ke: bool)
    requires p(a) == ka && p(b) == kb && p(c) == kc && p(d) == kd && p(e) == ke
    ensures Filter([a, b, c, d, e], p)
      == (if ka then [a] else []) + (if kb then [b] else []) + (if kc then [c] else [])
       + (if kd then [d] else []) + (if ke then [e] else [])
  {
    FilterFive(a, b, c, d, e, p);
  }

  lemma CrossDeviceMiddle(blocks: map<string, BlockDoc>, x1: string, x2: string, y1: string, y2: string, z1: string,
                          dx: string, dy: string, dz: string)
    requires CrossDeviceCase(blocks, x1, x2, y1, y2, z1, dx, dy, dz)
    requires dx != dy && dy != dz
    ensures Roots(blocks, [x1, x2, y1, y2, z1], dy) == []
  {
    FilterFiveKeeps(x1, x2, y1, y2, z1, OnDevice(blocks, dy), false, false, true, true, false);
    assert Bucket(blocks, [x1, x2, y1, y2, z1], dy) == [y1, y2];
    FilterPair(y1, y2, IsHead(blocks));
  }

  /** Device dx's phase walks x1, x2, y1, y2 and finds its own bucket visited. */
  lemma CrossDeviceFirstPhase(blocks: map<string, BlockDoc>, x1: string, x2: string, y1: string, y2: string, z1: string,
                              dx: string, dy: string, dz: string)
    requires CrossDeviceCase(blocks, x1, x2, y1, y2, z1, dx, dy, dz)
    requires NoDup([x1, x2, y1, y2, z1])
    requires dx != dy && dx != dz
    ensures DevicePhase(blocks, [x1, x2, y1, y2, z1], dx, Trail([], {}))
         == Trail([x1, x2, y1, y2], {x1, x2, y1, y2})
  {
    FirstBucket(blocks, x1, x2, y1, y2, z1, dx, dy, dz);
    CrossDeviceWalk(blocks, x1, x2, y1, y2, z1, dx, dy, dz);
    HeadChainPhase(blocks, [x1, x2, y1, y2, z1], x1, dx, [x1, x2], Trail([x1, x2, y1, y2], {x1, x2, y1, y2}));
  }

  lemma FirstBucket(blocks: map<string, BlockDoc>, x1: string, x2: string, y1: string, y2: string, z1: string,
                    dx: string, dy: string, dz: string)
    requires CrossDeviceCase(blocks, x1, x2, y1, y2, z1, dx, dy, dz)
    requires dx != dy && dx != dz
    ensures Bucket(blocks, [x1, x2, y1, y2, z1], dx) == [x1, x2]
    ensures Roots(blocks, [x1, x2, y1, y2, z1], dx) == [x1]
  {
    FilterFiveKeeps(x1, x2, y1, y2, z1, OnDevice(blocks, dx), true, true, false, false, false);
    FilterPair(x1, x2, IsHead(blocks));
  }

  /**
   * A device with the single root `x`, whose walk from the start visits the device's whole
   * bucket, emits that walk.
   */
  lemma HeadChainPhase(blocks: map<string, BlockDoc>, s: seq<string>, x: string, d: string, bucket: seq<string>,
                       done: Trail)
    requires x in s
    requires Bucket(blocks, s, d) == bucket && Roots(blocks, s, d) == [x]
    requires Walk(blocks, s, [x], Trail([], {})) == done
    requires forall e | e in bucket :: e in done.visited
    ensures DevicePhase(blocks, s, d, Trail([], {})) == done
  {
    SortBy1(x, TimestampKey(blocks));
    WalkRootsOne(blocks, s, x, Trail([], {}));
    AppendAllVisited(bucket, done);
  }

  lemma CrossDeviceWalk(blocks: map<string, BlockDoc>, x1: string, x2: string, y1: string, y2: string, z1: string,
                        dx: string, dy: string, dz: string)
    requires CrossDeviceCase(blocks, x1, x2, y1, y2, z1, dx, dy, dz)
    requires NoDup([x1, x2, y1, y2, z1])
    ensures Walk(blocks, [x1, x2, y1, y2, z1], [x1], Trail([], {})) == Trail([x1, x2, y1, y2], {x1, x2, y1, y2})
  {
    CrossDeviceFollowers(blocks, x1, x2, y1, y2, z1, dx, dy, dz);
    WalkFour(blocks, [x1, x2, y1, y2, z1], x1, x2, y1, y2);
  }

  /** A walk along four members, each the single successor of the one before. */
  lemma WalkFour(blocks: map<string, BlockDoc>, s: seq<string>, a: string, b: string, c: string, d: string)
    requires a != b && a != c && a != d && b != c && b != d && c != d
    requires a in s && b in s && c in s && d in s
    requires Successors(blocks, s, a) == [b] && Successors(blocks, s, b) == [c]
    requires Successors(blocks, s, c) == [d] && Successors(blocks, s, d) == []
    ensures Walk(blocks, s, [a], Trail([], {})) == Trail([a, b, c, d], {a, b, c, d})
  {
    var t2 := Trail([a, b], {a, b});
    var t3 := Trail([a, b, c], {a, b, c});
    WalkFirstLink(blocks, s, a, b);
    WalkSecondLink(blocks, s, a, b, c);
    EmitThird(a, b, c);
    WalkStep(blocks, s, c, d, t2);
    LeafStep(blocks, s, d, t3);
    EmitFourth(a, b, c, d);
  }

  lemma EmitThird(a: string, b: string, c: string)
    ensures Emit(Trail([a, b], {a, b}), c) == Trail([a, b, c], {a, b, c})
  {
  }

  lemma EmitFourth(a: string, b: string, c: string, d: string)
    ensures Emit(Trail([a, b, c], {a, b, c}), d) == Trail([a, b, c, d], {a, b, c, d})
  {
  }

  lemma EmitFifth(a: string, b: string, c: string, d: string, e: string)
    ensures Emit(Trail([a, b, c, d], {a, b, c, d}), e) == Trail([a, b, c, d, e], {a, b, c, d, e})
  {
  }

  lemma CrossDeviceFollowers(blocks: map<string, BlockDoc>, x1: string, x2: string, y1: string, y2: string, z1: string,
                             dx: string, dy: string, dz: string)
    requires CrossDeviceCase(blocks, x1, x2, y1, y2, z1, dx, dy, dz)
    requires NoDup([x1, x2, y1, y2, z1])
    ensures Successors(blocks, [x1, x2, y1, y2, z1], x1) == [x2]
    ensures Successors(blocks, [x1, x2, y1, y2, z1], x2) == [y1]
    ensures Successors(blocks, [x1, x2, y1, y2, z1], y1) == [y2]
    ensures Successors(blocks, [x1, x2, y1, y2, z1], y2) == []
    ensures Successors(blocks, [x1, x2, y1, y2, z1], z1) == []
  {
    FollowsX1(blocks, x1, x2, y1, y2, z1, dx, dy, dz);
    FollowsX2(blocks, x1, x2, y1, y2, z1, dx, dy, dz);
    FollowsY1(blocks, x1, x2, y1, y2, z1, dx, dy, dz);
    NoneFollow(blocks, x1, x2, y1, y2, z1, dx, dy, dz);
  }

  lemma FollowsX1(blocks: map<string, BlockDoc>, x1: string, x2: string, y1: string, y2: string, z1: string,
                  dx: string, dy: string, dz: string)
    requires CrossDeviceCase(blocks, x1, x2, y1, y2, z1, dx, dy, dz)
    requires NoDup([x1, x2, y1, y2, z1])
    ensures Successors(blocks, [x1, x2, y1, y2, z1], x1) == [x2]
  {
    FollowerOf(blocks, [x1, x2, y1, y2, z1], x1, x2);
  }

  lemma FollowsX2(blocks: map<string, BlockDoc>, x1: string, x2: string, y1: string, y2: string, z1: string,
                  dx: string, dy: string, dz: string)
    requires CrossDeviceCase(blocks, x1, x2, y1, y2, z1, dx, dy, dz)
    requires NoDup([x1, x2, y1, y2, z1])
    ensures Successors(blocks, [x1, x2, y1, y2, z1], x2) == [y1]
  {
    FollowerOf(blocks, [x1, x2, y1, y2, z1], x2, y1);
  }

  lemma FollowsY1(blocks: map<string, BlockDoc>, x1: string, x2: string, y1: string, y2: string, z1: string,
                  dx: string, dy: string, dz: string)
    requires CrossDeviceCase(blocks, x1, x2, y1, y2, z1, dx, dy, dz)
    requires NoDup([x1, x2, y1, y2, z1])
    ensures Successors(blocks, [x1, x2, y1, y2, z1], y1) == [y2]
  {
    FollowerOf(blocks, [x1, x2, y1, y2, z1], y1, y2);
  }

  lemma NoneFollow(blocks: map<string, BlockDoc>, x1: string, x2: string, y1: string, y2: string, z1: string,
                   dx: string, dy: string, dz: string)
    requires CrossDeviceCase(blocks, x1, x2, y1, y2, z1, dx, dy, dz)
    requires NoDup([x1, x2, y1, y2, z1])
    ensures Successors(blocks, [x1, x2, y1, y2, z1], y2) == [] && Successors(blocks, [x1, x2, y1, y2, z1], z1) == []
  {
    FilterNone([x1, x2, y1, y2, z1], Follows(blocks, y2));
    FilterNone([x1, x2, y1, y2, z1], Follows(blocks, z1));
  }

  /** `p` has the single follower `q` among `c`. */
  lemma FollowerOf(blocks: map<string, BlockDoc>, c: seq<string>, p: string, q: string)
    requires NoDup(c) && q in c
    requires forall e | e in c :: Follows(blocks, p)(e) <==> e == q
    ensures Successors(blocks, c, p) == [q]
  {
    FilterOnlyOne(c, Follows(blocks, p), q);
    SuccessorsSingle(blocks, c, p, q);
  }

  /** Filtering a list without repeats by a test that only `q` passes leaves `[q]`. */
  lemma FilterOnlyOne(s: seq<string>, p: string -> bool, q: string)
    requires NoDup(s) && q in s
    requires forall e | e in s :: p(e) <==> e == q
    ensures Filter(s, p) == [q]
  {
    FilterNoDup(s, p);
    var r := Filter(s, p);
    assert Elems(r) == {q};
    NoDupSize(r);
    assert r[0] in r;
  }

  /** Device dz's phase emits its head z1 after everything before it. */
  lemma CrossDeviceLastPhase(blocks: map<string, BlockDoc>, x1: string, x2: string, y1: string, y2: string, z1: string,
                             dx: string, dy: string, dz: string)
    requires CrossDeviceCase(blocks, x1, x2, y1, y2, z1, dx, dy, dz)
    requires NoDup([x1, x2, y1, y2, z1])
    requires dx != dz && dy != dz
    ensures DevicePhase(blocks, [x1, x2, y1, y2, z1], dz, Trail([x1, x2, y1, y2], {x1, x2, y1, y2}))
         == Trail([x1, x2, y1, y2, z1], {x1, x2, y1, y2, z1})
  {
    LastBucket(blocks, x1, x2, y1, y2, z1, dx, dy, dz);
    NoneFollow(blocks, x1, x2, y1, y2, z1, dx, dy, dz);
    EmitFifth(x1, x2, y1, y2, z1);
    LeafRootPhase(blocks, [x1, x2, y1, y2, z1], z1, dz, Trail([x1, x2, y1, y2], {x1, x2, y1, y2}),
                  Trail([x1, x2, y1, y2, z1], {x1, x2, y1, y2, z1}));
  }

  /** A device whose only member is an unvisited head without successors emits that head. */
  lemma LeafRootPhase(blocks: map<string, BlockDoc>, s: seq<string>, z: string, d: string, t: Trail, done: Trail)
    requires z in s && z !in t.visited
    requires Bucket(blocks, s, d) == [z] && Roots(blocks, s, d) == [z]
    requires Successors(blocks, s, z) == []
    requires Emit(t, z) == done
    ensures DevicePhase(blocks, s, d, t) == done
  {
    SortBy1(z, TimestampKey(blocks));
    WalkRootsOne(blocks, s, z, t);
    LeafStep(blocks, s, z, t);
    AppendAllVisited([z], done);
  }

  lemma LastBucket(blocks: map<string, BlockDoc>, x1: string, x2: string, y1: string, y2: string, z1: string,
                   dx: string, dy: string, dz: string)
    requires CrossDeviceCase(blocks, x1, x2, y1, y2, z1, dx, dy, dz)
    requires dx != dz && dy != dz
    ensures Bucket(blocks, [x1, x2, y1, y2, z1], dz) == [z1]
    ensures Roots(blocks, [x1, x2, y1, y2, z1], dz) == [z1]
  {
    FilterFiveKeeps(x1, x2, y1, y2, z1, OnDevice(blocks, dz), false, false, false, false, true);
    FilterSingleton(z1, IsHead(blocks));
  }
}
