/**
 * The children arrays of the earlier document variant (rust/src/doc/utils/document_impl.rs):
 * under "childrenMap" each block id names a yrs array holding the ids of its children in
 * order. These are the array calls that variant makes, as yrs defines them: `insert` and
 * `remove` take an index that must lie within the array, `move_to(source, target)` takes
 * `target` as a position in the array as it is before the move. An index out of range
 * makes yrs panic; the callers check the ranges below before calling.
 */
module ChildArrays {
  import opened Wrappers

  type Children = map<string, seq<string>>

  /** `get_or_init_array(id)` read back: the array under `id`, or the empty one it creates. */
  function ArrayOf(c: Children, id: string): seq<string>
  {
    if id in c then c[id] else []
  }

  /** `get_or_init_array(id)` on the children map. */
  function InitArray(c: Children, id: string): (r: Children)
    ensures r.Keys == c.Keys + {id}
    ensures r[id] == ArrayOf(c, id)
    ensures forall k | k in c :: r[k] == c[k]
  {
    if id in c then c else c[id := []]
  }

  /** `insert(i, x)`: `x` goes before the element now at `i`. */
  function InsertAt(s: seq<string>, i: nat, x: string): (r: seq<string>)
    requires i <= |s|
    ensures |r| == |s| + 1 && r[i] == x
    ensures multiset(r) == multiset(s) + multiset{x}
  {
    assert s == s[..i] + s[i..];
    s[..i] + [x] + s[i..]
  }

  /** `remove(i)`: drops the element at `i`. */
  function RemoveAt(s: seq<string>, i: nat): (r: seq<string>)
    requires i < |s|
    ensures |r| == |s| - 1
    ensures multiset(r) == multiset(s) - multiset{s[i]}
    ensures forall x | x in r :: x in s
  {
    assert s == s[..i] + [s[i]] + s[i + 1..];
    s[..i] + s[i + 1..]
  }

  /** Removing what was inserted gives the array back. */
  lemma RemoveUndoesInsert(s: seq<string>, i: nat, x: string)
    requires i <= |s|
    ensures RemoveAt(InsertAt(s, i, x), i) == s
  {
    var t := InsertAt(s, i, x);
    assert t[..i] == s[..i];
    assert t[i + 1..] == s[i..];
  }

  /** Putting a removed element back where it was gives the array back. */
  lemma InsertUndoesRemove(s: seq<string>, i: nat)
    requires i < |s|
    ensures InsertAt(RemoveAt(s, i), i, s[i]) == s
  {
    var t := RemoveAt(s, i);
    assert t[..i] == s[..i];
    assert t[i..] == s[i + 1..];
  }

  /** The last element of a path, or 0 for an empty path. */
  function LastOrZero(path: seq<nat>): (r: nat)
    ensures path != [] ==> r == path[|path| - 1]
    ensures path == [] ==> r == 0
  {
    if path == [] then 0 else path[|path| - 1]
  }

  /**
   * Where `insert_node` puts a new child (lines 340-352): at index `idx`, or at the end
   * when `idx` lies past it.
   */
  function PlaceChild(s: seq<string>, idx: nat, x: string): seq<string>
  {
    if idx > |s| then s + [x] else InsertAt(s, idx, x)
  }

  /** The position the new child ends up at. */
  function Placed(s: seq<string>, idx: nat): nat
  {
    if idx > |s| then |s| else idx
  }

  /**
   * The new child sits at `Placed(s, idx)`, the other children keep their order around
   * it, and none is lost.
   */
  lemma PlaceChildPlaces(s: seq<string>, idx: nat, x: string)
    ensures Placed(s, idx) <= |s|
    ensures var r := PlaceChild(s, idx, x);
      && |r| == |s| + 1 && r[Placed(s, idx)] == x
      && RemoveAt(r, Placed(s, idx)) == s
      && multiset(r) == multiset(s) + multiset{x}
  {
    if idx > |s| {
      assert (s + [x])[..|s|] == s;
    } else {
      RemoveUndoesInsert(s, idx, x);
    }
  }

  /** `iter().position(|x| x == id)`: the index of the first occurrence of `x`, if any. */
  function Position(s: seq<string>, x: string): (r: Option<nat>)
    ensures r.None? <==> x !in s
    ensures r.Some? ==> r.value < |s| && s[r.value] == x && x !in s[..r.value]
  {
    if s == [] then None
    else if s[0] == x then Some(0)
    else match Position(s[1..], x)
      case None => None
      case Some(i) =>
        assert s[1..][..i] == s[1..i + 1];
        assert s[..i + 1] == [s[0]] + s[1..i + 1];
        Some(i + 1)
  }

  /**
   * The index `delete_node` removes from the parent's array (lines 446-451): the first
   * occurrence of the id, or 0 when the id is not there.
   */
  function RemovalIndex(s: seq<string>, x: string): nat
  {
    Position(s, x).UnwrapOr(0)
  }

  /**
   * Removing at `RemovalIndex` takes out exactly one occurrence of `x` when it is there,
   * the first one, and otherwise the head of the array.
   */
  lemma RemovalTakesFirst(s: seq<string>, x: string)
    requires s != []
    ensures RemovalIndex(s, x) < |s|
    ensures x in s ==> multiset(RemoveAt(s, RemovalIndex(s, x))) == multiset(s) - multiset{x}
    ensures x in s ==> RemoveAt(s, RemovalIndex(s, x))[..RemovalIndex(s, x)] == s[..RemovalIndex(s, x)]
    ensures x !in s ==> RemoveAt(s, RemovalIndex(s, x)) == s[1..]
  {
  }

  /** `move_to(src, tgt)` is a no-op, or both indices lie within the array. */
  predicate MoveInRange(n: nat, src: nat, tgt: nat)
  {
    src == tgt || src + 1 == tgt || (src < n && tgt <= n)
  }

  /** The index the moved element ends at. */
  function Dest(src: nat, tgt: nat): nat
  {
    if tgt > src then tgt - 1 else tgt
  }

  /**
   * `move_to(src, tgt)`: the element at `src` is taken out and put back before the
   * element that was at `tgt`. Moving an element to its own place or just behind itself
   * changes nothing.
   */
  function MoveTo(s: seq<string>, src: nat, tgt: nat): seq<string>
    requires MoveInRange(|s|, src, tgt)
  {
    if src == tgt || src + 1 == tgt then s
    else if tgt < src then s[..tgt] + [s[src]] + s[tgt..src] + s[src + 1..]
    else s[..src] + s[src + 1..tgt] + [s[src]] + s[tgt..]
  }

  /** A move within one array is a removal at `src` followed by an insertion at `Dest`. */
  lemma MoveIsRemoveThenInsert(s: seq<string>, src: nat, tgt: nat)
    requires src < |s| && tgt <= |s|
    ensures Dest(src, tgt) <= |s| - 1
    ensures MoveTo(s, src, tgt) == InsertAt(RemoveAt(s, src), Dest(src, tgt), s[src])
  {
    var t := RemoveAt(s, src);
    var d := Dest(src, tgt);
    if src == tgt || src + 1 == tgt {
      InsertUndoesRemove(s, src);
    } else if tgt < src {
      assert t[..d] == s[..tgt];
      assert t[d..] == s[tgt..src] + s[src + 1..];
    } else {
      assert t[..d] == s[..src] + s[src + 1..tgt];
      assert t[d..] == s[tgt..];
    }
  }

  /**
   * A move keeps every child and only reorders: the moved element ends at `Dest`, and
   * the array holds the same ids as before.
   */
  lemma MovePermutes(s: seq<string>, src: nat, tgt: nat)
    requires src < |s| && tgt <= |s|
    ensures var r := MoveTo(s, src, tgt);
      && |r| == |s| && Dest(src, tgt) < |r| && r[Dest(src, tgt)] == s[src]
      && multiset(r) == multiset(s)
  {
    MoveIsRemoveThenInsert(s, src, tgt);
    assert multiset(s) - multiset{s[src]} + multiset{s[src]} == multiset(s);
  }
}
