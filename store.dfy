/**
 * The shared "blocks" map of the document, as the block operations see it: an id-keyed
 * map of yrs values, each block normally a nested map of fields. The map's iteration order
 * is part of the state (`order`); a new key goes last, a removed key leaves it.
 *
 * The helpers follow the map API the operations use: `get_or_init_map`
 * (rust/src/doc/utils/util.rs:41-47) keeps an existing nested map and otherwise puts an
 * empty one in its place, `insert` sets a key and `remove` drops it.
 */
module Store {
  import opened Wrappers
  import opened Yrs
  import opened Sorting
  import Constants

  datatype BlocksMap = BlocksMap(entries: map<string, Out>, order: seq<string>)

  ghost predicate Valid(b: BlocksMap)
  {
    NoDup(b.order) && forall k :: k in b.entries <==> k in b.order
  }

  function Empty(): (r: BlocksMap)
    ensures Valid(r) && r.entries == map[]
  {
    BlocksMap(map[], [])
  }

  /** `insert`: sets `k`, which goes last in the iteration order when it is new. */
  function Put(b: BlocksMap, k: string, v: Out): (r: BlocksMap)
    requires Valid(b)
    ensures Valid(r) && r.entries == b.entries[k := v]
    ensures k in b.entries ==> r.order == b.order
  {
    if k in b.entries then BlocksMap(b.entries[k := v], b.order)
    else BlocksMap(b.entries[k := v], b.order + [k])
  }

  /** `remove`: drops `k` from the map and from the iteration order. */
  function Remove(b: BlocksMap, k: string): (r: BlocksMap)
    requires Valid(b)
    ensures Valid(r) && r.entries == b.entries - {k}
  {
    FilterNoDup(b.order, Unmarked({k}));
    BlocksMap(b.entries - {k}, Filter(b.order, Unmarked({k})))
  }

  // ---------------------------------------------------------------------------------------
  // Reading a block

  /** The fields of block `id`; a missing block or one that is not a map has none. */
  function Fields(b: BlocksMap, id: string): map<string, Out>
  {
    if id in b.entries && b.entries[id].YMap? then b.entries[id].entries else map[]
  }

  function Field(b: BlocksMap, id: string, f: string): Option<Out>
  {
    if f in Fields(b, id) then Some(Fields(b, id)[f]) else None
  }

  /** A string-valued field; any other value reads as absent. */
  function StringField(fields: map<string, Out>, f: string): Option<string>
  {
    if f in fields && fields[f].Value? && fields[f].any.String? then Some(fields[f].any.s) else None
  }

  function PrevIdOf(b: BlocksMap, id: string): Option<string>
  {
    StringField(Fields(b, id), Constants.PREV_ID)
  }

  /** The entries of a block's "attributes" map; none when it is absent or not a map. */
  function AttrsOf(fields: map<string, Out>): map<string, Out>
  {
    if Constants.ATTRIBUTES in fields && fields[Constants.ATTRIBUTES].YMap? then fields[Constants.ATTRIBUTES].entries
    else map[]
  }

  /** What `get_or_init_map` leaves in place of an entry. */
  function AsMap(o: Out): (r: Out)
    ensures r.YMap?
    ensures o.YMap? ==> r == o
  {
    if o.YMap? then o else YMap(map[])
  }

  /** Every entry as `get_or_init_map` leaves it: non-map entries become empty maps. */
  function Normalized(b: BlocksMap): (r: map<string, Out>)
    ensures r.Keys == b.entries.Keys
    ensures forall k | k in r :: r[k].YMap? && r[k].entries == Fields(b, k)
  {
    map k | k in b.entries :: AsMap(b.entries[k])
  }

  /** Every entry is a map, as `get_or_init_map` leaves an entry it has read. */
  ghost predicate AllMaps(b: BlocksMap)
  {
    forall k | k in b.entries :: b.entries[k].YMap?
  }

  /** The entries of `b` outside `touched` are in `b'`, unchanged. */
  ghost predicate OthersUnchanged(b: BlocksMap, b': BlocksMap, touched: set<string>)
  {
    forall k | k in b.entries && k !in touched :: k in b'.entries && b'.entries[k] == b.entries[k]
  }

  /**
   * A map entry is fixed by its fields: an entry that is a map now and reads field by field
   * as `k` read in `b` is `k`'s old entry as `get_or_init_map` leaves it.
   */
  lemma EntryFromFields(b: BlocksMap, b': BlocksMap, k: string)
    requires k in b.entries && k in b'.entries && b'.entries[k].YMap?
    requires forall f :: Field(b', k, f) == Field(b, k, f)
    ensures b'.entries[k] == AsMap(b.entries[k])
  {
    forall f | f in Fields(b', k)
      ensures f in Fields(b, k) && Fields(b', k)[f] == Fields(b, k)[f]
    {
      assert Field(b', k, f) == Field(b, k, f);
    }
    forall f | f in Fields(b, k)
      ensures f in Fields(b', k)
    {
      assert Field(b', k, f) == Field(b, k, f);
    }
    MapsEqual(Fields(b', k), Fields(b, k));
  }

  /** Putting a map under `k` touches only `k`, and keeps every entry a map when they all were. */
  lemma PutMapShape(b: BlocksMap, k: string, v: Out)
    requires Valid(b) && v.YMap?
    ensures AllMaps(b) ==> AllMaps(Put(b, k, v))
    ensures OthersUnchanged(b, Put(b, k, v), {k})
  {
  }

  lemma OthersUnchangedTrans(b0: BlocksMap, b1: BlocksMap, b2: BlocksMap, t1: set<string>, t2: set<string>)
    requires OthersUnchanged(b0, b1, t1) && OthersUnchanged(b1, b2, t2)
    ensures OthersUnchanged(b0, b2, t1 + t2)
  {
  }

  // ---------------------------------------------------------------------------------------
  // Writing a block

  /** `get_or_init_map(id)` on the blocks map. */
  function InitMap(b: BlocksMap, id: string): (r: BlocksMap)
    requires Valid(b)
    ensures Valid(r) && r.entries.Keys == b.entries.Keys + {id}
    ensures r.entries[id].YMap? && Fields(r, id) == Fields(b, id)
    ensures forall k | k in b.entries && k != id :: r.entries[k] == b.entries[k]
    ensures id in b.entries ==> r.order == b.order && r.entries == b.entries[id := AsMap(b.entries[id])]
  {
    if id in b.entries && b.entries[id].YMap? then b else Put(b, id, YMap(map[]))
  }

  /** A key `Put` adds goes last in the iteration order. */
  lemma PutOrder(b: BlocksMap, k: string, v: Out)
    requires Valid(b)
    ensures Put(b, k, v).order == if k in b.entries then b.order else b.order + [k]
  {
  }

  lemma InitMapOrder(b: BlocksMap, id: string)
    requires Valid(b)
    ensures InitMap(b, id).order == if id in b.entries then b.order else b.order + [id]
  {
  }

  /** `get_or_init_map(id)` followed by `insert(f, v)` on the block. */
  function SetField(b: BlocksMap, id: string, f: string, v: Out): (r: BlocksMap)
    requires Valid(b)
    ensures Valid(r) && r.entries == b.entries[id := YMap(Fields(b, id)[f := v])]
    ensures id in b.entries ==> r.order == b.order
  {
    Put(b, id, YMap(Fields(b, id)[f := v]))
  }

  /** `get_or_init_map(id)` followed by `remove(f)` on the block. */
  function RemoveField(b: BlocksMap, id: string, f: string): (r: BlocksMap)
    requires Valid(b)
    ensures Valid(r) && r.entries == b.entries[id := YMap(Fields(b, id) - {f})]
    ensures id in b.entries ==> r.order == b.order
  {
    Put(b, id, YMap(Fields(b, id) - {f}))
  }

  /** A block's fields after `get_or_init_map(ATTRIBUTES)` and inserting `extra` into that map. */
  function WithAttrs(fields: map<string, Out>, extra: map<string, Out>): (r: map<string, Out>)
    ensures r.Keys == fields.Keys + {Constants.ATTRIBUTES}
    ensures AttrsOf(r) == AttrsOf(fields) + extra
    ensures forall f | f in fields && f != Constants.ATTRIBUTES :: r[f] == fields[f]
  {
    fields[Constants.ATTRIBUTES := YMap(AttrsOf(fields) + extra)]
  }

  /**
   * The "device" and "timestamp" values a block carries at its top level (not in its
   * attributes), those that are plain values.
   */
  function OriginOf(fields: map<string, Out>): (r: map<string, Out>)
    ensures r.Keys <= {Constants.DEVICE, Constants.TIMESTAMP}
    ensures forall k | k in r :: k in fields && r[k] == fields[k] && r[k].Value?
    ensures forall k | k in {Constants.DEVICE, Constants.TIMESTAMP} && k in fields && fields[k].Value? :: k in r
  {
    var d := if Constants.DEVICE in fields && fields[Constants.DEVICE].Value? then map[Constants.DEVICE := fields[Constants.DEVICE]] else map[];
    if Constants.TIMESTAMP in fields && fields[Constants.TIMESTAMP].Value? then d[Constants.TIMESTAMP := fields[Constants.TIMESTAMP]] else d
  }

  function Str(s: string): Out
  {
    Value(String(s))
  }
}
