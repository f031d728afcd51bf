/**
 * The document's root map (the shared map named "document"), as the document service
 * reads and writes it: its "blocks" sub-map, its "childrenMap" sub-map and its "document"
 * entry, which names the root block. An entry under "blocks" or "childrenMap" that is
 * absent and one that is not a map behave alike everywhere (reads fail, `get_or_init_map`
 * replaces them), so both are `None` here. Other keys of the root map are never read.
 */
module RootMap {
  import opened Wrappers
  import opened Yrs
  import opened Store

  datatype Root = Root(blocks: Option<BlocksMap>, children: Option<map<string, Out>>, rootId: Option<Out>)

  /** The structural invariant of a root map that holds a blocks map. */
  ghost predicate ValidRoot(root: Root)
  {
    root.blocks.Some? ==> Valid(root.blocks.value)
  }

  /** The root map of a document nothing has been written to. */
  function EmptyRoot(): (r: Root)
    ensures ValidRoot(r) && r.blocks.None? && r.children.None? && r.rootId.None?
  {
    Root(None, None, None)
  }

  /** `root.get_or_init_map(BLOCKS)`: the blocks map, or a new empty one. */
  function BlocksOrInit(root: Root): (r: BlocksMap)
    requires ValidRoot(root)
    ensures Valid(r)
    ensures root.blocks.Some? ==> r == root.blocks.value
    ensures root.blocks.None? ==> r.entries == map[]
  {
    if root.blocks.Some? then root.blocks.value else Empty()
  }
}
