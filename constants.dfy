/** The key names shared by all operations (rust/src/doc/constants.rs). */
module Constants {
  const BLOCKS: string := "blocks"
  const CHILDREN_MAP: string := "childrenMap"
  const ROOT_ID: string := "document"
  const ROOT_TYPE: string := "page"
  const ATTRIBUTES: string := "attributes"
  const TEXT: string := "text"
  const ID: string := "id"
  const TYPE: string := "type"
  const PARENT_ID: string := "parentId"
  const PREV_ID: string := "prevId"
  /** Used by the state extraction but never declared by the source; the model picks this spelling. */
  const NEXT_ID: string := "nextId"
  const DEFAULT_PARENT: string := "default_parent"

  /** Attribute and top-level keys the chain logic reads. */
  const DEVICE: string := "device"
  const TIMESTAMP: string := "timestamp"
}
