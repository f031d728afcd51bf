/** The records exchanged with the editor (rust/src/doc/document_types.rs). */
module DocumentTypes {
  import opened Wrappers
  import opened Numbers
  import opened Json

  datatype ActionType = Insert | Update | Delete | Move

  /** A block as the editor sends and receives it; `delta` is the serialised JSON of its text. */
  datatype BlockDoc = BlockDoc(
    id: string,
    ty: string,
    attributes: map<string, string>,
    delta: Option<string>,
    parentId: Option<string>,
    prevId: Option<string>,
    nextId: Option<string>,
    oldParentId: Option<string>)

  datatype BlockAction = BlockAction(
    action: ActionType,
    block: BlockDoc,
    path: seq<U32>,
    oldPath: Option<seq<U32>>)

  datatype DocumentState = DocumentState(
    docId: string,
    blocks: map<string, BlockDoc>,
    childrenMap: map<string, seq<string>>,
    rootId: string)
}
