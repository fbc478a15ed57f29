/**
 * The identities and places the replica's journals and placement share
 * (packages/resource-replica/src/resource-records.ts).
 */
module Records {
  import opened Wrappers

  /** A file's or folder's id. */
  datatype EntryId = EntryId(text: string)

  datatype EntryKind = File | Folder

  datatype EntryRef = EntryRef(kind: EntryKind, id: EntryId)

  datatype Owner =
    | ProjectOwner
    | WorkOwner(workId: string, workHandle: Option<string>)
    | LineageOwner(rootThreadId: string, rootThreadRef: string)
    | ChatOwner(chatId: string, chatRef: Option<string>)

  datatype ParentRef = FolderParent(folderId: EntryId) | RootParent(scheme: string, owner: Owner)

  datatype Location = Location(scheme: string, path: string, name: string, owner: Owner)

  datatype Position = Before(siblingId: EntryId) | After(siblingId: EntryId) | Start | End

  datatype Destination = Destination(
    parent: ParentRef,
    createFolders: seq<string>,
    name: string,
    position: Option<Position>)

  predicate SameOwnerIds(a: Owner, b: Owner) {
    match (a, b)
    case (ProjectOwner, ProjectOwner) => true
    case (WorkOwner(left, _), WorkOwner(right, _)) => left == right
    case (LineageOwner(left, _), LineageOwner(right, _)) => left == right
    case (ChatOwner(left, _), ChatOwner(right, _)) => left == right
    case _ => false
  }

  /** The same Work, by id and handle, or the same lineage or chat by id. */
  predicate SameOwner(a: Owner, b: Owner) {
    if a.WorkOwner? || b.WorkOwner? then a == b else SameOwnerIds(a, b)
  }
}
