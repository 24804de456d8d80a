// The tables of the metadata store, as values.
//
// No statement of the modelled code deletes a row of `path_components`, `files`
// or `events`, so a table is a sequence and a row's id is its index. (SQLite
// numbers them from 1; the offset carries no information.)
module Tables {
  datatype Option<+T> = None | Some(value: T)

  type FileId = nat
  type ComponentId = nat

  /** A clean absolute path: its component names, outermost first. */
  type Path = seq<string>

  datatype FileRow = FileRow(
    parent: Option<FileId>,
    component: ComponentId,
    isDir: bool,
    size: Option<int>,
    mtime: Option<int>,
    deletedAt: Option<int>)
  {
    /** Not tombstoned. */
    predicate Live() {
      deletedAt.None?
    }

    /** Sits at the location (`p`, `c`), dead or alive. */
    predicate At(p: Option<FileId>, c: ComponentId) {
      parent == p && component == c
    }
  }

  /** `path_components` and `files`: the interned path tree. */
  datatype Tree = Tree(names: seq<string>, files: seq<FileRow>)

  datatype EventKind = Created | Modified | Deleted | Renamed

  datatype Event = Event(
    fileId: FileId,
    kind: EventKind,
    at: int,
    size: Option<int>,
    prevParent: Option<FileId>,
    prevComponent: Option<ComponentId>)

  /** The whole store: the path tree and the append-only event log. */
  datatype Db = Db(tree: Tree, events: seq<Event>)

  const EMPTY := Db(Tree([], []), [])
}
