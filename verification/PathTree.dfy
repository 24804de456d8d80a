// The interned path tree: which path a row has, what an upsert does to it, and
// the invariant that every operation on it keeps.
module PathTree {
  import opened Tables

  // ---------------------------------------------------------------- paths

  /** Row `id` resolves to `path`: its parent chain is complete, ends at a null
      parent, and spells `path`. */
  ghost predicate HasPath(t: Tree, id: FileId, path: Path)
    decreases |path|
  {
    && path != []
    && id < |t.files|
    && t.files[id].component < |t.names|
    && t.names[t.files[id].component] == path[|path| - 1]
    && match t.files[id].parent
       case None => |path| == 1
       case Some(p) => HasPath(t, p, path[..|path| - 1])
  }

  /** As HasPath, and no row of the chain is a tombstone. */
  ghost predicate LivePath(t: Tree, id: FileId, path: Path)
    decreases |path|
  {
    && path != []
    && id < |t.files|
    && t.files[id].Live()
    && t.files[id].component < |t.names|
    && t.names[t.files[id].component] == path[|path| - 1]
    && match t.files[id].parent
       case None => |path| == 1
       case Some(p) => LivePath(t, p, path[..|path| - 1])
  }

  /** Some row resolves to `path` through live rows only. */
  ghost predicate LiveAt(t: Tree, path: Path) {
    exists id: FileId :: LivePath(t, id, path)
  }

  /** The parent chain of `id` reaches `top` after spelling `suffix`. */
  ghost predicate Below(t: Tree, id: FileId, top: FileId, suffix: Path)
    decreases |suffix|
  {
    if suffix == [] then id == top else
    && id < |t.files|
    && t.files[id].component < |t.names|
    && t.names[t.files[id].component] == suffix[|suffix| - 1]
    && t.files[id].parent.Some?
    && Below(t, t.files[id].parent.value, top, suffix[..|suffix| - 1])
  }

  /** `start` is the directory `path`, a null parent standing for the empty path. */
  ghost predicate LiveStart(t: Tree, start: Option<FileId>, path: Path) {
    match start
    case None => path == []
    case Some(id) => LivePath(t, id, path)
  }

  lemma {:induction false} PathUnique(t: Tree, id: FileId, p: Path, q: Path)
    requires HasPath(t, id, p) && HasPath(t, id, q)
    ensures p == q
    decreases |p|
  {
    if t.files[id].parent.Some? {
      PathUnique(t, t.files[id].parent.value, p[..|p| - 1], q[..|q| - 1]);
    }
    assert p == p[..|p| - 1] + [p[|p| - 1]];
    assert q == q[..|q| - 1] + [q[|q| - 1]];
  }

  lemma {:induction false} LivePathIsPath(t: Tree, id: FileId, p: Path)
    requires LivePath(t, id, p)
    ensures HasPath(t, id, p)
    decreases |p|
  {
    if t.files[id].parent.Some? {
      LivePathIsPath(t, t.files[id].parent.value, p[..|p| - 1]);
    }
  }

  // ------------------------------------------------------------ invariant

  predicate DistinctNames(names: seq<string>) {
    forall i, j :: 0 <= i < j < |names| ==> names[i] != names[j]
  }

  /** Every parent chain ends at a null parent and every reference on it resolves:
      no dangling parent, no missing component, no cycle. */
  ghost predicate Rooted(t: Tree) {
    forall id: FileId :: id < |t.files| ==> Resolves(t, id)
  }

  ghost predicate Resolves(t: Tree, id: FileId) {
    exists path :: HasPath(t, id, path)
  }

  /** At most one live row per location, null parents included. */
  ghost predicate LiveUnique(files: seq<FileRow>) {
    forall i, j :: 0 <= i < |files| && 0 <= j < |files| && files[i].Live() && files[j].Live()
                   && files[i].parent == files[j].parent && files[i].component == files[j].component
                   ==> i == j
  }

  ghost predicate Valid(t: Tree) {
    DistinctNames(t.names) && Rooted(t) && LiveUnique(t.files)
  }

  /** What Rooted says in the schema's terms. */
  lemma RootedResolves(t: Tree, id: FileId)
    requires Rooted(t) && id < |t.files|
    ensures t.files[id].component < |t.names|
    ensures t.files[id].parent.Some? ==> t.files[id].parent.value < |t.files| && t.files[id].parent.value != id
  {
    assert Resolves(t, id);
    var path :| HasPath(t, id, path);
    if t.files[id].parent.Some? {
      var p := t.files[id].parent.value;
      assert HasPath(t, p, path[..|path| - 1]);
      if p == id {
        PathUnique(t, id, path, path[..|path| - 1]);
        assert false;
      }
    }
  }

  /** No row is below itself: parent links have no cycle. */
  lemma {:induction false} NoCycle(t: Tree, id: FileId, suffix: Path)
    requires Rooted(t) && Below(t, id, id, suffix)
    requires id < |t.files|
    ensures suffix == []
  {
    assert Resolves(t, id);
    var path :| HasPath(t, id, path);
    BelowPath(t, id, id, suffix, path);
    PathUnique(t, id, path, path + suffix);
  }

  /** A row below `top` has the path of `top` followed by the suffix spelled. */
  lemma {:induction false} BelowPath(t: Tree, id: FileId, top: FileId, suffix: Path, path: Path)
    requires Below(t, id, top, suffix) && HasPath(t, top, path)
    ensures HasPath(t, id, path + suffix)
    decreases |suffix|
  {
    if suffix == [] {
      assert path + suffix == path;
    } else {
      var init := suffix[..|suffix| - 1];
      BelowPath(t, t.files[id].parent.value, top, init, path);
      assert (path + suffix)[..|path + suffix| - 1] == path + init;
    }
  }

  /** Two rows whose whole chain is live never resolve to the same path. */
  lemma {:induction false} LivePathUnique(t: Tree, i: FileId, j: FileId, path: Path)
    requires Valid(t)
    requires LivePath(t, i, path) && LivePath(t, j, path)
    ensures i == j
    decreases |path|
  {
    if t.files[i].parent.Some? {
      LivePathUnique(t, t.files[i].parent.value, t.files[j].parent.value, path[..|path| - 1]);
    }
    assert t.files[i].component == t.files[j].component;
  }

  // --------------------------------------------------------------- growth

  /** Rows of `t` keep their id, place and kind in `u`. */
  ghost predicate Extends(t: Tree, u: Tree) {
    && t.names <= u.names
    && |t.files| <= |u.files|
    && forall i :: 0 <= i < |t.files| ==> SamePlace(t.files[i], u.files[i])
  }

  predicate SamePlace(a: FileRow, b: FileRow) {
    a.parent == b.parent && a.component == b.component && a.isDir == b.isDir
  }

  /** `u` is `t` after upserts: besides, nothing live dies. */
  ghost predicate Grows(t: Tree, u: Tree) {
    && Extends(t, u)
    && forall i :: 0 <= i < |t.files| && t.files[i].Live() ==> u.files[i].Live()
  }

  lemma GrowsTransitive(t: Tree, u: Tree, v: Tree)
    requires Grows(t, u) && Grows(u, v)
    ensures Grows(t, v)
  {
    forall i | 0 <= i < |t.files| ensures SamePlace(t.files[i], v.files[i]) {
      assert SamePlace(t.files[i], u.files[i]);
    }
  }

  lemma {:induction false} ExtendsPath(t: Tree, u: Tree, id: FileId, path: Path)
    requires Extends(t, u) && HasPath(t, id, path)
    ensures HasPath(u, id, path)
    decreases |path|
  {
    assert SamePlace(t.files[id], u.files[id]);
    if t.files[id].parent.Some? {
      ExtendsPath(t, u, t.files[id].parent.value, path[..|path| - 1]);
    }
  }

  lemma PathBack(t: Tree, u: Tree, id: FileId, path: Path)
    requires Rooted(t) && Extends(t, u) && id < |t.files| && HasPath(u, id, path)
    ensures HasPath(t, id, path)
  {
    assert Resolves(t, id);
    var p :| HasPath(t, id, p);
    ExtendsPath(t, u, id, p);
    PathUnique(u, id, p, path);
  }

  lemma ExtendsRooted(t: Tree, u: Tree)
    requires Rooted(t) && Extends(t, u)
    ensures forall id: FileId :: id < |t.files| ==> Resolves(u, id)
  {
    forall id: FileId | id < |t.files| ensures Resolves(u, id) {
      assert Resolves(t, id);
      var path :| HasPath(t, id, path);
      ExtendsPath(t, u, id, path);
    }
  }

  lemma {:induction false} GrowsLivePath(t: Tree, u: Tree, id: FileId, path: Path)
    requires Grows(t, u) && LivePath(t, id, path)
    ensures LivePath(u, id, path)
    decreases |path|
  {
    assert SamePlace(t.files[id], u.files[id]);
    if t.files[id].parent.Some? {
      GrowsLivePath(t, u, t.files[id].parent.value, path[..|path| - 1]);
    }
  }

  /** Which old rows are below which does not change. */
  lemma {:induction false} ExtendsBelow(t: Tree, u: Tree, id: FileId, top: FileId, suffix: Path)
    requires Extends(t, u) && Rooted(t) && id < |t.files|
    ensures Below(t, id, top, suffix) <==> Below(u, id, top, suffix)
    decreases |suffix|
  {
    if suffix != [] {
      assert SamePlace(t.files[id], u.files[id]);
      RootedResolves(t, id);
      if t.files[id].parent.Some? {
        ExtendsBelow(t, u, t.files[id].parent.value, top, suffix[..|suffix| - 1]);
      }
    }
  }

  // ----------------------------------------------------------- statements

  /** `SELECT id FROM path_components WHERE name = ?1` */
  function LookupName(names: seq<string>, name: string): (r: Option<ComponentId>)
    ensures r.Some? ==> r.value < |names| && names[r.value] == name
    ensures r.None? ==> name !in names
  {
    if names == [] then None
    else if names[|names| - 1] == name then Some(|names| - 1)
    else LookupName(names[..|names| - 1], name)
  }

  /** Select the component, else insert it. */
  function Intern(t: Tree, name: string): (Tree, ComponentId) {
    match LookupName(t.names, name)
    case Some(c) => (t, c)
    case None => (t.(names := t.names + [name]), |t.names|)
  }

  /** `ORDER BY deleted_at IS NULL DESC, deleted_at DESC`: `a` sorts strictly first. */
  predicate Ahead(a: FileRow, b: FileRow) {
    !b.Live() && (a.Live() || a.deletedAt.value > b.deletedAt.value)
  }

  /** The row a location query returns among the first `n`: the live one if there is
      one, else the latest tombstone. Equal tombstones go to the lower id. */
  function PickAmong(files: seq<FileRow>, p: Option<FileId>, c: ComponentId, n: nat): (r: Option<FileId>)
    requires n <= |files|
    ensures r.Some? ==> r.value < n && IsPick(files[..n], p, c, r.value)
    ensures r.None? ==> forall i :: 0 <= i < n ==> !files[i].At(p, c)
  {
    if n == 0 then None else
    var r := PickAmong(files, p, c, n - 1);
    if !files[n - 1].At(p, c) then r
    else if r.Some? && !Ahead(files[n - 1], files[r.value]) then r
    else Some(n - 1)
  }

  function Pick(files: seq<FileRow>, p: Option<FileId>, c: ComponentId): (r: Option<FileId>)
    ensures r.Some? ==> r.value < |files| && IsPick(files, p, c, r.value)
    ensures r.None? ==> forall i :: 0 <= i < |files| ==> !files[i].At(p, c)
  {
    assert files[..|files|] == files;
    PickAmong(files, p, c, |files|)
  }

  predicate IsPick(files: seq<FileRow>, p: Option<FileId>, c: ComponentId, id: FileId) {
    && id < |files| && files[id].At(p, c)
    && (forall i :: 0 <= i < |files| && files[i].At(p, c) ==> !Ahead(files[i], files[id]))
    && (forall i :: 0 <= i < id && files[i].At(p, c) ==> Ahead(files[id], files[i]))
  }

  /** `... AND deleted_at IS NULL`: the live row of a location. */
  function LiveEntry(files: seq<FileRow>, p: Option<FileId>, c: ComponentId): (r: Option<FileId>)
    ensures r.Some? ==> r.value < |files| && files[r.value].At(p, c) && files[r.value].Live()
    ensures r.None? ==> forall i :: 0 <= i < |files| && files[i].At(p, c) ==> !files[i].Live()
  {
    match Pick(files, p, c)
    case Some(id) => if files[id].Live() then Some(id) else None
    case None => None
  }

  /** Two tables that agree on a location's rows answer its query alike. */
  lemma PickDetermined(f: seq<FileRow>, g: seq<FileRow>, p: Option<FileId>, c: ComponentId)
    requires |f| <= |g|
    requires forall i :: 0 <= i < |f| && (f[i].At(p, c) || g[i].At(p, c)) ==> f[i] == g[i]
    requires forall i :: |f| <= i < |g| ==> !g[i].At(p, c)
    ensures Pick(f, p, c) == Pick(g, p, c)
  {
    var a, b := Pick(f, p, c), Pick(g, p, c);
    if a.Some? && b.Some? && a != b {
      assert false;
    }
  }

  /** A live row is what its location's query returns. */
  lemma PickLive(files: seq<FileRow>, p: Option<FileId>, c: ComponentId, id: FileId)
    requires LiveUnique(files) && id < |files| && files[id].Live() && files[id].At(p, c)
    ensures Pick(files, p, c) == Some(id)
  {
    var r := Pick(files, p, c);
    assert r.Some?;
    assert !Ahead(files[id], files[r.value]);
    assert files[r.value].Live();
  }

  /** Update the row at a location, reviving it, or insert one. */
  function Upsert(t: Tree, p: Option<FileId>, c: ComponentId, isDir: bool, size: Option<int>, mtime: Option<int>)
    : (Tree, FileId)
  {
    match Pick(t.files, p, c)
    case Some(id) =>
      var row := t.files[id].(size := size, mtime := mtime, deletedAt := None);
      (t.(files := t.files[id := row]), id)
    case None =>
      (t.(files := t.files + [FileRow(p, c, isDir, size, mtime, None)]), |t.files|)
  }

  /** The directory rows of `path` below `start`, outermost first; the deepest one's id. */
  function EnsureDirs(t: Tree, start: Option<FileId>, path: Path): (r: (Tree, Option<FileId>))
    ensures start.Some? || path != [] ==> r.1.Some?
    decreases |path|
  {
    if path == [] then (t, start) else
    var (t1, id) := EnsureDir(t, start, path[0]);
    EnsureDirs(t1, Some(id), path[1..])
  }

  /** One directory of a chain: intern its name, then upsert its row. */
  function EnsureDir(t: Tree, start: Option<FileId>, name: string): (Tree, FileId) {
    var (t1, c) := Intern(t, name);
    Upsert(t1, start, c, true, None, None)
  }

  /** Walk existing rows only, following each location's query. */
  function FindDirs(t: Tree, start: Option<FileId>, path: Path): Option<FileId>
    decreases |path|
  {
    if path == [] then start else
    match LookupName(t.names, path[0])
    case None => None
    case Some(c) =>
      match Pick(t.files, start, c)
      case None => None
      case Some(id) => FindDirs(t, Some(id), path[1..])
  }

  // ------------------------------------------------- what statements keep

  lemma LookupNameAt(names: seq<string>, c: ComponentId)
    requires DistinctNames(names) && c < |names|
    ensures LookupName(names, names[c]) == Some(c)
  {
    var r := LookupName(names, names[c]);
    assert r.Some? && names[r.value] == names[c];
  }

  lemma InternFacts(t: Tree, name: string)
    requires Valid(t)
    ensures var (u, c) := Intern(t, name);
            && Valid(u) && Grows(t, u) && u.files == t.files
            && c < |u.names| && u.names[c] == name
            && (name in t.names ==> u == t)
  {
    var (u, c) := Intern(t, name);
    ExtendsRooted(t, u);
  }

  /** A name is added at the end, and only if it is new. */
  lemma InternNames(t: Tree, name: string)
    ensures Intern(t, name).0.names == if name in t.names then t.names else t.names + [name]
  {
  }

  /** An upsert keeps the tree invariant and touches one row, the one at its location. */
  lemma UpsertFacts(t: Tree, p: Option<FileId>, c: ComponentId, isDir: bool, size: Option<int>, mtime: Option<int>)
    requires Valid(t) && c < |t.names| && (p.Some? ==> p.value < |t.files|)
    ensures var (u, id) := Upsert(t, p, c, isDir, size, mtime);
            && Valid(u) && Grows(t, u) && u.names == t.names
            && |u.files| <= |t.files| + 1
            && id < |u.files| && u.files[id].At(p, c) && u.files[id].Live()
            && u.files[id].size == size && u.files[id].mtime == mtime
            && (forall i :: 0 <= i < |t.files| && i != id ==> u.files[i] == t.files[i])
            && (|t.files| < |u.files| ==> id == |t.files| && u.files[id].isDir == isDir)
  {
    var (u, id) := Upsert(t, p, c, isDir, size, mtime);
    ExtendsRooted(t, u);
    if id == |t.files| {
      if p.Some? {
        assert Resolves(u, p.value);
        var path :| HasPath(u, p.value, path);
        assert (path + [t.names[c]])[..|path|] == path;
        assert HasPath(u, id, path + [t.names[c]]);
      } else {
        assert HasPath(u, id, [t.names[c]]);
      }
    }
    forall i, j | 0 <= i < |u.files| && 0 <= j < |u.files| && u.files[i].Live() && u.files[j].Live()
                  && u.files[i].parent == u.files[j].parent && u.files[i].component == u.files[j].component
      ensures i == j
    {
      if i != j {
        assert false;
      }
    }
  }

  /** The row an upsert below a live directory yields has that directory's path plus
      its name, and the whole chain is live. */
  lemma UpsertPath(t: Tree, p: Option<FileId>, dir: Path, c: ComponentId, isDir: bool, size: Option<int>, mtime: Option<int>)
    requires Valid(t) && c < |t.names| && LiveStart(t, p, dir)
    ensures var (u, id) := Upsert(t, p, c, isDir, size, mtime);
            LivePath(u, id, dir + [t.names[c]])
  {
    UpsertFacts(t, p, c, isDir, size, mtime);
    var (u, id) := Upsert(t, p, c, isDir, size, mtime);
    assert (dir + [t.names[c]])[..|dir|] == dir;
    if p.Some? {
      GrowsLivePath(t, u, p.value, dir);
    }
  }

  lemma EnsureDirFacts(t: Tree, start: Option<FileId>, dir: Path, name: string)
    requires Valid(t) && LiveStart(t, start, dir)
    ensures var (u, id) := EnsureDir(t, start, name);
            Valid(u) && Grows(t, u) && LivePath(u, id, dir + [name])
  {
    var (t1, c) := Intern(t, name);
    InternFacts(t, name);
    if start.Some? { GrowsLivePath(t, t1, start.value, dir); }
    UpsertFacts(t1, start, c, true, None, None);
    UpsertPath(t1, start, dir, c, true, None, None);
    GrowsTransitive(t, t1, EnsureDir(t, start, name).0);
  }

  /** Ensuring a chain keeps the invariant, and the row reached is the directory asked for. */
  lemma EnsureDirsFacts(t: Tree, start: Option<FileId>, dir: Path, path: Path)
    requires Valid(t) && LiveStart(t, start, dir)
    ensures var (u, id) := EnsureDirs(t, start, path);
            && Valid(u) && Grows(t, u) && LiveStart(u, id, dir + path)
  {
    EnsureDirsReach(t, start, dir, path, dir + path);
  }

  lemma {:induction false} EnsureDirsReach(t: Tree, start: Option<FileId>, dir: Path, path: Path, whole: Path)
    requires Valid(t) && LiveStart(t, start, dir) && whole == dir + path
    ensures var (u, id) := EnsureDirs(t, start, path);
            && Valid(u) && Grows(t, u) && LiveStart(u, id, whole)
    decreases |path|
  {
    if path == [] {
      assert whole == dir;
    } else {
      var here := dir + [path[0]];
      assert whole == here + path[1..];
      var (t1, id) := EnsureDir(t, start, path[0]);
      EnsureDirFacts(t, start, dir, path[0]);
      EnsureDirsReach(t1, Some(id), here, path[1..], whole);
      EnsureDirsUnfold(t, start, path);
      GrowsTransitive(t, t1, EnsureDirs(t1, Some(id), path[1..]).0);
    }
  }

  lemma EnsureDirsUnfold(t: Tree, start: Option<FileId>, path: Path)
    requires path != []
    ensures var (t1, id) := EnsureDir(t, start, path[0]);
            EnsureDirs(t, start, path) == EnsureDirs(t1, Some(id), path[1..])
  {
  }

  /** Ensuring a chain in two parts is ensuring it whole, wherever it is split. */
  lemma {:induction false} EnsureDirsSplit(t: Tree, start: Option<FileId>, a: Path, b: Path)
    ensures var (u, id) := EnsureDirs(t, start, a);
            EnsureDirs(t, start, a + b) == EnsureDirs(u, id, b)
    decreases |a|
  {
    if a == [] {
      assert a + b == b;
    } else {
      var (t1, id) := EnsureDir(t, start, a[0]);
      var whole := a + b;
      assert whole[0] == a[0] && whole[1..] == a[1..] + b;
      assert EnsureDirs(t, start, whole) == EnsureDirs(t1, Some(id), whole[1..]);
      EnsureDirsSplit(t1, Some(id), a[1..], b);
    }
  }

  lemma EnsureOneMore(t: Tree, start: Option<FileId>, path: Path, name: string)
    ensures var (u, at) := EnsureDirs(t, start, path);
            var (v, id) := EnsureDir(u, at, name);
            EnsureDirs(t, start, path + [name]) == (v, Some(id))
  {
    EnsureDirsSplit(t, start, path, [name]);
    assert [name][1..] == [];
  }

  /** Every row a chain adds is a directory. */
  lemma {:induction false} NewRowsAreDirs(t: Tree, start: Option<FileId>, dir: Path, path: Path, id: FileId)
    requires Valid(t) && LiveStart(t, start, dir)
    requires |t.files| <= id < |EnsureDirs(t, start, path).0.files|
    ensures EnsureDirs(t, start, path).0.files[id].isDir
    decreases |path|
  {
    if path != [] {
      var (t1, sub) := EnsureDir(t, start, path[0]);
      EnsureDirFacts(t, start, dir, path[0]);
      EnsureDirsFacts(t1, Some(sub), dir + [path[0]], path[1..]);
      if id < |t1.files| {
        assert t1.files[id].isDir;
        assert SamePlace(t1.files[id], EnsureDirs(t, start, path).0.files[id]);
      } else {
        NewRowsAreDirs(t1, Some(sub), dir + [path[0]], path[1..], id);
      }
    }
  }

  /** Only rows on the chain itself are touched. */
  lemma {:induction false} EnsureDirsFrame(t: Tree, start: Option<FileId>, dir: Path, path: Path, id: FileId, at: Path)
    requires Valid(t) && LiveStart(t, start, dir) && HasPath(t, id, at)
    requires !(dir < at <= dir + path)
    ensures var u := EnsureDirs(t, start, path).0;
            id < |u.files| && u.files[id] == t.files[id]
    decreases |path|
  {
    if path != [] {
      var name, rest := path[0], path[1..];
      var here := dir + [name];
      assert here + rest == dir + path && dir < here <= here + rest;
      EnsureDirFacts(t, start, dir, name);
      EnsureDirFrame(t, start, dir, name, id, at);
      var (t1, sub) := EnsureDir(t, start, name);
      ExtendsPath(t, t1, id, at);
      EnsureDirsFrame(t1, Some(sub), here, rest, id, at);
      assert EnsureDirs(t, start, path) == EnsureDirs(t1, Some(sub), rest);
    }
  }

  lemma EnsureDirFrame(t: Tree, start: Option<FileId>, dir: Path, name: string, id: FileId, at: Path)
    requires Valid(t) && LiveStart(t, start, dir) && HasPath(t, id, at)
    requires at != dir + [name]
    ensures var u := EnsureDir(t, start, name).0;
            id < |u.files| && u.files[id] == t.files[id]
  {
    EnsureDirFacts(t, start, dir, name);
    InternFacts(t, name);
    var (t1, c) := Intern(t, name);
    UpsertFacts(t1, start, c, true, None, None);
    var (u, sub) := EnsureDir(t, start, name);
    if id == sub {
      ExtendsPath(t, u, id, at);
      LivePathIsPath(u, sub, dir + [name]);
      PathUnique(u, id, at, dir + [name]);
      assert false;
    }
  }

  /** The same rows, apart from the size and mtime they hold. */
  ghost predicate Alike(t: Tree, u: Tree) {
    && t.names == u.names && |t.files| == |u.files|
    && forall i :: 0 <= i < |t.files| ==> SamePlace(t.files[i], u.files[i]) && t.files[i].deletedAt == u.files[i].deletedAt
  }

  /** A chain that is already live is found: no row is added, moved or revived. */
  lemma {:induction false} EnsureDirsFinds(t: Tree, start: Option<FileId>, dir: Path, path: Path, id: FileId)
    requires Valid(t) && LiveStart(t, start, dir)
    requires LivePath(t, id, dir + path)
    ensures var (u, found) := EnsureDirs(t, start, path);
            found == Some(id) && Alike(t, u)
    decreases |path|
  {
    if path == [] {
      assert dir + path == dir;
      LivePathUnique(t, id, start.value, dir);
    } else {
      var name, rest := path[0], path[1..];
      var (t1, sub) := EnsureDir(t, start, name);
      assert dir + path == dir + [name] + rest;
      EnsureDirFacts(t, start, dir, name);
      EnsureDirFinds(t, start, dir, name, rest, id);
      EnsureDirsFinds(t1, Some(sub), dir + [name], rest, id);
      AlikeTransitive(t, t1, EnsureDirs(t1, Some(sub), rest).0);
    }
  }

  lemma AlikeTransitive(t: Tree, u: Tree, v: Tree)
    requires Alike(t, u) && Alike(u, v)
    ensures Alike(t, v)
  {
    forall i | 0 <= i < |t.files| ensures SamePlace(t.files[i], v.files[i]) {
      assert SamePlace(t.files[i], u.files[i]) && SamePlace(u.files[i], v.files[i]);
    }
  }

  lemma EnsureDirFinds(t: Tree, start: Option<FileId>, dir: Path, name: string, rest: Path, id: FileId)
    requires Valid(t) && LiveStart(t, start, dir)
    requires LivePath(t, id, dir + [name] + rest)
    ensures var (u, sub) := EnsureDir(t, start, name);
            Alike(t, u) && LivePath(u, id, dir + [name] + rest)
  {
    var step := LiveAncestor(t, id, dir + [name], rest);
    var (u, sub) := EnsureDir(t, start, name);
    LookupNameAt(t.names, t.files[step].component);
    InternFacts(t, name);
    assert (dir + [name])[..|dir|] == dir;
    if start.Some? {
      LivePathUnique(t, start.value, t.files[step].parent.value, dir);
    }
    PickLive(t.files, start, t.files[step].component, step);
    EnsureDirFacts(t, start, dir, name);
    GrowsLivePath(t, u, id, dir + [name] + rest);
  }

  /** Every non-empty prefix of a live path is the live path of an ancestor. */
  lemma {:induction false} LiveAncestor(t: Tree, id: FileId, prefix: Path, rest: Path) returns (up: FileId)
    requires LivePath(t, id, prefix + rest) && prefix != []
    ensures LivePath(t, up, prefix) && Below(t, id, up, rest)
    decreases |rest|
  {
    if rest == [] {
      assert prefix + rest == prefix;
      up := id;
    } else {
      var init := rest[..|rest| - 1];
      assert (prefix + rest)[..|prefix + rest| - 1] == prefix + init;
      up := LiveAncestor(t, t.files[id].parent.value, prefix, init);
    }
  }

  /** A row an ensured chain adds sits on the chain. */
  lemma {:induction false} NewRowOnChain(t: Tree, start: Option<FileId>, dir: Path, path: Path, id: FileId, at: Path)
    requires Valid(t) && LiveStart(t, start, dir) && id >= |t.files|
    requires HasPath(EnsureDirs(t, start, path).0, id, at)
    ensures at <= dir + path
    decreases |path|
  {
    if path != [] {
      var name, rest := path[0], path[1..];
      var here := dir + [name];
      assert dir + path == here + rest;
      EnsureDirFacts(t, start, dir, name);
      InternFacts(t, name);
      UpsertFacts(Intern(t, name).0, start, Intern(t, name).1, true, None, None);
      var (t1, sub) := EnsureDir(t, start, name);
      EnsureDirsFacts(t1, Some(sub), here, rest);
      var u := EnsureDirs(t1, Some(sub), rest).0;
      if id < |t1.files| {
        GrowsLivePath(t1, u, sub, here);
        LivePathIsPath(u, sub, here);
        PathUnique(u, id, at, here);
      } else {
        NewRowOnChain(t1, Some(sub), here, rest, id, at);
      }
    }
  }

  // ------------------------------------------- looking up without creating

  /** An upsert never changes what another query, or its own, would pick. */
  lemma UpsertKeepsPicks(t: Tree, p: Option<FileId>, c: ComponentId, isDir: bool, size: Option<int>, mtime: Option<int>,
                         q: Option<FileId>, d: ComponentId)
    requires Valid(t) && c < |t.names| && (p.Some? ==> p.value < |t.files|)
    requires Pick(t.files, q, d).Some?
    ensures Pick(Upsert(t, p, c, isDir, size, mtime).0.files, q, d) == Pick(t.files, q, d)
  {
    var (u, id) := Upsert(t, p, c, isDir, size, mtime);
    UpsertFacts(t, p, c, isDir, size, mtime);
    if (q, d) == (p, c) {
      PickLive(u.files, p, c, id);
    } else {
      PickDetermined(t.files, u.files, q, d);
    }
  }

  /** Ensuring a chain follows the rows a lookup of it finds, reviving them if dead. */
  lemma {:induction false} EnsureDirsFollowsFind(t: Tree, start: Option<FileId>, dir: Path, path: Path)
    requires Valid(t) && LiveStart(t, start, dir)
    requires path != [] && FindDirs(t, start, path).Some?
    ensures EnsureDirs(t, start, path).1 == FindDirs(t, start, path)
    decreases |path|
  {
    var c := LookupName(t.names, path[0]).value;
    var (t1, id) := EnsureDir(t, start, path[0]);
    EnsureDirFacts(t, start, dir, path[0]);
    if path[1..] != [] {
      UpsertKeepsFind(t, start, c, Some(id), path[1..]);
      EnsureDirsFollowsFind(t1, Some(id), dir + [path[0]], path[1..]);
    }
  }

  lemma {:induction false} UpsertKeepsFind(t: Tree, p: Option<FileId>, c: ComponentId, start: Option<FileId>, path: Path)
    requires Valid(t) && c < |t.names| && (p.Some? ==> p.value < |t.files|)
    requires path != [] && FindDirs(t, start, path).Some?
    ensures FindDirs(Upsert(t, p, c, true, None, None).0, start, path) == FindDirs(t, start, path)
    decreases |path|
  {
    var u := Upsert(t, p, c, true, None, None).0;
    UpsertFacts(t, p, c, true, None, None);
    var d := LookupName(t.names, path[0]).value;
    UpsertKeepsPicks(t, p, c, true, None, None, start, d);
    if path[1..] != [] {
      UpsertKeepsFind(t, p, c, Pick(t.files, start, d), path[1..]);
    }
  }

  /** A row reached by lookups has the path looked up. */
  lemma {:induction false} FindDirsPath(t: Tree, start: Option<FileId>, dir: Path, path: Path)
    requires start.None? ==> dir == []
    requires start.Some? ==> HasPath(t, start.value, dir)
    requires path != [] && FindDirs(t, start, path).Some? && Rooted(t)
    ensures HasPath(t, FindDirs(t, start, path).value, dir + path)
    decreases |path|
  {
    var c := LookupName(t.names, path[0]).value;
    var id := Pick(t.files, start, c).value;
    var here := dir + [path[0]];
    assert here[..|here| - 1] == dir;
    assert HasPath(t, id, here);
    assert here + path[1..] == dir + path;
    if path[1..] == [] {
      assert dir + path == here;
    } else {
      FindDirsPath(t, Some(id), here, path[1..]);
    }
  }

  /** A live path is found by lookups. */
  lemma {:induction false} FindDirsLive(t: Tree, start: Option<FileId>, dir: Path, path: Path, id: FileId)
    requires Valid(t) && LiveStart(t, start, dir) && path != []
    requires LivePath(t, id, dir + path)
    ensures FindDirs(t, start, path) == Some(id)
    decreases |path|
  {
    var here, rest := dir + [path[0]], path[1..];
    assert dir + path == here + rest;
    var step := LiveAncestor(t, id, here, rest);
    LookupNameAt(t.names, t.files[step].component);
    assert here[..|here| - 1] == dir && here[|here| - 1] == path[0];
    if start.Some? {
      LivePathUnique(t, start.value, t.files[step].parent.value, dir);
    }
    PickLive(t.files, start, t.files[step].component, step);
    assert FindDirs(t, start, path) == FindDirs(t, Some(step), rest);
    if rest == [] {
      assert here + rest == here;
      LivePathUnique(t, id, step, here);
    } else {
      FindDirsLive(t, Some(step), here, rest, id);
    }
  }

  lemma {:induction false} FindDirsSplit(t: Tree, start: Option<FileId>, a: Path, b: Path)
    requires FindDirs(t, start, a).Some? || (a == [] && start.None?)
    ensures FindDirs(t, start, a + b) == FindDirs(t, FindDirs(t, start, a), b)
    decreases |a|
  {
    if a == [] {
      assert a + b == b;
    } else {
      assert (a + b)[1..] == a[1..] + b;
      FindDirsSplit(t, Pick(t.files, start, LookupName(t.names, a[0]).value), a[1..], b);
    }
  }

  // -------------------------------------------------------- re-parenting

  /** `UPDATE files SET parent_id, component_id, deleted_at = NULL WHERE id = m` */
  function Move(t: Tree, m: FileId, q: FileId, c: ComponentId): Tree
    requires m < |t.files|
  {
    t.(files := t.files[m := t.files[m].(parent := Some(q), component := c, deletedAt := None)])
  }

  ghost predicate IsBelow(t: Tree, id: FileId, top: FileId) {
    exists suffix :: Below(t, id, top, suffix)
  }

  /** Rows not below the moved one keep their path. */
  lemma {:induction false} MoveElsewhere(t: Tree, m: FileId, q: FileId, c: ComponentId, id: FileId, path: Path)
    requires m < |t.files| && HasPath(t, id, path) && !IsBelow(t, id, m)
    ensures HasPath(Move(t, m, q, c), id, path)
    decreases |path|
  {
    assert Below(t, id, id, []);
    if t.files[id].parent.Some? {
      var p := t.files[id].parent.value;
      if IsBelow(t, p, m) {
        var suffix :| Below(t, p, m, suffix);
        var longer := suffix + [path[|path| - 1]];
        assert longer[..|longer| - 1] == suffix;
        assert Below(t, id, m, longer);
        assert false;
      }
      MoveElsewhere(t, m, q, c, p, path[..|path| - 1]);
    }
  }

  /** Rows below the moved one get the destination followed by their old suffix. */
  lemma {:induction false} MoveSubtree(t: Tree, m: FileId, q: FileId, dir: Path, c: ComponentId, id: FileId, suffix: Path)
    requires Rooted(t) && m < |t.files| && c < |t.names|
    requires HasPath(t, q, dir) && !IsBelow(t, q, m)
    requires Below(t, id, m, suffix)
    ensures HasPath(Move(t, m, q, c), id, dir + [t.names[c]] + suffix)
    decreases |suffix|
  {
    var u := Move(t, m, q, c);
    var whole := dir + [t.names[c]] + suffix;
    if suffix == [] {
      MoveElsewhere(t, m, q, c, q, dir);
      assert whole[..|whole| - 1] == dir;
    } else {
      var init := suffix[..|suffix| - 1];
      if id == m {
        NoCycle(t, m, suffix);
        assert false;
      }
      MoveSubtree(t, m, q, dir, c, t.files[id].parent.value, init);
      assert whole[..|whole| - 1] == dir + [t.names[c]] + init;
    }
  }

  /** A move keeps the tree invariant when its target directory is not below the moved
      row and its target location holds no other live row. */
  lemma MoveValid(t: Tree, m: FileId, q: FileId, dir: Path, c: ComponentId)
    requires Valid(t) && m < |t.files| && c < |t.names|
    requires HasPath(t, q, dir) && !IsBelow(t, q, m)
    requires forall i :: 0 <= i < |t.files| && i != m && t.files[i].At(Some(q), c) ==> !t.files[i].Live()
    ensures Valid(Move(t, m, q, c))
  {
    var u := Move(t, m, q, c);
    forall id: FileId | id < |u.files| ensures Resolves(u, id) {
      assert Resolves(t, id);
      var path :| HasPath(t, id, path);
      if IsBelow(t, id, m) {
        var suffix :| Below(t, id, m, suffix);
        MoveSubtree(t, m, q, dir, c, id, suffix);
      } else {
        MoveElsewhere(t, m, q, c, id, path);
      }
    }
  }

  /** A move under the moved row itself makes a cycle: the row resolves to nothing. */
  lemma MoveBelowItself(t: Tree, m: FileId, q: FileId, c: ComponentId)
    requires Rooted(t) && m < |t.files| && c < |t.names| && IsBelow(t, q, m)
    ensures !Resolves(Move(t, m, q, c), m) && !Rooted(Move(t, m, q, c))
  {
    var u := Move(t, m, q, c);
    var suffix :| Below(t, q, m, suffix);
    MoveKeepsBelow(t, m, q, c, q, suffix);
    var cycle := suffix + [t.names[c]];
    assert cycle[..|cycle| - 1] == suffix;
    assert Below(u, m, m, cycle);
    if Resolves(u, m) {
      var path :| HasPath(u, m, path);
      BelowPath(u, m, m, cycle, path);
      PathUnique(u, m, path, path + cycle);
      assert false;
    }
  }

  lemma {:induction false} MoveKeepsBelow(t: Tree, m: FileId, q: FileId, c: ComponentId, id: FileId, suffix: Path)
    requires Rooted(t) && m < |t.files| && Below(t, id, m, suffix)
    ensures Below(Move(t, m, q, c), id, m, suffix)
    decreases |suffix|
  {
    if suffix != [] {
      if id == m {
        NoCycle(t, m, suffix);
        assert false;
      }
      MoveKeepsBelow(t, m, q, c, t.files[id].parent.value, suffix[..|suffix| - 1]);
    }
  }

  // ------------------------------------------------------- same structure

  lemma AlikePick(f: seq<FileRow>, g: seq<FileRow>, p: Option<FileId>, c: ComponentId)
    requires |f| == |g|
    requires forall i :: 0 <= i < |f| ==> SamePlace(f[i], g[i]) && f[i].deletedAt == g[i].deletedAt
    ensures Pick(f, p, c) == Pick(g, p, c)
  {
    var a, b := Pick(f, p, c), Pick(g, p, c);
    if a.Some? {
      assert SamePlace(f[a.value], g[a.value]);
    }
    if b.Some? {
      assert SamePlace(f[b.value], g[b.value]);
    }
  }

  /** Trees alike stay alike, and lead to the same row, whatever chain is ensured in both. */
  lemma {:induction false} AlikeEnsureDirs(t: Tree, u: Tree, start: Option<FileId>, path: Path)
    requires Alike(t, u)
    ensures Alike(EnsureDirs(t, start, path).0, EnsureDirs(u, start, path).0)
    ensures EnsureDirs(t, start, path).1 == EnsureDirs(u, start, path).1
    decreases |path|
  {
    if path != [] {
      var c := Intern(t, path[0]).1;
      AlikePick(t.files, u.files, start, c);
      var (t1, id) := EnsureDir(t, start, path[0]);
      var u1 := EnsureDir(u, start, path[0]).0;
      assert Alike(t1, u1);
      AlikeEnsureDirs(t1, u1, Some(id), path[1..]);
    }
  }
}
