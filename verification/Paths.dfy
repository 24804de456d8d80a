// Path interning: the connection, the component cache, and the statement-by-statement
// code that turns paths into rows and rows back into paths.
module Paths {
  import opened Tables
  import opened PathTree

  const CACHE_CAPACITY: nat := 16_384
  const MAX_DEPTH: nat := 256

  // ----------------------------------------------------------- connection

  /** One connection to the store. `view` is what its statements see; `durable` is what
      the database file holds, and so what a killed process leaves behind. */
  class Connection {
    var view: Db
    var durable: Db
    var inTransaction: bool
    ghost var history: set<Db>  // every content the file has had between two statements

    ghost predicate Valid()
      reads this
    {
      durable in history && (!inTransaction ==> durable == view)
    }

    constructor (db: Db)
      ensures Valid() && view == db && durable == db && !inTransaction && history == {db}
    {
      view, durable, inTransaction, history := db, db, false, {db};
    }

    /** One writing statement, whose effect is `next`: on its own outside a transaction,
        part of the open one inside. */
    method Execute(next: Db)
      requires Valid()
      modifies this
      ensures Valid() && view == next && inTransaction == old(inTransaction)
      ensures inTransaction ==> durable == old(durable) && history == old(history)
      ensures !inTransaction ==> history == old(history) + {next}
    {
      view := next;
      if !inTransaction {
        durable := next;
        history := history + {next};
      }
    }

    method Begin()
      requires Valid() && !inTransaction
      modifies this
      ensures Valid() && inTransaction && view == old(view) && durable == old(durable) && history == old(history)
    {
      inTransaction := true;
    }

    method Commit()
      requires Valid() && inTransaction
      modifies this
      ensures Valid() && !inTransaction && view == old(view) && durable == view && history == old(history) + {view}
    {
      inTransaction := false;
      durable := view;
      history := history + {view};
    }

    /** The process dies and the store is opened again. */
    method Kill()
      requires Valid()
      modifies this
      ensures Valid() && !inTransaction && view == old(durable) && durable == old(durable) && history == old(history)
    {
      inTransaction := false;
      view := durable;
    }
  }

  // ------------------------------------------------------------- interner

  class Interner {
    var cache: map<string, ComponentId>

    constructor ()
      ensures cache == map[]
    {
      cache := map[];
    }

    /** The cache is bounded and holds nothing the table does not. */
    ghost predicate Agrees(names: seq<string>)
      reads this
    {
      && |cache| <= CACHE_CAPACITY
      && forall n :: n in cache ==> cache[n] < |names| && names[cache[n]] == n
    }

    method InternDir(conn: Connection, name: string) returns (id: ComponentId)
      requires conn.Valid() && DistinctNames(conn.view.tree.names) && Agrees(conn.view.tree.names)
      modifies this, conn
      ensures conn.Valid() && conn.inTransaction == old(conn.inTransaction)
      ensures DistinctNames(conn.view.tree.names) && Agrees(conn.view.tree.names)
      ensures (conn.view.tree, id) == Intern(old(conn.view.tree), name) && conn.view.events == old(conn.view.events)
      ensures conn.inTransaction ==> conn.durable == old(conn.durable) && conn.history == old(conn.history)
      ensures !conn.inTransaction ==> conn.history == old(conn.history) + {conn.view}
      ensures cache == if name in old(cache) then old(cache)
                       else (if |old(cache)| < 16_384 then old(cache) else map[])[name := id]
      ensures name in cache && cache[name] == id && |cache| <= 16_384
    {
      if name in cache {
        id := cache[name];
        LookupNameAt(conn.view.tree.names, id);
        return;
      }
      id := LookupOrInsert(conn, name);
      if |cache| >= CACHE_CAPACITY {
        cache := map[];
      }
      cache := cache[name := id];
    }

    /** As InternDir, without storing: the cache does not change. */
    method InternLeaf(conn: Connection, name: string) returns (id: ComponentId)
      requires conn.Valid() && DistinctNames(conn.view.tree.names) && Agrees(conn.view.tree.names)
      modifies conn
      ensures conn.Valid() && conn.inTransaction == old(conn.inTransaction)
      ensures DistinctNames(conn.view.tree.names) && Agrees(conn.view.tree.names)
      ensures (conn.view.tree, id) == Intern(old(conn.view.tree), name) && conn.view.events == old(conn.view.events)
      ensures conn.inTransaction ==> conn.durable == old(conn.durable) && conn.history == old(conn.history)
      ensures !conn.inTransaction ==> conn.history == old(conn.history) + {conn.view}
    {
      if name in cache {
        id := cache[name];
        LookupNameAt(conn.view.tree.names, id);
        return;
      }
      id := LookupOrInsert(conn, name);
    }

    method LookupOrInsert(conn: Connection, name: string) returns (id: ComponentId)
      requires conn.Valid() && DistinctNames(conn.view.tree.names)
      modifies conn
      ensures conn.Valid() && conn.inTransaction == old(conn.inTransaction)
      ensures DistinctNames(conn.view.tree.names) && old(conn.view.tree.names) <= conn.view.tree.names
      ensures id < |conn.view.tree.names| && conn.view.tree.names[id] == name
      ensures (conn.view.tree, id) == Intern(old(conn.view.tree), name) && conn.view.events == old(conn.view.events)
      ensures conn.inTransaction ==> conn.durable == old(conn.durable) && conn.history == old(conn.history)
      ensures !conn.inTransaction ==> conn.history == old(conn.history) + {conn.view}
    {
      var t := conn.view.tree;
      match LookupName(t.names, name) {
        case Some(c) =>
          return c;
        case None =>
          conn.Execute(conn.view.(tree := t.(names := t.names + [name])));
          return |t.names|;
      }
    }
  }

  /** What every caller of the interning code has: one id per name, and a cache that
      holds nothing the table does not. */
  ghost predicate Ready(conn: Connection, interner: Interner)
    reads conn, interner
  {
    conn.Valid() && DistinctNames(conn.view.tree.names) && interner.Agrees(conn.view.tree.names)
  }

  // --------------------------------------------------------------- upsert

  method UpsertEntry(conn: Connection, parent: Option<FileId>, component: ComponentId, isDir: bool,
                     size: Option<int>, mtime: Option<int>)
    returns (id: FileId)
    requires conn.Valid()
    modifies conn
    ensures conn.Valid() && conn.inTransaction == old(conn.inTransaction)
    ensures (conn.view.tree, id) == Upsert(old(conn.view.tree), parent, component, isDir, size, mtime)
    ensures conn.view.events == old(conn.view.events)
    ensures conn.inTransaction ==> conn.durable == old(conn.durable) && conn.history == old(conn.history)
    ensures !conn.inTransaction ==> conn.history == old(conn.history) + {conn.view}
  {
    var t := conn.view.tree;
    match Pick(t.files, parent, component) {
      case Some(existing) =>
        var row := t.files[existing].(size := size, mtime := mtime, deletedAt := None);
        conn.Execute(conn.view.(tree := t.(files := t.files[existing := row])));
        return existing;
      case None =>
        var row := FileRow(parent, component, isDir, size, mtime, None);
        conn.Execute(conn.view.(tree := t.(files := t.files + [row])));
        return |t.files|;
    }
  }

  // ------------------------------------------------------------- dir chain

  datatype Component = RootDir | CurDir | ParentDir | Normal(name: string)

  /** Drop the root, resolve `.` and `..` by text. */
  function Normalise(cs: seq<Component>): Path {
    if cs == [] then [] else
    Extended(Normalise(cs[..|cs| - 1]), cs[|cs| - 1])
  }

  function Clean(path: Path): seq<Component> {
    [RootDir] + seq(|path|, i requires 0 <= i < |path| => Normal(path[i]))
  }

  method NormalisedComponents(cs: seq<Component>) returns (out: Path)
    ensures out == Normalise(cs)
  {
    out := [];
    for i := 0 to |cs|
      invariant out == Normalise(cs[..i])
    {
      assert cs[..i + 1][..i] == cs[..i];
      match cs[i] {
        case Normal(name) => out := out + [name];
        case ParentDir => if out != [] { out := out[..|out| - 1]; }
        case RootDir =>
        case CurDir =>
      }
    }
    assert cs[..|cs|] == cs;
  }

  /** A clean path is its own normal form. */
  lemma {:induction false} NormaliseClean(path: Path)
    ensures Normalise(Clean(path)) == path
  {
    var cs := Clean(path);
    if path == [] {
      assert cs[..0] == [];
    } else {
      var init := path[..|path| - 1];
      NormaliseClean(init);
      assert cs[..|cs| - 1] == Clean(init);
    }
  }

  /** Normal forms compose: what precedes matters only through its normal form. */
  lemma {:induction false} NormaliseCompose(a: seq<Component>, b: seq<Component>)
    ensures Normalise(a + b) == Normalise(Clean(Normalise(a)) + b)
  {
    var c := Clean(Normalise(a));
    if b == [] {
      assert a + b == a && c + b == c;
      NormaliseClean(Normalise(a));
    } else {
      var init, last := b[..|b| - 1], b[|b| - 1];
      NormaliseCompose(a, init);
      assert b == init + [last];
      NormaliseSnoc(a, init, last);
      NormaliseSnoc(c, init, last);
    }
  }

  /** What one more component does depends on the normal form before it alone. */
  function Extended(out: Path, c: Component): Path {
    match c
    case Normal(name) => out + [name]
    case ParentDir => if out == [] then [] else out[..|out| - 1]
    case RootDir => out
    case CurDir => out
  }

  /** The rewrites that lead to a normal form: a name undone by `..` goes, and so do a `..`
      at the root, the root and `.` anywhere. */
  lemma NormaliseRewrites(a: seq<Component>, name: string, b: seq<Component>)
    ensures Normalise(a + [Normal(name), ParentDir] + b) == Normalise(a + b)
    ensures Normalise([ParentDir] + b) == Normalise(b)
    ensures Normalise(a + [RootDir] + b) == Normalise(a + [CurDir] + b) == Normalise(a + b)
  {
    var undone := a + [Normal(name)];
    assert a + [Normal(name), ParentDir] == undone + [ParentDir];
    assert Normalise([]) == [] && a + [] == a && [] + b == b;
    NormaliseLast(a, Normal(name));
    NormaliseLast(undone, ParentDir);
    NormaliseLast([], ParentDir);
    NormaliseLast(a, RootDir);
    NormaliseLast(a, CurDir);
    assert [] + [ParentDir] == [ParentDir];
    NormaliseCompose(a, b);
    NormaliseCompose(undone + [ParentDir], b);
    NormaliseCompose([], b);
    NormaliseCompose([ParentDir], b);
    NormaliseCompose(a + [RootDir], b);
    NormaliseCompose(a + [CurDir], b);
  }

  lemma NormaliseLast(a: seq<Component>, c: Component)
    ensures Normalise(a + [c]) == Extended(Normalise(a), c)
  {
    assert (a + [c])[..|a|] == a;
  }

  lemma NormaliseSnoc(a: seq<Component>, b: seq<Component>, c: Component)
    ensures Normalise(a + (b + [c])) == Extended(Normalise(a + b), c)
  {
    var whole := a + (b + [c]);
    assert whole[..|whole| - 1] == a + b;
  }

  /** `d` is a content the file has between two statements of ensuring `path`. */
  ghost predicate EnsurePoint(t: Tree, start: Option<FileId>, path: Path, d: Tree)
    decreases |path|
  {
    path != [] && (
      || d == Intern(t, path[0]).0
      || d == EnsureDir(t, start, path[0]).0
      || EnsurePoint(EnsureDir(t, start, path[0]).0, Some(EnsureDir(t, start, path[0]).1), path[1..], d))
  }

  ghost predicate EnsureHistory(before: Db, start: Option<FileId>, path: Path, added: set<Db>) {
    forall d :: d in added ==> d.events == before.events && EnsurePoint(before.tree, start, path, d.tree)
  }

  method EnsureOne(conn: Connection, interner: Interner, start: Option<FileId>, name: string) returns (id: FileId)
    requires Ready(conn, interner)
    modifies conn, interner
    ensures Ready(conn, interner) && conn.inTransaction == old(conn.inTransaction)
    ensures (conn.view.tree, id) == EnsureDir(old(conn.view.tree), start, name)
    ensures conn.view.events == old(conn.view.events)
    ensures conn.inTransaction ==> conn.durable == old(conn.durable) && conn.history == old(conn.history)
    ensures !conn.inTransaction ==>
              conn.history == old(conn.history)
                + {Db(Intern(old(conn.view.tree), name).0, old(conn.view.events)), conn.view}
  {
    var component := interner.InternDir(conn, name);
    id := UpsertEntry(conn, start, component, true, None, None);
  }

  /** The loop that `ensure_dir_chain` and `ensure_relative_dirs` both are, from any start. */
  method EnsureChainFrom(conn: Connection, interner: Interner, start: Option<FileId>, path: Path)
    returns (id: Option<FileId>)
    requires Ready(conn, interner)
    modifies conn, interner
    ensures Ready(conn, interner) && conn.inTransaction == old(conn.inTransaction)
    ensures (conn.view.tree, id) == EnsureDirs(old(conn.view.tree), start, path)
    ensures conn.view.events == old(conn.view.events)
    ensures conn.inTransaction ==> conn.durable == old(conn.durable) && conn.history == old(conn.history)
    ensures !conn.inTransaction ==>
              && old(conn.history) <= conn.history
              && EnsureHistory(old(conn.view), start, path, conn.history - old(conn.history))
  {
    id := start;
    ghost var before := conn.view;
    ghost var added: set<Db> := {};
    assert path[..0] == [];
    for i := 0 to |path|
      invariant Ready(conn, interner) && conn.inTransaction == old(conn.inTransaction)
      invariant (conn.view.tree, id) == EnsureDirs(before.tree, start, path[..i])
      invariant conn.view.events == before.events
      invariant conn.inTransaction ==> conn.durable == old(conn.durable) && conn.history == old(conn.history)
      invariant !conn.inTransaction ==>
                  conn.history == old(conn.history) + added
      invariant EnsureHistory(before, start, path, added)
    {
      ghost var interned := Db(Intern(conn.view.tree, path[i]).0, before.events);
      HistoryGrows(before, start, path, added, i);
      var row := EnsureOne(conn, interner, id, path[i]);
      id := Some(row);
      added := added + {interned, conn.view};
    }
    assert path[..|path|] == path;
  }

  /** The contents one more directory adds. */
  lemma HistoryGrows(before: Db, start: Option<FileId>, path: Path, added: set<Db>, i: nat)
    requires EnsureHistory(before, start, path, added) && i < |path|
    ensures var (u, at) := EnsureDirs(before.tree, start, path[..i]);
            var (v, id) := EnsureDir(u, at, path[i]);
            && EnsureDirs(before.tree, start, path[..i + 1]) == (v, Some(id))
            && EnsureHistory(before, start, path, added + {Db(Intern(u, path[i]).0, before.events), Db(v, before.events)})
  {
    EnsureDirsStep(before.tree, start, path, i);
    var (u, at) := EnsureDirs(before.tree, start, path[..i]);
    var a, b := Db(Intern(u, path[i]).0, before.events), Db(EnsureDir(u, at, path[i]).0, before.events);
    forall d | d in added + {a, b} ensures d.events == before.events && EnsurePoint(before.tree, start, path, d.tree) {
      assert d in added || d in {a, b};
    }
  }

  /** None stands for StoreError::EmptyPath. */
  method EnsureDirChain(conn: Connection, interner: Interner, dir: seq<Component>) returns (id: Option<FileId>)
    requires Ready(conn, interner)
    modifies conn, interner
    ensures Ready(conn, interner) && conn.inTransaction == old(conn.inTransaction)
    ensures (conn.view.tree, id) == EnsureDirs(old(conn.view.tree), None, Normalise(dir))
    ensures conn.view.events == old(conn.view.events)
    ensures conn.inTransaction ==> conn.durable == old(conn.durable) && conn.history == old(conn.history)
    ensures !conn.inTransaction ==>
              && old(conn.history) <= conn.history
              && EnsureHistory(old(conn.view), None, Normalise(dir), conn.history - old(conn.history))
  {
    var path := NormalisedComponents(dir);
    id := EnsureChainFrom(conn, interner, None, path);
  }

  /** One more directory of a chain, and the two statements that make it. */
  lemma EnsureDirsStep(t: Tree, start: Option<FileId>, path: Path, i: nat)
    requires i < |path|
    ensures var (u, at) := EnsureDirs(t, start, path[..i]);
            var (v, id) := EnsureDir(u, at, path[i]);
            && EnsureDirs(t, start, path[..i + 1]) == (v, Some(id))
            && EnsurePoint(t, start, path, Intern(u, path[i]).0)
            && EnsurePoint(t, start, path, v)
  {
    var before, name, rest := path[..i], path[i], path[i..];
    var (u, at) := EnsureDirs(t, start, before);
    var (v, id) := EnsureDir(u, at, name);
    assert path == before + rest && path[..i + 1] == before + [name];
    EnsureOneMore(t, start, before, name);
    assert rest[0] == name;
    EnsurePointSplit(t, start, before, rest, Intern(u, name).0);
    EnsurePointSplit(t, start, before, rest, v);
  }

  lemma {:induction false} EnsurePointSplit(t: Tree, start: Option<FileId>, a: Path, b: Path, d: Tree)
    requires EnsurePoint(EnsureDirs(t, start, a).0, EnsureDirs(t, start, a).1, b, d)
    ensures EnsurePoint(t, start, a + b, d)
    decreases |a|
  {
    if a == [] {
      assert a + b == b;
    } else {
      var (t1, id) := EnsureDir(t, start, a[0]);
      EnsurePointSplit(t1, Some(id), a[1..], b, d);
      assert (a + b)[1..] == a[1..] + b;
    }
  }

  /** Whatever statement a chain is interrupted after, the tree is valid. */
  lemma {:induction false} EnsurePointValid(t: Tree, start: Option<FileId>, dir: Path, path: Path, d: Tree)
    requires Valid(t) && LiveStart(t, start, dir) && EnsurePoint(t, start, path, d)
    ensures Valid(d) && Grows(t, d)
    decreases |path|
  {
    InternFacts(t, path[0]);
    EnsureDirFacts(t, start, dir, path[0]);
    var (t1, id) := EnsureDir(t, start, path[0]);
    if d != Intern(t, path[0]).0 && d != t1 {
      EnsurePointValid(t1, Some(id), dir + [path[0]], path[1..], d);
      GrowsTransitive(t, t1, d);
    }
  }

  // -------------------------------------------------------------- resolve

  /** Up to `n` components of the chain of `id`, the deepest ones, outermost first. */
  function Deepest(t: Tree, id: Option<FileId>, n: nat): Path
    decreases n
  {
    if n == 0 || id.None? || id.value >= |t.files| || t.files[id.value].component >= |t.names| then []
    else
      var row := t.files[id.value];
      Deepest(t, row.parent, n - 1) + [t.names[row.component]]
  }

  function Render(path: Path): string {
    if path == [] then "" else Render(path[..|path| - 1]) + "/" + path[|path| - 1]
  }

  function Resolved(t: Tree, id: FileId): string {
    RenderDeepest(t, id, MAX_DEPTH)
  }

  function RenderDeepest(t: Tree, id: FileId, n: nat): string {
    Render(Deepest(t, Some(id), n))
  }

  predicate NoSlash(name: string) {
    '/' !in name
  }

  /** Paths of names without a slash read differently unless they are the same. */
  lemma {:induction false} RenderInjective(p: Path, q: Path)
    requires forall i :: 0 <= i < |p| ==> NoSlash(p[i])
    requires forall i :: 0 <= i < |q| ==> NoSlash(q[i])
    ensures Render(p) == Render(q) ==> p == q
  {
    if Render(p) == Render(q) && p != [] && q != [] {
      var a, m, b, n := Render(p[..|p| - 1]), p[|p| - 1], Render(q[..|q| - 1]), q[|q| - 1];
      LastSlash(a, m, b, n);
      RenderInjective(p[..|p| - 1], q[..|q| - 1]);
      assert p == p[..|p| - 1] + [m] && q == q[..|q| - 1] + [n];
    }
  }

  lemma LastSlash(a: string, m: string, b: string, n: string)
    requires NoSlash(m) && NoSlash(n) && a + "/" + m == b + "/" + n
    ensures a == b && m == n
  {
    SlashNotAfter(a, m, b, n);
    SlashNotAfter(b, n, a, m);
    var s := a + "/" + m;
    assert a == s[..|a|] && m == s[|a| + 1..] && n == s[|a| + 1..];
  }

  lemma SlashNotAfter(a: string, m: string, b: string, n: string)
    requires NoSlash(m) && a + "/" + m == b + "/" + n
    ensures |b| <= |a|
  {
    var s := a + "/" + m;
    assert s[|b|] == '/';
    forall i | |a| < i < |s| ensures s[i] != '/' {
      assert s[i] == m[i - |a| - 1];
    }
  }

  method ResolvePath(conn: Connection, id: FileId) returns (path: string)
    ensures path == Resolved(conn.view.tree, id)
  {
    path := ResolveWithin(conn.view.tree, id, MAX_DEPTH);
  }

  method ResolveWithin(t: Tree, id: FileId, maxDepth: nat) returns (path: string)
    ensures path == RenderDeepest(t, id, maxDepth)
  {
    var components: seq<string> := [];  // deepest first
    ghost var out: Path := [];
    var current: Option<FileId> := Some(id);
    var depth := 0;
    while depth < maxDepth && current.Some?
      invariant 0 <= depth <= maxDepth
      invariant out == Reversed(components)
      invariant Deepest(t, Some(id), maxDepth) == Deepest(t, current, maxDepth - depth) + out
    {
      var file := current.value;
      if file >= |t.files| || t.files[file].component >= |t.names| {
        break;
      }
      var name := t.names[t.files[file].component];
      ReversedPush(components, name);
      DeepestStep(t, file, maxDepth - depth, out);
      components := components + [name];
      out := [name] + out;
      current := t.files[file].parent;
      depth := depth + 1;
    }
    DeepestEnd(t, current, maxDepth - depth, out);
    path := RenderReversed(components);
  }

  lemma DeepestStep(t: Tree, id: FileId, n: nat, rest: Path)
    requires n > 0 && id < |t.files| && t.files[id].component < |t.names|
    ensures Deepest(t, Some(id), n) + rest
         == Deepest(t, t.files[id].parent, n - 1) + ([t.names[t.files[id].component]] + rest)
  {
    var row := t.files[id];
    assert Deepest(t, Some(id), n) == Deepest(t, row.parent, n - 1) + [t.names[row.component]];
  }

  lemma DeepestEnd(t: Tree, id: Option<FileId>, n: nat, rest: Path)
    requires n == 0 || id.None? || id.value >= |t.files| || t.files[id.value].component >= |t.names|
    ensures Deepest(t, id, n) + rest == rest
  {
    assert Deepest(t, id, n) == [];
  }

  method RenderReversed(components: seq<string>) returns (path: string)
    ensures path == Render(Reversed(components))
  {
    path := "";
    ghost var out := Reversed(components);
    ReversedLength(components);
    var i := |components|;
    while i > 0
      invariant 0 <= i <= |components|
      invariant path == Render(out[..|components| - i])
    {
      i := i - 1;
      ReversedAt(components, i);
      assert out[..|components| - i][..|components| - i - 1] == out[..|components| - i - 1];
      path := path + "/" + components[i];
    }
    assert out[..|components|] == out;
  }

  lemma {:induction false} ReversedPush(s: seq<string>, x: string)
    ensures Reversed(s + [x]) == [x] + Reversed(s)
  {
    var longer := s + [x];
    assert longer[..|longer| - 1] == s;
  }

  function Reversed(s: seq<string>): seq<string> {
    if s == [] then [] else [s[|s| - 1]] + Reversed(s[..|s| - 1])
  }

  lemma ReversedLength(s: seq<string>)
    ensures |Reversed(s)| == |s|
  {
  }

  lemma {:induction false} ReversedAt(s: seq<string>, i: nat)
    requires i < |s|
    ensures |Reversed(s)| == |s| && Reversed(s)[|s| - 1 - i] == s[i]
  {
    ReversedLength(s);
    if i < |s| - 1 {
      ReversedAt(s[..|s| - 1], i);
    }
  }

  /** The deepest `n` components of a row's path, the whole of it when it is short enough. */
  lemma {:induction false} DeepestPath(t: Tree, id: FileId, path: Path, n: nat)
    requires HasPath(t, id, path)
    decreases n
    ensures Deepest(t, Some(id), n) == if |path| <= n then path else path[|path| - n..]
  {
    if n > 0 {
      var init := path[..|path| - 1];
      if t.files[id].parent.Some? {
        DeepestPath(t, t.files[id].parent.value, init, n - 1);
      }
      assert path == init + [path[|path| - 1]];
    }
  }

  /** Ensuring a chain and resolving it gives the normal form back, cut to its deepest
      256 components; ensuring it again finds the same row and adds nothing. */
  lemma EnsureThenResolve(t: Tree, dir: seq<Component>)
    requires Valid(t) && Normalise(dir) != []
    ensures var path := Normalise(dir);
            var (u, id) := EnsureDirs(t, None, path);
            && Valid(u) && id.Some?
            && Resolved(u, id.value) == Render(if |path| <= 256 then path else path[|path| - 256..])
            && var (v, again) := EnsureDirs(u, None, path);
               again == id && Alike(u, v)
  {
    var path := Normalise(dir);
    EnsureDirsFacts(t, None, [], path);
    var (u, id) := EnsureDirs(t, None, path);
    assert [] + path == path;
    ResolveLive(u, id.value, path);
    EnsureDirsFinds(u, None, [], path, id.value);
  }

  lemma ResolveLive(t: Tree, id: FileId, path: Path)
    requires LivePath(t, id, path)
    ensures Resolved(t, id) == Render(if |path| <= MAX_DEPTH then path else path[|path| - MAX_DEPTH..])
  {
    LivePathIsPath(t, id, path);
    DeepestPath(t, id, path, MAX_DEPTH);
  }
}
