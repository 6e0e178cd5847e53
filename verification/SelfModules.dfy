/** Loading a project's own modules: a depth-first walk over `import self.x` with a set of keys that
    are being loaded. The functions are the walk on values; the class `Loader` does the same steps
    on its fields. What the walk achieves is in `SelfResolution` and `SelfFiles`. */
module SelfModules {
  import opened Options

  type Path = seq<string>

  const SELF := "self"
  const MOD := "mod"

  /** The file of the package root. */
  const ROOT: Path := [MOD]

  // ---------------------------------------------------------------- names

  function Join(path: Path): string {
    if path == [] then ""
    else if |path| == 1 then path[0]
    else path[0] + "." + Join(path[1..])
  }

  /** The key of `import self.<path>`: a path that is also a stdlib module or a dependency keeps
      its `self.`. */
  function Canonical(path: Path, reserved: set<string>): string {
    if Join(path) in reserved then SELF + "." + Join(path) else Join(path)
  }

  /** Segments are identifiers. */
  predicate IsPath(path: Path) {
    path != [] && forall i :: 0 <= i < |path| ==> '.' !in path[i]
  }

  lemma JoinHasDot(p: Path)
    requires IsPath(p)
    ensures '.' in Join(p) <==> |p| > 1
    ensures |p| > 1 ==> |Join(p)| > |p[0]| && Join(p)[|p[0]|] == '.' && Join(p)[..|p[0]|] == p[0]
  {
    if |p| > 1 {
      assert Join(p)[|p[0]|] == '.';
    }
  }

  lemma NoDotWithin(s: string, u: string, v: string)
    requires '.' !in u && |u| <= |s| && s[..|u|] == u && |v| < |s| && s[|v|] == '.'
    ensures |v| >= |u|
  {
    forall i | 0 <= i < |u|
      ensures s[i] != '.'
    {
      assert s[i] == u[i];
    }
  }

  lemma {:induction false} JoinInjective(p: Path, q: Path)
    requires IsPath(p) && IsPath(q) && Join(p) == Join(q)
    ensures p == q
  {
    JoinHasDot(p);
    JoinHasDot(q);
    if |p| == 1 {
      assert p == [p[0]] && q == [q[0]];
    } else {
      NoDotWithin(Join(p), p[0], q[0]);
      NoDotWithin(Join(q), q[0], p[0]);
      assert Join(p)[|p[0]| + 1..] == Join(p[1..]) && Join(q)[|q[0]| + 1..] == Join(q[1..]);
      JoinInjective(p[1..], q[1..]);
      assert p == [p[0]] + p[1..] && q == [q[0]] + q[1..];
    }
  }

  /** `long` is the reserved path `short` spelled with a leading `self`. */
  predicate Shadows(long: Path, short: Path, reserved: set<string>) {
    long == [SELF] + short && Join(short) in reserved && Join(long) !in reserved
  }

  /** Two paths have one key only if they are one path, except that `self.self.x` meets a reserved
      `self.x`. */
  lemma SameKeyIffSamePath(p: Path, q: Path, reserved: set<string>)
    requires IsPath(p) && IsPath(q)
    ensures Canonical(p, reserved) == Canonical(q, reserved) <==>
      p == q || Shadows(p, q, reserved) || Shadows(q, p, reserved)
  {
    forall a, b: Path | IsPath(a) && IsPath(b)
      ensures Join(a) == SELF + "." + Join(b) <==> a == [SELF] + b
    {
      LeadingSelf(a, b);
    }
    if Canonical(p, reserved) == Canonical(q, reserved) {
      if Join(p) in reserved && Join(q) in reserved {
        assert Canonical(p, reserved)[5..] == Join(p) && Canonical(q, reserved)[5..] == Join(q);
        JoinInjective(p, q);
      } else if Join(p) !in reserved && Join(q) !in reserved {
        JoinInjective(p, q);
      }
    }
  }

  lemma LeadingSelf(a: Path, b: Path)
    requires IsPath(a) && IsPath(b)
    ensures Join(a) == SELF + "." + Join(b) <==> a == [SELF] + b
  {
    var long := [SELF] + b;
    assert long[1..] == b && IsPath(long);
    assert Join(long) == SELF + "." + Join(b);
    if Join(a) == Join(long) {
      JoinInjective(a, long);
    }
  }

  // ---------------------------------------------------------------- a project as the loader sees it

  /** `sources` are the `.almd` files under `src/`, named by their directories and their stem, each with
      its imports if it parses; `leaves` the modules that a package or stdlib import loads, for the
      imports that succeed. */
  datatype Project = Project(
    hasManifest: bool,
    packageName: string,
    reserved: set<string>,
    sources: map<Path, Option<seq<Path>>>,
    leaves: map<Path, seq<string>>)

  predicate HasRootFile(p: Project) {
    ROOT in p.sources
  }

  /** The file of `self.<path>`: the one of that name, else the `mod.almd` of that directory. */
  function FileOf(p: Project, path: Path): Option<Path> {
    if path in p.sources then Some(path)
    else if path + [MOD] in p.sources then Some(path + [MOD])
    else None
  }

  predicate Opens(p: Project, path: Path) {
    FileOf(p, path).Some? && p.sources[FileOf(p, path).value].Some?
  }

  function ImportsOf(p: Project, path: Path): seq<Path>
    requires Opens(p, path)
  {
    p.sources[FileOf(p, path).value].value
  }

  /** Why a module does not open. */
  function Unopened(p: Project, path: Path): Problem {
    if FileOf(p, path).None? then NoSuchModule(path) else DoesNotParse(path)
  }

  datatype Problem =
    | NoProject
    | NoRootFile
    | NoSuchModule(path: Path)
    | DoesNotParse(path: Path)
    | Circular(path: Path)
    | LeafFailed(path: Path)
    | RootNotLoaded(importer: string)

  datatype Origin = OwnFile(path: Path) | Leaf

  datatype Entry = Entry(name: string, origin: Origin, isRoot: bool)

  /** A module of the project, the key it loads under, and whether it loads as the package root. */
  datatype Node = Node(name: string, path: Path, root: bool)

  /** What is loaded, and the first module that wrote a bare `import self`. */
  datatype State = State(loaded: seq<Entry>, requested: Option<string>)

  const Start := State([], None)

  predicate IsSelf(path: Path) {
    path != [] && path[0] == SELF
  }

  predicate IsBareSelf(path: Path) {
    path == [SELF]
  }

  function SelfNode(p: Project, path: Path): Node
    requires IsSelf(path)
  {
    Node(Canonical(path[1..], p.reserved), path[1..], false)
  }

  predicate HasName(es: seq<Entry>, name: string) {
    exists i :: 0 <= i < |es| && es[i].name == name
  }

  predicate HasRoot(es: seq<Entry>) {
    exists i :: 0 <= i < |es| && es[i].isRoot
  }

  function Label(path: Path): string {
    SELF + "." + Join(path)
  }

  // ---------------------------------------------------------------- the walk on values

  /** The paths that can find a file. */
  function Paths(p: Project): set<Path> {
    p.sources.Keys + set f | f in p.sources.Keys && f != [] :: f[..|f| - 1]
  }

  /** The keys that can be under load below a module of the key `top`. */
  function Keys(p: Project, top: string): set<string> {
    (set path | path in Paths(p) :: Canonical(path, p.reserved)) + {top}
  }

  lemma FoundPath(p: Project, path: Path)
    requires FileOf(p, path).Some?
    ensures path in Paths(p)
  {
    if path !in p.sources {
      var f := path + [MOD];
      assert f in p.sources.Keys && f[..|f| - 1] == path;
    }
  }

  function Room(p: Project, top: string, loading: set<string>): nat {
    |Keys(p, top) - loading|
  }

  predicate IsKeyed(p: Project, top: string, n: Node) {
    n.name == top || n.name == Canonical(n.path, p.reserved)
  }

  lemma RoomShrinks(p: Project, top: string, loading: set<string>, n: Node)
    requires IsKeyed(p, top, n) && Opens(p, n.path) && n.name !in loading
    ensures Room(p, top, loading + {n.name}) < Room(p, top, loading)
  {
    FoundPath(p, n.path);
    assert n.name in Keys(p, top);
    assert Keys(p, top) - (loading + {n.name}) == (Keys(p, top) - loading) - {n.name};
  }

  function AddLeaves(es: seq<Entry>, names: seq<string>): seq<Entry>
    decreases |names|
  {
    if names == [] then es
    else AddLeaves(if HasName(es, names[0]) then es else es + [Entry(names[0], Leaf, false)], names[1..])
  }

  /** A package or stdlib import: every module it stands for that is not loaded yet. */
  function LoadNamedAt(p: Project, target: Path, st: State): Result<State, Problem> {
    if target !in p.leaves then Err(LeafFailed(target))
    else Ok(st.(loaded := AddLeaves(st.loaded, p.leaves[target])))
  }

  /** Loads one module, after everything it imports. The key `top` of the outermost module under
      load is only there to bound the recursion. */
  function LoadSelfAt(p: Project, top: string, n: Node, st: State, loading: set<string>):
    Result<State, Problem>
    requires IsKeyed(p, top, n)
    decreases Room(p, top, loading), 0, 0
  {
    if HasName(st.loaded, n.name) then Ok(st)
    else if n.name in loading then Err(Circular(n.path))
    else if !Opens(p, n.path) then Err(Unopened(p, n.path))
    else
      RoomShrinks(p, top, loading, n);
      match LoadImportsAt(p, top, n.path, ImportsOf(p, n.path), st, loading + {n.name})
      case Err(e) => Err(e)
      case Ok(s) => Ok(s.(loaded := s.loaded + [Entry(n.name, OwnFile(n.path), n.root)]))
  }

  function LoadImportsAt(
    p: Project, top: string, path: Path, imports: seq<Path>, st: State, loading: set<string>): Result<State, Problem>
    decreases Room(p, top, loading), 2, |imports|
  {
    if imports == [] then Ok(st)
    else
      match LoadImportAt(p, top, path, imports[0], st, loading)
      case Err(e) => Err(e)
      case Ok(s) => LoadImportsAt(p, top, path, imports[1..], s, loading)
  }

  /** One import of the module at `path`. A bare `import self` only asks for the package root. */
  function LoadImportAt(p: Project, top: string, path: Path, target: Path, st: State, loading: set<string>):
    Result<State, Problem>
    decreases Room(p, top, loading), 1, 0
  {
    if !IsSelf(target) then LoadNamedAt(p, target, st)
    else if IsBareSelf(target) then
      Ok(st.(requested := if st.requested.None? then Some(Label(path)) else st.requested))
    else LoadSelfAt(p, top, SelfNode(p, target), st, loading)
  }

  // ---------------------------------------------------------------- the entry program's imports

  datatype EntryImport = EntryImport(path: Path, alias: Option<string>)

  /** The key of the package root: the alias, else the package's name, else `self`. */
  function RootName(p: Project, alias: Option<string>): string {
    if alias.Some? then alias.value
    else if p.packageName != "" then p.packageName
    else SELF
  }

  function EntryNode(p: Project, e: EntryImport): Node
    requires IsSelf(e.path)
  {
    if IsBareSelf(e.path) then Node(RootName(p, e.alias), ROOT, true) else SelfNode(p, e.path)
  }

  const DefaultImport := EntryImport([SELF], None)

  function DefaultRoot(p: Project): Node {
    EntryNode(p, DefaultImport)
  }

  function ResolveSelfAt(p: Project, e: EntryImport, st: State): Result<State, Problem>
    requires IsSelf(e.path)
  {
    var n := EntryNode(p, e);
    if IsBareSelf(e.path) && !p.hasManifest then Err(NoProject)
    else if IsBareSelf(e.path) && !HasRootFile(p) then Err(NoRootFile)
    else if HasName(st.loaded, n.name) then Ok(st)
    else if !p.hasManifest then Err(NoProject)
    else LoadSelfAt(p, n.name, n, st, {})
  }

  function ResolveEntries(p: Project, imports: seq<EntryImport>, st: State): Result<State, Problem>
    decreases |imports|
  {
    if imports == [] then Ok(st)
    else
      match (if IsSelf(imports[0].path) then ResolveSelfAt(p, imports[0], st) else LoadNamedAt(p, imports[0].path, st))
      case Err(e) => Err(e)
      case Ok(s) => ResolveEntries(p, imports[1..], s)
  }

  /** The root a module asked for is loaded when none is there, and must be there then. */
  function RequestedRootAt(p: Project, st: State): Result<State, Problem> {
    if st.requested.None? then Ok(st)
    else
      match (if HasRoot(st.loaded) then Ok(st) else ResolveSelfAt(p, DefaultImport, st))
      case Err(e) => Err(e)
      case Ok(s) => if HasRoot(s.loaded) then Ok(s) else Err(RootNotLoaded(st.requested.value))
  }

  function Resolution(p: Project, imports: seq<EntryImport>): Result<State, Problem> {
    match ResolveEntries(p, imports, Start)
    case Err(e) => Err(e)
    case Ok(s) => RequestedRootAt(p, s)
  }

  // ---------------------------------------------------------------- the loader in place

  function NamesOf(es: seq<Entry>): set<string> {
    set i | 0 <= i < |es| :: es[i].name
  }

  lemma NamesOfAdd(es: seq<Entry>, e: Entry)
    ensures NamesOf(es + [e]) == NamesOf(es) + {e.name}
  {
    var more := es + [e];
    assert more[|es|] == e;
    forall n | n in NamesOf(es)
      ensures n in NamesOf(more)
    {
      var i :| 0 <= i < |es| && es[i].name == n;
      assert more[i].name == n;
    }
  }

  /** A method's answer and the state it leaves are those of the walk on values. */
  predicate Agrees(r: Result<(), Problem>, want: Result<State, Problem>, now: State) {
    match want
    case Ok(s) => r.Ok? && now == s
    case Err(e) => r == Err(e)
  }

  class Loader {
    const p: Project
    var loaded: seq<Entry>
    var loadedNames: set<string>
    var loading: set<string>
    var rootRequestedBy: Option<string>

    constructor (p: Project)
      ensures this.p == p && Valid() && loading == {} && Now() == Start
    {
      this.p := p;
      loaded, loadedNames, loading, rootRequestedBy := [], {}, {}, None;
    }

    predicate Valid()
      reads this
    {
      loadedNames == NamesOf(loaded)
    }

    function Now(): State
      reads this
    {
      State(loaded, rootRequestedBy)
    }

    method LoadNamed(target: Path) returns (r: Result<(), Problem>)
      requires Valid()
      modifies this`loaded, this`loadedNames
      ensures Agrees(r, LoadNamedAt(p, target, old(Now())), Now()) && Valid()
    {
      if target !in p.leaves {
        return Err(LeafFailed(target));
      }
      var names := p.leaves[target];
      assert names[0..] == names;
      for i := 0 to |names|
        invariant Valid() && AddLeaves(old(loaded), names) == AddLeaves(loaded, names[i..])
      {
        assert names[i..][0] == names[i] && names[i..][1..] == names[i + 1..];
        if names[i] !in loadedNames {
          NamesOfAdd(loaded, Entry(names[i], Leaf, false));
          loaded := loaded + [Entry(names[i], Leaf, false)];
          loadedNames := loadedNames + {names[i]};
        }
      }
      r := Ok(());
    }

    method LoadSelf(n: Node, ghost top: string) returns (r: Result<(), Problem>)
      requires Valid() && IsKeyed(p, top, n)
      modifies this
      ensures Agrees(r, LoadSelfAt(p, top, n, old(Now()), old(loading)), Now())
      ensures r.Ok? ==> Valid() && loading == old(loading)
      decreases Room(p, top, loading), 0, 0
    {
      if n.name in loadedNames {
        return Ok(());
      }
      if n.name in loading {
        return Err(Circular(n.path));
      }
      ghost var outer := loading;
      loading := loading + {n.name};
      if !Opens(p, n.path) {
        return Err(Unopened(p, n.path));
      }
      RoomShrinks(p, top, outer, n);
      var imports := ImportsOf(p, n.path);
      assert imports[0..] == imports;
      ghost var goal := LoadImportsAt(p, top, n.path, imports, old(Now()), loading);
      for i := 0 to |imports|
        invariant Valid() && loading == outer + {n.name}
        invariant LoadImportsAt(p, top, n.path, imports[i..], Now(), loading) == goal
      {
        assert imports[i..][0] == imports[i] && imports[i..][1..] == imports[i + 1..];
        r := LoadImport(imports[i], n.path, top);
        if r.Err? {
          return;
        }
      }
      assert loading - {n.name} == outer;
      NamesOfAdd(loaded, Entry(n.name, OwnFile(n.path), n.root));
      loading := loading - {n.name};
      loadedNames := loadedNames + {n.name};
      loaded := loaded + [Entry(n.name, OwnFile(n.path), n.root)];
      r := Ok(());
    }

    method LoadImport(target: Path, importer: Path, ghost top: string) returns (r: Result<(), Problem>)
      requires Valid()
      modifies this
      ensures Agrees(r, LoadImportAt(p, top, importer, target, old(Now()), old(loading)), Now())
      ensures r.Ok? ==> Valid() && loading == old(loading)
      decreases Room(p, top, loading), 1, 0
    {
      if !IsSelf(target) {
        r := LoadNamed(target);
      } else if |target| == 1 {
        assert target == [SELF];
        if rootRequestedBy.None? {
          rootRequestedBy := Some(Label(importer));
        }
        r := Ok(());
      } else {
        r := LoadSelf(SelfNode(p, target), top);
      }
    }

    method ResolveSelf(e: EntryImport) returns (r: Result<(), Problem>)
      requires Valid() && loading == {} && IsSelf(e.path)
      modifies this
      ensures Agrees(r, ResolveSelfAt(p, e, old(Now())), Now())
      ensures r.Ok? ==> Valid() && loading == {}
    {
      var n := EntryNode(p, e);
      if |e.path| == 1 {
        if !p.hasManifest {
          return Err(NoProject);
        }
        if !HasRootFile(p) {
          return Err(NoRootFile);
        }
        if n.name !in loadedNames {
          r := LoadSelf(n, n.name);
          return;
        }
      } else {
        if n.name in loadedNames {
          return Ok(());
        }
        if !p.hasManifest {
          return Err(NoProject);
        }
        r := LoadSelf(n, n.name);
        return;
      }
      r := Ok(());
    }

    method LoadRequestedRoot() returns (r: Result<(), Problem>)
      requires Valid() && loading == {}
      modifies this
      ensures Agrees(r, RequestedRootAt(p, old(Now())), Now())
    {
      if rootRequestedBy.None? {
        return Ok(());
      }
      var importer := rootRequestedBy.value;
      if !HasRoot(loaded) {
        r := ResolveSelf(DefaultImport);
        if r.Err? {
          return;
        }
      }
      if !HasRoot(loaded) {
        return Err(RootNotLoaded(importer));
      }
      r := Ok(());
    }

    /** All imports of the entry program, and the root if one of their modules asked for it. */
    method Resolve(imports: seq<EntryImport>) returns (r: Result<(), Problem>)
      requires Valid() && loading == {} && Now() == Start
      modifies this
      ensures Agrees(r, Resolution(p, imports), Now())
    {
      assert imports[0..] == imports;
      for i := 0 to |imports|
        invariant Valid() && loading == {}
        invariant ResolveEntries(p, imports[i..], Now()) == ResolveEntries(p, imports, Start)
      {
        assert imports[i..][0] == imports[i] && imports[i..][1..] == imports[i + 1..];
        if IsSelf(imports[i].path) {
          r := ResolveSelf(imports[i]);
        } else {
          r := LoadNamed(imports[i].path);
        }
        if r.Err? {
          return;
        }
      }
      r := LoadRequestedRoot();
    }
  }
}
