/** What a resolution leaves for each import, and what an error says, in terms of the imports as they
    are written: the entry program's, and those of every module that is loaded. */
module SelfEntries {
  import opened Options
  import opened SelfModules
  import opened SelfLoading
  import opened SelfResolution

  ghost predicate IsThere(es: seq<Entry>, key: string) {
    exists i :: 0 <= i < |es| && es[i].name == key
  }

  /** `import self.<q>` has its key: the path with dots, behind `self.` if another module has that name. */
  ghost predicate HasModule(p: Project, es: seq<Entry>, q: Path) {
    if Join(q) in p.reserved then IsThere(es, "self." + Join(q)) else IsThere(es, Join(q))
  }

  /** A package or stdlib import: all its modules are there. */
  ghost predicate HasLeaves(p: Project, es: seq<Entry>, target: Path) {
    target in p.leaves && forall n :: n in p.leaves[target] ==> IsThere(es, n)
  }

  /** The root under the alias, else under the package's name, else as `self`. */
  ghost predicate HasRootUnder(p: Project, es: seq<Entry>, alias: Option<string>) {
    match alias
    case Some(a) => IsThere(es, a)
    case None => if p.packageName == "" then IsThere(es, "self") else IsThere(es, p.packageName)
  }

  ghost predicate IsEntryMet(p: Project, es: seq<Entry>, e: EntryImport) {
    && (e.path == ["self"] ==> HasRootUnder(p, es, e.alias) && p.hasManifest && ["mod"] in p.sources)
    && (|e.path| > 1 && e.path[0] == "self" ==> HasModule(p, es, e.path[1..]))
    && (e.path == [] || e.path[0] != "self" ==> HasLeaves(p, es, e.path))
  }

  /** What a module imports: a bare `import self` asks for some root. */
  ghost predicate IsTargetMet(p: Project, es: seq<Entry>, target: Path) {
    && (target == ["self"] ==> exists i :: 0 <= i < |es| && es[i].isRoot)
    && (|target| > 1 && target[0] == "self" ==> HasModule(p, es, target[1..]))
    && (target == [] || target[0] != "self" ==> HasLeaves(p, es, target))
  }

  /** The imports of the file that the path finds: its own, else the `mod.almd` below it. */
  ghost predicate IsImportOf(p: Project, path: Path, target: Path) {
    || (path in p.sources && p.sources[path].Some? && target in p.sources[path].value)
    || (path !in p.sources && path + ["mod"] in p.sources && p.sources[path + ["mod"]].Some?
        && target in p.sources[path + ["mod"]].value)
  }

  lemma NamedIsThere(es: seq<Entry>, name: string)
    ensures HasName(es, name) <==> IsThere(es, name)
  {
  }

  lemma NamedStays(es: seq<Entry>, more: seq<Entry>)
    requires es <= more
    ensures forall name :: IsThere(es, name) ==> IsThere(more, name)
  {
    forall name | IsThere(es, name)
      ensures IsThere(more, name)
    {
      NamedLater(es, more, name);
    }
  }

  lemma ServedIsMet(p: Project, es: seq<Entry>, target: Path)
    requires IsServed(p, es, target)
    ensures |target| > 1 && target[0] == "self" ==> HasModule(p, es, target[1..])
    ensures target == [] || target[0] != "self" ==> HasLeaves(p, es, target)
  {
  }

  lemma EntryServedIsMet(p: Project, es: seq<Entry>, e: EntryImport)
    requires EntryServed(p, es, e)
    ensures e.path == ["self"] ==> HasRootUnder(p, es, e.alias)
    ensures |e.path| > 1 && e.path[0] == "self" ==> HasModule(p, es, e.path[1..])
    ensures e.path == [] || e.path[0] != "self" ==> HasLeaves(p, es, e.path)
  {
  }

  lemma LaterMet(p: Project, es: seq<Entry>, more: seq<Entry>, e: EntryImport)
    requires es <= more && IsEntryMet(p, es, e)
    ensures IsEntryMet(p, more, e)
  {
    NamedStays(es, more);
  }

  /** After success every import of the entry program has its key. */
  lemma EntriesAreMet(p: Project, imports: seq<EntryImport>, s: State, k: nat)
    requires Resolution(p, imports) == Ok(s) && k < |imports|
    ensures IsEntryMet(p, s.loaded, imports[k])
  {
    var starts := EntryNodes(p, imports) + {DefaultRoot(p)};
    var mid := OkRun(p, imports, starts, s);
    assert imports[0..] == imports;
    assert EntryServed(p, mid.loaded, imports[k]);
    EntryServedIsMet(p, mid.loaded, imports[k]);
    if imports[k].path == ["self"] {
      assert IsBareSelf(imports[k].path);
    }
    LaterMet(p, mid.loaded, s.loaded, imports[k]);
  }

  /** And so has every import of every module that is loaded. */
  lemma LoadedAreMet(p: Project, imports: seq<EntryImport>, s: State, i: nat, target: Path)
    requires Resolution(p, imports) == Ok(s) && i < |s.loaded| && s.loaded[i].origin.OwnFile?
    requires IsImportOf(p, s.loaded[i].origin.path, target)
    ensures IsTargetMet(p, s.loaded, target)
  {
    var starts := EntryNodes(p, imports) + {DefaultRoot(p)};
    var mid := OkRun(p, imports, starts, s);
    var es, path := s.loaded, s.loaded[i].origin.path;
    assert IsPlaced(p, es, i);
    assert target in ImportsOf(p, path);
    ServedLater(p, es[..i], es, target);
    ServedIsMet(p, es, target);
    if target == ["self"] {
      assert AsksRoot(p, es[i]);
    }
  }

  /** With the keys apart, what stands under an entry import's key is what it names: the root's file, or
      the module of that path. */
  lemma EntriesHaveTheirFiles(p: Project, imports: seq<EntryImport>, s: State, k: nat)
    requires Resolution(p, imports) == Ok(s) && k < |imports| && KeysApart(p, imports)
    ensures var e := imports[k];
      && (e.path == ["self"] ==>
            forall a :: e.alias == Some(a) ==> Entry(a, OwnFile(["mod"]), true) in s.loaded)
      && (e.path == ["self"] && e.alias.None? ==>
            Entry(if p.packageName == "" then "self" else p.packageName, OwnFile(["mod"]), true) in s.loaded)
      && (|e.path| > 1 && e.path[0] == "self" ==>
            Entry(if Join(e.path[1..]) in p.reserved then "self." + Join(e.path[1..]) else Join(e.path[1..]),
                  OwnFile(e.path[1..]), false) in s.loaded)
  {
    var e := imports[k];
    ApartIsRight(p, imports, s);
    if IsSelf(e.path) {
      var n := EntryNode(p, e);
      assert n in EntryNodes(p, imports);
      assert FromStart(p, Starts(p, imports), [n]) && [n][|[n]| - 1] == n;
      assert Holds(s.loaded, n);
      assert s.loaded[At(s.loaded, n.name)] in s.loaded;
      assert SELF + "." == "self.";
      assert |e.path| > 1 ==> e.path != ["self"];
    }
  }

  // ---------------------------------------------------------------- errors

  /** A path that the entry program imports behind `self`, or that a module does. */
  ghost predicate IsImported(p: Project, imports: seq<EntryImport>, path: Path) {
    || path == ["mod"]
    || (exists k :: 0 <= k < |imports| && imports[k].path == ["self"] + path)
    || (exists importer :: IsImportOf(p, importer, ["self"] + path))
  }

  ghost predicate IsLeafImported(p: Project, imports: seq<EntryImport>, target: Path) {
    || (exists k :: 0 <= k < |imports| && imports[k].path == target)
    || (exists importer :: IsImportOf(p, importer, target))
  }

  /** What each error says of the project. */
  ghost predicate IsTrue(p: Project, imports: seq<EntryImport>, e: Problem) {
    match e
    case NoProject => !p.hasManifest
    case NoRootFile => ["mod"] !in p.sources
    case NoSuchModule(path) => path !in p.sources && path + ["mod"] !in p.sources && IsImported(p, imports, path)
    case DoesNotParse(path) => IsImported(p, imports, path) &&
      (if path in p.sources then p.sources[path].None? else path + ["mod"] in p.sources && p.sources[path + ["mod"]].None?)
    case Circular(path) => IsImported(p, imports, path)
    case LeafFailed(target) => target !in p.leaves && IsLeafImported(p, imports, target)
    case RootNotLoaded(asker) => exists path :: IsImportOf(p, path, ["self"]) && asker == "self." + Join(path)
  }

  lemma ReachedIsImported(p: Project, imports: seq<EntryImport>, starts: set<Node>, n: Node)
    requires starts <= EntryNodes(p, imports) + {DefaultRoot(p)} && Reached(p, starts, n)
    ensures IsImported(p, imports, n.path)
  {
    var ns: seq<Node> :| FromStart(p, starts, ns) && ns[|ns| - 1] == n;
    if |ns| == 1 {
      if n in EntryNodes(p, imports) {
        var k :| 0 <= k < |imports| && IsSelf(imports[k].path) && EntryNode(p, imports[k]) == n;
        assert imports[k].path == ["self"] + imports[k].path[1..];
      }
    } else {
      var importer := ns[|ns| - 2];
      assert IsEdge(p, importer, n);
      assert IsImportOf(p, importer.path, ["self"] + n.path);
    }
  }

  lemma ImportsAreImports(p: Project, path: Path, target: Path)
    ensures Imports(p, path, target) <==> IsImportOf(p, path, target)
  {
  }

  lemma BlamesTruly(p: Project, imports: seq<EntryImport>, starts: set<Node>, e: Problem)
    requires starts <= EntryNodes(p, imports) + {DefaultRoot(p)} && Blames(p, imports, starts, e)
    ensures IsTrue(p, imports, e)
  {
    match e
    case Circular(path) =>
      var ns: seq<Node> :| FromStart(p, starts, ns) && MeetsKey(ns) && ns[|ns| - 1].path == path;
      ReachedIsImported(p, imports, starts, ns[|ns| - 1]);
    case NoSuchModule(path) =>
      var n :| Reached(p, starts, n) && n.path == path;
      ReachedIsImported(p, imports, starts, n);
    case DoesNotParse(path) =>
      var n :| Reached(p, starts, n) && n.path == path;
      ReachedIsImported(p, imports, starts, n);
    case LeafFailed(target) =>
      LeafIsImported(p, imports, starts, target);
    case _ =>
  }

  lemma LeafIsImported(p: Project, imports: seq<EntryImport>, starts: set<Node>, target: Path)
    requires IsLeafImport(p, imports, starts, target)
    ensures IsLeafImported(p, imports, target)
  {
    if !(exists k :: 0 <= k < |imports| && imports[k].path == target) {
      var n :| Reached(p, starts, n) && Imports(p, n.path, target);
      ImportsAreImports(p, n.path, target);
    }
  }

  /** An error is true of the project, whether or not the keys are apart. */
  lemma ErrorsAreTrue(p: Project, imports: seq<EntryImport>)
    requires Resolution(p, imports).Err?
    ensures IsTrue(p, imports, Resolution(p, imports).error)
  {
    var starts := EntryNodes(p, imports) + {DefaultRoot(p)};
    var e := Resolution(p, imports).error;
    EntriesRun(p, imports, starts);
    var r := ResolveEntries(p, imports, Start);
    assert imports[0..] == imports;
    if r.Ok? {
      RootErrorIsTrue(p, imports, starts, r.value);
    } else if Blames(p, imports, starts, e) {
      BlamesTruly(p, imports, starts, e);
    }
  }

  lemma RootErrorIsTrue(p: Project, imports: seq<EntryImport>, starts: set<Node>, mid: State)
    requires starts == EntryNodes(p, imports) + {DefaultRoot(p)}
    requires Good(p, imports, starts, mid) && Distinct(p, starts, mid.loaded, {})
    requires RequestedRootAt(p, mid).Err?
    ensures IsTrue(p, imports, RequestedRootAt(p, mid).error)
  {
    var e := RequestedRootAt(p, mid).error;
    EntryKeeps(p, imports, starts, DefaultImport, mid);
    hide Distinct;
    if e.RootNotLoaded? {
      var n :| IsAsker(p, starts, n) && Label(n.path) == mid.requested.value;
      ImportsAreImports(p, n.path, ["self"]);
      assert SELF + "." == "self.";
    } else if Blames(p, imports, starts, e) {
      BlamesTruly(p, imports, starts, e);
    }
  }

  // ---------------------------------------------------------------- nothing else

  ghost predicate IsLeafOf(p: Project, imports: seq<EntryImport>, target: Path, name: string) {
    IsLeafImported(p, imports, target) && target in p.leaves && name in p.leaves[target]
  }

  /** What is loaded was imported by the entry program or by a module, or is the root. */
  lemma LoadedIsImported(p: Project, imports: seq<EntryImport>, s: State, i: nat)
    requires Resolution(p, imports) == Ok(s) && i < |s.loaded|
    ensures match s.loaded[i].origin
      case OwnFile(path) => IsImported(p, imports, path)
      case Leaf => exists target :: IsLeafOf(p, imports, target, s.loaded[i].name)
  {
    var starts := EntryNodes(p, imports) + {DefaultRoot(p)};
    var mid := OkRun(p, imports, starts, s);
    var e := s.loaded[i];
    assert IsKnown(p, imports, starts, e);
    match e.origin
    case OwnFile(path) =>
      ReachedIsImported(p, imports, starts, NodeOf(e));
    case Leaf =>
      var t :| IsLeafImport(p, imports, starts, t) && t in p.leaves && e.name in p.leaves[t];
      LeafIsImported(p, imports, starts, t);
      assert IsLeafOf(p, imports, t, e.name);
  }
}
