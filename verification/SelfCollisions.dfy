/** Inputs on which two modules of a project, or a module and a package, share a key, and what the
    loader makes of them. */
module SelfCollisions {
  import opened Options
  import opened SelfModules
  import opened SelfLoading
  import opened SelfResolution
  import opened SelfFiles

  lemma OneImport(p: Project, e: EntryImport, st: State)
    requires OneEntry(p, e, Start) == Ok(st) && st.requested.None?
    ensures Resolution(p, [e]) == Ok(st)
  {
    assert [e][1..] == [];
    assert ResolveEntries(p, [e][1..], st) == Ok(st);
    assert ResolveEntries(p, [e], Start) == Ok(st);
  }

  lemma TwoImports(p: Project, e: EntryImport, f: EntryImport, mid: State, st: State)
    requires OneEntry(p, e, Start) == Ok(mid) && OneEntry(p, f, mid) == Ok(st) && st.requested.None?
    ensures Resolution(p, [e, f]) == Ok(st)
  {
    assert [e, f][1..] == [f] && [f][1..] == [];
    assert ResolveEntries(p, [f], mid) == Ok(st);
  }

  const FOO: Path := ["foo"]
  const SELF_FOO: Path := [SELF, "foo"]

  /** A package `foo` whose root has some imports, and whose module `foo` has none. */
  function FooProject(rootImports: seq<Path>): Project {
    Project(true, "foo", {}, map[ROOT := Some(rootImports), FOO := Some([])], map[])
  }

  const FooRoot := Node("foo", ROOT, true)
  const FooModule := Node("foo", FOO, false)
  const EntrySelf := EntryImport([SELF], None)
  const EntryFoo := EntryImport(SELF_FOO, None)

  lemma FooNodes(rootImports: seq<Path>)
    ensures var p := FooProject(rootImports);
      && EntryNode(p, EntrySelf) == FooRoot && EntryNode(p, EntryFoo) == FooModule
      && IsSelf(SELF_FOO) && !IsBareSelf(SELF_FOO) && SelfNode(p, SELF_FOO) == FooModule
      && Opens(p, ROOT) && Opens(p, FOO) && ImportsOf(p, ROOT) == rootImports && ImportsOf(p, FOO) == [] && ROOT != FOO
  {
    assert SELF_FOO[1..] == FOO && "mod"[0] != "foo"[0];
  }

  lemma FooEdge(a: Node, b: Node)
    requires IsEdge(FooProject([SELF_FOO]), a, b)
    ensures a.path != FOO && b == FooModule
  {
    FooNodes([SELF_FOO]);
    assert ([SELF] + b.path)[1..] == b.path && SELF_FOO[1..] == FOO;
  }

  /** Every walk from the root is the root, or the root and the module. */
  lemma FooWalk(ns: seq<Node>)
    requires FromStart(FooProject([SELF_FOO]), {FooRoot}, ns)
    ensures ns[0].path == ROOT && |ns| <= 2 && (|ns| == 2 ==> ns[1] == FooModule)
  {
    if |ns| > 1 {
      FooEdge(ns[0], ns[1]);
    }
    if |ns| > 2 {
      FooEdge(ns[1], ns[2]);
    }
  }

  /** Loading `self` reports a circular import although no walk comes back to a module: the root
      loads under the package's name, which is the key of `self.foo` too. */
  lemma PackageNamedLikeItsModule()
    ensures var p := FooProject([SELF_FOO]);
      && Resolution(p, [EntrySelf]) == Err(Circular(FOO))
      && !HasCircle(p, Starts(p, [EntrySelf])) && !KeysApart(p, [EntrySelf])
  {
    var p := FooProject([SELF_FOO]);
    FooNodes([SELF_FOO]);
    assert [EntrySelf][1..] == [] && [SELF_FOO][1..] == [] && {} + {"foo"} == {"foo"};
    assert LoadImportAt(p, "foo", ROOT, SELF_FOO, Start, {"foo"}) == Err(Circular(FOO));
    assert LoadImportsAt(p, "foo", ROOT, [SELF_FOO], Start, {"foo"}) == Err(Circular(FOO));
    assert LoadSelfAt(p, "foo", FooRoot, Start, {}) == Err(Circular(FOO));
    assert ResolveSelfAt(p, EntrySelf, Start) == Err(Circular(FOO));
    var starts := Starts(p, [EntrySelf]);
    assert [EntrySelf][0] == EntrySelf && starts == {FooRoot};
    forall ns: seq<Node> | FromStart(p, starts, ns)
      ensures !Returns(ns)
    {
      FooWalk(ns);
    }
    var ns := [FooRoot, FooModule];
    assert [SELF] + FOO == SELF_FOO && FromStart(p, starts, ns);
    PrefixIsReached(p, starts, ns, 0);
    PrefixIsReached(p, starts, ns, 1);
  }

  /** Importing `self` and then `self.foo` succeeds, and `foo` is never loaded. */
  lemma ModuleIsSkipped()
    ensures Resolution(FooProject([]), [EntrySelf, EntryFoo]) == Ok(State([Entry("foo", OwnFile(ROOT), true)], None))
  {
    var p := FooProject([]);
    FooNodes([]);
    var s := State([Entry("foo", OwnFile(ROOT), true)], None);
    assert Start.loaded + s.loaded == s.loaded;
    assert LoadImportsAt(p, "foo", ROOT, [], Start, {} + {"foo"}) == Ok(Start);
    assert LoadSelfAt(p, "foo", FooRoot, Start, {}) == Ok(s);
    assert ResolveSelfAt(p, EntrySelf, Start) == Ok(s);
    assert s.loaded[0].name == "foo" && ResolveSelfAt(p, EntryFoo, s) == Ok(s);
    TwoImports(p, EntrySelf, EntryFoo, s, s);
  }

  const AB: Path := ["a", "b"]

  /** A project whose module `a.b` imports the package module `a.b`. */
  const AbProject := Project(true, "p", {}, map[AB := Some([AB])], map[AB := ["a.b"]])

  const AbLeaf := Entry("a.b", Leaf, false)
  const AbOwn := Entry("a.b", OwnFile(AB), false)
  const EntryAb := EntryImport([SELF] + AB, None)
  const EntryLeaf := EntryImport(AB, None)

  lemma AbFacts()
    ensures EntryNode(AbProject, EntryAb) == Node("a.b", AB, false) && IsSelf(EntryAb.path)
    ensures !IsBareSelf(EntryAb.path) && !IsSelf(AB) && Opens(AbProject, AB) && ImportsOf(AbProject, AB) == [AB]
  {
    assert ([SELF] + AB)[1..] == AB && AB[1..] == ["b"] && "a"[0] != SELF[0];
    assert "a" + "." + "b" == "a.b";
  }

  lemma LeafLoads(st: State)
    requires !HasName(st.loaded, "a.b")
    ensures LoadNamedAt(AbProject, AB, st) == Ok(st.(loaded := st.loaded + [AbLeaf]))
  {
    assert ["a.b"][1..] == [];
  }

  /** Loading `self.a.b` takes one key twice: the package module's load does not ask what is
      loading. */
  lemma LoadedTwice()
    ensures Resolution(AbProject, [EntryAb]) == Ok(State([AbLeaf, AbOwn], None))
    ensures !EachOnce([AbLeaf, AbOwn])
  {
    AbFacts();
    AbLoadsTwice();
    OneImport(AbProject, EntryAb, State([AbLeaf, AbOwn], None));
    assert !NoName([AbLeaf, AbOwn], 1) by {
      assert [AbLeaf, AbOwn][..1] == [AbLeaf] && [AbLeaf][0].name == "a.b";
    }
  }

  lemma AbLoadsTwice()
    ensures ResolveSelfAt(AbProject, EntryAb, Start) == Ok(State([AbLeaf, AbOwn], None))
  {
    var p, s := AbProject, State([AbLeaf], None);
    AbFacts();
    LeafLoads(Start);
    assert [AB][1..] == [] && Start.loaded + [AbLeaf] == [AbLeaf] && [AbLeaf] + [AbOwn] == [AbLeaf, AbOwn];
    assert LoadImportAt(p, "a.b", AB, AB, Start, {"a.b"}) == Ok(s);
    assert LoadImportsAt(p, "a.b", AB, [AB], Start, {"a.b"}) == Ok(s);
    assert {} + {"a.b"} == {"a.b"};
    assert LoadSelfAt(p, "a.b", Node("a.b", AB, false), Start, {}) == Ok(State([AbLeaf] + [AbOwn], None));
  }

  /** Whether a key is taken twice depends on the order of the same imports, so no condition on the
      project and on which imports there are decides it. */
  lemma TwiceDependsOnOrder()
    ensures Resolution(AbProject, [EntryAb, EntryLeaf]) == Ok(State([AbLeaf, AbOwn], None))
    ensures Resolution(AbProject, [EntryLeaf, EntryAb]) == Ok(State([AbLeaf], None))
    ensures !EachOnce([AbLeaf, AbOwn]) && EachOnce([AbLeaf])
  {
    var p, once, twice := AbProject, State([AbLeaf], None), State([AbLeaf, AbOwn], None);
    AbFacts();
    LoadedTwice();
    AbLoadsTwice();
    LeafLoads(Start);
    assert Start.loaded + [AbLeaf] == [AbLeaf] && ["a.b"][1..] == [];
    assert once.loaded[0].name == "a.b" && twice.loaded[0].name == "a.b";
    assert LoadNamedAt(p, AB, twice) == Ok(twice);
    TwoImports(p, EntryAb, EntryLeaf, twice, twice);
    assert ResolveSelfAt(p, EntryAb, once) == Ok(once);
    TwoImports(p, EntryLeaf, EntryAb, once, once);
  }

  const A: Path := ["a"]
  const A_MOD: Path := ["a", MOD]

  /** A project whose one file is `src/a/mod.almd`. */
  const ModProject := Project(true, "p", {}, map[A_MOD := Some([])], map[])

  const ModShort := Entry("a", OwnFile(A), false)
  const ModLong := Entry("a.mod", OwnFile(A_MOD), false)
  const EntryShort := EntryImport([SELF] + A, None)
  const EntryLong := EntryImport([SELF] + A_MOD, None)

  lemma ModFacts()
    ensures EntryNode(ModProject, EntryShort) == NodeOf(ModShort) && EntryNode(ModProject, EntryLong) == NodeOf(ModLong)
    ensures IsSelf(EntryShort.path) && IsSelf(EntryLong.path) && !IsBareSelf(EntryShort.path) && !IsBareSelf(EntryLong.path)
    ensures Opens(ModProject, A) && Opens(ModProject, A_MOD) && A !in ModProject.sources
    ensures ImportsOf(ModProject, A) == [] && ImportsOf(ModProject, A_MOD) == []
    ensures FileOf(ModProject, A) == FileOf(ModProject, A_MOD)
  {
    assert ([SELF] + A)[1..] == A && ([SELF] + A_MOD)[1..] == A_MOD && A_MOD[1..] == [MOD] && A + [MOD] == A_MOD;
    assert Join(A_MOD) == "a" + "." + Join([MOD]) == "a" + "." + MOD == "a.mod";
  }

  /** Importing `self.a` and `self.a.mod` loads the one file `src/a/mod.almd` under two keys, and the
      two keys are apart. */
  lemma FileUnderTwoKeys()
    ensures Resolution(ModProject, [EntryShort, EntryLong]) == Ok(State([ModShort, ModLong], None))
    ensures KeysApart(ModProject, [EntryShort, EntryLong])
    ensures !ModuleFilesOnce(ModProject, [ModShort, ModLong])
  {
    var p, imports := ModProject, [EntryShort, EntryLong];
    var one, two := State([ModShort], None), State([ModShort, ModLong], None);
    ModFacts();
    assert {} + {"a"} == {"a"} && {} + {"a.mod"} == {"a.mod"};
    assert Start.loaded + [ModShort] == one.loaded && one.loaded + [ModLong] == two.loaded;
    assert one.loaded[0].name != "a.mod";
    assert LoadSelfAt(p, "a", NodeOf(ModShort), Start, {}) == Ok(one);
    assert LoadSelfAt(p, "a.mod", NodeOf(ModLong), one, {}) == Ok(two);
    TwoImports(p, EntryShort, EntryLong, one, two);
    assert two.loaded[0] == ModShort && two.loaded[1] == ModLong && SameFile(p, two.loaded, 0, 1);
    forall n | Reached(p, Starts(p, imports), n)
      ensures n == NodeOf(ModShort) || n == NodeOf(ModLong)
    {
      ModReached(n);
    }
    ModHasNoLeaf();
  }

  lemma ModStarts()
    ensures var imports := [EntryShort, EntryLong];
      Starts(ModProject, imports) == EntryNodes(ModProject, imports) == {NodeOf(ModShort), NodeOf(ModLong)}
  {
    var p, imports := ModProject, [EntryShort, EntryLong];
    ModFacts();
    assert imports[0] == EntryShort && imports[1] == EntryLong;
    forall n | n in EntryNodes(p, imports)
      ensures n == NodeOf(ModShort) || n == NodeOf(ModLong)
    {
    }
  }

  lemma ModReached(n: Node)
    requires Reached(ModProject, Starts(ModProject, [EntryShort, EntryLong]), n)
    ensures n == NodeOf(ModShort) || n == NodeOf(ModLong)
  {
    ModStarts();
    ModImportsNothing();
    var ns: seq<Node> :| FromStart(ModProject, Starts(ModProject, [EntryShort, EntryLong]), ns) && ns[|ns| - 1] == n;
    assert |ns| > 1 ==> IsEdge(ModProject, ns[0], ns[1]);
  }

  lemma ModImportsNothing()
    ensures forall path, target :: !Imports(ModProject, path, target)
  {
  }

  lemma ModHasNoLeaf()
    ensures var imports := [EntryShort, EntryLong];
      forall name :: !IsLeafName(ModProject, imports, Starts(ModProject, imports), name)
  {
  }
}
