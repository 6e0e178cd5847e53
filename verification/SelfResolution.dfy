/** What loading a project's modules achieves. A module is its path under `src/`; the loader knows it
    by a key. It gives every import its own module exactly when no two modules that can be met share
    a key and the project itself is sound: its files exist and parse, its packages load, and no walk of
    `import self.x` comes back to a module. */
module SelfResolution {
  import opened Options
  import opened SelfModules
  import opened SelfLoading

  /** No two modules that can be met share a key. */
  ghost predicate KeysApart(p: Project, imports: seq<EntryImport>) {
    var starts := Starts(p, imports);
    && (forall a, b :: Reached(p, starts, a) && Reached(p, starts, b) && a.name == b.name ==> a == b)
    && (forall a :: Reached(p, starts, a) ==> !IsLeafName(p, imports, starts, a.name))
  }

  /** Everything that can be met exists. */
  ghost predicate IsLoadable(p: Project, imports: seq<EntryImport>) {
    var starts := Starts(p, imports);
    && (starts != {} ==> p.hasManifest)
    && (HasBare(imports) || RootAsked(p, imports) ==> HasRootFile(p))
    && (forall n :: Reached(p, starts, n) ==> Opens(p, n.path))
    && (forall t :: IsLeafImport(p, imports, starts, t) ==> t in p.leaves)
  }

  ghost predicate IsSound(p: Project, imports: seq<EntryImport>) {
    IsLoadable(p, imports) && !HasCircle(p, Starts(p, imports))
  }

  function At(es: seq<Entry>, name: string): (i: nat)
    ensures i <= |es|
    ensures i < |es| ==> es[i].name == name
    ensures forall k :: 0 <= k < i ==> es[k].name != name
    ensures HasName(es, name) <==> i < |es|
  {
    if es == [] then 0
    else if es[0].name == name then 0
    else
      assert HasName(es, name) <==> HasName(es[1..], name) by {
        if HasName(es, name) {
          var k :| 0 <= k < |es| && es[k].name == name;
          assert es[1..][k - 1].name == name;
        }
      }
      1 + At(es[1..], name)
  }

  /** Under the node's key stands the node's module. */
  predicate Holds(es: seq<Entry>, n: Node) {
    At(es, n.name) < |es| && es[At(es, n.name)] == Entry(n.name, OwnFile(n.path), n.root)
  }

  predicate HoldsLeaf(es: seq<Entry>, name: string) {
    At(es, name) < |es| && es[At(es, name)].origin == Leaf
  }

  /** Every module that can be met stands under its key, and so does every package module. */
  ghost predicate AllRight(p: Project, imports: seq<EntryImport>, es: seq<Entry>) {
    var starts := Starts(p, imports);
    && (forall n :: Reached(p, starts, n) ==> Holds(es, n))
    && (forall name :: IsLeafName(p, imports, starts, name) ==> HoldsLeaf(es, name))
  }

  // ---------------------------------------------------------------- the run, by key

  lemma StartIsGood(p: Project, imports: seq<EntryImport>, starts: set<Node>)
    ensures Good(p, imports, starts, Start) && Distinct(p, starts, Start.loaded, {})
  {
  }

  /** Either the entry's imports load, or their failure is explained. */
  lemma EntriesRun(p: Project, imports: seq<EntryImport>, starts: set<Node>)
    requires EntryNodes(p, imports) <= starts
    ensures var r := ResolveEntries(p, imports, Start);
      && (r.Ok? ==> EntriesKept(p, imports, starts, 0, Start, r.value))
      && (r.Err? ==> Explains(p, imports, starts, r.error) && (r.error.NoRootFile? ==> HasBare(imports)))
  {
    StartIsGood(p, imports, starts);
    assert imports[0..] == imports;
    EntriesKeep(p, imports, starts, 0, Start);
  }

  // ---------------------------------------------------------------- right means apart

  /** One key stands for one entry. */
  lemma RightIsApart(p: Project, imports: seq<EntryImport>, es: seq<Entry>)
    requires AllRight(p, imports, es)
    ensures KeysApart(p, imports)
  {
    var starts := Starts(p, imports);
    forall a, b | Reached(p, starts, a) && Reached(p, starts, b) && a.name == b.name
      ensures a == b
    {
      assert Holds(es, a) && Holds(es, b);
    }
    forall a | Reached(p, starts, a)
      ensures !IsLeafName(p, imports, starts, a.name)
    {
      assert Holds(es, a);
      assert IsLeafName(p, imports, starts, a.name) ==> HoldsLeaf(es, a.name);
    }
  }

  lemma HeldIsPlaced(p: Project, es: seq<Entry>, n: Node)
    requires Ordered(p, es) && Holds(es, n)
    ensures Opens(p, n.path) && AllServed(p, es[..At(es, n.name)], ImportsOf(p, n.path))
  {
    assert IsPlaced(p, es, At(es, n.name));
  }

  /** An edge leads to a key that stands earlier. */
  lemma EdgeDescends(p: Project, es: seq<Entry>, a: Node, b: Node)
    requires Ordered(p, es) && Holds(es, a) && IsEdge(p, a, b)
    ensures HasName(es, b.name) && At(es, b.name) < At(es, a.name)
  {
    HeldIsPlaced(p, es, a);
    var t := [SELF] + b.path;
    assert t[1..] == b.path && IsServed(p, es[..At(es, a.name)], t);
    var j :| 0 <= j < At(es, a.name) && es[..At(es, a.name)][j].name == b.name;
    assert es[j].name == b.name;
  }

  lemma {:induction false} WalkDescends(
    p: Project, starts: set<Node>, es: seq<Entry>, ns: seq<Node>, j: nat, k: nat)
    requires Ordered(p, es) && FromStart(p, starts, ns) && j <= k < |ns|
    requires forall i :: 0 <= i < |ns| ==> Holds(es, ns[i])
    ensures At(es, ns[k].name) <= At(es, ns[j].name)
  {
    if j < k {
      WalkDescends(p, starts, es, ns, j, k - 1);
      EdgeDescends(p, es, ns[k - 1], ns[k]);
    }
  }

  /** Where every module stands under its key, no walk comes back to a module: going on from it would
      lead down forever. */
  lemma RightHasNoCircle(p: Project, imports: seq<EntryImport>, es: seq<Entry>)
    requires AllRight(p, imports, es) && Ordered(p, es)
    ensures !HasCircle(p, Starts(p, imports))
  {
    var starts := Starts(p, imports);
    forall ns: seq<Node> | FromStart(p, starts, ns)
      ensures !Returns(ns)
    {
      forall i | 0 <= i < |ns|
        ensures Holds(es, ns[i])
      {
        PrefixIsReached(p, starts, ns, i);
      }
      var last := |ns| - 1;
      forall i | 0 <= i < last
        ensures ns[i].path != ns[last].path
      {
        WalkDescends(p, starts, es, ns, i + 1, last);
        assert IsEdge(p, ns[i], ns[i + 1]);
        if ns[i].path == ns[last].path {
          EdgeDescends(p, es, ns[last], ns[i + 1]);
        }
      }
    }
  }

  // ---------------------------------------------------------------- the package root

  /** What the root a module asked for makes of the state. */
  ghost predicate RootKept(p: Project, imports: seq<EntryImport>, starts: set<Node>, mid: State, s: State) {
    && Good(p, imports, starts, s) && Distinct(p, starts, s.loaded, {}) && mid.loaded <= s.loaded
    && (mid.requested.Some? ==> HasRoot(s.loaded))
    && if mid.requested.Some? && !HasRoot(mid.loaded) then
         p.hasManifest && HasRootFile(p) && HasName(s.loaded, DefaultRoot(p).name)
       else s == mid
  }

  /** A failed root load was asked for, and is explained or finds its key taken. */
  ghost predicate RootFails(p: Project, imports: seq<EntryImport>, starts: set<Node>, mid: State, e: Problem) {
    && mid.requested.Some? && !HasRoot(mid.loaded)
    && (Explains(p, imports, starts, e) || HasName(mid.loaded, DefaultRoot(p).name))
  }

  lemma RootRun(p: Project, imports: seq<EntryImport>, starts: set<Node>, mid: State)
    requires Good(p, imports, starts, mid) && Distinct(p, starts, mid.loaded, {})
    requires mid.requested.Some? && !HasRoot(mid.loaded) ==> DefaultRoot(p) in starts
    ensures var r := RequestedRootAt(p, mid);
      && (r.Ok? ==> RootKept(p, imports, starts, mid, r.value))
      && (r.Err? ==> RootFails(p, imports, starts, mid, r.error))
  {
    if mid.requested.Some? && !HasRoot(mid.loaded) {
      EntryKeeps(p, imports, starts, DefaultImport, mid);
      hide Good;
      hide Distinct;
      hide Explains;
      hide ResolveSelfAt;
    }
  }

  // ---------------------------------------------------------------- right means sound

  lemma LeafIsServed(
    p: Project, imports: seq<EntryImport>, starts: set<Node>, mid: State, s: State, t: Path)
    requires AllEntriesServed(p, mid.loaded, imports) && mid.loaded <= s.loaded && Ordered(p, s.loaded)
    requires forall n :: Reached(p, starts, n) ==> Holds(s.loaded, n)
    requires IsLeafImport(p, imports, starts, t)
    ensures t in p.leaves && forall name :: name in p.leaves[t] ==> HasName(s.loaded, name)
  {
    if k :| 0 <= k < |imports| && imports[k].path == t {
      assert EntryServed(p, mid.loaded, imports[k]);
      ServedLater(p, mid.loaded, s.loaded, t);
    } else {
      var n :| Reached(p, starts, n) && Imports(p, n.path, t);
      HeldIsPlaced(p, s.loaded, n);
      assert IsServed(p, s.loaded[..At(s.loaded, n.name)], t);
      ServedLater(p, s.loaded[..At(s.loaded, n.name)], s.loaded, t);
    }
  }

  /** `starts` covers the root load, if there is one. */
  ghost predicate RootCovered(p: Project, imports: seq<EntryImport>, starts: set<Node>) {
    var r := ResolveEntries(p, imports, Start);
    r.Ok? && r.value.requested.Some? && !HasRoot(r.value.loaded) ==> DefaultRoot(p) in starts
  }

  /** A run that loads leaves the entry's imports served in the middle, and the root at the end. */
  lemma OkRun(p: Project, imports: seq<EntryImport>, starts: set<Node>, s: State) returns (mid: State)
    requires Resolution(p, imports) == Ok(s) && EntryNodes(p, imports) <= starts && RootCovered(p, imports, starts)
    ensures ResolveEntries(p, imports, Start) == Ok(mid) && RequestedRootAt(p, mid) == Ok(s)
    ensures EntriesKept(p, imports, starts, 0, Start, mid) && RootKept(p, imports, starts, mid, s)
    ensures imports[0..] == imports
  {
    EntriesRun(p, imports, starts);
    mid := ResolveEntries(p, imports, Start).value;
    assert imports[0..] == imports;
    RootRun(p, imports, starts, mid);
  }

  /** A successful run that gives every import its module shows the project to be sound. */
  lemma RightIsSound(p: Project, imports: seq<EntryImport>, s: State)
    requires Resolution(p, imports) == Ok(s) && AllRight(p, imports, s.loaded)
    ensures IsSound(p, imports)
  {
    var starts := Starts(p, imports);
    var wide := starts + {DefaultRoot(p)};
    var mid := OkRun(p, imports, wide, s);
    RightHasNoCircle(p, imports, s.loaded);
    forall n | Reached(p, starts, n)
      ensures Opens(p, n.path)
    {
      HeldIsPlaced(p, s.loaded, n);
    }
    forall t | IsLeafImport(p, imports, starts, t)
      ensures t in p.leaves
    {
      LeafIsServed(p, imports, starts, mid, s, t);
    }
    RightHasManifest(p, imports, wide, mid, s);
    if RootAsked(p, imports) && !HasBare(imports) {
      forall n | Reached(p, EntryNodes(p, imports), n)
        ensures Holds(s.loaded, n)
      {
        ReachedFromMore(p, EntryNodes(p, imports), starts, n);
      }
      RightAsksRoot(p, imports, wide, mid, s);
    }
  }

  lemma RightHasManifest(p: Project, imports: seq<EntryImport>, wide: set<Node>, mid: State, s: State)
    requires AllRight(p, imports, s.loaded) && imports[0..] == imports
    requires EntriesKept(p, imports, wide, 0, Start, mid) && RootKept(p, imports, wide, mid, s)
    ensures Starts(p, imports) != {} ==> p.hasManifest
    ensures HasBare(imports) ==> HasRootFile(p)
  {
    forall n | n in Starts(p, imports)
      ensures !AllLeaves(s.loaded)
    {
      assert FromStart(p, Starts(p, imports), [n]) && [n][|[n]| - 1] == n;
      assert Holds(s.loaded, n);
    }
    assert !p.hasManifest ==> AllLeaves(s.loaded);
  }

  /** A module that asks for the root is loaded, so the root was asked for. */
  lemma RightAsksRoot(p: Project, imports: seq<EntryImport>, wide: set<Node>, mid: State, s: State)
    requires EntriesKept(p, imports, wide, 0, Start, mid) && RootKept(p, imports, wide, mid, s)
    requires imports[0..] == imports && RootAsked(p, imports) && !HasBare(imports)
    requires forall n :: Reached(p, EntryNodes(p, imports), n) ==> Holds(s.loaded, n)
    ensures p.hasManifest && HasRootFile(p) && HasName(s.loaded, DefaultRoot(p).name)
  {
    var n :| IsAsker(p, EntryNodes(p, imports), n);
    assert Holds(s.loaded, n);
    assert AsksRoot(p, s.loaded[At(s.loaded, n.name)]);
  }

  // ---------------------------------------------------------------- apart and sound means right

  /** With the keys apart, a taken key is taken by its own module. */
  lemma NamedIsHeld(p: Project, imports: seq<EntryImport>, es: seq<Entry>, n: Node)
    requires KeysApart(p, imports) && AllKnown(p, imports, Starts(p, imports), es)
    requires Reached(p, Starts(p, imports), n) && HasName(es, n.name)
    ensures Holds(es, n)
  {
    var e := es[At(es, n.name)];
    assert IsKnown(p, imports, Starts(p, imports), e);
    if e.origin.OwnFile? {
      assert NodeOf(e) == n;
    }
  }

  lemma LeafIsHeld(p: Project, imports: seq<EntryImport>, es: seq<Entry>, name: string)
    requires KeysApart(p, imports) && AllKnown(p, imports, Starts(p, imports), es)
    requires IsLeafName(p, imports, Starts(p, imports), name) && HasName(es, name)
    ensures HoldsLeaf(es, name)
  {
    var e := es[At(es, name)];
    assert IsKnown(p, imports, Starts(p, imports), e);
    forall n | Reached(p, Starts(p, imports), n)
      ensures n.name != name
    {
    }
  }

  lemma {:induction false} WalkIsHeld(
    p: Project, imports: seq<EntryImport>, es: seq<Entry>, ns: seq<Node>, k: nat)
    requires KeysApart(p, imports) && AllKnown(p, imports, Starts(p, imports), es) && Ordered(p, es)
    requires FromStart(p, Starts(p, imports), ns) && HasName(es, ns[0].name) && k < |ns|
    ensures Holds(es, ns[k])
  {
    PrefixIsReached(p, Starts(p, imports), ns, k);
    if k > 0 {
      WalkIsHeld(p, imports, es, ns, k - 1);
      EdgeDescends(p, es, ns[k - 1], ns[k]);
    }
    NamedIsHeld(p, imports, es, ns[k]);
  }

  lemma EntryNodeIsNamed(p: Project, imports: seq<EntryImport>, es: seq<Entry>, n: Node)
    requires AllEntriesServed(p, es, imports) && n in EntryNodes(p, imports)
    ensures HasName(es, n.name)
  {
    var k :| 0 <= k < |imports| && IsSelf(imports[k].path) && EntryNode(p, imports[k]) == n;
    assert EntryServed(p, es, imports[k]);
  }

  /** With the keys apart, a bare entry import leaves the root loaded as the root. */
  lemma BareIsRoot(p: Project, imports: seq<EntryImport>, es: seq<Entry>)
    requires KeysApart(p, imports) && AllKnown(p, imports, Starts(p, imports), es)
    requires AllEntriesServed(p, es, imports) && HasBare(imports)
    ensures HasRoot(es)
  {
    var k :| 0 <= k < |imports| && IsBareSelf(imports[k].path);
    var n := EntryNode(p, imports[k]);
    assert n in EntryNodes(p, imports);
    EntryNodeIsNamed(p, imports, es, n);
    assert FromStart(p, Starts(p, imports), [n]) && [n][|[n]| - 1] == n;
    NamedIsHeld(p, imports, es, n);
  }

  lemma ApartCoversRoot(p: Project, imports: seq<EntryImport>)
    requires KeysApart(p, imports)
    ensures RootCovered(p, imports, Starts(p, imports))
  {
    var r := ResolveEntries(p, imports, Start);
    if r.Ok? && r.value.requested.Some? && !HasRoot(r.value.loaded) {
      assert imports[0..] == imports;
      EntriesRun(p, imports, EntryNodes(p, imports));
      var n :| IsAsker(p, EntryNodes(p, imports), n) && Label(n.path) == r.value.requested.value;
      EntriesRun(p, imports, Starts(p, imports));
      if HasBare(imports) {
        BareIsRoot(p, imports, r.value.loaded);
      }
    }
  }

  lemma StartIsNamed(p: Project, imports: seq<EntryImport>, mid: State, s: State, n: Node)
    requires KeysApart(p, imports) && imports[0..] == imports && n in Starts(p, imports)
    requires EntriesKept(p, imports, Starts(p, imports), 0, Start, mid)
    requires RootKept(p, imports, Starts(p, imports), mid, s)
    ensures HasName(s.loaded, n.name)
  {
    if n in EntryNodes(p, imports) {
      EntryNodeIsNamed(p, imports, mid.loaded, n);
      NamedLater(mid.loaded, s.loaded, n.name);
    } else {
      forall a | Reached(p, EntryNodes(p, imports), a)
        ensures Holds(s.loaded, a)
      {
        var ns: seq<Node> :| FromStart(p, EntryNodes(p, imports), ns) && ns[|ns| - 1] == a;
        assert FromStart(p, Starts(p, imports), ns);
        EntryNodeIsNamed(p, imports, mid.loaded, ns[0]);
        NamedLater(mid.loaded, s.loaded, ns[0].name);
        WalkIsHeld(p, imports, s.loaded, ns, |ns| - 1);
      }
      RightAsksRoot(p, imports, Starts(p, imports), mid, s);
    }
  }

  /** With the keys apart, a run that loads gives every import its module. */
  lemma ApartIsRight(p: Project, imports: seq<EntryImport>, s: State)
    requires KeysApart(p, imports) && Resolution(p, imports) == Ok(s)
    ensures AllRight(p, imports, s.loaded)
  {
    var starts := Starts(p, imports);
    ApartCoversRoot(p, imports);
    var mid := OkRun(p, imports, starts, s);
    forall n | Reached(p, starts, n)
      ensures Holds(s.loaded, n)
    {
      var ns: seq<Node> :| FromStart(p, starts, ns) && ns[|ns| - 1] == n;
      StartIsNamed(p, imports, mid, s, ns[0]);
      WalkIsHeld(p, imports, s.loaded, ns, |ns| - 1);
    }
    forall name | IsLeafName(p, imports, starts, name)
      ensures HoldsLeaf(s.loaded, name)
    {
      var t :| IsLeafImport(p, imports, starts, t) && t in p.leaves && name in p.leaves[t];
      LeafIsServed(p, imports, starts, mid, s, t);
      LeafIsHeld(p, imports, s.loaded, name);
    }
  }

  /** With the keys apart, an explained failure shows the project to be unsound. */
  lemma ExplainedIsUnsound(p: Project, imports: seq<EntryImport>, e: Problem)
    requires KeysApart(p, imports) && Explains(p, imports, Starts(p, imports), e)
    requires e.NoRootFile? ==> HasBare(imports) || RootAsked(p, imports)
    ensures if e.Circular? then HasCircle(p, Starts(p, imports)) else !IsLoadable(p, imports)
  {
    var starts := Starts(p, imports);
    if e.Circular? {
      var ns: seq<Node> :| FromStart(p, starts, ns) && MeetsKey(ns) && ns[|ns| - 1].path == e.path;
      var i :| 0 <= i < |ns| - 1 && ns[i].name == ns[|ns| - 1].name;
      PrefixIsReached(p, starts, ns, i);
      PrefixIsReached(p, starts, ns, |ns| - 1);
      assert ns[i] == ns[|ns| - 1];
      assert Returns(ns);
    }
  }

  /** With the keys apart, a run that fails shows the project to be unsound. */
  lemma FailureIsUnsound(p: Project, imports: seq<EntryImport>)
    requires KeysApart(p, imports) && Resolution(p, imports).Err?
    ensures if Resolution(p, imports).error.Circular? then HasCircle(p, Starts(p, imports)) else !IsLoadable(p, imports)
  {
    var starts := Starts(p, imports);
    var e := Resolution(p, imports).error;
    EntriesRun(p, imports, starts);
    var r := ResolveEntries(p, imports, Start);
    if r.Err? {
      ExplainedIsUnsound(p, imports, e);
    } else {
      ApartCoversRoot(p, imports);
      RootRun(p, imports, starts, r.value);
      RootFailsOnlyUnsound(p, imports, r.value, e);
      ExplainedIsUnsound(p, imports, e);
    }
  }

  lemma RootFailsOnlyUnsound(p: Project, imports: seq<EntryImport>, mid: State, e: Problem)
    requires KeysApart(p, imports) && RootCovered(p, imports, Starts(p, imports))
    requires ResolveEntries(p, imports, Start) == Ok(mid) && RootFails(p, imports, Starts(p, imports), mid, e)
    requires AllKnown(p, imports, Starts(p, imports), mid.loaded)
    ensures Explains(p, imports, Starts(p, imports), e) && RootAsked(p, imports)
  {
    var n := DefaultRoot(p);
    assert imports[0..] == imports;
    EntriesRun(p, imports, EntryNodes(p, imports));
    var asker :| IsAsker(p, EntryNodes(p, imports), asker) && Label(asker.path) == mid.requested.value;
    if HasName(mid.loaded, n.name) {
      assert FromStart(p, Starts(p, imports), [n]) && [n][|[n]| - 1] == n;
      NamedIsHeld(p, imports, mid.loaded, n);
    }
  }

  // ---------------------------------------------------------------- the main results

  /** Loading succeeds and gives every import its own module if and only if no two modules that can
      be met share a key and the project is sound. */
  lemma LoadsRightIff(p: Project, imports: seq<EntryImport>)
    ensures (Resolution(p, imports).Ok? && AllRight(p, imports, Resolution(p, imports).value.loaded))
      <==> (KeysApart(p, imports) && IsSound(p, imports))
  {
    var r := Resolution(p, imports);
    if r.Ok? && AllRight(p, imports, r.value.loaded) {
      RightIsApart(p, imports, r.value.loaded);
      RightIsSound(p, imports, r.value);
    }
    if KeysApart(p, imports) && IsSound(p, imports) {
      if r.Err? {
        FailureIsUnsound(p, imports);
      } else {
        ApartIsRight(p, imports, r.value);
      }
    }
  }

  /** A run that loads gives every import its own module exactly when the keys are apart. */
  lemma OkIsRightIffApart(p: Project, imports: seq<EntryImport>)
    requires Resolution(p, imports).Ok?
    ensures AllRight(p, imports, Resolution(p, imports).value.loaded) <==> KeysApart(p, imports)
  {
    var s := Resolution(p, imports).value;
    if AllRight(p, imports, s.loaded) {
      RightIsApart(p, imports, s.loaded);
    }
    if KeysApart(p, imports) {
      ApartIsRight(p, imports, s);
    }
  }

  /** With the keys apart a circular import is reported only when a walk comes back to a module, then
      loading always fails, and if nothing is missing it is reported exactly then. */
  lemma CircularIffCircle(p: Project, imports: seq<EntryImport>)
    requires KeysApart(p, imports)
    ensures var r := Resolution(p, imports);
      && (r.Err? && r.error.Circular? ==> HasCircle(p, Starts(p, imports)))
      && (HasCircle(p, Starts(p, imports)) ==> r.Err?)
      && (IsLoadable(p, imports) && HasCircle(p, Starts(p, imports)) ==> r.Err? && r.error.Circular?)
  {
    LoadsRightIff(p, imports);
    if Resolution(p, imports).Err? {
      FailureIsUnsound(p, imports);
    } else {
      ApartIsRight(p, imports, Resolution(p, imports).value);
    }
  }

  // ---------------------------------------------------------------- each module once

  /** If no package import met below a loading module carries its key, no key is taken twice. */
  lemma LoadsEachOnce(p: Project, imports: seq<EntryImport>, starts: set<Node>)
    requires Resolution(p, imports).Ok? && EntryNodes(p, imports) <= starts && RootCovered(p, imports, starts)
    requires LeavesApart(p, starts)
    ensures EachOnce(Resolution(p, imports).value.loaded)
  {
    var mid := OkRun(p, imports, starts, Resolution(p, imports).value);
  }

  lemma ApartKeepsLeavesApart(p: Project, imports: seq<EntryImport>)
    requires KeysApart(p, imports)
    ensures LeavesApart(p, Starts(p, imports))
  {
    var starts := Starts(p, imports);
    forall ns: seq<Node>, i: nat, t: Path
      ensures !LeafMeets(p, starts, ns, i, t)
    {
      if FromStart(p, starts, ns) && i < |ns| && !IsSelf(t) && Imports(p, ns[|ns| - 1].path, t) {
        PrefixIsReached(p, starts, ns, i);
        PrefixIsReached(p, starts, ns, |ns| - 1);
        assert IsLeafImport(p, imports, starts, t);
      }
    }
  }

  lemma KeyIsCanonical(p: Project, imports: seq<EntryImport>, n: Node)
    requires Reached(p, Starts(p, imports), n)
    ensures !n.root ==> n.name == Canonical(n.path, p.reserved)
  {
    var ns: seq<Node> :| FromStart(p, Starts(p, imports), ns) && ns[|ns| - 1] == n;
    assert |ns| > 1 ==> IsEdge(p, ns[|ns| - 2], n);
  }

  /** With the keys apart no key is taken twice, and no path is loaded twice, except that the root
      stands once for each key it is imported under. */
  lemma ApartLoadsEachOnce(p: Project, imports: seq<EntryImport>, i: nat, j: nat)
    requires Resolution(p, imports).Ok? && KeysApart(p, imports)
    ensures EachOnce(Resolution(p, imports).value.loaded)
    ensures var es := Resolution(p, imports).value.loaded;
      i < j < |es| && es[i].origin.OwnFile? && es[i].origin == es[j].origin ==> es[i].isRoot || es[j].isRoot
  {
    var starts := Starts(p, imports);
    var s := Resolution(p, imports).value;
    ApartCoversRoot(p, imports);
    ApartKeepsLeavesApart(p, imports);
    LoadsEachOnce(p, imports, starts);
    var mid := OkRun(p, imports, starts, s);
    var es := s.loaded;
    if i < j < |es| && es[i].origin.OwnFile? && es[i].origin == es[j].origin {
      assert IsKnown(p, imports, starts, es[i]) && IsKnown(p, imports, starts, es[j]);
      KeyIsCanonical(p, imports, NodeOf(es[i]));
      KeyIsCanonical(p, imports, NodeOf(es[j]));
      assert NoName(es, j) && es[..j][i] == es[i];
    }
  }

  // ---------------------------------------------------------------- when keys meet

  /** A key split at its dots. */
  function Segments(key: string): (path: Path)
    ensures path != []
  {
    if key == "" then [""]
    else
      var rest := Segments(key[1..]);
      if key[0] == '.' then [""] + rest else [[key[0]] + rest[0]] + rest[1..]
  }

  lemma {:induction false} SegmentsJoin(key: string)
    ensures IsPath(Segments(key)) && Join(Segments(key)) == key
  {
    if key != "" {
      SegmentsJoin(key[1..]);
      var rest := Segments(key[1..]);
      if key[0] == '.' {
        assert ([""] + rest)[1..] == rest;
        assert key == "" + "." + key[1..];
      } else {
        var all := [[key[0]] + rest[0]] + rest[1..];
        assert all[1..] == rest[1..];
        assert key == [key[0]] + key[1..];
        assert |rest| > 1 ==> [key[0]] + (rest[0] + "." + Join(rest[1..])) == ([key[0]] + rest[0]) + "." + Join(rest[1..]);
      }
    }
  }

  /** The root's key meets the key of `import self.<path>` exactly if, split at its dots, it is that path
      and not reserved, or that path behind a `self` when the path is reserved. So a key without a dot
      meets only the path of that one segment. */
  lemma RootKeyMeetsIff(p: Project, alias: Option<string>, path: Path)
    requires IsPath(path)
    ensures var key := RootName(p, alias);
      key == Canonical(path, p.reserved) <==>
        || (path == Segments(key) && key !in p.reserved)
        || ([SELF] + path == Segments(key) && Join(path) in p.reserved)
    ensures var key := RootName(p, alias);
      '.' !in key ==> (key == Canonical(path, p.reserved) <==> path == [key] && key !in p.reserved)
  {
    var key := RootName(p, alias);
    SegmentsJoin(key);
    var at := Segments(key);
    LeadingSelf(at, path);
    if Join(path) == key {
      JoinInjective(at, path);
    }
    JoinHasDot(path);
    if '.' !in key {
      assert (SELF + "." + Join(path))[|SELF|] == '.';
      if key == Join(path) {
        assert path == [path[0]];
      }
    }
  }
}
