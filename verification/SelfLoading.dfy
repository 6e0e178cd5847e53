/** What every load of a project's modules keeps, in terms of the keys the loader tests: imports
    stand before their importer, what is loaded is reached or a leaf, and an error is justified by a
    walk of the import graph. */
module SelfLoading {
  import opened Options
  import opened SelfModules

  // ---------------------------------------------------------------- the import graph

  predicate Imports(p: Project, path: Path, target: Path) {
    Opens(p, path) && target in ImportsOf(p, path)
  }

  /** `import self.x`: the only kind of edge. A bare `import self` is none. */
  predicate IsEdge(p: Project, a: Node, b: Node) {
    b.path != [] && !b.root && Imports(p, a.path, [SELF] + b.path) && b.name == Canonical(b.path, p.reserved)
  }

  predicate FromStart(p: Project, starts: set<Node>, ns: seq<Node>) {
    ns != [] && ns[0] in starts && forall i :: 0 < i < |ns| ==> IsEdge(p, ns[i - 1], ns[i])
  }

  ghost predicate Reached(p: Project, starts: set<Node>, n: Node) {
    exists ns: seq<Node> :: FromStart(p, starts, ns) && ns[|ns| - 1] == n
  }

  /** The walk ends at a module it has been to. */
  predicate Returns(ns: seq<Node>) {
    ns != [] && exists i :: 0 <= i < |ns| - 1 && ns[i].path == ns[|ns| - 1].path
  }

  /** The walk ends at a key it has met: what the loader tests. */
  predicate MeetsKey(ns: seq<Node>) {
    ns != [] && exists i :: 0 <= i < |ns| - 1 && ns[i].name == ns[|ns| - 1].name
  }

  ghost predicate HasCircle(p: Project, starts: set<Node>) {
    exists ns: seq<Node> :: FromStart(p, starts, ns) && Returns(ns)
  }

  lemma PrefixIsReached(p: Project, starts: set<Node>, ns: seq<Node>, i: nat)
    requires FromStart(p, starts, ns) && i < |ns|
    ensures Reached(p, starts, ns[i])
  {
    assert FromStart(p, starts, ns[..i + 1]) && ns[..i + 1][i] == ns[i];
  }

  lemma WalkOn(p: Project, starts: set<Node>, ns: seq<Node>, n: Node)
    requires FromStart(p, starts, ns) && IsEdge(p, ns[|ns| - 1], n)
    ensures FromStart(p, starts, ns + [n])
  {
  }

  lemma ReachedFromMore(p: Project, starts: set<Node>, more: set<Node>, n: Node)
    requires Reached(p, starts, n) && starts <= more
    ensures Reached(p, more, n)
  {
    var ns :| FromStart(p, starts, ns) && ns[|ns| - 1] == n;
    assert FromStart(p, more, ns);
  }

  // ---------------------------------------------------------------- what a resolution can meet

  function EntryNodes(p: Project, imports: seq<EntryImport>): set<Node> {
    set k | 0 <= k < |imports| && IsSelf(imports[k].path) :: EntryNode(p, imports[k])
  }

  predicate HasBare(imports: seq<EntryImport>) {
    exists k :: 0 <= k < |imports| && IsBareSelf(imports[k].path)
  }

  /** A module the entry program reaches holds a bare `import self`. */
  ghost predicate IsAsker(p: Project, starts: set<Node>, n: Node) {
    Reached(p, starts, n) && Imports(p, n.path, [SELF])
  }

  ghost predicate RootAsked(p: Project, imports: seq<EntryImport>) {
    exists n :: IsAsker(p, EntryNodes(p, imports), n)
  }

  /** The modules whose loads are begun: those the entry imports, and the root if it does not import
      that itself and a module asks for it. */
  ghost function Starts(p: Project, imports: seq<EntryImport>): set<Node> {
    EntryNodes(p, imports) + (if !HasBare(imports) && RootAsked(p, imports) then {DefaultRoot(p)} else {})
  }

  /** A package or stdlib import that the entry program or a reached module holds. */
  ghost predicate IsLeafImport(p: Project, imports: seq<EntryImport>, starts: set<Node>, target: Path) {
    && !IsSelf(target)
    && ((exists k :: 0 <= k < |imports| && imports[k].path == target)
        || exists n :: Reached(p, starts, n) && Imports(p, n.path, target))
  }

  ghost predicate IsLeafName(p: Project, imports: seq<EntryImport>, starts: set<Node>, name: string) {
    exists t :: IsLeafImport(p, imports, starts, t) && t in p.leaves && name in p.leaves[t]
  }

  // ---------------------------------------------------------------- what every load keeps, by key

  /** The keys that `target` stands for are taken. */
  predicate IsServed(p: Project, es: seq<Entry>, target: Path) {
    if IsBareSelf(target) then true
    else if IsSelf(target) then HasName(es, SelfNode(p, target).name)
    else target in p.leaves && forall n :: n in p.leaves[target] ==> HasName(es, n)
  }

  predicate AllServed(p: Project, es: seq<Entry>, targets: seq<Path>) {
    forall t :: t in targets ==> IsServed(p, es, t)
  }

  predicate IsPlaced(p: Project, es: seq<Entry>, i: nat)
    requires i < |es| && es[i].origin.OwnFile?
  {
    && Opens(p, es[i].origin.path)
    && AllServed(p, es[..i], ImportsOf(p, es[i].origin.path))
  }

  /** What every module imports stands before it. */
  ghost predicate Ordered(p: Project, es: seq<Entry>) {
    forall i {:trigger IsPlaced(p, es, i)} :: 0 <= i < |es| && es[i].origin.OwnFile? ==> IsPlaced(p, es, i)
  }

  function NodeOf(e: Entry): Node
    requires e.origin.OwnFile?
  {
    Node(e.name, e.origin.path, e.isRoot)
  }

  /** Where an entry comes from: a reached module or a leaf import, the root only by a bare import. */
  ghost predicate IsKnown(p: Project, imports: seq<EntryImport>, starts: set<Node>, e: Entry) {
    if e.origin.OwnFile? then Reached(p, starts, NodeOf(e)) else IsLeafName(p, imports, starts, e.name)
  }

  ghost predicate AllKnown(p: Project, imports: seq<EntryImport>, starts: set<Node>, es: seq<Entry>) {
    forall i {:trigger IsKnown(p, imports, starts, es[i])} ::
      0 <= i < |es| ==> IsKnown(p, imports, starts, es[i])
  }

  predicate AsksRoot(p: Project, e: Entry) {
    e.origin.OwnFile? && Imports(p, e.origin.path, [SELF])
  }

  /** The root is asked for exactly when a module with a bare `import self` is met. */
  ghost predicate RootNoted(p: Project, starts: set<Node>, st: State) {
    && (forall i :: 0 <= i < |st.loaded| && AsksRoot(p, st.loaded[i]) ==> st.requested.Some?)
    && (st.requested.Some? ==> exists n :: IsAsker(p, starts, n) && Label(n.path) == st.requested.value)
  }

  ghost predicate Good(p: Project, imports: seq<EntryImport>, starts: set<Node>, st: State) {
    Ordered(p, st.loaded) && AllKnown(p, imports, starts, st.loaded) && RootNoted(p, starts, st)
  }

  /** A leaf import below a module of the walk carries that module's key. */
  ghost predicate LeafMeets(p: Project, starts: set<Node>, ns: seq<Node>, i: nat, t: Path)
  {
    && FromStart(p, starts, ns) && i < |ns| && !IsSelf(t) && Imports(p, ns[|ns| - 1].path, t)
    && t in p.leaves && ns[i].name in p.leaves[t]
  }

  /** No package import that is met while a module is loading carries that module's key. */
  ghost predicate LeavesApart(p: Project, starts: set<Node>) {
    forall ns, i, t :: !LeafMeets(p, starts, ns, i, t)
  }

  predicate NoName(es: seq<Entry>, i: nat)
    requires i < |es|
  {
    !HasName(es[..i], es[i].name)
  }

  ghost predicate EachOnce(es: seq<Entry>) {
    forall i {:trigger NoName(es, i)} :: 0 <= i < |es| ==> NoName(es, i)
  }

  /** With the leaves apart, no key is taken twice. */
  ghost predicate Distinct(p: Project, starts: set<Node>, es: seq<Entry>, loading: set<string>) {
    LeavesApart(p, starts) ==> EachOnce(es) && forall n :: n in loading ==> !HasName(es, n)
  }

  /** What a load makes of the state it starts from. */
  ghost predicate Keeps(
    p: Project, imports: seq<EntryImport>, starts: set<Node>, st: State, loading: set<string>, isRoot: bool, s: State)
  {
    && Good(p, imports, starts, s) && Distinct(p, starts, s.loaded, loading)
    && st.loaded <= s.loaded
    && (st.requested.Some? ==> s.requested.Some?)
    && (HasRoot(s.loaded) ==> HasRoot(st.loaded) || isRoot)
  }

  // ---------------------------------------------------------------- what an error is right about, by key

  ghost predicate IsKeyMet(p: Project, starts: set<Node>, path: Path) {
    exists ns: seq<Node> :: FromStart(p, starts, ns) && MeetsKey(ns) && ns[|ns| - 1].path == path
  }

  ghost predicate IsUnopened(p: Project, starts: set<Node>, path: Path) {
    !Opens(p, path) && exists n :: Reached(p, starts, n) && n.path == path
  }

  ghost predicate Blames(p: Project, imports: seq<EntryImport>, starts: set<Node>, e: Problem) {
    match e
    case Circular(path) => IsKeyMet(p, starts, path)
    case NoSuchModule(path) => IsUnopened(p, starts, path) && FileOf(p, path).None?
    case DoesNotParse(path) => IsUnopened(p, starts, path) && FileOf(p, path).Some?
    case LeafFailed(target) => IsLeafImport(p, imports, starts, target) && target !in p.leaves
    case _ => false
  }

  // ---------------------------------------------------------------- steps

  lemma NamedLater(es: seq<Entry>, more: seq<Entry>, name: string)
    requires HasName(es, name) && es <= more
    ensures HasName(more, name)
  {
    var i :| 0 <= i < |es| && es[i].name == name;
    assert more[i].name == name;
  }

  lemma ServedLater(p: Project, es: seq<Entry>, more: seq<Entry>, target: Path)
    requires IsServed(p, es, target) && es <= more
    ensures IsServed(p, more, target)
  {
    if !IsBareSelf(target) && IsSelf(target) {
      NamedLater(es, more, SelfNode(p, target).name);
    } else if !IsBareSelf(target) {
      forall n | n in p.leaves[target]
        ensures HasName(more, n)
      {
        NamedLater(es, more, n);
      }
    }
  }

  lemma HasNameAdd(es: seq<Entry>, e: Entry, name: string)
    ensures HasName(es + [e], name) <==> HasName(es, name) || e.name == name
    ensures HasRoot(es + [e]) <==> HasRoot(es) || e.isRoot
  {
    var more := es + [e];
    assert more[|es|] == e;
    if HasName(es, name) {
      NamedLater(es, more, name);
    }
    if HasRoot(es) {
      var i :| 0 <= i < |es| && es[i].isRoot;
      assert more[i].isRoot;
    }
  }

  lemma PlaceDistinct(p: Project, starts: set<Node>, es: seq<Entry>, loading: set<string>, e: Entry)
    requires Distinct(p, starts, es, loading)
    requires LeavesApart(p, starts) ==> !HasName(es, e.name) && e.name !in loading
    ensures Distinct(p, starts, es + [e], loading)
  {
    if LeavesApart(p, starts) {
      var more := es + [e];
      forall i | 0 <= i < |more|
        ensures NoName(more, i)
      {
        assert more[..i] == if i < |es| then es[..i] else es;
        assert i < |es| ==> NoName(es, i);
      }
      forall n | n in loading
        ensures !HasName(more, n)
      {
        HasNameAdd(es, e, n);
      }
    }
  }

  /** One more entry goes after the others. */
  lemma PlaceOne(p: Project, imports: seq<EntryImport>, starts: set<Node>, st: State, e: Entry)
    requires Good(p, imports, starts, st) && IsKnown(p, imports, starts, e)
    requires e.origin.OwnFile? ==>
      && Opens(p, e.origin.path) && AllServed(p, st.loaded, ImportsOf(p, e.origin.path))
      && ([SELF] in ImportsOf(p, e.origin.path) ==> st.requested.Some?)
    ensures Good(p, imports, starts, st.(loaded := st.loaded + [e]))
  {
    var es, more := st.loaded, st.loaded + [e];
    hide AllServed;
    hide IsKnown;
    forall i | 0 <= i < |more|
      ensures more[i].origin.OwnFile? ==> IsPlaced(p, more, i)
      ensures IsKnown(p, imports, starts, more[i])
      ensures AsksRoot(p, more[i]) ==> st.requested.Some?
    {
      assert more[..i] == if i < |es| then es[..i] else es;
      if i < |es| {
        assert more[i] == es[i];
        assert es[i].origin.OwnFile? ==> IsPlaced(p, es, i);
        assert IsKnown(p, imports, starts, es[i]);
      }
    }
  }

  /** The leaves of one import. */
  lemma {:induction false} LeavesKeep(
    p: Project, imports: seq<EntryImport>, starts: set<Node>, st: State, loading: set<string>, names: seq<string>)
    requires Good(p, imports, starts, st) && Distinct(p, starts, st.loaded, loading)
    requires forall n :: n in names ==> IsLeafName(p, imports, starts, n)
    requires LeavesApart(p, starts) ==> forall n :: n in names ==> n !in loading
    ensures var s := st.(loaded := AddLeaves(st.loaded, names));
      Keeps(p, imports, starts, st, loading, false, s) && forall n :: n in names ==> HasName(s.loaded, n)
    decreases |names|
  {
    if names != [] {
      var e := Entry(names[0], Leaf, false);
      var next := if HasName(st.loaded, names[0]) then st else st.(loaded := st.loaded + [e]);
      assert names[0] in names && names == [names[0]] + names[1..];
      if next != st {
        PlaceOne(p, imports, starts, st, e);
        PlaceDistinct(p, starts, st.loaded, loading, e);
      }
      HasNameAdd(st.loaded, e, names[0]);
      hide Good;
      hide Distinct;
      hide LeavesApart;
      hide IsLeafName;
      LeavesKeep(p, imports, starts, next, loading, names[1..]);
      NamedLater(next.loaded, AddLeaves(next.loaded, names[1..]), names[0]);
    }
  }

  /** A package import of the entry program, where nothing is loading, or of the last module of a
      walk whose keys are loading. */
  lemma NamedKeeps(
    p: Project, imports: seq<EntryImport>, starts: set<Node>, st: State, loading: set<string>, target: Path)
    requires Good(p, imports, starts, st) && Distinct(p, starts, st.loaded, loading)
    requires IsLeafImport(p, imports, starts, target)
    requires LeavesApart(p, starts) && target in p.leaves ==> forall n :: n in p.leaves[target] ==> n !in loading
    ensures match LoadNamedAt(p, target, st)
      case Ok(s) => Keeps(p, imports, starts, st, loading, false, s) && IsServed(p, s.loaded, target)
      case Err(e) => Blames(p, imports, starts, e)
  {
    if target in p.leaves {
      forall n | n in p.leaves[target]
        ensures IsLeafName(p, imports, starts, n)
      {
      }
      LeavesKeep(p, imports, starts, st, loading, p.leaves[target]);
    }
  }

  /** The modules under load, outermost first, hold the keys under load. */
  ghost predicate OnStack(stack: seq<Node>, loading: set<string>) {
    loading == (set i | 0 <= i < |stack| :: stack[i].name)
  }

  lemma StackGrows(stack: seq<Node>, loading: set<string>, n: Node)
    requires OnStack(stack, loading)
    ensures OnStack(stack + [n], loading + {n.name})
  {
    var more := stack + [n];
    forall x | x in loading + {n.name}
      ensures exists i :: 0 <= i < |more| && more[i].name == x
    {
      if x in loading {
        var i :| 0 <= i < |stack| && stack[i].name == x;
        assert more[i].name == x;
      } else {
        assert more[|stack|].name == x;
      }
    }
  }

  lemma StackMeets(
    p: Project, imports: seq<EntryImport>, starts: set<Node>, stack: seq<Node>, loading: set<string>, n: Node)
    requires OnStack(stack, loading) && FromStart(p, starts, stack + [n])
    ensures Reached(p, starts, n)
    ensures n.name in loading ==> Blames(p, imports, starts, Circular(n.path))
    ensures !Opens(p, n.path) ==> Blames(p, imports, starts, Unopened(p, n.path))
  {
    var ns := stack + [n];
    assert ns[|ns| - 1] == n;
    if n.name in loading {
      var i :| 0 <= i < |stack| && stack[i].name == n.name;
      assert ns[i].name == ns[|ns| - 1].name;
    }
  }

  /** A leaf import of the last module of the stack. */
  lemma StackLeaf(
    p: Project, imports: seq<EntryImport>, starts: set<Node>, stack: seq<Node>, loading: set<string>, t: Path)
    requires OnStack(stack, loading) && FromStart(p, starts, stack)
    requires !IsSelf(t) && Imports(p, stack[|stack| - 1].path, t)
    ensures IsLeafImport(p, imports, starts, t)
    ensures LeavesApart(p, starts) && t in p.leaves ==> forall n :: n in p.leaves[t] ==> n !in loading
  {
    PrefixIsReached(p, starts, stack, |stack| - 1);
    if LeavesApart(p, starts) && t in p.leaves {
      forall n | n in loading
        ensures n !in p.leaves[t]
      {
        var i :| 0 <= i < |stack| && stack[i].name == n;
        assert !LeafMeets(p, starts, stack, i, t);
      }
    }
  }

  lemma KeepsOn(
    p: Project, imports: seq<EntryImport>, starts: set<Node>, st: State, loading: set<string>, mid: State, root: bool,
    s: State)
    requires Keeps(p, imports, starts, st, loading, false, mid) && Keeps(p, imports, starts, mid, loading, root, s)
    ensures Keeps(p, imports, starts, st, loading, root, s)
  {
    hide Good;
    hide Distinct;
  }

  lemma {:induction false} SelfKeeps(
    p: Project, imports: seq<EntryImport>, starts: set<Node>, top: string, n: Node, st: State,
    loading: set<string>, stack: seq<Node>)
    requires IsKeyed(p, top, n) && Good(p, imports, starts, st) && Distinct(p, starts, st.loaded, loading)
    requires OnStack(stack, loading) && FromStart(p, starts, stack + [n])
    ensures match LoadSelfAt(p, top, n, st, loading)
      case Ok(s) => Keeps(p, imports, starts, st, loading, n.root, s) && HasName(s.loaded, n.name)
        && (n.root && !HasName(st.loaded, n.name) ==> HasRoot(s.loaded))
      case Err(e) => Blames(p, imports, starts, e)
    decreases Room(p, top, loading), 0, 0
  {
    StackMeets(p, imports, starts, stack, loading, n);
    if !HasName(st.loaded, n.name) && n.name !in loading && Opens(p, n.path) {
      var inner := loading + {n.name};
      RoomShrinks(p, top, loading, n);
      StackGrows(stack, loading, n);
      EntersDistinct(p, starts, st.loaded, loading, n.name);
      assert (stack + [n])[|stack + [n]| - 1] == n;
      ImportsKeep(p, imports, starts, top, n.path, ImportsOf(p, n.path), st, inner, stack + [n]);
      var r := LoadImportsAt(p, top, n.path, ImportsOf(p, n.path), st, inner);
      if r.Ok? {
        Finishes(p, imports, starts, n, st, loading, r.value);
      }
    }
  }

  lemma EntersDistinct(p: Project, starts: set<Node>, es: seq<Entry>, loading: set<string>, name: string)
    requires Distinct(p, starts, es, loading) && !HasName(es, name)
    ensures Distinct(p, starts, es, loading + {name})
  {
  }

  /** The module's imports are loaded: so is it. */
  lemma Finishes(
    p: Project, imports: seq<EntryImport>, starts: set<Node>, n: Node, st: State, loading: set<string>,
    s: State)
    requires Keeps(p, imports, starts, st, loading + {n.name}, false, s) && n.name !in loading
    requires Reached(p, starts, n) && Opens(p, n.path) && AllServed(p, s.loaded, ImportsOf(p, n.path))
    requires [SELF] in ImportsOf(p, n.path) ==> s.requested.Some?
    ensures var done := s.(loaded := s.loaded + [Entry(n.name, OwnFile(n.path), n.root)]);
      Keeps(p, imports, starts, st, loading, n.root, done) && HasName(done.loaded, n.name)
      && (n.root ==> HasRoot(done.loaded))
  {
    var e := Entry(n.name, OwnFile(n.path), n.root);
    assert NodeOf(e) == n;
    PlaceOne(p, imports, starts, s, e);
    LeavesDistinct(p, starts, s.loaded, loading, n.name);
    PlaceDistinct(p, starts, s.loaded, loading, e);
    HasNameAdd(s.loaded, e, n.name);
    hide Good;
    hide Distinct;
  }

  lemma LeavesDistinct(p: Project, starts: set<Node>, es: seq<Entry>, loading: set<string>, name: string)
    requires Distinct(p, starts, es, loading + {name})
    ensures Distinct(p, starts, es, loading)
    ensures LeavesApart(p, starts) ==> !HasName(es, name)
  {
  }

  lemma {:induction false} ImportsKeep(
    p: Project, imports: seq<EntryImport>, starts: set<Node>, top: string, path: Path, targets: seq<Path>, st: State,
    loading: set<string>, stack: seq<Node>)
    requires Good(p, imports, starts, st) && Distinct(p, starts, st.loaded, loading)
    requires OnStack(stack, loading) && FromStart(p, starts, stack) && stack[|stack| - 1].path == path
    requires Opens(p, path) && forall t :: t in targets ==> t in ImportsOf(p, path)
    ensures match LoadImportsAt(p, top, path, targets, st, loading)
      case Ok(s) => Keeps(p, imports, starts, st, loading, false, s) && AllServed(p, s.loaded, targets)
        && ([SELF] in targets ==> s.requested.Some?)
      case Err(e) => Blames(p, imports, starts, e)
    decreases Room(p, top, loading), 2, |targets|
  {
    if targets != [] {
      assert targets == [targets[0]] + targets[1..] && targets[0] in targets;
      ImportKeeps(p, imports, starts, top, path, targets[0], st, loading, stack);
      var one := LoadImportAt(p, top, path, targets[0], st, loading);
      if one.Ok? {
        KeptState(p, imports, starts, st, loading, false, one.value);
        ImportsKeep(p, imports, starts, top, path, targets[1..], one.value, loading, stack);
        var rest := LoadImportsAt(p, top, path, targets[1..], one.value, loading);
        if rest.Ok? {
          KeepsOn(p, imports, starts, st, loading, one.value, false, rest.value);
          OneAndRest(p, imports, starts, one.value, loading, rest.value, targets);
        }
      }
    }
  }

  lemma KeptState(
    p: Project, imports: seq<EntryImport>, starts: set<Node>, st: State, loading: set<string>, isRoot: bool, s: State)
    requires Keeps(p, imports, starts, st, loading, isRoot, s)
    ensures Good(p, imports, starts, s) && Distinct(p, starts, s.loaded, loading)
  {
  }

  lemma OneAndRest(
    p: Project, imports: seq<EntryImport>, starts: set<Node>, mid: State, loading: set<string>, s: State,
    targets: seq<Path>)
    requires targets != [] && IsServed(p, mid.loaded, targets[0]) && AllServed(p, s.loaded, targets[1..])
    requires Keeps(p, imports, starts, mid, loading, false, s)
    ensures AllServed(p, s.loaded, targets)
  {
    ServedLater(p, mid.loaded, s.loaded, targets[0]);
    assert targets == [targets[0]] + targets[1..];
    hide IsServed;
  }

  lemma {:induction false} ImportKeeps(
    p: Project, imports: seq<EntryImport>, starts: set<Node>, top: string, path: Path, target: Path, st: State,
    loading: set<string>, stack: seq<Node>)
    requires Good(p, imports, starts, st) && Distinct(p, starts, st.loaded, loading)
    requires OnStack(stack, loading) && FromStart(p, starts, stack) && stack[|stack| - 1].path == path
    requires Imports(p, path, target)
    ensures match LoadImportAt(p, top, path, target, st, loading)
      case Ok(s) => Keeps(p, imports, starts, st, loading, false, s) && IsServed(p, s.loaded, target)
        && (IsBareSelf(target) ==> s.requested.Some?)
      case Err(e) => Blames(p, imports, starts, e)
    decreases Room(p, top, loading), 1, 0
  {
    if !IsSelf(target) {
      StackLeaf(p, imports, starts, stack, loading, target);
      NamedKeeps(p, imports, starts, st, loading, target);
    } else if IsBareSelf(target) {
      PrefixIsReached(p, starts, stack, |stack| - 1);
      AskKeeps(p, imports, starts, st, loading, stack[|stack| - 1]);
    } else {
      var n := SelfNode(p, target);
      assert target == [SELF] + n.path;
      WalkOn(p, starts, stack, n);
      SelfKeeps(p, imports, starts, top, n, st, loading, stack);
    }
  }

  lemma AskKeeps(
    p: Project, imports: seq<EntryImport>, starts: set<Node>, st: State, loading: set<string>, n: Node)
    requires Good(p, imports, starts, st) && Distinct(p, starts, st.loaded, loading) && IsAsker(p, starts, n)
    ensures var s := st.(requested := if st.requested.None? then Some(Label(n.path)) else st.requested);
      Keeps(p, imports, starts, st, loading, false, s)
  {
    hide IsAsker;
  }

  // ---------------------------------------------------------------- the entry program

  /** What a failed entry import or root load is right about. */
  ghost predicate Explains(p: Project, imports: seq<EntryImport>, starts: set<Node>, e: Problem) {
    || Blames(p, imports, starts, e)
    || (e.NoProject? && !p.hasManifest && starts != {})
    || (e.NoRootFile? && !HasRootFile(p))
  }

  lemma EntryKeeps(
    p: Project, imports: seq<EntryImport>, starts: set<Node>, e: EntryImport, st: State)
    requires Good(p, imports, starts, st) && Distinct(p, starts, st.loaded, {})
    requires IsSelf(e.path) && EntryNode(p, e) in starts
    ensures match ResolveSelfAt(p, e, st)
      case Ok(s) => Keeps(p, imports, starts, st, {}, IsBareSelf(e.path), s) && HasName(s.loaded, EntryNode(p, e).name)
        && (IsBareSelf(e.path) && !HasName(st.loaded, EntryNode(p, e).name) ==> HasRoot(s.loaded))
        && (IsBareSelf(e.path) ==> p.hasManifest && HasRootFile(p))
        && (!p.hasManifest ==> s == st)
      case Err(x) => Explains(p, imports, starts, x) && (x.NoRootFile? ==> IsBareSelf(e.path))
  {
    var n := EntryNode(p, e);
    assert [] + [n] == [n] && FromStart(p, starts, [n]);
    SelfKeeps(p, imports, starts, n.name, n, st, {}, []);
    hide Good;
    hide Distinct;
    hide FromStart;
    hide LoadSelfAt;
  }

  predicate EntryServed(p: Project, es: seq<Entry>, e: EntryImport) {
    if IsSelf(e.path) then HasName(es, EntryNode(p, e).name) else IsServed(p, es, e.path)
  }

  ghost predicate AllEntriesServed(p: Project, es: seq<Entry>, imports: seq<EntryImport>) {
    forall k {:trigger EntryServed(p, es, imports[k])} :: 0 <= k < |imports| ==> EntryServed(p, es, imports[k])
  }

  lemma EntryServedLater(p: Project, es: seq<Entry>, more: seq<Entry>, e: EntryImport)
    requires es <= more && EntryServed(p, es, e)
    ensures EntryServed(p, more, e)
  {
    if IsSelf(e.path) {
      NamedLater(es, more, EntryNode(p, e).name);
    } else {
      ServedLater(p, es, more, e.path);
    }
  }

  predicate AllLeaves(es: seq<Entry>) {
    forall i :: 0 <= i < |es| ==> es[i].origin.Leaf?
  }

  /** What the entry's imports from position `k` on make of the state. */
  ghost predicate EntriesKept(
    p: Project, imports: seq<EntryImport>, starts: set<Node>, k: nat, st: State, s: State)
    requires k <= |imports|
  {
    && Good(p, imports, starts, s) && Distinct(p, starts, s.loaded, {}) && st.loaded <= s.loaded
    && AllEntriesServed(p, s.loaded, imports[k..])
    && (HasBare(imports[k..]) ==> p.hasManifest && HasRootFile(p))
    && (!p.hasManifest && AllLeaves(st.loaded) ==> AllLeaves(s.loaded))
    && (HasRoot(s.loaded) ==> HasRoot(st.loaded) || HasBare(imports[k..]))
  }

  lemma {:induction false} EntriesKeep(p: Project, imports: seq<EntryImport>, starts: set<Node>, k: nat, st: State)
    requires k <= |imports| && EntryNodes(p, imports) <= starts
    requires Good(p, imports, starts, st) && Distinct(p, starts, st.loaded, {})
    ensures match ResolveEntries(p, imports[k..], st)
      case Ok(s) => EntriesKept(p, imports, starts, k, st, s)
      case Err(e) => Explains(p, imports, starts, e) && (e.NoRootFile? ==> HasBare(imports))
    decreases |imports| - k
  {
    if k < |imports| {
      assert imports[k..][0] == imports[k] && imports[k..][1..] == imports[k + 1..];
      OneEntryKeeps(p, imports, starts, k, st);
      var one := OneEntry(p, imports[k], st);
      if one.Ok? {
        OneEntryState(p, imports, starts, k, st, one.value);
        EntriesKeep(p, imports, starts, k + 1, one.value);
        var rest := ResolveEntries(p, imports[k + 1..], one.value);
        if rest.Ok? {
          EntriesOn(p, imports, starts, k, st, one.value, rest.value);
        }
      }
      hide EntriesKept;
      hide OneEntryKept;
      hide Explains;
    }
  }

  function OneEntry(p: Project, e: EntryImport, st: State): Result<State, Problem> {
    if IsSelf(e.path) then ResolveSelfAt(p, e, st) else LoadNamedAt(p, e.path, st)
  }

  ghost predicate OneEntryKept(
    p: Project, imports: seq<EntryImport>, starts: set<Node>, e: EntryImport, st: State, s: State)
  {
    && Keeps(p, imports, starts, st, {}, IsBareSelf(e.path), s) && EntryServed(p, s.loaded, e)
    && (IsBareSelf(e.path) ==> p.hasManifest && HasRootFile(p))
    && (!p.hasManifest && AllLeaves(st.loaded) ==> AllLeaves(s.loaded))
  }

  lemma OneEntryState(p: Project, imports: seq<EntryImport>, starts: set<Node>, k: nat, st: State, s: State)
    requires k < |imports| && OneEntryKept(p, imports, starts, imports[k], st, s)
    ensures Good(p, imports, starts, s) && Distinct(p, starts, s.loaded, {})
  {
  }

  lemma OneEntryKeeps(p: Project, imports: seq<EntryImport>, starts: set<Node>, k: nat, st: State)
    requires k < |imports| && EntryNodes(p, imports) <= starts
    requires Good(p, imports, starts, st) && Distinct(p, starts, st.loaded, {})
    ensures match OneEntry(p, imports[k], st)
      case Ok(s) => OneEntryKept(p, imports, starts, imports[k], st, s)
      case Err(e) => Explains(p, imports, starts, e) && (e.NoRootFile? ==> HasBare(imports))
  {
    var e := imports[k];
    if IsSelf(e.path) {
      assert EntryNode(p, e) in EntryNodes(p, imports);
      EntryKeeps(p, imports, starts, e, st);
    } else {
      NamedKeeps(p, imports, starts, st, {}, e.path);
      if e.path in p.leaves && AllLeaves(st.loaded) {
        LeavesStay(st.loaded, p.leaves[e.path]);
      }
    }
  }

  lemma {:induction false} LeavesStay(es: seq<Entry>, names: seq<string>)
    requires AllLeaves(es)
    ensures AllLeaves(AddLeaves(es, names))
    decreases |names|
  {
    if names != [] {
      LeavesStay(if HasName(es, names[0]) then es else es + [Entry(names[0], Leaf, false)], names[1..]);
    }
  }

  lemma EntriesOn(p: Project, imports: seq<EntryImport>, starts: set<Node>, k: nat, st: State, mid: State, s: State)
    requires k < |imports| && OneEntryKept(p, imports, starts, imports[k], st, mid)
    requires EntriesKept(p, imports, starts, k + 1, mid, s)
    ensures EntriesKept(p, imports, starts, k, st, s)
  {
    EntryServedLater(p, mid.loaded, s.loaded, imports[k]);
    var now, next := imports[k..], imports[k + 1..];
    assert now == [imports[k]] + next;
    forall i | 0 <= i < |now|
      ensures EntryServed(p, s.loaded, now[i])
    {
      assert i > 0 ==> now[i] == next[i - 1] && EntryServed(p, s.loaded, next[i - 1]);
    }
    assert HasBare(now) <==> IsBareSelf(imports[k].path) || HasBare(next) by {
      if HasBare(next) {
        var i :| 0 <= i < |next| && IsBareSelf(next[i].path);
        assert now[i + 1] == next[i];
      }
      assert now[0] == imports[k];
    }
    hide EntryServed;
    hide Good;
    hide Distinct;
  }
}
