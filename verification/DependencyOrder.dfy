/** When a dependency walk succeeds whatever order the manifests list their dependencies in: exactly
    when everything reachable passes its owner check and can be fetched, the keys fit the count
    budget, and no chain of different keys is longer than the depth budget. */
module DependencyOrder {
  import opened Options
  import opened DependencyWalk
  import opened DependencySelection

  // ---------------------------------------------------------------- reorderings

  ghost predicate SameCheckout(a: Option<Checkout>, b: Option<Checkout>) {
    match (a, b)
    case (None, None) => true
    case (Some(c), Some(d)) =>
      c.dir == d.dir && c.commit == d.commit && c.name == d.name && multiset(c.deps) == multiset(d.deps)
    case _ => false
  }

  /** `u` is `w` with the dependencies of its manifests listed in another order. */
  ghost predicate IsReordering(w: World, u: World) {
    && w.parse == u.parse && w.owner == u.owner && w.trusted == u.trusted
    && w.countLimit == u.countLimit && w.depthLimit == u.depthLimit
    && forall d {:trigger w.fetch(d)} {:trigger u.fetch(d)} :: SameCheckout(w.fetch(d), u.fetch(d))
  }

  lemma ReorderingIsReordered(w: World, u: World)
    requires IsReordering(w, u)
    ensures Reordered(w, u) && IsReordering(u, w)
  {
    forall d
      ensures FiledUnder(w, d) == FiledUnder(u, d)
      ensures multiset(Requirements(w, d)) == multiset(Requirements(u, d))
    {
      assert SameCheckout(w.fetch(d), u.fetch(d));
    }
  }

  // ---------------------------------------------------------------- what is asked of a world

  ghost predicate Passes(w: World, d: Dep) {
    OwnerPasses(w, d) && w.fetch(d).Some?
  }

  ghost predicate AllPass(w: World, roots: seq<Dep>) {
    forall d {:trigger Passes(w, d)} :: Reachable(w, roots, d) ==> Passes(w, d)
  }

  ghost predicate HoldsKeys(w: World, roots: seq<Dep>, keys: set<string>) {
    forall d :: Reachable(w, roots, d) ==> VisitKey(d) in keys
  }

  /** The reachable keys number at most the count budget. */
  ghost predicate FewKeys(w: World, roots: seq<Dep>) {
    exists keys: set<string> :: |keys| <= w.countLimit && HoldsKeys(w, roots, keys)
  }

  /** No two requests of the chain have one key. */
  predicate IsSimple(chain: seq<Dep>) {
    forall i, j :: 0 <= i < j < |chain| ==> VisitKey(chain[i]) != VisitKey(chain[j])
  }

  ghost predicate NoDeepChain(w: World, roots: seq<Dep>) {
    forall chain {:trigger IsChain(w, roots, chain)} ::
      IsChain(w, roots, chain) && IsSimple(chain) ==> |chain| <= w.depthLimit
  }

  /** Requests with one key agree in what the walk asks of them. */
  ghost predicate KeyAgrees(w: World, roots: seq<Dep>) {
    && KeyFixesRequirements(w, roots)
    && forall d, e {:trigger Passes(w, d), Passes(w, e)} ::
         Reachable(w, roots, d) && Reachable(w, roots, e) && VisitKey(d) == VisitKey(e) ==> Passes(w, d) == Passes(w, e)
  }

  // ---------------------------------------------------------------- the walk's stack is a simple chain

  /** Where the walk is: `stack` leads to the manifest whose dependencies are walked, and everything
      on it is visited. */
  ghost predicate IsStack(w: World, roots: seq<Dep>, stack: seq<Dep>, visited: set<string>) {
    && (stack != [] ==> IsChain(w, roots, stack)) && IsSimple(stack)
    && forall i :: 0 <= i < |stack| ==> VisitKey(stack[i]) in visited
  }

  /** The dependencies asked for at the end of the stack. */
  function Asked(w: World, roots: seq<Dep>, stack: seq<Dep>): seq<Dep> {
    if stack == [] then roots else Requirements(w, stack[|stack| - 1])
  }

  ghost predicate AreNext(w: World, roots: seq<Dep>, stack: seq<Dep>, deps: seq<Dep>) {
    forall d :: d in deps ==> d in Asked(w, roots, stack)
  }

  lemma NextSplits(w: World, roots: seq<Dep>, stack: seq<Dep>, deps: seq<Dep>)
    requires AreNext(w, roots, stack, deps) && deps != []
    ensures AreNext(w, roots, stack, [deps[0]]) && AreNext(w, roots, stack, deps[1..])
  {
    assert deps[0] in deps && deps == [deps[0]] + deps[1..];
  }

  lemma ChainOn(w: World, roots: seq<Dep>, stack: seq<Dep>, d: Dep)
    requires stack != [] ==> IsChain(w, roots, stack)
    requires AreNext(w, roots, stack, [d])
    ensures IsChain(w, roots, stack + [d])
  {
    hide Requirements;
    assert d in [d];
  }

  lemma StackOn(w: World, roots: seq<Dep>, stack: seq<Dep>, visited: set<string>, d: Dep)
    requires IsStack(w, roots, stack, visited) && AreNext(w, roots, stack, [d]) && VisitKey(d) !in visited
    ensures IsStack(w, roots, stack + [d], visited + {VisitKey(d)}) && IsChain(w, roots, stack + [d])
    ensures IsSimple(stack + [d])
  {
    ChainOn(w, roots, stack, d);
    hide IsChain;
    hide VisitKey;
    hide AreNext;
  }

  lemma NextIsReachable(w: World, roots: seq<Dep>, stack: seq<Dep>, visited: set<string>, d: Dep)
    requires IsStack(w, roots, stack, visited) && AreNext(w, roots, stack, [d])
    ensures Reachable(w, roots, d)
  {
    ChainOn(w, roots, stack, d);
    assert (stack + [d])[|stack|] == d;
  }

  lemma {:induction false} DepsSucceed(
    w: World, roots: seq<Dep>, keys: set<string>, deps: seq<Dep>, chain: seq<string>, st: State, stack: seq<Dep>)
    requires AllPass(w, roots) && HoldsKeys(w, roots, keys) && |keys| <= w.countLimit && NoDeepChain(w, roots)
    requires IsStack(w, roots, stack, st.visited) && AreNext(w, roots, stack, deps) && |chain| == |stack|
    requires st.visited <= keys
    ensures WalkDeps(w, deps, chain, st).1.Ok? && WalkDeps(w, deps, chain, st).0.visited <= keys
    decreases Room(w, st.visited), 1, |deps|
  {
    if deps != [] {
      var dep, here := deps[0], chain + [deps[0].name];
      NextSplits(w, roots, stack, deps);
      NextIsReachable(w, roots, stack, st.visited, dep);
      assert Passes(w, dep);
      hide AreNext;
      hide AllPass;
      hide HoldsKeys;
      hide NoDeepChain;
      var st1 := st.(log := st.log + [Checked(dep)]);
      OneSucceeds(w, roots, keys, dep, here, st1, stack);
      var r := WalkOne(w, dep, here, st1);
      RoomShrinks(w, st.visited, r.0.visited);
      assert IsStack(w, roots, stack, r.0.visited);
      DepsSucceed(w, roots, keys, deps[1..], chain, r.0, stack);
    }
  }

  lemma {:induction false} OneSucceeds(
    w: World, roots: seq<Dep>, keys: set<string>, dep: Dep, chain: seq<string>, st: State, stack: seq<Dep>)
    requires AllPass(w, roots) && HoldsKeys(w, roots, keys) && |keys| <= w.countLimit && NoDeepChain(w, roots)
    requires IsStack(w, roots, stack, st.visited) && AreNext(w, roots, stack, [dep]) && |chain| == |stack| + 1
    requires st.visited <= keys
    ensures WalkOne(w, dep, chain, st).1.Ok? && WalkOne(w, dep, chain, st).0.visited <= keys
    decreases Room(w, st.visited), 0, 0
  {
    if VisitKey(dep) !in st.visited {
      var st1 := Visit(st, dep);
      NextIsReachable(w, roots, stack, st.visited, dep);
      StackOn(w, roots, stack, st.visited, dep);
      CardinalityGrows(st1.visited, keys);
      assert Passes(w, dep);
      var st2 := st1.(log := st1.log + [Fetching(dep, |chain|)]);
      var st3 := Record(w, st2, dep, w.fetch(dep).value);
      RoomShrinks(w, st.visited, st1.visited);
      DepsSucceed(w, roots, keys, Requirements(w, dep), chain, st3, stack + [dep]);
    }
  }

  /** Nothing in the way: the walk succeeds. */
  lemma NothingFails(w: World, roots: seq<Dep>)
    requires AllPass(w, roots) && FewKeys(w, roots) && NoDeepChain(w, roots)
    ensures Succeeds(w, roots)
  {
    var keys: set<string> :| |keys| <= w.countLimit && HoldsKeys(w, roots, keys);
    DepsSucceed(w, roots, keys, roots, [], Start, []);
  }

  // ---------------------------------------------------------------- a reordering asks the same

  lemma ChainReordered(w: World, u: World, a: seq<Dep>, b: seq<Dep>, chain: seq<Dep>)
    requires Reordered(w, u) && multiset(a) == multiset(b) && IsChain(w, a, chain)
    ensures IsChain(u, b, chain)
  {
    assert chain[0] in multiset(a);
    forall i | 0 < i < |chain|
      ensures chain[i] in Requirements(u, chain[i - 1])
    {
      assert chain[i] in multiset(Requirements(w, chain[i - 1]));
    }
  }

  lemma AsksTheSame(w: World, u: World, a: seq<Dep>, b: seq<Dep>)
    requires IsReordering(w, u) && multiset(a) == multiset(b)
    ensures AllPass(w, a) ==> AllPass(u, b)
    ensures FewKeys(w, a) ==> FewKeys(u, b)
    ensures NoDeepChain(w, a) ==> NoDeepChain(u, b)
  {
    ReorderingIsReordered(w, u);
    forall d | Reachable(u, b, d)
      ensures Reachable(w, a, d)
      ensures Passes(w, d) ==> Passes(u, d)
    {
      ReachableReordered(u, w, b, a, d);
      assert SameCheckout(w.fetch(d), u.fetch(d));
    }
    if FewKeys(w, a) {
      var keys: set<string> :| |keys| <= w.countLimit && HoldsKeys(w, a, keys);
      assert HoldsKeys(u, b, keys);
    }
    forall chain | IsChain(u, b, chain)
      ensures IsChain(w, a, chain)
    {
      ChainReordered(u, w, b, a, chain);
    }
  }

  // ---------------------------------------------------------------- what success shows

  ghost predicate WalkedPass(w: World, st: State) {
    |st.visited| <= w.countLimit && forall d :: d in st.walked ==> Passes(w, d)
  }

  lemma {:induction false} DepsPass(w: World, deps: seq<Dep>, chain: seq<string>, st: State)
    requires WalkDeps(w, deps, chain, st).1.Ok? && WalkedPass(w, st)
    ensures WalkedPass(w, WalkDeps(w, deps, chain, st).0)
    decreases Room(w, st.visited), 1, |deps|
  {
    if deps != [] {
      var dep, here := deps[0], chain + [deps[0].name];
      var st1 := st.(log := st.log + [Checked(dep)]);
      OnePasses(w, dep, here, st1);
      var r := WalkOne(w, dep, here, st1);
      RoomShrinks(w, st.visited, r.0.visited);
      DepsPass(w, deps[1..], chain, r.0);
    }
  }

  lemma {:induction false} OnePasses(w: World, dep: Dep, chain: seq<string>, st: State)
    requires WalkOne(w, dep, chain, st).1.Ok? && WalkedPass(w, st) && OwnerPasses(w, dep)
    ensures WalkedPass(w, WalkOne(w, dep, chain, st).0)
    decreases Room(w, st.visited), 0, 0
  {
    if VisitKey(dep) !in st.visited {
      var st1 := Visit(st, dep);
      var st2 := st1.(log := st1.log + [Fetching(dep, |chain|)]);
      var st3 := Record(w, st2, dep, w.fetch(dep).value);
      RoomShrinks(w, st.visited, st1.visited);
      assert Passes(w, dep);
      DepsPass(w, Requirements(w, dep), chain, st3);
    }
  }

  ghost predicate IsWalkedKey(w: World, roots: seq<Dep>, r: State, d: Dep, x: Dep) {
    x in r.walked && VisitKey(x) == VisitKey(d) && Reachable(w, roots, x)
  }

  /** After a success every reachable request has its key walked. */
  lemma ReachableIsWalked(w: World, roots: seq<Dep>, d: Dep) returns (x: Dep)
    requires KeyFixesRequirements(w, roots) && Succeeds(w, roots) && Reachable(w, roots, d)
    ensures VisitKey(d) in Final(w, roots).visited && IsWalkedKey(w, roots, Final(w, roots), d, x)
  {
    var r := Final(w, roots);
    DepsComplete(w, roots, [], Start);
    WalkReachesOnlyReachable(w, roots);
    assert Keys(Start.walked) == {};
    hide VisitKey;
    hide Requirements;
    var chain :| IsChain(w, roots, chain) && chain[|chain| - 1] == d;
    ChainVisited(w, roots, r, chain, |chain| - 1);
    x :| x in r.walked && VisitKey(x) == VisitKey(d);
  }

  /** One success shows that everything reachable passes and the keys fit the count budget. */
  lemma SuccessShows(w: World, roots: seq<Dep>)
    requires KeyAgrees(w, roots) && Succeeds(w, roots)
    ensures AllPass(w, roots) && FewKeys(w, roots)
  {
    var r := Final(w, roots);
    DepsPass(w, roots, [], Start);
    hide Final;
    hide Succeeds;
    hide Passes;
    hide VisitKey;
    hide Reachable;
    hide KeyFixesRequirements;
    forall d | Reachable(w, roots, d)
      ensures VisitKey(d) in r.visited && Passes(w, d)
    {
      var x := ReachableIsWalked(w, roots, d);
      assert Passes(w, x);
    }
    assert HoldsKeys(w, roots, r.visited);
  }

  // ---------------------------------------------------------------- an order that goes down a chain

  function Without(deps: seq<Dep>, d: Dep): seq<Dep> {
    if deps == [] then [] else if deps[0] == d then deps[1..] else [deps[0]] + Without(deps[1..], d)
  }

  function PutFirst(deps: seq<Dep>, d: Dep): seq<Dep> {
    if d in deps then [d] + Without(deps, d) else deps
  }

  lemma {:induction false} PutFirstReorders(deps: seq<Dep>, d: Dep)
    ensures multiset(PutFirst(deps, d)) == multiset(deps)
    ensures d in deps ==> PutFirst(deps, d)[0] == d
  {
    if d in deps {
      assert deps == [deps[0]] + deps[1..];
      if deps[0] != d {
        PutFirstReorders(deps[1..], d);
        assert multiset([d] + Without(deps[1..], d)) == multiset(deps[1..]);
        assert PutFirst(deps, d) == [d] + ([deps[0]] + Without(deps[1..], d));
      } else {
        assert PutFirst(deps, d) == [d] + deps[1..];
      }
    }
  }

  /** The request after `d` in the chain. */
  function NextIn(chain: seq<Dep>, d: Dep): Option<Dep> {
    if |chain| < 2 then None else if chain[0] == d then Some(chain[1]) else NextIn(chain[1..], d)
  }

  lemma {:induction false} NextInSimple(chain: seq<Dep>, i: nat)
    requires IsSimple(chain) && i + 1 < |chain|
    ensures NextIn(chain, chain[i]) == Some(chain[i + 1])
  {
    if i > 0 {
      assert VisitKey(chain[0]) != VisitKey(chain[i]);
      NextInSimple(chain[1..], i - 1);
    }
  }

  function DownFirst(chain: seq<Dep>, d: Dep, c: Checkout): Checkout {
    match NextIn(chain, d)
    case None => c
    case Some(next) => c.(deps := PutFirst(c.deps, next))
  }

  /** Each manifest on the chain lists the next request first. */
  function DownTheChain(w: World, chain: seq<Dep>): World {
    w.(fetch := (d: Dep) =>
      match w.fetch(d)
      case None => None
      case Some(c) => Some(DownFirst(chain, d, c)))
  }

  lemma DownTheChainReorders(w: World, chain: seq<Dep>)
    ensures IsReordering(w, DownTheChain(w, chain))
  {
    var u := DownTheChain(w, chain);
    forall d
      ensures SameCheckout(w.fetch(d), u.fetch(d))
    {
      if w.fetch(d).Some? && NextIn(chain, d).Some? {
        PutFirstReorders(w.fetch(d).value.deps, NextIn(chain, d).value);
      }
    }
  }

  /** Each request on the chain lists the next one first. */
  ghost predicate LeadsDown(u: World, chain: seq<Dep>) {
    forall i {:trigger LeadsAt(u, chain, i)} :: 0 <= i < |chain| - 1 ==> LeadsAt(u, chain, i)
  }

  predicate LeadsAt(u: World, chain: seq<Dep>, i: nat)
    requires i + 1 < |chain|
  {
    Requirements(u, chain[i]) != [] && Requirements(u, chain[i])[0] == chain[i + 1]
  }

  lemma ChainLeadsDown(w: World, roots: seq<Dep>, chain: seq<Dep>)
    requires IsChain(w, roots, chain) && IsSimple(chain)
    ensures LeadsDown(DownTheChain(w, chain), chain)
  {
    forall i | 0 <= i < |chain| - 1
      ensures LeadsAt(DownTheChain(w, chain), chain, i)
    {
      NextStandsFirst(w, roots, chain, i, i + 1);
    }
  }

  lemma NextStandsFirst(w: World, roots: seq<Dep>, chain: seq<Dep>, i: nat, k: nat)
    requires IsChain(w, roots, chain) && IsSimple(chain) && k == i + 1 < |chain|
    ensures var rs := Requirements(DownTheChain(w, chain), chain[i]); rs != [] && rs[0] == chain[k]
  {
    assert chain[k] in Requirements(w, chain[k - 1]);
    NextInSimple(chain, i);
    PutFirstReorders(w.fetch(chain[i]).value.deps, chain[k]);
  }

  /** Going down a chain longer than the depth budget fails, if nothing else does before. */
  lemma {:induction false} GoingDownFails(
    u: World, chain: seq<Dep>, i: nat, deps: seq<Dep>, names: seq<string>, st: State)
    requires LeadsDown(u, chain) && IsSimple(chain) && |chain| > u.depthLimit
    requires i < |chain| && |names| == i && deps != [] && deps[0] == chain[i]
    requires st.visited == Keys(chain[..i])
    ensures WalkDeps(u, deps, names, st).1.Err?
    decreases |chain| - i, 1
  {
    var here := names + [deps[0].name];
    if CheckOwner(u, deps[0], here).Ok? {
      OneDownFails(u, chain, i, here, st.(log := st.log + [Checked(deps[0])]));
    }
  }

  lemma FreshOnChain(chain: seq<Dep>, i: nat)
    requires IsSimple(chain) && i < |chain|
    ensures VisitKey(chain[i]) !in Keys(chain[..i])
    ensures Keys(chain[..i + 1]) == Keys(chain[..i]) + {VisitKey(chain[i])}
  {
    hide VisitKey;
    forall d | d in chain[..i]
      ensures VisitKey(d) != VisitKey(chain[i])
    {
      var j :| 0 <= j < i && chain[j] == d;
    }
    assert chain[..i + 1] == chain[..i] + [chain[i]];
  }

  lemma {:induction false} OneDownFails(u: World, chain: seq<Dep>, i: nat, names: seq<string>, st: State)
    requires LeadsDown(u, chain) && IsSimple(chain) && |chain| > u.depthLimit
    requires i < |chain| && |names| == i + 1 && st.visited == Keys(chain[..i])
    ensures WalkOne(u, chain[i], names, st).1.Err?
    decreases |chain| - i, 0
  {
    var dep := chain[i];
    FreshOnChain(chain, i);
    var st1 := Visit(st, dep);
    if |st1.visited| <= u.countLimit && |names| <= u.depthLimit && u.fetch(dep).Some? {
      var st2 := st1.(log := st1.log + [Fetching(dep, |names|)]);
      var st3 := Record(u, st2, dep, u.fetch(dep).value);
      hide Keys;
      hide IsSimple;
      assert LeadsAt(u, chain, i);
      GoingDownFails(u, chain, i + 1, Requirements(u, dep), names, st3);
    }
  }

  lemma DeepChainFails(w: World, roots: seq<Dep>, chain: seq<Dep>)
    requires IsChain(w, roots, chain) && IsSimple(chain) && |chain| > w.depthLimit
    ensures !Succeeds(DownTheChain(w, chain), PutFirst(roots, chain[0]))
  {
    PutFirstReorders(roots, chain[0]);
    ChainLeadsDown(w, roots, chain);
    assert chain[..0] == [] && Keys([]) == {};
    GoingDownFails(DownTheChain(w, chain), chain, 0, PutFirst(roots, chain[0]), [], Start);
  }

  // ---------------------------------------------------------------- the main results

  ghost predicate AlwaysSucceeds(w: World, roots: seq<Dep>) {
    forall u, b :: IsReordering(w, u) && multiset(roots) == multiset(b) ==> Succeeds(u, b)
  }

  /** Every order succeeds if and only if everything reachable passes, the keys fit the count budget,
      and no chain of different keys is longer than the depth budget. */
  lemma AlwaysSucceedsIff(w: World, roots: seq<Dep>)
    requires KeyAgrees(w, roots)
    ensures AlwaysSucceeds(w, roots) <==> AllPass(w, roots) && FewKeys(w, roots) && NoDeepChain(w, roots)
  {
    if AlwaysSucceeds(w, roots) {
      assert IsReordering(w, w) && multiset(roots) == multiset(roots);
      SuccessShows(w, roots);
      forall chain | IsChain(w, roots, chain) && IsSimple(chain)
        ensures |chain| <= w.depthLimit
      {
        DownTheChainReorders(w, chain);
        PutFirstReorders(roots, chain[0]);
        if |chain| > w.depthLimit {
          DeepChainFails(w, roots, chain);
        }
      }
    }
    if AllPass(w, roots) && FewKeys(w, roots) && NoDeepChain(w, roots) {
      forall u, b | IsReordering(w, u) && multiset(roots) == multiset(b)
        ensures Succeeds(u, b)
      {
        AsksTheSame(w, u, roots, b);
        NothingFails(u, b);
      }
    }
  }

  lemma {:induction false} SimpleHasManyKeys(chain: seq<Dep>)
    requires IsSimple(chain)
    ensures |Keys(chain)| == |chain|
  {
    if chain != [] {
      var front, last := chain[..|chain| - 1], chain[|chain| - 1];
      SimpleHasManyKeys(front);
      assert chain == front + [last];
      assert VisitKey(last) !in Keys(front);
      assert Keys(chain) == Keys(front) + {VisitKey(last)};
    }
  }

  /** With a depth budget no smaller than the count budget, if one order succeeds then every other
      does. */
  lemma WideDepthIgnoresOrder(w: World, u: World, a: seq<Dep>, b: seq<Dep>)
    requires KeyAgrees(w, a) && w.countLimit <= w.depthLimit
    requires IsReordering(w, u) && multiset(a) == multiset(b)
    ensures Succeeds(w, a) ==> Succeeds(u, b)
  {
    if Succeeds(w, a) {
      SuccessShows(w, a);
      var keys: set<string> :| |keys| <= w.countLimit && HoldsKeys(w, a, keys);
      forall chain | IsChain(w, a, chain) && IsSimple(chain)
        ensures |chain| <= w.depthLimit
      {
        forall i | 0 <= i < |chain|
          ensures VisitKey(chain[i]) in keys
        {
          ChainReachable(w, a, chain, i);
        }
        SimpleHasManyKeys(chain);
        CardinalityGrows(Keys(chain), keys);
      }
      AlwaysSucceedsIff(w, a);
    }
  }
}
