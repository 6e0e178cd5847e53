/** What the dependency walk guarantees: its budgets and owner check hold of every run, the
    selection holds one entry for each package with the greatest version requested, the walked
    requests are the reachable ones, and therefore the selected versions do not depend on the
    order manifests list their dependencies in. */
module DependencySelection {
  import opened Options
  import opened DependencyWalk

  // ---------------------------------------------------------------- every run is bounded

  ghost predicate OwnerPasses(w: World, dep: Dep) {
    dep.path.Some? || w.owner(dep.git).Local? || (w.owner(dep.git).Named? && w.trusted(w.owner(dep.git).owner))
  }

  function Fetches(log: seq<Event>): nat {
    if log == [] then 0
    else Fetches(log[..|log| - 1]) + (if log[|log| - 1].Fetching? then 1 else 0)
  }

  ghost predicate FetchKeyIn(e: Event, keys: set<string>) {
    e.Fetching? ==> VisitKey(e.dep) in keys
  }

  /** A fetch comes right after its request's owner check, which passed, within the depth budget. */
  ghost predicate FetchIsChecked(w: World, log: seq<Event>, i: nat)
    requires i < |log|
  {
    log[i].Fetching? ==>
      && 0 < i && log[i - 1] == Checked(log[i].dep)
      && OwnerPasses(w, log[i].dep)
      && 0 < log[i].depth <= w.depthLimit
  }

  ghost predicate FetchesDiffer(log: seq<Event>, i: nat, j: nat)
    requires i < j < |log|
  {
    log[i].Fetching? && log[j].Fetching? ==> VisitKey(log[i].dep) != VisitKey(log[j].dep)
  }

  /** Every fetch comes right after its request's owner check, which passed; it is within the
      depth budget; no two fetches are for one visit key; and there are at most as many as the
      count budget. */
  ghost predicate Bounded(w: World, st: State) {
    && Fetches(st.log) <= w.countLimit
    && Fetches(st.log) <= |st.visited|
    && (forall i {:trigger FetchKeyIn(st.log[i], st.visited)} :: 0 <= i < |st.log| ==> FetchKeyIn(st.log[i], st.visited))
    && (forall i {:trigger FetchIsChecked(w, st.log, i)} :: 0 <= i < |st.log| ==> FetchIsChecked(w, st.log, i))
    && (forall i, j {:trigger FetchesDiffer(st.log, i, j)} :: 0 <= i < j < |st.log| ==> FetchesDiffer(st.log, i, j))
  }

  lemma VisitStaysBounded(w: World, st: State, dep: Dep)
    requires Bounded(w, st)
    ensures Bounded(w, Visit(st, dep))
  {
    CardinalityGrows(st.visited, Visit(st, dep).visited);
    hide VisitKey;
    hide FetchIsChecked;
    hide FetchesDiffer;
    forall i | 0 <= i < |st.log|
      ensures FetchKeyIn(st.log[i], Visit(st, dep).visited)
    {
      assert FetchKeyIn(st.log[i], st.visited);
    }
  }

  /** One event more: what held of the others still holds. */
  lemma LogOn(w: World, st: State, e: Event)
    requires Bounded(w, st)
    ensures var log := st.log + [e];
      && (forall i {:trigger FetchIsChecked(w, log, i)} :: 0 <= i < |st.log| ==> FetchIsChecked(w, log, i))
      && (forall i, j {:trigger FetchesDiffer(log, i, j)} :: 0 <= i < j < |st.log| ==> FetchesDiffer(log, i, j))
      && Fetches(log) == Fetches(st.log) + (if e.Fetching? then 1 else 0)
  {
    var log := st.log + [e];
    assert log[..|log| - 1] == st.log;
    hide VisitKey;
    hide OwnerPasses;
    forall i | 0 <= i < |st.log|
      ensures FetchIsChecked(w, log, i)
    {
      assert FetchIsChecked(w, st.log, i);
    }
    forall i, j | 0 <= i < j < |st.log|
      ensures FetchesDiffer(log, i, j)
    {
      assert FetchesDiffer(st.log, i, j);
    }
  }

  lemma CheckStaysBounded(w: World, st: State, dep: Dep)
    requires Bounded(w, st)
    ensures Bounded(w, st.(log := st.log + [Checked(dep)]))
  {
    LogOn(w, st, Checked(dep));
    hide VisitKey;
    hide Fetches;
    var log := st.log + [Checked(dep)];
    forall i | 0 <= i < |log|
      ensures FetchKeyIn(log[i], st.visited) && FetchIsChecked(w, log, i)
    {
      assert i < |st.log| ==> FetchKeyIn(st.log[i], st.visited);
    }
    forall i, j | 0 <= i < j < |log|
      ensures FetchesDiffer(log, i, j)
    {
    }
  }

  lemma FetchStaysBounded(w: World, st: State, dep: Dep, depth: nat)
    requires Bounded(w, st)
    requires st.log != [] && st.log[|st.log| - 1] == Checked(dep) && OwnerPasses(w, dep)
    requires VisitKey(dep) !in st.visited && |Visit(st, dep).visited| <= w.countLimit
    requires 0 < depth <= w.depthLimit
    ensures Bounded(w, Visit(st, dep).(log := st.log + [Fetching(dep, depth)]))
  {
    VisitStaysBounded(w, st, dep);
    LogOn(w, st, Fetching(dep, depth));
    var after := Visit(st, dep).(log := st.log + [Fetching(dep, depth)]);
    assert |after.visited| == |st.visited| + 1;
    hide VisitKey;
    hide OwnerPasses;
    hide Fetches;
    forall i | 0 <= i < |after.log|
      ensures FetchKeyIn(after.log[i], after.visited) && FetchIsChecked(w, after.log, i)
    {
      assert i < |st.log| ==> FetchKeyIn(st.log[i], st.visited);
    }
    forall i, j | 0 <= i < j < |after.log|
      ensures FetchesDiffer(after.log, i, j)
    {
      assert FetchKeyIn(st.log[i], st.visited);
    }
  }

  lemma {:induction false} DepsStayBounded(w: World, deps: seq<Dep>, chain: seq<string>, st: State)
    requires Bounded(w, st)
    ensures Bounded(w, WalkDeps(w, deps, chain, st).0)
    decreases Room(w, st.visited), 1, |deps|
  {
    if deps != [] {
      var dep := deps[0];
      var here := chain + [dep.name];
      if CheckOwner(w, dep, here).Ok? {
        var st1 := st.(log := st.log + [Checked(dep)]);
        CheckStaysBounded(w, st, dep);
        hide Bounded;
        OneStaysBounded(w, dep, here, st1);
        var r := WalkOne(w, dep, here, st1);
        if r.1.Ok? {
          RoomShrinks(w, st.visited, r.0.visited);
          DepsStayBounded(w, deps[1..], chain, r.0);
        }
      }
    }
  }

  lemma {:induction false} OneStaysBounded(w: World, dep: Dep, chain: seq<string>, st: State)
    requires Bounded(w, st)
    requires st.log != [] && st.log[|st.log| - 1] == Checked(dep) && OwnerPasses(w, dep) && chain != []
    ensures Bounded(w, WalkOne(w, dep, chain, st).0)
    decreases Room(w, st.visited), 0, 0
  {
    if VisitKey(dep) !in st.visited {
      var st1 := Visit(st, dep);
      VisitStaysBounded(w, st, dep);
      if |st1.visited| <= w.countLimit && |chain| <= w.depthLimit {
        var st2 := st1.(log := st1.log + [Fetching(dep, |chain|)]);
        FetchStaysBounded(w, st, dep, |chain|);
        if w.fetch(dep).Some? {
          RoomShrinks(w, st.visited, st1.visited);
          var st3 := Record(w, st2, dep, w.fetch(dep).value);
          assert st3.log == st2.log && st3.visited == st2.visited;
          DepsStayBounded(w, Requirements(w, dep), chain, st3);
        }
      }
    }
  }

  /** Whatever the manifests say, and whether or not the walk succeeds. */
  lemma EveryRunIsBounded(w: World, roots: seq<Dep>)
    ensures Bounded(w, WalkDeps(w, roots, [], Start).0)
  {
    DepsStayBounded(w, roots, [], Start);
  }

  // ---------------------------------------------------------------- the selection

  ghost predicate MadeBy(w: World, f: Fetched, d: Dep) {
    && f.id == FiledUnder(w, d)
    && f.version == RequestedVersion(d)
    && f.source == d.git
    && w.fetch(d).Some? && f.dir == w.fetch(d).value.dir
  }

  ghost predicate Covers(w: World, f: Fetched, d: Dep) {
    f.id == FiledUnder(w, d) && !Less(SemverOf(w, f.version), Semver(w, d))
  }

  ghost predicate IsMade(w: World, f: Fetched, walked: seq<Dep>) {
    exists d :: d in walked && MadeBy(w, f, d)
  }

  ghost predicate IsCovered(w: World, fetched: seq<Fetched>, d: Dep) {
    exists f :: f in fetched && Covers(w, f, d)
  }

  ghost predicate Distinct(fetched: seq<Fetched>) {
    forall i, j :: 0 <= i < j < |fetched| ==> fetched[i].id != fetched[j].id
  }

  /** One entry for each package; each is the record of one walked request; and no walked
      request of its package has a greater version. */
  ghost predicate Selects(w: World, fetched: seq<Fetched>, walked: seq<Dep>) {
    && Distinct(fetched)
    && (forall f {:trigger IsMade(w, f, walked)} :: f in fetched ==> IsMade(w, f, walked))
    && (forall d {:trigger IsCovered(w, fetched, d)} :: d in walked ==> IsCovered(w, fetched, d))
  }

  lemma SelectKeepsSelection(w: World, fetched: seq<Fetched>, walked: seq<Dep>, d: Dep)
    requires Selects(w, fetched, walked)
    requires w.fetch(d).Some?
    ensures Selects(w, Select(w, fetched, Entry(w, d, w.fetch(d).value)), walked + [d])
  {
    var e := Entry(w, d, w.fetch(d).value);
    var i := FindPkg(fetched, e.id);
    var after := Select(w, fetched, e);
    assert MadeBy(w, e, d);
    forall f | f in after
      ensures IsMade(w, f, walked + [d])
    {
      if f != e {
        var k :| 0 <= k < |after| && after[k] == f;
        assert f == fetched[k] && IsMade(w, f, walked);
        var x :| x in walked && MadeBy(w, f, x);
        assert x in walked + [d];
      } else {
        assert d in walked + [d];
      }
    }
    assert after[i].id == e.id && Covers(w, after[i], d);
    forall x | x in walked + [d]
      ensures IsCovered(w, after, x)
    {
      if x in walked {
        assert IsCovered(w, fetched, x);
        var f :| f in fetched && Covers(w, f, x);
        var k :| 0 <= k < |fetched| && fetched[k] == f;
        assert Covers(w, after[k], x);
      } else {
        assert x == d;
      }
    }
  }

  lemma {:induction false} DepsKeepSelection(w: World, deps: seq<Dep>, chain: seq<string>, st: State)
    requires Selects(w, st.fetched, st.walked)
    ensures var r := WalkDeps(w, deps, chain, st).0; Selects(w, r.fetched, r.walked)
    decreases Room(w, st.visited), 1, |deps|
  {
    if deps != [] {
      var here := chain + [deps[0].name];
      if CheckOwner(w, deps[0], here).Ok? {
        var st1 := st.(log := st.log + [Checked(deps[0])]);
        OneKeepsSelection(w, deps[0], here, st1);
        var r := WalkOne(w, deps[0], here, st1);
        if r.1.Ok? {
          RoomShrinks(w, st.visited, r.0.visited);
          DepsKeepSelection(w, deps[1..], chain, r.0);
        }
      }
    }
  }

  lemma {:induction false} OneKeepsSelection(w: World, dep: Dep, chain: seq<string>, st: State)
    requires Selects(w, st.fetched, st.walked)
    ensures var r := WalkOne(w, dep, chain, st).0; Selects(w, r.fetched, r.walked)
    decreases Room(w, st.visited), 0, 0
  {
    var st1 := Visit(st, dep);
    if VisitKey(dep) !in st.visited && |st1.visited| <= w.countLimit && |chain| <= w.depthLimit && w.fetch(dep).Some? {
      var st2 := st1.(log := st1.log + [Fetching(dep, |chain|)]);
      SelectKeepsSelection(w, st.fetched, st.walked, dep);
      RoomShrinks(w, st.visited, st1.visited);
      DepsKeepSelection(w, Requirements(w, dep), chain, Record(w, st2, dep, w.fetch(dep).value));
    }
  }

  // ---------------------------------------------------------------- what was walked

  ghost predicate KeysVisited(deps: seq<Dep>, visited: set<string>) {
    forall d :: d in deps ==> VisitKey(d) in visited
  }

  /** The requests walked from position `from` on have all their requirements visited. */
  ghost predicate ClosedFrom(w: World, st: State, from: nat) {
    forall i :: from <= i < |st.walked| ==> KeysVisited(Requirements(w, st.walked[i]), st.visited)
  }

  function Keys(deps: seq<Dep>): set<string> {
    set d | d in deps :: VisitKey(d)
  }

  /** A successful stretch of the walk only adds walked requests; it visits what it was asked
      for and what each request it walked asks for, and visits nothing it did not walk. */
  ghost predicate Completed(w: World, st: State, r: State) {
    && st.walked <= r.walked
    && st.visited <= r.visited
    && ClosedFrom(w, r, |st.walked|)
    && (st.visited == Keys(st.walked) ==> r.visited == Keys(r.walked))
  }

  lemma {:induction false} DepsComplete(w: World, deps: seq<Dep>, chain: seq<string>, st: State)
    requires WalkDeps(w, deps, chain, st).1.Ok?
    ensures var r := WalkDeps(w, deps, chain, st).0; Completed(w, st, r) && KeysVisited(deps, r.visited)
    decreases Room(w, st.visited), 1, |deps|
  {
    if deps != [] {
      var dep := deps[0];
      var here := chain + [dep.name];
      var st1 := st.(log := st.log + [Checked(dep)]);
      OneCompletes(w, dep, here, st1);
      var mid := WalkOne(w, dep, here, st1).0;
      RoomShrinks(w, st.visited, mid.visited);
      DepsComplete(w, deps[1..], chain, mid);
      var r := WalkDeps(w, deps[1..], chain, mid).0;
      assert WalkDeps(w, deps, chain, st).0 == r;
      forall i | |st.walked| <= i < |r.walked|
        ensures KeysVisited(Requirements(w, r.walked[i]), r.visited)
      {
        if i < |mid.walked| {
          assert r.walked[i] == mid.walked[i];
          assert KeysVisited(Requirements(w, mid.walked[i]), mid.visited);
        }
      }
      assert forall d | d in deps :: d == dep || d in deps[1..];
    }
  }

  lemma {:induction false} OneCompletes(w: World, dep: Dep, chain: seq<string>, st: State)
    requires WalkOne(w, dep, chain, st).1.Ok?
    ensures var r := WalkOne(w, dep, chain, st).0; Completed(w, st, r) && VisitKey(dep) in r.visited
    decreases Room(w, st.visited), 0, 0
  {
    if VisitKey(dep) !in st.visited {
      var st1 := Visit(st, dep);
      var st2 := st1.(log := st1.log + [Fetching(dep, |chain|)]);
      var st3 := Record(w, st2, dep, w.fetch(dep).value);
      RoomShrinks(w, st.visited, st1.visited);
      DepsComplete(w, Requirements(w, dep), chain, st3);
      var r := WalkDeps(w, Requirements(w, dep), chain, st3).0;
      hide *;
      CompletedFromOne(w, st, st3, r, dep);
    }
  }

  /** The request itself, and then what its requirements lead to. */
  lemma CompletedFromOne(w: World, st: State, entered: State, r: State, dep: Dep)
    requires entered.walked == st.walked + [dep] && entered.visited == st.visited + {VisitKey(dep)}
    requires Completed(w, entered, r) && KeysVisited(Requirements(w, dep), r.visited)
    ensures Completed(w, st, r) && VisitKey(dep) in r.visited
  {
    assert r.walked[|st.walked|] == dep;
    assert Keys(entered.walked) == Keys(st.walked) + {VisitKey(dep)};
  }

  // ---------------------------------------------------------------- reachability

  /** A chain of requests: the first one is asked for by the root manifest, and each is a
      requirement of the one before it. */
  ghost predicate IsChain(w: World, roots: seq<Dep>, chain: seq<Dep>) {
    && chain != []
    && chain[0] in roots
    && forall i :: 0 < i < |chain| ==> chain[i] in Requirements(w, chain[i - 1])
  }

  ghost predicate Reachable(w: World, roots: seq<Dep>, d: Dep) {
    exists chain :: IsChain(w, roots, chain) && chain[|chain| - 1] == d
  }

  lemma RootReachable(w: World, roots: seq<Dep>, d: Dep)
    requires d in roots
    ensures Reachable(w, roots, d)
  {
    assert IsChain(w, roots, [d]) && [d][|[d]| - 1] == d;
  }

  lemma RequirementReachable(w: World, roots: seq<Dep>, d: Dep, e: Dep)
    requires Reachable(w, roots, d) && e in Requirements(w, d)
    ensures Reachable(w, roots, e)
  {
    var chain :| IsChain(w, roots, chain) && chain[|chain| - 1] == d;
    var longer := chain + [e];
    assert IsChain(w, roots, longer) && longer[|longer| - 1] == e;
  }

  ghost predicate AllReachable(w: World, roots: seq<Dep>, deps: seq<Dep>) {
    forall d :: d in deps ==> Reachable(w, roots, d)
  }

  lemma {:induction false} DepsWalkReachable(w: World, roots: seq<Dep>, deps: seq<Dep>, chain: seq<string>, st: State)
    requires AllReachable(w, roots, deps) && AllReachable(w, roots, st.walked)
    ensures AllReachable(w, roots, WalkDeps(w, deps, chain, st).0.walked)
    decreases Room(w, st.visited), 1, |deps|
  {
    if deps != [] {
      var here := chain + [deps[0].name];
      if CheckOwner(w, deps[0], here).Ok? {
        var st1 := st.(log := st.log + [Checked(deps[0])]);
        OneWalksReachable(w, roots, deps[0], here, st1);
        var r := WalkOne(w, deps[0], here, st1);
        if r.1.Ok? {
          RoomShrinks(w, st.visited, r.0.visited);
          DepsWalkReachable(w, roots, deps[1..], chain, r.0);
        }
      }
    }
  }

  lemma {:induction false} OneWalksReachable(w: World, roots: seq<Dep>, dep: Dep, chain: seq<string>, st: State)
    requires Reachable(w, roots, dep) && AllReachable(w, roots, st.walked)
    ensures AllReachable(w, roots, WalkOne(w, dep, chain, st).0.walked)
    decreases Room(w, st.visited), 0, 0
  {
    var st1 := Visit(st, dep);
    if VisitKey(dep) !in st.visited && |st1.visited| <= w.countLimit && |chain| <= w.depthLimit && w.fetch(dep).Some? {
      var st2 := st1.(log := st1.log + [Fetching(dep, |chain|)]);
      RoomShrinks(w, st.visited, st1.visited);
      forall e | e in Requirements(w, dep)
        ensures Reachable(w, roots, e)
      {
        RequirementReachable(w, roots, dep, e);
      }
      DepsWalkReachable(w, roots, Requirements(w, dep), chain, Record(w, st2, dep, w.fetch(dep).value));
    }
  }

  ghost predicate SameRequest(w: World, d: Dep, e: Dep) {
    && RequestedVersion(d) == RequestedVersion(e)
    && FiledUnder(w, d) == FiledUnder(w, e)
    && Keys(Requirements(w, d)) == Keys(Requirements(w, e))
  }

  /** Among the reachable requests, two with one visit key ask for one version of one package
      whose manifest asks for the same keys. A tag names one commit, so this holds of tagged
      requests whose checkouts name their package; two branches of one repository share a key
      without it (`DependencyLock.BranchesShareAKey`). */
  ghost predicate KeyDetermines(w: World, roots: seq<Dep>) {
    forall d, e: Dep {:trigger SameRequest(w, d, e)} ::
      Reachable(w, roots, d) && Reachable(w, roots, e) && VisitKey(d) == VisitKey(e) ==> SameRequest(w, d, e)
  }

  ghost predicate Succeeds(w: World, roots: seq<Dep>) {
    WalkDeps(w, roots, [], Start).1.Ok?
  }

  ghost function Final(w: World, roots: seq<Dep>): State {
    WalkDeps(w, roots, [], Start).0
  }

  lemma WalkReachesOnlyReachable(w: World, roots: seq<Dep>)
    ensures AllReachable(w, roots, Final(w, roots).walked)
  {
    forall d | d in roots
      ensures Reachable(w, roots, d)
    {
      RootReachable(w, roots, d);
    }
    DepsWalkReachable(w, roots, roots, [], Start);
  }

  lemma ChainReachable(w: World, roots: seq<Dep>, chain: seq<Dep>, n: nat)
    requires IsChain(w, roots, chain) && n < |chain|
    ensures Reachable(w, roots, chain[n])
  {
    var front := chain[..n + 1];
    assert IsChain(w, roots, front) && front[|front| - 1] == chain[n];
  }

  ghost predicate SameAsked(w: World, d: Dep, e: Dep) {
    Keys(Requirements(w, d)) == Keys(Requirements(w, e))
  }

  /** Among the reachable requests, two with one visit key ask for the same keys. */
  ghost predicate KeyFixesRequirements(w: World, roots: seq<Dep>) {
    forall d, e: Dep {:trigger SameAsked(w, d, e)} ::
      Reachable(w, roots, d) && Reachable(w, roots, e) && VisitKey(d) == VisitKey(e) ==> SameAsked(w, d, e)
  }

  lemma DeterminedIsFixed(w: World, roots: seq<Dep>)
    requires KeyDetermines(w, roots)
    ensures KeyFixesRequirements(w, roots)
  {
    forall d, e | Reachable(w, roots, d) && Reachable(w, roots, e) && VisitKey(d) == VisitKey(e)
      ensures SameAsked(w, d, e)
    {
      assert SameRequest(w, d, e);
    }
  }

  /** A requirement of a request whose key was walked has its key walked. */
  lemma RequirementVisited(w: World, roots: seq<Dep>, r: State, d: Dep, e: Dep)
    requires KeyFixesRequirements(w, roots) && AllReachable(w, roots, r.walked) && ClosedFrom(w, r, 0)
    requires r.visited == Keys(r.walked)
    requires Reachable(w, roots, d) && VisitKey(d) in r.visited && e in Requirements(w, d)
    ensures VisitKey(e) in r.visited
  {
    var x :| x in r.walked && VisitKey(x) == VisitKey(d);
    assert SameAsked(w, x, d);
    var i :| 0 <= i < |r.walked| && r.walked[i] == x;
    assert KeysVisited(Requirements(w, r.walked[i]), r.visited);
    assert VisitKey(e) in Keys(Requirements(w, d));
    assert VisitKey(e) in Keys(Requirements(w, x));
  }

  /** Along any chain from the roots, every request's key is visited: some request with the
      same key was walked, and its requirements have the same keys. */
  lemma {:induction false} ChainVisited(w: World, roots: seq<Dep>, r: State, chain: seq<Dep>, n: nat)
    requires KeyFixesRequirements(w, roots) && AllReachable(w, roots, r.walked) && ClosedFrom(w, r, 0)
    requires r.visited == Keys(r.walked) && KeysVisited(roots, r.visited)
    requires IsChain(w, roots, chain) && n < |chain|
    ensures VisitKey(chain[n]) in r.visited
    decreases n
  {
    if n > 0 {
      ChainVisited(w, roots, r, chain, n - 1);
      ChainReachable(w, roots, chain, n - 1);
      RequirementVisited(w, roots, r, chain[n - 1], chain[n]);
    }
  }

  /** Some walked request stands for `d`: it has the same version, package and requirements. */
  ghost predicate StoodFor(w: World, walked: seq<Dep>, d: Dep) {
    exists x :: x in walked && SameRequest(w, x, d)
  }

  /** What a successful walk leaves: the selection over exactly the reachable requests, up to
      requests with one key. */
  ghost predicate Walked(w: World, roots: seq<Dep>, r: State) {
    && Selects(w, r.fetched, r.walked)
    && AllReachable(w, roots, r.walked)
    && (forall d {:trigger StoodFor(w, r.walked, d)} :: Reachable(w, roots, d) ==> StoodFor(w, r.walked, d))
  }

  lemma ReachableStoodFor(w: World, roots: seq<Dep>, d: Dep)
    requires KeyDetermines(w, roots) && Succeeds(w, roots) && Reachable(w, roots, d)
    ensures StoodFor(w, Final(w, roots).walked, d)
  {
    var chain :| IsChain(w, roots, chain) && chain[|chain| - 1] == d;
    DepsComplete(w, roots, [], Start);
    WalkReachesOnlyReachable(w, roots);
    assert Keys(Start.walked) == {};
    var r := Final(w, roots);
    DeterminedIsFixed(w, roots);
    ChainVisited(w, roots, r, chain, |chain| - 1);
    var x :| x in r.walked && VisitKey(x) == VisitKey(d);
    assert SameRequest(w, x, d);
  }

  lemma SuccessWalks(w: World, roots: seq<Dep>)
    requires KeyDetermines(w, roots) && Succeeds(w, roots)
    ensures Walked(w, roots, Final(w, roots))
  {
    DepsKeepSelection(w, roots, [], Start);
    WalkReachesOnlyReachable(w, roots);
    forall d | Reachable(w, roots, d)
      ensures StoodFor(w, Final(w, roots).walked, d)
    {
      ReachableStoodFor(w, roots, d);
    }
  }

  // ---------------------------------------------------------------- the main results

  function Packages(fetched: seq<Fetched>): set<PkgId> {
    set f | f in fetched :: f.id
  }

  /** The version the walk selected for each package. */
  function Selected(w: World, fetched: seq<Fetched>): map<PkgId, Version> {
    map id | id in Packages(fetched) :: SemverOf(w, fetched[FindPkg(fetched, id)].version)
  }

  ghost predicate IsRequest(w: World, roots: seq<Dep>, id: PkgId, d: Dep) {
    Reachable(w, roots, d) && FiledUnder(w, d) == id
  }

  ghost predicate IsRequested(w: World, roots: seq<Dep>, id: PkgId) {
    exists d :: IsRequest(w, roots, id, d)
  }

  /** `v` is the greatest version among the reachable requests filed under `id`. */
  ghost predicate GreatestRequested(w: World, roots: seq<Dep>, id: PkgId, v: Version) {
    && (exists d :: IsRequest(w, roots, id, d) && Semver(w, d) == v)
    && (forall d :: IsRequest(w, roots, id, d) ==> !Less(v, Semver(w, d)))
  }

  lemma EntryIsSelected(w: World, fetched: seq<Fetched>, f: Fetched)
    requires Distinct(fetched) && f in fetched
    ensures f.id in Selected(w, fetched) && Selected(w, fetched)[f.id] == SemverOf(w, f.version)
  {
    var k :| 0 <= k < |fetched| && fetched[k] == f;
    var i := FindPkg(fetched, f.id);
    assert i <= k;
  }

  lemma RequestIsCovered(w: World, roots: seq<Dep>, r: State, d: Dep)
    requires Walked(w, roots, r) && Reachable(w, roots, d)
    ensures var chosen := Selected(w, r.fetched);
      FiledUnder(w, d) in chosen && !Less(chosen[FiledUnder(w, d)], Semver(w, d))
  {
    assert StoodFor(w, r.walked, d);
    var x :| x in r.walked && SameRequest(w, x, d);
    assert IsCovered(w, r.fetched, x);
    var f :| f in r.fetched && Covers(w, f, x);
    EntryIsSelected(w, r.fetched, f);
  }

  lemma SelectedIsGreatest(w: World, roots: seq<Dep>, r: State, id: PkgId)
    requires Walked(w, roots, r) && id in Selected(w, r.fetched)
    ensures GreatestRequested(w, roots, id, Selected(w, r.fetched)[id])
  {
    var i := FindPkg(r.fetched, id);
    var g :| g in r.fetched && g.id == id;
    var k :| 0 <= k < |r.fetched| && r.fetched[k] == g;
    assert i <= k;
    assert r.fetched[i] in r.fetched && IsMade(w, r.fetched[i], r.walked);
    var d :| d in r.walked && MadeBy(w, r.fetched[i], d);
    assert IsRequest(w, roots, id, d);
    forall e | IsRequest(w, roots, id, e)
      ensures !Less(Selected(w, r.fetched)[id], Semver(w, e))
    {
      RequestIsCovered(w, roots, r, e);
    }
  }

  /** Minimal Version Selection: after a successful walk every package occurs once, the
      packages are those some reachable request is filed under, and each holds the greatest
      version reachable requests ask for. */
  lemma SelectsGreatestReachable(w: World, roots: seq<Dep>)
    requires KeyDetermines(w, roots) && Succeeds(w, roots)
    ensures Distinct(Final(w, roots).fetched)
    ensures forall id :: id in Selected(w, Final(w, roots).fetched) <==> IsRequested(w, roots, id)
    ensures forall id :: id in Selected(w, Final(w, roots).fetched) ==>
      GreatestRequested(w, roots, id, Selected(w, Final(w, roots).fetched)[id])
  {
    SuccessWalks(w, roots);
    var r := Final(w, roots);
    forall id
      ensures id in Selected(w, r.fetched) ==> GreatestRequested(w, roots, id, Selected(w, r.fetched)[id])
      ensures id in Selected(w, r.fetched) <==> IsRequested(w, roots, id)
    {
      if id in Selected(w, r.fetched) {
        SelectedIsGreatest(w, roots, r, id);
      }
      if IsRequested(w, roots, id) {
        var d :| IsRequest(w, roots, id, d);
        RequestIsCovered(w, roots, r, d);
      }
    }
  }

  lemma GreatestIsUnique(w: World, roots: seq<Dep>, id: PkgId, u: Version, v: Version)
    requires GreatestRequested(w, roots, id, u) && GreatestRequested(w, roots, id, v)
    ensures u == v
  {
    var d :| IsRequest(w, roots, id, d) && Semver(w, d) == u;
    var e :| IsRequest(w, roots, id, e) && Semver(w, e) == v;
    assert !Less(u, v) && !Less(v, u);
  }

  /** One world lists its dependencies in another order than the other, and differs in
      nothing else. */
  ghost predicate Reordered(w: World, u: World) {
    && w.parse == u.parse
    && (forall d :: FiledUnder(w, d) == FiledUnder(u, d))
    && (forall d :: multiset(Requirements(w, d)) == multiset(Requirements(u, d)))
  }

  lemma ReachableReordered(w: World, u: World, a: seq<Dep>, b: seq<Dep>, d: Dep)
    requires Reordered(w, u) && multiset(a) == multiset(b)
    requires Reachable(w, a, d)
    ensures Reachable(u, b, d)
  {
    var chain :| IsChain(w, a, chain) && chain[|chain| - 1] == d;
    assert chain[0] in multiset(a);
    forall i | 0 < i < |chain|
      ensures chain[i] in Requirements(u, chain[i - 1])
    {
      assert chain[i] in multiset(Requirements(w, chain[i - 1]));
    }
    assert IsChain(u, b, chain);
  }

  lemma GreatestReordered(w: World, u: World, a: seq<Dep>, b: seq<Dep>, id: PkgId, v: Version)
    requires Reordered(w, u) && multiset(a) == multiset(b)
    requires GreatestRequested(w, a, id, v)
    ensures GreatestRequested(u, b, id, v)
  {
    var d :| IsRequest(w, a, id, d) && Semver(w, d) == v;
    ReachableReordered(w, u, a, b, d);
    assert IsRequest(u, b, id, d);
    forall e | IsRequest(u, b, id, e)
      ensures !Less(v, Semver(u, e))
    {
      ReachableReordered(u, w, b, a, e);
      assert IsRequest(w, a, id, e);
    }
  }

  lemma SameKeys(a: seq<Dep>, b: seq<Dep>)
    requires multiset(a) == multiset(b)
    ensures Keys(a) == Keys(b)
  {
    forall d
      ensures d in a <==> d in b
    {
      assert d in a <==> d in multiset(a);
      assert d in b <==> d in multiset(b);
    }
  }

  lemma KeyDeterminesReordered(w: World, u: World, a: seq<Dep>, b: seq<Dep>)
    requires Reordered(w, u) && multiset(a) == multiset(b)
    requires KeyDetermines(w, a)
    ensures KeyDetermines(u, b)
  {
    forall d, e | Reachable(u, b, d) && Reachable(u, b, e) && VisitKey(d) == VisitKey(e)
      ensures SameRequest(u, d, e)
    {
      ReachableReordered(u, w, b, a, d);
      ReachableReordered(u, w, b, a, e);
      assert SameRequest(w, d, e);
      SameKeys(Requirements(w, d), Requirements(u, d));
      SameKeys(Requirements(w, e), Requirements(u, e));
    }
  }

  /** Declaration order does not matter (#1458): permute the root's dependencies and those of
      every manifest, and the packages and their selected versions stay the same, whenever
      both walks succeed. */
  lemma OrderDoesNotMatter(w: World, u: World, a: seq<Dep>, b: seq<Dep>)
    requires KeyDetermines(w, a)
    requires Reordered(w, u) && multiset(a) == multiset(b)
    requires Succeeds(w, a) && Succeeds(u, b)
    ensures Selected(w, Final(w, a).fetched) == Selected(u, Final(u, b).fetched)
  {
    KeyDeterminesReordered(w, u, a, b);
    SuccessWalks(w, a);
    SuccessWalks(u, b);
    SameSelection(w, u, a, b, Final(w, a), Final(u, b));
    SameSelection(u, w, b, a, Final(u, b), Final(w, a));
  }

  lemma SameSelection(w: World, u: World, a: seq<Dep>, b: seq<Dep>, r: State, s: State)
    requires Reordered(w, u) && multiset(a) == multiset(b)
    requires Walked(w, a, r) && Walked(u, b, s)
    ensures forall id :: id in Selected(w, r.fetched) ==>
      id in Selected(u, s.fetched) && Selected(w, r.fetched)[id] == Selected(u, s.fetched)[id]
  {
    forall id | id in Selected(w, r.fetched)
      ensures id in Selected(u, s.fetched) && Selected(w, r.fetched)[id] == Selected(u, s.fetched)[id]
    {
      var v := Selected(w, r.fetched)[id];
      SelectedIsGreatest(w, a, r, id);
      GreatestReordered(w, u, a, b, id, v);
      var d :| IsRequest(u, b, id, d) && Semver(u, d) == v;
      RequestIsCovered(u, b, s, d);
      SelectedIsGreatest(u, b, s, id);
      GreatestIsUnique(u, b, id, v, Selected(u, s.fetched)[id]);
    }
  }
}
