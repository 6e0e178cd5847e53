/** Which source is built for a package when several requests ask for its greatest version. A later
    request replaces an entry only if its version is greater, so the first of them that is walked is
    built. In some order that is any request that can be come to before another of them: the build
    is the same in every order exactly when those agree. */
module DependencyChoice {
  import opened Options
  import opened DependencyWalk
  import opened DependencySelection
  import opened DependencyOrder
  import opened DependencyLock

  // ---------------------------------------------------------------- who made an entry

  /** The chain leads to the `k`-th walked request through requests walked before it. */
  ghost predicate LeadsTo(w: World, roots: seq<Dep>, walked: seq<Dep>, k: nat, chain: seq<Dep>)
    requires k < |walked|
  {
    && IsChain(w, roots, chain) && IsSimple(chain) && chain[|chain| - 1] == walked[k]
    && forall i :: 0 <= i < |chain| - 1 ==> chain[i] in walked[..k]
  }

  ghost predicate IsLedTo(w: World, roots: seq<Dep>, walked: seq<Dep>, k: nat)
    requires k < |walked|
  {
    exists chain :: LeadsTo(w, roots, walked, k, chain)
  }

  ghost predicate AllLedTo(w: World, roots: seq<Dep>, walked: seq<Dep>) {
    forall k {:trigger IsLedTo(w, roots, walked, k)} :: 0 <= k < |walked| ==> IsLedTo(w, roots, walked, k)
  }

  /** Every request of the package walked before the `k`-th has a smaller version. */
  ghost predicate IsRecord(w: World, id: PkgId, walked: seq<Dep>, k: nat)
    requires k < |walked|
  {
    forall j :: 0 <= j < k && FiledUnder(w, walked[j]) == id ==> Less(Semver(w, walked[j]), Semver(w, walked[k]))
  }

  ghost predicate MadeFirst(w: World, f: Fetched, walked: seq<Dep>) {
    exists k :: 0 <= k < |walked| && MadeBy(w, f, walked[k]) && IsRecord(w, f.id, walked, k)
  }

  ghost predicate AllMadeFirst(w: World, fetched: seq<Fetched>, walked: seq<Dep>) {
    forall f {:trigger MadeFirst(w, f, walked)} :: f in fetched ==> MadeFirst(w, f, walked)
  }

  lemma MadeFirstOn(w: World, f: Fetched, walked: seq<Dep>, d: Dep)
    requires MadeFirst(w, f, walked)
    ensures MadeFirst(w, f, walked + [d])
  {
    var k :| 0 <= k < |walked| && MadeBy(w, f, walked[k]) && IsRecord(w, f.id, walked, k);
    hide MadeBy;
    hide FiledUnder;
    hide Semver;
    assert (walked + [d])[k] == walked[k] && IsRecord(w, f.id, walked + [d], k);
  }

  /** The new entry of a request: nothing walked before had its package and so great a version. */
  lemma NewIsRecord(w: World, fetched: seq<Fetched>, walked: seq<Dep>, d: Dep)
    requires Selects(w, fetched, walked) && w.fetch(d).Some?
    ensures var e := Entry(w, d, w.fetch(d).value);
      e in fetched || e !in Select(w, fetched, e) || MadeFirst(w, e, walked + [d])
  {
    var e := Entry(w, d, w.fetch(d).value);
    var i := FindPkg(fetched, e.id);
    assert MadeBy(w, e, d);
    if e !in fetched && e in Select(w, fetched, e) {
      forall j | 0 <= j < |walked| && FiledUnder(w, walked[j]) == e.id
        ensures Less(Semver(w, walked[j]), Semver(w, d))
      {
        assert walked[j] in walked && IsCovered(w, fetched, walked[j]);
        var f :| f in fetched && Covers(w, f, walked[j]);
        var k :| 0 <= k < |fetched| && fetched[k] == f;
        assert i == k;
      }
      assert (walked + [d])[|walked|] == d && IsRecord(w, e.id, walked + [d], |walked|);
    }
  }

  lemma SelectKeepsFirst(w: World, fetched: seq<Fetched>, walked: seq<Dep>, d: Dep)
    requires Selects(w, fetched, walked) && AllMadeFirst(w, fetched, walked) && w.fetch(d).Some?
    ensures AllMadeFirst(w, Select(w, fetched, Entry(w, d, w.fetch(d).value)), walked + [d])
  {
    var e := Entry(w, d, w.fetch(d).value);
    var after := Select(w, fetched, e);
    NewIsRecord(w, fetched, walked, d);
    forall f | f in after
      ensures MadeFirst(w, f, walked + [d])
    {
      if f in fetched {
        assert MadeFirst(w, f, walked);
        MadeFirstOn(w, f, walked, d);
      } else {
        assert f == e;
      }
    }
  }

  lemma LedToOn(w: World, roots: seq<Dep>, walked: seq<Dep>, stack: seq<Dep>, d: Dep)
    requires AllLedTo(w, roots, walked) && IsChain(w, roots, stack + [d]) && IsSimple(stack + [d])
    requires forall i :: 0 <= i < |stack| ==> stack[i] in walked
    ensures AllLedTo(w, roots, walked + [d])
  {
    var more := walked + [d];
    hide IsChain;
    hide IsSimple;
    forall k | 0 <= k < |more|
      ensures IsLedTo(w, roots, more, k)
    {
      if k < |walked| {
        assert more[..k] == walked[..k] && more[k] == walked[k];
        assert IsLedTo(w, roots, walked, k);
        var chain :| LeadsTo(w, roots, walked, k, chain);
        assert LeadsTo(w, roots, more, k, chain);
      } else {
        assert more[..k] == walked;
        assert LeadsTo(w, roots, more, k, stack + [d]);
      }
    }
  }

  // ---------------------------------------------------------------- the whole walk

  ghost predicate Tidy(w: World, roots: seq<Dep>, st: State) {
    && Selects(w, st.fetched, st.walked) && AllMadeFirst(w, st.fetched, st.walked)
    && AllLedTo(w, roots, st.walked)
  }

  ghost predicate IsWalkedStack(w: World, roots: seq<Dep>, stack: seq<Dep>, st: State) {
    IsStack(w, roots, stack, st.visited) && forall i :: 0 <= i < |stack| ==> stack[i] in st.walked
  }

  lemma StackStays(w: World, roots: seq<Dep>, stack: seq<Dep>, st: State, r: State)
    requires IsWalkedStack(w, roots, stack, st) && st.walked <= r.walked && st.visited <= r.visited
    ensures IsWalkedStack(w, roots, stack, r)
  {
    hide IsChain;
    hide IsSimple;
    hide VisitKey;
  }

  lemma {:induction false} DepsStayTidy(
    w: World, roots: seq<Dep>, deps: seq<Dep>, chain: seq<string>, st: State, stack: seq<Dep>)
    requires Tidy(w, roots, st) && IsWalkedStack(w, roots, stack, st) && AreNext(w, roots, stack, deps)
    ensures Tidy(w, roots, WalkDeps(w, deps, chain, st).0)
    decreases Room(w, st.visited), 1, |deps|
  {
    if deps != [] {
      var dep, here := deps[0], chain + [deps[0].name];
      NextSplits(w, roots, stack, deps);
      hide Tidy;
      hide IsWalkedStack;
      hide AreNext;
      if CheckOwner(w, dep, here).Ok? {
        var st1 := st.(log := st.log + [Checked(dep)]);
        SameRecord(w, roots, st, st1, stack);
        OneStaysTidy(w, roots, dep, here, st1, stack);
        var r := WalkOne(w, dep, here, st1);
        if r.1.Ok? {
          OneCompletes(w, dep, here, st1);
          StackStays(w, roots, stack, st1, r.0);
          RoomShrinks(w, st.visited, r.0.visited);
          DepsStayTidy(w, roots, deps[1..], chain, r.0, stack);
        }
      }
    }
  }

  lemma SameRecord(w: World, roots: seq<Dep>, st: State, t: State, stack: seq<Dep>)
    requires Tidy(w, roots, st) && IsWalkedStack(w, roots, stack, st)
    requires t == st.(log := t.log)
    ensures Tidy(w, roots, t) && IsWalkedStack(w, roots, stack, t)
  {
  }

  /** A new request is filed: everything is still in order, with it on the stack. */
  lemma EntersTidy(w: World, roots: seq<Dep>, dep: Dep, st: State, stack: seq<Dep>, entered: State)
    requires Tidy(w, roots, st) && IsWalkedStack(w, roots, stack, st) && AreNext(w, roots, stack, [dep])
    requires VisitKey(dep) !in st.visited && w.fetch(dep).Some?
    requires entered.fetched == Select(w, st.fetched, Entry(w, dep, w.fetch(dep).value))
    requires entered.walked == st.walked + [dep] && entered.visited == st.visited + {VisitKey(dep)}
    ensures Tidy(w, roots, entered) && IsWalkedStack(w, roots, stack + [dep], entered)
    ensures AreNext(w, roots, stack + [dep], Requirements(w, dep))
  {
    StackOn(w, roots, stack, st.visited, dep);
    SelectKeepsSelection(w, st.fetched, st.walked, dep);
    SelectKeepsFirst(w, st.fetched, st.walked, dep);
    LedToOn(w, roots, st.walked, stack, dep);
    hide Select;
    hide VisitKey;
    hide IsSimple;
    hide IsChain;
  }

  lemma {:induction false} OneStaysTidy(
    w: World, roots: seq<Dep>, dep: Dep, chain: seq<string>, st: State, stack: seq<Dep>)
    requires Tidy(w, roots, st) && IsWalkedStack(w, roots, stack, st) && AreNext(w, roots, stack, [dep])
    ensures Tidy(w, roots, WalkOne(w, dep, chain, st).0)
    decreases Room(w, st.visited), 0, 0
  {
    var st1 := Visit(st, dep);
    if VisitKey(dep) !in st.visited && |st1.visited| <= w.countLimit && |chain| <= w.depthLimit && w.fetch(dep).Some? {
      var st2 := st1.(log := st1.log + [Fetching(dep, |chain|)]);
      var st3 := Record(w, st2, dep, w.fetch(dep).value);
      RoomShrinks(w, st.visited, st1.visited);
      EntersTidy(w, roots, dep, st, stack, st3);
      DepsStayTidy(w, roots, Requirements(w, dep), chain, st3, stack + [dep]);
    }
  }

  /** Whether or not the walk succeeds. */
  lemma EveryRunIsTidy(w: World, roots: seq<Dep>)
    ensures Tidy(w, roots, Final(w, roots))
  {
    DepsStayTidy(w, roots, roots, [], Start, []);
  }

  // ---------------------------------------------------------------- requests that can come first

  ghost predicate IsGreatest(w: World, roots: seq<Dep>, id: PkgId, d: Dep) {
    IsRequest(w, roots, id, d) && GreatestRequested(w, roots, id, Semver(w, d))
  }

  /** A chain of pairwise different keys to a request for the package's greatest version, with no other
      such request before it. */
  ghost predicate ComesFirst(w: World, roots: seq<Dep>, id: PkgId, chain: seq<Dep>) {
    && IsChain(w, roots, chain) && IsSimple(chain) && IsGreatest(w, roots, id, chain[|chain| - 1])
    && forall i :: 0 <= i < |chain| - 1 ==> !IsGreatest(w, roots, id, chain[i])
  }

  ghost predicate CanComeFirst(w: World, roots: seq<Dep>, id: PkgId, d: Dep) {
    exists chain :: ComesFirst(w, roots, id, chain) && chain[|chain| - 1] == d
  }

  lemma SmallerIsNotGreatest(w: World, roots: seq<Dep>, id: PkgId, d: Dep, e: Dep)
    requires IsRequest(w, roots, id, d) && Less(Semver(w, e), Semver(w, d))
    ensures !IsGreatest(w, roots, id, e)
  {
  }

  /** What a successful walk builds for a package was asked for by a request that can come first. */
  lemma BuiltCanComeFirst(w: World, roots: seq<Dep>, f: Fetched) returns (d: Dep)
    requires KeyDetermines(w, roots) && Succeeds(w, roots) && f in Final(w, roots).fetched
    ensures CanComeFirst(w, roots, f.id, d) && MadeBy(w, f, d)
  {
    var r := Final(w, roots);
    EveryRunIsTidy(w, roots);
    SuccessWalks(w, roots);
    assert MadeFirst(w, f, r.walked);
    var k :| 0 <= k < |r.walked| && MadeBy(w, f, r.walked[k]) && IsRecord(w, f.id, r.walked, k);
    assert IsLedTo(w, roots, r.walked, k);
    var chain :| LeadsTo(w, roots, r.walked, k, chain);
    d := r.walked[k];
    EntryIsSelected(w, r.fetched, f);
    SelectedIsGreatest(w, roots, r, f.id);
    assert IsRequest(w, roots, f.id, d);
    hide *;
    NoneBefore(w, roots, f.id, r.walked, k, chain);
    assert CanComeFirst(w, roots, f.id, d) by {
      ComesFirstShows(w, roots, f.id, chain);
    }
  }

  lemma ComesFirstShows(w: World, roots: seq<Dep>, id: PkgId, chain: seq<Dep>)
    requires ComesFirst(w, roots, id, chain)
    ensures chain != [] && CanComeFirst(w, roots, id, chain[|chain| - 1])
  {
  }

  lemma NoneBefore(w: World, roots: seq<Dep>, id: PkgId, walked: seq<Dep>, k: nat, chain: seq<Dep>)
    requires k < |walked| && IsRecord(w, id, walked, k) && LeadsTo(w, roots, walked, k, chain)
    requires IsGreatest(w, roots, id, walked[k])
    ensures ComesFirst(w, roots, id, chain)
  {
    hide IsChain;
    hide IsSimple;
    hide GreatestRequested;
    forall i | 0 <= i < |chain| - 1
      ensures !IsGreatest(w, roots, id, chain[i])
    {
      var j :| 0 <= j < k && walked[j] == chain[i];
      if FiledUnder(w, chain[i]) == id {
        SmallerIsNotGreatest(w, roots, id, walked[k], chain[i]);
      }
    }
  }

  // ---------------------------------------------------------------- an order in which it does come first

  /** The walk goes straight down the chain. */
  lemma {:induction false} GoesDown(u: World, chain: seq<Dep>, i: nat, deps: seq<Dep>, names: seq<string>, st: State)
    requires LeadsDown(u, chain) && IsSimple(chain) && i < |chain| && deps != [] && deps[0] == chain[i]
    requires st.visited == Keys(chain[..i]) && st.walked == chain[..i]
    requires WalkDeps(u, deps, names, st).1.Ok?
    ensures chain <= WalkDeps(u, deps, names, st).0.walked
    decreases |chain| - i, 2
  {
    var here := names + [deps[0].name];
    var st1 := st.(log := st.log + [Checked(deps[0])]);
    OneGoesDown(u, chain, i, here, st1);
    var r := WalkOne(u, deps[0], here, st1).0;
    WalkedStays(u, deps[1..], names, r);
  }

  lemma {:induction false} OneGoesDown(u: World, chain: seq<Dep>, i: nat, names: seq<string>, st: State)
    requires LeadsDown(u, chain) && IsSimple(chain) && i < |chain|
    requires st.visited == Keys(chain[..i]) && st.walked == chain[..i]
    requires WalkOne(u, chain[i], names, st).1.Ok?
    ensures chain <= WalkOne(u, chain[i], names, st).0.walked
    decreases |chain| - i, 1
  {
    hide *;
    FreshOnChain(chain, i);
    var entered := StepIn(u, chain[i], names, st);
    assert chain[..i] + [chain[i]] == chain[..i + 1];
    GoesOn(u, chain, i, names, entered);
  }

  lemma {:induction false} GoesOn(u: World, chain: seq<Dep>, i: nat, names: seq<string>, st: State)
    requires LeadsDown(u, chain) && IsSimple(chain) && i < |chain|
    requires st.visited == Keys(chain[..i + 1]) && st.walked == chain[..i + 1]
    requires WalkDeps(u, Requirements(u, chain[i]), names, st).1.Ok?
    ensures chain <= WalkDeps(u, Requirements(u, chain[i]), names, st).0.walked
    decreases |chain| - i, 0
  {
    if i + 1 < |chain| {
      assert LeadsAt(u, chain, i);
      GoesDown(u, chain, i + 1, Requirements(u, chain[i]), names, st);
    } else {
      assert chain[..i + 1] == chain;
      WalkedStays(u, Requirements(u, chain[i]), names, st);
    }
    hide *;
  }

  lemma WalkedStays(u: World, deps: seq<Dep>, names: seq<string>, st: State)
    requires WalkDeps(u, deps, names, st).1.Ok?
    ensures st.walked <= WalkDeps(u, deps, names, st).0.walked
  {
    DepsComplete(u, deps, names, st);
  }

  lemma StepIn(u: World, dep: Dep, names: seq<string>, st: State) returns (entered: State)
    requires VisitKey(dep) !in st.visited && WalkOne(u, dep, names, st).1.Ok?
    ensures entered.visited == st.visited + {VisitKey(dep)} && entered.walked == st.walked + [dep]
    ensures WalkOne(u, dep, names, st) == WalkDeps(u, Requirements(u, dep), names, entered)
  {
    var st1 := Visit(st, dep);
    var st2 := st1.(log := st1.log + [Fetching(dep, |names|)]);
    entered := Record(u, st2, dep, u.fetch(dep).value);
  }

  /** The order that lists a chain's requests first walks them first. */
  lemma ChainIsWalkedFirst(w: World, roots: seq<Dep>, chain: seq<Dep>)
    requires IsChain(w, roots, chain) && IsSimple(chain)
    requires Succeeds(DownTheChain(w, chain), PutFirst(roots, chain[0]))
    ensures chain <= Final(DownTheChain(w, chain), PutFirst(roots, chain[0])).walked
  {
    PutFirstReorders(roots, chain[0]);
    ChainLeadsDown(w, roots, chain);
    assert chain[..0] == [] && Keys([]) == {};
    GoesDown(DownTheChain(w, chain), chain, 0, PutFirst(roots, chain[0]), [], Start);
  }

  /** The first walked request for the greatest version is the one that is built. */
  lemma FirstIsBuilt(u: World, roots: seq<Dep>, id: PkgId, chain: seq<Dep>) returns (f: Fetched)
    requires KeyDetermines(u, roots) && Succeeds(u, roots)
    requires ComesFirst(u, roots, id, chain) && chain <= Final(u, roots).walked
    ensures f in Final(u, roots).fetched && f.id == id && MadeBy(u, f, chain[|chain| - 1])
  {
    var r, last, d := Final(u, roots), |chain| - 1, chain[|chain| - 1];
    EveryRunIsTidy(u, roots);
    SuccessWalks(u, roots);
    RequestIsCovered(u, roots, r, d);
    f := r.fetched[FindPkg(r.fetched, id)];
    assert f in r.fetched && f.id == id by {
      var g :| g in r.fetched && g.id == id;
      var k :| 0 <= k < |r.fetched| && r.fetched[k] == g;
      assert FindPkg(r.fetched, id) <= k;
    }
    SelectedIsGreatest(u, roots, r, id);
    assert MadeFirst(u, f, r.walked);
    var k :| 0 <= k < |r.walked| && MadeBy(u, f, r.walked[k]) && IsRecord(u, id, r.walked, k);
    EntryIsSelected(u, r.fetched, f);
    GreatestIsUnique(u, roots, id, Semver(u, d), Semver(u, r.walked[k]));
    assert IsRequest(u, roots, id, r.walked[k]);
    hide Final;
    hide Succeeds;
    hide KeyDetermines;
    hide Walked;
    hide Tidy;
    OnlyOneRecord(u, roots, id, chain, r.walked, k);
  }

  /** Of the requests for the greatest version only the first has none before it. */
  lemma OnlyOneRecord(u: World, roots: seq<Dep>, id: PkgId, chain: seq<Dep>, walked: seq<Dep>, k: nat)
    requires ComesFirst(u, roots, id, chain) && chain <= walked && k < |walked|
    requires IsGreatest(u, roots, id, walked[k]) && IsRecord(u, id, walked, k)
    ensures k == |chain| - 1
  {
    var last := |chain| - 1;
    assert walked[last] == chain[last];
    assert forall i :: 0 <= i < last ==> walked[i] == chain[i];
    assert !Less(Semver(u, walked[last]), Semver(u, walked[k]));
    hide IsGreatest;
  }

  // ---------------------------------------------------------------- the main results

  /** Where a request is built from. */
  function PlaceOf(w: World, d: Dep): (string, string) {
    (d.git, if w.fetch(d).Some? then w.fetch(d).value.dir else "")
  }

  /** The source and the directory the walk selected for each package. */
  function Built(fetched: seq<Fetched>): map<PkgId, (string, string)> {
    map id | id in Packages(fetched) ::
      (fetched[FindPkg(fetched, id)].source, fetched[FindPkg(fetched, id)].dir)
  }

  /** The requests that can come first for a package are built from one place. */
  ghost predicate FirstsAgree(w: World, roots: seq<Dep>) {
    forall id, d, e {:trigger CanComeFirst(w, roots, id, d), CanComeFirst(w, roots, id, e)} ::
      CanComeFirst(w, roots, id, d) && CanComeFirst(w, roots, id, e) ==> PlaceOf(w, d) == PlaceOf(w, e)
  }

  /** In every order that succeeds the same is built. */
  ghost predicate OneBuild(w: World, roots: seq<Dep>) {
    forall u, b :: IsReordering(w, u) && multiset(roots) == multiset(b) && Succeeds(u, b) && Succeeds(w, roots) ==>
      Built(Final(u, b).fetched) == Built(Final(w, roots).fetched)
  }

  lemma EntryIsBuilt(fetched: seq<Fetched>, f: Fetched)
    requires Distinct(fetched) && f in fetched
    ensures f.id in Built(fetched) && Built(fetched)[f.id] == (f.source, f.dir)
  {
    var k :| 0 <= k < |fetched| && fetched[k] == f;
    assert FindPkg(fetched, f.id) <= k;
  }

  lemma PlaceReordered(w: World, u: World, d: Dep)
    requires IsReordering(w, u)
    ensures PlaceOf(w, d) == PlaceOf(u, d)
  {
    assert SameCheckout(w.fetch(d), u.fetch(d));
  }

  lemma GreatestDepReordered(w: World, u: World, a: seq<Dep>, b: seq<Dep>, id: PkgId, d: Dep)
    requires Reordered(w, u) && multiset(a) == multiset(b)
    ensures IsGreatest(w, a, id, d) ==> IsGreatest(u, b, id, d)
  {
    if IsGreatest(w, a, id, d) {
      ReachableReordered(w, u, a, b, d);
      GreatestReordered(w, u, a, b, id, Semver(w, d));
    }
  }

  lemma ComesFirstReordered(w: World, u: World, a: seq<Dep>, b: seq<Dep>, id: PkgId, chain: seq<Dep>)
    requires Reordered(w, u) && Reordered(u, w) && multiset(a) == multiset(b) && ComesFirst(w, a, id, chain)
    ensures ComesFirst(u, b, id, chain)
  {
    ChainReordered(w, u, a, b, chain);
    GreatestDepReordered(w, u, a, b, id, chain[|chain| - 1]);
    hide IsGreatest;
    hide Reordered;
    hide IsChain;
    forall i | 0 <= i < |chain| - 1
      ensures !IsGreatest(u, b, id, chain[i])
    {
      GreatestDepReordered(u, w, b, a, id, chain[i]);
    }
  }

  lemma BuiltIsFirst(w: World, u: World, a: seq<Dep>, b: seq<Dep>, id: PkgId) returns (d: Dep)
    requires KeyDetermines(w, a) && IsReordering(w, u) && multiset(a) == multiset(b) && Succeeds(u, b)
    requires id in Built(Final(u, b).fetched)
    ensures CanComeFirst(w, a, id, d) && Built(Final(u, b).fetched)[id] == PlaceOf(w, d)
  {
    var fetched := Final(u, b).fetched;
    ReorderingIsReordered(w, u);
    ReorderingIsReordered(u, w);
    KeyDeterminesReordered(w, u, a, b);
    SuccessWalks(u, b);
    var f :| f in fetched && f.id == id;
    d := BuiltCanComeFirst(u, b, f);
    EntryIsBuilt(fetched, f);
    PlaceReordered(w, u, d);
    var chain :| ComesFirst(u, b, id, chain) && chain[|chain| - 1] == d;
    ComesFirstReordered(u, w, b, a, id, chain);
  }

  /** If the requests that can come first agree, the same is built in any two orders that succeed. */
  lemma AgreeingIsOneBuild(w: World, u: World, a: seq<Dep>, b: seq<Dep>)
    requires KeyDetermines(w, a) && FirstsAgree(w, a)
    requires IsReordering(w, u) && multiset(a) == multiset(b) && Succeeds(w, a) && Succeeds(u, b)
    ensures Built(Final(w, a).fetched) == Built(Final(u, b).fetched)
  {
    var x, y := Final(w, a).fetched, Final(u, b).fetched;
    ReorderingIsReordered(w, u);
    OrderDoesNotMatter(w, u, a, b);
    assert Selected(w, x).Keys == Packages(x) && Selected(u, y).Keys == Packages(y);
    assert IsReordering(w, w);
    forall id | id in Built(x)
      ensures id in Built(y) && Built(x)[id] == Built(y)[id]
    {
      var d := BuiltIsFirst(w, w, a, a, id);
      var e := BuiltIsFirst(w, u, a, b, id);
    }
    assert Built(x).Keys == Built(y).Keys;
  }

  /** In some order a request that can come first is built, if that order succeeds. */
  lemma FirstCanBeBuilt(w: World, roots: seq<Dep>, id: PkgId, d: Dep) returns (u: World, b: seq<Dep>)
    requires KeyDetermines(w, roots) && CanComeFirst(w, roots, id, d)
    ensures IsReordering(w, u) && multiset(roots) == multiset(b)
    ensures Succeeds(u, b) ==> id in Built(Final(u, b).fetched) && Built(Final(u, b).fetched)[id] == PlaceOf(w, d)
  {
    var chain :| ComesFirst(w, roots, id, chain) && chain[|chain| - 1] == d;
    u, b := DownTheChain(w, chain), PutFirst(roots, chain[0]);
    DownTheChainReorders(w, chain);
    PutFirstReorders(roots, chain[0]);
    if Succeeds(u, b) {
      ChainIsWalkedFirst(w, roots, chain);
      hide DownTheChain;
      hide PutFirst;
      ReorderingIsReordered(w, u);
      ReorderingIsReordered(u, w);
      KeyDeterminesReordered(w, u, roots, b);
      ComesFirstReordered(w, u, roots, b, id, chain);
      var f := FirstIsBuilt(u, b, id, chain);
      SuccessWalks(u, b);
      EntryIsBuilt(Final(u, b).fetched, f);
      PlaceReordered(w, u, d);
    }
  }

  /** Where every order succeeds, the same source and directory are built in all of them if and only if
      the requests that can come first for a package agree in theirs. */
  lemma OneBuildIff(w: World, roots: seq<Dep>)
    requires KeyDetermines(w, roots) && AlwaysSucceeds(w, roots)
    ensures OneBuild(w, roots) <==> FirstsAgree(w, roots)
  {
    assert IsReordering(w, w) && multiset(roots) == multiset(roots);
    if OneBuild(w, roots) {
      forall id, d, e | CanComeFirst(w, roots, id, d) && CanComeFirst(w, roots, id, e)
        ensures PlaceOf(w, d) == PlaceOf(w, e)
      {
        var u, b := FirstCanBeBuilt(w, roots, id, d);
        var v, c := FirstCanBeBuilt(w, roots, id, e);
        assert Succeeds(u, b) && Succeeds(v, c);
      }
    }
    if FirstsAgree(w, roots) {
      forall u, b | IsReordering(w, u) && multiset(roots) == multiset(b)
        ensures Built(Final(u, b).fetched) == Built(Final(w, roots).fetched)
      {
        AgreeingIsOneBuild(w, u, roots, b);
      }
    }
  }

  /** If all requests for a package's greatest version are built from one place, order does not matter. */
  lemma AllAgreeingIsOneBuild(w: World, u: World, a: seq<Dep>, b: seq<Dep>)
    requires KeyDetermines(w, a)
    requires forall id, d, e :: IsGreatest(w, a, id, d) && IsGreatest(w, a, id, e) ==> PlaceOf(w, d) == PlaceOf(w, e)
    requires IsReordering(w, u) && multiset(a) == multiset(b) && Succeeds(w, a) && Succeeds(u, b)
    ensures Built(Final(w, a).fetched) == Built(Final(u, b).fetched)
  {
    AgreeingIsOneBuild(w, u, a, b);
  }

  // ---------------------------------------------------------------- two inputs

  /** A package `p` from the repository `git`, with no version. */
  function TwinDep(git: string): Dep {
    Dep("p", git, None, None, None, None, None)
  }

  const X := TwinDep("x")
  const Y := TwinDep("y")

  /** The source `x` requires some of the others; the source `y` requires nothing. */
  function TwinWorld(required: seq<Dep>): World {
    LocalWorld((d: Dep) => if d == X then required else [], 10)
  }

  lemma TwinFacts(required: seq<Dep>)
    ensures VisitKey(X) != VisitKey(Y) && X != Y
    ensures var w := TwinWorld(required);
      && InLocalWorld(w) && Requirements(w, X) == required && Requirements(w, Y) == []
      && FiledUnder(w, X) == FiledUnder(w, Y) == PkgId("p", 0)
      && PlaceOf(w, X) == ("x", "dir") && PlaceOf(w, Y) == ("y", "dir")
  {
    assert VisitKey(X)[0] == 'x' && VisitKey(Y)[0] == 'y';
    assert X.git[0] == 'x' && Y.git[0] == 'y';
  }

  /** Two sources for one package, both direct: the one that is listed first is built. */
  lemma ListedFirstIsBuilt()
    ensures var w := TwinWorld([]);
      && Succeeds(w, [X, Y]) && Built(Final(w, [X, Y]).fetched) == map[PkgId("p", 0) := ("x", "dir")]
      && Succeeds(w, [Y, X]) && Built(Final(w, [Y, X]).fetched) == map[PkgId("p", 0) := ("y", "dir")]
  {
    TwinFacts([]);
    BothWalked(X, Y);
    BothWalked(Y, X);
  }

  lemma BothWalked(d: Dep, e: Dep)
    requires (d == X && e == Y) || (d == Y && e == X)
    ensures var w := TwinWorld([]);
      Succeeds(w, [d, e]) && Built(Final(w, [d, e]).fetched) == map[PkgId("p", 0) := PlaceOf(w, d)]
  {
    var w := TwinWorld([]);
    TwinFacts([]);
    var s1 := Entered(w, Start, d, 1);
    var s2 := Entered(w, s1, e, 1);
    EnteredVisits(w, Start, d, 1);
    SecondIsDropped(d, e);
    hide VisitKey;
    hide InLocalWorld;
    hide TwinWorld;
    hide Requirements;
    assert s1.fetched == [Entry(w, d, w.fetch(d).value)] && s2.fetched == s1.fetched;
    hide Entered;
    EnterStep(w, [d, e], [], Start);
    EnterStep(w, [e], [], s1);
    assert [d, e][1..] == [e] && [e][1..] == [];
    OnlyOneBuilt(w, s2.fetched[0]);
    assert s2.fetched == [s2.fetched[0]];
  }

  lemma OnlyOneBuilt(w: World, f: Fetched)
    ensures Built([f]) == map[f.id := (f.source, f.dir)]
  {
    assert f in [f];
    assert Packages([f]) == {f.id};
    EntryIsBuilt([f], f);
  }

  /** The second source's version is not greater. */
  lemma SecondIsDropped(d: Dep, e: Dep)
    requires (d == X && e == Y) || (d == Y && e == X)
    ensures var w := TwinWorld([]);
      var f, g := Entry(w, d, w.fetch(d).value), Entry(w, e, w.fetch(e).value);
      Select(w, [], f) == [f] && Select(w, [f], g) == [f] && f.id == PkgId("p", 0) && (f.source, f.dir) == PlaceOf(w, d)
  {
    TwinFacts([]);
    var w := TwinWorld([]);
    var f, g := Entry(w, d, w.fetch(d).value), Entry(w, e, w.fetch(e).value);
    assert FindPkg([f], g.id) == 0;
  }

  lemma NextIsRequired(w: World, roots: seq<Dep>, chain: seq<Dep>, i: nat)
    requires IsChain(w, roots, chain) && 0 < i < |chain|
    ensures chain[i] in Requirements(w, chain[i - 1])
  {
  }

  /** Where the source `x` requires `y`. */
  lemma TwinChain(chain: seq<Dep>)
    requires IsChain(TwinWorld([Y]), [X], chain)
    ensures chain == [X] || chain == [X, Y]
  {
    var w := TwinWorld([Y]);
    TwinFacts([Y]);
    assert chain[0] == X;
    hide IsChain;
    if |chain| > 1 {
      NextIsRequired(w, [X], chain, 1);
    }
    if |chain| > 2 {
      NextIsRequired(w, [X], chain, 2);
    }
  }

  lemma TwinReachable(d: Dep)
    ensures Reachable(TwinWorld([Y]), [X], d) <==> d == X || d == Y
  {
    var w := TwinWorld([Y]);
    TwinFacts([Y]);
    if Reachable(w, [X], d) {
      var chain :| IsChain(w, [X], chain) && chain[|chain| - 1] == d;
      TwinChain(chain);
    }
    RootReachable(w, [X], X);
    RequirementReachable(w, [X], X, Y);
  }

  /** Requests for the greatest version need not all agree: the package `p` from the source `y` is only
      asked for by `p` from the source `x`, so `x` is built in every order. */
  lemma HiddenSourceIsNeverBuilt()
    ensures var w, id := TwinWorld([Y]), PkgId("p", 0);
      && IsGreatest(w, [X], id, X) && IsGreatest(w, [X], id, Y) && PlaceOf(w, X) != PlaceOf(w, Y)
      && KeyDetermines(w, [X]) && AlwaysSucceeds(w, [X]) && OneBuild(w, [X])
  {
    var w, id := TwinWorld([Y]), PkgId("p", 0);
    TwinFacts([Y]);
    forall d
      ensures Reachable(w, [X], d) <==> d == X || d == Y
    {
      TwinReachable(d);
    }
    hide Reachable;
    TwinIsGreatest();
    TwinSucceeds();
    forall i, d, e | CanComeFirst(w, [X], i, d) && CanComeFirst(w, [X], i, e)
      ensures d == X
      ensures PlaceOf(w, d) == PlaceOf(w, e)
    {
      TwinFirst(i, d);
      TwinFirst(i, e);
    }
    OneBuildIff(w, [X]);
  }

  lemma TwinIsGreatest()
    ensures var w, id := TwinWorld([Y]), PkgId("p", 0); IsGreatest(w, [X], id, X) && IsGreatest(w, [X], id, Y)
  {
    var w, id := TwinWorld([Y]), PkgId("p", 0);
    TwinFacts([Y]);
    TwinReachable(X);
    TwinReachable(Y);
    assert IsRequest(w, [X], id, X) && IsRequest(w, [X], id, Y);
    forall d
      ensures Semver(w, d) == Version(0, 0, 0, 0.0)
    {
    }
  }

  lemma TwinFirst(id: PkgId, d: Dep)
    requires CanComeFirst(TwinWorld([Y]), [X], id, d)
    ensures d == X
  {
    var w := TwinWorld([Y]);
    var chain :| ComesFirst(w, [X], id, chain) && chain[|chain| - 1] == d;
    TwinChain(chain);
    TwinFacts([Y]);
    TwinIsGreatest();
    assert chain != [X, Y];
  }

  lemma TwinDetermines()
    ensures KeyDetermines(TwinWorld([Y]), [X])
  {
    var w := TwinWorld([Y]);
    TwinFacts([Y]);
    forall d, e | Reachable(w, [X], d) && Reachable(w, [X], e) && VisitKey(d) == VisitKey(e)
      ensures SameRequest(w, d, e)
    {
      TwinReachable(d);
      TwinReachable(e);
      hide VisitKey;
    }
  }

  lemma TwinSucceeds()
    ensures KeyDetermines(TwinWorld([Y]), [X]) && AlwaysSucceeds(TwinWorld([Y]), [X])
  {
    var w := TwinWorld([Y]);
    TwinDetermines();
    DeterminedIsFixed(w, [X]);
    TwinPasses();
    TwinFits();
    AlwaysSucceedsIff(w, [X]);
  }

  lemma TwinPasses()
    ensures AllPass(TwinWorld([Y]), [X]) && forall d :: Passes(TwinWorld([Y]), d)
  {
  }

  lemma TwinFits()
    ensures FewKeys(TwinWorld([Y]), [X]) && NoDeepChain(TwinWorld([Y]), [X])
  {
    var w := TwinWorld([Y]);
    var keys := {VisitKey(X), VisitKey(Y)};
    forall d | Reachable(w, [X], d)
      ensures VisitKey(d) in keys
    {
      TwinReachable(d);
    }
    assert |keys| <= 2 && HoldsKeys(w, [X], keys);
    forall chain | IsChain(w, [X], chain)
      ensures |chain| <= w.depthLimit
    {
      TwinChain(chain);
    }
  }
}
