/** The lock entries a walk leads to, and two walks that show what the order-independence of
    `DependencySelection` needs. */
module DependencyLock {
  import opened Options
  import opened DependencyWalk
  import opened DependencySelection

  // ---------------------------------------------------------------- almide.lock

  datatype LockedDep = LockedDep(name: string, git: string, refName: string, commit: string, subdir: Option<string>)

  predicate IsRequestOf(r: Resolution, dep: Dep) {
    r.dep.name == dep.name && r.dep.git == dep.git && r.refName == RefName(dep) && r.dep.subdir == dep.subdir
  }

  predicate IsBuildOf(r: Resolution, f: Fetched) {
    r.id == f.id && r.dir == f.dir
  }

  function FirstResolution(resolved: seq<Resolution>, p: Resolution -> bool): (r: Option<Resolution>)
    ensures r.Some? ==> r.value in resolved && p(r.value)
    ensures r.None? ==> forall x :: x in resolved ==> !p(x)
  {
    if resolved == [] then None
    else if p(resolved[0]) then Some(resolved[0])
    else FirstResolution(resolved[1..], p)
  }

  /** The entry for one direct dependency: its own fetch says which package it asked for, and
      the lock takes the fetch whose checkout was selected for that package. */
  function LockEntry(dep: Dep, resolved: seq<Resolution>, fetched: seq<Fetched>): seq<LockedDep> {
    match FirstResolution(resolved, r => IsRequestOf(r, dep))
    case None => []
    case Some(request) =>
      var i := FindPkg(fetched, request.id);
      if i == |fetched| then []
      else
        match FirstResolution(resolved, r => IsBuildOf(r, fetched[i]))
        case None => []
        case Some(s) => [LockedDep(dep.name, s.dep.git, s.refName, s.commit, s.dep.subdir)]
  }

  function LockEntries(deps: seq<Dep>, resolved: seq<Resolution>, fetched: seq<Fetched>): seq<LockedDep> {
    if deps == [] then []
    else LockEntries(deps[..|deps| - 1], resolved, fetched) + LockEntry(deps[|deps| - 1], resolved, fetched)
  }

  method ResolvedLockEntries(deps: seq<Dep>, resolved: seq<Resolution>, fetched: seq<Fetched>)
    returns (locked: seq<LockedDep>)
    ensures locked == LockEntries(deps, resolved, fetched)
  {
    locked := [];
    for n := 0 to |deps|
      invariant locked == LockEntries(deps[..n], resolved, fetched)
    {
      assert deps[..n + 1][..n] == deps[..n];
      var request := FirstResolution(resolved, r => IsRequestOf(r, deps[n]));
      if request.None? {
        continue;
      }
      var i := FindPkg(fetched, request.value.id);
      if i < |fetched| {
        var selected := FirstResolution(resolved, r => IsBuildOf(r, fetched[i]));
        if selected.Some? {
          var s := selected.value;
          locked := locked + [LockedDep(deps[n].name, s.dep.git, s.refName, s.commit, s.dep.subdir)];
        }
      }
    }
    assert deps[..|deps|] == deps;
  }

  function ResolveAll(w: World, walked: seq<Dep>): seq<Resolution> {
    if walked == [] then []
    else
      var d := walked[|walked| - 1];
      ResolveAll(w, walked[..|walked| - 1]) +
      (match w.fetch(d) case Some(c) => Resolve(w, d, c) case None => [])
  }

  lemma {:induction false} DepsResolve(w: World, deps: seq<Dep>, chain: seq<string>, st: State)
    requires st.resolved == ResolveAll(w, st.walked)
    ensures var r := WalkDeps(w, deps, chain, st).0; r.resolved == ResolveAll(w, r.walked)
    decreases Room(w, st.visited), 1, |deps|
  {
    if deps != [] {
      var here := chain + [deps[0].name];
      if CheckOwner(w, deps[0], here).Ok? {
        var st1 := st.(log := st.log + [Checked(deps[0])]);
        OneResolves(w, deps[0], here, st1);
        var r := WalkOne(w, deps[0], here, st1);
        if r.1.Ok? {
          RoomShrinks(w, st.visited, r.0.visited);
          DepsResolve(w, deps[1..], chain, r.0);
        }
      }
    }
  }

  lemma {:induction false} OneResolves(w: World, dep: Dep, chain: seq<string>, st: State)
    requires st.resolved == ResolveAll(w, st.walked)
    ensures var r := WalkOne(w, dep, chain, st).0; r.resolved == ResolveAll(w, r.walked)
    decreases Room(w, st.visited), 0, 0
  {
    var st1 := Visit(st, dep);
    if VisitKey(dep) !in st.visited && |st1.visited| <= w.countLimit && |chain| <= w.depthLimit && w.fetch(dep).Some? {
      var st2 := st1.(log := st1.log + [Fetching(dep, |chain|)]);
      var st3 := Record(w, st2, dep, w.fetch(dep).value);
      assert st3.walked[..|st3.walked| - 1] == st.walked;
      RoomShrinks(w, st.visited, st1.visited);
      DepsResolve(w, Requirements(w, dep), chain, st3);
    }
  }

  ghost predicate ResolvedBy(w: World, r: Resolution, d: Dep) {
    && w.fetch(d).Some? && w.fetch(d).value.commit == Some(r.commit)
    && r == Resolution(d, RefName(d), r.commit, FiledUnder(w, d), w.fetch(d).value.dir)
  }

  lemma FiledAsEntered(w: World, d: Dep)
    requires w.fetch(d).Some?
    ensures Entry(w, d, w.fetch(d).value).id == FiledUnder(w, d)
  {
  }

  lemma {:induction false} ResolvedAreWalked(w: World, walked: seq<Dep>, r: Resolution)
    requires r in ResolveAll(w, walked)
    ensures exists d :: d in walked && ResolvedBy(w, r, d)
  {
    var d := walked[|walked| - 1];
    if r in ResolveAll(w, walked[..|walked| - 1]) {
      ResolvedAreWalked(w, walked[..|walked| - 1], r);
    } else {
      FiledAsEntered(w, d);
      assert d in walked && ResolvedBy(w, r, d);
    }
  }

  lemma {:induction false} WalkedAreResolved(w: World, walked: seq<Dep>, d: Dep)
    requires d in walked && w.fetch(d).Some? && w.fetch(d).value.commit.Some?
    ensures exists r :: r in ResolveAll(w, walked) && ResolvedBy(w, r, d)
  {
    if d in walked[..|walked| - 1] {
      WalkedAreResolved(w, walked[..|walked| - 1], d);
      var r :| r in ResolveAll(w, walked[..|walked| - 1]) && ResolvedBy(w, r, d);
      assert r in ResolveAll(w, walked);
    } else {
      FiledAsEntered(w, d);
      var rs := Resolve(w, d, w.fetch(d).value);
      assert rs[0] in ResolveAll(w, walked) && ResolvedBy(w, rs[0], d);
    }
  }

  /** `f` is the entry selected for the package the direct dependency's own fetch was filed
      under. */
  ghost predicate SelectedFor(st: State, dep: Dep, f: Fetched) {
    var request := FirstResolution(st.resolved, r => IsRequestOf(r, dep));
    request.Some? && f in st.fetched && f.id == request.value.id
  }

  /** `e` is the git source, ref and commit of one walked request whose checkout is the one
      selected: the lock never pairs one fetch's ref with another's commit (#2529), and it
      names what is built rather than what was asked for (#2532). */
  ghost predicate LocksSelection(w: World, st: State, dep: Dep, e: LockedDep) {
    exists f, d ::
      && SelectedFor(st, dep, f)
      && d in st.walked && FiledUnder(w, d) == f.id
      && w.fetch(d).Some? && w.fetch(d).value.dir == f.dir
      && w.fetch(d).value.commit.Some?
      && e == LockedDep(dep.name, d.git, RefName(d), w.fetch(d).value.commit.value, d.subdir)
  }

  /** After any walk, successful or not, from the start. */
  lemma LockEntryIsTheSelection(w: World, roots: seq<Dep>, dep: Dep)
    ensures var st := Final(w, roots);
      forall e :: e in LockEntry(dep, st.resolved, st.fetched) ==> LocksSelection(w, st, dep, e)
  {
    var st := Final(w, roots);
    DepsResolve(w, roots, [], Start);
    var entry := LockEntry(dep, st.resolved, st.fetched);
    if entry != [] {
      var request := FirstResolution(st.resolved, r => IsRequestOf(r, dep)).value;
      var f := st.fetched[FindPkg(st.fetched, request.id)];
      var s := FirstResolution(st.resolved, r => IsBuildOf(r, f)).value;
      assert IsBuildOf(s, f);
      ResolvedAreWalked(w, st.walked, s);
      var d :| d in st.walked && ResolvedBy(w, s, d);
      assert SelectedFor(st, dep, f);
      assert LocksSelection(w, st, dep, entry[0]);
    }
  }

  /** One checkout directory belongs to one source at one commit. */
  ghost predicate DirectoryDetermines(w: World) {
    forall d, e {:trigger w.fetch(d), w.fetch(e)} ::
      w.fetch(d).Some? && w.fetch(e).Some? && w.fetch(d).value.dir == w.fetch(e).value.dir ==>
        d.git == e.git && w.fetch(d).value.commit == w.fetch(e).value.commit
  }

  /** `e` names the source and the commit of a request that put the selected checkout in place. */
  ghost predicate LocksMaker(w: World, st: State, dep: Dep, e: LockedDep) {
    exists f, x ::
      && SelectedFor(st, dep, f) && x in st.walked && MadeBy(w, f, x)
      && e.git == f.source == x.git && w.fetch(x).value.commit == Some(e.commit)
  }

  /** If a directory belongs to one source at one commit, the entry names those of the request that
      made the selection. */
  lemma LockEntryNamesTheMaker(w: World, roots: seq<Dep>, dep: Dep)
    requires DirectoryDetermines(w)
    ensures var st := Final(w, roots);
      forall e :: e in LockEntry(dep, st.resolved, st.fetched) ==> LocksMaker(w, st, dep, e)
  {
    var st := Final(w, roots);
    LockEntryIsTheSelection(w, roots, dep);
    DepsKeepSelection(w, roots, [], Start);
    forall e | e in LockEntry(dep, st.resolved, st.fetched)
      ensures LocksMaker(w, st, dep, e)
    {
      assert LocksSelection(w, st, dep, e);
      var f, d :|
        && SelectedFor(st, dep, f) && d in st.walked && FiledUnder(w, d) == f.id
        && w.fetch(d).Some? && w.fetch(d).value.dir == f.dir && w.fetch(d).value.commit.Some?
        && e == LockedDep(dep.name, d.git, RefName(d), w.fetch(d).value.commit.value, d.subdir);
      assert IsMade(w, f, st.walked);
      var x :| x in st.walked && MadeBy(w, f, x);
      assert e.git == x.git;
    }
  }

  /** A direct dependency gets an entry exactly when its own fetch recorded a commit and so
      did some fetch of the selected checkout (a path dependency that was selected leaves
      nothing true to pin). */
  lemma LockEntryExistsWhenBuilt(w: World, roots: seq<Dep>, dep: Dep)
    ensures var st := Final(w, roots);
      LockEntry(dep, st.resolved, st.fetched) != [] <==>
      exists f, d :: SelectedFor(st, dep, f) && d in st.walked && FiledUnder(w, d) == f.id
        && w.fetch(d).Some? && w.fetch(d).value.dir == f.dir && w.fetch(d).value.commit.Some?
  {
    var st := Final(w, roots);
    LockEntryIsTheSelection(w, roots, dep);
    DepsResolve(w, roots, [], Start);
    DepsKeepSelection(w, roots, [], Start);
    var entry := LockEntry(dep, st.resolved, st.fetched);
    if entry != [] {
      assert LocksSelection(w, st, dep, entry[0]);
    }
    forall f, d | SelectedFor(st, dep, f) && d in st.walked && FiledUnder(w, d) == f.id
        && w.fetch(d).Some? && w.fetch(d).value.dir == f.dir && w.fetch(d).value.commit.Some?
      ensures entry != []
    {
      WalkedAreResolved(w, st.walked, d);
      var r :| r in st.resolved && ResolvedBy(w, r, d);
      assert IsBuildOf(r, f);
      OnlyEntry(st.fetched, f);
    }
  }

  lemma OnlyEntry(fetched: seq<Fetched>, f: Fetched)
    requires Distinct(fetched) && f in fetched
    ensures FindPkg(fetched, f.id) < |fetched| && fetched[FindPkg(fetched, f.id)] == f
  {
    var k :| 0 <= k < |fetched| && fetched[k] == f;
    assert FindPkg(fetched, f.id) <= k;
  }

  // ---------------------------------------------------------------- the entry as it is written

  /** The ref a request names: its tag, else its branch, else `main`. */
  ghost predicate IsRefOf(dep: Dep, name: string) {
    match (dep.tag, dep.branch)
    case (Some(t), _) => name == t
    case (None, Some(b)) => name == b
    case (None, None) => name == "main"
  }

  lemma RefNameIs(dep: Dep)
    ensures IsRefOf(dep, RefName(dep))
  {
  }

  /** The fetch was of a request with the dependency's name, source, directory and ref. */
  ghost predicate IsFetchOf(r: Resolution, dep: Dep) {
    r.dep.name == dep.name && r.dep.git == dep.git && r.dep.subdir == dep.subdir && IsRefOf(dep, r.refName)
  }

  ghost predicate IsFirstFetchOf(resolved: seq<Resolution>, i: nat, dep: Dep) {
    i < |resolved| && IsFetchOf(resolved[i], dep) && forall j :: 0 <= j < i ==> !IsFetchOf(resolved[j], dep)
  }

  /** The first fetch of the entry's package that was read from the entry's directory. */
  ghost predicate IsFirstFetchFor(resolved: seq<Resolution>, j: nat, f: Fetched) {
    && j < |resolved| && resolved[j].id == f.id && resolved[j].dir == f.dir
    && forall k :: 0 <= k < j ==> !(resolved[k].id == f.id && resolved[k].dir == f.dir)
  }

  lemma {:induction false} FirstIsFirst(resolved: seq<Resolution>, p: Resolution -> bool, i: nat)
    requires i < |resolved| && p(resolved[i]) && forall j :: 0 <= j < i ==> !p(resolved[j])
    ensures FirstResolution(resolved, p) == Some(resolved[i])
  {
    if i > 0 {
      assert !p(resolved[0]);
      FirstIsFirst(resolved[1..], p, i - 1);
    }
  }

  lemma {:induction false} FoundIsFirst(resolved: seq<Resolution>, p: Resolution -> bool) returns (i: nat)
    requires FirstResolution(resolved, p).Some?
    ensures i < |resolved| && p(resolved[i]) && FirstResolution(resolved, p) == Some(resolved[i])
    ensures forall j :: 0 <= j < i ==> !p(resolved[j])
  {
    if p(resolved[0]) {
      i := 0;
    } else {
      var k := FoundIsFirst(resolved[1..], p);
      i := k + 1;
      assert forall j :: 0 < j < i ==> resolved[j] == resolved[1..][j - 1];
    }
  }

  /** The entry comes from these two fetches and this selected entry. */
  ghost predicate IsEntryFrom(
    dep: Dep, resolved: seq<Resolution>, fetched: seq<Fetched>, e: LockedDep, i: nat, k: nat, j: nat)
  {
    && IsFirstFetchOf(resolved, i, dep)
    && k < |fetched| && fetched[k].id == resolved[i].id
    && IsFirstFetchFor(resolved, j, fetched[k])
    && e == LockedDep(dep.name, resolved[j].dep.git, resolved[j].refName, resolved[j].commit, resolved[j].dep.subdir)
  }

  lemma AskedIff(r: Resolution, dep: Dep)
    ensures IsRequestOf(r, dep) <==> IsFetchOf(r, dep)
  {
  }

  /** An entry is written exactly for the first fetch of the dependency's own request, the selected entry
      of its package, and the first fetch that entry's checkout came from; it holds that fetch's
      source, ref, commit and directory. */
  lemma LockEntryIff(dep: Dep, resolved: seq<Resolution>, fetched: seq<Fetched>, e: LockedDep)
    requires Distinct(fetched)
    ensures e in LockEntry(dep, resolved, fetched) <==>
      exists i: nat, k: nat, j: nat :: IsEntryFrom(dep, resolved, fetched, e, i, k, j)
    ensures |LockEntry(dep, resolved, fetched)| <= 1
  {
    var asked := (r: Resolution) => IsRequestOf(r, dep);
    forall r
      ensures IsRequestOf(r, dep) <==> IsFetchOf(r, dep)
    {
      AskedIff(r, dep);
    }
    hide IsRequestOf;
    hide IsFetchOf;
    forall i: nat, k: nat, j: nat | IsEntryFrom(dep, resolved, fetched, e, i, k, j)
      ensures e in LockEntry(dep, resolved, fetched)
    {
      var f := fetched[k];
      FirstIsFirst(resolved, asked, i);
      SameFirst(resolved, asked, r => IsRequestOf(r, dep));
      OnlyEntry(fetched, f);
      FirstIsFirst(resolved, r => IsBuildOf(r, f), j);
      SameFirst(resolved, r => IsBuildOf(r, f), r => IsBuildOf(r, fetched[FindPkg(fetched, resolved[i].id)]));
    }
    if e in LockEntry(dep, resolved, fetched) {
      var i := FoundIsFirst(resolved, r => IsRequestOf(r, dep));
      var k := FindPkg(fetched, resolved[i].id);
      var j := FoundIsFirst(resolved, r => IsBuildOf(r, fetched[k]));
      assert IsEntryFrom(dep, resolved, fetched, e, i, k, j);
    }
  }

  lemma {:induction false} SameFirst(resolved: seq<Resolution>, p: Resolution -> bool, q: Resolution -> bool)
    requires forall r :: p(r) == q(r)
    ensures FirstResolution(resolved, p) == FirstResolution(resolved, q)
  {
    if resolved != [] {
      SameFirst(resolved[1..], p, q);
    }
  }

  // ---------------------------------------------------------------- what the order theorem needs

  function LocalDep(name: string): Dep {
    Dep(name, "", None, None, None, Some(name), None)
  }

  function BranchDep(branch: string): Dep {
    Dep("p", "g", None, Some(branch), None, None, None)
  }

  /** A world with no parseable version, where every source is local. */
  function LocalWorld(requirements: Dep -> seq<Dep>, depthLimit: nat): World {
    World(_ => None, _ => Local, _ => false,
          (d: Dep) => Some(Checkout("dir", None, Some(d.name), requirements(d))), 10, depthLimit)
  }

  ghost predicate InLocalWorld(w: World) {
    && w.countLimit == 10
    && (forall g :: w.owner(g) == Local)
    && (forall d :: w.fetch(d).Some? && w.fetch(d).value.name.Some?)
  }

  ghost function Noted(st: State, dep: Dep): State {
    st.(log := st.log + [Checked(dep)])
  }

  ghost function Entered(w: World, st: State, dep: Dep, depth: nat): State
    requires InLocalWorld(w)
  {
    Record(w, Visit(Noted(st, dep), dep).(log := Noted(st, dep).log + [Fetching(dep, depth)]), dep, w.fetch(dep).value)
  }

  lemma EnteredVisits(w: World, st: State, dep: Dep, depth: nat)
    requires InLocalWorld(w)
    ensures Entered(w, st, dep, depth).visited == st.visited + {VisitKey(dep)}
    ensures |Entered(w, st, dep, depth).visited| <= |st.visited| + 1
  {
  }

  /** The first of `deps` was visited before. */
  lemma SkipStep(w: World, deps: seq<Dep>, chain: seq<string>, st: State)
    requires InLocalWorld(w) && deps != [] && VisitKey(deps[0]) in st.visited
    ensures WalkDeps(w, deps, chain, st) == WalkDeps(w, deps[1..], chain, Noted(st, deps[0]))
  {
  }

  /** The first of `deps` is new and its own requirements are walked from `Entered`. */
  lemma EnterStep(w: World, deps: seq<Dep>, chain: seq<string>, st: State)
    requires InLocalWorld(w) && deps != [] && VisitKey(deps[0]) !in st.visited
    requires |st.visited| < 10 && |chain| < w.depthLimit
    ensures var d := deps[0];
      var r := WalkDeps(w, Requirements(w, d), chain + [d.name], Entered(w, st, d, |chain| + 1));
      WalkDeps(w, deps, chain, st) == if r.1.Err? then r else WalkDeps(w, deps[1..], chain, r.0)
  {
    assert |chain + [deps[0].name]| == |chain| + 1;
  }

  /** The first of `deps` is new and one level too deep. */
  lemma RefuseStep(w: World, deps: seq<Dep>, chain: seq<string>, st: State)
    requires InLocalWorld(w) && deps != [] && VisitKey(deps[0]) !in st.visited
    requires |chain| >= w.depthLimit
    ensures WalkDeps(w, deps, chain, st).1.Err?
  {
    assert |chain + [deps[0].name]| == |chain| + 1;
  }

  lemma LocalKeys(name: string)
    ensures VisitKey(LocalDep(name)) == "path:" + name + "@0.0.0"
    ensures RequestedVersion(LocalDep(name)) == "0.0.0"
  {
    assert "path:" + name + "@" + "0.0.0" == "path:" + name + "@0.0.0";
  }

  /** One repository whose branch `x` requires `q` and whose branch `y` requires nothing. */
  function BranchWorld(): World {
    LocalWorld((d: Dep) => if d == BranchDep("x") then [LocalDep("q")] else [], 10)
  }

  lemma BranchKeys()
    ensures VisitKey(BranchDep("x")) == VisitKey(BranchDep("y")) != VisitKey(LocalDep("q"))
    ensures var w := BranchWorld();
      && InLocalWorld(w)
      && Requirements(w, BranchDep("x")) == [LocalDep("q")]
      && Requirements(w, BranchDep("y")) == [] && Requirements(w, LocalDep("q")) == []
  {
    LocalKeys("q");
    assert VisitKey(BranchDep("x"))[0] == 'g' && VisitKey(LocalDep("q"))[0] == 'p';
    assert "x"[0] != "y"[0];
  }

  lemma BranchXFirst()
    ensures var w, x, y := BranchWorld(), BranchDep("x"), BranchDep("y");
      Succeeds(w, [x, y]) && PkgId("q", 0) in Selected(w, Final(w, [x, y]).fetched)
  {
    var w, x, y, q := BranchWorld(), BranchDep("x"), BranchDep("y"), LocalDep("q");
    BranchKeys();
    hide VisitKey;
    hide InLocalWorld;
    var s1 := Entered(w, Start, x, 1);
    var s2 := Entered(w, s1, q, 2);
    EnterStep(w, [x, y], [], Start);
    EnterStep(w, [q], [] + [x.name], s1);
    SkipStep(w, [y], [], s2);
    assert WalkDeps(w, [x, y], [], Start) == (Noted(s2, y), Ok(()));
    assert s2.fetched[1].id == PkgId("q", 0);
    assert PkgId("q", 0) in Packages(s2.fetched);
  }

  lemma BranchYFirst()
    ensures var w, x, y := BranchWorld(), BranchDep("x"), BranchDep("y");
      Succeeds(w, [y, x]) && PkgId("q", 0) !in Selected(w, Final(w, [y, x]).fetched)
  {
    var w, x, y := BranchWorld(), BranchDep("x"), BranchDep("y");
    BranchKeys();
    var s1 := Entered(w, Start, y, 1);
    EnterStep(w, [y, x], [], Start);
    SkipStep(w, [x], [], s1);
    assert WalkDeps(w, [y, x], [], Start) == (Noted(s1, x), Ok(()));
    assert s1.fetched == [Entry(w, y, w.fetch(y).value)];
    assert s1.fetched[0].id.name == "p" && "p"[0] != "q"[0];
  }

  /** Two requests for different branches of one repository have one visit key: neither has a
      version, so both are `0.0.0`. Whichever is listed first is walked, so without
      `KeyDetermines` the packages selected depend on the order: `q` is among them only when
      the branch that requires it comes first. */
  lemma BranchesShareAKey()
    ensures exists w, a, b ::
      && multiset(a) == multiset(b) && Succeeds(w, a) && Succeeds(w, b)
      && Selected(w, Final(w, a).fetched) != Selected(w, Final(w, b).fetched)
  {
    var w, x, y := BranchWorld(), BranchDep("x"), BranchDep("y");
    BranchXFirst();
    BranchYFirst();
    var a, b := [x, y], [y, x];
    assert multiset(a) == multiset(b);
    assert Selected(w, Final(w, a).fetched) != Selected(w, Final(w, b).fetched);
  }

  /** `a` requires `b`, which requires `c`; at most two levels are allowed. */
  function DeepWorld(): World {
    LocalWorld((d: Dep) => if d == LocalDep("a") then [LocalDep("b")]
                           else if d == LocalDep("b") then [LocalDep("c")] else [], 2)
  }

  lemma DeepKeys()
    ensures var w, a, b, c := DeepWorld(), LocalDep("a"), LocalDep("b"), LocalDep("c");
      && VisitKey(a) != VisitKey(b) && VisitKey(b) != VisitKey(c) && VisitKey(a) != VisitKey(c)
      && InLocalWorld(w) && Requirements(w, a) == [b] && Requirements(w, b) == [c] && Requirements(w, c) == []
  {
    LocalKeys("a");
    LocalKeys("b");
    LocalKeys("c");
    assert VisitKey(LocalDep("a"))[5] == 'a' && VisitKey(LocalDep("b"))[5] == 'b' && VisitKey(LocalDep("c"))[5] == 'c';
    assert "a"[0] == 'a' && "b"[0] == 'b' && "c"[0] == 'c';
  }

  /** With `c` visited, `a` and what it requires are walked. */
  lemma WalksA(st: State)
    requires st.visited == {VisitKey(LocalDep("c"))}
    ensures WalkDeps(DeepWorld(), [LocalDep("a")], [], st).1.Ok?
  {
    var w, a, b, c := DeepWorld(), LocalDep("a"), LocalDep("b"), LocalDep("c");
    DeepKeys();
    assert |st.visited| == 1 && w.depthLimit == 2;
    hide VisitKey;
    hide InLocalWorld;
    hide DeepWorld;
    hide Requirements;
    var s2 := Entered(w, st, a, 1);
    var s3 := Entered(w, s2, b, 2);
    EnteredVisits(w, st, a, 1);
    EnteredVisits(w, s2, b, 2);
    hide Entered;
    EnterStep(w, [a], [], st);
    EnterStep(w, [b], [] + [a.name], s2);
    SkipStep(w, [c], [] + [a.name] + [b.name], s3);
  }

  lemma ShallowFirst()
    ensures Succeeds(DeepWorld(), [LocalDep("c"), LocalDep("a")])
  {
    var w, a, c := DeepWorld(), LocalDep("a"), LocalDep("c");
    DeepKeys();
    var s1 := Entered(w, Start, c, 1);
    EnteredVisits(w, Start, c, 1);
    WalksA(s1);
    hide Entered;
    hide VisitKey;
    hide InLocalWorld;
    hide DeepWorld;
    assert [c, a][1..] == [a];
    EnterStep(w, [c, a], [], Start);
  }

  lemma DeepFirst()
    ensures !Succeeds(DeepWorld(), [LocalDep("a"), LocalDep("c")])
  {
    var w, a, b, c := DeepWorld(), LocalDep("a"), LocalDep("b"), LocalDep("c");
    DeepKeys();
    var ca, cb := [] + [a.name], [] + [a.name] + [b.name];
    var t1 := Entered(w, Start, a, 1);
    var t2 := Entered(w, t1, b, 2);
    EnteredVisits(w, Start, a, 1);
    EnteredVisits(w, t1, b, 2);
    hide Entered;
    hide VisitKey;
    hide InLocalWorld;
    hide DeepWorld;
    hide Requirements;
    EnterStep(w, [a, c], [], Start);
    EnterStep(w, [b], ca, t1);
    RefuseStep(w, [c], cb, t2);
  }

  /** Whether a walk succeeds at all can depend on the order: the depth budget counts the chain
      a request is FIRST reached through. Listing `c` before `a` succeeds; listing it after `a`
      reaches it three levels deep and is refused. */
  lemma SuccessDependsOnOrder()
    ensures exists w, a, b :: multiset(a) == multiset(b) && Succeeds(w, a) && !Succeeds(w, b)
  {
    ShallowFirst();
    DeepFirst();
    var a, c := LocalDep("a"), LocalDep("c");
    assert multiset([c, a]) == multiset([a, c]);
  }
}
