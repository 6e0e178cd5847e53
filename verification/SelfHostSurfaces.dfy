/** What a settled link means, in terms of the given world and the names in the lowered modules: which
    bodies are reached, which surfaces are demanded of them, and what is there for each. */
module SelfHostSurfaces {
  import opened Options
  import opened SelfHostScan
  import opened SelfHostLink
  import opened SelfHostSources
  import opened SelfHostRounds

  // ---------------------------------------------------------------- bodies by name

  ghost predicate IsAt(ms: seq<Module>, mi: nat, fi: nat, m: string, f: string) {
    mi < |ms| && fi < |ms[mi].fns| && ms[mi].name == m && ms[mi].fns[fi].name == f
  }

  ghost predicate HasQualified(ms: seq<Module>, mi: nat, fi: nat, key: string) {
    mi < |ms| && fi < |ms[mi].fns| && ms[mi].name + "." + ms[mi].fns[fi].name == key
  }

  /** The last body whose module and name, with a dot between, are `key`. */
  ghost predicate IsLast(ms: seq<Module>, mi: nat, fi: nat, key: string) {
    && HasQualified(ms, mi, fi, key)
    && (forall fj :: fi < fj ==> !HasQualified(ms, mi, fj, key))
    && (forall mj, fj :: mi < mj ==> !HasQualified(ms, mj, fj, key))
  }

  lemma {:induction false} LastFnIsLast(m: Module, n: nat, key: string)
    requires n <= |m.fns|
    ensures var r := LastFn(m, n, key);
      r.Some? ==> forall i :: r.value < i < n ==> m.name + "." + m.fns[i].name != key
  {
    if n > 0 && !(Qualified(m.name, m.fns[n - 1].name) == key) {
      LastFnIsLast(m, n - 1, key);
    }
  }

  lemma {:induction false} ByKeyInIsLast(ms: seq<Module>, n: nat, key: string)
    requires n <= |ms|
    ensures var r := ByKeyIn(ms, n, key);
      r.Some? ==>
        && HasQualified(ms, r.value.0, r.value.1, key) && r.value.0 < n
        && (forall fj :: r.value.1 < fj ==> !HasQualified(ms, r.value.0, fj, key))
        && (forall mj, fj :: r.value.0 < mj < n ==> !HasQualified(ms, mj, fj, key))
  {
    if n > 0 {
      LastFnIsLast(ms[n - 1], |ms[n - 1].fns|, key);
      ByKeyInIsLast(ms, n - 1, key);
    }
  }

  lemma NamesIff(ms: seq<Module>, key: string, id: Id)
    ensures Names(ms, key, id) <==> IsLast(ms, id.0, id.1, key)
  {
    ByKeyInIsLast(ms, |ms|, key);
    var r := ByKey(ms, key);
    if IsLast(ms, id.0, id.1, key) {
      assert IsId(ms, id) && KeyOf(ms, id) == key;
      assert r.Some? && HasQualified(ms, r.value.0, r.value.1, key);
      assert r.value == (r.value.0, r.value.1) && id == (id.0, id.1);
    }
  }

  // ---------------------------------------------------------------- what a body names

  /** The last part of a dotted name. */
  ghost predicate IsLastPart(f: string, r: string) {
    '.' !in f && (r == f || exists front :: r == front + "." + f)
  }

  lemma BareIff(r: string, f: string)
    ensures Bare(r) == f <==> IsLastPart(f, r)
  {
    BareIsLastPart(r);
    if IsLastPart(f, r) {
      if r != f {
        var front :| r == front + "." + f;
        BareSkips(front, f);
      }
    }
  }

  lemma {:induction false} BareIsLastPart(r: string)
    ensures IsLastPart(Bare(r), r)
  {
    if '.' in r {
      BareIsLastPart(r[1..]);
      var f := Bare(r[1..]);
      if r[1..] == f {
        assert r[0] == '.' && r == "" + "." + f;
      } else {
        var front :| r[1..] == front + "." + f;
        assert r == ([r[0]] + front) + "." + f;
      }
    }
  }

  lemma {:induction false} BareSkips(front: string, f: string)
    requires '.' !in f
    ensures Bare(front + "." + f) == f
  {
    var r := front + "." + f;
    assert r[|front|] == '.';
    if front == "" {
      assert r[1..] == f;
    } else {
      assert r[1..] == front[1..] + "." + f;
      BareSkips(front[1..], f);
    }
  }

  /** `f` in the module the self-host source of surface `k` is loaded as. */
  ghost predicate IsInSourceOf(w: World, loaded: map<string, string>, k: string, f: string, key: string) {
    k in w.impls && w.impls[k].src in loaded && key == loaded[w.impls[k].src] + "." + f
  }

  /** A scanned body names a surface or a function value that is the body's qualified name, ... */
  ghost predicate NamesIt(ms: seq<Module>, s: Scan, mi: nat, fi: nat, k: string) {
    (k in s.keys || k in s.refs) && IsLast(ms, mi, fi, k)
  }

  /** ... or that the body is the loaded implementation of, ... */
  ghost predicate NamesItsSurface(
    w: World, ms: seq<Module>, loaded: map<string, string>, s: Scan, mi: nat, fi: nat, k: string, key: string)
  {
    && (k in s.keys || k in s.refs) && k in w.impls
    && IsInSourceOf(w, loaded, k, w.impls[k].fn, key) && IsLast(ms, mi, fi, key)
  }

  /** ... or a surface whose native lowering calls the body as a helper, ... */
  ghost predicate NeedsItsHelp(
    w: World, ms: seq<Module>, loaded: map<string, string>, s: Scan, mi: nat, fi: nat, i: nat, key: string)
  {
    && i < |w.helpers| && w.helpers[i].0 in s.keys
    && IsInSourceOf(w, loaded, w.anchor, w.helpers[i].1, key) && IsLast(ms, mi, fi, key)
  }

  /** ... or a method or a bare call by the body's name alone. */
  ghost predicate NamesItBarely(ms: seq<Module>, s: Scan, mi: nat, fi: nat)
    requires mi < |ms| && fi < |ms[mi].fns|
  {
    || (exists r :: r in s.refs && IsLastPart(ms[mi].fns[fi].name, r))
    || (ms[mi].fns[fi].name in s.keys && '.' !in ms[mi].fns[fi].name)
  }

  ghost predicate Calls(w: World, ms: seq<Module>, loaded: map<string, string>, s: Scan, mi: nat, fi: nat)
    requires mi < |ms| && fi < |ms[mi].fns|
  {
    || (exists k :: NamesIt(ms, s, mi, fi, k))
    || (exists k, key :: NamesItsSurface(w, ms, loaded, s, mi, fi, k, key))
    || (exists i: nat, key :: NeedsItsHelp(w, ms, loaded, s, mi, fi, i, key))
    || NamesItBarely(ms, s, mi, fi)
  }

  lemma ReachesIff(w: World, ms: seq<Module>, loaded: map<string, string>, s: Scan, id: Id)
    requires IsId(ms, id)
    ensures Reaches(w, ms, loaded, s, id) <==> Calls(w, ms, loaded, s, id.0, id.1)
  {
    forall key
      ensures Names(ms, key, id) <==> IsLast(ms, id.0, id.1, key)
    {
      NamesIff(ms, key, id);
    }
    forall r
      ensures Bare(r) == FnAt(ms, id).name <==> IsLastPart(FnAt(ms, id).name, r)
    {
      BareIff(r, FnAt(ms, id).name);
    }
    hide Names;
    hide IsLast;
    hide Bare;
    hide IsLastPart;
    if Calls(w, ms, loaded, s, id.0, id.1) {
      CallsReach(w, ms, loaded, s, id);
    }
    if Reaches(w, ms, loaded, s, id) {
      ReachCalls(w, ms, loaded, s, id);
    }
  }

  lemma CallsReach(w: World, ms: seq<Module>, loaded: map<string, string>, s: Scan, id: Id)
    requires IsId(ms, id) && Calls(w, ms, loaded, s, id.0, id.1)
    requires forall key :: Names(ms, key, id) <==> IsLast(ms, id.0, id.1, key)
    requires forall r :: Bare(r) == FnAt(ms, id).name <==> IsLastPart(FnAt(ms, id).name, r)
    ensures Reaches(w, ms, loaded, s, id)
  {
  }

  lemma ReachCalls(w: World, ms: seq<Module>, loaded: map<string, string>, s: Scan, id: Id)
    requires IsId(ms, id) && Reaches(w, ms, loaded, s, id)
    requires forall key :: Names(ms, key, id) <==> IsLast(ms, id.0, id.1, key)
    requires forall r :: Bare(r) == FnAt(ms, id).name <==> IsLastPart(FnAt(ms, id).name, r)
    ensures Calls(w, ms, loaded, s, id.0, id.1)
  {
    hide IsLast;
    hide Names;
    hide Bare;
    hide IsLastPart;
    if k :| k in s.keys + s.refs && Names(ms, k, id) {
      assert NamesIt(ms, s, id.0, id.1, k);
    } else if k :| k in s.keys + s.refs && Implements(w, ms, loaded, k, id) {
      assert NamesItsSurface(w, ms, loaded, s, id.0, id.1, k, Qualified(loaded[w.impls[k].src], w.impls[k].fn));
    } else if i :| 0 <= i < |w.helpers| && w.helpers[i].0 in s.keys && Helps(w, ms, loaded, w.helpers[i].1, id) {
      assert NeedsItsHelp(w, ms, loaded, s, id.0, id.1, i, Qualified(loaded[w.impls[w.anchor].src], w.helpers[i].1));
    } else if r :| r in s.refs && Bare(r) == FnAt(ms, id).name {
      assert IsLastPart(ms[id.0].fns[id.1].name, r);
    }
  }

  // ---------------------------------------------------------------- the reached bodies

  /** The program's own bodies: not of a linked self-host source, not of a bundled module. */
  ghost predicate IsOwn(w: World, ms: seq<Module>, mi: nat, fi: nat) {
    && mi < |ms| && fi < |ms[mi].fns|
    && !("__selfhost_" <= ms[mi].name) && ms[mi].name !in w.bundled
  }

  /** The bodies scanned: the entry program's, every module's top-level lets, and the reached ones. */
  ghost predicate IsScanned(entry: seq<Scan>, ms: seq<Module>, ids: set<Id>, s: Scan) {
    || s in entry
    || (exists i :: 0 <= i < |ms| && s in ms[i].lets)
    || (exists mi: nat, fi: nat :: (mi, fi) in ids && mi < |ms| && fi < |ms[mi].fns| && s == ms[mi].fns[fi].body)
  }

  ghost predicate IsCalled(
    w: World, entry: seq<Scan>, ms: seq<Module>, loaded: map<string, string>, ids: set<Id>, mi: nat, fi: nat)
    requires mi < |ms| && fi < |ms[mi].fns|
  {
    exists s :: IsScanned(entry, ms, ids, s) && Calls(w, ms, loaded, s, mi, fi)
  }

  lemma {:induction false} LetsAreLets(ms: seq<Module>, s: Scan)
    ensures s in AllLets(ms) <==> exists i :: 0 <= i < |ms| && s in ms[i].lets
  {
    if ms != [] {
      var n := |ms| - 1;
      LetsAreLets(ms[..n], s);
      if i :| 0 <= i < |ms| && s in ms[i].lets {
        assert i < n ==> ms[..n][i] == ms[i];
      }
    }
  }

  lemma ScannedIff(entry: seq<Scan>, ms: seq<Module>, ids: set<Id>, s: Scan)
    requires forall id :: id in ids ==> IsId(ms, id)
    ensures IsScanned(entry, ms, ids, s) <==> s in ScansOf(entry, ms, ids)
    ensures IsScanned(entry, ms, ids, s) <==>
      s in RootScans(entry, ms) || exists id :: id in ids && s == FnAt(ms, id).body
  {
    LetsAreLets(ms, s);
    if id :| id in ids && s == FnAt(ms, id).body {
      assert id == (id.0, id.1) && s in Bodies(ms, ids);
    }
    if s in Bodies(ms, ids) {
      var id :| id in ids && IsId(ms, id) && s == FnAt(ms, id).body;
      assert id == (id.0, id.1);
    }
  }

  lemma PushesIff(w: World, ms: seq<Module>, loaded: map<string, string>, s: Scan, mi: nat, fi: nat)
    requires mi < |ms| && fi < |ms[mi].fns|
    ensures (mi, fi) in Pushes(w, ms, loaded, s) <==> Calls(w, ms, loaded, s, mi, fi)
  {
    ReachesIff(w, ms, loaded, s, (mi, fi));
    hide Calls;
    hide Reaches;
  }

  /** A body is reached exactly if it is the program's own or some scanned body names it. */
  lemma ReachedIff(
    w: World, entry: seq<Scan>, ms: seq<Module>, loaded: map<string, string>, ids: set<Id>, mi: nat, fi: nat)
    requires IsReached(w, entry, ms, loaded, ids)
    ensures (mi, fi) in ids <==>
      mi < |ms| && fi < |ms[mi].fns| && (IsOwn(w, ms, mi, fi) || IsCalled(w, entry, ms, loaded, ids, mi, fi))
  {
    if mi < |ms| && fi < |ms[mi].fns| && (IsOwn(w, ms, mi, fi) || IsCalled(w, entry, ms, loaded, ids, mi, fi)) {
      ForcedIsReached(w, entry, ms, loaded, ids, mi, fi);
    }
    if (mi, fi) in ids {
      assert IsId(ms, (mi, fi));
      if !(IsOwn(w, ms, mi, fi) || IsCalled(w, entry, ms, loaded, ids, mi, fi)) {
        UnforcedIsNotReached(w, entry, ms, loaded, ids, mi, fi);
      }
    }
  }

  lemma ForcedIsReached(
    w: World, entry: seq<Scan>, ms: seq<Module>, loaded: map<string, string>, ids: set<Id>, mi: nat, fi: nat)
    requires Closed(w, entry, ms, loaded, ids) && mi < |ms| && fi < |ms[mi].fns|
    requires IsOwn(w, ms, mi, fi) || IsCalled(w, entry, ms, loaded, ids, mi, fi)
    ensures (mi, fi) in ids
  {
    if IsOwn(w, ms, mi, fi) {
      assert (mi, fi) in RootIds(w, ms);
    } else {
      var s :| IsScanned(entry, ms, ids, s) && Calls(w, ms, loaded, s, mi, fi);
      ScannedIff(entry, ms, ids, s);
      PushesIff(w, ms, loaded, s, mi, fi);
      hide Pushes;
      hide Calls;
    }
  }

  /** Without a body that nothing names the set is still closed. */
  lemma UnforcedIsNotReached(
    w: World, entry: seq<Scan>, ms: seq<Module>, loaded: map<string, string>, ids: set<Id>, mi: nat, fi: nat)
    requires IsReached(w, entry, ms, loaded, ids) && mi < |ms| && fi < |ms[mi].fns|
    requires !IsOwn(w, ms, mi, fi) && !IsCalled(w, entry, ms, loaded, ids, mi, fi)
    ensures (mi, fi) !in ids
  {
    var id := (mi, fi);
    var fewer := ids - {id};
    forall s | IsScanned(entry, ms, ids, s)
      ensures id !in Pushes(w, ms, loaded, s)
    {
      PushesIff(w, ms, loaded, s, mi, fi);
    }
    assert id !in RootIds(w, ms);
    forall s
      ensures IsScanned(entry, ms, ids, s) <==>
        s in RootScans(entry, ms) || exists x :: x in ids && s == FnAt(ms, x).body
    {
      ScannedIff(entry, ms, ids, s);
    }
    hide Pushes;
    hide RootIds;
    hide RootScans;
    hide IsScanned;
    assert Closed(w, entry, ms, loaded, fewer);
  }

  // ---------------------------------------------------------------- what they demand

  /** A scanned body's own demands; the value helpers' anchor, for a surface that needs a helper; and
      the two printers of a float in an error. */
  ghost predicate IsDemandedBy(w: World, s: Scan, k: string) {
    || k in s.keys
    || (k == w.anchor && exists i :: 0 <= i < |w.helpers| && w.helpers[i].0 in s.keys)
    || (s.errFloat && (k == "float.to_string_compound" || k == "float32.to_string_compound"))
  }

  ghost predicate IsDemanded(w: World, entry: seq<Scan>, ms: seq<Module>, ids: set<Id>, k: string) {
    exists s :: IsScanned(entry, ms, ids, s) && IsDemandedBy(w, s, k)
  }

  lemma DemandsIff(w: World, entry: seq<Scan>, ms: seq<Module>, ids: set<Id>, k: string)
    requires forall id :: id in ids ==> IsId(ms, id)
    ensures k in Demands(w, ScansOf(entry, ms, ids)) <==> IsDemanded(w, entry, ms, ids, k)
  {
    forall s
      ensures IsScanned(entry, ms, ids, s) <==> s in ScansOf(entry, ms, ids)
    {
      ScannedIff(entry, ms, ids, s);
    }
    var scans := ScansOf(entry, ms, ids);
    forall s
      ensures IsDemandedBy(w, s, k) <==> k in KeysOf(w, s) || (s.errFloat && (k == FLOAT || k == FLOAT32))
    {
      DemandedByIff(w, s, k);
    }
    hide *;
    DemandsAre(w, scans, k);
    if IsDemanded(w, entry, ms, ids, k) {
      ScanOfDemand(w, entry, ms, ids, k);
    }
    forall s | s in scans && IsDemandedBy(w, s, k)
      ensures IsDemanded(w, entry, ms, ids, k)
    {
      DemandOfScan(w, entry, ms, ids, s, k);
    }
  }

  lemma DemandedByIff(w: World, s: Scan, k: string)
    ensures IsDemandedBy(w, s, k) <==> k in KeysOf(w, s) || (s.errFloat && (k == FLOAT || k == FLOAT32))
  {
  }

  lemma DemandsAre(w: World, scans: set<Scan>, k: string)
    ensures k in Demands(w, scans) <==>
      exists s :: s in scans && (k in KeysOf(w, s) || (s.errFloat && (k == FLOAT || k == FLOAT32)))
  {
    hide KeysOf;
    if k in Demands(w, scans) {
      if k in AllKeys(w, scans) {
        var s :| s in scans && k in KeysOf(w, s);
      } else {
        var s :| s in scans && s.errFloat;
      }
    }
  }

  lemma ScanOfDemand(w: World, entry: seq<Scan>, ms: seq<Module>, ids: set<Id>, k: string)
    requires IsDemanded(w, entry, ms, ids, k)
    ensures exists s :: IsScanned(entry, ms, ids, s) && IsDemandedBy(w, s, k)
  {
  }

  lemma DemandOfScan(w: World, entry: seq<Scan>, ms: seq<Module>, ids: set<Id>, s: Scan, k: string)
    requires IsScanned(entry, ms, ids, s) && IsDemandedBy(w, s, k)
    ensures IsDemanded(w, entry, ms, ids, k)
  {
  }

  /** The surfaces the emitter resolves on its own follow from one another in the order they are
      listed. */
  ghost predicate IsImpliedBy(implied: seq<(string, string)>, from: string, path: seq<nat>, k: string)
  {
    && (forall i :: 0 <= i < |path| ==> path[i] < |implied|)
    && (forall i :: 0 < i < |path| ==> path[i - 1] < path[i] && implied[path[i]].0 == implied[path[i - 1]].1)
    && (path == [] ==> k == from)
    && (path != [] ==> implied[path[0]].0 == from && implied[path[|path| - 1]].1 == k)
  }

  ghost predicate IsImplied(implied: seq<(string, string)>, keys: set<string>, k: string) {
    exists from, path :: from in keys && IsImpliedBy(implied, from, path, k)
  }

  lemma {:induction false} ImpliedIff(keys: set<string>, implied: seq<(string, string)>, k: string)
    ensures k in Imply(keys, implied) <==> IsImplied(implied, keys, k)
    decreases |implied|
  {
    if implied == [] {
      if k in keys {
        assert IsImpliedBy(implied, k, [], k);
      }
    } else {
      var next := if implied[0].0 in keys then keys + {implied[0].1} else keys;
      ImpliedIff(next, implied[1..], k);
      if IsImplied(implied[1..], next, k) {
        ImpliedLater(keys, implied, k);
      }
      if IsImplied(implied, keys, k) {
        ImpliedSooner(keys, implied, k);
      }
    }
  }

  lemma ImpliedLater(keys: set<string>, implied: seq<(string, string)>, k: string)
    requires implied != []
    requires IsImplied(implied[1..], if implied[0].0 in keys then keys + {implied[0].1} else keys, k)
    ensures IsImplied(implied, keys, k)
  {
    var next := if implied[0].0 in keys then keys + {implied[0].1} else keys;
    var from, path :| from in next && IsImpliedBy(implied[1..], from, path, k);
    var later := Later(path);
    hide IsImpliedBy;
    PathLater(implied, from, path, k);
    if from !in keys {
      FirstFollows(implied, later, k);
      assert IsImpliedBy(implied, implied[0].0, [0] + later, k);
    }
  }

  function Later(path: seq<nat>): seq<nat> {
    seq(|path|, i requires 0 <= i < |path| => path[i] + 1)
  }

  function Sooner(path: seq<nat>): seq<nat> {
    seq(|path|, i requires 0 <= i < |path| => if path[i] > 0 then path[i] - 1 else 0)
  }

  lemma PathLater(implied: seq<(string, string)>, from: string, path: seq<nat>, k: string)
    requires implied != [] && IsImpliedBy(implied[1..], from, path, k)
    ensures IsImpliedBy(implied, from, Later(path), k)
  {
    var later := Later(path);
    assert forall i :: 0 <= i < |path| ==> implied[1..][path[i]] == implied[later[i]];
  }

  lemma FirstFollows(implied: seq<(string, string)>, path: seq<nat>, k: string)
    requires implied != [] && IsImpliedBy(implied, implied[0].1, path, k)
    requires forall i :: 0 <= i < |path| ==> path[i] > 0
    ensures IsImpliedBy(implied, implied[0].0, [0] + path, k)
  {
    var all := [0] + path;
    assert forall i :: 0 < i < |all| ==> all[i] == path[i - 1];
  }

  lemma PathSooner(implied: seq<(string, string)>, from: string, path: seq<nat>, k: string)
    requires implied != [] && IsImpliedBy(implied, from, path, k)
    requires forall i :: 0 <= i < |path| ==> path[i] > 0
    ensures IsImpliedBy(implied[1..], from, Sooner(path), k)
  {
    var sooner := Sooner(path);
    assert forall i :: 0 <= i < |path| ==> implied[1..][sooner[i]] == implied[path[i]];
  }

  lemma RestFollows(implied: seq<(string, string)>, from: string, path: seq<nat>, k: string)
    requires IsImpliedBy(implied, from, path, k) && path != []
    ensures IsImpliedBy(implied, implied[path[0]].1, path[1..], k)
  {
    var rest := path[1..];
    assert forall i :: 0 <= i < |rest| ==> rest[i] == path[i + 1];
  }

  lemma ImpliedSooner(keys: set<string>, implied: seq<(string, string)>, k: string)
    requires implied != [] && IsImplied(implied, keys, k)
    ensures IsImplied(implied[1..], if implied[0].0 in keys then keys + {implied[0].1} else keys, k)
  {
    var from, path :| from in keys && IsImpliedBy(implied, from, path, k);
    PathRises(implied, from, path, k);
    assert path != [] && path[0] == 0 ==> implied[0].0 == from;
    var rest := if path != [] && path[0] == 0 then path[1..] else path;
    var start := if path != [] && path[0] == 0 then implied[0].1 else from;
    if path != [] && path[0] == 0 {
      RestFollows(implied, from, path, k);
    }
    hide IsImpliedBy;
    PathSooner(implied, start, rest, k);
  }

  lemma PathRises(implied: seq<(string, string)>, from: string, path: seq<nat>, k: string)
    requires IsImpliedBy(implied, from, path, k)
    ensures forall i :: 0 < i < |path| ==> path[i] > 0
  {
    forall i | 0 < i < |path|
      ensures path[i] > 0
    {
      assert path[i - 1] < path[i];
    }
  }

  /** A surface is needed if the scanned bodies demand it, or what they demand implies it. */
  ghost predicate IsNeeded(w: World, entry: seq<Scan>, ms: seq<Module>, ids: set<Id>, k: string) {
    exists from, path :: IsDemanded(w, entry, ms, ids, from) && IsImpliedBy(w.implied, from, path, k)
  }

  lemma NeededIff(w: World, entry: seq<Scan>, ms: seq<Module>, ids: set<Id>, k: string)
    requires forall id :: id in ids ==> IsId(ms, id)
    ensures k in Imply(Demands(w, ScansOf(entry, ms, ids)), w.implied) <==> IsNeeded(w, entry, ms, ids, k)
  {
    var keys := Demands(w, ScansOf(entry, ms, ids));
    forall x
      ensures x in keys <==> IsDemanded(w, entry, ms, ids, x)
    {
      DemandsIff(w, entry, ms, ids, x);
    }
    ImpliedIff(keys, w.implied, k);
    hide IsDemanded;
    hide Demands;
    hide ScansOf;
    hide IsImpliedBy;
  }

  // ---------------------------------------------------------------- what is there for them

  /** The surface has an implementation the emitter admits, declared in a source that can be loaded. */
  ghost predicate IsOffered(w: World, k: string) {
    && k in w.impls && (w.keepWhole || w.impls[k].fn in w.admitted)
    && w.impls[k].src in w.sources && !w.sources[w.impls[k].src].bodyless
    && w.impls[k].fn in w.sources[w.impls[k].src].declared
  }

  /** The implementation is a body of the module its source is loaded as. */
  ghost predicate HasImplementation(w: World, st: Link, k: string)
    requires k in w.impls
  {
    var impl := w.impls[k];
    impl.src in st.loaded && exists mi: nat, fi: nat :: IsAt(st.modules, mi, fi, st.loaded[impl.src], impl.fn)
  }

  /** The surface is the function `f` of the bundled module `m`, which can be lowered with it. */
  ghost predicate IsBundledFunction(w: World, k: string, m: string, f: string) {
    && k == m + "." + f && '.' !in m && k !in w.impls && m in w.bundled
    && m in w.bundledSources && !w.bundledSources[m].bodyless && f in w.bundledSources[m].declared
  }

  ghost predicate IsModuleThere(ms: seq<Module>, m: string) {
    exists i :: 0 <= i < |ms| && ms[i].name == m
  }

  /** Some lowered body, reached or not, or a top-level let mentions the surface. */
  ghost predicate IsMentionedIn(entry: seq<Scan>, ms: seq<Module>, k: string) {
    || (exists s :: s in entry && k in s.mentions)
    || (exists i, s :: 0 <= i < |ms| && s in ms[i].lets && k in s.mentions)
    || (exists i, j :: 0 <= i < |ms| && 0 <= j < |ms[i].fns| && k in ms[i].fns[j].body.mentions)
  }

  lemma OfferedIff(w: World, k: string)
    ensures IsOffered(w, k) <==> Linkable(w, k)
  {
  }

  lemma LinkedHasImplementation(w: World, st: Link, k: string)
    requires k in w.impls && IsLinked(w, st, k)
    ensures HasImplementation(w, st, k)
  {
    HasFnIsAt(st.modules, st.loaded[w.impls[k].src], w.impls[k].fn);
  }

  lemma HasFnIsAt(ms: seq<Module>, m: string, f: string)
    requires HasFn(ms, m, f)
    ensures exists mi: nat, fi: nat :: IsAt(ms, mi, fi, m, f)
  {
    var mi := Position(ms, m);
    var fi :| 0 <= fi < |ms[mi].fns| && ms[mi].fns[fi].name == f;
    assert IsAt(ms, mi, fi, m, f);
  }

  lemma {:induction false} SplitsAtDot(m: string, f: string)
    requires '.' !in m
    ensures SplitOnce(m + "." + f) == Some((m, f))
  {
    var s := m + "." + f;
    if m == "" {
      assert s[0] == '.' && s[1..] == f;
    } else {
      assert s[0] == m[0] && s[1..] == m[1..] + "." + f;
      SplitsAtDot(m[1..], f);
      assert [m[0]] + m[1..] == m;
    }
  }

  lemma MentionedIff(entry: seq<Scan>, ms: seq<Module>, k: string)
    ensures IsMentionedIn(entry, ms, k) <==> IsMentioned(entry, ms, k)
  {
    if IsMentioned(entry, ms, k) && k !in ScanMentions(entry) {
      var m :| m in ms && k in ModuleMentions(m);
      var i :| 0 <= i < |ms| && ms[i] == m;
    }
    if i, s :| 0 <= i < |ms| && s in ms[i].lets && k in s.mentions {
      assert k in ScanMentions(ms[i].lets) && k in ModuleMentions(ms[i]) && ms[i] in ms;
    }
    if i, j :| 0 <= i < |ms| && 0 <= j < |ms[i].fns| && k in ms[i].fns[j].body.mentions {
      assert k in ModuleMentions(ms[i]) && ms[i] in ms;
    }
  }

  /** A settled link: what is needed and offered is implemented. */
  lemma NeededIsImplemented(w: World, entry: seq<Scan>, st: Link, ids: set<Id>, k: string)
    requires Settled(w, entry, st, ids) && IsNeeded(w, entry, st.modules, ids, k) && IsOffered(w, k)
    ensures HasImplementation(w, st, k)
  {
    NeededIff(w, entry, st.modules, ids, k);
    OfferedIff(w, k);
    assert IsLinked(w, st, k);
    LinkedHasImplementation(w, st, k);
  }

  /** A needed function of a bundled module is there, unless it is only the requirement of a type whose
      module is not. */
  lemma NeededIsLowered(w: World, entry: seq<Scan>, st: Link, ids: set<Id>, k: string, m: string, f: string)
    requires Settled(w, entry, st, ids) && IsNeeded(w, entry, st.modules, ids, k) && IsBundledFunction(w, k, m, f)
    requires w.keepWhole || k !in w.requirementKeys || IsModuleThere(st.modules, m)
    ensures exists mi: nat, fi: nat :: IsAt(st.modules, mi, fi, m, f)
  {
    NeededIff(w, entry, st.modules, ids, k);
    SplitsAtDot(m, f);
    assert NamesBundled(w, k) && Lowerable(w, k);
    assert HasBody(st.modules, k);
    HasFnIsAt(st.modules, m, f);
  }

  /** A surface that some body mentions is implemented if its source was met, and one that it implies in
      any case. */
  lemma MentionedIsImplemented(w: World, entry: seq<Scan>, st: Link, ids: set<Id>, k: string)
    requires Settled(w, entry, st, ids) && IsOffered(w, k)
    requires (IsMentionedIn(entry, st.modules, k) && w.impls[k].src in st.loaded)
      || exists p :: p in w.implied && p.1 == k && IsMentionedIn(entry, st.modules, p.0)
    ensures HasImplementation(w, st, k)
  {
    OfferedIff(w, k);
    if p :| p in w.implied && p.1 == k && IsMentionedIn(entry, st.modules, p.0) {
      MentionedIff(entry, st.modules, p.0);
    } else {
      MentionedIff(entry, st.modules, k);
    }
    assert IsLinked(w, st, k);
    LinkedHasImplementation(w, st, k);
  }

  /** Nothing but a demand for more than a requirement loads a bundled module. */
  lemma RequirementLoadsNothing(w: World, start: seq<Module>, st: Link, m: string)
    requires OnDemand(w, start, st.modules, st.tried) && m in w.bundled
    requires IsModuleThere(st.modules, m) && !IsModuleThere(start, m)
    ensures exists k, f :: k in st.tried && k == m + "." + f && k !in w.impls && (w.keepWhole || k !in w.requirementKeys)
  {
    var i :| 0 <= i < |st.modules| && st.modules[i].name == m;
    assert CameOnDemand(w, start, st.tried, st.modules[i]);
    var k :| k in st.tried && IsCauseFor(w, k, m);
    var f :| k == m + "." + f;
  }

  /** A bundled module whose source does not parse or holds a bridge is left as it was. */
  lemma BridgesStay(w: World, start: seq<Module>, st: Link, i: nat)
    requires OnDemand(w, start, st.modules, st.tried) && i < |st.modules| && st.modules[i].name in w.bundled
    requires st.modules[i].name !in w.bundledSources || w.bundledSources[st.modules[i].name].bodyless
    ensures st.modules[i] in start
  {
    assert CameOnDemand(w, start, st.tried, st.modules[i]);
  }

  /** A function of a module by name is one of its functions: of the first module of that name. */
  lemma HasFnIff(ms: seq<Module>, m: string, f: string)
    ensures HasFn(ms, m, f) <==>
      exists mi: nat, fi: nat :: IsAt(ms, mi, fi, m, f) && forall k :: 0 <= k < mi ==> ms[k].name != m
  {
    if HasFn(ms, m, f) {
      var mi := Position(ms, m);
      var fi :| 0 <= fi < |ms[mi].fns| && ms[mi].fns[fi].name == f;
      assert IsAt(ms, mi, fi, m, f);
    }
    if mi: nat, fi: nat :| IsAt(ms, mi, fi, m, f) && forall k :: 0 <= k < mi ==> ms[k].name != m {
      assert Position(ms, m) == mi && ms[mi].fns[fi].name in FnNames(ms[mi]);
    }
  }

  /** If the helpers' anchor is needed and its source can be loaded, every value helper declared there is a
      body of the module of that source. */
  lemma HelpersAreCarried(w: World, entry: seq<Scan>, st: Link, ids: set<Id>, i: nat)
    requires Inv(w, st) && Settled(w, entry, st, ids) && IsNeeded(w, entry, st.modules, ids, w.anchor)
    requires w.anchor in w.impls && i < |w.helpers|
    requires var src := w.impls[w.anchor].src;
      src in w.sources && !w.sources[src].bodyless && w.helpers[i].1 in w.sources[src].declared
    ensures w.impls[w.anchor].src in st.loaded
    ensures exists mi: nat, fi: nat :: IsAt(st.modules, mi, fi, st.loaded[w.impls[w.anchor].src], w.helpers[i].1)
  {
    var src := w.impls[w.anchor].src;
    NeededIff(w, entry, st.modules, ids, w.anchor);
    assert HasHelpers(w, st);
    LinkedIsCarried(w, st, src);
    HasFnIsAt(st.modules, st.loaded[src], w.helpers[i].1);
  }

  /** A linked source's module is of its numbered name and carries the convention methods the source
      declares. */
  lemma ConventionMethodsAreCarried(w: World, st: Link, src: string, f: string)
    requires Inv(w, st) && src in st.linked && src in w.sources && f in w.sources[src].declared && '.' in f
    ensures src in st.loaded && exists mi: nat, fi: nat :: IsAt(st.modules, mi, fi, st.loaded[src], f)
  {
    LinkedIsCarried(w, st, src);
    HasFnIsAt(st.modules, st.loaded[src], f);
  }

  /** A bundled module that was not there at the start has the functions the compiler itself calls. */
  lemma CompilerFindsItsFunctions(w: World, start: seq<Module>, st: Link, i: nat, f: string)
    requires OnDemand(w, start, st.modules, st.tried) && i < |st.modules| && st.modules[i].name in w.bundled
    requires !IsModuleThere(start, st.modules[i].name)
    requires var m := st.modules[i].name;
      && f in w.compilerCalled(m) && m in w.bundledSources && f in w.bundledSources[m].declared
      && m + "." + f !in w.impls
    ensures exists j: nat :: IsAt(st.modules, i, j, st.modules[i].name, f)
  {
    assert CameOnDemand(w, start, st.tried, st.modules[i]);
    assert HasCompilerCalled(w, st.modules[i]);
    var j :| 0 <= j < |st.modules[i].fns| && st.modules[i].fns[j].name == f;
    assert IsAt(st.modules, i, j, st.modules[i].name, f);
  }
}
