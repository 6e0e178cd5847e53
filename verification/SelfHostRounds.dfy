/** The rounds of the self-host linker: load what is missing, link what is demanded, and repeat
    while anything grew. The loop ends, and at the end every demand that can be met is. */
module SelfHostRounds {
  import opened Options
  import opened SelfHostScan
  import opened SelfHostLink
  import opened SelfHostSources

  // ---------------------------------------------------------------- the missing bundled modules

  /** A demanded surface whose bundled module must be lowered for it, and was not before. */
  predicate IsMissing(w: World, ms: seq<Module>, tried: set<string>, surface: string) {
    NamesBundled(w, surface) && !HasBody(ms, surface) && !DispatchOnly(w, ms, surface) && surface !in tried
  }

  /** What collecting the missing surfaces has done after some of them. */
  ghost predicate Gathered(
    w: World, st: Link, seen: seq<string>, tried: set<string>, missing: seq<(string, set<string>)>)
  {
    && st.tried <= tried <= st.tried + Members(seen)
    && (forall s :: s in tried && s !in st.tried ==>
          NamesBundled(w, s) && IsAsked(missing, s) && !HasBody(st.modules, s))
    && (forall s :: s in seen ==> !IsMissing(w, st.modules, tried, s))
    && (forall p :: p in missing ==> p.0 in w.bundled)
    && (forall p :: p in missing ==> IsPresent(st.modules, p.0) || IsAskedFor(w, tried, p.0))
    && (missing != [] ==> tried != st.tried)
  }

  lemma GatherStep(
    w: World, st: Link, seen: seq<string>, tried: set<string>, missing: seq<(string, set<string>)>, s: string)
    requires Gathered(w, st, seen, tried, missing)
    ensures !IsMissing(w, st.modules, tried, s) ==> Gathered(w, st, seen + [s], tried, missing)
    ensures IsMissing(w, st.modules, tried, s) ==>
      Gathered(w, st, seen + [s], tried + {s}, AddMissing(missing, SplitOnce(s).value.0, SplitOnce(s).value.1))
  {
    if IsMissing(w, st.modules, tried, s) {
      var (m, f) := SplitOnce(s).value;
      var more := AddMissing(missing, m, f);
      AddMissingAdds(missing, m, f, m);
      GatherAsks(w, st.modules, tried, missing, s);
      forall x | x in tried + {s} && x !in st.tried
        ensures NamesBundled(w, x) && IsAsked(more, x) && !HasBody(st.modules, x)
      {
        AddMissingAdds(missing, m, f, SplitOnce(x).value.0);
      }
    }
  }

  lemma GatherAsks(w: World, ms: seq<Module>, tried: set<string>, missing: seq<(string, set<string>)>, s: string)
    requires IsMissing(w, ms, tried, s)
    requires forall p :: p in missing ==> IsPresent(ms, p.0) || IsAskedFor(w, tried, p.0)
    ensures forall p :: p in AddMissing(missing, SplitOnce(s).value.0, SplitOnce(s).value.1) ==>
      IsPresent(ms, p.0) || IsAskedFor(w, tried + {s}, p.0)
  {
    var (m, f) := SplitOnce(s).value;
    AddMissingAdds(missing, m, f, m);
    SplitJoins(s);
    assert s == m + "." + f;
    assert !IsPresent(ms, m) ==> IsCauseFor(w, s, m);
    forall p | p in AddMissing(missing, m, f)
      ensures IsPresent(ms, p.0) || IsAskedFor(w, tried + {s}, p.0)
    {
      if p.0 != m {
        var q :| q in missing && q.0 == p.0;
        if !IsPresent(ms, q.0) {
          var k :| k in tried && IsCauseFor(w, k, q.0);
          assert k in tried + {s};
        }
      }
    }
  }

  /** The demanded surfaces to lower modules for, grouped by module in demand order. */
  method GatherMissing(w: World, needed: seq<string>, st: Link)
    returns (tried: set<string>, missing: seq<(string, set<string>)>)
    ensures Gathered(w, st, needed, tried, missing)
  {
    tried, missing := st.tried, [];
    for i := 0 to |needed|
      invariant Gathered(w, st, needed[..i], tried, missing)
    {
      GatherStep(w, st, needed[..i], tried, missing, needed[i]);
      assert needed[..i] + [needed[i]] == needed[..i + 1];
      if IsMissing(w, st.modules, tried, needed[i]) {
        var (m, f) := SplitOnce(needed[i]).value;
        tried, missing := tried + {needed[i]}, AddMissing(missing, m, f);
      }
    }
    assert needed[..|needed|] == needed;
  }

  /** Halfway through the lowering: what the first `j` modules were asked for is served. */
  ghost predicate Lowering(w: World, st: Link, now: Link, missing: seq<(string, set<string>)>, j: nat)
    requires j <= |missing|
  {
    && Inv(w, now)
    && now.tried == st.tried && now.loaded == st.loaded && now.linked == st.linked && now.mentioned == st.mentioned
    && forall s {:trigger IsAsked(missing[..j], s)} ::
         NamesBundled(w, s) && IsAsked(missing[..j], s) ==> Served(w, now.modules, s)
  }

  lemma LowerStep(w: World, st: Link, now: Link, missing: seq<(string, set<string>)>, j: nat)
    requires GoodWorld(w) && j < |missing| && missing[j].0 in w.bundled
    requires Lowering(w, st, now, missing, j)
    ensures Lowering(w, st, LowerMissing(w, now, missing[j].0, missing[j].1), missing, j + 1)
  {
    var (m, funcs) := missing[j];
    var after := LowerMissing(w, now, m, funcs);
    LowerKeepsInv(w, now, m, funcs);
    forall s | NamesBundled(w, s) && IsAsked(missing[..j + 1], s)
      ensures Served(w, after.modules, s)
    {
      FuncsForPrefix(missing, j, SplitOnce(s).value.0);
      if IsAsked(missing[..j], s) {
        StaysServed(w, now, m, funcs, s);
      } else {
        LoweredServed(w, now, m, funcs, s);
      }
    }
  }

  lemma LowerKeepsNoted(w: World, entry: seq<Scan>, st: Link, m: string, funcs: set<string>)
    requires GoodWorld(w) && Noted(entry, st)
    ensures Noted(entry, LowerMissing(w, st, m, funcs))
  {
    var after := LowerMissing(w, st, m, funcs);
    if after != st {
      InstallKeepsNoted(entry, st, after, w.lowerBundled(m, w.reachBundled(m, BundledRoots(w, st.modules, m, funcs))));
    }
  }

  /** What loading the missing modules keeps, and what it achieves for the demands. */
  ghost predicate LoadedMissing(w: World, entry: seq<Scan>, needed: set<string>, st: Link, now: Link, u: set<string>) {
    && Inv(w, now) && Surfaces(w, now, u) && Noted(entry, now)
    && now.loaded == st.loaded && now.linked == st.linked
    && st.tried <= now.tried
    && (now.tried == st.tried ==> now == st)
    && (forall s :: s in now.tried && s !in st.tried ==> NamesBundled(w, s) && !HasBody(st.modules, s))
    && forall s :: s in needed && NamesBundled(w, s) ==>
         HasBody(st.modules, s) || DispatchOnly(w, st.modules, s) || Served(w, now.modules, s)
  }

  lemma LoadedAll(
    w: World, needed: seq<string>, st: Link, now: Link, tried: set<string>, missing: seq<(string, set<string>)>)
    requires GoodWorld(w) && Inv(w, st) && Gathered(w, st, needed, tried, missing)
    requires Lowering(w, st, now, missing, |missing|)
    ensures Inv(w, now.(tried := tried))
    ensures forall s :: s in needed && NamesBundled(w, s) ==>
      HasBody(st.modules, s) || DispatchOnly(w, st.modules, s) || Served(w, now.modules, s)
  {
    assert missing[..|missing|] == missing;
    forall s | s in tried
      ensures Served(w, now.modules, s)
    {
      if s in st.tried {
        assert s in now.tried;
      } else {
        assert IsAsked(missing[..|missing|], s);
      }
    }
    forall s | s in needed && NamesBundled(w, s)
      ensures HasBody(st.modules, s) || DispatchOnly(w, st.modules, s) || Served(w, now.modules, s)
    {
      assert !IsMissing(w, st.modules, tried, s);
    }
    TriedAside(w, now, tried);
  }

  lemma TriedAside(w: World, st: Link, tried: set<string>)
    requires Inv(w, st) && forall s :: s in tried ==> Served(w, st.modules, s)
    ensures Inv(w, st.(tried := tried))
  {
    var after := st.(tried := tried);
    forall src | src in after.linked
      ensures Carried(w, after, src)
    {
      assert Carried(w, st, src);
    }
    forall i | 0 <= i < |after.modules| && SELF_HOST <= after.modules[i].name
      ensures CarriesSome(after, after.modules[i].name)
    {
      var src :| IsCarrier(st, st.modules[i].name, src);
      assert IsCarrier(after, st.modules[i].name, src);
    }
  }

  lemma CannotLower(w: World, st: Link, m: string, funcs: set<string>)
    ensures !CanLower(w, m) ==> LowerMissing(w, st, m, funcs) == st
  {
  }

  lemma LoweringStarts(w: World, st: Link, missing: seq<(string, set<string>)>)
    requires Inv(w, st)
    ensures Lowering(w, st, st, missing, 0)
  {
  }

  lemma MissingIsBundled(
    w: World, st: Link, needed: seq<string>, tried: set<string>, missing: seq<(string, set<string>)>, j: nat)
    requires Gathered(w, st, needed, tried, missing) && j < |missing|
    ensures missing[j].0 in w.bundled
  {
  }

  lemma MissingIsAsked(
    w: World, st: Link, needed: seq<string>, tried: set<string>, missing: seq<(string, set<string>)>, j: nat)
    requires Gathered(w, st, needed, tried, missing) && j < |missing|
    ensures IsPresent(st.modules, missing[j].0) || IsAskedFor(w, tried, missing[j].0)
  {
    assert missing[j] in missing;
  }

  lemma TriedGrows(
    w: World, st: Link, needed: seq<string>, tried: set<string>, missing: seq<(string, set<string>)>)
    requires Gathered(w, st, needed, tried, missing)
    ensures st.tried <= tried
  {
  }

  lemma LoadEnds(
    w: World, entry: seq<Scan>, needed: seq<string>, st: Link, now: Link, tried: set<string>,
    missing: seq<(string, set<string>)>, u: set<string>)
    requires Surfaces(w, st, u) && Surfaces(w, now, u) && Noted(entry, now) && Members(needed) <= u
    requires Gathered(w, st, needed, tried, missing) && Lowering(w, st, now, missing, |missing|)
    requires missing == [] ==> now == st
    requires Inv(w, now.(tried := tried))
    requires forall s :: s in needed && NamesBundled(w, s) ==>
      HasBody(st.modules, s) || DispatchOnly(w, st.modules, s) || Served(w, now.modules, s)
    ensures LoadedMissing(w, entry, Members(needed), st, now.(tried := tried), u)
    ensures missing != [] ==> tried != st.tried
  {
    hide Inv;
    hide Served;
    hide HasBody;
    hide DispatchOnly;
    hide ModuleMentions;
    hide ModuleWithin;
    assert ScanMentions(entry) <= now.mentioned || now.recent.None?;
    forall i | 0 <= i < |now.modules|
      ensures ModuleNoted(now.(tried := tried), now.modules[i])
    {
      assert ModuleNoted(now, now.modules[i]);
    }
    if tried == st.tried {
      assert missing == [];
    }
  }

  /** Lowers every bundled module the demands miss. Each round that does so has tried a new
      surface. */
  method LoadMissing(
    w: World, entry: seq<Scan>, needed: seq<string>, st: Link, ghost u: set<string>, ghost start: seq<Module>)
    returns (now: Link, grew: bool)
    requires OnDemand(w, start, st.modules, st.tried)
    requires GoodWorld(w) && Finite(w, entry, u) && Members(needed) <= u
    requires Inv(w, st) && Surfaces(w, st, u) && Noted(entry, st)
    ensures LoadedMissing(w, entry, Members(needed), st, now, u)
    ensures grew ==> now.tried != st.tried
    ensures !grew ==> now.modules == st.modules && now.recent == st.recent
    ensures OnDemand(w, start, now.modules, now.tried)
  {
    hide *;
    var tried, missing := GatherMissing(w, needed, st);
    now, grew := st, false;
    LoweringStarts(w, st, missing);
    TriedGrows(w, st, needed, tried, missing);
    StaysOnDemand(w, start, st.modules, st.tried, tried);
    ghost var present := set p | p in missing && IsPresent(st.modules, p.0) :: p.0;
    for j := 0 to |missing|
      invariant Lowering(w, st, now, missing, j)
      invariant Surfaces(w, now, u) && Noted(entry, now)
      invariant OnDemand(w, start, now.modules, tried)
      invariant forall m :: m in present ==> IsPresent(now.modules, m)
      invariant grew ==> missing != []
      invariant !grew ==> now == st
    {
      MissingIsBundled(w, st, needed, tried, missing, j);
      LowerStep(w, st, now, missing, j);
      LowerKeepsSurfaces(w, entry, now, missing[j].0, missing[j].1, u);
      LowerKeepsNoted(w, entry, now, missing[j].0, missing[j].1);
      MissingIsAsked(w, st, needed, tried, missing, j);
      LowerOnDemand(w, start, now, tried, missing[j].0, missing[j].1);
      forall m | m in present
        ensures IsPresent(LowerMissing(w, now, missing[j].0, missing[j].1).modules, m)
      {
        LowerKeepsPresent(w, now, missing[j].0, missing[j].1, m);
      }
      var after := LowerMissing(w, now, missing[j].0, missing[j].1);
      grew := grew || CanLower(w, missing[j].0);
      CannotLower(w, now, missing[j].0, missing[j].1);
      now := after;
    }
    LoadedAll(w, needed, st, now, tried, missing);
    LoadEnds(w, entry, needed, st, now, tried, missing, u);
    now := now.(tried := tried);
  }

  // ---------------------------------------------------------------- what a settled link means

  lemma {:induction false} ImplyAdds(keys: set<string>, implied: seq<(string, string)>, p: (string, string))
    requires p in implied && p.0 in keys
    ensures p.1 in Imply(keys, implied)
    decreases |implied|
  {
    if p != implied[0] {
      ImplyAdds(if implied[0].0 in keys then keys + {implied[0].1} else keys, implied[1..], p);
    }
  }

  /** No body goes by the name of a source that is met but not linked. */
  lemma UnlinkedNamesNothing(w: World, st: Link, src: string, fn: string)
    requires Inv(w, st) && src in st.loaded && src !in st.linked
    ensures ByKey(st.modules, Qualified(st.loaded[src], fn)) == None
  {
    var name := st.loaded[src];
    var found := ByKey(st.modules, Qualified(name, fn));
    if found.Some? {
      var m := st.modules[found.value.0];
      SelfHostLoaded(w, st, src);
      SameModule(m.name, FnAt(st.modules, found.value).name, name, fn);
      assert CarriesSome(st, m.name);
      var other :| IsCarrier(st, m.name, other);
      SelfHostLoaded(w, st, other);
    }
  }

  /** Two states that differ only in sources met but not linked. */
  ghost predicate SameLinks(st: Link, now: Link) {
    && now.modules == st.modules && now.linked == st.linked
    && forall src :: src in st.loaded ==> src in now.loaded && now.loaded[src] == st.loaded[src]
  }

  lemma SameReach(w: World, st: Link, now: Link, s: Scan, id: Id)
    requires Inv(w, st) && Inv(w, now) && SameLinks(st, now) && IsId(now.modules, id)
    ensures Reaches(w, now.modules, now.loaded, s, id) == Reaches(w, st.modules, st.loaded, s, id)
  {
    hide Inv;
    hide ByKey;
    forall k | k in s.keys + s.refs
      ensures Implements(w, now.modules, now.loaded, k, id) == Implements(w, st.modules, st.loaded, k, id)
    {
      SameNames(w, st, now, k, if k in w.impls then w.impls[k].fn else "", id);
    }
    forall i | 0 <= i < |w.helpers|
      ensures Helps(w, now.modules, now.loaded, w.helpers[i].1, id)
        == Helps(w, st.modules, st.loaded, w.helpers[i].1, id)
    {
      SameNames(w, st, now, w.anchor, w.helpers[i].1, id);
    }
  }

  lemma SameNames(w: World, st: Link, now: Link, k: string, fn: string, id: Id)
    requires Inv(w, st) && Inv(w, now) && SameLinks(st, now)
    ensures k in w.impls && w.impls[k].src in now.loaded && w.impls[k].src !in st.loaded ==>
      !Names(now.modules, Qualified(now.loaded[w.impls[k].src], fn), id)
  {
    if k in w.impls && w.impls[k].src in now.loaded && w.impls[k].src !in st.loaded {
      var src := w.impls[k].src;
      if src in now.linked {
        LinkedIsCarried(w, st, src);
      } else {
        UnlinkedNamesNothing(w, now, src, fn);
      }
    }
  }

  lemma SamePushes(w: World, st: Link, now: Link, s: Scan)
    requires Inv(w, st) && Inv(w, now) && SameLinks(st, now)
    ensures Pushes(w, now.modules, now.loaded, s) == Pushes(w, st.modules, st.loaded, s)
  {
    forall id: Id | IsId(now.modules, id)
      ensures Reaches(w, now.modules, now.loaded, s, id) == Reaches(w, st.modules, st.loaded, s, id)
    {
      SameReach(w, st, now, s, id);
    }
    hide Reaches;
    hide Inv;
    assert forall mi: nat, fi: nat :: 0 <= mi < |now.modules| && 0 <= fi < |now.modules[mi].fns| ==>
      IsId(now.modules, (mi, fi));
  }

  lemma SameClosed(w: World, entry: seq<Scan>, st: Link, now: Link, ids: set<Id>)
    requires Inv(w, st) && Inv(w, now) && SameLinks(st, now)
    ensures Closed(w, entry, now.modules, now.loaded, ids) == Closed(w, entry, st.modules, st.loaded, ids)
  {
    forall s
      ensures Pushes(w, now.modules, now.loaded, s) == Pushes(w, st.modules, st.loaded, s)
    {
      SamePushes(w, st, now, s);
    }
    hide Pushes;
    hide Inv;
  }

  lemma SameReached(w: World, entry: seq<Scan>, st: Link, now: Link, ids: set<Id>)
    requires Inv(w, st) && Inv(w, now) && SameLinks(st, now)
    requires IsReached(w, entry, st.modules, st.loaded, ids)
    ensures IsReached(w, entry, now.modules, now.loaded, ids)
  {
    forall other
      ensures Closed(w, entry, now.modules, now.loaded, other) == Closed(w, entry, st.modules, st.loaded, other)
    {
      SameClosed(w, entry, st, now, other);
    }
    hide Closed;
    hide Inv;
  }

  /** Every demanded surface with an admitted body in a loadable source is linked, and every
      demanded function of a bundled module that can be lowered has its body, unless it is a
      requirement of a type no value of which can exist. */
  ghost predicate Demanded(w: World, st: Link, keys: set<string>) {
    && (forall k {:trigger IsLinked(w, st, k)} :: k in keys && Linkable(w, k) ==> IsLinked(w, st, k))
    && (forall k {:trigger HasBody(st.modules, k)} :: k in keys && NamesBundled(w, k) && Lowerable(w, k) ==>
          HasBody(st.modules, k) || DispatchOnly(w, st.modules, k))
    && (w.anchor in keys ==> HasHelpers(w, st))
  }

  /** The source of the helpers' anchor carries every value helper it declares. */
  ghost predicate HasHelpers(w: World, st: Link) {
    w.anchor in w.impls && Loadable(w, w.impls[w.anchor].src) ==>
      forall i :: 0 <= i < |w.helpers| && w.helpers[i].1 in w.sources[w.impls[w.anchor].src].declared ==>
        w.impls[w.anchor].src in st.linked && w.helpers[i].1 in st.linked[w.impls[w.anchor].src]
  }

  lemma RoundHasHelpers(
    w: World, needed: seq<string>, own: seq<string>, earlier: seq<string>, now: Link, wanted: set<string>)
    requires Members(needed) <= wanted
    requires forall src :: src in SourceOrder(w, needed, own, earlier) ==> HasAsked(w, now, wanted, src)
    ensures w.anchor in Members(needed) ==> HasHelpers(w, now)
  {
    if w.anchor in needed && w.anchor in w.impls {
      var src := w.impls[w.anchor].src;
      SourceOrderHolds(w, needed, own, earlier, src);
      assert w.anchor in needed + own;
      assert HasAsked(w, now, wanted, src);
      forall i | 0 <= i < |w.helpers|
        ensures IsAskedOf(w, wanted, src, w.helpers[i].1)
      {
        assert w.anchor in Members(needed);
      }
    }
  }

  ghost predicate IsMentioned(entry: seq<Scan>, ms: seq<Module>, k: string) {
    k in ScanMentions(entry) || exists m :: m in ms && k in ModuleMentions(m)
  }

  /** A surface any body names, reached or not, is linked when its source was met, or when the
      emitter resolves it on its own for another that is named. */
  ghost predicate Mentioned(w: World, entry: seq<Scan>, st: Link) {
    && (forall k {:trigger IsMentioned(entry, st.modules, k)} ::
          IsMentioned(entry, st.modules, k) && Linkable(w, k) && w.impls[k].src in st.loaded ==> IsLinked(w, st, k))
    && (forall p :: p in w.implied && IsMentioned(entry, st.modules, p.0) && Linkable(w, p.1) ==> IsLinked(w, st, p.1))
  }

  ghost predicate Settled(w: World, entry: seq<Scan>, st: Link, reached: set<Id>) {
    && IsReached(w, entry, st.modules, st.loaded, reached)
    && Demanded(w, st, Imply(Demands(w, ScansOf(entry, st.modules, reached)), w.implied))
    && Mentioned(w, entry, st)
  }

  // ---------------------------------------------------------------- one round

  /** The surfaces the emitter resolves on its own that only an unreached body names. */
  function EmitterOwn(w: World, mentioned: set<string>, needed: set<string>): set<string> {
    set i | 0 <= i < |w.implied| && w.implied[i].1 in mentioned && w.implied[i].1 !in needed :: w.implied[i].1
  }

  lemma OrderFits(w: World, needed: seq<string>, own: seq<string>, st: Link, earlier: seq<string>)
    requires NamesOk(w, st.loaded) && Members(earlier) == st.loaded.Keys
    ensures forall src :: src in SourceOrder(w, needed, own, earlier) ==> src in ImplSources(w)
  {
    forall src | src in SourceOrder(w, needed, own, earlier)
      ensures src in ImplSources(w)
    {
      SourceOrderHolds(w, needed, own, earlier, src);
      if src in earlier {
        assert src in Members(earlier);
      }
    }
  }

  lemma DemandsWithin(w: World, entry: seq<Scan>, st: Link, u: set<string>, ids: set<Id>)
    requires Finite(w, entry, u) && Surfaces(w, st, u)
    ensures Demands(w, ScansOf(entry, st.modules, ids)) <= u
  {
    forall s | s in ScansOf(entry, st.modules, ids)
      ensures s.keys <= u
    {
      if s in Bodies(st.modules, ids) {
        var id :| id in ids && IsId(st.modules, id) && s == FnAt(st.modules, id).body;
        assert ModuleWithin(st.modules[id.0], u);
      } else if s !in entry {
        LetsWithin(st.modules, u, s);
      }
    }
  }

  lemma {:induction false} LetsWithin(ms: seq<Module>, u: set<string>, s: Scan)
    requires s in AllLets(ms) && forall i :: 0 <= i < |ms| ==> ModuleWithin(ms[i], u)
    ensures s.keys <= u
  {
    if s in ms[|ms| - 1].lets {
      assert ModuleWithin(ms[|ms| - 1], u);
    } else {
      LetsWithin(ms[..|ms| - 1], u, s);
    }
  }

  /** What a round that is still growing uses up. */
  ghost predicate Shrinks(w: World, st: Link, now: Link, u: set<string>) {
    || |u - now.tried| < |u - st.tried|
    || (now.tried == st.tried && |AllPairs(w) - Pairs(w, now.linked)| < |AllPairs(w) - Pairs(w, st.linked)|)
  }

  lemma StrictlyShrinks<T>(all: set<T>, a: set<T>, b: set<T>)
    requires a <= b <= all && a != b
    ensures |all - b| < |all - a|
  {
    SubsetIsSmaller(all - b, all - a);
    var x :| x in b && x !in a;
    assert x in all - a && x !in all - b;
  }

  lemma ShrinksIsLess(w: World, st: Link, now: Link, u: set<string>)
    requires Shrinks(w, st, now, u)
    ensures |u - now.tried| < |u - st.tried|
      || (|u - now.tried| == |u - st.tried|
          && |AllPairs(w) - Pairs(w, now.linked)| < |AllPairs(w) - Pairs(w, st.linked)|)
  {
  }

  /** The end of a round: what was wanted is met. */
  lemma RoundMeets(
    w: World, entry: seq<Scan>, keys: set<string>, needed: seq<string>, own: seq<string>, earlier: seq<string>,
    st: Link, now: Link, grew: bool, wanted: set<string>)
    requires Linking(w, wanted, st, now, SourceOrder(w, needed, own, earlier), grew)
    requires Members(needed) == keys && wanted == st.mentioned + keys && Members(earlier) == st.loaded.Keys
    requires Members(own) == EmitterOwn(w, st.mentioned, keys)
    ensures forall k :: k in keys && Linkable(w, k) ==> IsLinked(w, now, k)
    ensures forall k :: k in st.mentioned && Linkable(w, k) && w.impls[k].src in now.loaded ==> IsLinked(w, now, k)
    ensures forall p :: p in w.implied && p.1 in st.mentioned && Linkable(w, p.1) ==> IsLinked(w, now, p.1)
  {
    var order := SourceOrder(w, needed, own, earlier);
    forall k | k in wanted && Linkable(w, k) && (k in keys || k in Members(own) || w.impls[k].src in now.loaded)
      ensures IsLinked(w, now, k)
    {
      SourceOrderHolds(w, needed, own, earlier, w.impls[k].src);
      if w.impls[k].src in st.loaded {
        assert w.impls[k].src in Members(earlier);
      } else if w.impls[k].src !in now.loaded {
        assert k in Members(needed) || k in Members(own);
        assert k in needed + own;
      }
      assert Meets(w, now, wanted, w.impls[k].src);
    }
    forall p | p in w.implied && p.1 in st.mentioned && Linkable(w, p.1)
      ensures IsLinked(w, now, p.1)
    {
      assert p.1 in keys || p.1 in EmitterOwn(w, st.mentioned, keys);
    }
  }

  /** A round that grew nothing settles the link. */
  lemma RoundSettles(
    w: World, entry: seq<Scan>, st: Link, mid: Link, now: Link, reached: set<Id>, keys: set<string>, u: set<string>)
    requires Inv(w, st) && Inv(w, now) && SameLinks(st, now) && mid.modules == st.modules
    requires IsReached(w, entry, st.modules, st.loaded, reached)
    requires keys == Imply(Demands(w, ScansOf(entry, st.modules, reached)), w.implied)
    requires LoadedMissing(w, entry, keys, st, mid, u)
    requires forall k :: k in keys && Linkable(w, k) ==> IsLinked(w, now, k)
    requires w.anchor in keys ==> HasHelpers(w, now)
    requires var mentioned := Collect(w, entry, mid).mentioned;
      && (forall k :: k in mentioned && Linkable(w, k) && w.impls[k].src in now.loaded ==> IsLinked(w, now, k))
      && (forall p :: p in w.implied && p.1 in mentioned && Linkable(w, p.1) ==> IsLinked(w, now, p.1))
    ensures Settled(w, entry, now, reached)
  {
    SameReached(w, entry, st, now, reached);
    CollectNotes(w, entry, mid);
    var mentioned := Collect(w, entry, mid).mentioned;
    forall p | p in w.implied && IsMentioned(entry, now.modules, p.0)
      ensures p.1 in mentioned
    {
      MentionIsCollected(w, entry, mid, p.0);
      ImplyAdds(mid.mentioned + NewMentions(entry, mid), w.implied, p);
    }
    hide IsReached;
    hide Collect;
    hide Inv;
    hide Imply;
    hide Demands;
    hide ScansOf;
    hide IsMentioned;
    hide IsLinked;
    hide HasHelpers;
    forall k | IsMentioned(entry, now.modules, k)
      ensures k in mentioned
    {
      MentionIsMentioned(w, entry, mid, k);
    }
  }

  lemma MentionIsMentioned(w: World, entry: seq<Scan>, st: Link, k: string)
    requires Noted(entry, st) && IsMentioned(entry, st.modules, k)
    ensures k in Collect(w, entry, st).mentioned
  {
    CollectNotes(w, entry, st);
  }

  /** A mention is already collected, or new. */
  lemma MentionIsCollected(w: World, entry: seq<Scan>, st: Link, k: string)
    requires Noted(entry, st) && IsMentioned(entry, st.modules, k)
    ensures k in st.mentioned + NewMentions(entry, st)
  {
    if k !in ScanMentions(entry) {
      var m :| m in st.modules && k in ModuleMentions(m);
      var i :| 0 <= i < |st.modules| && st.modules[i] == m;
      assert ModuleNoted(st, st.modules[i]);
    }
  }

  lemma RoundShrinks(w: World, entry: seq<Scan>, st: Link, mid: Link, now: Link, u: set<string>)
    requires Surfaces(w, mid, u) && Inv(w, now)
    requires st.tried <= mid.tried == now.tried && mid.linked == st.linked && Pairs(w, mid.linked) <= Pairs(w, now.linked)
    requires mid.tried != st.tried || Pairs(w, mid.linked) != Pairs(w, now.linked)
    ensures Shrinks(w, st, now, u)
  {
    if mid.tried != st.tried {
      StrictlyShrinks(u, st.tried, mid.tried);
    } else {
      PairsBounded(w, now);
      StrictlyShrinks(AllPairs(w), Pairs(w, st.linked), Pairs(w, now.linked));
    }
  }

  /** One round: scan the demands, load what they miss, note the mentions, link the sources. */
  method Round(w: World, entry: seq<Scan>, st: Link, ghost u: set<string>, ghost start: seq<Module>)
    returns (now: Link, grew: bool, ghost reached: set<Id>)
    requires OnDemand(w, start, st.modules, st.tried)
    requires GoodWorld(w) && Finite(w, entry, u)
    requires Inv(w, st) && Surfaces(w, st, u) && Noted(entry, st)
    ensures Inv(w, now) && Surfaces(w, now, u) && Noted(entry, now)
    ensures OnDemand(w, start, now.modules, now.tried)
    ensures grew ==> Shrinks(w, st, now, u)
    ensures !grew ==> Settled(w, entry, now, reached)
  {
    hide *;
    var demands;
    demands, reached := ScanProgram(w, entry, st.modules, st.loaded);
    var keys := Imply(demands, w.implied);
    DemandsWithin(w, entry, st, u, reached);
    ImpliedWithin(w, entry, demands, u);
    var needed := InSomeOrder(keys);
    var mid, loadedAny := LoadMissing(w, entry, needed, st, u, start);
    LoadKeeps(w, entry, keys, st, mid, u);
    CollectKeeps(w, entry, mid, u);
    CollectNotes(w, entry, mid);
    var noted := Collect(w, entry, mid);
    CollectFrame(w, entry, mid);
    var own := InSomeOrder(EmitterOwn(w, noted.mentioned, keys));
    var earlier := InSomeOrder(noted.loaded.Keys);
    var order := SourceOrder(w, needed, own, earlier);
    LoadedNames(w, noted);
    OrderFits(w, needed, own, noted, earlier);
    var linkedAny;
    now, linkedAny := LinkSources(w, entry, order, noted.mentioned + keys, noted, u, start);
    RoundMeets(w, entry, keys, needed, own, earlier, noted, now, linkedAny, noted.mentioned + keys);
    RoundHasHelpers(w, needed, own, earlier, now, noted.mentioned + keys);
    grew := loadedAny || linkedAny;
    RoundEnds(w, entry, noted.mentioned + keys, st, mid, now, order, loadedAny, linkedAny, keys, u);
    if !grew {
      RoundSettles(w, entry, st, mid, now, reached, keys, u);
    }
  }

  lemma ImpliedWithin(w: World, entry: seq<Scan>, keys: set<string>, u: set<string>)
    requires Finite(w, entry, u) && keys <= u
    ensures Imply(keys, w.implied) <= u
  {
    ImplyWithin(keys, w.implied, u);
  }

  lemma LoadKeeps(w: World, entry: seq<Scan>, needed: set<string>, st: Link, mid: Link, u: set<string>)
    requires LoadedMissing(w, entry, needed, st, mid, u)
    ensures Inv(w, mid) && Surfaces(w, mid, u) && Noted(entry, mid)
  {
  }

  lemma LoadedNames(w: World, st: Link)
    requires Inv(w, st)
    ensures NamesOk(w, st.loaded)
  {
  }

  lemma RoundEnds(
    w: World, entry: seq<Scan>, wanted: set<string>, st: Link, mid: Link, now: Link, order: seq<string>,
    loadedAny: bool, linkedAny: bool, keys: set<string>, u: set<string>)
    requires LoadedMissing(w, entry, keys, st, mid, u)
    requires loadedAny ==> mid.tried != st.tried
    requires !loadedAny ==> mid.modules == st.modules
    requires Linking(w, wanted, Collect(w, entry, mid), now, order, linkedAny)
    ensures Inv(w, now)
    ensures loadedAny || linkedAny ==> Shrinks(w, st, now, u)
    ensures !loadedAny && !linkedAny ==> mid.modules == st.modules && SameLinks(st, now)
  {
    if loadedAny || linkedAny {
      RoundShrinks(w, entry, st, mid, now, u);
    }
  }

  // ---------------------------------------------------------------- the link

  ghost predicate Fresh(w: World, modules: seq<Module>, u: set<string>) {
    && (forall i :: 0 <= i < |modules| ==> !(SELF_HOST <= modules[i].name) && ModuleWithin(modules[i], u))
    && BundledOk(w, modules)
  }

  lemma StartsFresh(w: World, entry: seq<Scan>, modules: seq<Module>, u: set<string>)
    requires Fresh(w, modules, u)
    ensures var st := Link(modules, map[], map[], {}, {}, None);
      Inv(w, st) && Surfaces(w, st, u) && Noted(entry, st)
  {
  }

  /** Links a lowered program. It ends, and then every demand of every body the linked program
      can reach is met. */
  method LinkSelfHost(w: World, entry: seq<Scan>, modules: seq<Module>, ghost u: set<string>)
    returns (st: Link, ghost reached: set<Id>)
    requires GoodWorld(w) && Finite(w, entry, u) && Fresh(w, modules, u)
    ensures Inv(w, st)
    ensures OnDemand(w, modules, st.modules, st.tried)
    ensures Settled(w, entry, st, reached)
  {
    hide *;
    st, reached := Link(modules, map[], map[], {}, {}, None), {};
    StartsFresh(w, entry, modules, u);
    var grew := true;
    StartsOnDemand(w, modules);
    while grew
      invariant Inv(w, st) && Surfaces(w, st, u) && Noted(entry, st)
      invariant OnDemand(w, modules, st.modules, st.tried)
      invariant !grew ==> Settled(w, entry, st, reached)
      decreases grew, |u - st.tried|, |AllPairs(w) - Pairs(w, st.linked)|
    {
      ghost var was := st;
      st, grew, reached := Round(w, entry, st, u, modules);
      if grew {
        ShrinksIsLess(w, was, st, u);
      }
    }
  }

  lemma StartsOnDemand(w: World, modules: seq<Module>)
    ensures OnDemand(w, modules, modules, {})
  {
  }

  lemma CollectFrame(w: World, entry: seq<Scan>, st: Link)
    ensures Collect(w, entry, st).modules == st.modules && Collect(w, entry, st).tried == st.tried
  {
  }
}
