/** Linking the self-host sources: each carries the implementations that are wanted of it, and
    what those reach inside it. */
module SelfHostSources {
  import opened Options
  import opened SelfHostScan
  import opened SelfHostLink

  function Linked(st: Link, src: string): set<string> {
    if src in st.linked then st.linked[src] else {}
  }

  /** The functions asked of a source: what it carries already, the admitted implementations of
      the wanted surfaces, and the value helpers when their anchor is wanted. */
  function Roots(w: World, st: Link, wanted: set<string>, src: string): set<string> {
    Linked(st, src)
    + (set k | k in w.impls && w.impls[k].src == src && k in wanted && Admitted(w, w.impls[k].fn) :: w.impls[k].fn)
    + (if HoldsAnchor(w, src) && w.anchor in wanted then HelperNames(w) else {})
  }

  function NameFor(st: Link, src: string): string {
    if src in st.loaded then st.loaded[src] else SelfHostName(|st.loaded| + 1)
  }

  function Meet(st: Link, src: string): Link {
    st.(loaded := st.loaded[src := NameFor(st, src)])
  }

  /** Nothing new is asked of the source, or nothing at all. */
  predicate IsSettled(st: Link, src: string, roots: set<string>) {
    if src in st.loaded then roots <= Linked(st, src) else roots == {}
  }

  function Kept(w: World, src: string, roots: set<string>): set<string>
    requires src in w.sources
  {
    w.reach(src, roots + Dotted(w.sources[src].declared))
  }

  /** The source is lowered (again): it is loadable and would carry other functions than it does. */
  predicate MustLower(w: World, st: Link, src: string, roots: set<string>) {
    && !IsSettled(st, src, roots) && Loadable(w, src)
    && !(src in st.linked && st.linked[src] == Kept(w, src, roots))
  }

  /** A source that is met gets its name even if it cannot be loaded. */
  function LinkSource(w: World, st: Link, src: string, roots: set<string>): Link {
    if IsSettled(st, src, roots) then st
    else if !MustLower(w, st, src, roots) then Meet(st, src)
    else
      var keep := Kept(w, src, roots);
      Meet(st, src).(
        linked := st.linked[src := keep],
        modules := Install(st.modules, w.lower(NameFor(st, src), src, keep)),
        recent := NotedRecent(st, NameFor(st, src)))
  }

  // ---------------------------------------------------------------- what linking keeps

  lemma NameIsNew(w: World, st: Link, src: string)
    requires NamesOk(w, st.loaded) && src !in st.loaded
    ensures forall other :: other in st.loaded ==> st.loaded[other] != NameFor(st, src)
  {
    forall other | other in st.loaded
      ensures st.loaded[other] != NameFor(st, src)
    {
      var n: nat :| n <= |st.loaded| && st.loaded[other] == SelfHostName(n);
      if st.loaded[other] == NameFor(st, src) {
        SelfHostNameInjective(n, |st.loaded| + 1);
      }
    }
  }

  lemma LoadedFits(w: World, loaded: map<string, string>)
    requires loaded.Keys <= ImplSources(w)
    ensures |loaded| <= |ImplSources(w)|
  {
    SubsetIsSmaller(loaded.Keys, ImplSources(w));
  }

  lemma {:induction false} SubsetIsSmaller<T>(a: set<T>, b: set<T>)
    requires a <= b
    ensures |a| <= |b|
    ensures a != b ==> |a| < |b|
  {
    assert b == a + (b - a);
    assert |b| == |a| + |b - a|;
    if a != b {
      var x :| x in b && x !in a;
      assert x in b - a;
    }
  }

  lemma MeetKeepsNames(w: World, st: Link, src: string)
    requires NamesOk(w, st.loaded) && src in ImplSources(w)
    ensures NamesOk(w, Meet(st, src).loaded)
    ensures IsNumbered(NameFor(st, src), |ImplSources(w)|)
  {
    if src in st.loaded {
      assert Meet(st, src).loaded == st.loaded;
    } else {
      NewNameFits(w, st, src);
    }
    LoadedFits(w, Meet(st, src).loaded);
    hide SelfHostName;
    hide ImplSources;
    var after := Meet(st, src).loaded;
    assert IsNumbered(after[src], |after|) && after[src] == NameFor(st, src);
    NumberedMore(NameFor(st, src), |after|, |ImplSources(w)|);
  }

  lemma NewNameFits(w: World, st: Link, src: string)
    requires NamesOk(w, st.loaded) && src in ImplSources(w) && src !in st.loaded
    ensures NamesOk(w, Meet(st, src).loaded)
  {
    hide ImplSources;
    hide SelfHostName;
    NameIsNew(w, st, src);
    NewNameIsNumbered(st, src);
    hide NameFor;
    hide IsNumbered;
    var after := Meet(st, src).loaded;
    assert after.Keys == st.loaded.Keys + {src};
    assert |after| == |st.loaded| + 1;
    forall other | other in after
      ensures IsNumbered(after[other], |after|)
    {
      if other != src {
        NumberedMore(after[other], |st.loaded|, |after|);
      }
    }
  }

  lemma NewNameIsNumbered(st: Link, src: string)
    requires src !in st.loaded
    ensures IsNumbered(NameFor(st, src), |st.loaded| + 1)
  {
  }

  lemma NumberedMore(name: string, top: nat, more: nat)
    requires IsNumbered(name, top) && top <= more
    ensures IsNumbered(name, more)
  {
  }

  lemma NameIsSelfHost(w: World, st: Link, src: string)
    requires NamesOk(w, st.loaded)
    ensures SELF_HOST <= NameFor(st, src) && '.' !in NameFor(st, src)
  {
    if src in st.loaded {
      SelfHostLoaded(w, st, src);
    } else {
      SelfHostNoDot(|st.loaded| + 1);
    }
  }

  lemma KeptWithin(w: World, st: Link, src: string, roots: set<string>)
    requires GoodWorld(w) && IsClosure(w) && src in w.sources && roots <= Linked(st, src) + Askable(w, src)
    requires Linked(st, src) <= w.reach(src, Askable(w, src))
    ensures Kept(w, src, roots) <= w.reach(src, Askable(w, src))
  {
    var all, declared := roots + Dotted(w.sources[src].declared), w.sources[src].declared;
    assert Dotted(declared) <= Askable(w, src);
    assert Askable(w, src) * declared <= w.reach(src, Askable(w, src));
    hide Askable;
    hide Dotted;
    assert all * declared <= w.reach(src, Askable(w, src));
  }

  lemma LoweredCarried(w: World, st: Link, src: string, roots: set<string>)
    requires GoodWorld(w) && MustLower(w, st, src, roots) && roots <= Linked(st, src) + Askable(w, src)
    requires src in st.linked ==> Carried(w, st, src)
    ensures Carried(w, LinkSource(w, st, src, roots), src)
  {
    var keep := Kept(w, src, roots);
    KeptIsRight(w, st, src, roots);
    LoweredIs(w, st, src, roots);
    InstallFinds(st.modules, w.lower(NameFor(st, src), src, keep), NameFor(st, src));
    assert FnNames(w.lower(NameFor(st, src), src, keep)) == keep;
    hide *;
    CarriedAs(w, LinkSource(w, st, src, roots), src, keep);
  }

  lemma KeptIsRight(w: World, st: Link, src: string, roots: set<string>)
    requires GoodWorld(w) && Loadable(w, src) && roots <= Linked(st, src) + Askable(w, src)
    requires src in st.linked ==> Carried(w, st, src)
    ensures Kept(w, src, roots) <= w.sources[src].declared
    ensures forall f :: f in w.sources[src].declared && '.' in f ==> f in Kept(w, src, roots)
    ensures IsClosure(w) ==> Kept(w, src, roots) <= w.reach(src, Askable(w, src))
  {
    if IsClosure(w) {
      KeptWithin(w, st, src, roots);
    }
    hide IsClosure;
    hide Askable;
    hide Carried;
  }

  /** What the source is after it was lowered. */
  lemma LoweredIs(w: World, st: Link, src: string, roots: set<string>)
    requires GoodWorld(w) && MustLower(w, st, src, roots)
    ensures var after := LinkSource(w, st, src, roots);
      && Loadable(w, src) && src in after.loaded && src in after.linked
      && after.loaded[src] == NameFor(st, src) && after.linked[src] == Kept(w, src, roots)
      && after.modules == Install(st.modules, w.lower(NameFor(st, src), src, Kept(w, src, roots)))
      && w.lower(NameFor(st, src), src, Kept(w, src, roots)).name == NameFor(st, src)
  {
  }

  lemma CarriedAs(w: World, st: Link, src: string, keep: set<string>)
    requires Loadable(w, src) && src in st.loaded && src in st.linked && st.linked[src] == keep
    requires keep <= w.sources[src].declared
    requires forall f :: f in w.sources[src].declared && '.' in f ==> f in keep
    requires IsClosure(w) ==> keep <= w.reach(src, Askable(w, src))
    requires IsPresent(st.modules, st.loaded[src])
    requires FnNames(st.modules[Position(st.modules, st.loaded[src])]) == keep
    ensures Carried(w, st, src)
  {
    hide IsClosure;
    hide Askable;
  }

  lemma OthersCarried(w: World, st: Link, src: string, roots: set<string>, other: string)
    requires GoodWorld(w) && NamesOk(w, st.loaded) && Carried(w, st, other)
    requires other != src || !MustLower(w, st, src, roots)
    ensures Carried(w, LinkSource(w, st, src, roots), other)
  {
    if MustLower(w, st, src, roots) {
      if src !in st.loaded {
        NameIsNew(w, st, src);
      }
      InstallFinds(st.modules, w.lower(NameFor(st, src), src, Kept(w, src, roots)), st.loaded[other]);
    }
  }

  lemma SelfHostServed(w: World, st: Link, src: string, roots: set<string>, surface: string)
    requires GoodWorld(w) && NamesOk(w, st.loaded) && Served(w, st.modules, surface)
    ensures Served(w, LinkSource(w, st, src, roots).modules, surface)
  {
    if MustLower(w, st, src, roots) {
      NameIsSelfHost(w, st, src);
      InstallFinds(st.modules, w.lower(NameFor(st, src), src, Kept(w, src, roots)), SplitOnce(surface).value.0);
    }
  }

  lemma CarrierStays(w: World, st: Link, src: string, roots: set<string>, name: string)
    requires CarriesSome(st, name)
    ensures CarriesSome(LinkSource(w, st, src, roots), name)
  {
    var other :| IsCarrier(st, name, other);
    assert IsCarrier(LinkSource(w, st, src, roots), name, other);
  }

  lemma RootsWithin(w: World, st: Link, wanted: set<string>, src: string)
    ensures Roots(w, st, wanted, src) <= Linked(st, src) + Askable(w, src)
  {
  }

  lemma LinkKeepsInv(w: World, st: Link, src: string, roots: set<string>)
    requires GoodWorld(w) && Inv(w, st) && src in ImplSources(w) && roots <= Linked(st, src) + Askable(w, src)
    ensures Inv(w, LinkSource(w, st, src, roots))
  {
    var after := LinkSource(w, st, src, roots);
    MeetKeepsNames(w, st, src);
    forall other | other in after.linked
      ensures Carried(w, after, other)
    {
      if other == src && MustLower(w, st, src, roots) {
        assert src in st.linked ==> Carried(w, st, src);
        LoweredCarried(w, st, src, roots);
      } else {
        assert Carried(w, st, other);
        OthersCarried(w, st, src, roots, other);
      }
    }
    forall s | s in after.tried
      ensures Served(w, after.modules, s)
    {
      assert Served(w, st.modules, s);
      SelfHostServed(w, st, src, roots, s);
    }
    LinkKeepsModules(w, st, src, roots);
  }

  lemma LinkKeepsModules(w: World, st: Link, src: string, roots: set<string>)
    requires GoodWorld(w) && Inv(w, st)
    ensures BundledOk(w, LinkSource(w, st, src, roots).modules)
    ensures AllCarried(LinkSource(w, st, src, roots))
  {
    var after := LinkSource(w, st, src, roots);
    NameIsSelfHost(w, st, src);
    if MustLower(w, st, src, roots) {
      assert IsCarrier(after, NameFor(st, src), src);
    }
    forall i | 0 <= i < |after.modules|
      ensures after.modules[i].name in w.bundled && after.modules[i].name in w.bundledSources ==>
        FnNames(after.modules[i]) <= w.bundledSources[after.modules[i].name].declared
      ensures SELF_HOST <= after.modules[i].name ==> CarriesSome(after, after.modules[i].name)
    {
      if MustLower(w, st, src, roots) {
        InstallMembers(st.modules, w.lower(NameFor(st, src), src, Kept(w, src, roots)), i);
      }
      if i < |st.modules| && after.modules[i] == st.modules[i] && SELF_HOST <= after.modules[i].name {
        assert CarriesSome(st, st.modules[i].name);
        CarrierStays(w, st, src, roots, st.modules[i].name);
      }
    }
  }

  lemma LinkKeepsSurfaces(
    w: World, entry: seq<Scan>, st: Link, src: string, roots: set<string>, u: set<string>)
    requires NamesOk(w, st.loaded) && src in ImplSources(w) && Finite(w, entry, u) && Surfaces(w, st, u)
    ensures Surfaces(w, LinkSource(w, st, src, roots), u)
  {
    var after := LinkSource(w, st, src, roots);
    if MustLower(w, st, src, roots) {
      MeetKeepsNames(w, st, src);
      var n: nat :| n <= |ImplSources(w)| && NameFor(st, src) == SelfHostName(n);
      var low := w.lower(SelfHostName(n), src, Kept(w, src, roots));
      assert ModuleWithin(low, u);
      forall i | 0 <= i < |after.modules|
        ensures ModuleWithin(after.modules[i], u)
      {
        InstallMembers(st.modules, low, i);
      }
    }
  }

  // ---------------------------------------------------------------- what linking achieves

  /** Every surface that is wanted of this source and has an admitted body there is linked. */
  ghost predicate Meets(w: World, st: Link, wanted: set<string>, src: string) {
    forall k {:trigger IsLinked(w, st, k)} ::
      k in wanted && Linkable(w, k) && w.impls[k].src == src ==> IsLinked(w, st, k)
  }

  lemma LinkMeets(w: World, st: Link, wanted: set<string>, src: string)
    requires GoodWorld(w) && Inv(w, st) && src in ImplSources(w)
    ensures Meets(w, LinkSource(w, st, src, Roots(w, st, wanted, src)), wanted, src)
  {
    var roots := Roots(w, st, wanted, src);
    var after := LinkSource(w, st, src, roots);
    RootsWithin(w, st, wanted, src);
    LinkKeepsInv(w, st, src, roots);
    forall k | k in wanted && Linkable(w, k) && w.impls[k].src == src
      ensures IsLinked(w, after, k)
    {
      WantedIsKept(w, st, wanted, k);
      LinkedIsCarried(w, after, src);
    }
  }

  /** `f` is asked of the source: an admitted implementation of a wanted surface, or a value helper whose
      anchor is wanted. */
  ghost predicate IsAskedOf(w: World, wanted: set<string>, src: string, f: string) {
    || (exists k :: k in wanted && k in w.impls && w.impls[k] == Impl(src, f) && (w.keepWhole || f in w.admitted))
    || (w.anchor in wanted && w.anchor in w.impls && w.impls[w.anchor].src == src
        && exists i :: 0 <= i < |w.helpers| && w.helpers[i].1 == f)
  }

  /** What is asked of a source that can be loaded, and declared there, is carried. */
  ghost predicate HasAsked(w: World, st: Link, wanted: set<string>, src: string) {
    forall f :: IsAskedOf(w, wanted, src, f) && src in w.sources && !w.sources[src].bodyless && f in w.sources[src].declared ==>
      src in st.linked && f in st.linked[src]
  }

  lemma RootsAreAsked(w: World, st: Link, wanted: set<string>, src: string, f: string)
    ensures f in Roots(w, st, wanted, src) <==> f in Linked(st, src) || IsAskedOf(w, wanted, src, f)
  {
    if f in Roots(w, st, wanted, src) && f !in Linked(st, src) {
      if k :| k in w.impls && w.impls[k].src == src && k in wanted && Admitted(w, w.impls[k].fn) && w.impls[k].fn == f {
        assert w.impls[k] == Impl(src, f);
      }
    }
  }

  lemma LinkHasAsked(w: World, st: Link, wanted: set<string>, src: string)
    requires GoodWorld(w) && Inv(w, st)
    ensures HasAsked(w, LinkSource(w, st, src, Roots(w, st, wanted, src)), wanted, src)
  {
    var roots := Roots(w, st, wanted, src);
    var after := LinkSource(w, st, src, roots);
    forall f | IsAskedOf(w, wanted, src, f) && src in w.sources && !w.sources[src].bodyless && f in w.sources[src].declared
      ensures src in after.linked && f in after.linked[src]
    {
      RootsAreAsked(w, st, wanted, src, f);
      hide IsAskedOf;
      hide Roots;
      AskedIsKept(w, st, src, roots, f);
    }
  }

  lemma AskedIsKept(w: World, st: Link, src: string, roots: set<string>, f: string)
    requires GoodWorld(w) && f in roots && Loadable(w, src) && f in w.sources[src].declared
    ensures src in LinkSource(w, st, src, roots).linked && f in LinkSource(w, st, src, roots).linked[src]
  {
    assert f in Kept(w, src, roots);
    if IsSettled(st, src, roots) {
      SettledHolds(st, src, roots, f);
    }
  }

  lemma StaysAsked(w: World, st: Link, wanted: set<string>, src: string, other: string)
    requires GoodWorld(w) && Inv(w, st) && HasAsked(w, st, wanted, other)
    ensures HasAsked(w, LinkSource(w, st, src, Roots(w, st, wanted, src)), wanted, other)
  {
    var roots := Roots(w, st, wanted, src);
    RootsHoldLinked(w, st, wanted, src);
    LinkedGrows(w, st, src, roots, other);
    hide IsAskedOf;
    hide Roots;
    hide LinkSource;
  }

  // ---------------------------------------------------------------- and nothing else

  /** The functions a source starts from: what it carried, what is asked of it, the convention methods. */
  ghost predicate IsStart(w: World, st: Link, wanted: set<string>, src: string, f: string)
    requires src in w.sources
  {
    || (src in st.linked && f in st.linked[src])
    || IsAskedOf(w, wanted, src, f)
    || (f in w.sources[src].declared && '.' in f)
  }

  /** Whatever reaches all of that reaches all that the source carries now. */
  ghost predicate OnlyAsked(w: World, st: Link, now: Link, wanted: set<string>, src: string) {
    src in now.linked && src in w.sources && IsClosure(w) ==>
      forall b :: (forall f :: f in w.sources[src].declared && IsStart(w, st, wanted, src, f) ==> f in w.reach(src, b)) ==>
        now.linked[src] <= w.reach(src, b)
  }

  ghost predicate AllOnlyAsked(w: World, st: Link, now: Link, wanted: set<string>) {
    forall src {:trigger OnlyAsked(w, st, now, wanted, src)} :: OnlyAsked(w, st, now, wanted, src)
  }

  lemma StartsOnlyAsked(w: World, st: Link, wanted: set<string>)
    requires Inv(w, st)
    ensures AllOnlyAsked(w, st, st, wanted)
  {
    forall src
      ensures OnlyAsked(w, st, st, wanted, src)
    {
      if src in st.linked {
        assert Carried(w, st, src);
      }
    }
  }

  lemma StepOnlyAsked(w: World, st: Link, now: Link, wanted: set<string>, src: string)
    requires GoodWorld(w) && AllOnlyAsked(w, st, now, wanted)
    ensures AllOnlyAsked(w, st, LinkSource(w, now, src, Roots(w, now, wanted, src)), wanted)
  {
    var roots := Roots(w, now, wanted, src);
    var after := LinkSource(w, now, src, roots);
    forall other
      ensures OnlyAsked(w, st, after, wanted, other)
    {
      assert OnlyAsked(w, st, now, wanted, other);
      if other == src && MustLower(w, now, src, roots) {
        KeptOnlyAsked(w, st, now, wanted, src);
      }
    }
  }

  lemma KeptOnlyAsked(w: World, st: Link, now: Link, wanted: set<string>, src: string)
    requires GoodWorld(w) && OnlyAsked(w, st, now, wanted, src) && Loadable(w, src)
    requires MustLower(w, now, src, Roots(w, now, wanted, src))
    ensures OnlyAsked(w, st, LinkSource(w, now, src, Roots(w, now, wanted, src)), wanted, src)
  {
    var roots := Roots(w, now, wanted, src);
    var declared := w.sources[src].declared;
    var all := roots + Dotted(declared);
    forall b | IsClosure(w) && forall f :: f in declared && IsStart(w, st, wanted, src, f) ==> f in w.reach(src, b)
      ensures Kept(w, src, roots) <= w.reach(src, b)
    {
      forall f | f in all * declared
        ensures f in w.reach(src, b)
      {
        RootsAreAsked(w, now, wanted, src, f);
      }
      assert all * declared <= w.reach(src, b);
    }
    LinkedIsKept(w, now, src, roots);
  }

  /** Something can be called in a source that is met for the first time. */
  ghost predicate IsWantedSource(w: World, wanted: set<string>, src: string) {
    exists f :: IsAskedOf(w, wanted, src, f)
  }

  lemma MetIsWanted(w: World, st: Link, wanted: set<string>, src: string)
    ensures var after := LinkSource(w, st, src, Roots(w, st, wanted, src));
      src in after.loaded && src !in st.loaded ==> src in st.linked || IsWantedSource(w, wanted, src)
  {
    var roots := Roots(w, st, wanted, src);
    if src in LinkSource(w, st, src, roots).loaded && src !in st.loaded {
      assert roots != {};
      var f :| f in roots;
      RootsAreAsked(w, st, wanted, src, f);
    }
  }

  lemma WantedIsKept(w: World, st: Link, wanted: set<string>, k: string)
    requires GoodWorld(w) && k in wanted && Linkable(w, k)
    ensures w.impls[k].fn in Linked(LinkSource(w, st, w.impls[k].src, Roots(w, st, wanted, w.impls[k].src)), w.impls[k].src)
  {
    var fn, src := w.impls[k].fn, w.impls[k].src;
    var roots := Roots(w, st, wanted, src);
    assert fn in roots;
    hide Roots;
    hide IsSettled;
    assert fn in Kept(w, src, roots);
    if IsSettled(st, src, roots) {
      SettledHolds(st, src, roots, fn);
    }
  }

  lemma SettledHolds(st: Link, src: string, roots: set<string>, fn: string)
    requires IsSettled(st, src, roots) && fn in roots
    ensures fn in Linked(st, src)
  {
  }

  /** A source's functions only grow. */
  lemma LinkedGrows(w: World, st: Link, src: string, roots: set<string>, other: string)
    requires GoodWorld(w) && Inv(w, st) && Linked(st, src) <= roots
    ensures Linked(st, other) <= Linked(LinkSource(w, st, src, roots), other)
    ensures other in st.linked ==> other in LinkSource(w, st, src, roots).linked
  {
    if other == src && src in st.linked && MustLower(w, st, src, roots) {
      LinkedIsCarried(w, st, src);
      KeptHolds(w, st, src, roots);
      hide *;
      hide Linked;
      LinkedIsKept(w, st, src, roots);
    } else {
      LinkedStays(w, st, src, roots, other);
    }
  }

  lemma LinkedIsKept(w: World, st: Link, src: string, roots: set<string>)
    requires MustLower(w, st, src, roots)
    ensures src in LinkSource(w, st, src, roots).linked
    ensures Linked(LinkSource(w, st, src, roots), src) == Kept(w, src, roots)
  {
  }

  lemma LinkedStays(w: World, st: Link, src: string, roots: set<string>, other: string)
    requires other != src || src !in st.linked || !MustLower(w, st, src, roots)
    ensures Linked(st, other) <= Linked(LinkSource(w, st, src, roots), other)
    ensures other in st.linked ==> other in LinkSource(w, st, src, roots).linked
  {
  }

  lemma RootsHoldLinked(w: World, st: Link, wanted: set<string>, src: string)
    ensures Linked(st, src) <= Roots(w, st, wanted, src)
  {
  }

  lemma KeptHolds(w: World, st: Link, src: string, roots: set<string>)
    requires GoodWorld(w) && src in w.sources && Linked(st, src) <= roots && Carried(w, st, src)
    ensures Linked(st, src) <= Kept(w, src, roots)
  {
    assert Linked(st, src) <= (roots + Dotted(w.sources[src].declared)) * w.sources[src].declared;
  }

  lemma StaysLinked(w: World, st: Link, wanted: set<string>, src: string, k: string)
    requires GoodWorld(w) && Inv(w, st) && src in ImplSources(w) && k in w.impls && IsLinked(w, st, k)
    ensures IsLinked(w, LinkSource(w, st, src, Roots(w, st, wanted, src)), k)
  {
    var roots := Roots(w, st, wanted, src);
    var after := LinkSource(w, st, src, roots);
    RootsWithin(w, st, wanted, src);
    LinkKeepsInv(w, st, src, roots);
    RootsHoldLinked(w, st, wanted, src);
    LinkedGrows(w, st, src, roots, w.impls[k].src);
    assert Carried(w, after, w.impls[k].src);
  }

  lemma StaysMet(w: World, st: Link, wanted: set<string>, src: string, other: string)
    requires GoodWorld(w) && Inv(w, st) && src in ImplSources(w) && Meets(w, st, wanted, other)
    ensures Meets(w, LinkSource(w, st, src, Roots(w, st, wanted, src)), wanted, other)
  {
    forall k | k in wanted && Linkable(w, k) && w.impls[k].src == other
      ensures IsLinked(w, LinkSource(w, st, src, Roots(w, st, wanted, src)), k)
    {
      assert IsLinked(w, st, k);
      StaysLinked(w, st, wanted, src, k);
    }
  }

  // ---------------------------------------------------------------- the loop over the sources

  /** What is linked, as a finite set: each source, and each of its functions. */
  function Pairs(w: World, linked: map<string, set<string>>): set<(string, Option<string>)> {
    (set src | src in linked :: (src, None)) + (set src, f | src in linked && f in linked[src] :: (src, Some(f)))
  }

  function AllPairs(w: World): set<(string, Option<string>)> {
    (set src | src in w.sources :: (src, None))
    + (set src, f | src in w.sources && f in w.sources[src].declared :: (src, Some(f)))
  }

  lemma PairsBounded(w: World, st: Link)
    requires Inv(w, st)
    ensures Pairs(w, st.linked) <= AllPairs(w)
  {
    forall src | src in st.linked
      ensures src in w.sources && st.linked[src] <= w.sources[src].declared
    {
      assert Carried(w, st, src);
    }
  }

  lemma PairsGrow(w: World, st: Link, wanted: set<string>, src: string)
    requires GoodWorld(w) && Inv(w, st)
    ensures Pairs(w, st.linked) <= Pairs(w, LinkSource(w, st, src, Roots(w, st, wanted, src)).linked)
    ensures MustLower(w, st, src, Roots(w, st, wanted, src)) ==>
      Pairs(w, st.linked) != Pairs(w, LinkSource(w, st, src, Roots(w, st, wanted, src)).linked)
  {
    var roots := Roots(w, st, wanted, src);
    var after := LinkSource(w, st, src, roots);
    RootsHoldLinked(w, st, wanted, src);
    hide Roots;
    forall other | other in st.linked
      ensures other in after.linked && st.linked[other] <= after.linked[other]
    {
      LinkedGrows(w, st, src, roots, other);
    }
    if MustLower(w, st, src, roots) {
      LinkAdds(w, st, src, roots);
    }
    hide *;
    LargerPairs(w, st.linked, after.linked, src);
  }

  lemma LinkAdds(w: World, st: Link, src: string, roots: set<string>)
    requires MustLower(w, st, src, roots)
    ensures src in LinkSource(w, st, src, roots).linked
    ensures src !in st.linked || st.linked[src] != LinkSource(w, st, src, roots).linked[src]
  {
  }

  lemma LargerPairs(w: World, a: map<string, set<string>>, b: map<string, set<string>>, src: string)
    requires forall other :: other in a ==> other in b && a[other] <= b[other]
    ensures Pairs(w, a) <= Pairs(w, b)
    ensures src in b && (src !in a || a[src] != b[src]) ==> Pairs(w, a) != Pairs(w, b)
  {
    if src in b && src !in a {
      assert (src, None) in Pairs(w, b);
    } else if src in b && a[src] != b[src] {
      var f :| f in b[src] && f !in a[src];
      assert (src, Some(f)) in Pairs(w, b) && (src, Some(f)) !in Pairs(w, a);
    }
  }

  ghost predicate AllMet(w: World, st: Link, wanted: set<string>, done: seq<string>) {
    forall src {:trigger Meets(w, st, wanted, src)} :: src in done ==> Meets(w, st, wanted, src)
  }

  /** What linking the sources `done` keeps and achieves. */
  ghost predicate Linking(w: World, wanted: set<string>, st: Link, now: Link, done: seq<string>, grew: bool) {
    && Inv(w, now)
    && now.tried == st.tried && now.mentioned == st.mentioned
    && Pairs(w, st.linked) <= Pairs(w, now.linked)
    && (grew ==> Pairs(w, st.linked) != Pairs(w, now.linked))
    && (!grew ==> now.modules == st.modules && now.linked == st.linked && now.recent == st.recent)
    && AllMet(w, now, wanted, done)
    && (forall src :: src in st.loaded ==> src in now.loaded && now.loaded[src] == st.loaded[src])
    && (forall src :: src in now.loaded ==> src in st.loaded || src in done)
    && (forall src :: src in now.loaded ==> src in st.loaded || IsWantedSource(w, wanted, src))
  }

  lemma LinkFrame(w: World, st: Link, src: string, roots: set<string>)
    ensures LinkSource(w, st, src, roots).tried == st.tried && LinkSource(w, st, src, roots).mentioned == st.mentioned
    ensures !MustLower(w, st, src, roots) ==>
      LinkSource(w, st, src, roots).(loaded := st.loaded) == st
    ensures forall other :: other in st.loaded ==>
      other in LinkSource(w, st, src, roots).loaded && LinkSource(w, st, src, roots).loaded[other] == st.loaded[other]
    ensures forall other :: other in LinkSource(w, st, src, roots).loaded ==> other in st.loaded || other == src
  {
  }

  lemma LinkStep(
    w: World, wanted: set<string>, st: Link, now: Link, done: seq<string>, src: string, grew: bool)
    requires GoodWorld(w) && src in ImplSources(w) && Linking(w, wanted, st, now, done, grew)
    ensures Linking(w, wanted, st, LinkSource(w, now, src, Roots(w, now, wanted, src)), done + [src],
      grew || MustLower(w, now, src, Roots(w, now, wanted, src)))
  {
    hide Inv;
    hide Roots;
    hide Meets;
    hide Pairs;
    hide LinkSource;
    hide MustLower;
    hide GoodWorld;
    hide ImplSources;
    hide AllMet;
    var roots := Roots(w, now, wanted, src);
    WantedKeepsInv(w, now, wanted, src);
    PairsGrow(w, now, wanted, src);
    LinkFrame(w, now, src, roots);
    NewIsWanted(w, now, wanted, src);
    hide IsWantedSource;
    StepMeetsAll(w, wanted, now, done, src);
  }

  lemma NewIsWanted(w: World, st: Link, wanted: set<string>, src: string)
    requires Inv(w, st)
    ensures src in LinkSource(w, st, src, Roots(w, st, wanted, src)).loaded ==>
      src in st.loaded || IsWantedSource(w, wanted, src)
  {
    MetIsWanted(w, st, wanted, src);
    if src in st.linked {
      assert Carried(w, st, src);
    }
  }

  lemma WantedKeepsInv(w: World, st: Link, wanted: set<string>, src: string)
    requires GoodWorld(w) && Inv(w, st) && src in ImplSources(w)
    ensures Inv(w, LinkSource(w, st, src, Roots(w, st, wanted, src)))
  {
    RootsWithin(w, st, wanted, src);
    LinkKeepsInv(w, st, src, Roots(w, st, wanted, src));
  }

  lemma StepMeetsAll(w: World, wanted: set<string>, now: Link, done: seq<string>, src: string)
    requires GoodWorld(w) && src in ImplSources(w) && Inv(w, now) && AllMet(w, now, wanted, done)
    ensures AllMet(w, LinkSource(w, now, src, Roots(w, now, wanted, src)), wanted, done + [src])
  {
    forall other | other in done + [src]
      ensures Meets(w, LinkSource(w, now, src, Roots(w, now, wanted, src)), wanted, other)
    {
      assert other in done ==> Meets(w, now, wanted, other);
      StepMeets(w, wanted, now, src, other);
    }
  }

  lemma StepMeets(w: World, wanted: set<string>, now: Link, src: string, other: string)
    requires GoodWorld(w) && src in ImplSources(w) && Inv(w, now)
    requires other == src || Meets(w, now, wanted, other)
    ensures Meets(w, LinkSource(w, now, src, Roots(w, now, wanted, src)), wanted, other)
  {
    if other == src {
      LinkMeets(w, now, wanted, src);
    } else {
      StaysMet(w, now, wanted, src, other);
    }
  }

  /** The sources of some surfaces, each once, in the order the surfaces name them. */
  function AddSources(w: World, order: seq<string>, surfaces: seq<string>): seq<string>
    decreases |surfaces|
  {
    if surfaces == [] then order
    else if surfaces[0] in w.impls && w.impls[surfaces[0]].src !in order then
      AddSources(w, order + [w.impls[surfaces[0]].src], surfaces[1..])
    else AddSources(w, order, surfaces[1..])
  }

  lemma {:induction false} AddSourcesHolds(w: World, order: seq<string>, surfaces: seq<string>, src: string)
    ensures src in AddSources(w, order, surfaces) <==>
      src in order || exists s :: s in surfaces && s in w.impls && w.impls[s].src == src
    decreases |surfaces|
  {
    if surfaces != [] {
      var next :=
        if surfaces[0] in w.impls && w.impls[surfaces[0]].src !in order then order + [w.impls[surfaces[0]].src]
        else order;
      AddSourcesHolds(w, next, surfaces[1..], src);
      assert surfaces == [surfaces[0]] + surfaces[1..];
    }
  }

  /** The sources of a round: those of its demands, then those of the surfaces the emitter
      resolves on its own, then every other source met before. Each comes once, so what is asked
      of one does not depend on the others. */
  function SourceOrder(w: World, needed: seq<string>, own: seq<string>, earlier: seq<string>): seq<string> {
    var order := AddSources(w, AddSources(w, [], needed), own);
    order + Others(order, earlier)
  }

  function Others(order: seq<string>, earlier: seq<string>): seq<string> {
    if earlier == [] then []
    else (if earlier[0] in order then [] else [earlier[0]]) + Others(order, earlier[1..])
  }

  lemma {:induction false} OthersHold(order: seq<string>, earlier: seq<string>, src: string)
    ensures src in Others(order, earlier) <==> src in earlier && src !in order
  {
    if earlier != [] {
      OthersHold(order, earlier[1..], src);
      assert earlier == [earlier[0]] + earlier[1..];
    }
  }

  lemma SourceOrderHolds(w: World, needed: seq<string>, own: seq<string>, earlier: seq<string>, src: string)
    ensures src in SourceOrder(w, needed, own, earlier) <==>
      src in earlier || exists s :: s in needed + own && s in w.impls && w.impls[s].src == src
  {
    var first := AddSources(w, [], needed);
    AddSourcesHolds(w, [], needed, src);
    AddSourcesHolds(w, first, own, src);
    OthersHold(AddSources(w, first, own), earlier, src);
  }

  /** Links the sources in order. Whatever is wanted of them, can be admitted and is declared is
      linked afterwards. */
  method LinkSources(
    w: World, entry: seq<Scan>, order: seq<string>, wanted: set<string>, st: Link, ghost u: set<string>,
    ghost start: seq<Module>)
    returns (now: Link, grew: bool)
    requires OnDemand(w, start, st.modules, st.tried)
    requires GoodWorld(w) && Inv(w, st) && Finite(w, entry, u) && Surfaces(w, st, u) && Noted(entry, st)
    requires forall src :: src in order ==> src in ImplSources(w)
    ensures Linking(w, wanted, st, now, order, grew)
    ensures Surfaces(w, now, u) && Noted(entry, now)
    ensures OnDemand(w, start, now.modules, now.tried)
    ensures forall src :: src in order ==> HasAsked(w, now, wanted, src)
    ensures AllOnlyAsked(w, st, now, wanted)
  {
    hide *;
    now, grew := st, false;
    StartsOnlyAsked(w, st, wanted);
    assert order[..0] == [];
    LinkingStarts(w, wanted, st);
    for i := 0 to |order|
      invariant Linking(w, wanted, st, now, order[..i], grew)
      invariant Surfaces(w, now, u) && Noted(entry, now)
      invariant OnDemand(w, start, now.modules, now.tried)
      invariant forall k :: 0 <= k < i ==> HasAsked(w, now, wanted, order[k])
      invariant AllOnlyAsked(w, st, now, wanted)
    {
      var src := order[i];
      assert src in order;
      var roots := Roots(w, now, wanted, src);
      LinkingKept(w, wanted, st, now, order[..i], grew);
      LinkStep(w, wanted, st, now, order[..i], src, grew);
      LinkKeepsSurfaces(w, entry, now, src, roots, u);
      LinkKeepsNoted(w, entry, now, src, roots);
      LinkOnDemand(w, start, now, src, roots);
      StepOnlyAsked(w, st, now, wanted, src);
      LinkHasAsked(w, now, wanted, src);
      forall k | 0 <= k < i
        ensures HasAsked(w, LinkSource(w, now, src, roots), wanted, order[k])
      {
        StaysAsked(w, now, wanted, src, order[k]);
      }
      assert order[..i] + [src] == order[..i + 1];
      grew := grew || MustLower(w, now, src, roots);
      now := LinkSource(w, now, src, roots);
    }
    assert order[..|order|] == order;
  }

  lemma LinkingStarts(w: World, wanted: set<string>, st: Link)
    requires Inv(w, st)
    ensures Linking(w, wanted, st, st, [], false)
  {
  }

  lemma LinkingKept(w: World, wanted: set<string>, st: Link, now: Link, done: seq<string>, grew: bool)
    requires Linking(w, wanted, st, now, done, grew)
    ensures Inv(w, now) && NamesOk(w, now.loaded)
  {
  }

  lemma LinkKeepsNoted(w: World, entry: seq<Scan>, st: Link, src: string, roots: set<string>)
    requires GoodWorld(w) && Noted(entry, st)
    ensures Noted(entry, LinkSource(w, st, src, roots))
  {
    var after := LinkSource(w, st, src, roots);
    if MustLower(w, st, src, roots) {
      InstallKeepsNoted(entry, st, after, w.lower(NameFor(st, src), src, Kept(w, src, roots)));
    } else {
      forall i | 0 <= i < |after.modules|
        ensures ModuleNoted(after, after.modules[i])
      {
        assert ModuleNoted(st, st.modules[i]);
      }
    }
  }

  /** A source's module is no bundled one. */
  lemma LinkOnDemand(w: World, start: seq<Module>, st: Link, src: string, roots: set<string>)
    requires GoodWorld(w) && NamesOk(w, st.loaded) && OnDemand(w, start, st.modules, st.tried)
    ensures OnDemand(w, start, LinkSource(w, st, src, roots).modules, LinkSource(w, st, src, roots).tried)
  {
    if MustLower(w, st, src, roots) {
      NameIsSelfHost(w, st, src);
      InstallOnDemand(w, start, st.modules, st.tried, w.lower(NameFor(st, src), src, Kept(w, src, roots)));
    }
  }
}
