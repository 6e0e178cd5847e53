/** The self-host linker's state, its names, and lowering the bundled modules a round misses: what
    that keeps, and that a function once there stays there. The rounds are in `SelfHostRounds`. */
module SelfHostLink {
  import opened Options
  import opened SelfHostScan

  /** The linker's local state. `loaded` names the module of each source it has met; `linked`
      holds the functions each linked source carries; `recent` are the modules lowered since the
      mentions were last collected (`None`: all of them). */
  datatype Link = Link(
    modules: seq<Module>,
    loaded: map<string, string>,
    linked: map<string, set<string>>,
    tried: set<string>,
    mentioned: set<string>,
    recent: Option<set<string>>)

  // ---------------------------------------------------------------- names

  function Digit(d: nat): char
    requires d < 10
  {
    ('0' as int + d) as char
  }

  function Decimal(n: nat): string {
    if n < 10 then [Digit(n)] else Decimal(n / 10) + [Digit(n % 10)]
  }

  function SelfHostName(n: nat): string {
    SELF_HOST + Decimal(n)
  }

  function Value(s: string): int {
    if s == "" then 0 else 10 * Value(s[..|s| - 1]) + (s[|s| - 1] as int - '0' as int)
  }

  lemma {:induction false} DecimalReads(n: nat)
    ensures Value(Decimal(n)) == n && '.' !in Decimal(n)
  {
    if n >= 10 {
      DecimalReads(n / 10);
      var s := Decimal(n);
      assert s[..|s| - 1] == Decimal(n / 10);
    } else {
      assert Decimal(n)[..0] == "";
    }
  }

  lemma SelfHostNameInjective(n: nat, m: nat)
    requires SelfHostName(n) == SelfHostName(m)
    ensures n == m
  {
    DecimalReads(n);
    DecimalReads(m);
    assert SelfHostName(n)[|SELF_HOST|..] == Decimal(n);
    assert SelfHostName(m)[|SELF_HOST|..] == Decimal(m);
  }

  lemma SelfHostNoDot(n: nat)
    ensures '.' !in SelfHostName(n) && SELF_HOST <= SelfHostName(n)
  {
    DecimalReads(n);
  }

  /** Two qualified names whose modules hold no dot agree only on the same module. */
  lemma SameModule(a: string, f: string, b: string, g: string)
    requires Qualified(a, f) == Qualified(b, g) && '.' !in b
    ensures b <= a
    ensures '.' !in a ==> a == b
  {
    var q := Qualified(a, f);
    assert q[|a|] == '.' && q[|b|] == '.';
    forall i | 0 <= i < |b|
      ensures q[i] != '.'
    {
      assert q[i] == b[i] && b[i] in b;
    }
    assert b == q[..|b|] && a == q[..|a|];
    if '.' !in a {
      forall i | 0 <= i < |a|
        ensures q[i] != '.'
      {
        assert q[i] == a[i] && a[i] in a;
      }
    }
  }

  // ---------------------------------------------------------------- modules by name

  function FnNames(m: Module): set<string> {
    set i | 0 <= i < |m.fns| :: m.fns[i].name
  }

  /** The position of the first module with this name, or the length. */
  function Position(ms: seq<Module>, name: string): (i: nat)
    ensures i <= |ms|
    ensures i < |ms| ==> ms[i].name == name
    ensures forall k :: 0 <= k < i ==> ms[k].name != name
  {
    if ms == [] || ms[0].name == name then 0 else 1 + Position(ms[1..], name)
  }

  predicate IsPresent(ms: seq<Module>, name: string) {
    Position(ms, name) < |ms|
  }

  predicate HasFn(ms: seq<Module>, name: string, fn: string) {
    IsPresent(ms, name) && fn in FnNames(ms[Position(ms, name)])
  }

  /** Replaces the module of this name, or adds it. */
  function Install(ms: seq<Module>, m: Module): seq<Module> {
    var i := Position(ms, m.name);
    if i < |ms| then ms[i := m] else ms + [m]
  }

  lemma InstallUnfolds(ms: seq<Module>, m: Module)
    ensures ms == [] ==> Install(ms, m) == [m]
    ensures ms != [] && ms[0].name == m.name ==> Install(ms, m) == [m] + ms[1..]
    ensures ms != [] && ms[0].name != m.name ==> Install(ms, m) == [ms[0]] + Install(ms[1..], m)
  {
  }

  /** The installed module is found under its name, and every other name finds what it did. */
  lemma {:induction false} InstallFinds(ms: seq<Module>, m: Module, name: string)
    ensures IsPresent(Install(ms, m), m.name) && Install(ms, m)[Position(Install(ms, m), m.name)] == m
    ensures name != m.name ==> (IsPresent(Install(ms, m), name) <==> IsPresent(ms, name))
    ensures name != m.name && IsPresent(ms, name) ==>
      Install(ms, m)[Position(Install(ms, m), name)] == ms[Position(ms, name)]
  {
    InstallUnfolds(ms, m);
    var after := Install(ms, m);
    hide Install;
    if ms == [] {
      assert after[1..] == [];
    } else if ms[0].name == m.name {
      assert after[1..] == ms[1..];
    } else {
      InstallFinds(ms[1..], m, name);
      assert after[1..] == Install(ms[1..], m);
    }
  }

  // ---------------------------------------------------------------- demands

  /** What the emitter resolves on its own for a demanded surface is demanded too. */
  function Imply(keys: set<string>, implied: seq<(string, string)>): (r: set<string>)
    ensures keys <= r
    decreases |implied|
  {
    if implied == [] then keys
    else Imply(if implied[0].0 in keys then keys + {implied[0].1} else keys, implied[1..])
  }

  /** The module and the function of a qualified surface: the text around its first dot. */
  function SplitOnce(s: string): Option<(string, string)> {
    if s == "" then None
    else if s[0] == '.' then Some(("", s[1..]))
    else
      match SplitOnce(s[1..])
      case None => None
      case Some(p) => Some(([s[0]] + p.0, p.1))
  }

  /** A surface the linker may have to lower a bundled module for. */
  predicate NamesBundled(w: World, surface: string) {
    surface !in w.impls && SplitOnce(surface).Some? && SplitOnce(surface).value.0 in w.bundled
  }

  predicate CanLower(w: World, m: string) {
    m in w.bundledSources && !w.bundledSources[m].bodyless
  }

  /** Its module's source parses, declares the function, and is no bridge. */
  predicate Lowerable(w: World, surface: string)
    requires NamesBundled(w, surface)
  {
    var (m, f) := SplitOnce(surface).value;
    CanLower(w, m) && f in w.bundledSources[m].declared
  }

  /** A requirement of a built-in type no value of which can exist while its module is absent. */
  predicate DispatchOnly(w: World, ms: seq<Module>, surface: string)
    requires NamesBundled(w, surface)
  {
    !w.keepWhole && !IsPresent(ms, SplitOnce(surface).value.0) && surface in w.requirementKeys
  }

  predicate HasBody(ms: seq<Module>, surface: string)
    requires SplitOnce(surface).Some?
  {
    HasFn(ms, SplitOnce(surface).value.0, SplitOnce(surface).value.1)
  }

  predicate Admitted(w: World, fn: string) {
    w.keepWhole || fn in w.admitted
  }

  predicate Loadable(w: World, src: string) {
    src in w.sources && !w.sources[src].bodyless
  }

  /** `surface` has an admitted implementation that a loadable source declares. */
  predicate Linkable(w: World, surface: string) {
    && surface in w.impls && Admitted(w, w.impls[surface].fn)
    && Loadable(w, w.impls[surface].src) && w.impls[surface].fn in w.sources[w.impls[surface].src].declared
  }

  /** Its implementation is among the functions the source's module carries. */
  ghost predicate IsLinked(w: World, st: Link, surface: string)
    requires surface in w.impls
  {
    var impl := w.impls[surface];
    && impl.src in st.linked && impl.fn in st.linked[impl.src]
    && impl.src in st.loaded && HasFn(st.modules, st.loaded[impl.src], impl.fn)
  }

  // ---------------------------------------------------------------- what the other crates promise

  /** `reach_within` keeps every declared root and stays inside the source; lowering gives the
      module the kept functions (a bundled one may lose registered intrinsic stubs). */
  ghost predicate GoodWorld(w: World) {
    && (forall src, roots :: src in w.sources ==>
          roots * w.sources[src].declared <= w.reach(src, roots) <= w.sources[src].declared)
    && (forall m, roots :: m in w.bundledSources ==>
          roots * w.bundledSources[m].declared <= w.reachBundled(m, roots) <= w.bundledSources[m].declared)
    && (forall name, src, keep :: w.lower(name, src, keep).name == name && FnNames(w.lower(name, src, keep)) == keep)
    && (forall m, keep :: w.lowerBundled(m, keep).name == m && FnNames(w.lowerBundled(m, keep)) <= keep)
    && (forall m, keep, f :: f in keep && Qualified(m, f) !in w.impls ==> f in FnNames(w.lowerBundled(m, keep)))
    && (forall m :: m in w.bundled ==> !(SELF_HOST <= m) && '.' !in m)
  }

  ghost predicate ScansWithin(scans: seq<Scan>, u: set<string>) {
    forall s :: s in scans ==> s.keys <= u && s.mentions <= u
  }

  ghost predicate ModuleWithin(m: Module, u: set<string>) {
    ScansWithin(m.lets, u) && forall i :: 0 <= i < |m.fns| ==> m.fns[i].body.keys <= u && m.fns[i].body.mentions <= u
  }

  function ImplSources(w: World): set<string> {
    set k | k in w.impls :: w.impls[k].src
  }

  /** All sources together name finitely many surfaces. */
  ghost predicate Finite(w: World, entry: seq<Scan>, u: set<string>) {
    && ScansWithin(entry, u)
    && (forall n: nat, src, keep :: n <= |ImplSources(w)| ==> ModuleWithin(w.lower(SelfHostName(n), src, keep), u))
    && (forall m, keep :: ModuleWithin(w.lowerBundled(m, keep), u))
    && w.anchor in u && FLOAT in u && FLOAT32 in u
    && (forall p :: p in w.implied ==> p.1 in u)
  }

  // ---------------------------------------------------------------- what every round keeps

  ghost predicate IsNumbered(name: string, top: nat) {
    exists n: nat :: n <= top && name == SelfHostName(n)
  }

  /** The names of loaded sources are the numbered self-host names, all different. */
  ghost predicate NamesOk(w: World, loaded: map<string, string>) {
    && loaded.Keys <= ImplSources(w)
    && (forall src :: src in loaded ==> IsNumbered(loaded[src], |loaded|))
    && (forall a, b :: a in loaded && b in loaded && loaded[a] == loaded[b] ==> a == b)
  }

  function HelperNames(w: World): set<string> {
    set i | 0 <= i < |w.helpers| :: w.helpers[i].1
  }

  predicate HoldsAnchor(w: World, src: string) {
    w.anchor in w.impls && w.impls[w.anchor].src == src
  }

  function Dotted(declared: set<string>): set<string> {
    set f | f in declared && '.' in f
  }

  /** All that may ever be asked of a source: its admitted implementations, the value helpers if it
      holds their anchor, and the convention methods. */
  function Askable(w: World, src: string): set<string> {
    (set k | k in w.impls && w.impls[k].src == src && Admitted(w, w.impls[k].fn) :: w.impls[k].fn)
    + (if HoldsAnchor(w, src) then HelperNames(w) else {})
    + (if src in w.sources then Dotted(w.sources[src].declared) else {})
  }

  /** `reach_within` is a closure: what a set already reaches adds nothing to it. */
  ghost predicate IsClosure(w: World) {
    forall src, a, b :: src in w.sources && a * w.sources[src].declared <= w.reach(src, b) ==>
      w.reach(src, a) <= w.reach(src, b)
  }

  /** A linked source is loadable, the module of its name carries exactly its functions, and those
      are no more than what can be asked of it reaches. */
  ghost predicate Carried(w: World, st: Link, src: string) {
    && src in st.loaded && src in st.linked && Loadable(w, src)
    && st.linked[src] <= w.sources[src].declared
    // the convention methods (`Type.method`) resolve by name suffix, never through a demand
    && (forall f :: f in w.sources[src].declared && '.' in f ==> f in st.linked[src])
    && (IsClosure(w) ==> st.linked[src] <= w.reach(src, Askable(w, src)))
    && IsPresent(st.modules, st.loaded[src])
    && FnNames(st.modules[Position(st.modules, st.loaded[src])]) == st.linked[src]
  }

  ghost predicate IsCarrier(st: Link, name: string, src: string) {
    src in st.linked && src in st.loaded && st.loaded[src] == name
  }

  ghost predicate CarriesSome(st: Link, name: string) {
    exists src :: IsCarrier(st, name, src)
  }

  /** A tried surface whose module can be lowered with its function has its body. */
  ghost predicate Served(w: World, ms: seq<Module>, surface: string) {
    NamesBundled(w, surface) && (Lowerable(w, surface) ==> HasBody(ms, surface))
  }

  ghost predicate BundledOk(w: World, ms: seq<Module>) {
    forall i :: 0 <= i < |ms| && ms[i].name in w.bundled && ms[i].name in w.bundledSources ==>
      FnNames(ms[i]) <= w.bundledSources[ms[i].name].declared
  }

  ghost predicate AllCarried(st: Link) {
    forall i :: 0 <= i < |st.modules| && SELF_HOST <= st.modules[i].name ==> CarriesSome(st, st.modules[i].name)
  }

  ghost predicate Inv(w: World, st: Link) {
    && NamesOk(w, st.loaded)
    && (forall src {:trigger Carried(w, st, src)} :: src in st.linked ==> Carried(w, st, src))
    && AllCarried(st)
    && (forall s {:trigger Served(w, st.modules, s)} :: s in st.tried ==> Served(w, st.modules, s))
    && BundledOk(w, st.modules)
  }

  lemma LinkedIsCarried(w: World, st: Link, src: string)
    requires Inv(w, st) && src in st.linked
    ensures Carried(w, st, src)
  {
  }

  ghost predicate Surfaces(w: World, st: Link, u: set<string>) {
    && st.tried <= u && st.mentioned <= u
    && forall i :: 0 <= i < |st.modules| ==> ModuleWithin(st.modules[i], u)
  }

  // ---------------------------------------------------------------- lowering the missing bundled modules

  /** The roots a bundled module is lowered from: the missing functions, and what it has. */
  function BundledRoots(w: World, ms: seq<Module>, m: string, funcs: set<string>): set<string> {
    funcs + (if IsPresent(ms, m) then FnNames(ms[Position(ms, m)]) else w.compilerCalled(m))
  }

  function NotedRecent(st: Link, name: string): Option<set<string>> {
    if st.recent.None? then None else Some(st.recent.value + {name})
  }

  /** Lowers one bundled module again with the functions that were missing. */
  function LowerMissing(w: World, st: Link, m: string, funcs: set<string>): Link {
    if !CanLower(w, m) then st
    else
      var keep := w.reachBundled(m, BundledRoots(w, st.modules, m, funcs));
      st.(modules := Install(st.modules, w.lowerBundled(m, keep)), recent := NotedRecent(st, m))
  }

  lemma InstallMembers(ms: seq<Module>, m: Module, i: nat)
    requires i < |Install(ms, m)|
    ensures Install(ms, m)[i] == m || (i < |ms| && Install(ms, m)[i] == ms[i])
  {
  }

  lemma InstalledCarried(w: World, st: Link, m: Module, src: string)
    requires Carried(w, st, src) && m.name != st.loaded[src]
    ensures Carried(w, st.(modules := Install(st.modules, m)), src)
  {
    InstallFinds(st.modules, m, st.loaded[src]);
  }

  lemma SelfHostLoaded(w: World, st: Link, src: string)
    requires NamesOk(w, st.loaded) && src in st.loaded
    ensures SELF_HOST <= st.loaded[src] && '.' !in st.loaded[src]
  {
    var n: nat :| n <= |st.loaded| && st.loaded[src] == SelfHostName(n);
    SelfHostNoDot(n);
  }

  /** A served surface stays served: the module keeps what it has. */
  lemma StaysServed(w: World, st: Link, m: string, funcs: set<string>, surface: string)
    requires GoodWorld(w) && Inv(w, st) && Served(w, st.modules, surface)
    ensures Served(w, LowerMissing(w, st, m, funcs).modules, surface)
  {
    var after := LowerMissing(w, st, m, funcs);
    var name, f := SplitOnce(surface).value.0, SplitOnce(surface).value.1;
    if Lowerable(w, surface) && after != st {
      var keep := w.reachBundled(m, BundledRoots(w, st.modules, m, funcs));
      InstallFinds(st.modules, w.lowerBundled(m, keep), name);
      if name == m {
        SplitJoins(surface);
        assert f in FnNames(st.modules[Position(st.modules, m)]);
        assert f in keep;
      }
    }
  }

  lemma {:induction false} SplitJoins(s: string)
    requires SplitOnce(s).Some?
    ensures Qualified(SplitOnce(s).value.0, SplitOnce(s).value.1) == s
  {
    if s[0] != '.' {
      SplitJoins(s[1..]);
    }
  }

  /** After lowering, the functions that were missing are there. */
  lemma LoweredServed(w: World, st: Link, m: string, funcs: set<string>, surface: string)
    requires GoodWorld(w) && NamesBundled(w, surface)
    requires SplitOnce(surface).value.0 == m && SplitOnce(surface).value.1 in funcs
    ensures Served(w, LowerMissing(w, st, m, funcs).modules, surface)
  {
    if Lowerable(w, surface) {
      var f := SplitOnce(surface).value.1;
      var keep := w.reachBundled(m, BundledRoots(w, st.modules, m, funcs));
      InstallFinds(st.modules, w.lowerBundled(m, keep), m);
      SplitJoins(surface);
      assert f in keep;
    }
  }

  lemma LowerKeepsInv(w: World, st: Link, m: string, funcs: set<string>)
    requires GoodWorld(w) && Inv(w, st) && m in w.bundled
    ensures Inv(w, LowerMissing(w, st, m, funcs))
  {
    var after := LowerMissing(w, st, m, funcs);
    if after != st {
      var keep := w.reachBundled(m, BundledRoots(w, st.modules, m, funcs));
      var low := w.lowerBundled(m, keep);
      forall src | src in after.linked
        ensures Carried(w, after, src)
      {
        assert Carried(w, st, src);
        SelfHostLoaded(w, st, src);
        InstalledCarried(w, st, low, src);
      }
      forall i | 0 <= i < |after.modules|
        ensures SELF_HOST <= after.modules[i].name ==> CarriesSome(after, after.modules[i].name)
        ensures after.modules[i].name in w.bundled && after.modules[i].name in w.bundledSources ==>
          FnNames(after.modules[i]) <= w.bundledSources[after.modules[i].name].declared
      {
        InstallMembers(st.modules, low, i);
        if i < |st.modules| && after.modules[i] == st.modules[i] && SELF_HOST <= after.modules[i].name {
          assert CarriesSome(st, st.modules[i].name);
          var src :| IsCarrier(st, st.modules[i].name, src);
          assert IsCarrier(after, st.modules[i].name, src);
        }
      }
      forall s | s in after.tried
        ensures Served(w, after.modules, s)
      {
        assert Served(w, st.modules, s);
        StaysServed(w, st, m, funcs, s);
      }
    }
  }

  lemma LowerKeepsSurfaces(w: World, entry: seq<Scan>, st: Link, m: string, funcs: set<string>, u: set<string>)
    requires Finite(w, entry, u) && Surfaces(w, st, u)
    ensures Surfaces(w, LowerMissing(w, st, m, funcs), u)
  {
    var after := LowerMissing(w, st, m, funcs);
    if after != st {
      forall i | 0 <= i < |after.modules|
        ensures ModuleWithin(after.modules[i], u)
      {
        InstallMembers(st.modules, w.lowerBundled(m, w.reachBundled(m, BundledRoots(w, st.modules, m, funcs))), i);
      }
    }
  }

  /** What is missing, by module: the functions asked of the first entry with this name. */
  function FuncsFor(missing: seq<(string, set<string>)>, m: string): set<string> {
    if missing == [] then {}
    else if missing[0].0 == m then missing[0].1
    else FuncsFor(missing[1..], m)
  }

  function AddMissing(missing: seq<(string, set<string>)>, m: string, f: string): seq<(string, set<string>)> {
    if missing == [] then [(m, {f})]
    else if missing[0].0 == m then [(m, missing[0].1 + {f})] + missing[1..]
    else [missing[0]] + AddMissing(missing[1..], m, f)
  }

  lemma {:induction false} AddMissingAdds(missing: seq<(string, set<string>)>, m: string, f: string, name: string)
    ensures FuncsFor(AddMissing(missing, m, f), name) == FuncsFor(missing, name) + (if name == m then {f} else {})
    ensures AddMissing(missing, m, f) != []
    ensures forall p :: p in AddMissing(missing, m, f) ==> p.0 == m || exists q :: q in missing && q.0 == p.0
  {
    if missing != [] && missing[0].0 != m {
      AddMissingAdds(missing[1..], m, f, name);
      assert AddMissing(missing, m, f)[1..] == AddMissing(missing[1..], m, f);
      assert missing[0] in missing;
    } else if missing != [] {
      assert AddMissing(missing, m, f)[1..] == missing[1..];
      assert missing[0] in missing;
    }
  }

  lemma {:induction false} FuncsForPrefix(missing: seq<(string, set<string>)>, j: nat, m: string)
    requires j < |missing|
    ensures FuncsFor(missing[..j + 1], m) <= FuncsFor(missing[..j], m) + (if missing[j].0 == m then missing[j].1 else {})
  {
    if j > 0 && missing[0].0 != m {
      FuncsForPrefix(missing[1..], j - 1, m);
      assert missing[..j + 1][1..] == missing[1..][..j] && missing[..j][1..] == missing[1..][..j - 1];
    }
  }

  predicate IsAsked(missing: seq<(string, set<string>)>, surface: string) {
    SplitOnce(surface).Some? && SplitOnce(surface).value.1 in FuncsFor(missing, SplitOnce(surface).value.0)
  }

  // ---------------------------------------------------------------- mentions

  function ScanMentions(scans: seq<Scan>): set<string> {
    set s, k | s in scans && k in s.mentions :: k
  }

  function ModuleMentions(m: Module): set<string> {
    ScanMentions(m.lets) + (set i, k | 0 <= i < |m.fns| && k in m.fns[i].body.mentions :: k)
  }

  predicate IsRecent(st: Link, name: string) {
    st.recent.None? || name in st.recent.value
  }

  /** What the bodies lowered since the last collection mention. */
  function NewMentions(entry: seq<Scan>, st: Link): set<string> {
    (if st.recent.None? then ScanMentions(entry) else {})
    + (set i, k | 0 <= i < |st.modules| && IsRecent(st, st.modules[i].name) && k in ModuleMentions(st.modules[i]) :: k)
  }

  function Collect(w: World, entry: seq<Scan>, st: Link): Link {
    st.(mentioned := Imply(st.mentioned + NewMentions(entry, st), w.implied), recent := Some({}))
  }

  ghost predicate ModuleNoted(st: Link, m: Module) {
    IsRecent(st, m.name) || ModuleMentions(m) <= st.mentioned
  }

  /** Every mention of a body that is not recent is collected. */
  ghost predicate Noted(entry: seq<Scan>, st: Link) {
    && (st.recent.Some? ==> ScanMentions(entry) <= st.mentioned)
    && forall i :: 0 <= i < |st.modules| ==> ModuleNoted(st, st.modules[i])
  }

  lemma {:induction false} ImplyWithin(keys: set<string>, implied: seq<(string, string)>, u: set<string>)
    requires keys <= u && forall p :: p in implied ==> p.1 in u
    ensures Imply(keys, implied) <= u
    decreases |implied|
  {
    if implied != [] {
      assert implied[0] in implied;
      ImplyWithin(if implied[0].0 in keys then keys + {implied[0].1} else keys, implied[1..], u);
    }
  }

  lemma CollectNotes(w: World, entry: seq<Scan>, st: Link)
    requires Noted(entry, st)
    ensures Noted(entry, Collect(w, entry, st))
    ensures ScanMentions(entry) <= Collect(w, entry, st).mentioned
    ensures forall m :: m in st.modules ==> ModuleMentions(m) <= Collect(w, entry, st).mentioned
  {
    var after := Collect(w, entry, st);
    assert st.mentioned + NewMentions(entry, st) <= after.mentioned;
    forall i | 0 <= i < |st.modules|
      ensures ModuleMentions(st.modules[i]) <= after.mentioned
    {
      assert ModuleNoted(st, st.modules[i]);
      if IsRecent(st, st.modules[i].name) {
        assert ModuleMentions(st.modules[i]) <= NewMentions(entry, st);
      }
    }
  }

  lemma CollectKeeps(w: World, entry: seq<Scan>, st: Link, u: set<string>)
    requires Inv(w, st) && Finite(w, entry, u) && Surfaces(w, st, u)
    ensures Inv(w, Collect(w, entry, st)) && Surfaces(w, Collect(w, entry, st), u)
  {
    var after := Collect(w, entry, st);
    forall k | k in NewMentions(entry, st)
      ensures k in u
    {
      if k !in ScanMentions(entry) {
        var i :| 0 <= i < |st.modules| && k in ModuleMentions(st.modules[i]);
        assert ModuleWithin(st.modules[i], u);
      }
    }
    ImplyWithin(st.mentioned + NewMentions(entry, st), w.implied, u);
    forall src | src in after.linked
      ensures Carried(w, after, src)
    {
      assert Carried(w, st, src);
    }
    forall i | 0 <= i < |after.modules| && SELF_HOST <= after.modules[i].name
      ensures CarriesSome(after, after.modules[i].name)
    {
      var src :| IsCarrier(st, st.modules[i].name, src);
      assert IsCarrier(after, st.modules[i].name, src);
    }
  }

  lemma InstallKeepsNoted(entry: seq<Scan>, st: Link, after: Link, m: Module)
    requires Noted(entry, st) && after.modules == Install(st.modules, m)
    requires after.mentioned == st.mentioned && after.recent == NotedRecent(st, m.name)
    ensures Noted(entry, after)
  {
    forall i | 0 <= i < |after.modules|
      ensures ModuleNoted(after, after.modules[i])
    {
      InstallMembers(st.modules, m, i);
      if i < |st.modules| && after.modules[i] == st.modules[i] {
        assert ModuleNoted(st, st.modules[i]);
      }
    }
  }

  // ---------------------------------------------------------------- no module without a demand for it

  /** A surface of the module was demanded that is more than a type's requirement. */
  ghost predicate IsAskedFor(w: World, tried: set<string>, m: string) {
    exists k :: k in tried && IsCauseFor(w, k, m)
  }

  ghost predicate IsCauseFor(w: World, k: string, m: string) {
    k !in w.impls && (w.keepWhole || k !in w.requirementKeys) && exists f :: k == m + "." + f
  }

  /** Every bundled module that was not there at the start was asked for, and one that is not as it was
      has a source that parses and no bridge in it. */
  ghost predicate OnDemand(w: World, start: seq<Module>, ms: seq<Module>, tried: set<string>) {
    forall i :: 0 <= i < |ms| && ms[i].name in w.bundled ==> CameOnDemand(w, start, tried, ms[i])
  }

  ghost predicate CameOnDemand(w: World, start: seq<Module>, tried: set<string>, m: Module) {
    && ((exists i :: 0 <= i < |start| && start[i].name == m.name) || IsAskedFor(w, tried, m.name))
    && (m in start || (m.name in w.bundledSources && !w.bundledSources[m.name].bodyless))
    && ((exists i :: 0 <= i < |start| && start[i].name == m.name) || HasCompilerCalled(w, m))
  }

  /** The module has the functions the compiler itself calls, as far as its source declares them and
      they are not implemented elsewhere. */
  ghost predicate HasCompilerCalled(w: World, m: Module) {
    m.name in w.bundledSources ==>
      forall f :: f in w.compilerCalled(m.name) * w.bundledSources[m.name].declared && m.name + "." + f !in w.impls ==>
        exists j :: 0 <= j < |m.fns| && m.fns[j].name == f
  }

  lemma LoweredHasCompilerCalled(w: World, start: seq<Module>, st: Link, tried: set<string>, m: string, funcs: set<string>)
    requires GoodWorld(w) && OnDemand(w, start, st.modules, tried) && m in w.bundled && CanLower(w, m)
    ensures var low := w.lowerBundled(m, w.reachBundled(m, BundledRoots(w, st.modules, m, funcs)));
      (exists i :: 0 <= i < |start| && start[i].name == m) || HasCompilerCalled(w, low)
  {
    var keep := w.reachBundled(m, BundledRoots(w, st.modules, m, funcs));
    var low := w.lowerBundled(m, keep);
    if IsPresent(st.modules, m) {
      assert CameOnDemand(w, start, tried, st.modules[Position(st.modules, m)]);
    }
    if !(exists i :: 0 <= i < |start| && start[i].name == m) {
      forall f | f in w.compilerCalled(m) && f in w.bundledSources[m].declared && m + "." + f !in w.impls
        ensures exists j :: 0 <= j < |low.fns| && low.fns[j].name == f
      {
        assert f in BundledRoots(w, st.modules, m, funcs);
        assert f in keep && Qualified(m, f) !in w.impls;
        assert f in FnNames(low);
      }
    }
  }

  lemma StaysOnDemand(w: World, start: seq<Module>, ms: seq<Module>, tried: set<string>, more: set<string>)
    requires OnDemand(w, start, ms, tried) && tried <= more
    ensures OnDemand(w, start, ms, more)
  {
    forall i | 0 <= i < |ms| && ms[i].name in w.bundled
      ensures CameOnDemand(w, start, more, ms[i])
    {
      assert CameOnDemand(w, start, tried, ms[i]);
    }
  }

  lemma InstallOnDemand(w: World, start: seq<Module>, ms: seq<Module>, tried: set<string>, m: Module)
    requires OnDemand(w, start, ms, tried)
    requires m.name in w.bundled ==>
      && (IsPresent(ms, m.name) || IsAskedFor(w, tried, m.name))
      && m.name in w.bundledSources && !w.bundledSources[m.name].bodyless
      && ((exists i :: 0 <= i < |start| && start[i].name == m.name) || HasCompilerCalled(w, m))
    ensures OnDemand(w, start, Install(ms, m), tried)
  {
    var after := Install(ms, m);
    forall i | 0 <= i < |after| && after[i].name in w.bundled
      ensures CameOnDemand(w, start, tried, after[i])
    {
      InstallMembers(ms, m, i);
      if IsPresent(ms, m.name) {
        assert ms[Position(ms, m.name)].name == m.name;
      }
    }
  }

  lemma LowerOnDemand(
    w: World, start: seq<Module>, st: Link, tried: set<string>, m: string, funcs: set<string>)
    requires GoodWorld(w) && OnDemand(w, start, st.modules, tried)
    requires IsPresent(st.modules, m) || IsAskedFor(w, tried, m)
    ensures OnDemand(w, start, LowerMissing(w, st, m, funcs).modules, tried)
  {
    if LowerMissing(w, st, m, funcs) != st {
      if m in w.bundled {
        LoweredHasCompilerCalled(w, start, st, tried, m, funcs);
      }
      hide HasCompilerCalled;
      InstallOnDemand(w, start, st.modules, tried, w.lowerBundled(m, w.reachBundled(m, BundledRoots(w, st.modules, m, funcs))));
    }
  }

  /** A module that is there stays there. */
  lemma LowerKeepsPresent(w: World, st: Link, m: string, funcs: set<string>, name: string)
    requires GoodWorld(w) && IsPresent(st.modules, name)
    ensures IsPresent(LowerMissing(w, st, m, funcs).modules, name)
  {
    if LowerMissing(w, st, m, funcs) != st {
      InstallFinds(st.modules, w.lowerBundled(m, w.reachBundled(m, BundledRoots(w, st.modules, m, funcs))), name);
    }
  }
}
