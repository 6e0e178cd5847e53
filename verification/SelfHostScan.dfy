/** The demand scan of the self-host linker: the surfaces named by every body the program can
    reach, found with a worklist. Bodies are abstracted to what the IR visitor reads off them. */
module SelfHostScan {
  import opened Options

  /** What one walk of a body finds: the surfaces it demands, the function values and method
      names it holds, whether an error type of it can reach a Float, and every surface it
      mentions at all. */
  datatype Scan = Scan(keys: set<string>, refs: set<string>, errFloat: bool, mentions: set<string>)

  datatype Fn = Fn(name: string, body: Scan)

  datatype Module = Module(name: string, fns: seq<Fn>, lets: seq<Scan>)

  /** Where a surface is implemented: a self-host source and a function in it. */
  datatype Impl = Impl(src: string, fn: string)

  /** The parts of a parsed source the linker looks at. `bodyless` says that it declares a
      function without a body. */
  datatype Source = Source(declared: set<string>, bodyless: bool)

  /** What the linker is given and does not change. `sources` and `bundledSources` hold the
      sources that parse; `reach`, `reachBundled`, `lower` and `lowerBundled` stand for the
      reachability, type-checking and lowering of the other crates. */
  datatype World = World(
    impls: map<string, Impl>,
    bundled: set<string>,
    helpers: seq<(string, string)>,
    anchor: string,
    implied: seq<(string, string)>,
    admitted: set<string>,
    keepWhole: bool,
    requirementKeys: set<string>,
    sources: map<string, Source>,
    bundledSources: map<string, Source>,
    compilerCalled: string -> set<string>,
    reach: (string, set<string>) -> set<string>,
    reachBundled: (string, set<string>) -> set<string>,
    lower: (string, string, set<string>) -> Module,
    lowerBundled: (string, set<string>) -> Module)

  const SELF_HOST := "__selfhost_"
  const FLOAT := "float.to_string_compound"
  const FLOAT32 := "float32.to_string_compound"

  predicate IsLibrary(w: World, name: string) {
    SELF_HOST <= name || name in w.bundled
  }

  // ---------------------------------------------------------------- bodies by name

  type Id = (nat, nat)

  predicate IsId(ms: seq<Module>, id: Id) {
    id.0 < |ms| && id.1 < |ms[id.0].fns|
  }

  function Ids(ms: seq<Module>): set<Id> {
    set mi: nat, fi: nat | 0 <= mi < |ms| && 0 <= fi < |ms[mi].fns| :: (mi, fi)
  }

  lemma IdsAreIds(ms: seq<Module>, id: Id)
    ensures id in Ids(ms) <==> IsId(ms, id)
  {
    if IsId(ms, id) {
      assert id == (id.0, id.1);
    }
  }

  function FnAt(ms: seq<Module>, id: Id): Fn
    requires IsId(ms, id)
  {
    ms[id.0].fns[id.1]
  }

  function Qualified(m: string, f: string): string {
    m + "." + f
  }

  function KeyOf(ms: seq<Module>, id: Id): string
    requires IsId(ms, id)
  {
    Qualified(ms[id.0].name, FnAt(ms, id).name)
  }

  /** The last of the first `n` functions with this key: a later one replaces an earlier one in
      the index. */
  function LastFn(m: Module, n: nat, key: string): (r: Option<nat>)
    requires n <= |m.fns|
    ensures r.Some? ==> r.value < n && Qualified(m.name, m.fns[r.value].name) == key
    ensures r.None? ==> forall i :: 0 <= i < n ==> Qualified(m.name, m.fns[i].name) != key
  {
    if n == 0 then None
    else if Qualified(m.name, m.fns[n - 1].name) == key then Some(n - 1)
    else LastFn(m, n - 1, key)
  }

  function ByKeyIn(ms: seq<Module>, n: nat, key: string): (r: Option<Id>)
    requires n <= |ms|
    ensures r.Some? ==> IsId(ms, r.value) && KeyOf(ms, r.value) == key
    ensures r.None? ==> forall id: Id :: IsId(ms, id) && id.0 < n ==> KeyOf(ms, id) != key
  {
    if n == 0 then None
    else
      match LastFn(ms[n - 1], |ms[n - 1].fns|, key)
      case Some(fi) => Some((n - 1, fi))
      case None => ByKeyIn(ms, n - 1, key)
  }

  /** The body a qualified name means, or none. */
  function ByKey(ms: seq<Module>, key: string): (r: Option<Id>)
    ensures r.Some? ==> IsId(ms, r.value) && KeyOf(ms, r.value) == key
    ensures r.None? ==> forall id: Id :: IsId(ms, id) ==> KeyOf(ms, id) != key
  {
    ByKeyIn(ms, |ms|, key)
  }

  /** The part of a name after its last dot. */
  function Bare(r: string): string {
    if '.' !in r then r else Bare(r[1..])
  }

  // ---------------------------------------------------------------- what a body reaches

  predicate Names(ms: seq<Module>, key: string, id: Id) {
    ByKey(ms, key) == Some(id)
  }

  /** `id` is the loaded implementation of surface `k`. */
  predicate Implements(w: World, ms: seq<Module>, loaded: map<string, string>, k: string, id: Id) {
    && k in w.impls && w.impls[k].src in loaded
    && Names(ms, Qualified(loaded[w.impls[k].src], w.impls[k].fn), id)
  }

  /** `id` is the loaded helper `h` that the emitter calls for a natively lowered surface. */
  predicate Helps(w: World, ms: seq<Module>, loaded: map<string, string>, h: string, id: Id) {
    && w.anchor in w.impls && w.impls[w.anchor].src in loaded
    && Names(ms, Qualified(loaded[w.impls[w.anchor].src], h), id)
  }

  predicate Reaches(w: World, ms: seq<Module>, loaded: map<string, string>, s: Scan, id: Id)
    requires IsId(ms, id)
  {
    || (exists k :: k in s.keys + s.refs && (Names(ms, k, id) || Implements(w, ms, loaded, k, id)))
    || (exists i :: 0 <= i < |w.helpers| && w.helpers[i].0 in s.keys && Helps(w, ms, loaded, w.helpers[i].1, id))
    || (exists r :: r in s.refs && Bare(r) == FnAt(ms, id).name)
    || (exists k :: k in s.keys && '.' !in k && k == FnAt(ms, id).name)
  }

  function Pushes(w: World, ms: seq<Module>, loaded: map<string, string>, s: Scan): set<Id> {
    set mi: nat, fi: nat | 0 <= mi < |ms| && 0 <= fi < |ms[mi].fns| && Reaches(w, ms, loaded, s, (mi, fi)) :: (mi, fi)
  }

  /** What absorbing one body adds to the demands. */
  function KeysOf(w: World, s: Scan): set<string> {
    s.keys + (if exists i :: 0 <= i < |w.helpers| && w.helpers[i].0 in s.keys then {w.anchor} else {})
  }

  function AllLets(ms: seq<Module>): seq<Scan> {
    if ms == [] then [] else AllLets(ms[..|ms| - 1]) + ms[|ms| - 1].lets
  }

  /** The entry program's bodies and every module's top-level lets are always scanned. */
  function RootScans(entry: seq<Scan>, ms: seq<Module>): seq<Scan> {
    entry + AllLets(ms)
  }

  /** So is every function of a module that is not a library. */
  function RootIds(w: World, ms: seq<Module>): set<Id> {
    set mi: nat, fi: nat | 0 <= mi < |ms| && 0 <= fi < |ms[mi].fns| && !IsLibrary(w, ms[mi].name) :: (mi, fi)
  }

  /** A set of bodies that holds the roots and everything its members and the root scans name. */
  ghost predicate Closed(w: World, entry: seq<Scan>, ms: seq<Module>, loaded: map<string, string>, ids: set<Id>) {
    && (forall id :: id in ids ==> IsId(ms, id))
    && RootIds(w, ms) <= ids
    && (forall s :: s in RootScans(entry, ms) ==> Pushes(w, ms, loaded, s) <= ids)
    && (forall id :: id in ids ==> Pushes(w, ms, loaded, FnAt(ms, id).body) <= ids)
  }

  /** The bodies the program can reach: the least closed set. */
  ghost predicate IsReached(w: World, entry: seq<Scan>, ms: seq<Module>, loaded: map<string, string>, ids: set<Id>) {
    && Closed(w, entry, ms, loaded, ids)
    && forall other :: Closed(w, entry, ms, loaded, other) ==> ids <= other
  }

  ghost function Bodies(ms: seq<Module>, ids: set<Id>): set<Scan> {
    set id | id in ids && IsId(ms, id) :: FnAt(ms, id).body
  }

  ghost function ScansOf(entry: seq<Scan>, ms: seq<Module>, ids: set<Id>): set<Scan> {
    (set s | s in RootScans(entry, ms)) + Bodies(ms, ids)
  }

  function AllKeys(w: World, scans: set<Scan>): set<string> {
    set s, k | s in scans && k in KeysOf(w, s) :: k
  }

  predicate ShowsFloat(scans: set<Scan>) {
    exists s :: s in scans && s.errFloat
  }

  /** The surfaces a set of scanned bodies demands. */
  function Demands(w: World, scans: set<Scan>): set<string> {
    AllKeys(w, scans) + (if ShowsFloat(scans) then {FLOAT, FLOAT32} else {})
  }

  // ---------------------------------------------------------------- the worklist

  ghost function Members<T>(q: seq<T>): set<T> {
    set x | x in q
  }

  /** The members of a set in the order a hash set happens to give them. */
  method InSomeOrder<T(==)>(s: set<T>) returns (q: seq<T>)
    ensures Members(q) == s
  {
    q := [];
    var rest := s;
    while rest != {}
      invariant rest <= s
      invariant forall x :: x in s <==> x in q || x in rest
      decreases |rest|
    {
      var x :| x in rest;
      q := q + [x];
      rest := rest - {x};
    }
  }

  lemma LargerShrinks<T>(all: set<T>, seen: set<T>, x: T)
    requires x in all && x !in seen
    ensures |all - (seen + {x})| < |all - seen|
  {
    assert all - (seen + {x}) == (all - seen) - {x};
  }

  /** Halfway through the worklist: `all` are the bodies seen or pushed. */
  ghost predicate Draining(
    w: World, entry: seq<Scan>, ms: seq<Module>, loaded: map<string, string>, seen: set<Id>, all: set<Id>)
  {
    && seen <= all
    && (forall id :: id in all ==> IsId(ms, id))
    && RootIds(w, ms) <= all
    && (forall s :: s in RootScans(entry, ms) ==> Pushes(w, ms, loaded, s) <= all)
    && (forall id :: id in seen ==> Pushes(w, ms, loaded, FnAt(ms, id).body) <= all)
    && (forall other :: Closed(w, entry, ms, loaded, other) ==> all <= other)
  }

  lemma DrainStep(
    w: World, entry: seq<Scan>, ms: seq<Module>, loaded: map<string, string>, seen: set<Id>, all: set<Id>, id: Id)
    requires Draining(w, entry, ms, loaded, seen, all) && id in all
    ensures Draining(w, entry, ms, loaded, seen + {id}, all + Pushes(w, ms, loaded, FnAt(ms, id).body))
  {
    PushesAreIds(w, ms, loaded, FnAt(ms, id).body);
    hide Pushes;
    hide RootIds;
    hide RootScans;
  }

  lemma DrainedIsReached(
    w: World, entry: seq<Scan>, ms: seq<Module>, loaded: map<string, string>, seen: set<Id>)
    requires Draining(w, entry, ms, loaded, seen, seen)
    ensures IsReached(w, entry, ms, loaded, seen)
  {
    hide Pushes;
  }

  lemma PushesAreIds(w: World, ms: seq<Module>, loaded: map<string, string>, s: Scan)
    ensures forall id :: id in Pushes(w, ms, loaded, s) ==> IsId(ms, id)
  {
  }

  lemma AllKeysAdd(w: World, scans: set<Scan>, s: Scan)
    ensures AllKeys(w, scans + {s}) == AllKeys(w, scans) + KeysOf(w, s)
    ensures ShowsFloat(scans + {s}) == (ShowsFloat(scans) || s.errFloat)
  {
    hide KeysOf;
  }

  /** Before the worklist: everything pushed is forced on every closed set. */
  ghost predicate Rooted(
    w: World, entry: seq<Scan>, ms: seq<Module>, loaded: map<string, string>, n: nat, all: set<Id>)
    requires n <= |RootScans(entry, ms)|
  {
    && (forall id :: id in all ==> IsId(ms, id))
    && RootIds(w, ms) <= all
    && (forall i :: 0 <= i < n ==> Pushes(w, ms, loaded, RootScans(entry, ms)[i]) <= all)
    && (forall other :: Closed(w, entry, ms, loaded, other) ==> all <= other)
  }

  lemma RootStep(w: World, entry: seq<Scan>, ms: seq<Module>, loaded: map<string, string>, n: nat, all: set<Id>)
    requires n < |RootScans(entry, ms)| && Rooted(w, entry, ms, loaded, n, all)
    ensures Rooted(w, entry, ms, loaded, n + 1, all + Pushes(w, ms, loaded, RootScans(entry, ms)[n]))
  {
    PushesAreIds(w, ms, loaded, RootScans(entry, ms)[n]);
    hide Pushes;
    hide RootIds;
    hide IsId;
    RootIsForced(w, entry, ms, loaded, n);
    hide Closed;
  }

  lemma RootIsForced(w: World, entry: seq<Scan>, ms: seq<Module>, loaded: map<string, string>, n: nat)
    requires n < |RootScans(entry, ms)|
    ensures forall other :: Closed(w, entry, ms, loaded, other) ==>
      Pushes(w, ms, loaded, RootScans(entry, ms)[n]) <= other
  {
    hide Pushes;
    assert RootScans(entry, ms)[n] in RootScans(entry, ms);
  }

  lemma RootsRooted(w: World, entry: seq<Scan>, ms: seq<Module>, loaded: map<string, string>, all: set<Id>)
    requires all == RootIds(w, ms)
    ensures Rooted(w, entry, ms, loaded, 0, all)
  {
  }

  lemma RootedDrains(w: World, entry: seq<Scan>, ms: seq<Module>, loaded: map<string, string>, all: set<Id>)
    requires Rooted(w, entry, ms, loaded, |RootScans(entry, ms)|, all)
    ensures Draining(w, entry, ms, loaded, {}, all)
  {
    hide Pushes;
    hide RootIds;
    hide Closed;
  }

  lemma NoKeys(w: World)
    ensures AllKeys(w, {}) == {}
  {
  }

  /** The entry program's bodies and the top-level lets. */
  method ScanRoots(w: World, entry: seq<Scan>, ms: seq<Module>, loaded: map<string, string>)
    returns (work: seq<Id>, out: set<string>, errFloat: bool)
    ensures Draining(w, entry, ms, loaded, {}, Members(work))
    ensures out == AllKeys(w, ScansOf(entry, ms, {}))
    ensures errFloat == ShowsFloat(ScansOf(entry, ms, {}))
  {
    hide Pushes;
    hide KeysOf;
    hide AllKeys;
    hide Closed;
    var roots := RootScans(entry, ms);
    work := InSomeOrder(RootIds(w, ms));
    out, errFloat := {}, false;
    assert Members(roots[..0]) == {};
    NoKeys(w);
    RootsRooted(w, entry, ms, loaded, Members(work));
    for n := 0 to |roots|
      invariant Rooted(w, entry, ms, loaded, n, Members(work))
      invariant out == AllKeys(w, Members(roots[..n]))
      invariant errFloat == ShowsFloat(Members(roots[..n]))
    {
      RootStep(w, entry, ms, loaded, n, Members(work));
      AllKeysAdd(w, Members(roots[..n]), roots[n]);
      assert Members(roots[..n + 1]) == Members(roots[..n]) + {roots[n]};
      var more := InSomeOrder(Pushes(w, ms, loaded, roots[n]));
      assert Members(work + more) == Members(work) + Pushes(w, ms, loaded, roots[n]);
      work := work + more;
      out := out + KeysOf(w, roots[n]);
      errFloat := errFloat || roots[n].errFloat;
    }
    assert roots[..|roots|] == roots;
    RootedDrains(w, entry, ms, loaded, Members(work));
    assert ScansOf(entry, ms, {}) == Members(roots);
  }

  /** Pops one body and pushes what it names. */
  lemma PopStep(
    w: World, entry: seq<Scan>, ms: seq<Module>, loaded: map<string, string>, seen: set<Id>, rest: seq<Id>, id: Id,
    more: seq<Id>)
    requires Draining(w, entry, ms, loaded, seen, seen + Members(rest + [id])) && id !in seen
    requires IsId(ms, id) ==> Members(more) == Pushes(w, ms, loaded, FnAt(ms, id).body)
    ensures IsId(ms, id)
    ensures Draining(w, entry, ms, loaded, seen + {id}, seen + {id} + Members(rest + more))
    ensures |Ids(ms) - (seen + {id})| < |Ids(ms) - seen|
  {
    var all := seen + Members(rest + [id]);
    assert id in Members(rest + [id]);
    DrainIds(w, entry, ms, loaded, seen, all, id);
    DrainStep(w, entry, ms, loaded, seen, all, id);
    LargerShrinks(Ids(ms), seen, id);
    assert all + Members(more) == seen + {id} + Members(rest + more);
  }

  lemma SkipStep(
    w: World, entry: seq<Scan>, ms: seq<Module>, loaded: map<string, string>, seen: set<Id>, rest: seq<Id>, id: Id)
    requires Draining(w, entry, ms, loaded, seen, seen + Members(rest + [id])) && id in seen
    ensures Draining(w, entry, ms, loaded, seen, seen + Members(rest))
  {
    assert seen + Members(rest + [id]) == seen + Members(rest);
  }

  /** Scans the roots, then pops bodies until none is left. Whatever order the bodies are pushed
      and popped in, the bodies seen are the least closed set, and the demands are theirs. */
  method ScanProgram(w: World, entry: seq<Scan>, ms: seq<Module>, loaded: map<string, string>)
    returns (out: set<string>, ghost reached: set<Id>)
    ensures IsReached(w, entry, ms, loaded, reached)
    ensures out == Demands(w, ScansOf(entry, ms, reached))
    ensures forall ids :: IsReached(w, entry, ms, loaded, ids) ==> out == Demands(w, ScansOf(entry, ms, ids))
  {
    hide *;
    var work, keys, errFloat := ScanRoots(w, entry, ms, loaded);
    var seen: set<Id> := {};
    assert seen + Members(work) == Members(work);
    while work != []
      invariant Draining(w, entry, ms, loaded, seen, seen + Members(work))
      invariant keys == AllKeys(w, ScansOf(entry, ms, seen))
      invariant errFloat == ShowsFloat(ScansOf(entry, ms, seen))
      decreases |Ids(ms) - seen|, |work|
    {
      ghost var rest := work[..|work| - 1];
      var id := work[|work| - 1];
      assert work == rest + [id];
      work := work[..|work| - 1];
      if id in seen {
        SkipStep(w, entry, ms, loaded, seen, rest, id);
        continue;
      }
      PoppedIsId(w, entry, ms, loaded, seen, rest, id);
      var body := FnAt(ms, id).body;
      var more := InSomeOrder(Pushes(w, ms, loaded, body));
      PopStep(w, entry, ms, loaded, seen, rest, id, more);
      ScansAdd(entry, ms, seen, id);
      AllKeysAdd(w, ScansOf(entry, ms, seen), body);
      work := work + more;
      seen := seen + {id};
      keys := keys + KeysOf(w, body);
      errFloat := errFloat || body.errFloat;
    }
    reached := seen;
    NoMembers<Id>();
    assert work == [] && seen + Members(work) == seen;
    DrainedIsReached(w, entry, ms, loaded, seen);
    DemandsSplit(w, ScansOf(entry, ms, seen));
    out := keys + (if errFloat then {FLOAT, FLOAT32} else {});
    forall ids | IsReached(w, entry, ms, loaded, ids)
      ensures ids == reached
    {
      ReachedIsUnique(w, entry, ms, loaded, ids, reached);
    }
  }

  lemma PoppedIsId(
    w: World, entry: seq<Scan>, ms: seq<Module>, loaded: map<string, string>, seen: set<Id>, rest: seq<Id>, id: Id)
    requires Draining(w, entry, ms, loaded, seen, seen + Members(rest + [id]))
    ensures IsId(ms, id)
  {
    assert id in Members(rest + [id]);
  }

  lemma NoMembers<T>()
    ensures Members<T>([]) == {}
  {
  }

  lemma DemandsSplit(w: World, scans: set<Scan>)
    ensures Demands(w, scans) == AllKeys(w, scans) + (if ShowsFloat(scans) then {FLOAT, FLOAT32} else {})
  {
  }

  lemma DrainIds(
    w: World, entry: seq<Scan>, ms: seq<Module>, loaded: map<string, string>, seen: set<Id>, all: set<Id>, id: Id)
    requires Draining(w, entry, ms, loaded, seen, all) && id in all
    ensures IsId(ms, id) && id in Ids(ms)
  {
    IdsAreIds(ms, id);
  }

  lemma ScansAdd(entry: seq<Scan>, ms: seq<Module>, seen: set<Id>, id: Id)
    requires IsId(ms, id)
    ensures ScansOf(entry, ms, seen + {id}) == ScansOf(entry, ms, seen) + {FnAt(ms, id).body}
  {
    var b := FnAt(ms, id).body;
    assert Bodies(ms, seen + {id}) == Bodies(ms, seen) + {b};
  }

  /** The reached bodies are unique, so the demands do not depend on how they were found. */
  lemma ReachedIsUnique(
    w: World, entry: seq<Scan>, ms: seq<Module>, loaded: map<string, string>, a: set<Id>, b: set<Id>)
    requires IsReached(w, entry, ms, loaded, a) && IsReached(w, entry, ms, loaded, b)
    ensures a == b
  {
    hide Closed;
  }
}
