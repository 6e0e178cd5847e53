/** The recursive dependency walk: Minimal Version Selection over the requests a manifest
    reaches, under the owner check and the two budgets.

    What git, the network and the TOML reader answer is a `World` of functions. The class
    `Walk` updates the walk's fields as the program does; `WalkDeps` and `WalkOne` are the
    same steps on values, and the lemmas of the other dependency modules are about those. */
module DependencyWalk {
  import opened Options

  // ---------------------------------------------------------------- versions

  /** A parsed version. `rank` is the place of its pre-release and build parts among the
      versions with the same three numbers: between any two of those there is room for another.
      A plain version has rank 0. */
  datatype Version = Version(major: nat, minor: nat, patch: nat, rank: real)

  predicate Less(a: Version, b: Version) {
    || a.major < b.major
    || (a.major == b.major && a.minor < b.minor)
    || (a.major == b.major && a.minor == b.minor && a.patch < b.patch)
    || (a.major == b.major && a.minor == b.minor && a.patch == b.patch && a.rank < b.rank)
  }

  datatype PkgId = PkgId(name: string, major: nat)

  datatype Dep = Dep(
    name: string, git: string, tag: Option<string>, branch: Option<string>,
    version: Option<string>, path: Option<string>, subdir: Option<string>)

  function GetOr(o: Option<string>, default: string): string {
    if o.Some? then o.value else default
  }

  function RefName(dep: Dep): string {
    GetOr(dep.tag, GetOr(dep.branch, "main"))
  }

  function TrimStart(s: string, drop: char -> bool): string {
    if s != "" && drop(s[0]) then TrimStart(s[1..], drop) else s
  }

  function Dots(s: string): nat {
    if s == "" then 0 else (if s[0] == '.' then 1 else 0) + Dots(s[1..])
  }

  /** A version written with one or two numbers is read with the missing ones as zero. */
  function Pad(s: string): string {
    if Dots(s) == 0 then s + ".0.0" else if Dots(s) == 1 then s + ".0" else s
  }

  function RequestedVersion(dep: Dep): string {
    if dep.version.Some? then Pad(TrimStart(dep.version.value, c => !('0' <= c <= '9')))
    else if dep.tag.Some? then Pad(TrimStart(dep.tag.value, c => c == 'v'))
    else "0.0.0"
  }

  function VisitKey(dep: Dep): string {
    if dep.path.Some? then "path:" + dep.path.value + "@" + RequestedVersion(dep)
    else dep.git + "#" + GetOr(dep.subdir, "") + "@" + RequestedVersion(dep)
  }

  // ---------------------------------------------------------------- the world

  /** What `source_owner` reads off a URL: nothing readable, a local source, or an owner. */
  datatype Owner = Unreadable | Local | Named(owner: string)

  /** What fetching a request gives: the directory it is read from, the commit the lock may
      record, the name its own manifest declares (if it has a readable one), and that
      manifest's dependencies. */
  datatype Checkout = Checkout(dir: string, commit: Option<string>, name: Option<string>, deps: seq<Dep>)

  datatype World = World(
    parse: string -> Option<Version>,
    owner: string -> Owner,
    trusted: string -> bool,
    fetch: Dep -> Option<Checkout>,
    countLimit: nat,
    depthLimit: nat)

  function SemverOf(w: World, s: string): Version {
    if w.parse(s).Some? then w.parse(s).value else Version(0, 0, 0, 0.0)
  }

  function PkgIdOf(w: World, name: string, version: string): PkgId {
    match w.parse(version)
    case Some(v) => PkgId(name, if v.major == 0 then v.minor else v.major)
    case None => PkgId(name, 0)
  }

  function DeclaredName(w: World, dep: Dep): string {
    match w.fetch(dep)
    case Some(c) => GetOr(c.name, dep.name)
    case None => dep.name
  }

  /** The requirements of a request: none when its manifest cannot be read. */
  function Requirements(w: World, dep: Dep): seq<Dep> {
    match w.fetch(dep)
    case Some(c) => if c.name.Some? then c.deps else []
    case None => []
  }

  function FiledUnder(w: World, dep: Dep): PkgId {
    PkgIdOf(w, DeclaredName(w, dep), RequestedVersion(dep))
  }

  function Semver(w: World, dep: Dep): Version {
    SemverOf(w, RequestedVersion(dep))
  }

  // ---------------------------------------------------------------- the walk on values

  datatype Error =
    | OwnerUnreadable(dep: Dep)
    | OwnerUntrusted(chain: seq<string>)
    | TooManyDependencies(chain: seq<string>)
    | ChainTooDeep(chain: seq<string>)
    | FetchFailed(chain: seq<string>)

  type Outcome = Result<(), Error>

  datatype Fetched = Fetched(id: PkgId, source: string, version: string, dir: string)

  datatype Resolution = Resolution(dep: Dep, refName: string, commit: string, id: PkgId, dir: string)

  /** What the walk did, in order; the program keeps no such record. */
  datatype Event = Checked(dep: Dep) | Fetching(dep: Dep, depth: nat)

  /** `walked` lists the requests whose fetch succeeded, in order; it and `log` exist for
      the proofs. */
  datatype State = State(
    fetched: seq<Fetched>, visited: set<string>, resolved: seq<Resolution>,
    walked: seq<Dep>, log: seq<Event>)

  const Start := State([], {}, [], [], [])

  function CheckOwner(w: World, dep: Dep, chain: seq<string>): Outcome {
    if dep.path.Some? then Ok(())
    else match w.owner(dep.git)
      case Unreadable => Err(OwnerUnreadable(dep))
      case Local => Ok(())
      case Named(o) => if w.trusted(o) then Ok(()) else Err(OwnerUntrusted(chain))
  }

  /** The position of the entry filed under `id`, or the length when there is none. */
  function FindPkg(fetched: seq<Fetched>, id: PkgId): (i: nat)
    ensures i <= |fetched|
    ensures i < |fetched| ==> fetched[i].id == id
    ensures forall k :: 0 <= k < i ==> fetched[k].id != id
  {
    if fetched == [] || fetched[0].id == id then 0
    else 1 + FindPkg(fetched[1..], id)
  }

  function Entry(w: World, dep: Dep, c: Checkout): Fetched {
    Fetched(PkgIdOf(w, GetOr(c.name, dep.name), RequestedVersion(dep)), dep.git, RequestedVersion(dep), c.dir)
  }

  /** Minimal Version Selection's update: a higher request replaces the entry in place. */
  function Select(w: World, fetched: seq<Fetched>, f: Fetched): seq<Fetched> {
    var i := FindPkg(fetched, f.id);
    if i == |fetched| then fetched + [f]
    else if Less(SemverOf(w, fetched[i].version), SemverOf(w, f.version)) then fetched[i := f]
    else fetched
  }

  function Resolve(w: World, dep: Dep, c: Checkout): seq<Resolution> {
    if c.commit.Some?
    then [Resolution(dep, RefName(dep), c.commit.value, Entry(w, dep, c).id, c.dir)]
    else []
  }

  function Visit(st: State, dep: Dep): State {
    st.(visited := st.visited + {VisitKey(dep)})
  }

  function Record(w: World, st: State, dep: Dep, c: Checkout): State {
    st.(fetched := Select(w, st.fetched, Entry(w, dep, c)),
        resolved := st.resolved + Resolve(w, dep, c),
        walked := st.walked + [dep])
  }

  /** How many more requests may be visited before the count budget refuses one. */
  function Room(w: World, visited: set<string>): nat {
    if |visited| <= w.countLimit then w.countLimit + 1 - |visited| else 0
  }

  lemma RoomShrinks(w: World, a: set<string>, b: set<string>)
    requires a <= b
    ensures Room(w, b) <= Room(w, a)
    ensures a < b && |b| <= w.countLimit ==> Room(w, b) < Room(w, a)
  {
    CardinalityGrows(a, b);
  }

  lemma CardinalityGrows<T>(a: set<T>, b: set<T>)
    requires a <= b
    ensures |a| <= |b|
    ensures a < b ==> |a| < |b|
  {
    assert b == a + (b - a);
    assert |b| == |a| + |b - a|;
    if a < b {
      var x :| x in b && x !in a;
      assert x in b - a;
    }
  }

  ghost function WalkDeps(w: World, deps: seq<Dep>, chain: seq<string>, st: State): (r: (State, Outcome))
    ensures st.visited <= r.0.visited
    decreases Room(w, st.visited), 1, |deps|
  {
    if deps == [] then (st, Ok(()))
    else
      var dep := deps[0];
      var here := chain + [dep.name];
      var owner := CheckOwner(w, dep, here);
      if owner.Err? then (st, owner)
      else
        var st1 := st.(log := st.log + [Checked(dep)]);
        var r := WalkOne(w, dep, here, st1);
        if r.1.Err? then r
        else
          RoomShrinks(w, st.visited, r.0.visited);
          WalkDeps(w, deps[1..], chain, r.0)
  }

  ghost function WalkOne(w: World, dep: Dep, chain: seq<string>, st: State): (r: (State, Outcome))
    ensures st.visited <= r.0.visited
    decreases Room(w, st.visited), 0, 0
  {
    if VisitKey(dep) in st.visited then (st, Ok(()))
    else
      var st1 := Visit(st, dep);
      if |st1.visited| > w.countLimit then (st1, Err(TooManyDependencies(chain)))
      else if |chain| > w.depthLimit then (st1, Err(ChainTooDeep(chain)))
      else
        var st2 := st1.(log := st1.log + [Fetching(dep, |chain|)]);
        match w.fetch(dep)
        case None => (st2, Err(FetchFailed(chain)))
        case Some(c) =>
          RoomShrinks(w, st.visited, st1.visited);
          WalkDeps(w, Requirements(w, dep), chain, Record(w, st2, dep, c))
  }

  // ---------------------------------------------------------------- the walk in place

  /** The walk's state, updated in place. */
  class Walk {
    var fetched: seq<Fetched>
    var visited: set<string>
    var resolved: seq<Resolution>
    ghost var walked: seq<Dep>
    ghost var log: seq<Event>

    ghost function Now(): State
      reads this
    {
      State(fetched, visited, resolved, walked, log)
    }

    constructor ()
      ensures Now() == Start
    {
      fetched, visited, resolved := [], {}, [];
      walked, log := [], [];
    }

    /** Walks `deps`, required through `chain`. */
    method Deps(w: World, deps: seq<Dep>, chain: seq<string>) returns (o: Outcome)
      modifies this
      ensures (Now(), o) == WalkDeps(w, deps, chain, old(Now()))
      decreases Room(w, visited), 1, 0
    {
      ghost var goal := WalkDeps(w, deps, chain, Now());
      var i := 0;
      while i < |deps|
        invariant 0 <= i <= |deps|
        invariant old(visited) <= visited
        invariant WalkDeps(w, deps[i..], chain, Now()) == goal
      {
        var here := chain + [deps[i].name];
        assert deps[i..][1..] == deps[i + 1..];
        var owner := CheckOwner(w, deps[i], here);
        if owner.Err? {
          return owner;
        }
        log := log + [Checked(deps[i])];
        RoomShrinks(w, old(visited), visited);
        o := FetchOne(w, deps[i], here);
        if o.Err? {
          return;
        }
        i := i + 1;
      }
      o := Ok(());
    }

    method FetchOne(w: World, dep: Dep, chain: seq<string>) returns (o: Outcome)
      modifies this
      ensures (Now(), o) == WalkOne(w, dep, chain, old(Now()))
      decreases Room(w, visited), 0, 0
    {
      if VisitKey(dep) in visited {
        return Ok(());
      }
      visited := visited + {VisitKey(dep)};
      if |visited| > w.countLimit {
        return Err(TooManyDependencies(chain));
      }
      if |chain| > w.depthLimit {
        return Err(ChainTooDeep(chain));
      }
      log := log + [Fetching(dep, |chain|)];
      var got := w.fetch(dep);
      if got.None? {
        return Err(FetchFailed(chain));
      }
      var entry := Entry(w, dep, got.value);
      resolved := resolved + Resolve(w, dep, got.value);
      var at := FindPkg(fetched, entry.id);
      if at < |fetched| {
        if Less(SemverOf(w, fetched[at].version), SemverOf(w, entry.version)) {
          fetched := fetched[at := entry];
        }
      } else {
        fetched := fetched + [entry];
      }
      walked := walked + [dep];
      RoomShrinks(w, old(visited), visited);
      o := Ok(());
      if Requirements(w, dep) != [] {
        o := Deps(w, Requirements(w, dep), chain);
      }
    }
  }
}
