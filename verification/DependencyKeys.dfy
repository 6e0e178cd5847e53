/** What the walk's keys, versions and package names mean, in terms of the text of a manifest: which
    requests it takes for one, which versions share a package and which of two is greater. The
    selection theorem is restated on those terms. */
module DependencyKeys {
  import opened Options
  import opened DependencyWalk
  import opened DependencySelection
  import opened DependencyOrder
  import opened DependencyChoice

  // ---------------------------------------------------------------- versions as written

  /** `core` is what is left of `s` from the first character that `stop` holds of. */
  ghost predicate IsRest(core: string, s: string, stop: char -> bool) {
    exists i :: 0 <= i <= |s| && s[i..] == core && (i < |s| ==> stop(s[i])) && forall j :: 0 <= j < i ==> !stop(s[j])
  }

  ghost predicate HasDot(s: string) {
    exists i :: 0 <= i < |s| && s[i] == '.'
  }

  ghost predicate HasTwoDots(s: string) {
    exists i, j :: 0 <= i < j < |s| && s[i] == '.' && s[j] == '.'
  }

  /** `v` is `core` with a missing second and third number written as zero. */
  ghost predicate IsFilled(v: string, core: string) {
    && (!HasDot(core) ==> v == core + ".0.0")
    && (HasDot(core) && !HasTwoDots(core) ==> v == core + ".0")
    && (HasTwoDots(core) ==> v == core)
  }

  ghost predicate Fills(v: string, s: string, stop: char -> bool) {
    exists core :: IsRest(core, s, stop) && IsFilled(v, core)
  }

  lemma {:induction false} TrimLeavesRest(s: string, drop: char -> bool, stop: char -> bool)
    requires forall c :: drop(c) == !stop(c)
    ensures IsRest(TrimStart(s, drop), s, stop)
  {
    if s != "" && drop(s[0]) {
      TrimLeavesRest(s[1..], drop, stop);
      var core := TrimStart(s[1..], drop);
      var i :| 0 <= i <= |s[1..]| && s[1..][i..] == core && (i < |s[1..]| ==> stop(s[1..][i]))
        && forall j :: 0 <= j < i ==> !stop(s[1..][j]);
      assert s[i + 1..] == core;
      forall j | 0 <= j < i + 1
        ensures !stop(s[j])
      {
        assert j > 0 ==> s[j] == s[1..][j - 1];
      }
    } else {
      assert s[0..] == s;
    }
  }

  lemma {:induction false} DotsAreThere(s: string)
    ensures Dots(s) > 0 <==> HasDot(s)
    ensures Dots(s) > 1 <==> HasTwoDots(s)
  {
    if s != "" {
      var rest := s[1..];
      DotsAreThere(rest);
      assert forall i :: 0 <= i < |rest| ==> rest[i] == s[i + 1];
      if HasDot(rest) {
        var j :| 0 <= j < |rest| && rest[j] == '.';
        assert s[j + 1] == '.';
      }
      if HasTwoDots(rest) {
        var i, j :| 0 <= i < j < |rest| && rest[i] == '.' && rest[j] == '.';
        assert s[i + 1] == '.' && s[j + 1] == '.';
      }
      if HasTwoDots(s) {
        var i, j :| 0 <= i < j < |s| && s[i] == '.' && s[j] == '.';
        assert rest[j - 1] == '.';
        assert i > 0 ==> rest[i - 1] == '.';
      }
      if HasDot(s) {
        var i :| 0 <= i < |s| && s[i] == '.';
        assert i > 0 ==> rest[i - 1] == '.';
      }
    }
  }

  lemma PadFills(s: string)
    ensures IsFilled(Pad(s), s)
  {
    DotsAreThere(s);
  }

  /** The version a request asks for: its version from the first digit on, else its tag without leading
      `v`s, with missing numbers as zero; else `0.0.0`. */
  lemma VersionAsWritten(d: Dep)
    ensures d.version.Some? ==> Fills(RequestedVersion(d), d.version.value, c => '0' <= c <= '9')
    ensures d.version.None? && d.tag.Some? ==> Fills(RequestedVersion(d), d.tag.value, c => c != 'v')
    ensures d.version.None? && d.tag.None? ==> RequestedVersion(d) == "0.0.0"
  {
    if d.version.Some? {
      var s := d.version.value;
      TrimLeavesRest(s, c => !('0' <= c <= '9'), c => '0' <= c <= '9');
      PadFills(TrimStart(s, c => !('0' <= c <= '9')));
    } else if d.tag.Some? {
      var s := d.tag.value;
      TrimLeavesRest(s, c => c == 'v', c => c != 'v');
      PadFills(TrimStart(s, c => c == 'v'));
    }
  }

  // ---------------------------------------------------------------- which version is greater

  /** The first of the four parts in which two versions differ decides which is greater. */
  lemma GreaterPartWins(a: Version, b: Version)
    ensures a.major < b.major ==> Less(a, b) && !Less(b, a)
    ensures a.major == b.major && a.minor < b.minor ==> Less(a, b) && !Less(b, a)
    ensures a.major == b.major && a.minor == b.minor && a.patch < b.patch ==> Less(a, b) && !Less(b, a)
    ensures a.major == b.major && a.minor == b.minor && a.patch == b.patch && a.rank < b.rank ==>
      Less(a, b) && !Less(b, a)
    ensures a == b ==> !Less(a, b)
  {
  }

  /** So two versions are equal, or one of them is greater, and greater is transitive. */
  lemma VersionsAreOrdered(a: Version, b: Version, c: Version)
    ensures a == b || Less(a, b) || Less(b, a)
    ensures !(Less(a, b) && Less(b, a))
    ensures Less(a, b) && Less(b, c) ==> Less(a, c)
  {
  }

  /** A version that does not parse counts as `0.0.0`. */
  lemma UnparsedIsLeast(w: World, s: string, v: Version)
    requires w.parse(s).None?
    ensures SemverOf(w, s) == Version(0, 0, 0, 0.0)
    ensures forall t :: w.parse(t).Some? ==> SemverOf(w, t) == w.parse(t).value
  {
  }

  // ---------------------------------------------------------------- which versions share a package

  /** Two versions that parse share a package exactly if they have one major number that is not zero,
      or both have major zero and one minor number, or one has the major number that is the other's
      minor behind a zero. */
  lemma SharePackageIff(w: World, name: string, s: string, other: string, t: string)
    requires w.parse(s).Some? && w.parse(t).Some?
    ensures var u, v := w.parse(s).value, w.parse(t).value;
      (PkgIdOf(w, name, s) == PkgIdOf(w, other, t) <==>
        (name == other
         && ((u.major > 0 && v.major == u.major)
             || (u.major == 0 && v.major == 0 && u.minor == v.minor)
             || (u.major > 0 && v.major == 0 && v.minor == u.major)
             || (v.major > 0 && u.major == 0 && u.minor == v.major))))
  {
  }

  /** A version that does not parse shares a package with the `0.0.x` of its name. */
  lemma UnparsedSharesIff(w: World, name: string, s: string, other: string, t: string)
    requires w.parse(s).None?
    ensures PkgIdOf(w, name, s) == PkgIdOf(w, other, t) <==>
      (name == other && (w.parse(t).None? || (w.parse(t).value.major == 0 && w.parse(t).value.minor == 0)))
    ensures PkgIdOf(w, name, s).name == name
  {
  }

  /** A request is filed under the name its own manifest declares, else under the name it is asked by. */
  lemma FiledByManifest(w: World, d: Dep)
    ensures w.fetch(d).Some? && w.fetch(d).value.name.Some? ==>
      FiledUnder(w, d) == PkgIdOf(w, w.fetch(d).value.name.value, RequestedVersion(d))
    ensures w.fetch(d).None? || w.fetch(d).value.name.None? ==>
      FiledUnder(w, d) == PkgIdOf(w, d.name, RequestedVersion(d))
  {
  }

  // ---------------------------------------------------------------- when two requests have one key

  /** The directory in the repository; none is the empty one. */
  function Directory(d: Dep): string {
    match d.subdir
    case None => ""
    case Some(s) => s
  }

  /** The marks of a key do not occur in its parts, and a URL does not look like a path's key. */
  ghost predicate IsMarkFree(d: Dep) {
    match d.path
    case Some(p) => '@' !in p
    case None => '#' !in d.git && '@' !in Directory(d) && !("path:" <= d.git)
  }

  /** Two requests of one source: one path, or one directory of one repository. */
  ghost predicate SameSource(d: Dep, e: Dep) {
    match (d.path, e.path)
    case (Some(p), Some(q)) => p == q
    case (None, None) => d.git == e.git && Directory(d) == Directory(e)
    case _ => false
  }

  lemma SplitAtMark(a: string, x: string, b: string, y: string, mark: char)
    requires mark !in a && mark !in b && a + [mark] + x == b + [mark] + y
    ensures a == b && x == y
  {
    var s := a + [mark] + x;
    assert s[|a|] == mark && s[|b|] == mark;
    assert s[..|a|] == a && s[..|b|] == b;
    forall i | 0 <= i < |a|
      ensures s[i] != mark
    {
      assert a[i] in a;
    }
    forall i | 0 <= i < |b|
      ensures s[i] != mark
    {
      assert b[i] in b;
    }
    assert s[|a| + 1..] == x && s[|b| + 1..] == y;
  }

  /** Two requests share a visit key if and only if they name one source at one version. */
  lemma SameKeyIff(d: Dep, e: Dep)
    requires IsMarkFree(d) && IsMarkFree(e)
    ensures VisitKey(d) == VisitKey(e) <==> SameSource(d, e) && RequestedVersion(d) == RequestedVersion(e)
  {
    if VisitKey(d) == VisitKey(e) {
      match (d.path, e.path)
      case (Some(p), Some(q)) =>
        PathKeyParts(d, e);
      case (None, None) =>
        GitKeyParts(d, e);
      case (Some(p), None) =>
        PathKeyIsNoGitKey(d, e);
      case (None, Some(q)) =>
        PathKeyIsNoGitKey(e, d);
    }
  }

  lemma PathKeyParts(d: Dep, e: Dep)
    requires d.path.Some? && e.path.Some? && IsMarkFree(d) && IsMarkFree(e) && VisitKey(d) == VisitKey(e)
    ensures d.path == e.path && RequestedVersion(d) == RequestedVersion(e)
  {
    var a, b := d.path.value, e.path.value;
    var x, y := RequestedVersion(d), RequestedVersion(e);
    assert VisitKey(d)[5..] == a + "@" + x && VisitKey(e)[5..] == b + "@" + y;
    hide *;
    SplitAtMark(a, x, b, y, '@');
  }

  lemma GitKeyParts(d: Dep, e: Dep)
    requires d.path.None? && e.path.None? && IsMarkFree(d) && IsMarkFree(e) && VisitKey(d) == VisitKey(e)
    ensures d.git == e.git && Directory(d) == Directory(e) && RequestedVersion(d) == RequestedVersion(e)
  {
    var x, y := RequestedVersion(d), RequestedVersion(e);
    var a, b := Directory(d), Directory(e);
    assert VisitKey(d) == d.git + "#" + (a + "@" + x);
    assert VisitKey(e) == e.git + "#" + (b + "@" + y);
    SplitAtMark(d.git, a + "@" + x, e.git, b + "@" + y, '#');
    SplitAtMark(a, x, b, y, '@');
  }

  lemma PathKeyIsNoGitKey(d: Dep, e: Dep)
    requires d.path.Some? && e.path.None? && IsMarkFree(d) && IsMarkFree(e)
    ensures VisitKey(d) != VisitKey(e)
  {
    assert VisitKey(d)[..5] == "path:";
    var rest := "#" + (Directory(e) + "@" + RequestedVersion(e));
    assert VisitKey(e) == e.git + rest;
    NoPathMark(e.git, rest);
  }

  lemma NoPathMark(git: string, rest: string)
    requires !("path:" <= git) && rest != "" && rest[0] == '#'
    ensures !("path:" <= git + rest)
  {
    var k := git + rest;
    if |git| >= 5 {
      assert k[..5] == git[..5];
    } else {
      assert k[|git|] == '#';
      assert forall i :: 0 <= i < 5 ==> "path:"[i] != '#';
    }
  }

  // ---------------------------------------------------------------- the selection

  ghost predicate AllMarkFree(w: World, roots: seq<Dep>) {
    forall d :: Reachable(w, roots, d) ==> IsMarkFree(d)
  }

  /** A source at a version is one checkout; and if that does not name its package, it is asked for by
      one name. */
  ghost predicate OneCheckout(w: World, d: Dep, e: Dep) {
    w.fetch(d) == w.fetch(e) && (d.name == e.name || (w.fetch(d).Some? && w.fetch(d).value.name.Some?))
  }

  ghost predicate SourceFixesCheckout(w: World, roots: seq<Dep>) {
    forall d, e {:trigger OneCheckout(w, d, e)} ::
      (Reachable(w, roots, d) && Reachable(w, roots, e)
       && SameSource(d, e) && RequestedVersion(d) == RequestedVersion(e)) ==> OneCheckout(w, d, e)
  }

  lemma SourceFixesKey(w: World, roots: seq<Dep>)
    requires AllMarkFree(w, roots) && SourceFixesCheckout(w, roots)
    ensures KeyDetermines(w, roots)
  {
    forall d, e | Reachable(w, roots, d) && Reachable(w, roots, e) && VisitKey(d) == VisitKey(e)
      ensures SameRequest(w, d, e)
    {
      SameKeyIff(d, e);
      assert OneCheckout(w, d, e);
      hide VisitKey;
      hide Reachable;
    }
  }

  /** The selection, on the terms of the manifests: if a source at a version is one checkout, then after
      success there is one entry for each package; for every reachable request there is the entry of
      its package, and it is not of a smaller version; and every entry is the source, version and
      directory of some reachable request. */
  lemma BuildsTheGreatest(w: World, roots: seq<Dep>)
    requires AllMarkFree(w, roots) && SourceFixesCheckout(w, roots) && Succeeds(w, roots)
    ensures var built := Final(w, roots).fetched;
      && (forall i, j :: 0 <= i < j < |built| ==> built[i].id != built[j].id)
      && (forall d :: Reachable(w, roots, d) ==> IsBuilt(w, built, d))
      && (forall f :: f in built ==> IsAskedFor(w, roots, f))
  {
    SourceFixesKey(w, roots);
    SuccessWalks(w, roots);
    var r := Final(w, roots);
    forall d | Reachable(w, roots, d)
      ensures IsBuilt(w, r.fetched, d)
    {
      assert StoodFor(w, r.walked, d);
      var x :| x in r.walked && SameRequest(w, x, d);
      assert IsCovered(w, r.fetched, x);
      var f :| f in r.fetched && Covers(w, f, x);
      CoveredIsBuilt(w, r.fetched, f, d);
    }
    forall f | f in r.fetched
      ensures IsAskedFor(w, roots, f)
    {
      assert IsMade(w, f, r.walked);
      var d :| d in r.walked && MadeBy(w, f, d);
    }
  }

  /** Some entry is of the request's package and of no smaller version. */
  ghost predicate IsBuilt(w: World, built: seq<Fetched>, d: Dep) {
    exists f :: f in built && f.id == FiledUnder(w, d) && NotSmaller(w, f.version, RequestedVersion(d))
  }

  /** Of two versions that parse, the first part that differs is greater in `s`. */
  ghost predicate NotSmaller(w: World, s: string, t: string) {
    match (w.parse(s), w.parse(t))
    case (Some(u), Some(v)) =>
      && u.major >= v.major
      && (u.major == v.major ==> u.minor >= v.minor)
      && (u.major == v.major && u.minor == v.minor ==> u.patch >= v.patch)
      && (u.major == v.major && u.minor == v.minor && u.patch == v.patch ==> u.rank >= v.rank)
    case _ => true
  }

  lemma CoveredIsBuilt(w: World, built: seq<Fetched>, f: Fetched, d: Dep)
    requires f in built && f.id == FiledUnder(w, d) && !Less(SemverOf(w, f.version), Semver(w, d))
    ensures IsBuilt(w, built, d)
  {
  }

  /** The entry is what some reachable request is fetched as. */
  ghost predicate IsAskedFor(w: World, roots: seq<Dep>, f: Fetched) {
    exists d :: Reachable(w, roots, d) && f.id == FiledUnder(w, d) && f.version == RequestedVersion(d)
      && f.source == d.git && w.fetch(d).Some? && f.dir == w.fetch(d).value.dir
  }

  // ---------------------------------------------------------------- what is walked

  /** The manifest of `d` can be read and lists `e`. */
  ghost predicate AsksFor(w: World, d: Dep, e: Dep) {
    match w.fetch(d)
    case None => false
    case Some(c) => c.name.Some? && e in c.deps
  }

  /** Every walked request is one of the roots, or listed by the manifest of one walked before. */
  lemma WalkedIsAsked(w: World, roots: seq<Dep>, k: nat)
    requires k < |Final(w, roots).walked|
    ensures var walked := Final(w, roots).walked;
      walked[k] in roots || exists j :: 0 <= j < k && AsksFor(w, walked[j], walked[k])
  {
    var walked := Final(w, roots).walked;
    EveryRunIsTidy(w, roots);
    assert IsLedTo(w, roots, walked, k);
    var chain :| LeadsTo(w, roots, walked, k, chain);
    hide Final;
    if |chain| > 1 {
      var before := chain[|chain| - 2];
      assert chain[|chain| - 1] in Requirements(w, before);
      var j :| 0 <= j < k && walked[j] == before;
      assert AsksFor(w, walked[j], walked[k]);
    }
  }

  /** The keys of some requests are those of walked ones. */
  ghost predicate AreWalked(deps: seq<Dep>, walked: seq<Dep>) {
    forall d :: d in deps ==> exists x :: x in walked && VisitKey(x) == VisitKey(d)
  }

  /** After success the roots and everything that a walked request's readable manifest lists is walked,
      up to requests with one key. */
  lemma AskedIsWalked(w: World, roots: seq<Dep>)
    requires Succeeds(w, roots)
    ensures var walked := Final(w, roots).walked;
      && AreWalked(roots, walked)
      && forall i :: 0 <= i < |walked| && w.fetch(walked[i]).Some? && w.fetch(walked[i]).value.name.Some? ==>
           AreWalked(w.fetch(walked[i]).value.deps, walked)
  {
    DepsComplete(w, roots, [], Start);
    assert Keys(Start.walked) == {};
    var r := Final(w, roots);
    assert r.visited == Keys(r.walked);
    VisitedAreWalked(roots, r);
    forall i | 0 <= i < |r.walked| && w.fetch(r.walked[i]).Some? && w.fetch(r.walked[i]).value.name.Some?
      ensures AreWalked(w.fetch(r.walked[i]).value.deps, r.walked)
    {
      assert KeysVisited(Requirements(w, r.walked[i]), r.visited);
      VisitedAreWalked(w.fetch(r.walked[i]).value.deps, r);
    }
  }

  lemma VisitedAreWalked(deps: seq<Dep>, r: State)
    requires r.visited == Keys(r.walked) && KeysVisited(deps, r.visited)
    ensures AreWalked(deps, r.walked)
  {
    hide VisitKey;
    forall d | d in deps
      ensures exists x :: x in r.walked && VisitKey(x) == VisitKey(d)
    {
      assert VisitKey(d) in Keys(r.walked);
    }
  }
}
