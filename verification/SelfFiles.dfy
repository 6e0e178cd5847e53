/** Which file a path finds. The loader keeps modules apart by their paths, but a path without a file
    of its own finds the `mod.almd` below it, which has a path too. With the keys apart a file is
    loaded more than once exactly when two spellings of it are met. */
module SelfFiles {
  import opened Options
  import opened SelfModules
  import opened SelfLoading
  import opened SelfResolution

  /** `long` spells out the `mod` that `short`, having no file of its own, leads to. */
  predicate SpellsMod(p: Project, short: Path, long: Path) {
    long == short + [MOD] && short !in p.sources
  }

  lemma SameFileIff(p: Project, a: Path, b: Path)
    requires FileOf(p, a).Some? && FileOf(p, b).Some?
    ensures FileOf(p, a) == FileOf(p, b) <==> a == b || SpellsMod(p, a, b) || SpellsMod(p, b, a)
  {
    if FileOf(p, a) == FileOf(p, b) && a + [MOD] == b + [MOD] {
      assert (a + [MOD])[..|a|] == a && (b + [MOD])[..|b|] == b;
    }
  }

  // ---------------------------------------------------------------- circles

  /** The walk ends at a file it has been to. */
  predicate ReturnsToFile(p: Project, ns: seq<Node>) {
    && ns != []
    && FileOf(p, ns[|ns| - 1].path).Some?
    && exists i :: 0 <= i < |ns| - 1 && FileOf(p, ns[i].path) == FileOf(p, ns[|ns| - 1].path)
  }

  /** A walk that comes back to a file under another path can go the same way again: it then comes back
      to a path. */
  lemma GoesRoundAgain(p: Project, starts: set<Node>, ns: seq<Node>)
    requires FromStart(p, starts, ns) && ReturnsToFile(p, ns)
    ensures HasCircle(p, starts)
  {
    var last := |ns| - 1;
    var i :| 0 <= i < last && FileOf(p, ns[i].path) == FileOf(p, ns[last].path);
    var again := ns + ns[i + 1..];
    assert IsEdge(p, ns[i], ns[i + 1]);
    forall k | 0 < k < |again|
      ensures IsEdge(p, again[k - 1], again[k])
    {
      if k > last + 1 {
        assert IsEdge(p, ns[i + k - last - 1], ns[i + k - last]);
      } else if k <= last {
        assert IsEdge(p, ns[k - 1], ns[k]);
      }
    }
    assert FromStart(p, starts, again) && again[|again| - 1] == ns[last] == again[last];
    assert Returns(again);
  }

  /** Some walk comes back to a file exactly when some walk comes back to a path. */
  lemma FileCircleIff(p: Project, starts: set<Node>)
    ensures (exists ns: seq<Node> :: FromStart(p, starts, ns) && ReturnsToFile(p, ns)) <==> HasCircle(p, starts)
  {
    if ns: seq<Node> :| FromStart(p, starts, ns) && ReturnsToFile(p, ns) {
      GoesRoundAgain(p, starts, ns);
    }
    if HasCircle(p, starts) {
      var ns: seq<Node> :| FromStart(p, starts, ns) && Returns(ns);
      var i :| 0 <= i < |ns| - 1 && ns[i].path == ns[|ns| - 1].path;
      assert IsEdge(p, ns[i], ns[i + 1]);
      assert ReturnsToFile(p, ns);
    }
  }

  // ---------------------------------------------------------------- each file once

  predicate SameFile(p: Project, es: seq<Entry>, i: nat, j: nat)
    requires i < |es| && j < |es|
  {
    es[i].origin.OwnFile? && es[j].origin.OwnFile? && FileOf(p, es[i].origin.path) == FileOf(p, es[j].origin.path)
  }

  predicate FilesOnce(p: Project, es: seq<Entry>) {
    forall i, j :: 0 <= i < j < |es| ==> !SameFile(p, es, i, j)
  }

  /** No file is loaded twice as an ordinary module. */
  predicate ModuleFilesOnce(p: Project, es: seq<Entry>) {
    forall i, j :: 0 <= i < j < |es| && !es[i].isRoot && !es[j].isRoot ==> !SameFile(p, es, i, j)
  }

  /** Two modules that can be met and are one file: the root under two keys, or `x` and `x.mod`. */
  predicate IsDouble(p: Project, a: Node, b: Node) {
    (a.path == b.path && a.name != b.name) || SpellsMod(p, a.path, b.path)
  }

  ghost predicate MeetsDouble(p: Project, starts: set<Node>) {
    exists a, b :: Reached(p, starts, a) && Reached(p, starts, b) && IsDouble(p, a, b)
  }

  ghost predicate MeetsSpelling(p: Project, starts: set<Node>) {
    exists a, b :: Reached(p, starts, a) && Reached(p, starts, b)
      && !a.root && !b.root && SpellsMod(p, a.path, b.path)
  }

  /** One path has two keys only as the package root. */
  lemma TwoKeysAreRoots(p: Project, imports: seq<EntryImport>, a: Node, b: Node)
    requires Reached(p, Starts(p, imports), a) && Reached(p, Starts(p, imports), b)
    requires a.path == b.path && a.name != b.name
    ensures a.path == ROOT && (a.root || b.root)
  {
    KeyIsCanonical(p, imports, a);
    KeyIsCanonical(p, imports, b);
    RootIsAtRoot(p, imports, a);
    RootIsAtRoot(p, imports, b);
  }

  lemma RootIsAtRoot(p: Project, imports: seq<EntryImport>, n: Node)
    requires Reached(p, Starts(p, imports), n)
    ensures n.root ==> n.path == ROOT
  {
    var ns: seq<Node> :| FromStart(p, Starts(p, imports), ns) && ns[|ns| - 1] == n;
    assert |ns| > 1 ==> IsEdge(p, ns[|ns| - 2], n);
  }

  /** Two modules that are one file stand under their two keys. */
  lemma DoubleIsLoadedTwice(p: Project, imports: seq<EntryImport>, es: seq<Entry>, a: Node, b: Node)
    requires AllRight(p, imports, es) && Ordered(p, es) && IsDouble(p, a, b)
    requires Reached(p, Starts(p, imports), a) && Reached(p, Starts(p, imports), b)
    ensures var i, j := At(es, a.name), At(es, b.name);
      && i < |es| && j < |es| && i != j && SameFile(p, es, i, j) && SameFile(p, es, j, i)
      && es[i].isRoot == a.root && es[j].isRoot == b.root
  {
    assert Holds(es, a) && Holds(es, b);
    HeldIsPlaced(p, es, a);
    HeldIsPlaced(p, es, b);
    SameFileIff(p, a.path, b.path);
  }

  /** Two entries that are one file come from two modules that are. */
  lemma LoadedTwiceIsDouble(p: Project, imports: seq<EntryImport>, es: seq<Entry>, i: nat, j: nat)
    requires AllKnown(p, imports, Starts(p, imports), es) && Ordered(p, es) && EachOnce(es)
    requires i < j < |es| && SameFile(p, es, i, j)
    ensures var a, b := NodeOf(es[i]), NodeOf(es[j]);
      && Reached(p, Starts(p, imports), a) && Reached(p, Starts(p, imports), b)
      && (IsDouble(p, a, b) || IsDouble(p, b, a))
  {
    assert IsKnown(p, imports, Starts(p, imports), es[i]) && IsKnown(p, imports, Starts(p, imports), es[j]);
    assert IsPlaced(p, es, i) && IsPlaced(p, es, j);
    assert NoName(es, j) && es[..j][i] == es[i];
    SameFileIff(p, es[i].origin.path, es[j].origin.path);
  }

  /** With the keys apart, no file is loaded twice if and only if neither the root is met under two keys
      nor some module both as `x`, without a file of its own, and as `x.mod`; and no file but the
      root is, if and only if the latter is not met. */
  lemma FilesOnceIff(p: Project, imports: seq<EntryImport>)
    requires Resolution(p, imports).Ok? && KeysApart(p, imports)
    ensures var es := Resolution(p, imports).value.loaded;
      && (FilesOnce(p, es) <==> !MeetsDouble(p, Starts(p, imports)))
      && (ModuleFilesOnce(p, es) <==> !MeetsSpelling(p, Starts(p, imports)))
  {
    var starts := Starts(p, imports);
    var s := Resolution(p, imports).value;
    var es := s.loaded;
    ApartIsRight(p, imports, s);
    ApartCoversRoot(p, imports);
    ApartKeepsLeavesApart(p, imports);
    LoadsEachOnce(p, imports, starts);
    var mid := OkRun(p, imports, starts, s);
    assert AllKnown(p, imports, starts, es) && Ordered(p, es);
    hide *;
    DoublesMatch(p, imports, es);
  }

  lemma DoublesMatch(p: Project, imports: seq<EntryImport>, es: seq<Entry>)
    requires AllRight(p, imports, es) && AllKnown(p, imports, Starts(p, imports), es)
    requires Ordered(p, es) && EachOnce(es)
    ensures FilesOnce(p, es) <==> !MeetsDouble(p, Starts(p, imports))
    ensures ModuleFilesOnce(p, es) <==> !MeetsSpelling(p, Starts(p, imports))
  {
    hide Reached;
    hide Starts;
    hide AllRight;
    hide AllKnown;
    hide Ordered;
    hide EachOnce;
    hide At;
    hide HasName;
    var starts := Starts(p, imports);
    forall a, b | Reached(p, starts, a) && Reached(p, starts, b) && IsDouble(p, a, b)
      ensures !FilesOnce(p, es) && (!a.root && !b.root ==> !ModuleFilesOnce(p, es))
    {
      DoubleIsLoadedTwice(p, imports, es, a, b);
    }
    forall i, j | 0 <= i < j < |es| && SameFile(p, es, i, j)
      ensures MeetsDouble(p, starts) && (!es[i].isRoot && !es[j].isRoot ==> MeetsSpelling(p, starts))
    {
      LoadedTwiceIsDouble(p, imports, es, i, j);
      var a, b := NodeOf(es[i]), NodeOf(es[j]);
      if a.path == b.path && a.name != b.name {
        TwoKeysAreRoots(p, imports, a, b);
      }
    }
    forall a, b | Reached(p, starts, a) && Reached(p, starts, b) && SpellsMod(p, a.path, b.path)
      ensures IsDouble(p, a, b)
    {
    }
  }
}
