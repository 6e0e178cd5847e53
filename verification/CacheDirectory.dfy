/** The directory a source's names lead to. A file system follows `.` and `..`, and the split of a
    long piece can leave either as a name: it stays where it is or goes back out of the name before.
    Two sources share a directory exactly when their names agree once each such tail has cancelled
    what it cancels; sources without such a tail share one only if they are one source. */
module CacheDirectory {
  import opened CachePath

  // ---------------------------------------------------------------- following names

  function Enter(at: seq<string>, name: string): seq<string> {
    if name == "." then at
    else if name == ".." && at != [] && at[|at| - 1] != ".." then at[..|at| - 1]
    else at + [name]
  }

  function Follow(at: seq<string>, names: seq<string>): seq<string>
    decreases |names|
  {
    if names == [] then at else Follow(Enter(at, names[0]), names[1..])
  }

  /** Where a path below the cache leads. A `..` that would lead out of the cache is kept. */
  function OnDisk(path: seq<string>): seq<string> {
    Follow([], path)
  }

  lemma {:induction false} FollowOn(at: seq<string>, a: seq<string>, b: seq<string>)
    ensures Follow(at, a + b) == Follow(Follow(at, a), b)
    decreases |a|
  {
    if a == [] {
      assert a + b == b;
    } else {
      assert (a + b)[0] == a[0] && (a + b)[1..] == a[1..] + b;
      FollowOn(Enter(at, a[0]), a[1..], b);
    }
  }

  predicate IsDots(name: string) {
    name == "." || name == ".."
  }

  lemma {:induction false} FollowPlain(at: seq<string>, names: seq<string>)
    requires forall i :: 0 <= i < |names| ==> !IsDots(names[i])
    ensures Follow(at, names) == at + names
    decreases |names|
  {
    if names != [] {
      FollowPlain(at + [names[0]], names[1..]);
      assert at + names == at + [names[0]] + names[1..];
    }
  }

  // ---------------------------------------------------------------- what a tail cancels

  /** How many dots the last name of a piece is, if it is only dots. */
  function Tail(piece: seq<byte>): (n: nat) {
    if LeavesDots(piece) then TailLength(Encode(piece)) else 0
  }

  lemma TailFacts(piece: seq<byte>)
    ensures var names, n := Names(piece), Tail(piece);
      && names != [] && n <= 2 && (n > 0 ==> |names| >= 2)
      && (n > 0 ==> names[|names| - 1] == DotName(n))
      && (n == 0 ==> !IsDots(names[|names| - 1]))
      && forall i :: 0 <= i < |names| - 1 ==> "%+" <= names[i]
  {
    var enc := Encode(piece);
    EncodedIsWhole(piece, true);
    TailIsLast(enc);
    LastNameIsPlainExactly(piece);
    if LeavesDots(piece) {
      SplitTailIsDots(piece);
      assert Components(enc) == ["%+" + enc[..Cut(enc)]] + Components(enc[Cut(enc)..]);
    }
  }

  /** The names of a piece that are left once its tail is followed: one dot cancels itself, two
      cancel themselves and the name before. */
  function Kept(piece: seq<byte>): seq<string> {
    TailFacts(piece);
    var names := Names(piece);
    names[..|names| - Tail(piece)]
  }

  function AllKept(pieces: seq<seq<byte>>): seq<string> {
    if pieces == [] then [] else Kept(pieces[0]) + AllKept(pieces[1..])
  }

  function Pieces(url: seq<byte>): seq<seq<byte>> {
    [SplitUrl(url).0] + SplitSlash(SplitUrl(url).1)
  }

  lemma MarkedIsNotDots(name: string)
    requires "%+" <= name
    ensures !IsDots(name)
  {
    assert name[0] == '%' && "."[0] == '.' && ".."[0] == '.';
  }

  /** A piece's tail never reaches beyond the piece. */
  lemma FollowPiece(at: seq<string>, piece: seq<byte>)
    ensures Follow(at, Names(piece)) == at + Kept(piece)
  {
    TailFacts(piece);
    var names, n := Names(piece), Tail(piece);
    var front, last := names[..|names| - 1], names[|names| - 1];
    assert Kept(piece) == names[..|names| - n];
    hide *;
    FollowNames(at, names, n);
  }

  lemma FollowNames(at: seq<string>, names: seq<string>, n: nat)
    requires names != [] && n <= 2 && (n > 0 ==> |names| >= 2)
    requires if n == 0 then !IsDots(names[|names| - 1]) else names[|names| - 1] == DotName(n)
    requires forall i :: 0 <= i < |names| - 1 ==> "%+" <= names[i]
    ensures Follow(at, names) == at + names[..|names| - n]
  {
    var front, last := names[..|names| - 1], names[|names| - 1];
    forall i | 0 <= i < |front|
      ensures !IsDots(front[i])
    {
      MarkedIsNotDots(names[i]);
    }
    hide *;
    FollowOn(at, front, [last]);
    assert names == front + [last];
    FollowPlain(at, front);
    FollowLast(at, front, last, n);
    if n == 2 {
      assert (at + front)[..|at + front| - 1] == at + names[..|names| - 2];
    }
  }

  lemma FollowLast(at: seq<string>, front: seq<string>, last: string, n: nat)
    requires n <= 2 && (n == 0 ==> !IsDots(last))
    requires n > 0 ==> last == DotName(n) && front != [] && !IsDots(front[|front| - 1])
    ensures var there := at + front;
      Follow(there, [last]) == if n == 0 then there + [last] else if n == 1 then there else there[..|there| - 1]
  {
    var there := at + front;
    DotNames(last);
    assert [last][1..] == [];
    assert n > 0 ==> there[|there| - 1] == front[|front| - 1];
  }

  lemma FollowBoth(at: seq<string>, a: seq<string>, b: seq<string>, c: seq<string>, d: seq<string>)
    requires Follow(at, a) == at + c && Follow(at + c, b) == (at + c) + d
    ensures Follow(at, a + b) == at + (c + d)
  {
    hide *;
    FollowOn(at, a, b);
    assert (at + c) + d == at + (c + d);
  }

  lemma {:induction false} FollowPieces(at: seq<string>, pieces: seq<seq<byte>>)
    ensures Follow(at, PieceComponents(pieces)) == at + AllKept(pieces)
    decreases |pieces|
  {
    if pieces == [] {
      assert PieceComponents(pieces) == [];
    } else {
      var kept, rest := Kept(pieces[0]), AllKept(pieces[1..]);
      assert AllKept(pieces) == kept + rest;
      hide *;
      PiecesFirst(pieces);
      FollowPiece(at, pieces[0]);
      FollowPieces(at + kept, pieces[1..]);
      FollowBoth(at, Names(pieces[0]), PieceComponents(pieces[1..]), kept, rest);
    }
  }

  /** The directory of a source: what each piece keeps, closed by the `@`. */
  lemma DirectoryIsKept(url: seq<byte>)
    ensures OnDisk(CacheRoot(url)) == AllKept(Pieces(url)) + ["@"]
  {
    var pieces := Pieces(url);
    FollowOn([], PieceComponents(pieces), ["@"]);
    FollowPieces([], pieces);
    FollowPlain(AllKept(pieces), ["@"]);
    assert [] + AllKept(pieces) == AllKept(pieces);
    assert CacheRoot(url) == PieceComponents(pieces) + ["@"];
  }

  // ---------------------------------------------------------------- folding case

  /** The place of a character within an escape. */
  predicate InEscape(s: string, i: nat)
    requires i < |s|
  {
    (i >= 1 && s[i - 1] == '%') || (i >= 2 && s[i - 2] == '%')
  }

  predicate CaseAt(s: string, i: nat)
    requires i < |s|
  {
    if InEscape(s, i) then IsHex(s[i]) else !('A' <= s[i] <= 'Z')
  }

  /** Upper case stands in escapes and nowhere else. */
  ghost predicate WellCased(s: string) {
    forall i :: 0 <= i < |s| ==> CaseAt(s, i)
  }

  ghost predicate NameCased(name: string) {
    WellCased(name) || ("%+" <= name && WellCased(name[2..]))
  }

  lemma {:induction false} EncodedIsCased(s: seq<byte>, first: bool)
    ensures WellCased(EncodeBytes(s, first))
  {
    if s != [] {
      EncodedIsCased(s[1..], false);
      EncodedIsWhole(s, first);
      var head, tail := EncodeByte(s[0], first), EncodeBytes(s[1..], false);
      var enc := head + tail;
      assert |head| == 3 || head[0] != '%';
      forall i | 0 <= i < |enc|
        ensures CaseAt(enc, i)
      {
        if i >= |head| {
          assert CaseAt(tail, i - |head|) && enc[i] == tail[i - |head|];
        }
      }
    }
  }

  lemma {:induction false} ComponentsCased(enc: string)
    requires WholeEscapes(enc) && WellCased(enc)
    ensures forall i :: 0 <= i < |Components(enc)| ==> NameCased(Components(enc)[i])
    decreases |enc|
  {
    if |enc| > MAX {
      var cut := Cut(enc);
      var chunk, rest := enc[..cut], enc[cut..];
      CutKeepsEscapes(enc);
      CutKeepsCase(enc, cut);
      ComponentsCased(rest);
      assert ("%+" + chunk)[2..] == chunk;
    }
  }

  lemma CutKeepsCase(enc: string, cut: nat)
    requires WellCased(enc) && 2 <= cut <= |enc| && WholeEscapes(enc[..cut])
    ensures WellCased(enc[..cut]) && WellCased(enc[cut..])
  {
    forall i | 0 <= i < cut
      ensures CaseAt(enc[..cut], i)
    {
      assert CaseAt(enc, i);
    }
    assert enc[..cut][cut - 1] != '%' && enc[..cut][cut - 2] != '%';
    forall i | 0 <= i < |enc| - cut
      ensures CaseAt(enc[cut..], i)
    {
      assert CaseAt(enc, cut + i);
    }
  }

  lemma KeptIsCased(piece: seq<byte>)
    ensures forall i :: 0 <= i < |Kept(piece)| ==> NameCased(Kept(piece)[i])
  {
    TailFacts(piece);
    if piece == [] {
      assert Names(piece) == ["%"] && WellCased("%");
    } else {
      EncodedIsWhole(piece, true);
      EncodedIsCased(piece, true);
      ComponentsCased(Encode(piece));
    }
  }

  lemma {:induction false} AllKeptAreCased(pieces: seq<seq<byte>>)
    ensures forall i :: 0 <= i < |AllKept(pieces)| ==> NameCased(AllKept(pieces)[i])
  {
    if pieces != [] {
      KeptIsCased(pieces[0]);
      AllKeptAreCased(pieces[1..]);
      hide Kept;
      hide NameCased;
    }
  }

  lemma FoldedCased(s: string, t: string)
    requires WellCased(s) && WellCased(t) && Fold(s) == Fold(t)
    ensures s == t
  {
    assert |s| == |Fold(s)| == |t|;
    forall i | 0 <= i < |s|
      ensures Lower(s[i]) == Lower(t[i]) && (s[i] == '%' <==> t[i] == '%')
    {
      assert Fold(s)[i] == Fold(t)[i];
    }
    forall i | 0 <= i < |s|
      ensures s[i] == t[i]
    {
      assert CaseAt(s, i) && CaseAt(t, i);
      assert InEscape(s, i) <==> InEscape(t, i);
    }
  }

  lemma MarkedOrCased(s: string, t: string)
    requires "%+" <= s && Fold(s) == Fold(t)
    ensures !WellCased(t) && "%+" <= t && Fold(s[2..]) == Fold(t[2..])
  {
    assert |s| == |Fold(s)| == |t|;
    forall i | 0 <= i < |s|
      ensures Lower(s[i]) == Lower(t[i])
    {
      assert Fold(s)[i] == Fold(t)[i];
    }
    assert s[0] == '%' && s[1] == '+';
    assert Lower(s[0]) == Lower(t[0]) && Lower(s[1]) == Lower(t[1]);
    assert InEscape(t, 1) && !CaseAt(t, 1);
    assert t == [t[0], t[1]] + t[2..];
  }

  /** Folding case never makes two names of sources one. */
  lemma FoldedName(s: string, t: string)
    requires NameCased(s) && NameCased(t) && Fold(s) == Fold(t)
    ensures s == t
  {
    if "%+" <= s {
      MarkedOrCased(s, t);
      MarkedOrCased(t, s);
      FoldedCased(s[2..], t[2..]);
      assert s == "%+" + s[2..] && t == "%+" + t[2..];
    } else {
      if "%+" <= t {
        MarkedOrCased(t, s);
      }
      FoldedCased(s, t);
    }
  }

  lemma FoldedPath(a: seq<string>, b: seq<string>)
    requires forall i :: 0 <= i < |a| ==> NameCased(a[i])
    requires forall i :: 0 <= i < |b| ==> NameCased(b[i])
    requires FoldAll(a) == FoldAll(b)
    ensures a == b
  {
    assert |a| == |FoldAll(a)| == |b|;
    forall i | 0 <= i < |a|
      ensures a[i] == b[i]
    {
      assert FoldAll(a)[i] == FoldAll(b)[i];
      FoldedName(a[i], b[i]);
    }
  }

  lemma DirectoryIsCased(url: seq<byte>)
    ensures var dir := OnDisk(CacheRoot(url)); forall i :: 0 <= i < |dir| ==> NameCased(dir[i])
  {
    DirectoryIsKept(url);
    AllKeptAreCased(Pieces(url));
    assert WellCased("@");
  }

  // ---------------------------------------------------------------- when two sources share a directory

  /** Two sources share a directory if and only if what their pieces keep is the same; and case does
      not matter. */
  lemma SameDirectoryIff(u: seq<byte>, v: seq<byte>)
    ensures OnDisk(CacheRoot(u)) == OnDisk(CacheRoot(v)) <==> AllKept(Pieces(u)) == AllKept(Pieces(v))
    ensures FoldAll(OnDisk(CacheRoot(u))) == FoldAll(OnDisk(CacheRoot(v)))
      <==> OnDisk(CacheRoot(u)) == OnDisk(CacheRoot(v))
  {
    DirectoryIsKept(u);
    DirectoryIsKept(v);
    var a, b := AllKept(Pieces(u)), AllKept(Pieces(v));
    if a + ["@"] == b + ["@"] {
      assert a == (a + ["@"])[..|a|] && b == (b + ["@"])[..|b|] && |a| == |b|;
    }
    if FoldAll(OnDisk(CacheRoot(u))) == FoldAll(OnDisk(CacheRoot(v))) {
      DirectoryIsCased(u);
      DirectoryIsCased(v);
      FoldedPath(OnDisk(CacheRoot(u)), OnDisk(CacheRoot(v)));
    }
  }

  ghost predicate NoDots(pieces: seq<seq<byte>>) {
    forall i :: 0 <= i < |pieces| ==> !LeavesDots(pieces[i])
  }

  lemma {:induction false} NothingCancelled(pieces: seq<seq<byte>>)
    requires forall i :: 0 <= i < |pieces| ==> !LeavesDots(pieces[i])
    ensures AllKept(pieces) == PieceComponents(pieces)
  {
    if pieces == [] {
      assert PieceComponents(pieces) == [];
    } else {
      var piece, rest := pieces[0], pieces[1..];
      assert forall i :: 0 <= i < |rest| ==> rest[i] == pieces[i + 1];
      assert !LeavesDots(piece);
      assert Kept(piece) == Names(piece);
      assert AllKept(pieces) == Kept(piece) + AllKept(rest);
      hide *;
      PiecesFirst(pieces);
      NothingCancelled(rest);
    }
  }

  /** Two sources none of whose pieces leaves a tail of dots share a directory, folded or not, if and
      only if they are equal or one writes an empty scheme where the other writes none. */
  lemma PlainSourcesShareIff(u: seq<byte>, v: seq<byte>)
    requires NoDots(Pieces(u)) && NoDots(Pieces(v))
    ensures OnDisk(CacheRoot(u)) == OnDisk(CacheRoot(v)) <==> u == v || EmptyScheme(u, v) || EmptyScheme(v, u)
    ensures FoldAll(OnDisk(CacheRoot(u))) == FoldAll(OnDisk(CacheRoot(v)))
      <==> OnDisk(CacheRoot(u)) == OnDisk(CacheRoot(v))
  {
    SameDirectoryIff(u, v);
    DirectoryIsKept(u);
    DirectoryIsKept(v);
    NothingCancelled(Pieces(u));
    NothingCancelled(Pieces(v));
    SamePathIffSameSource(u, v);
  }

  // ---------------------------------------------------------------- no directory inside another

  lemma {:induction false} KeptNotClosing(pieces: seq<seq<byte>>)
    ensures NoClosing(AllKept(pieces))
  {
    if pieces != [] {
      var piece := pieces[0];
      TailFacts(piece);
      EncodeEncodes(piece);
      ComponentsNotClosing(Encode(piece));
      assert forall name :: name in Kept(piece) ==> name in Names(piece);
      KeptNotClosing(pieces[1..]);
    }
  }

  /** No source's directory lies inside another's. */
  lemma DirectoriesArePrefixFree(u: seq<byte>, v: seq<byte>)
    requires OnDisk(CacheRoot(u)) <= OnDisk(CacheRoot(v))
    ensures OnDisk(CacheRoot(u)) == OnDisk(CacheRoot(v))
  {
    DirectoryIsKept(u);
    DirectoryIsKept(v);
    KeptNotClosing(Pieces(v));
    var a, b := AllKept(Pieces(u)), AllKept(Pieces(v));
    forall i | 0 <= i < |b|
      ensures b[i] != "@"
    {
      assert b[i] in b;
    }
    assert (a + ["@"])[|a|] == "@" && (b + ["@"])[|a|] == "@";
  }

  lemma KeptIsPlain(piece: seq<byte>)
    ensures forall i :: 0 <= i < |Kept(piece)| ==> !IsDots(Kept(piece)[i])
  {
    TailFacts(piece);
    var names := Names(piece);
    forall i | 0 <= i < |Kept(piece)|
      ensures !IsDots(Kept(piece)[i])
    {
      if i < |names| - 1 {
        MarkedIsNotDots(names[i]);
      }
    }
  }

  lemma {:induction false} AllKeptArePlain(pieces: seq<seq<byte>>)
    ensures forall i :: 0 <= i < |AllKept(pieces)| ==> !IsDots(AllKept(pieces)[i])
  {
    if pieces != [] {
      KeptIsPlain(pieces[0]);
      AllKeptArePlain(pieces[1..]);
      hide Kept;
    }
  }

  /** No source leads out of the cache. */
  lemma StaysInside(url: seq<byte>)
    ensures ".." !in OnDisk(CacheRoot(url))
  {
    DirectoryIsKept(url);
    AllKeptArePlain(Pieces(url));
    assert !IsDots("@");
  }

  // ---------------------------------------------------------------- pieces that leave no trace

  /** A piece whose encoding is one full name and two dots. */
  predicate Vanishes(piece: seq<byte>) {
    |Encode(piece)| == MAX + 2 && |piece| >= 2 && piece[|piece| - 2..] == DotBytes(2)
  }

  lemma CutBeforeDots(enc: string)
    requires WholeEscapes(enc) && |enc| == MAX + 2 && enc[MAX..] == DotName(2)
    ensures Cut(enc) == MAX
  {
    assert enc[MAX] == enc[MAX..][0] && enc[MAX + 1] == enc[MAX..][1];
  }

  /** A piece keeps nothing if and only if it vanishes. */
  lemma KeepsNothingIff(piece: seq<byte>)
    ensures Kept(piece) == [] <==> Vanishes(piece)
  {
    var enc := Encode(piece);
    EncodedIsWhole(piece, true);
    TailFacts(piece);
    if Kept(piece) == [] {
      var n := Tail(piece);
      SplitTailIsDots(piece);
      assert n == 2 && |Names(piece)| == 2;
      var cut := Cut(enc);
      assert Components(enc)[1..] == Components(enc[cut..]);
      assert Components(enc[cut..]) == [enc[cut..]] && enc[cut..] == DotName(2);
      assert enc[cut] == enc[cut..][0];
    }
    if Vanishes(piece) {
      assert |piece| > 3;
      TailDots(piece, 2);
      CutBeforeDots(enc);
      assert TailLength(enc[MAX..]) == 2;
      assert Components(enc)[1..] == Components(enc[MAX..]);
    }
  }

  /** The pieces that leave a trace. */
  function Solid(pieces: seq<seq<byte>>): seq<seq<byte>> {
    if pieces == [] then []
    else if Vanishes(pieces[0]) then Solid(pieces[1..])
    else [pieces[0]] + Solid(pieces[1..])
  }

  ghost predicate OnlyVanishing(pieces: seq<seq<byte>>) {
    forall i :: 0 <= i < |pieces| ==> LeavesDots(pieces[i]) ==> Vanishes(pieces[i])
  }

  lemma {:induction false} SolidIsKept(pieces: seq<seq<byte>>)
    requires OnlyVanishing(pieces)
    ensures AllKept(pieces) == PieceComponents(Solid(pieces))
  {
    if pieces == [] {
      assert PieceComponents(pieces) == [];
    } else {
      var piece, rest, solid := pieces[0], pieces[1..], Solid(pieces[1..]);
      assert forall i :: 0 <= i < |rest| ==> rest[i] == pieces[i + 1];
      SolidIsKept(rest);
      KeepsNothingIff(piece);
      assert !LeavesDots(piece) ==> Kept(piece) == Names(piece);
      assert LeavesDots(piece) ==> Vanishes(piece);
      hide Kept;
      hide Names;
      hide PieceComponents;
      hide Vanishes;
      hide LeavesDots;
      PiecesFirst([piece] + solid);
      assert ([piece] + solid)[1..] == solid;
    }
  }

  lemma NamesInjective(a: seq<seq<byte>>, b: seq<seq<byte>>)
    requires PieceComponents(a) == PieceComponents(b)
    ensures a == b
  {
    hide PieceComponents;
    UnsplitsPath(a);
    UnsplitsPath(b);
    var x, y := EncodeAll(a) + ["@"], EncodeAll(b) + ["@"];
    assert x == y;
    assert x[..|x| - 1] == EncodeAll(a) && y[..|y| - 1] == EncodeAll(b);
    EncodeAllInjective(a, b);
  }

  /** Where the only tails of dots belong to vanishing pieces, two sources share a directory if and only
      if they have the same pieces apart from those. */
  lemma VanishingSourcesShareIff(u: seq<byte>, v: seq<byte>)
    requires OnlyVanishing(Pieces(u)) && OnlyVanishing(Pieces(v))
    ensures OnDisk(CacheRoot(u)) == OnDisk(CacheRoot(v)) <==> Solid(Pieces(u)) == Solid(Pieces(v))
  {
    SameDirectoryIff(u, v);
    SolidIsKept(Pieces(u));
    SolidIsKept(Pieces(v));
    if PieceComponents(Solid(Pieces(u))) == PieceComponents(Solid(Pieces(v))) {
      NamesInjective(Solid(Pieces(u)), Solid(Pieces(v)));
    }
  }

  lemma {:induction false} AllKeptAppend(a: seq<seq<byte>>, b: seq<seq<byte>>)
    ensures AllKept(a + b) == AllKept(a) + AllKept(b)
  {
    if a == [] {
      assert a + b == b;
    } else {
      assert (a + b)[0] == a[0] && (a + b)[1..] == a[1..] + b;
      AllKeptAppend(a[1..], b);
    }
  }

  lemma {:induction false} SplitSlashAppend(s: seq<byte>, piece: seq<byte>)
    requires SLASH !in piece
    ensures SplitSlash(s + [SLASH] + piece) == SplitSlash(s) + [piece]
  {
    var t := s + [SLASH] + piece;
    if s == [] {
      assert t[1..] == piece;
      NoSlash(piece);
    } else {
      assert t[0] == s[0] && t[1..] == s[1..] + [SLASH] + piece;
      SplitSlashAppend(s[1..], piece);
    }
  }

  lemma {:induction false} NoSlash(piece: seq<byte>)
    requires SLASH !in piece
    ensures SplitSlash(piece) == [piece]
  {
    if piece != [] {
      NoSlash(piece[1..]);
      assert piece == [piece[0]] + piece[1..];
    }
  }

  lemma {:induction false} SeparatorStays(url: seq<byte>, more: seq<byte>)
    requires HasScheme(url)
    ensures FindSeparator(url + more) == FindSeparator(url)
  {
    if url != [] && !(SEPARATOR <= url) {
      assert (url + more)[1..] == url[1..] + more;
      assert SEPARATOR <= url + more ==> |url| < 3;
      SeparatorStays(url[1..], more);
    }
  }

  /** A URL with a scheme shares its directory with the URL that names a vanishing piece below it. */
  lemma VanishingPieceShares(url: seq<byte>, piece: seq<byte>)
    requires HasScheme(url) && Vanishes(piece) && SLASH !in piece
    ensures OnDisk(CacheRoot(url + [SLASH] + piece)) == OnDisk(CacheRoot(url))
  {
    var more := [SLASH] + piece;
    var longer := url + more;
    assert longer == url + [SLASH] + piece;
    SeparatorStays(url, more);
    var i := FindSeparator(url);
    assert longer[i + 3..] == url[i + 3..] + [SLASH] + piece && longer[..i] == url[..i];
    SplitSlashAppend(url[i + 3..], piece);
    assert Pieces(longer) == Pieces(url) + [piece];
    AllKeptAppend(Pieces(url), [piece]);
    KeepsNothingIff(piece);
    assert [piece][1..] == [];
    SameDirectoryIff(longer, url);
  }

  // ---------------------------------------------------------------- an input

  function Ascii(s: string): seq<byte> {
    seq(|s|, i requires 0 <= i < |s| => if s[i] < 128 as char then s[i] as byte else 0)
  }

  const HOST := "https://h/o"

  /** 180 letters and two dots. */
  function LongPiece(): seq<byte> {
    seq(MAX, _ => 'a' as int) + [DOT, DOT]
  }

  lemma LongPieceVanishes()
    ensures Vanishes(LongPiece()) && SLASH !in LongPiece()
  {
    var letters: seq<byte> := seq(MAX, _ => 'a' as int);
    PlainBytes(letters, true);
    EncodeAppend(letters, [DOT, DOT], true);
    assert [DOT, DOT][1..] == [DOT] && [DOT][1..] == [];
    assert EncodeBytes([DOT], false) == ".";
    assert EncodeBytes([DOT, DOT], false) == "..";
    assert LongPiece()[MAX..] == [DOT, DOT] == DotBytes(2);
  }

  /** `https://h/o` and `https://h/o/aaa….` with 180 letters and two dots are two sources in one
      directory. */
  lemma TwoSourcesOneDirectory()
    ensures var u := Ascii(HOST); var v := u + [SLASH] + LongPiece();
      && OnDisk(CacheRoot(u)) == OnDisk(CacheRoot(v))
      && u != v && !EmptyScheme(u, v) && !EmptyScheme(v, u) && CacheRoot(u) != CacheRoot(v)
  {
    var u := Ascii(HOST);
    var v := u + [SLASH] + LongPiece();
    LongPieceVanishes();
    HostHasScheme();
    VanishingPieceShares(u, LongPiece());
    assert u[0] == 'h' as int && v[0] == u[0] && SEPARATOR[0] == ':' as int;
    assert |v| > |u|;
    SamePathIffSameSource(u, v);
  }

  lemma HostHasScheme()
    ensures HasScheme(Ascii(HOST))
  {
    var u := Ascii(HOST);
    assert u[5..][..3] == SEPARATOR;
    FindsBy(u, 5);
  }

  lemma {:induction false} FindsBy(url: seq<byte>, i: nat)
    requires i + 3 <= |url| && SEPARATOR <= url[i..]
    ensures FindSeparator(url) <= i
  {
    if i > 0 && !(SEPARATOR <= url) {
      assert url[1..][i - 1..] == url[i..];
      FindsBy(url[1..], i - 1);
    }
  }
}
