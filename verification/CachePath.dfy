/** The names that lead to the checkouts of one source: every piece of its URL becomes one or more
    directory names, and `@` closes them. Two sources have different sequences of names, folded or
    not, apart from one spelling, and no sequence begins another. Which directory the names lead to
    is in `CacheDirectory`: the split of a long piece can leave a name that means another directory. */
module CachePath {
  type byte = x: int | 0 <= x < 256

  const SLASH: byte := '/' as int
  const DOT: byte := '.' as int

  /** The longest directory name one piece is written as before it is split. */
  const MAX := 180

  // ---------------------------------------------------------------- one piece

  function HexDigit(n: int): char
    requires 0 <= n < 16
  {
    if n < 10 then ('0' as int + n) as char else ('A' as int + n - 10) as char
  }

  predicate Plain(b: byte) {
    'a' as int <= b <= 'z' as int || '0' as int <= b <= '9' as int || b == '-' as int || b == '_' as int
  }

  function EncodeByte(b: byte, first: bool): string {
    if Plain(b) || (b == DOT && !first) then [b as char]
    else ['%', HexDigit(b / 16), HexDigit(b % 16)]
  }

  function EncodeBytes(s: seq<byte>, first: bool): string {
    if s == [] then "" else EncodeByte(s[0], first) + EncodeBytes(s[1..], false)
  }

  function Encode(piece: seq<byte>): string {
    if piece == [] then "%" else EncodeBytes(piece, true)
  }

  /** Every `%` starts an escape that ends inside the string. */
  ghost predicate WholeEscapes(enc: string) {
    forall p :: 0 <= p < |enc| && enc[p] == '%' ==> p + 2 < |enc| && IsHex(enc[p + 1]) && IsHex(enc[p + 2])
  }

  predicate IsHex(c: char) {
    '0' <= c <= '9' || 'A' <= c <= 'F'
  }

  predicate InAlphabet(c: char) {
    'a' <= c <= 'z' || c == '-' || c == '_' || c == '.' || c == '%' || IsHex(c)
  }

  lemma {:induction false} EncodedIsWhole(s: seq<byte>, first: bool)
    ensures var enc := EncodeBytes(s, first);
      && WholeEscapes(enc) && (forall c :: c in enc ==> InAlphabet(c))
      && |s| <= |enc| <= 3 * |s| && (s != [] && first ==> enc[0] != '.')
  {
    if s != [] {
      EncodedIsWhole(s[1..], false);
      var head, tail := EncodeByte(s[0], first), EncodeBytes(s[1..], false);
      var enc := head + tail;
      forall p | 0 <= p < |enc| && enc[p] == '%'
        ensures p + 2 < |enc| && IsHex(enc[p + 1]) && IsHex(enc[p + 2])
      {
        if p >= |head| {
          assert tail[p - |head|] == '%';
        }
      }
    }
  }

  /** The split point nearest below `MAX` that is not inside an escape. */
  function Cut(enc: string): (cut: nat)
    requires |enc| > MAX
    ensures 178 <= cut <= 180
  {
    if enc[MAX - 1] == '%' then MAX - 1 else if enc[MAX - 2] == '%' then MAX - 2 else MAX
  }

  /** All but the last name of a piece are marked `%+`. */
  function Components(enc: string): seq<string> {
    if |enc| <= MAX then [enc] else ["%+" + enc[..Cut(enc)]] + Components(enc[Cut(enc)..])
  }

  lemma CutKeepsEscapes(enc: string)
    requires WholeEscapes(enc) && |enc| > MAX
    ensures WholeEscapes(enc[..Cut(enc)]) && WholeEscapes(enc[Cut(enc)..])
  {
    var cut := Cut(enc);
    assert enc[MAX - 2] == '%' ==> enc[MAX - 3] != '%' && enc[MAX - 4] != '%';
    assert enc[cut - 1] != '%' && enc[cut - 2] != '%';
  }

  lemma EncodeStep(piece: seq<byte>, i: nat)
    requires i < |piece|
    ensures EncodeBytes(piece[i..], i == 0) == EncodeByte(piece[i], i == 0) + EncodeBytes(piece[i + 1..], i + 1 == 0)
  {
    assert piece[i..][0] == piece[i] && piece[i..][1..] == piece[i + 1..];
  }

  method EncodePiece(piece: seq<byte>) returns (enc: string)
    ensures enc == Encode(piece)
  {
    enc := "";
    for i := 0 to |piece|
      invariant enc + EncodeBytes(piece[i..], i == 0) == EncodeBytes(piece, true)
    {
      EncodeStep(piece, i);
      enc := enc + EncodeByte(piece[i], i == 0);
    }
    assert EncodeBytes(piece[|piece|..], |piece| == 0) == "";
    EncodedIsWhole(piece, true);
    if enc == "" {
      enc := "%";
    }
  }

  /** Moves back from `MAX` until no escape is cut. */
  method SplitPoint(enc: string) returns (cut: nat)
    requires WholeEscapes(enc) && |enc| > MAX
    ensures cut == Cut(enc)
  {
    cut := MAX;
    assert enc[MAX - 2] == '%' ==> enc[MAX - 3] != '%' && enc[MAX - 4] != '%';
    while enc[cut - 1] == '%' || enc[cut - 2] == '%'
      invariant 178 <= cut <= MAX && Cut(enc) <= cut
      decreases cut
    {
      cut := cut - 1;
    }
  }

  method EncodeCacheComponent(piece: seq<byte>, out: seq<string>) returns (path: seq<string>)
    ensures path == out + Names(piece)
  {
    var enc := EncodePiece(piece);
    EncodedIsWhole(piece, true);
    path := out;
    while |enc| > MAX
      invariant |enc| > MAX ==> WholeEscapes(enc)
      invariant path + Components(enc) == out + Components(Encode(piece))
      decreases |enc|
    {
      var cut := SplitPoint(enc);
      CutKeepsEscapes(enc);
      path := path + ["%+" + enc[..cut]];
      enc := enc[cut..];
    }
    path := path + [enc];
  }

  // ---------------------------------------------------------------- one source

  const SEPARATOR: seq<byte> := [':' as int, '/' as int, '/' as int]

  /** The first place `SEPARATOR` occurs, or the length. */
  function FindSeparator(url: seq<byte>): (i: nat)
    ensures i <= |url|
  {
    if url == [] || SEPARATOR <= url then 0 else 1 + FindSeparator(url[1..])
  }

  /** `split_once("://")`: the scheme and the rest, or no scheme and the whole text. */
  function SplitUrl(url: seq<byte>): (seq<byte>, seq<byte>) {
    var i := FindSeparator(url);
    if i + 3 <= |url| then (url[..i], url[i + 3..]) else ([], url)
  }

  function SplitSlash(s: seq<byte>): (pieces: seq<seq<byte>>)
    ensures pieces != []
  {
    if s == [] then [[]]
    else
      var rest := SplitSlash(s[1..]);
      if s[0] == SLASH then [[]] + rest else [[s[0]] + rest[0]] + rest[1..]
  }

  function Join(pieces: seq<seq<byte>>): seq<byte> {
    if pieces == [] then [] else if |pieces| == 1 then pieces[0] else pieces[0] + [47] + Join(pieces[1..])
  }

  function Names(piece: seq<byte>): seq<string> {
    Components(Encode(piece))
  }

  function NamesOf(pieces: seq<seq<byte>>): seq<seq<string>> {
    seq(|pieces|, i requires 0 <= i < |pieces| => Names(pieces[i]))
  }

  function Flatten(groups: seq<seq<string>>): seq<string> {
    if groups == [] then [] else groups[0] + Flatten(groups[1..])
  }

  function PieceComponents(pieces: seq<seq<byte>>): seq<string> {
    Flatten(NamesOf(pieces))
  }

  lemma PiecesFirst(pieces: seq<seq<byte>>)
    requires pieces != []
    ensures PieceComponents(pieces) == Names(pieces[0]) + PieceComponents(pieces[1..])
  {
    hide Names;
    NamesOfRest(pieces);
    hide NamesOf;
  }

  lemma NamesOfRest(pieces: seq<seq<byte>>)
    requires pieces != []
    ensures NamesOf(pieces) != [] && NamesOf(pieces)[0] == Names(pieces[0]) && NamesOf(pieces)[1..] == NamesOf(pieces[1..])
  {
    hide Names;
    var a, b := NamesOf(pieces)[1..], NamesOf(pieces[1..]);
    forall i | 0 <= i < |b|
      ensures a[i] == b[i]
    {
      assert pieces[1..][i] == pieces[i + 1];
    }
    assert a == b;
  }

  /** The directory names below the cache, from the scheme to the closing `@`. */
  function CacheRoot(url: seq<byte>): seq<string> {
    var (scheme, rest) := SplitUrl(url);
    PieceComponents([scheme] + SplitSlash(rest)) + ["@"]
  }

  lemma {:induction false} FlattenAppend(groups: seq<seq<string>>, last: seq<string>)
    ensures Flatten(groups + [last]) == Flatten(groups) + last
  {
    if groups == [] {
      assert groups + [last] == [last] && [last][1..] == [];
    } else {
      FlattenAppend(groups[1..], last);
      assert (groups + [last])[1..] == groups[1..] + [last];
    }
  }

  lemma PiecesAppend(pieces: seq<seq<byte>>, last: seq<byte>)
    ensures PieceComponents(pieces + [last]) == PieceComponents(pieces) + Names(last)
  {
    hide Names;
    FlattenAppend(NamesOf(pieces), Names(last));
    assert NamesOf(pieces + [last]) == NamesOf(pieces) + [Names(last)];
  }

  /** The names of the scheme and of the first `i` pieces. */
  ghost function PathTo(scheme: seq<byte>, pieces: seq<seq<byte>>, i: nat): seq<string>
    requires i <= |pieces|
  {
    PieceComponents([scheme] + pieces[..i])
  }

  lemma PathStart(scheme: seq<byte>, pieces: seq<seq<byte>>)
    ensures PathTo(scheme, pieces, 0) == [] + Names(scheme)
  {
    PiecesAppend([], scheme);
    assert [] + [scheme] == [scheme] + pieces[..0];
  }

  lemma PathStep(scheme: seq<byte>, pieces: seq<seq<byte>>, i: nat)
    requires i < |pieces|
    ensures PathTo(scheme, pieces, i + 1) == PathTo(scheme, pieces, i) + Names(pieces[i])
  {
    hide PieceComponents;
    hide Names;
    PiecesAppend([scheme] + pieces[..i], pieces[i]);
    assert [scheme] + pieces[..i + 1] == ([scheme] + pieces[..i]) + [pieces[i]];
  }

  method DepCacheRoot(url: seq<byte>) returns (dir: seq<string>)
    ensures dir == CacheRoot(url)
  {
    var (scheme, rest) := SplitUrl(url);
    var pieces := SplitSlash(rest);
    dir := EncodeCacheComponent(scheme, []);
    PathStart(scheme, pieces);
    for i := 0 to |pieces|
      invariant dir == PathTo(scheme, pieces, i)
    {
      PathStep(scheme, pieces, i);
      dir := EncodeCacheComponent(pieces[i], dir);
    }
    assert pieces[..|pieces|] == pieces;
    dir := dir + ["@"];
  }

  // ---------------------------------------------------------------- reading a path back

  function Lower(c: char): char {
    if 'A' <= c <= 'Z' then (c as int + 32) as char else c
  }

  function Fold(s: string): string {
    seq(|s|, i requires 0 <= i < |s| => Lower(s[i]))
  }

  function FoldAll(path: seq<string>): seq<string> {
    seq(|path|, i requires 0 <= i < |path| => Fold(path[i]))
  }

  function HexValue(c: char): int {
    if '0' <= c <= '9' then c as int - '0' as int
    else if 'a' <= c <= 'f' then c as int - 'a' as int + 10
    else 0
  }

  function DecodeBytes(enc: string): seq<int> {
    if enc == "" then []
    else if enc[0] == '%' && |enc| >= 3 then [HexValue(enc[1]) * 16 + HexValue(enc[2])] + DecodeBytes(enc[3..])
    else [enc[0] as int] + DecodeBytes(enc[1..])
  }

  function Decode(enc: string): seq<int> {
    if enc == "%" then [] else DecodeBytes(enc)
  }

  lemma FoldAppend(a: string, b: string)
    ensures Fold(a + b) == Fold(a) + Fold(b)
  {
  }

  lemma {:induction false} DecodesBytes(s: seq<byte>, first: bool)
    ensures DecodeBytes(Fold(EncodeBytes(s, first))) == s
  {
    if s != [] {
      var head, tail := EncodeByte(s[0], first), EncodeBytes(s[1..], false);
      DecodesBytes(s[1..], false);
      FoldAppend(head, tail);
      DecodesByte(s[0], first, Fold(tail));
      hide DecodeBytes;
      hide Fold;
      hide EncodeByte;
    }
  }

  lemma DecodesByte(b: byte, first: bool, rest: string)
    ensures DecodeBytes(Fold(EncodeByte(b, first)) + rest) == [b] + DecodeBytes(rest)
  {
    var head := Fold(EncodeByte(b, first));
    assert (head + rest)[|head|..] == rest;
  }

  /** A piece is read back from its encoding, whatever happens to the case of its letters. */
  lemma DecodesPiece(piece: seq<byte>)
    ensures Decode(Fold(Encode(piece))) == piece
  {
    DecodesBytes(piece, true);
    EncodedIsWhole(piece, true);
  }

  /** The pieces of a path: a name marked `%+` is continued by the next one. */
  function Unsplit(path: seq<string>): seq<string> {
    if path == [] then []
    else
      var rest := Unsplit(path[1..]);
      if "%+" <= path[0] && rest != [] then [path[0][2..] + rest[0]] + rest[1..]
      else [path[0]] + rest
  }

  ghost predicate Encoded(enc: string) {
    WholeEscapes(enc) || enc == "%"
  }

  lemma EncodeEncodes(piece: seq<byte>)
    ensures Encoded(Encode(piece)) && forall c :: c in Encode(piece) ==> InAlphabet(c)
  {
    EncodedIsWhole(piece, true);
  }

  lemma FoldAllCons(name: string, more: seq<string>)
    ensures FoldAll([name] + more) == [Fold(name)] + FoldAll(more)
  {
    assert ([name] + more)[1..] == more;
  }

  lemma FoldCut(enc: string, cut: nat)
    requires cut <= |enc|
    ensures Fold("%+" + enc[..cut])[2..] + Fold(enc[cut..]) == Fold(enc)
    ensures "%+" <= Fold("%+" + enc[..cut])
  {
  }

  lemma NotSplitMark(enc: string)
    requires Encoded(enc)
    ensures !("%+" <= Fold(enc))
  {
    var f := Fold(enc);
    if |f| >= 2 {
      assert f[0] == Lower(enc[0]) && f[1] == Lower(enc[1]);
      assert f[..2][0] == f[0] && f[..2][1] == f[1];
      assert "%+"[0] == '%' && "%+"[1] == '+';
    }
  }

  lemma {:induction false} UnsplitsPiece(enc: string, more: seq<string>)
    requires Encoded(enc)
    ensures Unsplit(FoldAll(Components(enc) + more)) == [Fold(enc)] + Unsplit(FoldAll(more))
    decreases |enc|
  {
    if |enc| <= MAX {
      FoldAllCons(enc, more);
      NotSplitMark(enc);
      assert ([Fold(enc)] + FoldAll(more))[1..] == FoldAll(more);
    } else {
      var cut := Cut(enc);
      CutKeepsEscapes(enc);
      UnsplitsPiece(enc[cut..], more);
      hide Unsplit;
      hide Fold;
      hide FoldAll;
      UnsplitsCut(enc, more, cut);
    }
  }

  /** A marked name is joined with the first of what follows. */
  lemma UnsplitsMark(name: string, path: seq<string>)
    requires "%+" <= name && Unsplit(path) != []
    ensures Unsplit([name] + path) == [name[2..] + Unsplit(path)[0]] + Unsplit(path)[1..]
  {
    assert ([name] + path)[1..] == path;
  }

  /** The first name of a long piece is joined with what the rest reads as. */
  lemma UnsplitsCut(enc: string, more: seq<string>, cut: nat)
    requires Encoded(enc) && |enc| > MAX && cut == Cut(enc)
    requires Unsplit(FoldAll(Components(enc[cut..]) + more)) == [Fold(enc[cut..])] + Unsplit(FoldAll(more))
    ensures Unsplit(FoldAll(Components(enc) + more)) == [Fold(enc)] + Unsplit(FoldAll(more))
  {
    assert cut <= |enc|;
    hide *;
    var name, rest := "%+" + enc[..cut], Components(enc[cut..]) + more;
    ComponentsCut(enc, more, cut);
    FoldAllCons(name, rest);
    FoldCut(enc, cut);
    var un, tail := Unsplit(FoldAll(rest)), Unsplit(FoldAll(more));
    assert un == [Fold(enc[cut..])] + tail && un[1..] == tail;
    UnsplitsMark(Fold(name), FoldAll(rest));
  }

  lemma ComponentsCut(enc: string, more: seq<string>, cut: nat)
    requires |enc| > MAX && cut == Cut(enc)
    ensures Components(enc) + more == ["%+" + enc[..cut]] + (Components(enc[cut..]) + more)
  {
    var name, rest := "%+" + enc[..cut], Components(enc[cut..]);
    assert Components(enc) == [name] + rest;
    hide Components;
    assert ([name] + rest) + more == [name] + (rest + more);
  }

  function EncodeAll(pieces: seq<seq<byte>>): seq<string> {
    if pieces == [] then [] else [Fold(Encode(pieces[0]))] + EncodeAll(pieces[1..])
  }

  lemma {:induction false} UnsplitsPath(pieces: seq<seq<byte>>)
    ensures Unsplit(FoldAll(PieceComponents(pieces) + ["@"])) == EncodeAll(pieces) + ["@"]
  {
    if pieces == [] {
      assert PieceComponents(pieces) + ["@"] == ["@"];
      assert Fold("@") == "@";
      assert FoldAll(["@"]) == ["@"];
      assert ["@"][1..] == [];
    } else {
      EncodeEncodes(pieces[0]);
      PiecesFirst(pieces);
      UnsplitsPath(pieces[1..]);
      var more := PieceComponents(pieces[1..]) + ["@"];
      UnsplitsPiece(Encode(pieces[0]), more);
      assert PieceComponents(pieces) + ["@"] == Components(Encode(pieces[0])) + more;
    }
  }

  lemma {:induction false} EncodeAllInjective(a: seq<seq<byte>>, b: seq<seq<byte>>)
    requires EncodeAll(a) == EncodeAll(b)
    ensures a == b
  {
    if a != [] && b != [] {
      assert EncodeAll(a)[0] == EncodeAll(b)[0];
      assert EncodeAll(a)[1..] == EncodeAll(b)[1..];
      DecodesPiece(a[0]);
      DecodesPiece(b[0]);
      EncodeAllInjective(a[1..], b[1..]);
    }
  }

  lemma {:induction false} JoinsSplit(s: seq<byte>)
    ensures Join(SplitSlash(s)) == s
  {
    if s != [] {
      JoinsSplit(s[1..]);
      var rest, all := SplitSlash(s[1..]), SplitSlash(s);
      if s[0] == SLASH {
        assert all[1..] == rest;
      } else if |rest| > 1 {
        assert all[1..] == rest[1..];
      }
    }
  }

  // ---------------------------------------------------------------- the main results

  /** Two URLs with one path, even up to case, have the same scheme and the same rest. */
  lemma SamePathSameParts(u: seq<byte>, v: seq<byte>)
    requires FoldAll(CacheRoot(u)) == FoldAll(CacheRoot(v))
    ensures SplitUrl(u) == SplitUrl(v)
  {
    var a := [SplitUrl(u).0] + SplitSlash(SplitUrl(u).1);
    var b := [SplitUrl(v).0] + SplitSlash(SplitUrl(v).1);
    UnsplitsPath(a);
    UnsplitsPath(b);
    var x, y := EncodeAll(a) + ["@"], EncodeAll(b) + ["@"];
    assert x == y;
    assert x[..|x| - 1] == EncodeAll(a) && y[..|y| - 1] == EncodeAll(b);
    EncodeAllInjective(a, b);
    assert a[1..] == b[1..] && a[0] == b[0];
    assert a[1..] == SplitSlash(SplitUrl(u).1) && b[1..] == SplitSlash(SplitUrl(v).1);
    JoinsSplit(SplitUrl(u).1);
    JoinsSplit(SplitUrl(v).1);
  }

  lemma SliceOfRest(s: seq<byte>, i: nat, j: nat)
    requires s != [] && i <= j <= |s| - 1
    ensures s[1..][i..j] == s[i + 1..j + 1]
  {
  }

  lemma {:induction false} SeparatorFound(url: seq<byte>)
    ensures var i := FindSeparator(url);
      && (i + 3 <= |url| ==> url[i..i + 3] == SEPARATOR)
      && (i + 3 > |url| ==> i == |url|)
  {
    if url != [] && !(SEPARATOR <= url) {
      SeparatorFound(url[1..]);
      var i := FindSeparator(url[1..]);
      if i + 3 <= |url[1..]| {
        SliceOfRest(url, i, i + 3);
      }
    }
  }

  predicate HasScheme(url: seq<byte>) {
    FindSeparator(url) + 3 <= |url|
  }

  /** `url` is `other` with an empty scheme written before it. */
  predicate EmptyScheme(url: seq<byte>, other: seq<byte>) {
    url == SEPARATOR + other && !HasScheme(other)
  }

  lemma SplitWritten(url: seq<byte>)
    ensures var (scheme, rest) := SplitUrl(url); url == if HasScheme(url) then scheme + SEPARATOR + rest else rest
  {
    SeparatorFound(url);
    var i := FindSeparator(url);
    if HasScheme(url) {
      assert url == url[..i] + url[i..i + 3] + url[i + 3..];
    }
  }

  /** The sequence of names is injective up to one spelling: two URLs have the same, folded or not,
      exactly when they are equal or one writes an empty scheme (`://x`) where the other writes
      none (`x`). */
  lemma SamePathIffSameSource(u: seq<byte>, v: seq<byte>)
    ensures CacheRoot(u) == CacheRoot(v) <==> u == v || EmptyScheme(u, v) || EmptyScheme(v, u)
    ensures FoldAll(CacheRoot(u)) == FoldAll(CacheRoot(v)) <==> CacheRoot(u) == CacheRoot(v)
  {
    SplitWritten(u);
    SplitWritten(v);
    if FoldAll(CacheRoot(u)) == FoldAll(CacheRoot(v)) {
      SamePathSameParts(u, v);
      if HasScheme(u) && !HasScheme(v) {
        assert u == SEPARATOR + v;
      } else if HasScheme(v) && !HasScheme(u) {
        assert v == SEPARATOR + u;
      }
    }
    if EmptyScheme(u, v) {
      EmptySchemeSplits(u, v);
    }
    if EmptyScheme(v, u) {
      EmptySchemeSplits(v, u);
    }
  }

  lemma EmptySchemeSplits(url: seq<byte>, other: seq<byte>)
    requires EmptyScheme(url, other)
    ensures SplitUrl(url) == SplitUrl(other)
  {
    assert FindSeparator(url) == 0;
    assert url[3..] == other;
  }

  ghost predicate NoClosing(path: seq<string>) {
    forall c :: c in path ==> c != "@"
  }

  lemma {:induction false} ComponentsNotClosing(enc: string)
    requires forall c :: c in enc ==> InAlphabet(c)
    ensures NoClosing(Components(enc))
    decreases |enc|
  {
    if |enc| <= MAX {
      assert enc != "" ==> InAlphabet(enc[0]);
    } else {
      ComponentsNotClosing(enc[Cut(enc)..]);
      assert ("%+" + enc[..Cut(enc)])[0] == '%' && "@"[0] == '@';
    }
  }

  lemma {:induction false} PathNotClosing(pieces: seq<seq<byte>>)
    ensures NoClosing(PieceComponents(pieces))
  {
    if pieces != [] {
      EncodeEncodes(pieces[0]);
      ComponentsNotClosing(Encode(pieces[0]));
      PiecesFirst(pieces);
      PathNotClosing(pieces[1..]);
    }
  }

  lemma ClosesOnce(url: seq<byte>)
    ensures var path := CacheRoot(url);
      path[|path| - 1] == "@" && forall i :: 0 <= i < |path| - 1 ==> path[i] != "@"
  {
    var names := PieceComponents([SplitUrl(url).0] + SplitSlash(SplitUrl(url).1));
    PathNotClosing([SplitUrl(url).0] + SplitSlash(SplitUrl(url).1));
    assert CacheRoot(url) == names + ["@"];
    forall i | 0 <= i < |names|
      ensures names[i] != "@"
    {
      assert names[i] in names;
    }
  }

  /** A sequence of names that begins another is that sequence. */
  lemma PathsArePrefixFree(u: seq<byte>, v: seq<byte>)
    requires CacheRoot(u) <= CacheRoot(v)
    ensures CacheRoot(u) == CacheRoot(v)
  {
    ClosesOnce(u);
    ClosesOnce(v);
    var a, b := CacheRoot(u), CacheRoot(v);
    assert a[|a| - 1] == b[|a| - 1];
  }

  // ---------------------------------------------------------------- plain directory names

  /** A name that is one directory below the one it is looked up in: not empty, no separator, not too
      long, and not one of the two names that mean another directory. */
  ghost predicate DirectoryName(name: string) {
    0 < |name| <= 182 && '/' !in name && '\\' !in name && name != "." && name != ".."
  }

  /** How many characters the last name of a piece has. */
  function TailLength(enc: string): (n: nat)
    ensures n <= |enc|
  {
    if |enc| <= MAX then |enc| else TailLength(enc[Cut(enc)..])
  }

  lemma {:induction false} TailIsLast(enc: string)
    ensures var names := Components(enc);
      && TailLength(enc) <= |enc|
      && names[|names| - 1] == enc[|enc| - TailLength(enc)..]
      && (forall i :: 0 <= i < |names| - 1 ==> "%+" <= names[i] && |names[i]| <= MAX + 2)
      && (forall i :: 0 <= i < |names| - 1 ==> forall c :: c in names[i] ==> c == '%' || c == '+' || c in enc)
      && TailLength(enc) <= MAX
    decreases |enc|
  {
    if |enc| > MAX {
      var rest := enc[Cut(enc)..];
      TailIsLast(rest);
      var names := Components(enc);
      assert names[1..] == Components(rest);
      forall i | 0 <= i < |names| - 1
        ensures "%+" <= names[i] && |names[i]| <= MAX + 2
        ensures forall c :: c in names[i] ==> c == '%' || c == '+' || c in enc
      {
        if i > 0 {
          assert names[i] == Components(rest)[i - 1];
        }
      }
    }
  }

  /** What goes wrong in a split: it leaves at most two bytes for the last name, and they are
      dots. */
  predicate LeavesDots(piece: seq<byte>) {
    var enc := Encode(piece);
    var n := TailLength(enc);
    |enc| > MAX && n <= 2 && n <= |piece| && piece[|piece| - n..] == DotBytes(n)
  }

  function DotBytes(n: nat): seq<byte> {
    seq(n, _ => DOT)
  }

  function DotName(n: nat): string {
    seq(n, _ => '.')
  }

  lemma {:induction false} EncodeAppendRest(s: seq<byte>, t: seq<byte>)
    ensures EncodeBytes(s + t, false) == EncodeBytes(s, false) + EncodeBytes(t, false)
  {
    if s == [] {
      assert s + t == t;
    } else {
      assert (s + t)[0] == s[0] && (s + t)[1..] == s[1..] + t;
      EncodeAppendRest(s[1..], t);
    }
  }

  lemma EncodeAppend(s: seq<byte>, t: seq<byte>, first: bool)
    requires s != []
    ensures EncodeBytes(s + t, first) == EncodeBytes(s, first) + EncodeBytes(t, false)
  {
    var head := EncodeByte(s[0], first);
    assert (s + t)[0] == s[0] && (s + t)[1..] == s[1..] + t;
    EncodeAppendRest(s[1..], t);
    assert EncodeBytes(s + t, first) == head + EncodeBytes(s[1..] + t, false);
  }

  /** The encoding ends in a dot exactly when the bytes do. */
  lemma EndsInDot(s: seq<byte>)
    requires |s| > 1
    ensures var enc, before := EncodeBytes(s, true), EncodeBytes(s[..|s| - 1], true);
      && |before| < |enc|
      && (enc[|enc| - 1] == '.' <==> s[|s| - 1] == DOT)
      && (s[|s| - 1] == DOT ==> enc == before + ".")
  {
    var last := s[|s| - 1..];
    EncodeAppend(s[..|s| - 1], last, true);
    assert s[..|s| - 1] + last == s;
    assert last[1..] == [];
    assert EncodeBytes(last, false) == EncodeByte(last[0], false);
  }

  /** The last `n` characters of a long piece's encoding are dots exactly when its last `n`
      bytes are, for the two tails that name another directory. */
  lemma TailDots(piece: seq<byte>, n: nat)
    requires 1 <= n <= 2 && |piece| > 3
    ensures var enc := EncodeBytes(piece, true);
      |enc| > n && (enc[|enc| - n..] == DotName(n) <==> piece[|piece| - n..] == DotBytes(n))
  {
    var enc := EncodeBytes(piece, true);
    var front := piece[..|piece| - 1];
    EncodedIsWhole(piece, true);
    EndsInDot(piece);
    EndsInDot(front);
    assert piece[|piece| - 2] == front[|front| - 1];
    if n == 1 {
      assert enc[|enc| - 1..] == [enc[|enc| - 1]] && piece[|piece| - 1..] == [piece[|piece| - 1]];
      assert DotName(1) == ['.'] && DotBytes(1) == [DOT];
    } else {
      assert enc[|enc| - 2..] == [enc[|enc| - 2], enc[|enc| - 1]];
      assert piece[|piece| - 2..] == [piece[|piece| - 2], piece[|piece| - 1]];
      assert DotName(2) == ['.', '.'] && DotBytes(2) == [DOT, DOT];
      if piece[|piece| - 1] == DOT {
        assert enc[|enc| - 2] == EncodeBytes(front, true)[|enc| - 2];
      }
    }
  }

  lemma PlainNames(name: string)
    requires forall c :: c in name ==> InAlphabet(c) || c == '+'
    ensures '/' !in name && '\\' !in name
  {
    assert !InAlphabet('/') && !InAlphabet('\\');
  }

  lemma MarkedNamesArePlain(enc: string, name: string)
    requires forall c :: c in enc ==> InAlphabet(c)
    requires name in Components(enc)[..|Components(enc)| - 1]
    ensures DirectoryName(name)
  {
    TailIsLast(enc);
    var i :| 0 <= i < |Components(enc)| - 1 && Components(enc)[i] == name;
    PlainNames(name);
    assert name[0] == '%' && "."[0] == '.' && ".."[0] == '.';
  }

  lemma LastNameIsNearlyPlain(enc: string)
    requires enc != "" && forall c :: c in enc ==> InAlphabet(c)
    ensures var last := enc[|enc| - TailLength(enc)..];
      && Components(enc)[|Components(enc)| - 1] == last
      && (DirectoryName(last) <==> last != "." && last != "..")
  {
    TailIsLast(enc);
    TailNotEmpty(enc);
    PlainNames(enc[|enc| - TailLength(enc)..]);
  }

  lemma DotNames(name: string)
    ensures name == "." || name == ".." <==> 1 <= |name| <= 2 && name == DotName(|name|)
  {
    assert DotName(1) == ".";
    assert DotName(2) == "..";
  }

  lemma UnsplitIsPlain(piece: seq<byte>)
    requires |Encode(piece)| <= MAX
    ensures Components(Encode(piece)) == [Encode(piece)] && DirectoryName(Encode(piece))
  {
    EncodedIsWhole(piece, true);
    LastNameIsNearlyPlain(Encode(piece));
    assert Encode(piece)[0] != '.' && "."[0] == '.' && ".."[0] == '.';
  }

  lemma SplitTailIsDots(piece: seq<byte>)
    requires |Encode(piece)| > MAX
    ensures var n := TailLength(Encode(piece));
      1 <= n <= |Encode(piece)| && (n <= 2 && Encode(piece)[|Encode(piece)| - n..] == DotName(n) <==> LeavesDots(piece))
  {
    var n := TailLength(Encode(piece));
    EncodedIsWhole(piece, true);
    TailNotEmpty(Encode(piece));
    assert |piece| >= 60;
    if n <= 2 {
      TailDots(piece, n);
    }
  }

  lemma SplitTailIsPlainExactly(piece: seq<byte>)
    requires |Encode(piece)| > MAX
    ensures DirectoryName(Encode(piece)[|Encode(piece)| - TailLength(Encode(piece))..]) <==> !LeavesDots(piece)
  {
    var enc := Encode(piece);
    assert enc != "";
    EncodedIsWhole(piece, true);
    assert forall c :: c in enc ==> InAlphabet(c);
    hide *;
    LastNameIsNearlyPlain(enc);
    SplitTailIsDots(piece);
    TailDecides(enc[|enc| - TailLength(enc)..], TailLength(enc), LeavesDots(piece));
  }

  lemma TailDecides(name: string, n: nat, leaves: bool)
    requires DirectoryName(name) <==> name != "." && name != ".."
    requires n == |name| && n >= 1 && (n <= 2 && name == DotName(n) <==> leaves)
    ensures DirectoryName(name) <==> !leaves
  {
    hide *;
    DotNames(name);
  }

  lemma LastNameIsPlainExactly(piece: seq<byte>)
    ensures var names := Names(piece);
      DirectoryName(names[|names| - 1]) <==> !LeavesDots(piece)
  {
    EncodedIsWhole(piece, true);
    assert Names(piece) == Components(Encode(piece));
    assert |Encode(piece)| <= MAX ==> !LeavesDots(piece);
    if |Encode(piece)| <= MAX {
      UnsplitIsPlain(piece);
    } else {
      LastNameIsNearlyPlain(Encode(piece));
      SplitTailIsPlainExactly(piece);
    }
    hide *;
  }

  /** Every name a piece is written as is a plain directory name, with one exception: a piece
      whose split leaves one or two dots. (An unsplit piece never leaves any: its first byte is
      escaped when it is a dot.) */
  lemma NamesArePlainExactly(piece: seq<byte>)
    ensures (forall name :: name in Components(Encode(piece)) ==> DirectoryName(name)) <==> !LeavesDots(piece)
  {
    var enc := Encode(piece);
    var names := Components(enc);
    var marked, last := names[..|names| - 1], names[|names| - 1];
    assert names == marked + [last];
    EncodedIsWhole(piece, true);
    LastNameIsPlainExactly(piece);
    forall name | name in marked
      ensures DirectoryName(name)
    {
      MarkedNamesArePlain(enc, name);
    }
    assert last in names;
  }

  lemma {:induction false} TailNotEmpty(enc: string)
    requires enc != ""
    ensures TailLength(enc) > 0
    decreases |enc|
  {
    if |enc| > MAX {
      TailNotEmpty(enc[Cut(enc)..]);
    }
  }

  lemma {:induction false} PlainBytes(s: seq<byte>, first: bool)
    requires forall b :: b in s ==> Plain(b)
    ensures |EncodeBytes(s, first)| == |s| && forall c :: c in EncodeBytes(s, first) ==> c != '%'
  {
    if s != [] {
      PlainBytes(s[1..], false);
    }
  }

  /** The exception is real: 180 letters and two dots. Its names are `%+aaa…` and `..`, so on
      disk its path leads back out of the directory the letters name. */
  lemma LongPieceCanLeaveDots()
    ensures exists piece :: LeavesDots(piece) && Components(Encode(piece))[1..] == [".."]
  {
    var letters: seq<byte> := seq(MAX, _ => 'a' as int);
    var piece: seq<byte> := letters + [DOT, DOT];
    PlainBytes(letters, true);
    EncodeAppend(letters, [DOT, DOT], true);
    assert [DOT, DOT][1..] == [DOT] && [DOT][1..] == [];
    assert EncodeBytes([DOT], false) == ".";
    assert EncodeBytes([DOT, DOT], false) == "..";
    var enc := Encode(piece);
    assert enc == EncodeBytes(letters, true) + "..";
    assert enc[MAX - 1] in EncodeBytes(letters, true) && enc[MAX - 2] in EncodeBytes(letters, true);
    assert Cut(enc) == MAX && enc[MAX..] == "..";
    assert TailLength(enc[MAX..]) == 2;
    assert piece[|piece| - 2..] == [DOT, DOT] == DotBytes(2);
    assert Components(enc)[1..] == Components(enc[MAX..]);
  }

  // ---------------------------------------------------------------- the spelling, by code points

  /** The bytes written as they are: `a` to `z`, `0` to `9`, `-`, `_`, and a dot that is not first. */
  ghost predicate IsWrittenAsIs(b: byte, first: bool) {
    97 <= b <= 122 || 48 <= b <= 57 || b == 45 || b == 95 || (b == 46 && !first)
  }

  ghost predicate IsHexOf(c: char, n: int) {
    (n <= 9 && c as int == 48 + n) || (n >= 10 && c as int == 65 + n - 10)
  }

  /** Any other byte is a `%` and two upper-case digits. */
  lemma SpelledByte(b: byte, first: bool)
    ensures IsWrittenAsIs(b, first) ==> EncodeByte(b, first) == [b as char]
    ensures !IsWrittenAsIs(b, first) ==>
      exists c, d :: EncodeByte(b, first) == [37 as char, c, d] && IsHexOf(c, b / 16) && IsHexOf(d, b % 16)
  {
    if !IsWrittenAsIs(b, first) {
      assert IsHexOf(HexDigit(b / 16), b / 16) && IsHexOf(HexDigit(b % 16), b % 16);
      assert EncodeByte(b, first) == [37 as char, HexDigit(b / 16), HexDigit(b % 16)];
    }
  }

  /** A piece is spelled byte by byte; an empty one is a lone `%`. */
  lemma SpelledPiece(piece: seq<byte>, b: byte)
    ensures Encode([]) == "%"
    ensures Encode([b]) == EncodeByte(b, true)
    ensures piece != [] ==> Encode(piece + [b]) == Encode(piece) + EncodeByte(b, false)
  {
    assert [b][1..] == [];
    assert EncodeBytes([b], false) == EncodeByte(b, false);
    if piece != [] {
      EncodeAppend(piece, [b], true);
    }
  }

  /** A spelling of up to 180 characters is one name; a longer one is more, and all but the last are
      marked and hold 178 to 180 of its characters. */
  lemma NamesOfSpelling(enc: string)
    ensures |enc| <= 180 ==> Components(enc) == [enc]
    ensures |enc| > 180 ==>
      exists cut :: 178 <= cut <= 180 && Components(enc) == ["%+" + enc[..cut]] + Components(enc[cut..])
  {
    if |enc| > 180 {
      assert Components(enc) == ["%+" + enc[..Cut(enc)]] + Components(enc[Cut(enc)..]);
    }
  }

  /** The scheme ends at the first `://`; without one there is none. */
  lemma {:induction false} SchemeEndsFirst(url: seq<byte>, j: nat)
    requires j + 3 <= |url| && url[j..j + 3] == [58, 47, 47]
    ensures FindSeparator(url) <= j && HasScheme(url)
    ensures url[FindSeparator(url)..][..3] == [58, 47, 47]
  {
    SeparatorFound(url);
    if j > 0 && !(SEPARATOR <= url) {
      SliceOfRest(url, j - 1, j + 2);
      SchemeEndsFirst(url[1..], j - 1);
    } else {
      assert j == 0 ==> url[..3] == url[0..3];
    }
  }

  lemma {:induction false} SchemeIsWritten(url: seq<byte>)
    requires HasScheme(url)
    ensures var i := FindSeparator(url);
      url[i..i + 3] == [58, 47, 47] && SplitUrl(url) == (url[..i], url[i + 3..])
  {
    SeparatorFound(url);
  }

  /** The pieces of the rest hold no `/`, and they are all that stands between them. */
  lemma {:induction false} PiecesHoldNoSlash(s: seq<byte>)
    ensures forall i :: 0 <= i < |SplitSlash(s)| ==> 47 !in SplitSlash(s)[i]
    ensures Join(SplitSlash(s)) == s
  {
    JoinsSplit(s);
    if s != [] {
      PiecesHoldNoSlash(s[1..]);
    }
  }
}
