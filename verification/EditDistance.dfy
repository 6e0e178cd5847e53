/** Near-name detection: the two-row edit distance, and the closest candidate by it. */
module EditDistance {
  import opened Options
  import Utf8

  function Min(a: nat, b: nat): nat {
    if a <= b then a else b
  }

  function Cost(x: char, y: char): nat {
    if x != y then 1 else 0
  }

  function Init(s: string): string
    requires s != ""
  {
    s[..|s| - 1]
  }

  function Last(s: string): char
    requires s != ""
  {
    s[|s| - 1]
  }

  /** The recursive distance of Levenshtein. */
  function Lev(a: string, b: string): nat
    decreases |a| + |b|
  {
    if a == "" then |b|
    else if b == "" then |a|
    else Min(Min(Lev(Init(a), Init(b)) + Cost(Last(a), Last(b)), Lev(Init(a), b) + 1), Lev(a, Init(b)) + 1)
  }

  lemma LevOfPrefixes(a: string, b: string, i: nat, j: nat)
    requires i < |a| && j < |b|
    ensures Lev(a[..i + 1], b[..j + 1]) ==
      Min(Min(Lev(a[..i], b[..j]) + Cost(a[i], b[j]), Lev(a[..i], b[..j + 1]) + 1), Lev(a[..i + 1], b[..j]) + 1)
  {
    assert Init(a[..i + 1]) == a[..i] && Init(b[..j + 1]) == b[..j];
  }

  lemma FirstRow(a: string, b: string)
    ensures forall j :: 0 <= j <= |b| ==> Lev(a[..0], b[..j]) == j
  {
  }

  lemma FirstColumn(a: string, b: string, i: nat)
    requires i < |a|
    ensures Lev(a[..i + 1], b[..0]) == i + 1
  {
  }

  /** The row of distances from one prefix of `a` to the prefixes of `b`. */
  ghost predicate IsRow(row: seq<nat>, a: string, i: nat, b: string, n: nat)
    requires i <= |a| && n <= |b|
  {
    |row| == n + 1 && forall j :: 0 <= j <= n ==> row[j] == Lev(a[..i], b[..j])
  }

  /** Two rows are kept, the last one and the one being filled. */
  method EditDistance(a: string, b: string) returns (d: nat)
    ensures d == Lev(a, b)
  {
    hide Lev;
    var prev: seq<nat> := seq(|b| + 1, j => j);
    FirstRow(a, b);
    for i := 0 to |a|
      invariant IsRow(prev, a, i, b, |b|)
    {
      var cur: seq<nat> := [i + 1];
      FirstColumn(a, b, i);
      for j := 0 to |b|
        invariant IsRow(cur, a, i + 1, b, j)
      {
        LevOfPrefixes(a, b, i, j);
        cur := cur + [Min(Min(prev[j] + Cost(a[i], b[j]), prev[j + 1] + 1), cur[j] + 1)];
      }
      prev := cur;
    }
    assert a[..|a|] == a && b[..|b|] == b;
    d := prev[|b|];
  }

  // ---------------------------------------------------------------- a metric

  lemma {:induction false} LevZeroIffEqual(a: string, b: string)
    ensures Lev(a, b) == 0 <==> a == b
    decreases |a| + |b|
  {
    if a != "" && b != "" {
      LevZeroIffEqual(Init(a), Init(b));
      assert a == Init(a) + [Last(a)] && b == Init(b) + [Last(b)];
    }
  }

  lemma {:induction false} LevSymmetric(a: string, b: string)
    ensures Lev(a, b) == Lev(b, a)
    decreases |a| + |b|
  {
    if a != "" && b != "" {
      LevSymmetric(Init(a), Init(b));
      LevSymmetric(Init(a), b);
      LevSymmetric(a, Init(b));
    }
  }

  /** `q` is `p` with the part `x` after `u` replaced by `y`, each at most one character. */
  predicate EditAt(p: string, q: string, u: string, x: string, y: string, v: string) {
    p == u + x + v && q == u + y + v && |x| <= 1 && |y| <= 1 && x != y
  }

  /** One insertion, deletion or substitution. */
  ghost predicate IsEdit(p: string, q: string) {
    exists u, x, y, v :: EditAt(p, q, u, x, y, v)
  }

  lemma {:induction false} DroppingLast(a: string, c: string)
    requires a != ""
    ensures Lev(Init(a), c) <= Lev(a, c) + 1
    decreases |c|
  {
    if c != "" {
      DroppingLast(a, Init(c));
    }
  }

  lemma {:induction false} ReplacingLast(u: string, x: char, y: char, c: string)
    ensures Lev(u + [x], c) <= Lev(u + [y], c) + 1
    decreases |c|
  {
    assert Init(u + [x]) == u && Init(u + [y]) == u;
    if c != "" {
      ReplacingLast(u, x, y, Init(c));
    }
  }

  /** One edit changes a distance by at most one. */
  lemma {:induction false} EditMovesByOne(u: string, x: string, y: string, v: string, c: string)
    requires |x| <= 1 && |y| <= 1
    ensures Lev(u + x + v, c) <= Lev(u + y + v, c) + 1
    decreases |v| + |c|
  {
    var p, q := u + x + v, u + y + v;
    if v == "" {
      assert p == u + x && q == u + y;
      EditAtEnd(u, x, y, c);
    } else if c != "" {
      assert Init(p) == u + x + Init(v) && Init(q) == u + y + Init(v);
      EditMovesByOne(u, x, y, Init(v), Init(c));
      EditMovesByOne(u, x, y, Init(v), c);
      EditMovesByOne(u, x, y, v, Init(c));
      assert Last(p) == Last(v) && Last(q) == Last(v);
    }
  }

  lemma EditAtEnd(u: string, x: string, y: string, c: string)
    requires |x| <= 1 && |y| <= 1
    ensures Lev(u + x, c) <= Lev(u + y, c) + 1
  {
    if |x| == 1 && |y| == 1 {
      assert x == [x[0]] && y == [y[0]];
      ReplacingLast(u, x[0], y[0], c);
    } else if |y| == 1 {
      assert u + x == u && Init(u + y) == u;
      DroppingLast(u + y, c);
    } else if |x| == 1 {
      assert u + y == u && Init(u + x) == u;
    } else {
      assert x == y;
    }
  }

  /** A sequence of single edits from `a` to `b`. */
  ghost predicate IsChain(cs: seq<string>, a: string, b: string) {
    && cs != [] && cs[0] == a && cs[|cs| - 1] == b
    && forall i :: 0 < i < |cs| ==> IsEdit(cs[i - 1], cs[i])
  }

  /** No sequence of edits is shorter than the distance. */
  lemma {:induction false} NoShorterChain(cs: seq<string>, a: string, b: string)
    requires IsChain(cs, a, b)
    ensures Lev(a, b) <= |cs| - 1
  {
    if |cs| == 1 {
      LevZeroIffEqual(a, b);
    } else {
      NoShorterChain(cs[1..], cs[1], b);
      assert IsEdit(cs[0], cs[1]);
      var u, x, y, v :| EditAt(cs[0], cs[1], u, x, y, v);
      EditMovesByOne(u, x, y, v, b);
    }
  }

  lemma EditThenLast(p: string, q: string, z: char)
    requires IsEdit(p, q)
    ensures IsEdit(p + [z], q + [z])
  {
    var u, x, y, v :| EditAt(p, q, u, x, y, v);
    assert EditAt(p + [z], q + [z], u, x, y, v + [z]);
  }

  function Appended(cs: seq<string>, z: char): seq<string> {
    seq(|cs|, i requires 0 <= i < |cs| => cs[i] + [z])
  }

  lemma ChainThenLast(cs: seq<string>, a: string, b: string, z: char)
    requires IsChain(cs, a, b)
    ensures IsChain(Appended(cs, z), a + [z], b + [z])
  {
    forall i | 0 < i < |cs|
      ensures IsEdit(Appended(cs, z)[i - 1], Appended(cs, z)[i])
    {
      EditThenLast(cs[i - 1], cs[i], z);
    }
  }

  lemma ChainOn(cs: seq<string>, a: string, b: string, c: string)
    requires IsChain(cs, a, b) && IsEdit(b, c)
    ensures IsChain(cs + [c], a, c)
  {
  }

  lemma ChainFrom(cs: seq<string>, a: string, b: string, c: string)
    requires IsEdit(a, b) && IsChain(cs, b, c)
    ensures IsChain([a] + cs, a, c)
  {
  }

  lemma LastEdits(u: string, x: char, y: char)
    ensures IsEdit(u, u + [x]) && IsEdit(u + [x], u)
    ensures x != y ==> IsEdit(u + [x], u + [y])
  {
    assert EditAt(u, u + [x], u, "", [x], "") && EditAt(u + [x], u, u, [x], "", "");
    assert x != y ==> EditAt(u + [x], u + [y], u, [x], [y], "");
  }

  /** Some sequence of edits is as short as the distance. */
  lemma {:induction false} ShortestChain(a: string, b: string) returns (cs: seq<string>)
    ensures IsChain(cs, a, b) && |cs| == Lev(a, b) + 1
    decreases |a| + |b|
  {
    if a == "" && b == "" {
      cs := [a];
    } else if b != "" && (a == "" || Lev(a, b) == Lev(a, Init(b)) + 1) {
      assert b == Init(b) + [Last(b)];
      cs := ShortestChain(a, Init(b));
      LastEdits(Init(b), Last(b), Last(b));
      ChainOn(cs, a, Init(b), b);
      cs := cs + [b];
    } else if a != "" && (b == "" || Lev(a, b) == Lev(Init(a), b) + 1) {
      assert a == Init(a) + [Last(a)];
      cs := ShortestChain(Init(a), b);
      LastEdits(Init(a), Last(a), Last(a));
      ChainFrom(cs, a, Init(a), b);
      cs := [a] + cs;
    } else {
      assert a == Init(a) + [Last(a)] && b == Init(b) + [Last(b)];
      var before := ShortestChain(Init(a), Init(b));
      ChainThenLast(before, Init(a), Init(b), Last(a));
      cs := Appended(before, Last(a));
      if Last(a) != Last(b) {
        LastEdits(Init(b), Last(a), Last(b));
        ChainOn(cs, a, Init(b) + [Last(a)], b);
        cs := cs + [b];
      }
    }
  }

  lemma {:induction false} ChainTriangle(cs: seq<string>, a: string, b: string, c: string)
    requires IsChain(cs, a, b)
    ensures Lev(a, c) <= |cs| - 1 + Lev(b, c)
  {
    if |cs| > 1 {
      ChainTriangle(cs[1..], cs[1], b, c);
      assert IsEdit(cs[0], cs[1]);
      var u, x, y, v :| EditAt(cs[0], cs[1], u, x, y, v);
      EditMovesByOne(u, x, y, v, c);
    }
  }

  lemma LevTriangle(a: string, b: string, c: string)
    ensures Lev(a, c) <= Lev(a, b) + Lev(b, c)
  {
    var cs := ShortestChain(a, b);
    ChainTriangle(cs, a, b, c);
  }

  // ---------------------------------------------------------------- the nearest name

  function LowerAscii(c: char): char {
    if 'A' <= c <= 'Z' then ((c as int) + 32) as char else c
  }

  /** The spelling that is compared: lower case, without `-`, `_` and `.`. */
  function Key(s: string): string {
    if s == "" then ""
    else
      var c := LowerAscii(s[0]);
      (if c in "-_." then "" else [c]) + Key(s[1..])
  }

  /** The length of a string in UTF-8 bytes. */
  function ByteLength(s: string): nat {
    if s == "" then 0 else |Utf8.Encode(s[0] as int)| + ByteLength(s[1..])
  }

  function Distance(wanted: string, c: string): nat {
    Lev(Key(c), Key(wanted))
  }

  /** A candidate within two edits and a third of the length, and not the name itself. */
  ghost predicate IsNear(wanted: string, c: string) {
    c != wanted && Distance(wanted, c) <= 2 && Distance(wanted, c) * 3 <= ByteLength(Key(wanted))
  }

  /** `c` ranks before `e`: closer, or as close and shorter. */
  ghost predicate Before(wanted: string, c: string, e: string) {
    || Distance(wanted, c) < Distance(wanted, e)
    || (Distance(wanted, c) == Distance(wanted, e) && ByteLength(c) < ByteLength(e))
  }

  /** The candidate at `k` is near, no near one ranks before it, and none as good stands before it. */
  ghost predicate IsNearest(wanted: string, candidates: seq<string>, k: nat)
    requires k < |candidates|
  {
    && IsNear(wanted, candidates[k])
    && forall j :: 0 <= j < |candidates| && IsNear(wanted, candidates[j]) ==>
         !Before(wanted, candidates[j], candidates[k])
         && (j < k ==> Before(wanted, candidates[k], candidates[j]))
  }

  lemma OneMore(wanted: string, candidates: seq<string>, c: string, k: nat)
    requires k < |candidates| && IsNearest(wanted, candidates, k)
    ensures IsNear(wanted, c) && Before(wanted, c, candidates[k]) ==>
      IsNearest(wanted, candidates + [c], |candidates|)
    ensures !IsNear(wanted, c) || !Before(wanted, c, candidates[k]) ==> IsNearest(wanted, candidates + [c], k)
  {
    var more := candidates + [c];
    hide Distance;
    hide IsNear;
    forall j | 0 <= j < |more|
      ensures more[j] == if j < |candidates| then candidates[j] else c
    {
    }
  }

  /** The first of the nearest candidates, if any is near. */
  method NearName(wanted: string, candidates: seq<string>) returns (r: Option<string>)
    ensures r.None? ==> forall c :: c in candidates ==> !IsNear(wanted, c)
    ensures r.Some? ==>
      exists k :: 0 <= k < |candidates| && candidates[k] == r.value && IsNearest(wanted, candidates, k)
  {
    hide Distance;
    hide Before;
    hide IsNear;
    hide IsNearest;
    hide Lev;
    r := None;
    var d: nat := 0;
    ghost var k := 0;
    for i := 0 to |candidates|
      invariant r.None? ==> forall c :: c in candidates[..i] ==> !IsNear(wanted, c)
      invariant r.Some? ==> k < i && candidates[k] == r.value && IsNearest(wanted, candidates[..i], k)
      invariant r.Some? ==> d == Distance(wanted, r.value)
    {
      var c := candidates[i];
      assert candidates[..i + 1] == candidates[..i] + [c];
      var dc := EditDistance(Key(c), Key(wanted));
      KnowsNear(wanted, c, dc);
      if r.Some? {
        OneMore(wanted, candidates[..i], c, k);
        KnowsBefore(wanted, c, dc, r.value, d);
      }
      if c != wanted && dc <= 2 && dc * 3 <= ByteLength(Key(wanted))
        && (r.None? || dc < d || (dc == d && ByteLength(c) < ByteLength(r.value)))
      {
        if r.None? {
          FirstNear(wanted, candidates[..i], c);
        }
        r, d, k := Some(c), dc, i;
      }
    }
    assert candidates[..|candidates|] == candidates;
  }

  lemma KnowsNear(wanted: string, c: string, d: nat)
    requires d == Lev(Key(c), Key(wanted))
    ensures d == Distance(wanted, c)
    ensures IsNear(wanted, c) <==> c != wanted && d <= 2 && d * 3 <= ByteLength(Key(wanted))
  {
  }

  lemma KnowsBefore(wanted: string, c: string, dc: nat, e: string, de: nat)
    requires dc == Distance(wanted, c) && de == Distance(wanted, e)
    ensures Before(wanted, c, e) <==> dc < de || (dc == de && ByteLength(c) < ByteLength(e))
  {
  }

  lemma FirstNear(wanted: string, candidates: seq<string>, c: string)
    requires IsNear(wanted, c) && forall e :: e in candidates ==> !IsNear(wanted, e)
    ensures IsNearest(wanted, candidates + [c], |candidates|)
  {
  }

  /** Names that are spelled alike after folding are near whatever their length; other names only
      when the wanted one is long enough. */
  lemma NearMeans(wanted: string, c: string)
    ensures Key(c) == Key(wanted) && c != wanted ==> IsNear(wanted, c)
    ensures IsNear(wanted, c) && ByteLength(Key(wanted)) < 3 ==> Key(c) == Key(wanted)
    ensures IsNear(wanted, c) ==> Distance(c, wanted) == Distance(wanted, c)
  {
    LevZeroIffEqual(Key(c), Key(wanted));
    LevSymmetric(Key(c), Key(wanted));
  }

  // ---------------------------------------------------------------- which names are spelled alike

  predicate IsMark(c: char) {
    c == '-' || c == '_' || c == '.'
  }

  /** The upper-case ASCII letter and its lower-case one. */
  predicate IsCapitalOf(c: char, d: char) {
    'A' <= c <= 'Z' && d as int - 'a' as int == c as int - 'A' as int
  }

  /** `b` is `a` without one of the marks, or with one ASCII capital made small. */
  ghost predicate Simplifies(a: string, b: string) {
    exists i :: 0 <= i < |a| &&
      ((IsMark(a[i]) && b == a[..i] + a[i + 1..])
       || (|b| == |a| && IsCapitalOf(a[i], b[i]) && b == a[..i] + [b[i]] + a[i + 1..]))
  }

  ghost predicate IsNextSpelling(a: string, b: string) {
    Simplifies(a, b) || Simplifies(b, a)
  }

  /** A way from `a` to `b` by such changes, either way round. */
  ghost predicate IsRespelling(cs: seq<string>, a: string, b: string) {
    && cs != [] && cs[0] == a && cs[|cs| - 1] == b
    && forall i :: 0 < i < |cs| ==> IsNextSpelling(cs[i - 1], cs[i])
  }

  lemma {:induction false} KeyAppend(a: string, b: string)
    ensures Key(a + b) == Key(a) + Key(b)
  {
    if a == "" {
      assert a + b == b;
    } else {
      assert (a + b)[0] == a[0] && (a + b)[1..] == a[1..] + b;
      KeyAppend(a[1..], b);
    }
  }

  lemma KeyOne(c: char)
    ensures IsMark(c) ==> Key([c]) == ""
    ensures forall d :: IsCapitalOf(c, d) ==> Key([c]) == Key([d])
  {
    assert [c][1..] == "";
    forall d | IsCapitalOf(c, d)
      ensures Key([c]) == Key([d])
    {
      assert [d][1..] == "" && d as int == c as int + 32;
      assert LowerAscii(c) == d == LowerAscii(d);
    }
  }

  lemma SimplerHasKey(a: string, b: string)
    requires Simplifies(a, b)
    ensures Key(a) == Key(b)
  {
    var i :| 0 <= i < |a| &&
      ((IsMark(a[i]) && b == a[..i] + a[i + 1..])
       || (|b| == |a| && IsCapitalOf(a[i], b[i]) && b == a[..i] + [b[i]] + a[i + 1..]));
    var x, y := a[..i], a[i + 1..];
    assert a == x + [a[i]] + y;
    hide *;
    if IsMark(a[i]) && b == x + y {
      DropKeepsKey(x, a[i], y);
    } else {
      SmallKeepsKey(x, a[i], b[i], y);
    }
  }

  lemma DropKeepsKey(x: string, c: char, y: string)
    requires IsMark(c)
    ensures Key(x + [c] + y) == Key(x + y)
  {
    KeyOne(c);
    hide *;
    KeyAround(x, [c], y);
    KeyAppend(x, y);
    assert Key(x) + "" + Key(y) == Key(x) + Key(y);
  }

  lemma SmallKeepsKey(x: string, c: char, d: char, y: string)
    requires IsCapitalOf(c, d)
    ensures Key(x + [c] + y) == Key(x + [d] + y)
  {
    KeyOne(c);
    hide *;
    KeyAround(x, [c], y);
    KeyAround(x, [d], y);
  }

  lemma KeyAround(x: string, c: string, y: string)
    ensures Key(x + c + y) == Key(x) + Key(c) + Key(y)
  {
    hide Key;
    KeyAppend(x + c, y);
    KeyAppend(x, c);
  }

  lemma {:induction false} RespellingKeepsKey(cs: seq<string>, a: string, b: string)
    requires IsRespelling(cs, a, b)
    ensures Key(a) == Key(b)
    decreases |cs|
  {
    if |cs| > 1 {
      var before := cs[..|cs| - 1];
      assert IsRespelling(before, a, cs[|cs| - 2]);
      RespellingKeepsKey(before, a, cs[|cs| - 2]);
      assert IsNextSpelling(cs[|cs| - 2], cs[|cs| - 1]);
      if Simplifies(cs[|cs| - 2], b) {
        SimplerHasKey(cs[|cs| - 2], b);
      } else {
        SimplerHasKey(b, cs[|cs| - 2]);
      }
    }
  }

  /** From `done + s` the way leads on to `done + Key(s)`. */
  lemma {:induction false} LeadsToKey(done: string, s: string) returns (cs: seq<string>)
    ensures IsRespelling(cs, done + s, done + Key(s))
    decreases |s|
  {
    if s == "" {
      cs := [done + s];
    } else {
      var c, rest := LowerAscii(s[0]), s[1..];
      assert Key(s) == (if c in "-_." then "" else [c]) + Key(rest);
      assert IsMark(c) <==> c in "-_.";
      assert IsMark(s[0]) ==> c == s[0];
      if IsMark(s[0]) {
        cs := LeadsToKey(done, rest);
        DropStep(done, s);
        cs := JoinedWays(done + s, cs, done + rest, done + Key(rest));
        assert Key(s) == Key(rest);
      } else {
        hide *;
        cs := LeadsToKey(done + [c], rest);
        assert done + [c] + Key(rest) == done + ([c] + Key(rest));
        if c != s[0] {
          LowerStep(done, s);
          cs := JoinedWays(done + s, cs, done + [c] + rest, done + [c] + Key(rest));
        } else {
          assert done + [c] + rest == done + s;
        }
      }
    }
  }

  lemma JoinedWays(a: string, rest: seq<string>, b: string, c: string) returns (cs: seq<string>)
    requires IsNextSpelling(a, b) && IsRespelling(rest, b, c)
    ensures IsRespelling(cs, a, c)
  {
    cs := [a] + rest;
  }

  lemma DropStep(done: string, s: string)
    requires s != "" && IsMark(s[0])
    ensures IsNextSpelling(done + s, done + s[1..])
  {
    var a := done + s;
    assert a[|done|] == s[0] && a[..|done|] == done && a[|done| + 1..] == s[1..];
    assert Simplifies(a, done + s[1..]);
  }

  lemma LowerStep(done: string, s: string)
    requires s != "" && LowerAscii(s[0]) != s[0]
    ensures IsNextSpelling(done + s, done + [LowerAscii(s[0])] + s[1..])
  {
    var a, b := done + s, done + [LowerAscii(s[0])] + s[1..];
    assert a[|done|] == s[0] && b[|done|] == LowerAscii(s[0]) && a[..|done|] == done && a[|done| + 1..] == s[1..];
    assert IsCapitalOf(a[|done|], b[|done|]);
    assert Simplifies(a, b);
  }

  lemma Backwards(cs: seq<string>, a: string, b: string) returns (back: seq<string>)
    requires IsRespelling(cs, a, b)
    ensures IsRespelling(back, b, a)
  {
    back := seq(|cs|, i requires 0 <= i < |cs| => cs[|cs| - 1 - i]);
    forall i | 0 < i < |back|
      ensures IsNextSpelling(back[i - 1], back[i])
    {
      assert IsNextSpelling(cs[|cs| - 1 - i], cs[|cs| - i]);
    }
  }

  lemma Onwards(x: seq<string>, y: seq<string>, a: string, b: string, c: string) returns (cs: seq<string>)
    requires IsRespelling(x, a, b) && IsRespelling(y, b, c)
    ensures IsRespelling(cs, a, c)
  {
    cs := x + y[1..];
    forall i | 0 < i < |cs|
      ensures IsNextSpelling(cs[i - 1], cs[i])
    {
      if i >= |x| {
        assert IsNextSpelling(y[i - |x|], y[i - |x| + 1]);
        assert cs[i] == y[i - |x| + 1] && cs[i - 1] == y[i - |x|];
      } else {
        assert IsNextSpelling(x[i - 1], x[i]);
      }
    }
  }

  /** Two names have one key if and only if one is made from the other by changing the case of ASCII
      letters and adding and dropping `-`, `_` and `.`. */
  lemma SameKeyIff(a: string, b: string)
    ensures Key(a) == Key(b) <==> exists cs :: IsRespelling(cs, a, b)
  {
    if Key(a) == Key(b) {
      var x := LeadsToKey("", a);
      var y := LeadsToKey("", b);
      assert "" + a == a && "" + b == b && "" + Key(a) == Key(a);
      var back := Backwards(y, b, Key(b));
      var cs := Onwards(x, back, a, Key(a), b);
    }
    forall cs | IsRespelling(cs, a, b)
      ensures Key(a) == Key(b)
    {
      RespellingKeepsKey(cs, a, b);
    }
  }

  function Points(s: string): seq<int> {
    seq(|s|, i requires 0 <= i < |s| => s[i] as int)
  }

  /** The length compared is that of the UTF-8 text. */
  lemma {:induction false} ByteLengthIs(s: string)
    ensures ByteLength(s) == |Utf8.EncodeAll(Points(s))|
  {
    if s != "" {
      assert Points(s)[1..] == Points(s[1..]);
      ByteLengthIs(s[1..]);
    }
  }
}
