/** The one-edit test behind "did you mean": equal but for one insertion, deletion, substitution or
    swap of neighbours, decided by comparing what follows the longest common prefix. */
module OneEdit {
  import opened EditDistance

  function CommonPrefix(a: string, b: string): (n: nat)
    ensures n <= |a| && n <= |b|
    ensures forall k :: 0 <= k < n ==> a[k] == b[k]
    ensures n < |a| && n < |b| ==> a[n] != b[n]
  {
    if a == "" || b == "" || a[0] != b[0] then 0 else 1 + CommonPrefix(a[1..], b[1..])
  }

  function WithinOneEdit(a: string, b: string): bool {
    a == b ||
    var prefix := CommonPrefix(a, b);
    var ra, rb := a[prefix..], b[prefix..];
    if |ra| == |rb| then
      ra[1..] == rb[1..] || (|ra| >= 2 && ra[0] == rb[1] && ra[1] == rb[0] && ra[2..] == rb[2..])
    else if |ra| == |rb| + 1 then ra[1..] == rb
    else if |ra| + 1 == |rb| then ra == rb[1..]
    else false
  }

  predicate SwapAt(a: string, b: string, u: string, x: char, y: char, v: string) {
    a == u + [x, y] + v && b == u + [y, x] + v
  }

  /** Two neighbouring characters are swapped. */
  ghost predicate IsSwap(a: string, b: string) {
    exists u, x, y, v :: SwapAt(a, b, u, x, y, v)
  }

  /** The prefix up to a first difference is the common one. */
  lemma PrefixIs(a: string, b: string, n: nat)
    requires n < |a| && n < |b| && a[..n] == b[..n] && a[n] != b[n]
    ensures CommonPrefix(a, b) == n
  {
    forall k | 0 <= k < n
      ensures a[k] == b[k]
    {
      assert a[..n][k] == b[..n][k];
    }
  }

  /** Inserting a character leaves the common prefix at or behind it, and the rest equal. */
  lemma InsertedIsWithin(u: string, c: char, v: string)
    ensures WithinOneEdit(u + v, u + [c] + v)
    ensures WithinOneEdit(u + [c] + v, u + v)
  {
    var a, b := u + v, u + [c] + v;
    InsertedRest(a, b, u, c, v, CommonPrefix(a, b));
    InsertedRest(a, b, u, c, v, CommonPrefix(b, a));
  }

  lemma InsertedRest(a: string, b: string, u: string, c: char, v: string, p: nat)
    requires a == u + v && b == u + [c] + v && p <= |a|
    requires forall k :: 0 <= k < p ==> a[k] == b[k]
    requires p < |a| ==> a[p] != b[p]
    ensures a[p..] == b[p + 1..]
  {
    forall k | 0 <= k < |u|
      ensures a[k] == b[k]
    {
    }
    forall k | p <= k < |a|
      ensures a[k] == b[k + 1]
    {
      assert k >= |u|;
    }
  }

  lemma ReplacedIsWithin(u: string, x: char, y: char, v: string)
    ensures WithinOneEdit(u + [x] + v, u + [y] + v)
  {
    var a, b := u + [x] + v, u + [y] + v;
    if x == y {
      assert a == b;
    } else {
      assert a[..|u|] == u && b[..|u|] == u;
      PrefixIs(a, b, |u|);
      assert a[|u|..][1..] == v && b[|u|..][1..] == v;
    }
  }

  lemma SwappedIsWithin(u: string, x: char, y: char, v: string)
    ensures WithinOneEdit(u + [x, y] + v, u + [y, x] + v)
  {
    var a, b := u + [x, y] + v, u + [y, x] + v;
    if x == y {
      assert a == b;
    } else {
      assert a[..|u|] == u && b[..|u|] == u;
      PrefixIs(a, b, |u|);
      assert a[|u|..][2..] == v && b[|u|..][2..] == v;
    }
  }

  lemma EditIsWithin(a: string, b: string)
    requires IsEdit(a, b)
    ensures WithinOneEdit(a, b)
  {
    var u, x, y, v :| EditAt(a, b, u, x, y, v);
    hide WithinOneEdit;
    if |x| == 1 && |y| == 1 {
      assert x == [x[0]] && y == [y[0]];
      ReplacedIsWithin(u, x[0], y[0], v);
    } else if |x| == 1 {
      assert x == [x[0]] && u + y + v == u + v;
      InsertedIsWithin(u, x[0], v);
    } else {
      assert y == [y[0]] && u + x + v == u + v;
      InsertedIsWithin(u, y[0], v);
    }
  }

  /** What the test accepts is one edit. */
  lemma WithinIsEdit(a: string, b: string)
    requires WithinOneEdit(a, b) && a != b
    ensures IsEdit(a, b) || IsSwap(a, b)
  {
    var p := CommonPrefix(a, b);
    var u, ra, rb := a[..p], a[p..], b[p..];
    assert a == u + ra && b == u + rb;
    hide IsEdit;
    hide IsSwap;
    if |ra| == |rb| {
      SameLength(u, ra, rb);
    } else if |ra| == |rb| + 1 {
      OneLonger(u, ra, rb);
    } else {
      OneLonger(u, rb, ra);
    }
  }

  lemma OneLonger(u: string, longer: string, s: string)
    requires longer != "" && longer[1..] == s
    ensures IsEdit(u + longer, u + s) && IsEdit(u + s, u + longer)
  {
    assert u + longer == u + [longer[0]] + s && u + s == u + "" + s;
    assert EditAt(u + longer, u + s, u, [longer[0]], "", s) && EditAt(u + s, u + longer, u, "", [longer[0]], s);
  }

  lemma SameLength(u: string, ra: string, rb: string)
    requires |ra| == |rb| > 0 && ra[0] != rb[0]
    requires ra[1..] == rb[1..] || (|ra| >= 2 && ra[0] == rb[1] && ra[1] == rb[0] && ra[2..] == rb[2..])
    ensures IsEdit(u + ra, u + rb) || IsSwap(u + ra, u + rb)
  {
    if ra[1..] == rb[1..] {
      assert u + ra == u + [ra[0]] + ra[1..] && u + rb == u + [rb[0]] + ra[1..];
      assert EditAt(u + ra, u + rb, u, [ra[0]], [rb[0]], ra[1..]);
    } else {
      assert u + ra == u + [ra[0], ra[1]] + ra[2..] && u + rb == u + [ra[1], ra[0]] + ra[2..];
      assert SwapAt(u + ra, u + rb, u, ra[0], ra[1], ra[2..]);
    }
  }

  /** The test holds exactly for equal strings, one edit, or one swap: comparing only after the
      common prefix loses no case. */
  lemma WithinOneEditIff(a: string, b: string)
    ensures WithinOneEdit(a, b) <==> a == b || IsEdit(a, b) || IsSwap(a, b)
  {
    if IsSwap(a, b) {
      var u, x, y, v :| SwapAt(a, b, u, x, y, v);
      SwappedIsWithin(u, x, y, v);
    }
    hide WithinOneEdit;
    hide IsEdit;
    if IsEdit(a, b) {
      EditIsWithin(a, b);
    }
    if WithinOneEdit(a, b) && a != b {
      WithinIsEdit(a, b);
    }
  }

  /** So it is the edit distance being at most one, and the swaps that distance counts as two. */
  lemma WithinOneEditIsDistance(a: string, b: string)
    ensures WithinOneEdit(a, b) <==> Lev(a, b) <= 1 || IsSwap(a, b)
  {
    WithinOneEditIff(a, b);
    LevZeroIffEqual(a, b);
    hide WithinOneEdit;
    hide Lev;
    if Lev(a, b) == 1 {
      var cs := ShortestChain(a, b);
      assert IsEdit(cs[0], cs[1]);
    }
    if IsEdit(a, b) {
      assert IsChain([a, b], a, b);
      NoShorterChain([a, b], a, b);
    }
  }
}
