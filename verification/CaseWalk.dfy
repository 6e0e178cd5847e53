/** The emitted case conversion: one pass over the bytes of a UTF-8 text that writes the mapped
    code points into a fixed buffer, with the Final_Sigma scans on the bytes around each Σ. It
    writes the encoding of the code-point-by-code-point mapping and stays inside its buffer. */
module CaseWalk {
  import opened HexFields
  import opened CaseRuns
  import opened CaseLookup
  import opened RangeTable
  import opened Utf8

  const SIGMA := 931
  const SMALL_SIGMA := 963
  const FINAL_SIGMA := 962

  /** What a conversion is: the ASCII letters it shifts, whether Σ is contextual, the mapping of
      the other code points, and the two sets the context is read in. */
  datatype Rules = Rules(
    lo: int, hi: int, delta: int, sigma: bool, mapping: Mapping, cased: seq<nat>, ignorable: seq<nat>)

  /** Targets are scalar values, and no row takes more than three times the room of its source. */
  ghost predicate GoodRow(cp: nat, targets: seq<nat>) {
    && AllScalars(targets)
    && (IsScalar(cp) ==> |EncodeAll(targets)| <= 3 * |Encode(cp)|)
  }

  ghost predicate GoodRules(r: Rules) {
    && 0 <= r.lo <= r.hi < 128 && 0 <= r.lo + r.delta && r.hi + r.delta < 128
    && IsMapping(r.mapping)
    && (forall cp :: cp in r.mapping ==> GoodRow(cp, r.mapping[cp]))
  }

  // ---------------------------------------------------------------- the rule on code points

  /** The first code point before `k` that is not case-ignorable is cased. */
  ghost predicate CasedBefore(r: Rules, cps: seq<int>, k: nat)
    requires k <= |cps|
  {
    exists j :: 0 <= j < k && cps[j] !in r.ignorable && cps[j] in r.cased
                && forall i :: j < i < k ==> cps[i] in r.ignorable
  }

  /** The first code point from `k` on that is not case-ignorable is cased. */
  ghost predicate CasedFrom(r: Rules, cps: seq<int>, k: nat)
    requires k <= |cps|
  {
    exists j :: k <= j < |cps| && cps[j] !in r.ignorable && cps[j] in r.cased
                && forall i :: k <= i < j ==> cps[i] in r.ignorable
  }

  ghost predicate IsFinal(r: Rules, cps: seq<int>, k: nat)
    requires k < |cps|
  {
    CasedBefore(r, cps, k) && !CasedFrom(r, cps, k + 1)
  }

  /** What the `k`-th code point becomes: an ASCII letter of the range is shifted, a capital sigma becomes
      a small one by its context, and of the others those that have a row become its targets. */
  ghost function Image(r: Rules, cps: seq<int>, k: nat): seq<int>
    requires k < |cps|
  {
    var cp := cps[k];
    if cp < 128 then [if r.lo <= cp <= r.hi then cp + r.delta else cp]
    else if r.sigma && cp == 0x3A3 then [if IsFinal(r, cps, k) then 0x3C2 else 0x3C3]
    else if cp in r.mapping then r.mapping[cp]
    else [cp]
  }

  ghost function MapFrom(r: Rules, cps: seq<int>, k: nat): seq<int>
    requires k <= |cps|
    decreases |cps| - k
  {
    if k == |cps| then [] else Image(r, cps, k) + MapFrom(r, cps, k + 1)
  }

  lemma EncodeOne(cp: int)
    requires IsScalar(cp)
    ensures EncodeAll([cp]) == Encode(cp)
  {
    assert [cp][1..] == [];
  }

  lemma ImageFits(r: Rules, cps: seq<int>, k: nat)
    requires GoodRules(r) && AllScalars(cps) && k < |cps|
    ensures AllScalars(Image(r, cps, k)) && |EncodeAll(Image(r, cps, k))| <= 3 * |Encode(cps[k])|
  {
    var cp := cps[k];
    var image := Image(r, cps, k);
    if |image| == 1 && IsScalar(image[0]) {
      EncodeOne(image[0]);
      assert image == [image[0]];
    }
    if !(cp < 128) && !(r.sigma && cp == SIGMA) && cp in r.mapping {
      assert GoodRow(cp, r.mapping[cp]);
    }
  }

  lemma {:induction false} MapScalars(r: Rules, cps: seq<int>, k: nat)
    requires GoodRules(r) && AllScalars(cps) && k <= |cps|
    ensures AllScalars(MapFrom(r, cps, k))
    decreases |cps| - k
  {
    if k < |cps| {
      ImageFits(r, cps, k);
      MapScalars(r, cps, k + 1);
    }
  }

  // ---------------------------------------------------------------- the tables

  /** The literals the generated program holds: the run table, the specials, and the cased and
      ignorable ranges, each with its number of rows. */
  datatype Tables = Tables(
    tbl: seq<byte>, rows: nat, sp: seq<byte>, ctbl: seq<byte>, crows: nat, itbl: seq<byte>, irows: nat)

  /** What a lookup must answer. */
  ghost predicate Mapped(r: Rules, t: Tables, cp: nat, v: int) {
    if cp !in r.mapping then v == -1
    else if |r.mapping[cp]| == 1 then v == r.mapping[cp][0] && 0 <= v < SPECIAL
    else
      && SPECIAL <= v && 18 * (v - SPECIAL) + 18 <= |t.sp|
      && 2 <= |r.mapping[cp]| <= 3
      && var a := 18 * (v - SPECIAL);
         Padded(r.mapping[cp]) == [Rd6(t.sp, a), Rd6(t.sp, a + 6), Rd6(t.sp, a + 12)]
  }

  ghost predicate Serves(r: Rules, t: Tables) {
    && HasStrides(t.tbl, t.rows)
    && RangeAddr(t.crows) <= |t.ctbl| && RangeAddr(t.irows) <= |t.itbl|
    && (forall cp: nat {:trigger MapCp(t.tbl, t.rows, cp)} :: 128 <= cp ==> Mapped(r, t, cp, MapCp(t.tbl, t.rows, cp)))
    && (forall cp :: InRanges(t.ctbl, 0, t.crows, cp) <==> cp in r.cased)
    && (forall cp :: InRanges(t.itbl, 0, t.irows, cp) <==> cp in r.ignorable)
  }

  // ---------------------------------------------------------------- places in the text

  /** Where the `k`-th code point starts. */
  ghost function Offset(cps: seq<int>, k: nat): nat
    requires AllScalars(cps) && k <= |cps|
  {
    |EncodeAll(cps[..k])|
  }

  lemma EncodeCut(cps: seq<int>, k: nat)
    requires AllScalars(cps) && k <= |cps|
    ensures EncodeAll(cps) == EncodeAll(cps[..k]) + EncodeAll(cps[k..])
  {
    assert cps == cps[..k] + cps[k..];
    EncodeAllAppend(cps[..k], cps[k..]);
  }

  lemma EncodeNext(cps: seq<int>, k: nat)
    requires AllScalars(cps) && k < |cps|
    ensures EncodeAll(cps[..k + 1]) == EncodeAll(cps[..k]) + Encode(cps[k])
  {
    assert cps[..k + 1] == cps[..k] + [cps[k]];
    EncodeAllAppend(cps[..k], [cps[k]]);
    EncodeOne(cps[k]);
  }

  lemma SliceMiddle(a: seq<byte>, b: seq<byte>, c: seq<byte>)
    ensures (a + b + c)[|a|..|a| + |b|] == b
  {
  }

  lemma OffsetStep(cps: seq<int>, k: nat)
    requires AllScalars(cps) && k < |cps|
    ensures Offset(cps, k + 1) == Offset(cps, k) + |Encode(cps[k])| <= |EncodeAll(cps)|
    ensures StandsAt(EncodeAll(cps), Offset(cps, k), cps[k])
  {
    hide Encode;
    EncodeNext(cps, k);
    EncodeCut(cps, k + 1);
    SliceMiddle(EncodeAll(cps[..k]), Encode(cps[k]), EncodeAll(cps[k + 1..]));
  }

  lemma OffsetEnds(cps: seq<int>)
    requires AllScalars(cps)
    ensures Offset(cps, 0) == 0 && Offset(cps, |cps|) == |EncodeAll(cps)|
  {
    assert cps[..|cps|] == cps;
  }

  /** The decoder at the `k`-th code point's place. */
  lemma DecodesAtOffset(s: seq<byte>, cps: seq<int>, k: nat)
    requires AllScalars(cps) && s == EncodeAll(cps) && k < |cps|
    ensures DecodeAt(s, Offset(cps, k)) == (cps[k], |Encode(cps[k])|)
    ensures Offset(cps, k + 1) == Offset(cps, k) + |Encode(cps[k])| <= |s|
    ensures !Continuation(s[Offset(cps, k)])
    ensures forall i :: Offset(cps, k) < i < Offset(cps, k + 1) ==> Continuation(s[i])
  {
    OffsetStep(cps, k);
    DecodesEncoded(s, Offset(cps, k), cps[k]);
  }

  // ---------------------------------------------------------------- the scans around Σ

  /** Steps back over continuation bytes to the start of the code point before `i`. */
  function Prev(s: seq<byte>, i: int): int
    decreases i
  {
    if i > 0 && Continuation(Load(s, i - 1)) then Prev(s, i - 1) else i - 1
  }

  lemma {:induction false} PrevFindsStart(s: seq<byte>, start: nat, i: nat)
    requires start < i <= |s| && !Continuation(s[start])
    requires forall j :: start < j < i ==> Continuation(s[j])
    ensures Prev(s, i) == start
    decreases i
  {
    if start < i - 1 {
      PrevFindsStart(s, start, i - 1);
    }
  }

  lemma {:induction false} PrevDecreases(s: seq<byte>, i: int)
    ensures Prev(s, i) < i
    decreases i
  {
    if i > 0 && Continuation(Load(s, i - 1)) {
      PrevDecreases(s, i - 1);
    }
  }

  predicate Bck(s: seq<byte>, t: Tables, i: int)
    requires RangeAddr(t.crows) <= |t.ctbl| && RangeAddr(t.irows) <= |t.itbl|
    decreases i
  {
    if i <= 0 then false
    else
      PrevDecreases(s, i);
      var ps := Prev(s, i);
      var cp := DecodeAt(s, ps).0;
      if InRanges(t.itbl, 0, t.irows, cp) then Bck(s, t, ps) else InRanges(t.ctbl, 0, t.crows, cp)
  }

  predicate Fwd(s: seq<byte>, t: Tables, p: nat)
    requires RangeAddr(t.crows) <= |t.ctbl| && RangeAddr(t.irows) <= |t.itbl|
    decreases |s| - p
  {
    if p >= |s| then false
    else
      var (cp, l) := DecodeAt(s, p);
      if InRanges(t.itbl, 0, t.irows, cp) then Fwd(s, t, p + l) else InRanges(t.ctbl, 0, t.crows, cp)
  }

  lemma CasedBeforeSkips(r: Rules, cps: seq<int>, k: nat)
    requires 0 < k <= |cps| && cps[k - 1] in r.ignorable
    ensures CasedBefore(r, cps, k) <==> CasedBefore(r, cps, k - 1)
  {
    if CasedBefore(r, cps, k - 1) {
      var j :| 0 <= j < k - 1 && cps[j] !in r.ignorable && cps[j] in r.cased
               && forall i :: j < i < k - 1 ==> cps[i] in r.ignorable;
      assert forall i :: j < i < k ==> cps[i] in r.ignorable;
    }
  }

  lemma CasedBeforeStep(r: Rules, cps: seq<int>, k: nat)
    requires 0 < k <= |cps|
    ensures CasedBefore(r, cps, k) <==>
      if cps[k - 1] in r.ignorable then CasedBefore(r, cps, k - 1) else cps[k - 1] in r.cased
  {
    if cps[k - 1] in r.ignorable {
      CasedBeforeSkips(r, cps, k);
    } else if cps[k - 1] in r.cased {
      assert CasedBefore(r, cps, k);
    }
  }

  lemma BckStep(r: Rules, t: Tables, s: seq<byte>, i: nat, ps: nat, cp: int)
    requires Serves(r, t) && i > 0 && Prev(s, i) == ps && DecodeAt(s, ps).0 == cp
    ensures Bck(s, t, i) <==> if cp in r.ignorable then Bck(s, t, ps) else cp in r.cased
  {
    hide InRanges;
    hide DecodeAt;
    hide Prev;
  }

  /** The backward byte scan decides the rule on the code points before. */
  lemma {:induction false} BckDecides(r: Rules, t: Tables, s: seq<byte>, cps: seq<int>, k: nat)
    requires Serves(r, t) && AllScalars(cps) && s == EncodeAll(cps) && k <= |cps|
    ensures Bck(s, t, Offset(cps, k)) <==> CasedBefore(r, cps, k)
    decreases k
  {
    if k > 0 {
      DecodesAtOffset(s, cps, k - 1);
      PrevFindsStart(s, Offset(cps, k - 1), Offset(cps, k));
      var i, ps := Offset(cps, k), Offset(cps, k - 1);
      hide EncodeAll;
      hide Serves;
      hide Offset;
      hide Bck;
      hide CasedBefore;
      BckDecides(r, t, s, cps, k - 1);
      BckStep(r, t, s, i, ps, cps[k - 1]);
      CasedBeforeStep(r, cps, k);
    }
  }

  lemma CasedFromStep(r: Rules, cps: seq<int>, k: nat)
    requires k < |cps|
    ensures CasedFrom(r, cps, k) <==> if cps[k] in r.ignorable then CasedFrom(r, cps, k + 1) else cps[k] in r.cased
  {
    if cps[k] in r.ignorable {
      CasedFromSkips(r, cps, k);
    } else if cps[k] in r.cased {
      assert CasedFrom(r, cps, k);
    }
  }

  lemma CasedFromSkips(r: Rules, cps: seq<int>, k: nat)
    requires k < |cps| && cps[k] in r.ignorable
    ensures CasedFrom(r, cps, k) <==> CasedFrom(r, cps, k + 1)
  {
    if CasedFrom(r, cps, k + 1) {
      var j :| k + 1 <= j < |cps| && cps[j] !in r.ignorable && cps[j] in r.cased
               && forall i :: k + 1 <= i < j ==> cps[i] in r.ignorable;
      assert forall i :: k <= i < j ==> cps[i] in r.ignorable;
    }
  }

  lemma FwdStep(r: Rules, t: Tables, s: seq<byte>, p: nat, cp: int, l: nat)
    requires Serves(r, t) && p < |s| && DecodeAt(s, p) == (cp, l)
    ensures Fwd(s, t, p) <==> if cp in r.ignorable then Fwd(s, t, p + l) else cp in r.cased
  {
    hide InRanges;
    hide DecodeAt;
  }

  /** The forward byte scan decides the rule on the code points from `k` on. */
  lemma {:induction false} FwdDecides(r: Rules, t: Tables, s: seq<byte>, cps: seq<int>, k: nat)
    requires Serves(r, t) && AllScalars(cps) && s == EncodeAll(cps) && k <= |cps|
    ensures Fwd(s, t, Offset(cps, k)) <==> CasedFrom(r, cps, k)
    decreases |cps| - k
  {
    OffsetEnds(cps);
    if k < |cps| {
      DecodesAtOffset(s, cps, k);
      var p, l := Offset(cps, k), |Encode(cps[k])|;
      hide EncodeAll;
      hide Serves;
      hide Offset;
      hide Fwd;
      hide CasedFrom;
      FwdDecides(r, t, s, cps, k + 1);
      FwdStep(r, t, s, p, cps[k], l);
      CasedFromStep(r, cps, k);
    }
  }

  /** Around a Σ the two scans decide Final_Sigma, from its place in the bytes. */
  lemma ScansDecideFinalSigma(r: Rules, t: Tables, s: seq<byte>, cps: seq<int>, k: nat)
    requires Serves(r, t) && AllScalars(cps) && s == EncodeAll(cps) && k < |cps|
    ensures var o := Offset(cps, k);
      Bck(s, t, o) && !Fwd(s, t, o + DecodeAt(s, o).1) <==> IsFinal(r, cps, k)
  {
    DecodesAtOffset(s, cps, k);
    hide Encode;
    hide EncodeAll;
    hide Bck;
    hide Fwd;
    hide Serves;
    hide Offset;
    hide DecodeAt;
    hide CasedBefore;
    hide CasedFrom;
    assert Offset(cps, k) + DecodeAt(s, Offset(cps, k)).1 == Offset(cps, k + 1);
    BckDecides(r, t, s, cps, k);
    FwdDecides(r, t, s, cps, k + 1);
  }

  // ---------------------------------------------------------------- the walk

  /** `b` with `x` written at `o`. */
  function Splice(b: seq<byte>, o: nat, x: seq<byte>): (r: seq<byte>)
    requires o + |x| <= |b|
    ensures |r| == |b|
  {
    b[..o] + x + b[o + |x|..]
  }

  lemma SpliceTwice(b: seq<byte>, o: nat, x: seq<byte>, y: seq<byte>)
    requires o + |x| + |y| <= |b|
    ensures Splice(Splice(b, o, x), o + |x|, y) == Splice(b, o, x + y)
  {
  }

  lemma SpliceNothing(b: seq<byte>, o: nat)
    requires o <= |b|
    ensures Splice(b, o, []) == b
  {
  }

  /** Writes one code point at `o` and nothing else. */
  method Write(buf: array<byte>, o: nat, cp: int) returns (w: nat)
    requires IsScalar(cp) && o + |Encode(cp)| <= buf.Length
    modifies buf
    ensures w == |Encode(cp)| && buf[..] == Splice(old(buf[..]), o, Encode(cp))
  {
    if cp < 128 {
      buf[o] := cp;
      w := 1;
    } else if cp < 2048 {
      buf[o] := 192 + cp / 64;
      buf[o + 1] := 128 + cp % 64;
      w := 2;
    } else if cp < 65536 {
      buf[o] := 224 + cp / 4096;
      buf[o + 1] := 128 + cp / 64 % 64;
      buf[o + 2] := 128 + cp % 64;
      w := 3;
    } else {
      buf[o] := 240 + cp / 262144;
      buf[o + 1] := 128 + cp / 4096 % 64;
      buf[o + 2] := 128 + cp / 64 % 64;
      buf[o + 3] := 128 + cp % 64;
      w := 4;
    }
  }

  ghost function EncodeOr(cp: int): seq<byte>
    requires cp != 0 ==> IsScalar(cp)
  {
    if cp != 0 then Encode(cp) else []
  }

  /** One to three nonzero targets, written as three with zeros for the missing ones. */
  ghost predicate Targets(targets: seq<nat>, c1: int, c2: int, c3: int) {
    && 1 <= |targets| <= 3 && AllScalars(targets) && Padded(targets) == [c1, c2, c3]
    && forall i :: 0 <= i < |targets| ==> targets[i] != 0
  }

  lemma TargetsApart(targets: seq<nat>, c1: int, c2: int, c3: int)
    requires Targets(targets, c1, c2, c3)
    ensures c1 != 0 && IsScalar(c1) && (c2 != 0 ==> IsScalar(c2)) && (c3 != 0 ==> IsScalar(c3))
    ensures EncodeAll(targets) == Encode(c1) + EncodeOr(c2) + EncodeOr(c3)
  {
    hide Encode;
    assert targets[0] == Padded(targets)[0];
    assert |targets| > 1 ==> targets[1] == Padded(targets)[1];
    assert |targets| > 2 ==> targets[2] == Padded(targets)[2];
    EncodeOne(c1);
    if |targets| == 1 {
      assert Padded(targets)[1] == 0 && Padded(targets)[2] == 0;
      assert targets == [c1];
    } else if |targets| == 2 {
      assert Padded(targets)[2] == 0;
      assert targets == [c1] + [c2];
      EncodeAllAppend([c1], [c2]);
      EncodeOne(c2);
    } else {
      assert targets == [c1] + [c2] + [c3];
      EncodeAllAppend([c1] + [c2], [c3]);
      EncodeAllAppend([c1], [c2]);
      EncodeOne(c2);
      EncodeOne(c3);
    }
  }

  method WriteSpecial(buf: array<byte>, o: nat, c1: int, c2: int, c3: int, ghost targets: seq<nat>) returns (w: nat)
    requires Targets(targets, c1, c2, c3)
    requires o + |EncodeAll(targets)| <= buf.Length
    modifies buf
    ensures w == |EncodeAll(targets)| && buf[..] == Splice(old(buf[..]), o, EncodeAll(targets))
  {
    hide Encode;
    hide Splice;
    TargetsApart(targets, c1, c2, c3);
    ghost var before, e1, e2, e3 := buf[..], Encode(c1), EncodeOr(c2), EncodeOr(c3);
    var w1 := Write(buf, o, c1);
    var w2 := 0;
    SpliceNothing(buf[..], o + w1);
    if c2 != 0 {
      w2 := Write(buf, o + w1, c2);
    }
    SpliceTwice(before, o, e1, e2);
    assert buf[..] == Splice(before, o, e1 + e2);
    var w3 := 0;
    SpliceNothing(buf[..], o + w1 + w2);
    if c3 != 0 {
      w3 := Write(buf, o + w1 + w2, c3);
    }
    SpliceTwice(before, o, e1 + e2, e3);
    w := w1 + w2 + w3;
  }

  /** A text in memory: the bytes are the encoding of `cps`. */
  ghost predicate HoldsText(s: seq<byte>, cps: seq<int>) {
    AllScalars(cps) && s == EncodeAll(cps)
  }

  lemma ImageOf(r: Rules, cps: seq<int>, k: nat, cp: int)
    requires AllScalars(cps) && k < |cps| && IsScalar(cp) && Image(r, cps, k) == [cp]
    ensures EncodeAll(Image(r, cps, k)) == Encode(cp)
  {
    EncodeOne(cp);
  }

  /** The mapped or copied code point of a step that is neither ASCII nor Σ. */
  method WriteMapped(r: Rules, t: Tables, buf: array<byte>, o: nat, cp: int, ghost cps: seq<int>, ghost k: nat)
    returns (w: nat)
    requires GoodRules(r) && Serves(r, t)
    requires AllScalars(cps) && k < |cps| && cp == cps[k] && 128 <= cp && !(r.sigma && cp == SIGMA)
    requires AllScalars(Image(r, cps, k)) && o + |EncodeAll(Image(r, cps, k))| <= buf.Length
    modifies buf
    ensures w == |EncodeAll(Image(r, cps, k))| && buf[..] == Splice(old(buf[..]), o, EncodeAll(Image(r, cps, k)))
  {
    hide Encode;
    var v := MapCp(t.tbl, t.rows, cp);
    assert Mapped(r, t, cp, v);
    if v < 0 {
      ImageOf(r, cps, k, cp);
      w := Write(buf, o, cp);
    } else if v < SPECIAL {
      assert Image(r, cps, k) == [v] && IsScalar(Image(r, cps, k)[0]);
      ImageOf(r, cps, k, v);
      w := Write(buf, o, v);
    } else {
      var a := 18 * (v - SPECIAL);
      w := WriteSpecial(buf, o, Rd6(t.sp, a), Rd6(t.sp, a + 6), Rd6(t.sp, a + 12), r.mapping[cp]);
    }
  }

  /** The body of one step: writes what the code point at `p` becomes. */
  method WriteImage(r: Rules, t: Tables, s: seq<byte>, buf: array<byte>, p: nat, o: nat, ghost cps: seq<int>, ghost k: nat)
    returns (l: nat, w: nat)
    requires GoodRules(r) && Serves(r, t) && HoldsText(s, cps)
    requires k < |cps| && p == Offset(cps, k)
    requires AllScalars(Image(r, cps, k)) && o + |EncodeAll(Image(r, cps, k))| <= buf.Length
    modifies buf
    ensures l == |Encode(cps[k])|
    ensures w == |EncodeAll(Image(r, cps, k))| && buf[..] == Splice(old(buf[..]), o, EncodeAll(Image(r, cps, k)))
  {
    hide Encode;
    DecodesAtOffset(s, cps, k);
    var b0 := s[p];
    if b0 < 128 {
      AsciiImage(r, s, cps, k);
      buf[o] := if r.lo <= b0 <= r.hi then b0 + r.delta else b0;
      assert buf[..] == Splice(old(buf[..]), o, EncodeAll(Image(r, cps, k)));
      return 1, 1;
    }
    var (cp, len) := DecodeAt(s, p);
    AsciiImage(r, s, cps, k);
    l := len;
    if r.sigma && cp == SIGMA {
      ScansDecideFinalSigma(r, t, s, cps, k);
      var fin := Bck(s, t, p) && !Fwd(s, t, p + l);
      ImageOf(r, cps, k, if fin then FINAL_SIGMA else SMALL_SIGMA);
      w := Write(buf, o, if fin then FINAL_SIGMA else SMALL_SIGMA);
    } else {
      w := WriteMapped(r, t, buf, o, cp, cps, k);
    }
  }

  /** A first byte below 128 is its code point, and only then. */
  lemma AsciiImage(r: Rules, s: seq<byte>, cps: seq<int>, k: nat)
    requires GoodRules(r) && HoldsText(s, cps) && k < |cps|
    ensures Offset(cps, k) < |s|
    ensures var b0 := s[Offset(cps, k)];
      && (b0 < 128 <==> cps[k] < 128)
      && (b0 < 128 ==> b0 == cps[k] && |Encode(cps[k])| == 1
                       && EncodeAll(Image(r, cps, k)) == [if r.lo <= b0 <= r.hi then b0 + r.delta else b0])
  {
    OffsetStep(cps, k);
    var p, e := Offset(cps, k), Encode(cps[k]);
    assert s[p..p + |e|][0] == s[p];
    if cps[k] < 128 {
      EncodeOne(Image(r, cps, k)[0]);
      assert Image(r, cps, k) == [Image(r, cps, k)[0]];
    }
  }

  /** From the `k`-th code point on: the encoding of what they become is written at `o`, and
      nothing else in the buffer changes. */
  method Walk(r: Rules, t: Tables, s: seq<byte>, buf: array<byte>, p: nat, o: nat, ghost cps: seq<int>, ghost k: nat)
    returns (out: nat)
    requires GoodRules(r) && Serves(r, t) && HoldsText(s, cps)
    requires k <= |cps| && p == Offset(cps, k)
    requires o <= 3 * p && 3 * |s| <= buf.Length
    modifies buf
    ensures AllScalars(MapFrom(r, cps, k))
    ensures out == o + |EncodeAll(MapFrom(r, cps, k))| <= 3 * |s|
    ensures buf[..] == Splice(old(buf[..]), o, EncodeAll(MapFrom(r, cps, k)))
    decreases |cps| - k
  {
    hide Encode;
    hide Serves;
    MapScalars(r, cps, k);
    OffsetEnds(cps);
    if p >= |s| {
      OffsetGrows(cps, k);
      return o;
    }
    ImageFits(r, cps, k);
    DecodesAtOffset(s, cps, k);
    MapScalars(r, cps, k + 1);
    ghost var before, here, rest := buf[..], EncodeAll(Image(r, cps, k)), EncodeAll(MapFrom(r, cps, k + 1));
    var l, w := WriteImage(r, t, s, buf, p, o, cps, k);
    out := Walk(r, t, s, buf, p + l, o + w, cps, k + 1);
    EncodeAllAppend(Image(r, cps, k), MapFrom(r, cps, k + 1));
    assert EncodeAll(MapFrom(r, cps, k)) == here + rest;
    SpliceTwice(before, o, here, rest);
  }

  /** Only the end of the text is at its last offset. */
  lemma OffsetGrows(cps: seq<int>, k: nat)
    requires AllScalars(cps) && k <= |cps| && Offset(cps, k) >= |EncodeAll(cps)|
    ensures k == |cps|
  {
    hide Encode;
    if k < |cps| {
      OffsetStep(cps, k);
    }
  }

  /** The conversion of a whole text: the buffer is three times its length and eight bytes, and
      what it holds at the end is the encoding of the mapped code points, itself valid UTF-8. */
  method Convert(r: Rules, t: Tables, s: seq<byte>, ghost cps: seq<int>) returns (buf: array<byte>, len: nat)
    requires GoodRules(r) && Serves(r, t) && HoldsText(s, cps)
    ensures buf.Length == 3 * |s| + 8 && len <= 3 * |s|
    ensures AllScalars(MapFrom(r, cps, 0)) && buf[..len] == EncodeAll(MapFrom(r, cps, 0))
    ensures IsUtf8(buf[..len])
  {
    hide Encode;
    buf := new byte[|s| * 3 + 8](_ => 0);
    OffsetEnds(cps);
    len := Walk(r, t, s, buf, 0, 0, cps, 0);
    assert buf[..len] == buf[..][..len] == EncodeAll(MapFrom(r, cps, 0));
    ValidIffEncoded(buf[..len]);
  }
}
