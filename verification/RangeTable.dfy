/** Sets of code points as sorted ranges, and the binary search that decides membership. */
module RangeTable {
  import opened HexFields

  datatype Range = Range(lo: nat, hi: nat)

  ghost predicate Sorted(cps: seq<nat>) {
    forall i, j :: 0 <= i < j < |cps| ==> cps[i] <= cps[j]
  }

  function AddCp(out: seq<Range>, cp: nat): seq<Range> {
    var n := |out| - 1;
    if n >= 0 && cp == out[n].hi + 1 then out[n := Range(out[n].lo, cp)] else out + [Range(cp, cp)]
  }

  function RangesOf(cps: seq<nat>): seq<Range> {
    if cps == [] then [] else AddCp(RangesOf(cps[..|cps| - 1]), cps[|cps| - 1])
  }

  method Ranges(cps: seq<nat>) returns (out: seq<Range>)
    ensures out == RangesOf(cps)
  {
    out := [];
    for n := 0 to |cps|
      invariant out == RangesOf(cps[..n])
    {
      assert cps[..n + 1][..n] == cps[..n];
      if out != [] && cps[n] == out[|out| - 1].hi + 1 {
        out := out[|out| - 1 := Range(out[|out| - 1].lo, cps[n])];
      } else {
        out := out + [Range(cps[n], cps[n])];
      }
    }
    assert cps[..|cps|] == cps;
  }

  predicate Within(r: Range, cp: int) {
    r.lo <= cp <= r.hi
  }

  ghost predicate WithinSome(rs: seq<Range>, cp: int) {
    exists i :: 0 <= i < |rs| && Within(rs[i], cp)
  }

  ghost predicate Ordered(rs: seq<Range>) {
    && (forall i :: 0 <= i < |rs| ==> rs[i].lo <= rs[i].hi)
    && (forall i, j :: 0 <= i < j < |rs| ==> rs[i].lo <= rs[j].lo && rs[i].hi <= rs[j].hi)
  }

  lemma {:induction false} RangesOrdered(cps: seq<nat>)
    requires Sorted(cps)
    ensures Ordered(RangesOf(cps)) && (cps == [] <==> RangesOf(cps) == [])
    ensures cps != [] ==> RangesOf(cps)[|RangesOf(cps)| - 1].hi == cps[|cps| - 1]
  {
    if cps != [] {
      var before, last := cps[..|cps| - 1], cps[|cps| - 1];
      RangesOrdered(before);
      assert before != [] ==> before[|before| - 1] <= last;
      AddHolds(RangesOf(before), last, last);
    }
  }

  lemma MemberSplit(cps: seq<nat>, cp: int)
    requires cps != []
    ensures cp in cps <==> cp in cps[..|cps| - 1] || cp == cps[|cps| - 1]
  {
    assert cps == cps[..|cps| - 1] + [cps[|cps| - 1]];
  }

  /** The ranges hold exactly the code points they were built from. */
  lemma {:induction false} RangesHold(cps: seq<nat>, cp: int)
    requires Sorted(cps)
    ensures WithinSome(RangesOf(cps), cp) <==> cp in cps
  {
    if cps != [] {
      var before, last := cps[..|cps| - 1], cps[|cps| - 1];
      RangesOrdered(before);
      RangesHold(before, cp);
      assert before != [] ==> before[|before| - 1] <= last;
      AddHolds(RangesOf(before), last, cp);
      assert RangesOf(cps) == AddCp(RangesOf(before), last);
      MemberSplit(cps, cp);
    }
  }

  lemma AddHolds(rs: seq<Range>, last: nat, cp: int)
    requires Ordered(rs) && (rs != [] ==> rs[|rs| - 1].hi <= last)
    ensures Ordered(AddCp(rs, last)) && AddCp(rs, last)[|AddCp(rs, last)| - 1].hi == last
    ensures WithinSome(AddCp(rs, last), cp) <==> WithinSome(rs, cp) || cp == last
  {
    var n := |rs| - 1;
    var out := AddCp(rs, last);
    if WithinSome(rs, cp) {
      var i :| 0 <= i < |rs| && Within(rs[i], cp);
      assert Within(out[i], cp);
    }
    if cp == last {
      assert Within(out[|out| - 1], cp);
    }
    if WithinSome(out, cp) {
      var i :| 0 <= i < |out| && Within(out[i], cp);
      if cp != last {
        assert i < |rs| && Within(rs[i], cp);
      }
    }
  }

  // ---------------------------------------------------------------- the table and the search

  function HexRange(r: Range): seq<byte> {
    Hex(r.lo, 6) + Hex(r.hi, 6)
  }

  /** Twelve characters for each range. */
  function HexRanges(rs: seq<Range>): seq<byte> {
    Concat(seq(|rs|, i requires 0 <= i < |rs| => HexRange(rs[i])))
  }

  function RangeAddr(i: nat): nat {
    12 * i
  }

  ghost predicate EncodesRanges(tbl: seq<byte>, rs: seq<Range>) {
    |tbl| == 12 * |rs| && forall i :: 0 <= i < |rs| ==> ReadsRange(tbl, RangeAddr(i), rs[i])
  }

  ghost predicate ReadsRange(tbl: seq<byte>, a: nat, r: Range) {
    a + 12 <= |tbl| && Rd6(tbl, a) == r.lo && Rd6(tbl, a + 6) == r.hi
  }

  lemma RangeRead(tbl: seq<byte>, a: nat, r: Range)
    requires a + 12 <= |tbl| && tbl[a..a + 12] == HexRange(r) && r.lo < 0x1000000 && r.hi < 0x1000000
    ensures ReadsRange(tbl, a, r)
  {
    var x, y := Hex(r.lo, 6), Hex(r.hi, 6);
    SubSlice(tbl, a, 12, 0, 6);
    SubSlice(tbl, a, 12, 6, 12);
    assert (x + y)[0..6] == x && (x + y)[6..12] == y;
    Rd6ReadsHex(tbl, a, r.lo);
    Rd6ReadsHex(tbl, a + 6, r.hi);
  }

  lemma RangesEncoded(rs: seq<Range>)
    requires forall i :: 0 <= i < |rs| ==> rs[i].lo < 0x1000000 && rs[i].hi < 0x1000000
    ensures EncodesRanges(HexRanges(rs), rs)
  {
    var rows := seq(|rs|, k requires 0 <= k < |rs| => HexRange(rs[k]));
    ConcatLength(rows, 12);
    forall i | 0 <= i < |rs|
      ensures ReadsRange(HexRanges(rs), RangeAddr(i), rs[i])
    {
      ConcatAt(rows, i);
      ConcatLength(rows[..i], 12);
      RangeRead(HexRanges(rs), 12 * i, rs[i]);
    }
  }

  /** Whether one of the ranges `lo..hi` of the table holds `cp`. */
  predicate InRanges(tbl: seq<byte>, lo: nat, hi: nat, cp: int)
    requires lo <= hi && RangeAddr(hi) <= |tbl|
    decreases hi - lo
  {
    if lo >= hi then false
    else
      var mid := (lo + hi) / 2;
      var a := Rd6(tbl, RangeAddr(mid));
      var b := Rd6(tbl, RangeAddr(mid) + 6);
      if cp < a then InRanges(tbl, lo, mid, cp)
      else if cp > b then InRanges(tbl, mid + 1, hi, cp)
      else true
  }

  lemma {:induction false} SearchFinds(tbl: seq<byte>, rs: seq<Range>, lo: nat, hi: nat, cp: int) returns (i: nat)
    requires EncodesRanges(tbl, rs) && lo <= hi <= |rs|
    requires InRanges(tbl, lo, hi, cp)
    ensures lo <= i < hi && Within(rs[i], cp)
    decreases hi - lo
  {
    i := (lo + hi) / 2;
    assert ReadsRange(tbl, RangeAddr(i), rs[i]);
    if cp < rs[i].lo {
      i := SearchFinds(tbl, rs, lo, i, cp);
    } else if cp > rs[i].hi {
      i := SearchFinds(tbl, rs, i + 1, hi, cp);
    }
  }

  lemma {:induction false} SearchHits(tbl: seq<byte>, rs: seq<Range>, lo: nat, hi: nat, cp: int, i: nat)
    requires EncodesRanges(tbl, rs) && Ordered(rs) && lo <= i < hi <= |rs|
    requires Within(rs[i], cp)
    ensures InRanges(tbl, lo, hi, cp)
    decreases hi - lo
  {
    var mid := (lo + hi) / 2;
    assert ReadsRange(tbl, RangeAddr(mid), rs[mid]);
    if cp < rs[mid].lo {
      SearchHits(tbl, rs, lo, mid, cp, i);
    } else if cp > rs[mid].hi {
      SearchHits(tbl, rs, mid + 1, hi, cp, i);
    }
  }

  lemma {:induction false} RangesBounded(cps: seq<nat>)
    requires forall i :: 0 <= i < |cps| ==> cps[i] < 0x1000000
    ensures forall i :: 0 <= i < |RangesOf(cps)| ==> RangesOf(cps)[i].lo < 0x1000000 && RangesOf(cps)[i].hi < 0x1000000
  {
    if cps != [] {
      RangesBounded(cps[..|cps| - 1]);
    }
  }

  /** The generated table and its search decide membership in the set they were built from. */
  lemma TableDecides(cps: seq<nat>, cp: int)
    requires Sorted(cps) && forall i :: 0 <= i < |cps| ==> cps[i] < 0x1000000
    ensures |HexRanges(RangesOf(cps))| == 12 * |RangesOf(cps)|
    ensures InRanges(HexRanges(RangesOf(cps)), 0, |RangesOf(cps)|, cp) <==> cp in cps
  {
    var rs := RangesOf(cps);
    RangesOrdered(cps);
    RangesHold(cps, cp);
    RangesBounded(cps);
    RangesEncoded(rs);
    if InRanges(HexRanges(rs), 0, |rs|, cp) {
      var i := SearchFinds(HexRanges(rs), rs, 0, |rs|, cp);
    }
    if WithinSome(rs, cp) {
      var i :| 0 <= i < |rs| && Within(rs[i], cp);
      SearchHits(HexRanges(rs), rs, 0, |rs|, cp, i);
    }
  }
}
