/** The run table as text and the lookup in it: a binary search for the last run that starts at
    or below a code point. The table answers exactly like the mapping it was built from. */
module CaseLookup {
  import opened HexFields
  import opened CaseRuns

  function HexRow(r: Run): (row: seq<byte>)
    ensures |row| == 15
  {
    Hex(r.start, 6) + Hex(r.target, 6) + Hex(r.count, 2) + Hex(r.stride, 1)
  }

  /** Fifteen characters for each run. */
  function HexTable(runs: seq<Run>): seq<byte> {
    Concat(seq(|runs|, i requires 0 <= i < |runs| => HexRow(runs[i])))
  }

  function HexSpecial(cs: seq<nat>): (row: seq<byte>)
    requires |cs| == 3
    ensures |row| == 18
  {
    Hex(cs[0], 6) + Hex(cs[1], 6) + Hex(cs[2], 6)
  }

  ghost predicate AllTriples(specials: seq<seq<nat>>) {
    forall i :: 0 <= i < |specials| ==> |specials[i]| == 3
  }

  /** Eighteen characters for each special. */
  function HexSpecials(specials: seq<seq<nat>>): seq<byte>
    requires AllTriples(specials)
  {
    Concat(seq(|specials|, i requires 0 <= i < |specials| => HexSpecial(specials[i])))
  }

  lemma RowAt(runs: seq<Run>, i: nat)
    requires i < |runs|
    ensures |HexTable(runs)| == 15 * |runs|
    ensures HexTable(runs)[15 * i..15 * i + 15] == HexRow(runs[i])
  {
    var rows := seq(|runs|, k requires 0 <= k < |runs| => HexRow(runs[k]));
    ConcatAt(rows, i);
    ConcatLength(rows, 15);
    ConcatLength(rows[..i], 15);
  }

  lemma SpecialAt(specials: seq<seq<nat>>, i: nat)
    requires AllTriples(specials)
    requires i < |specials|
    ensures |HexSpecials(specials)| == 18 * |specials|
    ensures HexSpecials(specials)[18 * i..18 * i + 18] == HexSpecial(specials[i])
  {
    var rows := seq(|specials|, k requires 0 <= k < |specials| => HexSpecial(specials[k]));
    ConcatAt(rows, i);
    ConcatLength(rows, 18);
    ConcatLength(rows[..i], 18);
  }

  function RowAddr(i: nat): nat {
    15 * i
  }

  function CountAt(tbl: seq<byte>, a: nat): int
    requires a + 15 <= |tbl|
  {
    H1(tbl[a + 12]) * 16 + H1(tbl[a + 13])
  }

  function StrideAt(tbl: seq<byte>, a: nat): int
    requires a + 15 <= |tbl|
  {
    H1(tbl[a + 14])
  }

  ghost predicate Writable(r: Run) {
    r.start < 0x1000000 && r.target < 0x1000000 && r.count < 256 && r.stride < 16
  }

  /** The fields of the `i`-th run as the program reads them off the table. */
  ghost predicate ReadsRun(tbl: seq<byte>, a: nat, r: Run) {
    && a + 15 <= |tbl|
    && Rd6(tbl, a) == r.start && Rd6(tbl, a + 6) == r.target
    && CountAt(tbl, a) == r.count && StrideAt(tbl, a) == r.stride
  }

  lemma FieldsRead(tbl: seq<byte>, a: nat, r: Run)
    requires a + 15 <= |tbl| && tbl[a..a + 15] == HexRow(r) && Writable(r)
    ensures ReadsRun(tbl, a, r)
  {
    SplitRow(tbl, a, Hex(r.start, 6), Hex(r.target, 6), Hex(r.count, 2), Hex(r.stride, 1));
    Rd6ReadsHex(tbl, a, r.start);
    Rd6ReadsHex(tbl, a + 6, r.target);
    SmallFieldsRead(tbl, a, r.count, r.stride);
  }

  lemma SplitRow(tbl: seq<byte>, a: nat, s: seq<byte>, t: seq<byte>, c: seq<byte>, d: seq<byte>)
    requires |s| == |t| == 6 && |c| == 2 && |d| == 1
    requires a + 15 <= |tbl| && tbl[a..a + 15] == s + t + c + d
    ensures tbl[a..a + 6] == s && tbl[a + 6..a + 12] == t && tbl[a + 12..a + 14] == c && tbl[a + 14..a + 15] == d
  {
    var row := s + t + c + d;
    SubSlice(tbl, a, 15, 0, 6);
    SubSlice(tbl, a, 15, 6, 12);
    SubSlice(tbl, a, 15, 12, 14);
    SubSlice(tbl, a, 15, 14, 15);
    assert row[0..6] == s && row[6..12] == t && row[12..14] == c && row[14..15] == d;
  }

  lemma SmallFieldsRead(tbl: seq<byte>, a: nat, count: nat, stride: nat)
    requires a + 15 <= |tbl| && count < 256 && stride < 16
    requires tbl[a + 12..a + 14] == Hex(count, 2) && tbl[a + 14..a + 15] == Hex(stride, 1)
    ensures CountAt(tbl, a) == count && StrideAt(tbl, a) == stride
  {
    assert Pow16(1) == 16 && Pow16(2) == 256;
    ReadsHex(tbl, a + 12, count, 2);
    ReadsHex(tbl, a + 14, stride, 1);
    assert Read(tbl, a + 12, 1) == H1(tbl[a + 12]);
  }

  /** The table as the program reads it: the `i`-th row gives the fields of the `i`-th run. */
  ghost predicate Encodes(tbl: seq<byte>, runs: seq<Run>) {
    |tbl| == 15 * |runs| && forall i :: 0 <= i < |runs| ==> ReadsRun(tbl, RowAddr(i), runs[i])
  }

  ghost predicate AllWritable(runs: seq<Run>) {
    forall i :: 0 <= i < |runs| ==> Writable(runs[i])
  }

  lemma TableEncodes(runs: seq<Run>)
    requires AllWritable(runs)
    ensures Encodes(HexTable(runs), runs)
  {
    ConcatLength(seq(|runs|, k requires 0 <= k < |runs| => HexRow(runs[k])), 15);
    forall i | 0 <= i < |runs|
      ensures ReadsRun(HexTable(runs), RowAddr(i), runs[i])
    {
      RowAt(runs, i);
      FieldsRead(HexTable(runs), 15 * i, runs[i]);
    }
  }

  lemma SplitSpecial(sp: seq<byte>, a: nat, x: seq<byte>, y: seq<byte>, z: seq<byte>)
    requires |x| == |y| == |z| == 6
    requires a + 18 <= |sp| && sp[a..a + 18] == x + y + z
    ensures sp[a..a + 6] == x && sp[a + 6..a + 12] == y && sp[a + 12..a + 18] == z
  {
    var row := x + y + z;
    SubSlice(sp, a, 18, 0, 6);
    SubSlice(sp, a, 18, 6, 12);
    SubSlice(sp, a, 18, 12, 18);
    assert row[0..6] == x && row[6..12] == y && row[12..18] == z;
  }

  lemma SpecialFieldsRead(sp: seq<byte>, a: nat, x: nat, y: nat, z: nat)
    requires x < 0x1000000 && y < 0x1000000 && z < 0x1000000
    requires a + 18 <= |sp| && sp[a..a + 18] == Hex(x, 6) + Hex(y, 6) + Hex(z, 6)
    ensures Rd6(sp, a) == x && Rd6(sp, a + 6) == y && Rd6(sp, a + 12) == z
  {
    SplitSpecial(sp, a, Hex(x, 6), Hex(y, 6), Hex(z, 6));
    Rd6ReadsHex(sp, a, x);
    Rd6ReadsHex(sp, a + 6, y);
    Rd6ReadsHex(sp, a + 12, z);
  }

  /** The three code points of a special as the program reads them. */
  lemma SpecialRead(specials: seq<seq<nat>>, i: nat)
    requires AllTriples(specials) && i < |specials|
    requires specials[i][0] < 0x1000000 && specials[i][1] < 0x1000000 && specials[i][2] < 0x1000000
    ensures |HexSpecials(specials)| == 18 * |specials|
    ensures var sp, a := HexSpecials(specials), 18 * i;
      Rd6(sp, a) == specials[i][0] && Rd6(sp, a + 6) == specials[i][1] && Rd6(sp, a + 12) == specials[i][2]
  {
    SpecialAt(specials, i);
    SpecialFieldsRead(HexSpecials(specials), 18 * i, specials[i][0], specials[i][1], specials[i][2]);
  }

  // ---------------------------------------------------------------- the lookup

  /** The last run whose start is at or below `cp`, or -1: a binary search over the table. */
  function Find(tbl: seq<byte>, lo: nat, hi: nat, cp: int): (i: int)
    requires lo <= hi && RowAddr(hi) <= |tbl|
    ensures lo - 1 <= i < hi || (lo == hi && i == lo - 1)
    decreases hi - lo
  {
    if lo >= hi then lo - 1
    else
      var mid := (lo + hi) / 2;
      if Rd6(tbl, RowAddr(mid)) <= cp then Find(tbl, mid + 1, hi, cp) else Find(tbl, lo, mid, cp)
  }

  ghost predicate HasStrides(tbl: seq<byte>, n: nat) {
    RowAddr(n) <= |tbl| && forall i :: 0 <= i < n ==> StrideAt(tbl, RowAddr(i)) != 0
  }

  /** The mapped value of `cp`, or -1 when it maps to itself. */
  function MapCp(tbl: seq<byte>, n: nat, cp: int): int
    requires HasStrides(tbl, n)
  {
    var i := Find(tbl, 0, n, cp);
    if i < 0 then -1
    else
      var a := RowAddr(i);
      var k := cp - Rd6(tbl, a);
      if k % StrideAt(tbl, a) == 0 && k / StrideAt(tbl, a) < CountAt(tbl, a) then Rd6(tbl, a + 6) + k else -1
  }

  ghost predicate StartsSorted(runs: seq<Run>) {
    forall i, j :: 0 <= i < j < |runs| ==> runs[i].start < runs[j].start
  }

  /** The runs up to the one found are those that start at or below `cp`. */
  lemma {:induction false} FindsLast(tbl: seq<byte>, runs: seq<Run>, lo: nat, hi: nat, cp: int, j: nat)
    requires Encodes(tbl, runs) && StartsSorted(runs) && lo <= j < hi <= |runs|
    ensures j <= Find(tbl, lo, hi, cp) <==> runs[j].start <= cp
    decreases hi - lo
  {
    var mid := (lo + hi) / 2;
    assert ReadsRun(tbl, RowAddr(mid), runs[mid]);
    if runs[mid].start <= cp {
      if mid < j {
        FindsLast(tbl, runs, mid + 1, hi, cp, j);
      }
    } else if j < mid {
      FindsLast(tbl, runs, lo, mid, cp, j);
    }
  }

  /** What a lookup answers of the runs themselves. */
  ghost predicate Answers(runs: seq<Run>, cp: nat, v: int) {
    if InSomeRun(runs, cp)
    then exists i :: 0 <= i < |runs| && InRun(runs[i], cp) && v == runs[i].target + (cp - runs[i].start)
    else v == -1
  }

  lemma OnlyRun(runs: seq<Run>, i: nat, j: nat, cp: nat)
    requires Disjoint(runs) && i < |runs| && j < |runs|
    requires forall n :: 0 <= n < |runs| ==> 1 <= runs[n].count && 1 <= runs[n].stride <= 2
    requires InRun(runs[j], cp) && runs[i].start <= cp
    requires i + 1 < |runs| ==> cp < runs[i + 1].start
    ensures i == j
  {
    var k :| 0 <= k < runs[j].count && cp == Point(runs[j], k);
    InSpan(runs[j], k);
  }

  lemma InSpan(r: Run, k: nat)
    requires 1 <= r.stride <= 2 && k < r.count
    ensures r.start <= Point(r, k) <= Last(r)
  {
  }

  /** On its stride and inside its count is exactly inside the run. */
  lemma OnStride(r: Run, cp: nat)
    requires 1 <= r.stride <= 2 && r.start <= cp
    ensures InRun(r, cp) <==> (cp - r.start) % r.stride == 0 && (cp - r.start) / r.stride < r.count
  {
    if (cp - r.start) % r.stride == 0 && (cp - r.start) / r.stride < r.count {
      assert cp == Point(r, (cp - r.start) / r.stride);
    }
  }

  ghost predicate GoodRuns(runs: seq<Run>) {
    Disjoint(runs) && forall n :: 0 <= n < |runs| ==> 1 <= runs[n].count && 1 <= runs[n].stride <= 2
  }

  lemma DisjointSorted(runs: seq<Run>)
    requires GoodRuns(runs)
    ensures StartsSorted(runs)
  {
    forall i, j | 0 <= i < j < |runs|
      ensures runs[i].start < runs[j].start
    {
      InSpan(runs[i], 0);
    }
  }

  lemma EncodedStrides(tbl: seq<byte>, runs: seq<Run>)
    requires Encodes(tbl, runs) && GoodRuns(runs)
    ensures HasStrides(tbl, |runs|)
  {
    forall i | 0 <= i < |runs|
      ensures StrideAt(tbl, RowAddr(i)) != 0
    {
      assert ReadsRun(tbl, RowAddr(i), runs[i]);
    }
  }

  /** A lookup that finds the run at `i` answers from that run alone. */
  lemma RunAnswers(tbl: seq<byte>, runs: seq<Run>, i: nat, cp: nat)
    requires Encodes(tbl, runs) && GoodRuns(runs) && HasStrides(tbl, |runs|)
    requires i < |runs| && Find(tbl, 0, |runs|, cp) == i && runs[i].start <= cp
    ensures MapCp(tbl, |runs|, cp) == if InRun(runs[i], cp) then runs[i].target + (cp - runs[i].start) else -1
  {
    assert ReadsRun(tbl, RowAddr(i), runs[i]);
    OnStride(runs[i], cp);
  }

  /** The last run starting at or below `cp` is the only one that can hold it. */
  lemma OnlyTheLast(runs: seq<Run>, i: int, cp: nat)
    requires GoodRuns(runs) && InSomeRun(runs, cp) && -1 <= i < |runs|
    requires forall j :: 0 <= j <= i ==> runs[j].start <= cp
    requires forall j :: i < j < |runs| ==> cp < runs[j].start
    ensures 0 <= i && InRun(runs[i], cp)
  {
    var j :| 0 <= j < |runs| && InRun(runs[j], cp);
    var k :| 0 <= k < runs[j].count && cp == Point(runs[j], k);
    InSpan(runs[j], k);
    OnlyRun(runs, i, j, cp);
  }

  lemma LookupAnswers(tbl: seq<byte>, runs: seq<Run>, cp: nat)
    requires Encodes(tbl, runs) && GoodRuns(runs)
    ensures HasStrides(tbl, |runs|)
    ensures Answers(runs, cp, MapCp(tbl, |runs|, cp))
  {
    EncodedStrides(tbl, runs);
    DisjointSorted(runs);
    var i := Find(tbl, 0, |runs|, cp);
    forall j | 0 <= j < |runs|
      ensures j <= i <==> runs[j].start <= cp
    {
      FindsLast(tbl, runs, 0, |runs|, cp, j);
    }
    if InSomeRun(runs, cp) {
      OnlyTheLast(runs, i, cp);
    }
    if i >= 0 {
      RunAnswers(tbl, runs, i, cp);
      assert !InSomeRun(runs, cp) ==> !InRun(runs[i], cp);
    }
  }

  /** What the mapping says of one code point, as the table writes it. */
  ghost predicate AnswersMapping(m: Mapping, specials: seq<seq<nat>>, cp: nat, v: int) {
    if cp !in m then v == -1
    else if |m[cp]| == 1 then v == m[cp][0]
    else SPECIAL <= v < SPECIAL + |specials| && 1 < |m[cp]| <= 3 && specials[v - SPECIAL] == Padded(m[cp])
  }

  lemma {:induction false} DistinctCount(keys: seq<nat>, all: set<nat>)
    requires forall i, j :: 0 <= i < j < |keys| ==> keys[i] < keys[j]
    requires forall k :: k in keys ==> k in all
    ensures |keys| <= |all|
  {
    if keys != [] {
      var last := keys[|keys| - 1];
      DistinctCount(keys[..|keys| - 1], all - {last});
    }
  }

  lemma TableIsWritable(m: Mapping, keys: seq<nat>, t: Table)
    requires IsMapping(m) && SortedKeys(keys, m) && Holds(m, keys, t)
    ensures AllWritable(t.runs)
  {
    DistinctCount(keys, m.Keys);
    forall i | 0 <= i < |t.runs|
      ensures Writable(t.runs[i])
    {
      var r := t.runs[i];
      assert RunOk(m, t.specials, r) && RowOk(m, t.specials, r, 0);
      assert Point(r, 0) == r.start;
    }
  }

  lemma HeldRunsAreGood(m: Mapping, done: seq<nat>, t: Table)
    requires Holds(m, done, t)
    ensures GoodRuns(t.runs)
  {
    forall n | 0 <= n < |t.runs|
      ensures 1 <= t.runs[n].count && 1 <= t.runs[n].stride <= 2
    {
      assert RunOk(m, t.specials, t.runs[n]);
    }
  }

  lemma RunAnswersMapping(m: Mapping, keys: seq<nat>, t: Table, cp: nat, v: int)
    requires IsMapping(m) && SortedKeys(keys, m) && Holds(m, keys, t) && 128 <= cp
    requires Answers(t.runs, cp, v)
    ensures AnswersMapping(m, t.specials, cp, v)
  {
    if cp in m {
      assert cp in keys && InSomeRun(t.runs, cp);
    }
    if InSomeRun(t.runs, cp) {
      var i :| 0 <= i < |t.runs| && InRun(t.runs[i], cp) && v == t.runs[i].target + (cp - t.runs[i].start);
      var k :| 0 <= k < t.runs[i].count && cp == Point(t.runs[i], k);
      assert RunOk(m, t.specials, t.runs[i]);
      assert RowOk(m, t.specials, t.runs[i], k);
    }
  }

  /** The table answers the mapping it was built from, for every non-ASCII code point: its
      target, the index of its two or three targets, or -1 when it has no row. */
  lemma TableAnswersMapping(m: Mapping, keys: seq<nat>, t: Table, cp: nat)
    requires IsMapping(m) && SortedKeys(keys, m) && Holds(m, keys, t) && 128 <= cp
    ensures HasStrides(HexTable(t.runs), |t.runs|)
    ensures AnswersMapping(m, t.specials, cp, MapCp(HexTable(t.runs), |t.runs|, cp))
  {
    TableIsWritable(m, keys, t);
    TableEncodes(t.runs);
    HeldRunsAreGood(m, keys, t);
    LookupAnswers(HexTable(t.runs), t.runs, cp);
    RunAnswersMapping(m, keys, t, cp, MapCp(HexTable(t.runs), |t.runs|, cp));
  }
}
