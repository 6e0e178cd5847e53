/** The generator end to end: the tables it writes for a dumped mapping serve the emitted walk,
    and the Final_Sigma rule the walk decides is the one section 3.13 of the Unicode Standard
    words, exactly when no code point is both cased and case-ignorable. */
module CaseTables {
  import opened HexFields
  import opened CaseRuns
  import opened CaseLookup
  import opened RangeTable
  import opened Utf8
  import opened CaseWalk

  ghost predicate GoodSets(r: Rules) {
    && Sorted(r.cased) && Sorted(r.ignorable)
    && (forall i :: 0 <= i < |r.cased| ==> r.cased[i] < 0x1000000)
    && (forall i :: 0 <= i < |r.ignorable| ==> r.ignorable[i] < 0x1000000)
  }

  lemma {:induction false} SpecialsArePadded(m: Mapping, keys: seq<nat>)
    requires IsMapping(m) && forall cp :: cp in keys ==> cp in m
    ensures var specials := TableOf(m, keys).specials;
      AllTriples(specials) && forall i, k :: 0 <= i < |specials| && 0 <= k < 3 ==> specials[i][k] < 0x1000000
  {
    if keys != [] {
      var n := |keys| - 1;
      SpecialsArePadded(m, keys[..n]);
      assert keys[n] in m;
    }
  }

  /** Reads the dump's rows and sets, in code-point order, and writes the literals. */
  method Emit(r: Rules, keys: seq<nat>) returns (t: Tables)
    requires GoodRules(r) && GoodSets(r) && SortedKeys(keys, r.mapping)
    ensures Serves(r, t)
  {
    var table := Build(r.mapping, keys);
    var cased := Ranges(r.cased);
    var ignorable := Ranges(r.ignorable);
    SpecialsArePadded(r.mapping, keys);
    t := Tables(HexTable(table.runs), |table.runs|, HexSpecials(table.specials),
                HexRanges(cased), |cased|, HexRanges(ignorable), |ignorable|);
    TablesServe(r, keys, table, t);
  }

  lemma TablesServe(r: Rules, keys: seq<nat>, table: Table, t: Tables)
    requires GoodRules(r) && GoodSets(r) && SortedKeys(keys, r.mapping)
    requires table == TableOf(r.mapping, keys) && Holds(r.mapping, keys, table) && AllTriples(table.specials)
    requires forall i, k :: 0 <= i < |table.specials| && 0 <= k < 3 ==> table.specials[i][k] < 0x1000000
    requires t == Tables(HexTable(table.runs), |table.runs|, HexSpecials(table.specials),
                         HexRanges(RangesOf(r.cased)), |RangesOf(r.cased)|,
                         HexRanges(RangesOf(r.ignorable)), |RangesOf(r.ignorable)|)
    ensures Serves(r, t)
  {
    TableAnswersMapping(r.mapping, keys, table, 128);
    forall cp: nat | 128 <= cp
      ensures Mapped(r, t, cp, MapCp(t.tbl, t.rows, cp))
    {
      LookupServes(r, keys, table, t, cp);
    }
    TableDecides(r.cased, 0);
    TableDecides(r.ignorable, 0);
    forall cp
      ensures InRanges(t.ctbl, 0, t.crows, cp) <==> cp in r.cased
      ensures InRanges(t.itbl, 0, t.irows, cp) <==> cp in r.ignorable
    {
      TableDecides(r.cased, cp);
      TableDecides(r.ignorable, cp);
    }
  }

  lemma LookupServes(r: Rules, keys: seq<nat>, table: Table, t: Tables, cp: nat)
    requires IsMapping(r.mapping) && SortedKeys(keys, r.mapping) && 128 <= cp
    requires Holds(r.mapping, keys, table) && AllTriples(table.specials)
    requires forall i, k :: 0 <= i < |table.specials| && 0 <= k < 3 ==> table.specials[i][k] < 0x1000000
    requires t.tbl == HexTable(table.runs) && t.rows == |table.runs| && t.sp == HexSpecials(table.specials)
    ensures HasStrides(t.tbl, t.rows)
    ensures Mapped(r, t, cp, MapCp(t.tbl, t.rows, cp))
  {
    TableAnswersMapping(r.mapping, keys, table, cp);
    var v := MapCp(t.tbl, t.rows, cp);
    if cp in r.mapping && |r.mapping[cp]| != 1 {
      var cs := table.specials[v - SPECIAL];
      SpecialRead(table.specials, v - SPECIAL);
      assert cs == [cs[0], cs[1], cs[2]];
    }
  }

  /** `string_to_lower` and `string_to_upper` from the dump to the bytes: for every valid UTF-8
      text the generated program writes the encoding of the mapped code points. */
  method ConvertWithGeneratedTables(r: Rules, keys: seq<nat>, s: seq<byte>, ghost cps: seq<int>)
    returns (buf: array<byte>, len: nat)
    requires GoodRules(r) && GoodSets(r) && SortedKeys(keys, r.mapping) && HoldsText(s, cps)
    ensures len <= 3 * |s| && len <= buf.Length
    ensures AllScalars(MapFrom(r, cps, 0)) && buf[..len] == EncodeAll(MapFrom(r, cps, 0))
    ensures IsUtf8(buf[..len])
  {
    var t := Emit(r, keys);
    buf, len := Convert(r, t, s, cps);
  }

  // ---------------------------------------------------------------- Final_Sigma as Unicode words it

  /** Before `k`: a cased letter and then zero or more case-ignorable characters. */
  ghost predicate UnicodeBefore(r: Rules, cps: seq<int>, k: nat)
    requires k <= |cps|
  {
    exists j :: 0 <= j < k && cps[j] in r.cased && forall i :: j < i < k ==> cps[i] in r.ignorable
  }

  /** From `k` on: zero or more case-ignorable characters and then a cased letter. */
  ghost predicate UnicodeFrom(r: Rules, cps: seq<int>, k: nat)
    requires k <= |cps|
  {
    exists j :: k <= j < |cps| && cps[j] in r.cased && forall i :: k <= i < j ==> cps[i] in r.ignorable
  }

  ghost predicate UnicodeFinal(r: Rules, cps: seq<int>, k: nat)
    requires k < |cps|
  {
    UnicodeBefore(r, cps, k) && !UnicodeFrom(r, cps, k + 1)
  }

  ghost predicate DisjointSets(r: Rules) {
    forall cp :: cp in r.cased ==> cp !in r.ignorable
  }

  lemma BothCharactersDisagree(r: Rules, cp: nat)
    requires cp in r.cased && cp in r.ignorable
    ensures UnicodeFinal(r, [cp, SIGMA], 1) && !IsFinal(r, [cp, SIGMA], 1)
  {
    var cps := [cp, SIGMA];
    assert cps[0] in r.cased;
    assert UnicodeBefore(r, cps, 1);
    assert !UnicodeFrom(r, cps, 2);
  }

  /** The scans skip every case-ignorable character first; the standard's wording lets a cased
      one stop the skip even when it is case-ignorable. The two rules give the same answer for
      every text exactly when no character is both. */
  lemma FinalSigmaAgreesIffDisjoint(r: Rules)
    ensures (forall cps, k: nat :: k < |cps| ==> (IsFinal(r, cps, k) <==> UnicodeFinal(r, cps, k))) <==> DisjointSets(r)
  {
    if DisjointSets(r) {
      forall cps: seq<int>, k: nat | k < |cps|
        ensures IsFinal(r, cps, k) <==> UnicodeFinal(r, cps, k)
      {
        assert CasedBefore(r, cps, k) <==> UnicodeBefore(r, cps, k);
        assert CasedFrom(r, cps, k + 1) <==> UnicodeFrom(r, cps, k + 1);
      }
    } else {
      var cp :| cp in r.cased && cp in r.ignorable;
      BothCharactersDisagree(r, cp);
      assert |[cp as int, SIGMA]| == 2;
    }
  }
}
