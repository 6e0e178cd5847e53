/** Building the case-mapping table: rows with one target and a constant distance become runs,
    rows with two or three targets go through the specials. */
module CaseRuns {
  /** Targets from here on are indices into the specials. */
  const SPECIAL := 0xF00000

  type Mapping = map<nat, seq<nat>>

  /** `count` code points from `start`, `stride` apart, map to as many targets from `target`. */
  datatype Run = Run(start: nat, target: nat, count: nat, stride: nat)

  datatype Table = Table(runs: seq<Run>, specials: seq<seq<nat>>)

  /** What a dumped mapping satisfies: code points of at most 24 bits, one to three nonzero
      targets each, below the specials' mark, and no more rows than the marks can number. */
  ghost predicate IsMapping(m: Mapping) {
    && |m| <= 0x100000
    && (forall cp :: cp in m ==> cp < 0x1000000 && 1 <= |m[cp]| <= 3)
    && (forall cp, i :: cp in m && 0 <= i < |m[cp]| ==> 0 < m[cp][i] < SPECIAL)
  }

  ghost predicate SortedKeys(keys: seq<nat>, m: Mapping) {
    && (forall i, j :: 0 <= i < j < |keys| ==> keys[i] < keys[j])
    && (forall cp :: cp in keys <==> cp in m)
  }

  function Padded(targets: seq<nat>): seq<nat>
    requires |targets| <= 3
  {
    targets + seq(3 - |targets|, _ => 0)
  }

  // ---------------------------------------------------------------- the builder

  predicate StartsPair(r: Run, cp: nat, tgt: nat) {
    r.target < SPECIAL && r.count == 1 && r.start + 1 <= cp <= r.start + 2 && tgt == r.target + (cp - r.start)
  }

  predicate Continues(r: Run, cp: nat, tgt: nat) {
    && r.target < SPECIAL && 1 < r.count < 255
    && cp == r.start + r.count * r.stride && tgt == r.target + (cp - r.start)
  }

  /** One row of the sorted mapping. */
  function AddRow(t: Table, cp: nat, targets: seq<nat>): Table
    requires |targets| <= 3
  {
    if cp < 128 then t
    else if |targets| != 1 then
      Table(t.runs + [Run(cp, SPECIAL + |t.specials|, 1, 1)], t.specials + [Padded(targets)])
    else
      var n := |t.runs| - 1;
      if n >= 0 && StartsPair(t.runs[n], cp, targets[0]) then
        t.(runs := t.runs[n := t.runs[n].(count := 2, stride := cp - t.runs[n].start)])
      else if n >= 0 && Continues(t.runs[n], cp, targets[0]) then
        t.(runs := t.runs[n := t.runs[n].(count := t.runs[n].count + 1)])
      else
        t.(runs := t.runs + [Run(cp, targets[0], 1, 1)])
  }

  function Point(r: Run, k: nat): nat {
    r.start + k * r.stride
  }

  /** The `k`-th code point of a run has the targets the run gives it. */
  ghost predicate RowOk(m: Mapping, specials: seq<seq<nat>>, r: Run, k: nat) {
    && Point(r, k) in m
    && var targets := m[Point(r, k)];
       if r.target < SPECIAL then targets == [r.target + k * r.stride]
       else r.count == 1 && r.target - SPECIAL < |specials| && 1 < |targets| <= 3
            && specials[r.target - SPECIAL] == Padded(targets)
  }

  ghost predicate RunOk(m: Mapping, specials: seq<seq<nat>>, r: Run) {
    && 128 <= r.start && 1 <= r.count <= 255 && 1 <= r.stride <= 2
    && (r.count == 1 ==> r.stride == 1)
    && forall k :: 0 <= k < r.count ==> RowOk(m, specials, r, k)
  }

  function Last(r: Run): int {
    r.start + (r.count - 1) * r.stride
  }

  ghost predicate InRun(r: Run, cp: nat) {
    exists k :: 0 <= k < r.count && cp == Point(r, k)
  }

  ghost predicate InSomeRun(runs: seq<Run>, cp: nat) {
    exists i :: 0 <= i < |runs| && InRun(runs[i], cp)
  }

  ghost predicate Disjoint(runs: seq<Run>) {
    forall i, j :: 0 <= i < j < |runs| ==> Last(runs[i]) < runs[j].start
  }

  /** The table holds the rows of `done` and nothing else. */
  ghost predicate Holds(m: Mapping, done: seq<nat>, t: Table) {
    && Disjoint(t.runs)
    && |t.specials| <= |done|
    && (forall i :: 0 <= i < |t.runs| ==> RunOk(m, t.specials, t.runs[i]))
    && (forall i :: 0 <= i < |t.runs| ==> done != [] && Last(t.runs[i]) <= done[|done| - 1])
    && (forall cp :: cp in done && 128 <= cp ==> InSomeRun(t.runs, cp))
  }

  lemma SpecialsGrow(m: Mapping, specials: seq<seq<nat>>, more: seq<seq<nat>>, r: Run)
    requires RunOk(m, specials, r) && specials <= more
    ensures RunOk(m, more, r)
  {
    forall k | 0 <= k < r.count
      ensures RowOk(m, more, r, k)
    {
      assert RowOk(m, specials, r, k);
    }
  }

  lemma Appends(m: Mapping, done: seq<nat>, t: Table, cp: nat, r: Run, more: seq<seq<nat>>)
    requires Holds(m, done, t) && t.specials <= more && |more| <= |done| + 1
    requires done == [] || done[|done| - 1] < cp
    requires RunOk(m, more, r) && r.start == cp && r.count == 1
    ensures Holds(m, done + [cp], Table(t.runs + [r], more))
  {
    var runs := t.runs + [r];
    forall i | 0 <= i < |runs|
      ensures RunOk(m, more, runs[i]) && Last(runs[i]) <= cp
    {
      if i < |t.runs| {
        SpecialsGrow(m, t.specials, more, t.runs[i]);
      }
    }
    forall c | c in done + [cp] && 128 <= c
      ensures InSomeRun(runs, c)
    {
      if c in done {
        var i :| 0 <= i < |t.runs| && InRun(t.runs[i], c);
        assert InRun(runs[i], c);
      } else {
        assert c == Point(r, 0);
        assert InRun(runs[|t.runs|], c);
      }
    }
  }

  /** Replacing the last run by one that also covers `cp`. */
  lemma Replaces(m: Mapping, done: seq<nat>, t: Table, cp: nat, r: Run)
    requires Holds(m, done, t) && t.runs != [] && done != [] && done[|done| - 1] < cp
    requires RunOk(m, t.specials, r) && Last(r) == cp
    requires r.start == t.runs[|t.runs| - 1].start
    requires forall c :: InRun(t.runs[|t.runs| - 1], c) ==> InRun(r, c)
    ensures Holds(m, done + [cp], t.(runs := t.runs[|t.runs| - 1 := r]))
  {
    var n := |t.runs| - 1;
    var runs := t.runs[n := r];
    assert Point(r, r.count - 1) == cp;
    assert InRun(runs[n], cp);
    forall c | c in done + [cp] && 128 <= c
      ensures InSomeRun(runs, c)
    {
      if c in done {
        var i :| 0 <= i < |t.runs| && InRun(t.runs[i], c);
        assert InRun(runs[i], c);
      }
    }
  }

  lemma PairHolds(m: Mapping, done: seq<nat>, t: Table, cp: nat, first: Run)
    requires IsMapping(m) && cp in m && |m[cp]| == 1 && Holds(m, done, t)
    requires t.runs != [] && first == t.runs[|t.runs| - 1] && done[|done| - 1] < cp
    requires StartsPair(first, cp, m[cp][0])
    ensures Holds(m, done + [cp], t.(runs := t.runs[|t.runs| - 1 := first.(count := 2, stride := cp - first.start)]))
  {
    var r := first.(count := 2, stride := cp - first.start);
    assert RunOk(m, t.specials, first) && RowOk(m, t.specials, first, 0);
    assert Point(r, 0) == Point(first, 0) == r.start && Point(r, 1) == cp;
    assert RowOk(m, t.specials, r, 0) && RowOk(m, t.specials, r, 1);
    forall k | 0 <= k < r.count
      ensures RowOk(m, t.specials, r, k)
    {
      assert k == 0 || k == 1;
    }
    assert forall c :: InRun(first, c) ==> c == Point(r, 0);
    Replaces(m, done, t, cp, r);
  }

  lemma NextHolds(m: Mapping, done: seq<nat>, t: Table, cp: nat, run: Run)
    requires IsMapping(m) && cp in m && |m[cp]| == 1 && Holds(m, done, t)
    requires t.runs != [] && run == t.runs[|t.runs| - 1] && done[|done| - 1] < cp
    requires Continues(run, cp, m[cp][0])
    ensures Holds(m, done + [cp], t.(runs := t.runs[|t.runs| - 1 := run.(count := run.count + 1)]))
  {
    var r := run.(count := run.count + 1);
    assert RunOk(m, t.specials, run);
    forall k | 0 <= k < r.count
      ensures RowOk(m, t.specials, r, k)
    {
      if k < run.count {
        assert RowOk(m, t.specials, run, k) && Point(r, k) == Point(run, k);
      }
    }
    forall c | InRun(run, c)
      ensures InRun(r, c)
    {
      var k :| 0 <= k < run.count && c == Point(run, k);
      assert c == Point(r, k);
    }
    Replaces(m, done, t, cp, r);
  }

  lemma NewHolds(m: Mapping, done: seq<nat>, t: Table, cp: nat)
    requires IsMapping(m) && cp in m && 128 <= cp && Holds(m, done, t)
    requires done == [] || done[|done| - 1] < cp
    ensures |m[cp]| == 1 ==> Holds(m, done + [cp], t.(runs := t.runs + [Run(cp, m[cp][0], 1, 1)]))
    ensures |m[cp]| != 1 ==> Holds(m, done + [cp],
      Table(t.runs + [Run(cp, SPECIAL + |t.specials|, 1, 1)], t.specials + [Padded(m[cp])]))
  {
    if |m[cp]| == 1 {
      var r := Run(cp, m[cp][0], 1, 1);
      assert RowOk(m, t.specials, r, 0);
      Appends(m, done, t, cp, r, t.specials);
    } else {
      var r := Run(cp, SPECIAL + |t.specials|, 1, 1);
      var more := t.specials + [Padded(m[cp])];
      assert RowOk(m, more, r, 0);
      Appends(m, done, t, cp, r, more);
    }
  }

  lemma AsciiHolds(m: Mapping, done: seq<nat>, t: Table, cp: nat)
    requires cp < 128 && Holds(m, done, t)
    requires done == [] || done[|done| - 1] < cp
    ensures Holds(m, done + [cp], t)
  {
    forall c | c in done + [cp] && 128 <= c
      ensures InSomeRun(t.runs, c)
    {
      assert c in done;
    }
  }

  lemma AddRowHolds(m: Mapping, done: seq<nat>, t: Table, cp: nat)
    requires IsMapping(m) && cp in m && Holds(m, done, t)
    requires done == [] || done[|done| - 1] < cp
    ensures Holds(m, done + [cp], AddRow(t, cp, m[cp]))
  {
    var n := |t.runs| - 1;
    if cp < 128 {
      AsciiHolds(m, done, t, cp);
    } else if |m[cp]| == 1 && n >= 0 && StartsPair(t.runs[n], cp, m[cp][0]) {
      PairHolds(m, done, t, cp, t.runs[n]);
    } else if |m[cp]| == 1 && n >= 0 && Continues(t.runs[n], cp, m[cp][0]) {
      NextHolds(m, done, t, cp, t.runs[n]);
    } else {
      NewHolds(m, done, t, cp);
    }
  }

  function TableOf(m: Mapping, keys: seq<nat>): Table
    requires forall cp :: cp in keys ==> cp in m && |m[cp]| <= 3
  {
    if keys == [] then Table([], [])
    else
      var n := |keys| - 1;
      AddRow(TableOf(m, keys[..n]), keys[n], m[keys[n]])
  }

  lemma {:induction false} TableHolds(m: Mapping, keys: seq<nat>, n: nat)
    requires IsMapping(m) && SortedKeys(keys, m) && n <= |keys|
    ensures Holds(m, keys[..n], TableOf(m, keys[..n]))
  {
    if n > 0 {
      TableHolds(m, keys, n - 1);
      assert keys[..n][..n - 1] == keys[..n - 1];
      assert keys[..n] == keys[..n - 1] + [keys[n - 1]];
      AddRowHolds(m, keys[..n - 1], TableOf(m, keys[..n - 1]), keys[n - 1]);
    }
  }

  /** The rows in code-point order, one run at a time. */
  method Build(m: Mapping, keys: seq<nat>) returns (t: Table)
    requires IsMapping(m) && SortedKeys(keys, m)
    ensures t == TableOf(m, keys)
    ensures Holds(m, keys, t)
  {
    hide TableOf;
    hide Continues;
    hide Padded;
    var runs: seq<Run> := [];
    var specials: seq<seq<nat>> := [];
    NoRows(m, keys);
    for n := 0 to |keys|
      invariant Table(runs, specials) == TableOf(m, keys[..n])
    {
      NextRow(m, keys, n);
      var cp := keys[n];
      if cp < 128 {
        continue;
      }
      var targets := m[cp];
      if |targets| != 1 {
        specials := specials + [Padded(targets)];
        runs := runs + [Run(cp, SPECIAL + |specials| - 1, 1, 1)];
        continue;
      }
      var last := |runs| - 1;
      if last >= 0 && StartsPair(runs[last], cp, targets[0]) {
        runs := runs[last := runs[last].(count := 2, stride := cp - runs[last].start)];
      } else if last >= 0 && Continues(runs[last], cp, targets[0]) {
        runs := runs[last := runs[last].(count := runs[last].count + 1)];
      } else {
        runs := runs + [Run(cp, targets[0], 1, 1)];
      }
    }
    assert keys[..|keys|] == keys;
    t := Table(runs, specials);
    TableHolds(m, keys, |keys|);
  }

  lemma NoRows(m: Mapping, keys: seq<nat>)
    requires IsMapping(m) && SortedKeys(keys, m)
    ensures TableOf(m, keys[..0]) == Table([], [])
  {
  }

  lemma NextRow(m: Mapping, keys: seq<nat>, n: nat)
    requires IsMapping(m) && SortedKeys(keys, m) && n < |keys|
    ensures keys[n] in m && TableOf(m, keys[..n + 1]) == AddRow(TableOf(m, keys[..n]), keys[n], m[keys[n]])
  {
    assert keys[..n + 1][..n] == keys[..n];
    assert keys[n] in keys;
  }

  // ---------------------------------------------------------------- no shorter by joining

  /** The second run goes on where the first stops: a pair of rows one or two apart, or the next row of
      a longer run that has room. */
  ghost predicate Joins(a: Run, b: Run) {
    && a.target < 0xF00000 && b.target < 0xF00000 && b.target - a.target == b.start - a.start
    && ((a.count == 1 && (b.start == a.start + 1 || b.start == a.start + 2))
        || (2 <= a.count <= 254 && b.start == a.start + a.count * a.stride))
  }

  ghost predicate NoneJoin(runs: seq<Run>) {
    forall i :: 0 <= i < |runs| - 1 ==> !Joins(runs[i], runs[i + 1])
  }

  /** No two neighbouring runs could have been one. */
  lemma {:induction false} RunsAreMaximal(m: Mapping, keys: seq<nat>)
    requires IsMapping(m) && forall cp :: cp in keys ==> cp in m
    ensures NoneJoin(TableOf(m, keys).runs)
  {
    if keys != [] {
      var n := |keys| - 1;
      RunsAreMaximal(m, keys[..n]);
      assert keys[n] in m;
      RowKeepsMaximal(TableOf(m, keys[..n]), keys[n], m[keys[n]]);
    }
  }

  lemma RowKeepsMaximal(t: Table, cp: nat, targets: seq<nat>)
    requires |targets| <= 3 && NoneJoin(t.runs)
    ensures NoneJoin(AddRow(t, cp, targets).runs)
  {
    var before, after := t.runs, AddRow(t, cp, targets).runs;
    forall i | 0 <= i < |after| - 1
      ensures !Joins(after[i], after[i + 1])
    {
      if i + 1 < |before| {
        assert !Joins(before[i], before[i + 1]);
      }
    }
  }
}
