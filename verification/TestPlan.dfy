/** Planning a native test run: files share a program, first fit, unless a name would get an owner
    set that none of them has. */
module TestPlan {
  import opened Options

  /** For each declared name, the files that declare it among those one test file loads. */
  type Owners = map<string, set<string>>

  datatype Member = Member(file: string, index: nat)

  datatype Batch = Batch(have: Owners, members: seq<Member>)

  predicate Comparable(a: set<string>, b: set<string>) {
    a <= b || b <= a
  }

  /** For every name both own, one owner set holds the other. */
  predicate Fits(have: Owners, mine: Owners) {
    forall n :: n in mine && n in have ==> Comparable(have[n], mine[n])
  }

  function Larger(have: set<string>, mine: set<string>): set<string> {
    if |mine| > |have| then mine else have
  }

  function Joined(have: Owners, mine: Owners): Owners {
    map n | n in have.Keys + mine.Keys ::
      if n !in mine then have[n] else if n !in have then Larger({}, mine[n]) else Larger(have[n], mine[n])
  }

  /** The first batch the file fits, or their number. */
  function FirstFit(batches: seq<Batch>, mine: Owners): (j: nat)
    ensures j <= |batches|
    ensures j < |batches| ==> Fits(batches[j].have, mine)
    ensures forall k :: 0 <= k < j ==> !Fits(batches[k].have, mine)
  {
    if batches == [] || Fits(batches[0].have, mine) then 0 else 1 + FirstFit(batches[1..], mine)
  }

  function Place(batches: seq<Batch>, mine: Owners, m: Member): seq<Batch> {
    var j := FirstFit(batches, mine);
    if j == |batches| then batches + [Batch(mine, [m])]
    else batches[j := Batch(Joined(batches[j].have, mine), batches[j].members + [m])]
  }

  /** The batches after the first `n` files. */
  function Planned(files: seq<string>, facts: seq<Option<Owners>>, n: nat): seq<Batch>
    requires n <= |files| == |facts|
  {
    if n == 0 then []
    else
      var before := Planned(files, facts, n - 1);
      if facts[n - 1].None? then before else Place(before, facts[n - 1].value, Member(files[n - 1], n - 1))
  }

  function BuiltAlone(files: seq<string>, facts: seq<Option<Owners>>, n: nat): seq<string>
    requires n <= |files| == |facts|
  {
    if n == 0 then []
    else BuiltAlone(files, facts, n - 1) + (if facts[n - 1].None? then [files[n - 1]] else [])
  }

  // ---------------------------------------------------------------- the planner

  ghost predicate HalfJoined(have: Owners, mine: Owners, done: set<string>, now: Owners)
    requires done <= mine.Keys
  {
    && now.Keys == have.Keys + done
    && forall n :: n in now ==> now[n] == if n in done then Joined(have, mine)[n] else have[n]
  }

  lemma JoinOne(have: Owners, mine: Owners, done: set<string>, now: Owners, n: string)
    requires done <= mine.Keys && HalfJoined(have, mine, done, now) && n in mine && n !in done
    ensures HalfJoined(have, mine, done + {n}, now[n := Larger(if n in now then now[n] else {}, mine[n])])
  {
  }

  /** Adds a file's owners to a batch's record, name by name. */
  method Record(have: Owners, mine: Owners) returns (now: Owners)
    ensures now == Joined(have, mine)
  {
    now := have;
    var rest := mine.Keys;
    JoinNone(have, mine);
    hide HalfJoined;
    hide Joined;
    while rest != {}
      invariant rest <= mine.Keys
      invariant HalfJoined(have, mine, mine.Keys - rest, now)
      decreases |rest|
    {
      var n :| n in rest;
      JoinOne(have, mine, mine.Keys - rest, now, n);
      assert mine.Keys - rest + {n} == mine.Keys - (rest - {n});
      var h := if n in now then now[n] else {};
      now := now[n := Larger(h, mine[n])];
      rest := rest - {n};
    }
    assert mine.Keys - rest == mine.Keys;
    JoinAll(have, mine, now);
  }

  lemma JoinNone(have: Owners, mine: Owners)
    ensures HalfJoined(have, mine, mine.Keys - mine.Keys, have)
  {
  }

  lemma JoinAll(have: Owners, mine: Owners, now: Owners)
    requires HalfJoined(have, mine, mine.Keys, now)
    ensures now == Joined(have, mine)
  {
    assert now.Keys == Joined(have, mine).Keys;
  }

  method PlanTestRun(files: seq<string>, facts: seq<Option<Owners>>)
    returns (batches: seq<Batch>, alone: seq<string>)
    requires |files| == |facts|
    ensures batches == Planned(files, facts, |files|)
    ensures alone == BuiltAlone(files, facts, |files|)
  {
    batches, alone := [], [];
    for n := 0 to |files|
      invariant batches == Planned(files, facts, n)
      invariant alone == BuiltAlone(files, facts, n)
    {
      if facts[n].None? {
        alone := alone + [files[n]];
        continue;
      }
      var mine := facts[n].value;
      var m := Member(files[n], n);
      var j := 0;
      while j < |batches| && !Fits(batches[j].have, mine)
        invariant j <= |batches|
        invariant forall k :: 0 <= k < j ==> !Fits(batches[k].have, mine)
      {
        j := j + 1;
      }
      assert j == FirstFit(batches, mine);
      if j < |batches| {
        var have := Record(batches[j].have, mine);
        batches := batches[j := Batch(have, batches[j].members + [m])];
      } else {
        batches := batches + [Batch(mine, [m])];
      }
    }
  }

  // ---------------------------------------------------------------- what a batch records

  predicate AreFacts(facts: seq<Option<Owners>>, members: seq<Member>) {
    forall k :: 0 <= k < |members| ==> members[k].index < |facts| && facts[members[k].index].Some?
  }

  function OwnersOf(facts: seq<Option<Owners>>, members: seq<Member>, k: nat): Owners
    requires AreFacts(facts, members) && k < |members|
  {
    facts[members[k].index].value
  }

  /** Some member owns `n` with exactly this set. */
  predicate IsOwned(facts: seq<Option<Owners>>, members: seq<Member>, n: string, owners: set<string>)
    requires AreFacts(facts, members)
  {
    exists k :: 0 <= k < |members| && n in OwnersOf(facts, members, k) && OwnersOf(facts, members, k)[n] == owners
  }

  predicate IsCovered(facts: seq<Option<Owners>>, b: Batch, k: nat)
    requires AreFacts(facts, b.members) && k < |b.members|
  {
    forall n :: n in OwnersOf(facts, b.members, k) ==> n in b.have && OwnersOf(facts, b.members, k)[n] <= b.have[n]
  }

  /** The recorded owner set of every name is the union of its members' sets, and one of them. */
  ghost predicate Records(facts: seq<Option<Owners>>, b: Batch) {
    && AreFacts(facts, b.members)
    && (forall k :: 0 <= k < |b.members| ==> IsCovered(facts, b, k))
    && (forall n :: n in b.have ==> IsOwned(facts, b.members, n, b.have[n]))
  }

  lemma OwnedStays(facts: seq<Option<Owners>>, members: seq<Member>, m: Member, n: string, owners: set<string>)
    requires AreFacts(facts, members) && IsOwned(facts, members, n, owners)
    requires m.index < |facts| && facts[m.index].Some?
    ensures IsOwned(facts, members + [m], n, owners)
  {
    var k :| 0 <= k < |members| && n in OwnersOf(facts, members, k) && OwnersOf(facts, members, k)[n] == owners;
    assert OwnersOf(facts, members + [m], k) == OwnersOf(facts, members, k);
  }

  lemma JoiningOwns(facts: seq<Option<Owners>>, members: seq<Member>, m: Member, n: string)
    requires AreFacts(facts, members) && m.index < |facts| && facts[m.index].Some? && n in facts[m.index].value
    ensures IsOwned(facts, members + [m], n, facts[m.index].value[n])
  {
    assert OwnersOf(facts, members + [m], |members|) == facts[m.index].value;
  }

  lemma LargerIsUnion(have: set<string>, mine: set<string>)
    requires Comparable(have, mine)
    ensures Larger(have, mine) == have + mine
  {
    if have <= mine {
      assert mine == have + (mine - have);
      if |mine| <= |have| {
        assert |mine - have| == 0;
      }
    } else {
      assert have == mine + (have - mine);
    }
  }

  /** A file that fits gives no name an owner set that neither a member nor the file has. */
  lemma JoinRecords(facts: seq<Option<Owners>>, b: Batch, m: Member)
    requires Records(facts, b) && m.index < |facts| && facts[m.index].Some?
    requires Fits(b.have, facts[m.index].value)
    ensures Records(facts, Batch(Joined(b.have, facts[m.index].value), b.members + [m]))
  {
    var mine := facts[m.index].value;
    var now := Batch(Joined(b.have, mine), b.members + [m]);
    forall n | n in now.have
      ensures IsOwned(facts, now.members, n, now.have[n])
      ensures n in b.have ==> b.have[n] <= now.have[n]
      ensures n in mine ==> mine[n] <= now.have[n]
    {
      JoinedName(b.have, mine, n);
      if n in b.have {
        OwnedStays(facts, b.members, m, n, b.have[n]);
      }
      if n in mine {
        JoiningOwns(facts, b.members, m, n);
      }
    }
    forall k | 0 <= k < |now.members|
      ensures IsCovered(facts, now, k)
    {
      if k < |b.members| {
        assert IsCovered(facts, b, k);
        assert OwnersOf(facts, now.members, k) == OwnersOf(facts, b.members, k);
      }
    }
  }

  /** What a join makes of one name. */
  lemma JoinedName(have: Owners, mine: Owners, n: string)
    requires Fits(have, mine) && n in Joined(have, mine)
    ensures n in have ==> have[n] <= Joined(have, mine)[n]
    ensures n in mine ==> mine[n] <= Joined(have, mine)[n]
    ensures (n in have && Joined(have, mine)[n] == have[n]) || (n in mine && Joined(have, mine)[n] == mine[n])
  {
    if n in mine {
      LargerIsUnion(if n in have then have[n] else {}, mine[n]);
    }
  }

  lemma FoundRecords(facts: seq<Option<Owners>>, m: Member)
    requires m.index < |facts| && facts[m.index].Some?
    ensures Records(facts, Batch(facts[m.index].value, [m]))
  {
    var mine := facts[m.index].value;
    forall n | n in mine
      ensures IsOwned(facts, [m], n, mine[n])
    {
      assert [] + [m] == [m];
      JoiningOwns(facts, [], m, n);
    }
  }

  /** Every batch of a plan records its members' owners. */
  lemma {:induction false} BatchesRecord(files: seq<string>, facts: seq<Option<Owners>>, n: nat)
    requires n <= |files| == |facts|
    ensures forall j :: 0 <= j < |Planned(files, facts, n)| ==> Records(facts, Planned(files, facts, n)[j])
  {
    if n > 0 {
      BatchesRecord(files, facts, n - 1);
      if facts[n - 1].Some? {
        var before, mine, m := Planned(files, facts, n - 1), facts[n - 1].value, Member(files[n - 1], n - 1);
        var j := FirstFit(before, mine);
        FoundRecords(facts, m);
        if j < |before| {
          JoinRecords(facts, before[j], m);
        }
      }
    }
  }

  /** A name that each of two members owns once, as a file owns a module name, has the same owner
      in both: one program loads one module per name. */
  lemma SingleOwnersAgree(facts: seq<Option<Owners>>, b: Batch, n: string, i: nat, j: nat)
    requires Records(facts, b) && i < |b.members| && j < |b.members|
    requires n in OwnersOf(facts, b.members, i) && n in OwnersOf(facts, b.members, j)
    requires forall k :: 0 <= k < |b.members| && n in OwnersOf(facts, b.members, k) ==>
      |OwnersOf(facts, b.members, k)[n]| == 1
    ensures n in b.have
    ensures OwnersOf(facts, b.members, i)[n] == OwnersOf(facts, b.members, j)[n] == b.have[n]
  {
    assert IsCovered(facts, b, i) && IsCovered(facts, b, j);
    assert IsOwned(facts, b.members, n, b.have[n]);
    SameSize(OwnersOf(facts, b.members, i)[n], b.have[n]);
    SameSize(OwnersOf(facts, b.members, j)[n], b.have[n]);
  }

  lemma SameSize(a: set<string>, b: set<string>)
    requires a <= b && |a| == |b|
    ensures a == b
  {
    assert b == a + (b - a);
    assert |b - a| == 0;
  }

  // ---------------------------------------------------------------- each file once

  function AllMembers(batches: seq<Batch>): multiset<Member> {
    if batches == [] then multiset{}
    else AllMembers(batches[..|batches| - 1]) + multiset(batches[|batches| - 1].members)
  }

  lemma {:induction false} AllMembersUpdate(batches: seq<Batch>, j: nat, b: Batch, m: Member)
    requires j < |batches| && b.members == batches[j].members + [m]
    ensures AllMembers(batches[j := b]) == AllMembers(batches) + multiset{m}
  {
    var last := |batches| - 1;
    if j == last {
      assert batches[j := b][..last] == batches[..last];
    } else {
      AllMembersUpdate(batches[..last], j, b, m);
      assert batches[j := b][..last] == batches[..last][j := b];
    }
  }

  lemma AllMembersAdd(batches: seq<Batch>, b: Batch)
    ensures AllMembers(batches + [b]) == AllMembers(batches) + multiset(b.members)
  {
    assert (batches + [b])[..|batches|] == batches;
  }

  lemma OneMoreFile(files: seq<string>, facts: seq<Option<Owners>>, n: nat)
    requires 0 < n <= |files| == |facts|
    ensures AllMembers(Planned(files, facts, n)) ==
      AllMembers(Planned(files, facts, n - 1))
      + (if facts[n - 1].Some? then multiset{Member(files[n - 1], n - 1)} else multiset{})
    ensures facts[n - 1].None? ==> AllMembers(Planned(files, facts, n)) == AllMembers(Planned(files, facts, n - 1))
  {
    if facts[n - 1].Some? {
      PlaceAddsOne(Planned(files, facts, n - 1), facts[n - 1].value, Member(files[n - 1], n - 1));
      hide Place;
      hide AllMembers;
    }
  }

  lemma NoFiles(files: seq<string>, facts: seq<Option<Owners>>)
    requires |files| == |facts|
    ensures AllMembers(Planned(files, facts, 0)) == multiset{} && BuiltAlone(files, facts, 0) == []
  {
  }

  lemma OneMoreTimes(ms: multiset<Member>, one: Member, m: Member)
    ensures (ms + multiset{one})[m] == ms[m] + (if m == one then 1 else 0)
    ensures |ms + multiset{one}| == |ms| + 1
  {
  }

  predicate IsShared(files: seq<string>, facts: seq<Option<Owners>>, n: nat, m: Member)
    requires n <= |files| == |facts|
  {
    m.index < n && facts[m.index].Some? && files[m.index] == m.file
  }

  /** Every file that is not built alone is in exactly one batch, once. */
  lemma {:induction false} EachFileOnce(files: seq<string>, facts: seq<Option<Owners>>, n: nat, m: Member)
    requires n <= |files| == |facts|
    ensures AllMembers(Planned(files, facts, n))[m] == if IsShared(files, facts, n, m) then 1 else 0
  {
    hide Planned;
    hide AllMembers;
    if n == 0 {
      NoFiles(files, facts);
    } else {
      EachFileOnce(files, facts, n - 1, m);
      OneMoreFile(files, facts, n);
      OneMoreTimes(AllMembers(Planned(files, facts, n - 1)), Member(files[n - 1], n - 1), m);
      assert m == Member(m.file, m.index);
    }
  }

  lemma PlaceAddsOne(batches: seq<Batch>, mine: Owners, m: Member)
    ensures AllMembers(Place(batches, mine, m)) == AllMembers(batches) + multiset{m}
  {
    var j := FirstFit(batches, mine);
    if j < |batches| {
      AllMembersUpdate(batches, j, Batch(Joined(batches[j].have, mine), batches[j].members + [m]), m);
    } else {
      AllMembersAdd(batches, Batch(mine, [m]));
      assert multiset([m]) == multiset{m};
    }
  }

  /** Together the batches and the files built alone are as many as the files. */
  lemma {:induction false} NoFileLost(files: seq<string>, facts: seq<Option<Owners>>, n: nat)
    requires n <= |files| == |facts|
    ensures |AllMembers(Planned(files, facts, n))| + |BuiltAlone(files, facts, n)| == n
  {
    hide Planned;
    hide AllMembers;
    if n == 0 {
      NoFiles(files, facts);
    } else {
      NoFileLost(files, facts, n - 1);
      OneMoreFile(files, facts, n);
      var last := Member(files[n - 1], n - 1);
      OneMoreTimes(AllMembers(Planned(files, facts, n - 1)), last, last);
    }
  }

  /** The files built alone are exactly those without owners. */
  lemma {:induction false} AloneIffNoOwners(files: seq<string>, facts: seq<Option<Owners>>, n: nat, f: string)
    requires n <= |files| == |facts|
    ensures f in BuiltAlone(files, facts, n) <==> IsAlone(files, facts, n, f)
  {
    if n > 0 {
      AloneIffNoOwners(files, facts, n - 1, f);
      if facts[n - 1].None? && files[n - 1] == f {
        assert IsAlone(files, facts, n, f);
      } else if IsAlone(files, facts, n, f) {
        var i :| 0 <= i < n && files[i] == f && facts[i].None?;
        assert i < n - 1;
      }
    }
  }

  predicate IsAlone(files: seq<string>, facts: seq<Option<Owners>>, n: nat, f: string)
    requires n <= |files| == |facts|
  {
    exists i :: 0 <= i < n && files[i] == f && facts[i].None?
  }
}
