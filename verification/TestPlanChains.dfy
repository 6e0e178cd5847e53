/** When the members of a batch own each name by sets that form a chain. A file is tested only against
    the batch's record, so a batch need not be a chain; which families of owner maps can only give
    chains is decided here by the families alone. */
module TestPlanChains {
  import opened Options
  import opened TestPlan

  /** For every name, the owner sets form a chain under inclusion. */
  predicate IsChain(ms: seq<Owners>) {
    forall i, j :: 0 <= i < |ms| && 0 <= j < |ms| ==> Fits(ms[i], ms[j])
  }

  /** The record of files that join one after the other. */
  function JoinOf(ms: seq<Owners>): Owners
    requires ms != []
  {
    if |ms| == 1 then ms[0] else Joined(JoinOf(ms[..|ms| - 1]), ms[|ms| - 1])
  }

  predicate ComparesWithAll(ms: seq<Owners>, k: Owners) {
    forall i :: 0 <= i < |ms| ==> Fits(ms[i], k)
  }

  function OwnersList(facts: seq<Option<Owners>>, members: seq<Member>): (ms: seq<Owners>)
    requires AreFacts(facts, members)
  {
    seq(|members|, k requires 0 <= k < |members| => OwnersOf(facts, members, k))
  }

  // ---------------------------------------------------------------- families of owner maps

  ghost predicate IsFrom(family: iset<Owners>, ms: seq<Owners>) {
    forall i :: 0 <= i < |ms| ==> ms[i] in family
  }

  ghost predicate AreFrom(family: iset<Owners>, facts: seq<Option<Owners>>) {
    forall i :: 0 <= i < |facts| && facts[i].Some? ==> facts[i].value in family
  }

  ghost predicate IsChainBatch(facts: seq<Option<Owners>>, b: Batch) {
    AreFacts(facts, b.members) && IsChain(OwnersList(facts, b.members))
  }

  ghost predicate GivesChains(files: seq<string>, facts: seq<Option<Owners>>) {
    |files| == |facts| ==> forall b :: b in Planned(files, facts, |files|) ==> IsChainBatch(facts, b)
  }

  /** Every plan over files of the family has only chain batches. */
  ghost predicate OnlyChains(family: iset<Owners>) {
    forall files, facts {:trigger GivesChains(files, facts)} :: AreFrom(family, facts) ==> GivesChains(files, facts)
  }

  /** Whatever fits the join of a chain compares with each of its members. */
  ghost predicate JoinSpeaksForAll(family: iset<Owners>) {
    forall ms, k {:trigger ComparesWithAll(ms, k)} ::
      ms != [] && IsFrom(family, ms) && IsChain(ms) && k in family && Fits(JoinOf(ms), k) ==> ComparesWithAll(ms, k)
  }

  // ---------------------------------------------------------------- joins of chains

  predicate IsOneOf(ms: seq<Owners>, n: string, owners: set<string>) {
    exists i :: 0 <= i < |ms| && n in ms[i] && ms[i][n] == owners
  }

  lemma OneOfMore(ms: seq<Owners>, k: Owners, n: string, owners: set<string>)
    requires IsOneOf(ms, n, owners)
    ensures IsOneOf(ms + [k], n, owners)
  {
    var i :| 0 <= i < |ms| && n in ms[i] && ms[i][n] == owners;
    assert (ms + [k])[i] == ms[i];
  }

  /** `have` has each member's names, with the greatest of their sets. */
  ghost predicate IsGreatest(ms: seq<Owners>, have: Owners) {
    && (forall n {:trigger have[n]} :: n in have ==> IsOneOf(ms, n, have[n]))
    && (forall i {:trigger IsBelow(ms[i], have)} :: 0 <= i < |ms| ==> IsBelow(ms[i], have))
  }

  predicate IsBelow(mine: Owners, have: Owners) {
    forall n :: n in mine ==> n in have && mine[n] <= have[n]
  }

  lemma GreatestMore(ms: seq<Owners>, have: Owners, k: Owners)
    requires IsGreatest(ms, have) && Fits(have, k)
    ensures IsGreatest(ms + [k], Joined(have, k))
  {
    var more, now := ms + [k], Joined(have, k);
    forall n | n in now
      ensures IsOneOf(more, n, now[n]) && (n in have ==> have[n] <= now[n]) && (n in k ==> k[n] <= now[n])
    {
      JoinedName(have, k, n);
      if n in have && now[n] == have[n] {
        OneOfMore(ms, k, n, have[n]);
      } else {
        assert more[|ms|] == k;
      }
    }
    hide Joined;
    hide IsOneOf;
    forall i | 0 <= i < |more|
      ensures IsBelow(more[i], now)
    {
      assert i < |ms| ==> more[i] == ms[i] && IsBelow(ms[i], have);
    }
  }

  /** The join of a chain has each member's names, with the greatest of their sets. */
  lemma {:induction false} JoinIsGreatest(ms: seq<Owners>)
    requires ms != [] && IsChain(ms)
    ensures IsGreatest(ms, JoinOf(ms))
  {
    if |ms| > 1 {
      var front, last := ms[..|ms| - 1], ms[|ms| - 1];
      assert ms == front + [last];
      JoinIsGreatest(front);
      ChainFits(front, last);
      GreatestMore(front, JoinOf(front), last);
    } else {
      assert forall n :: n in ms[0] ==> IsOneOf(ms, n, ms[0][n]);
    }
  }

  /** A member that compares with all fits the join. */
  lemma ChainFits(ms: seq<Owners>, k: Owners)
    requires ms != [] && IsChain(ms) && ComparesWithAll(ms, k)
    requires IsGreatest(ms, JoinOf(ms))
    ensures Fits(JoinOf(ms), k)
  {
    forall n | n in k && n in JoinOf(ms)
      ensures Comparable(JoinOf(ms)[n], k[n])
    {
      assert IsOneOf(ms, n, JoinOf(ms)[n]);
      var i :| 0 <= i < |ms| && n in ms[i] && ms[i][n] == JoinOf(ms)[n];
      assert Fits(ms[i], k);
    }
  }

  lemma ChainMore(ms: seq<Owners>, k: Owners)
    requires IsChain(ms) && ComparesWithAll(ms, k)
    ensures IsChain(ms + [k])
  {
    var more := ms + [k];
    forall i, j | 0 <= i < |more| && 0 <= j < |more|
      ensures Fits(more[i], more[j])
    {
      if i < |ms| && j == |ms| {
        assert Fits(ms[i], k);
      } else if j < |ms| && i == |ms| {
        assert Fits(ms[j], k);
      }
    }
  }

  // ---------------------------------------------------------------- chains only, if the join speaks for all

  /** A batch is a chain of the family, and its record is their join. */
  ghost predicate IsJoin(family: iset<Owners>, facts: seq<Option<Owners>>, b: Batch) {
    && b.members != [] && AreFacts(facts, b.members)
    && IsChain(OwnersList(facts, b.members)) && IsFrom(family, OwnersList(facts, b.members))
    && b.have == JoinOf(OwnersList(facts, b.members))
  }

  lemma JoinsMore(family: iset<Owners>, facts: seq<Option<Owners>>, b: Batch, m: Member)
    requires JoinSpeaksForAll(family) && IsJoin(family, facts, b)
    requires m.index < |facts| && facts[m.index].Some? && facts[m.index].value in family
    requires Fits(b.have, facts[m.index].value)
    ensures IsJoin(family, facts, Batch(Joined(b.have, facts[m.index].value), b.members + [m]))
  {
    var ms, k := OwnersList(facts, b.members), facts[m.index].value;
    assert ComparesWithAll(ms, k);
    ChainMore(ms, k);
    var more := OwnersList(facts, b.members + [m]);
    assert more == ms + [k];
    assert more[..|more| - 1] == ms;
  }

  lemma {:induction false} PlannedAreJoins(
    family: iset<Owners>, files: seq<string>, facts: seq<Option<Owners>>, n: nat)
    requires JoinSpeaksForAll(family) && AreFrom(family, facts) && n <= |files| == |facts|
    ensures forall b :: b in Planned(files, facts, n) ==> IsJoin(family, facts, b)
  {
    if n > 0 {
      PlannedAreJoins(family, files, facts, n - 1);
      if facts[n - 1].Some? {
        var before, mine, m := Planned(files, facts, n - 1), facts[n - 1].value, Member(files[n - 1], n - 1);
        var j := FirstFit(before, mine);
        if j < |before| {
          JoinsMore(family, facts, before[j], m);
        } else {
          assert OwnersList(facts, [m]) == [mine];
        }
      }
    }
  }

  // ---------------------------------------------------------------- a plan of one chain, and one file more

  /** One file for each owner map. */
  function FactsFor(ms: seq<Owners>): seq<Option<Owners>> {
    seq(|ms|, i requires 0 <= i < |ms| => Some(ms[i]))
  }

  function FilesFor(ms: seq<Owners>): seq<string> {
    seq(|ms|, i => "")
  }

  function MembersFor(n: nat): seq<Member> {
    seq(n, i requires 0 <= i < n => Member("", i))
  }

  lemma PlacesInOne(b: Batch, mine: Owners, m: Member)
    requires Fits(b.have, mine)
    ensures Place([b], mine, m) == [Batch(Joined(b.have, mine), b.members + [m])]
  {
  }

  /** The files of a chain, and any other file that fits their join, share one batch. */
  lemma {:induction false} PlansInOne(ms: seq<Owners>, n: nat)
    requires 0 < n <= |ms|
    requires forall i :: 0 < i < n ==> Fits(JoinOf(ms[..i]), ms[i])
    ensures Planned(FilesFor(ms), FactsFor(ms), n) == [Batch(JoinOf(ms[..n]), MembersFor(n))]
  {
    var files, facts := FilesFor(ms), FactsFor(ms);
    assert ms[..n][..n - 1] == ms[..n - 1];
    if n == 1 {
      assert Planned(files, facts, 0) == [];
      assert MembersFor(1) == [Member("", 0)];
    } else {
      PlansInOne(ms, n - 1);
      PlacesInOne(Batch(JoinOf(ms[..n - 1]), MembersFor(n - 1)), ms[n - 1], Member("", n - 1));
      assert MembersFor(n) == MembersFor(n - 1) + [Member("", n - 1)];
    }
  }

  lemma PrefixFits(ms: seq<Owners>, i: nat)
    requires IsChain(ms) && 0 < i < |ms|
    ensures Fits(JoinOf(ms[..i]), ms[i])
  {
    JoinIsGreatest(ms[..i]);
    ChainFits(ms[..i], ms[i]);
  }

  lemma AllFitInTurn(ms: seq<Owners>, k: Owners, i: nat)
    requires IsChain(ms) && 0 < i <= |ms| && Fits(JoinOf(ms), k)
    ensures Fits(JoinOf((ms + [k])[..i]), (ms + [k])[i])
  {
    var more := ms + [k];
    assert more[..i] == ms[..i];
    if i < |ms| {
      PrefixFits(ms, i);
    } else {
      assert ms[..i] == ms;
    }
  }

  /** The batch of a plan whose only batch holds all files. */
  lemma OneBatchIsChain(family: iset<Owners>, ms: seq<Owners>)
    requires OnlyChains(family) && IsFrom(family, ms) && ms != []
    requires Planned(FilesFor(ms), FactsFor(ms), |ms|) == [Batch(JoinOf(ms), MembersFor(|ms|))]
    ensures IsChain(ms)
  {
    hide Planned;
    hide JoinOf;
    hide IsChain;
    var facts := FactsFor(ms);
    assert AreFrom(family, facts) && GivesChains(FilesFor(ms), facts);
    var b := Batch(JoinOf(ms), MembersFor(|ms|));
    assert b in Planned(FilesFor(ms), facts, |ms|);
    assert IsChainBatch(facts, b);
    assert OwnersList(facts, b.members) == ms;
  }

  lemma ChainsSpeakForAll(family: iset<Owners>, ms: seq<Owners>, k: Owners)
    requires OnlyChains(family) && ms != [] && IsFrom(family, ms) && IsChain(ms) && k in family
    requires Fits(JoinOf(ms), k)
    ensures ComparesWithAll(ms, k)
  {
    var more := ms + [k];
    assert IsFrom(family, more) && more[..|more|] == more;
    forall i | 0 < i < |more|
      ensures Fits(JoinOf(more[..i]), more[i])
    {
      AllFitInTurn(ms, k, i);
    }
    PlansInOne(more, |more|);
    hide Planned;
    hide JoinOf;
    hide OnlyChains;
    OneBatchIsChain(family, more);
    forall i | 0 <= i < |ms|
      ensures Fits(ms[i], k)
    {
      assert Fits(more[i], more[|ms|]);
    }
  }

  // ---------------------------------------------------------------- the main results

  /** Every plan over files of a family has only chain batches if and only if, in the family, whatever
      fits the join of a chain compares with each of its members. */
  lemma OnlyChainsIff(family: iset<Owners>)
    ensures OnlyChains(family) <==> JoinSpeaksForAll(family)
  {
    if OnlyChains(family) {
      forall ms, k | ms != [] && IsFrom(family, ms) && IsChain(ms) && k in family && Fits(JoinOf(ms), k)
        ensures ComparesWithAll(ms, k)
      {
        ChainsSpeakForAll(family, ms, k);
      }
    }
    if JoinSpeaksForAll(family) {
      forall files, facts | AreFrom(family, facts)
        ensures GivesChains(files, facts)
      {
        if |files| == |facts| {
          PlannedAreJoins(family, files, facts, |files|);
        }
      }
    }
  }

  /** No name has two incomparable owner sets inside a third. */
  ghost predicate NoFork(family: iset<Owners>) {
    forall a, b, c, n {:trigger AreWithin(a, b, c, n)} ::
      a in family && b in family && c in family && AreWithin(a, b, c, n) ==> Comparable(a[n], b[n])
  }

  predicate AreWithin(a: Owners, b: Owners, c: Owners, n: string) {
    n in a && n in b && n in c && a[n] <= c[n] && b[n] <= c[n]
  }

  /** Then every batch of every plan is a chain. */
  lemma NoForkGivesChains(family: iset<Owners>)
    requires NoFork(family)
    ensures OnlyChains(family)
  {
    forall ms, k | ms != [] && IsFrom(family, ms) && IsChain(ms) && k in family && Fits(JoinOf(ms), k)
      ensures ComparesWithAll(ms, k)
    {
      JoinIsGreatest(ms);
      forall i, n | 0 <= i < |ms| && n in ms[i] && n in k
        ensures Comparable(ms[i][n], k[n])
      {
        assert IsBelow(ms[i], JoinOf(ms));
        assert IsOneOf(ms, n, JoinOf(ms)[n]);
        var l :| 0 <= l < |ms| && n in ms[l] && ms[l][n] == JoinOf(ms)[n];
        assert Comparable(JoinOf(ms)[n], k[n]);
        assert k[n] <= ms[l][n] ==> AreWithin(ms[i], k, ms[l], n);
      }
    }
    OnlyChainsIff(family);
  }

  /** For files that all own just one name, that is exactly when. */
  lemma OneNameGivesChainsIff(family: iset<Owners>, name: string)
    requires forall a :: a in family ==> a.Keys == {name}
    ensures OnlyChains(family) <==> NoFork(family)
  {
    if OnlyChains(family) {
      OnlyChainsIff(family);
      forall a, b, c, n | a in family && b in family && c in family && AreWithin(a, b, c, n)
        ensures Comparable(a[n], b[n])
      {
        var ms := [a, c];
        assert ms[..1] == [a] && JoinOf(ms) == Joined(a, c);
        LargerIsUnion(a[n], c[n]);
        assert JoinOf(ms)[n] == c[n];
        assert IsChain(ms) && IsFrom(family, ms) && Fits(JoinOf(ms), b) && ComparesWithAll(ms, b);
        assert Fits(ms[0], b);
      }
    }
    if NoFork(family) {
      NoForkGivesChains(family);
    }
  }

  /** The condition can fail: `{q}` fits the join of `{p}` and `{p, q}`, and the three share a batch. */
  lemma BatchesNeedNotBeChains()
    ensures var p, pq, q: Owners := map["n" := {"p"}], map["n" := {"p", "q"}], map["n" := {"q"}];
      && IsChain([p, pq]) && Fits(JoinOf([p, pq]), q) && !ComparesWithAll([p, pq], q)
      && !OnlyChains(iset{p, pq, q})
  {
    var p, pq, q: Owners := map["n" := {"p"}], map["n" := {"p", "q"}], map["n" := {"q"}];
    var ms, family := [p, pq], iset{p, pq, q};
    assert "p" !in q["n"] && "q" !in p["n"] && p["n"] <= pq["n"] && q["n"] <= pq["n"];
    assert !Fits(ms[0], q);
    LargerIsUnion(p["n"], pq["n"]);
    assert ms[..1] == [p] && JoinOf(ms) == Joined(p, pq);
    assert JoinOf(ms)["n"] == p["n"] + pq["n"] == pq["n"];
    OnlyChainsIff(family);
  }
}
