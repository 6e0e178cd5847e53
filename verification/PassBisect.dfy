/** Which inverted pass pairs a shuffle divergence needs declared: starting from all of them, every
    pair that is not needed is dropped, until a whole pass drops none. `ok` stands for running the
    compiler with the pairs forced. */
module PassBisect {
  import opened Options

  type Pair = (string, string)

  function Without(pairs: seq<Pair>, p: Pair): (r: seq<Pair>)
    ensures |r| <= |pairs|
    ensures p in pairs ==> |r| < |pairs|
    ensures forall q :: q in r <==> q in pairs && q != p
  {
    if pairs == [] then []
    else (if pairs[0] == p then [] else [pairs[0]]) + Without(pairs[1..], p)
  }

  /** A part of the pairs, in their order. */
  ghost predicate IsPart(part: seq<Pair>, pairs: seq<Pair>) {
    part == [] || (pairs != [] && ((part[0] == pairs[0] && IsPart(part[1..], pairs[1..])) || IsPart(part, pairs[1..])))
  }

  lemma {:induction false} WithoutIsPart(pairs: seq<Pair>, p: Pair)
    ensures IsPart(Without(pairs, p), pairs)
  {
    if pairs != [] {
      WithoutIsPart(pairs[1..], p);
      var r := Without(pairs, p);
      if pairs[0] == p {
        assert r == Without(pairs[1..], p);
      } else {
        assert r[0] == pairs[0] && r[1..] == Without(pairs[1..], p);
      }
    }
  }

  lemma {:induction false} PartOfPart(a: seq<Pair>, b: seq<Pair>, c: seq<Pair>)
    requires IsPart(a, b) && IsPart(b, c)
    ensures IsPart(a, c)
    decreases |c|
  {
    if a != [] {
      if b[0] == c[0] && IsPart(b[1..], c[1..]) {
        if a[0] == b[0] && IsPart(a[1..], b[1..]) {
          PartOfPart(a[1..], b[1..], c[1..]);
        } else {
          PartOfPart(a, b[1..], c[1..]);
        }
      } else {
        PartOfPart(a, b, c[1..]);
      }
    }
  }

  lemma {:induction false} PartOfItself(a: seq<Pair>)
    ensures IsPart(a, a)
  {
    if a != [] {
      PartOfItself(a[1..]);
    }
  }

  /** One pass: tries to drop each of the pairs that stood at its start. A pair that was dropped
      before in the same pass changes nothing when it comes again. */
  method DropPass(start: seq<Pair>, ok: seq<Pair> -> bool) returns (keep: seq<Pair>, changed: bool)
    requires ok(start)
    ensures ok(keep) && IsPart(keep, start)
    ensures changed ==> |keep| < |start|
    ensures !changed ==> keep == start && forall p :: p in keep ==> !ok(Without(keep, p))
  {
    keep, changed := start, false;
    PartOfItself(start);
    for i := 0 to |start|
      invariant ok(keep) && IsPart(keep, start)
      invariant changed ==> |keep| < |start|
      invariant !changed ==> keep == start && forall k :: 0 <= k < i ==> !ok(Without(keep, start[k]))
    {
      var trial := Without(keep, start[i]);
      if ok(trial) {
        WithoutIsPart(keep, start[i]);
        PartOfPart(trial, keep, start);
        keep, changed := trial, true;
      }
    }
  }

  /** The pairs to declare: forcing them is enough, and forcing all of them but one is not. `None`
      when forcing every inverted pair is not enough either. */
  method PairsToDeclare(inverted: seq<Pair>, ok: seq<Pair> -> bool) returns (r: Option<seq<Pair>>)
    ensures r.None? <==> !ok(inverted)
    ensures r.Some? ==> ok(r.value) && IsPart(r.value, inverted)
    ensures r.Some? ==> forall p :: p in r.value ==> !ok(Without(r.value, p))
  {
    if !ok(inverted) {
      return None;
    }
    var keep, changed := inverted, true;
    PartOfItself(inverted);
    while changed
      invariant ok(keep) && IsPart(keep, inverted)
      invariant !changed ==> forall p :: p in keep ==> !ok(Without(keep, p))
      decreases changed, |keep|
    {
      ghost var was := keep;
      keep, changed := DropPass(keep, ok);
      PartOfPart(keep, was, inverted);
    }
    r := Some(keep);
  }

  ghost predicate Holds(pairs: seq<Pair>, part: seq<Pair>) {
    forall p :: p in part ==> p in pairs
  }

  /** Forcing more never hurts. */
  ghost predicate IsMonotone(ok: seq<Pair> -> bool) {
    forall a, b :: Holds(b, a) && ok(a) ==> ok(b)
  }

  /** If forcing more never hurts, no selection that lacks a kept pair is enough, not only the
      selections one pair smaller. */
  lemma KeptIsMinimal(keep: seq<Pair>, part: seq<Pair>, ok: seq<Pair> -> bool)
    requires IsMonotone(ok) && (forall p :: p in keep ==> !ok(Without(keep, p)))
    requires Holds(keep, part) && !Holds(part, keep)
    ensures !ok(part)
  {
    var p :| p in keep && p !in part;
    assert Holds(Without(keep, p), part);
  }
}
