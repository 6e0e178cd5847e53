/** Which functions of a file can return an error: the functions that raise or declare one, and
    then, until nothing changes, those that unwrap a call to one of them or to something the file
    does not define. */
module CanErr {
  import opened Options

  /** The nodes of a body the classification looks at. `callee` is none when the call is no call by
      name. */
  datatype Node =
    | ErrNode
    | UnwrapNode(callee: Option<string>)
    | CallNode(called: Option<(string, string)>)
    | OtherNode

  datatype Fn = Fn(name: string, intrinsic: bool, fallible: bool, body: seq<Node>)

  /** What a function contributes: whether it errs by itself, and what it unwraps by name. */
  datatype Facts = Facts(seed: bool, callees: set<string>)

  predicate IsRead(called: Option<(string, string)>) {
    called.Some? && called.value.0 == "prim" && called.value.1 in {"read_text_file", "read_bytes_file"}
  }

  predicate Seeds(n: Node) {
    match n
    case ErrNode => true
    case UnwrapNode(callee) => callee.None?
    case CallNode(called) => IsRead(called)
    case OtherNode => false
  }

  function FactsOf(fn: Fn): Facts {
    if fn.fallible then Facts(true, {})
    else
      Facts(
        exists i :: 0 <= i < |fn.body| && Seeds(fn.body[i]),
        set i | 0 <= i < |fn.body| && fn.body[i].UnwrapNode? && fn.body[i].callee.Some? :: fn.body[i].callee.value)
  }

  method CodegenSeed(fn: Fn) returns (f: Facts)
    ensures f == FactsOf(fn)
  {
    if fn.fallible {
      return Facts(true, {});
    }
    var seed, callees := false, {};
    for i := 0 to |fn.body|
      invariant seed <==> exists k :: 0 <= k < i && Seeds(fn.body[k])
      invariant callees ==
        set k | 0 <= k < i && fn.body[k].UnwrapNode? && fn.body[k].callee.Some? :: fn.body[k].callee.value
    {
      match fn.body[i]
      case ErrNode => seed := true;
      case UnwrapNode(callee) =>
        if callee.None? {
          seed := true;
        } else {
          callees := callees + {callee.value};
        }
      case CallNode(called) =>
        if IsRead(called) {
          seed := true;
        }
      case OtherNode =>
    }
    f := Facts(seed, callees);
  }

  function Defined(fns: seq<Fn>): set<string> {
    set i | 0 <= i < |fns| :: fns[i].name
  }

  /** The facts by name, intrinsics left out, a later function replacing an earlier one. */
  function Table(fns: seq<Fn>): map<string, Facts> {
    if fns == [] then map[]
    else
      var fn, before := fns[|fns| - 1], Table(fns[..|fns| - 1]);
      if fn.intrinsic then before else before[fn.name := FactsOf(fn)]
  }

  /** `n` unwraps something undefined, or something that can err. */
  predicate Fires(table: map<string, Facts>, defined: set<string>, can: set<string>, n: string)
    requires n in table
  {
    exists g :: g in table[n].callees && (g !in defined || g in can)
  }

  /** A set that holds every seed and everything that fires by it. */
  ghost predicate IsClosed(table: map<string, Facts>, defined: set<string>, can: set<string>) {
    forall n :: n in table && (table[n].seed || Fires(table, defined, can, n)) ==> n in can
  }

  ghost predicate IsLeast(table: map<string, Facts>, defined: set<string>, can: set<string>) {
    && IsClosed(table, defined, can) && can <= table.Keys
    && forall other :: IsClosed(table, defined, other) ==> can <= other
  }

  /** Every closed set holds what is gathered so far. */
  ghost predicate IsForced(table: map<string, Facts>, defined: set<string>, can: set<string>) {
    can <= table.Keys && forall other :: IsClosed(table, defined, other) ==> can <= other
  }

  lemma ForcedMore(table: map<string, Facts>, defined: set<string>, can: set<string>, n: string)
    requires IsForced(table, defined, can) && n in table && Fires(table, defined, can, n)
    ensures IsForced(table, defined, can + {n})
  {
    forall other | IsClosed(table, defined, other)
      ensures n in other
    {
      assert can <= other;
      assert Fires(table, defined, other, n);
    }
  }

  /** One pass over the table, in any order. */
  method Pass(table: map<string, Facts>, defined: set<string>, start: set<string>)
    returns (can: set<string>, changed: bool)
    requires IsForced(table, defined, start)
    ensures IsForced(table, defined, can) && start <= can
    ensures changed ==> start != can
    ensures !changed ==> can == start && forall n :: n in table && Fires(table, defined, can, n) ==> n in can
  {
    can, changed := start, false;
    var rest := table.Keys;
    while rest != {}
      invariant rest <= table.Keys
      invariant IsForced(table, defined, can) && start <= can
      invariant changed ==> start != can
      invariant !changed ==> can == start
      invariant !changed ==> forall n :: n in table && n !in rest && Fires(table, defined, can, n) ==> n in can
      decreases |rest|
    {
      var n :| n in rest;
      rest := rest - {n};
      if n !in can && Fires(table, defined, can, n) {
        ForcedMore(table, defined, can, n);
        can, changed := can + {n}, true;
      }
    }
  }

  lemma FewerLeft(all: set<string>, a: set<string>, b: set<string>)
    requires a <= b <= all && a != b
    ensures |all - b| < |all - a|
  {
    assert all - b <= all - a;
    var x :| x in b && x !in a;
    assert all - a == (all - b) + ((all - a) - (all - b));
    assert x in (all - a) - (all - b);
  }

  /** The passes end with the least closed set: the functions from which a chain of unwrapped calls
      leads to an error. */
  method ClassifyFile(fns: seq<Fn>) returns (can: set<string>)
    ensures IsLeast(Table(fns), Defined(fns), can)
    ensures forall n :: n in can <==> LeadsToError(fns, n)
  {
    var table: map<string, Facts> := map[];
    for i := 0 to |fns|
      invariant table == Table(fns[..i])
    {
      assert fns[..i + 1][..i] == fns[..i];
      if !fns[i].intrinsic {
        var f := CodegenSeed(fns[i]);
        table := table[fns[i].name := f];
      }
    }
    assert fns[..|fns|] == fns;
    var defined := Defined(fns);
    can := set n | n in table && table[n].seed;
    ghost var seeds := can;
    var changed := true;
    while changed
      invariant IsForced(table, defined, can) && seeds <= can
      invariant !changed ==> IsClosed(table, defined, can)
      decreases changed, |table.Keys - can|
    {
      ghost var was := can;
      can, changed := Pass(table, defined, can);
      if changed {
        FewerLeft(table.Keys, was, can);
      }
    }
    LeastIsReaching(fns, can);
  }

  // ---------------------------------------------------------------- the least set is reachability

  /** A chain of unwrapped calls, each to a function of the table, to one that errs by itself or
      unwraps something undefined. */
  ghost predicate IsChain(table: map<string, Facts>, defined: set<string>, ns: seq<string>) {
    && ns != [] && (forall i :: 0 <= i < |ns| ==> ns[i] in table)
    && (forall i :: 0 < i < |ns| ==> ns[i] in table[ns[i - 1]].callees)
    && (table[ns[|ns| - 1]].seed || exists g :: g in table[ns[|ns| - 1]].callees && g !in defined)
  }

  ghost predicate ReachesError(table: map<string, Facts>, defined: set<string>, n: string) {
    exists ns :: IsChain(table, defined, ns) && ns[0] == n
  }

  lemma ReachesOneMore(table: map<string, Facts>, defined: set<string>, n: string, g: string)
    requires n in table && g in table[n].callees && ReachesError(table, defined, g)
    ensures ReachesError(table, defined, n)
  {
    var ns :| IsChain(table, defined, ns) && ns[0] == g;
    assert IsChain(table, defined, [n] + ns);
  }

  lemma {:induction false} ClosedHoldsChain(
    table: map<string, Facts>, defined: set<string>, can: set<string>, ns: seq<string>)
    requires IsClosed(table, defined, can) && IsChain(table, defined, ns)
    ensures ns[0] in can
  {
    var n := ns[0];
    if |ns| == 1 {
      assert table[n].seed || Fires(table, defined, can, n);
    } else {
      assert IsChain(table, defined, ns[1..]);
      ClosedHoldsChain(table, defined, can, ns[1..]);
      assert Fires(table, defined, can, n);
    }
  }

  /** A function can err exactly if a chain of unwrapped calls leads from it to an error of its own
      file or out of the file. */
  lemma LeastIsReachability(table: map<string, Facts>, defined: set<string>, can: set<string>, n: string)
    requires IsLeast(table, defined, can)
    ensures n in can <==> ReachesError(table, defined, n)
  {
    if ReachesError(table, defined, n) {
      var ns :| IsChain(table, defined, ns) && ns[0] == n;
      ClosedHoldsChain(table, defined, can, ns);
    }
    var reach := set m | m in table && ReachesError(table, defined, m);
    forall m | m in table && (table[m].seed || Fires(table, defined, reach, m))
      ensures m in reach
    {
      if table[m].seed || exists g :: g in table[m].callees && g !in defined {
        assert IsChain(table, defined, [m]);
      } else {
        var g :| g in table[m].callees && g in reach;
        ReachesOneMore(table, defined, m, g);
      }
    }
    assert IsClosed(table, defined, reach);
  }

  // ---------------------------------------------------------------- on the functions of a file

  /** It declares an error, raises one, unwraps something that is no call by name, or reads a file. */
  ghost predicate ErrsItself(fn: Fn) {
    || fn.fallible
    || ErrNode in fn.body
    || UnwrapNode(None) in fn.body
    || CallNode(Some(("prim", "read_text_file"))) in fn.body
    || CallNode(Some(("prim", "read_bytes_file"))) in fn.body
  }

  ghost predicate Unwraps(fn: Fn, g: string) {
    !fn.fallible && UnwrapNode(Some(g)) in fn.body
  }

  /** The last function of its name that has a body. */
  ghost predicate IsTaken(fns: seq<Fn>, i: nat) {
    && i < |fns| && !fns[i].intrinsic
    && forall j :: i < j < |fns| && fns[j].name == fns[i].name ==> fns[j].intrinsic
  }

  /** No function of the file has this name, with or without a body. */
  ghost predicate IsForeign(fns: seq<Fn>, g: string) {
    forall j :: 0 <= j < |fns| ==> fns[j].name != g
  }

  ghost predicate IsErrorChain(fns: seq<Fn>, path: seq<nat>) {
    && path != [] && (forall k :: 0 <= k < |path| ==> IsTaken(fns, path[k]))
    && (forall k :: 0 < k < |path| ==> Unwraps(fns[path[k - 1]], fns[path[k]].name))
    && (ErrsItself(fns[path[|path| - 1]]) || exists g :: Unwraps(fns[path[|path| - 1]], g) && IsForeign(fns, g))
  }

  ghost predicate LeadsToError(fns: seq<Fn>, n: string) {
    exists path :: IsErrorChain(fns, path) && fns[path[0]].name == n
  }

  lemma FactsAre(fn: Fn)
    ensures FactsOf(fn).seed <==> ErrsItself(fn)
    ensures forall g :: g in FactsOf(fn).callees <==> Unwraps(fn, g)
  {
    forall i | 0 <= i < |fn.body|
      ensures Seeds(fn.body[i]) ==> ErrsItself(fn)
    {
      assert fn.body[i] in fn.body;
      if fn.body[i].CallNode? && fn.body[i].called.Some? {
        var c := fn.body[i].called.value;
        assert c == (c.0, c.1);
      }
    }
  }

  lemma {:induction false} TableHolds(fns: seq<Fn>, i: nat)
    requires IsTaken(fns, i)
    ensures fns[i].name in Table(fns) && Table(fns)[fns[i].name] == FactsOf(fns[i])
  {
    var last := |fns| - 1;
    if i < last {
      assert IsTaken(fns[..last], i);
      TableHolds(fns[..last], i);
    }
  }

  lemma {:induction false} TableIsTaken(fns: seq<Fn>, n: string) returns (i: nat)
    requires n in Table(fns)
    ensures IsTaken(fns, i) && fns[i].name == n && Table(fns)[n] == FactsOf(fns[i])
  {
    var last := |fns| - 1;
    if !fns[last].intrinsic && fns[last].name == n {
      i := last;
    } else {
      i := TableIsTaken(fns[..last], n);
    }
  }

  /** A chain of names is a chain of functions. */
  lemma {:induction false} NamesToFunctions(fns: seq<Fn>, ns: seq<string>) returns (path: seq<nat>)
    requires IsChain(Table(fns), Defined(fns), ns)
    ensures IsErrorChain(fns, path) && fns[path[0]].name == ns[0]
    decreases |ns|
  {
    var i := TableIsTaken(fns, ns[0]);
    FactsAre(fns[i]);
    if |ns| == 1 {
      path := [i];
      if !ErrsItself(fns[i]) {
        var g :| g in Table(fns)[ns[0]].callees && g !in Defined(fns);
        assert Unwraps(fns[i], g) && IsForeign(fns, g);
      }
    } else {
      assert IsChain(Table(fns), Defined(fns), ns[1..]);
      var rest := NamesToFunctions(fns, ns[1..]);
      path := [i] + rest;
      assert ns[1] in Table(fns)[ns[0]].callees;
      assert path[|path| - 1] == rest[|rest| - 1];
    }
  }

  lemma FunctionsToNames(fns: seq<Fn>, path: seq<nat>)
    requires IsErrorChain(fns, path)
    ensures ReachesError(Table(fns), Defined(fns), fns[path[0]].name)
  {
    var ns := seq(|path|, k requires 0 <= k < |path| => fns[path[k]].name);
    forall k | 0 <= k < |path|
      ensures ns[k] in Table(fns) && Table(fns)[ns[k]] == FactsOf(fns[path[k]])
    {
      TableHolds(fns, path[k]);
    }
    forall k | 0 <= k < |path|
      ensures FactsOf(fns[path[k]]).seed <==> ErrsItself(fns[path[k]])
      ensures forall g :: g in FactsOf(fns[path[k]]).callees <==> Unwraps(fns[path[k]], g)
    {
      FactsAre(fns[path[k]]);
    }
    hide Table;
    hide FactsOf;
    hide Unwraps;
    hide ErrsItself;
    forall k | 0 < k < |ns|
      ensures ns[k] in Table(fns)[ns[k - 1]].callees
    {
      assert Unwraps(fns[path[k - 1]], fns[path[k]].name);
    }
    var last := |path| - 1;
    if !ErrsItself(fns[path[last]]) {
      var g :| Unwraps(fns[path[last]], g) && IsForeign(fns, g);
      assert g in Table(fns)[ns[last]].callees && g !in Defined(fns);
    }
    assert IsChain(Table(fns), Defined(fns), ns);
  }

  lemma LeastIsReaching(fns: seq<Fn>, can: set<string>)
    requires IsLeast(Table(fns), Defined(fns), can)
    ensures forall n :: n in can <==> LeadsToError(fns, n)
  {
    forall n
      ensures n in can <==> LeadsToError(fns, n)
    {
      LeastIsReachability(Table(fns), Defined(fns), can, n);
      if ReachesError(Table(fns), Defined(fns), n) {
        var ns :| IsChain(Table(fns), Defined(fns), ns) && ns[0] == n;
        var path := NamesToFunctions(fns, ns);
      }
      if LeadsToError(fns, n) {
        var path :| IsErrorChain(fns, path) && fns[path[0]].name == n;
        FunctionsToNames(fns, path);
      }
    }
  }

  lemma RestLeads(fns: seq<Fn>, path: seq<nat>)
    requires IsErrorChain(fns, path) && |path| > 1
    ensures LeadsToError(fns, fns[path[1]].name) && Unwraps(fns[path[0]], fns[path[1]].name)
  {
    assert IsErrorChain(fns, path[1..]) && path[1..][0] == path[1];
  }

  /** A function that does not err itself and unwraps only functions of the file that cannot err, bodies
      or not, is not in the set. */
  lemma QuietIsOut(fns: seq<Fn>, can: set<string>, i: nat)
    requires forall n :: n in can <==> LeadsToError(fns, n)
    requires IsTaken(fns, i) && !ErrsItself(fns[i])
    requires forall g :: Unwraps(fns[i], g) ==> g !in can && !IsForeign(fns, g)
    ensures fns[i].name !in can
  {
    if path :| IsErrorChain(fns, path) && fns[path[0]].name == fns[i].name {
      assert path[0] == i;
      if |path| > 1 {
        RestLeads(fns, path);
      }
    }
  }
}
