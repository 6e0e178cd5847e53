/** Whether a declared type can hold a String: a walk of the type graph that remembers the path it
    is on, sees every type it can reach, and collects the names that resolve nowhere. */
module CarriesString {
  import opened Options

  /** A type name in a type expression; `qualifier` is empty when it has none. */
  datatype Mention = Mention(qualifier: string, name: string)

  datatype Key = Key(module_: string, name: string)

  /** A type expression read inside a module. */
  datatype Node = Node(text: seq<Mention>, module_: string)

  /** The declared types by module and name, `order` listing them sorted; whether each known leaf
      type holds a String; and the bounds of the type variables. */
  datatype World = World(
    types: map<Key, seq<Mention>>,
    order: seq<Key>,
    leaves: map<string, bool>,
    bounds: map<string, seq<string>>)

  ghost predicate IsWorld(w: World) {
    forall k :: k in w.order <==> k in w.types
  }

  // ---------------------------------------------------------------- what one mention means

  /** `k` is declared under the mention's name in the module the mention names, or, if it names none,
      in the module that is read. */
  ghost predicate IsNamed(w: World, m: Mention, module_: string, k: Key) {
    && k in w.types && k.name == m.name
    && (m.qualifier == "" ==> k.module_ == module_) && (m.qualifier != "" ==> k.module_ == m.qualifier)
  }

  /** `k` is the first declared type of the mention's name, whatever its module. */
  ghost predicate IsFirst(w: World, m: Mention, k: Key) {
    exists i :: 0 <= i < |w.order| && w.order[i] == k && k.name == m.name
      && forall j :: 0 <= j < i ==> w.order[j].name != m.name
  }

  /** `k` is the declared type that the mention means. */
  ghost predicate Means(w: World, m: Mention, module_: string, k: Key) {
    IsNamed(w, m, module_, k) || ((forall o :: !IsNamed(w, m, module_, o)) && IsFirst(w, m, k))
  }

  function FirstNamed(order: seq<Key>, name: string): (r: Option<Key>)
    ensures r.Some? ==>
      exists i :: 0 <= i < |order| && order[i] == r.value && r.value.name == name
        && forall j :: 0 <= j < i ==> order[j].name != name
    ensures r.None? ==> forall k :: k in order ==> k.name != name
  {
    if order == [] then None
    else if order[0].name == name then
      assert order[0] == order[0];
      Some(order[0])
    else
      var r := FirstNamed(order[1..], name);
      assert r.Some? ==> forall i :: 0 <= i < |order| - 1 ==> order[1..][i] == order[i + 1];
      r
  }

  /** The declared type a mention means: the qualified one or the module's own, else the first of
      that name anywhere. */
  function Lookup(w: World, m: Mention, module_: string): (r: Option<Key>)
    requires IsWorld(w)
    ensures r.Some? ==> r.value in w.types && Means(w, m, module_, r.value)
    ensures forall k :: Means(w, m, module_, k) ==> r == Some(k)
    ensures r.None? ==> forall k :: k in w.types ==> k.name != m.name
  {
    var own := Key(if m.qualifier != "" then m.qualifier else module_, m.name);
    assert forall k :: IsNamed(w, m, module_, k) ==> k == own;
    if own in w.types then
      assert IsNamed(w, m, module_, own);
      Some(own)
    else FirstNamed(w.order, m.name)
  }

  predicate IsBound(w: World, m: Mention) {
    m.name in w.bounds
  }

  predicate IsVariable(m: Mention) {
    |m.name| == 1
  }

  /** What the walk looks for: a leaf that holds a String, or a name that resolves nowhere. */
  datatype Goal = StringLeaf | UnknownName(name: string)

  ghost predicate MeetsName(w: World, name: string, g: Goal) {
    match g
    case StringLeaf => name in w.leaves && w.leaves[name]
    case UnknownName(x) => name == x && name !in w.leaves
  }

  ghost predicate AnyMeets(w: World, names: seq<string>, g: Goal) {
    exists b :: b in names && MeetsName(w, b, g)
  }

  /** The mention itself meets the goal: a bound of the type variable does, or the mention is no
      variable, no declared type has its name, and the name does. */
  ghost predicate Shows(w: World, m: Mention, g: Goal) {
    || (m.name in w.bounds && AnyMeets(w, w.bounds[m.name], g))
    || (m.name !in w.bounds && |m.name| != 1 && (forall k :: k in w.types ==> k.name != m.name) && MeetsName(w, m.name, g))
  }

  /** The mention leads into a declared type. */
  ghost predicate Enters(w: World, m: Mention, module_: string, k: Key) {
    m.name !in w.bounds && |m.name| != 1 && k in w.types && Means(w, m, module_, k)
  }

  // ---------------------------------------------------------------- what a type expression reaches

  ghost predicate Has(w: World, n: Node, g: Goal)
    requires IsWorld(w)
  {
    exists i :: 0 <= i < |n.text| && Shows(w, n.text[i], g)
  }

  ghost predicate Leads(w: World, n: Node, k: Key)
    requires IsWorld(w)
  {
    exists i :: 0 <= i < |n.text| && Enters(w, n.text[i], n.module_, k)
  }

  function NodeOf(w: World, k: Key): Node
    requires k in w.types
  {
    Node(w.types[k], k.module_)
  }

  /** Declared types, each mentioned by the one before it and the first by `n`. */
  ghost predicate IsPath(w: World, n: Node, p: seq<Key>)
    requires IsWorld(w)
    decreases |p|
  {
    p != [] ==> p[0] in w.types && Leads(w, n, p[0]) && IsPath(w, NodeOf(w, p[0]), p[1..])
  }

  ghost function End(w: World, n: Node, p: seq<Key>): Node
    requires IsWorld(w) && IsPath(w, n, p)
    decreases |p|
  {
    if p == [] then n else End(w, NodeOf(w, p[0]), p[1..])
  }

  predicate Avoids(p: seq<Key>, seen: set<Key>) {
    forall k :: k in p ==> k !in seen
  }

  ghost predicate IsRoute(w: World, n: Node, p: seq<Key>, seen: set<Key>, g: Goal)
    requires IsWorld(w)
  {
    IsPath(w, n, p) && Avoids(p, seen) && Has(w, End(w, n, p), g)
  }

  /** A type expression that meets the goal can be reached without entering `seen`. */
  ghost predicate Reaches(w: World, n: Node, seen: set<Key>, g: Goal)
    requires IsWorld(w)
  {
    exists p :: IsRoute(w, n, p, seen, g)
  }

  /** A route need not come back to the type it starts in. */
  lemma {:induction false} NoReturn(w: World, k: Key, p: seq<Key>, seen: set<Key>, g: Goal) returns (q: seq<Key>)
    requires IsWorld(w) && k in w.types && IsRoute(w, NodeOf(w, k), p, seen, g)
    ensures |q| <= |p| && IsRoute(w, NodeOf(w, k), q, seen + {k}, g)
    decreases |p|
  {
    if k in p {
      var rest := AfterFirst(w, NodeOf(w, k), p, seen, g, k);
      q := NoReturn(w, k, rest, seen, g);
    } else {
      q := p;
    }
  }

  lemma {:induction false} AfterFirst(w: World, n: Node, p: seq<Key>, seen: set<Key>, g: Goal, k: Key)
    returns (q: seq<Key>)
    requires IsWorld(w) && IsRoute(w, n, p, seen, g) && k in p
    ensures k in w.types && |q| < |p| && IsRoute(w, NodeOf(w, k), q, seen, g)
    decreases |p|
  {
    assert Avoids(p[1..], seen);
    if p[0] == k {
      q := p[1..];
    } else {
      q := AfterFirst(w, NodeOf(w, p[0]), p[1..], seen, g, k);
    }
  }

  /** Reaching a goal, one type at a time. */
  ghost predicate ReachesVia(w: World, n: Node, seen: set<Key>, g: Goal, k: Key)
    requires IsWorld(w)
  {
    k in w.types && k !in seen && Leads(w, n, k) && Reaches(w, NodeOf(w, k), seen + {k}, g)
  }

  lemma FirstStep(w: World, n: Node, p: seq<Key>, seen: set<Key>, g: Goal)
    requires IsWorld(w) && IsRoute(w, n, p, seen, g) && p != []
    ensures ReachesVia(w, n, seen, g, p[0])
  {
    assert p[0] in p && Avoids(p[1..], seen);
    var q := NoReturn(w, p[0], p[1..], seen, g);
  }

  lemma StepFirst(w: World, n: Node, seen: set<Key>, g: Goal, k: Key)
    requires IsWorld(w) && ReachesVia(w, n, seen, g, k)
    ensures Reaches(w, n, seen, g)
  {
    var q :| IsRoute(w, NodeOf(w, k), q, seen + {k}, g);
    var p := [k] + q;
    assert p[1..] == q;
    assert IsRoute(w, n, p, seen, g);
  }

  lemma ReachesUnfolds(w: World, n: Node, seen: set<Key>, g: Goal)
    requires IsWorld(w)
    ensures Reaches(w, n, seen, g) <==> Has(w, n, g) || exists k :: ReachesVia(w, n, seen, g, k)
  {
    if Has(w, n, g) {
      assert IsRoute(w, n, [], seen, g);
    } else if Reaches(w, n, seen, g) {
      var p :| IsRoute(w, n, p, seen, g);
      FirstStep(w, n, p, seen, g);
    }
    hide *;
    forall k | ReachesVia(w, n, seen, g, k)
      ensures Reaches(w, n, seen, g)
    {
      StepFirst(w, n, seen, g, k);
    }
  }

  // ---------------------------------------------------------------- the walk

  ghost predicate IsFound(w: World, n: Node, seen: set<Key>)
    requires IsWorld(w)
  {
    Reaches(w, n, seen, StringLeaf)
  }

  ghost predicate IsUnknown(w: World, n: Node, seen: set<Key>, x: string)
    requires IsWorld(w)
  {
    Reaches(w, n, seen, UnknownName(x))
  }

  function Upto(n: Node, i: nat): Node
    requires i <= |n.text|
  {
    Node(n.text[..i], n.module_)
  }

  /** What one mention contributes. */
  ghost predicate Gives(w: World, m: Mention, module_: string, seen: set<Key>, g: Goal)
    requires IsWorld(w)
  {
    || Shows(w, m, g)
    || exists k :: GivesVia(w, m, module_, seen, g, k)
  }

  ghost predicate GivesVia(w: World, m: Mention, module_: string, seen: set<Key>, g: Goal, k: Key)
    requires IsWorld(w)
  {
    Enters(w, m, module_, k) && k !in seen && Reaches(w, NodeOf(w, k), seen + {k}, g)
  }

  lemma NothingYet(w: World, n: Node, seen: set<Key>, g: Goal)
    requires IsWorld(w)
    ensures !Reaches(w, Upto(n, 0), seen, g)
  {
    ReachesUnfolds(w, Upto(n, 0), seen, g);
  }

  lemma OneMoreMention(w: World, n: Node, i: nat, seen: set<Key>, g: Goal)
    requires IsWorld(w) && i < |n.text|
    ensures Reaches(w, Upto(n, i + 1), seen, g) <==>
      Reaches(w, Upto(n, i), seen, g) || Gives(w, n.text[i], n.module_, seen, g)
  {
    var a, b, m := Upto(n, i), Upto(n, i + 1), n.text[i];
    ReachesUnfolds(w, a, seen, g);
    ReachesUnfolds(w, b, seen, g);
    assert b.text == a.text + [m];
    assert b.text[|a.text|] == m;
    hide Reaches;
    hide Shows;
    hide Enters;
    assert Has(w, b, g) <==> Has(w, a, g) || Shows(w, m, g) by {
      if Has(w, a, g) {
        var j :| 0 <= j < |a.text| && Shows(w, a.text[j], g);
        assert b.text[j] == a.text[j];
      }
    }
    forall k
      ensures Leads(w, b, k) <==> Leads(w, a, k) || Enters(w, m, n.module_, k)
    {
      LeadsMore(w, a, b, m, k);
    }
    forall k | GivesVia(w, m, n.module_, seen, g, k)
      ensures ReachesVia(w, b, seen, g, k)
    {
    }
    forall k | ReachesVia(w, a, seen, g, k)
      ensures ReachesVia(w, b, seen, g, k)
    {
    }
    forall k | ReachesVia(w, b, seen, g, k)
      ensures ReachesVia(w, a, seen, g, k) || Gives(w, m, n.module_, seen, g)
    {
      assert Leads(w, a, k) || GivesVia(w, m, n.module_, seen, g, k);
    }
  }

  /** The two things the walk gathers, for one mention more. */
  lemma OneMoreGathered(w: World, n: Node, i: nat, seen: set<Key>)
    requires IsWorld(w) && i < |n.text|
    ensures IsFound(w, Upto(n, i + 1), seen) <==>
      IsFound(w, Upto(n, i), seen) || Gives(w, n.text[i], n.module_, seen, StringLeaf)
    ensures forall x :: IsUnknown(w, Upto(n, i + 1), seen, x) <==>
      (IsUnknown(w, Upto(n, i), seen, x) || Gives(w, n.text[i], n.module_, seen, UnknownName(x)))
  {
    OneMoreMention(w, n, i, seen, StringLeaf);
    forall x
      ensures IsUnknown(w, Upto(n, i + 1), seen, x) <==>
        (IsUnknown(w, Upto(n, i), seen, x) || Gives(w, n.text[i], n.module_, seen, UnknownName(x)))
    {
      OneMoreMention(w, n, i, seen, UnknownName(x));
    }
  }

  lemma NothingGathered(w: World, n: Node, seen: set<Key>)
    requires IsWorld(w)
    ensures !IsFound(w, Upto(n, 0), seen) && forall x :: !IsUnknown(w, Upto(n, 0), seen, x)
  {
    NothingYet(w, n, seen, StringLeaf);
    forall x
      ensures !IsUnknown(w, Upto(n, 0), seen, x)
    {
      NothingYet(w, n, seen, UnknownName(x));
    }
  }

  lemma OneMoreMeets(w: World, bs: seq<string>, i: nat)
    requires i < |bs|
    ensures forall g :: AnyMeets(w, bs[..i + 1], g) <==> (AnyMeets(w, bs[..i], g) || MeetsName(w, bs[i], g))
  {
    assert bs[..i + 1] == bs[..i] + [bs[i]];
  }

  /** What a mention contributes, in the order the walk asks. */
  ghost predicate GivesInTurn(w: World, m: Mention, module_: string, seen: set<Key>, g: Goal)
    requires IsWorld(w)
  {
    if IsBound(w, m) then AnyMeets(w, w.bounds[m.name], g)
    else
      && !IsVariable(m)
      && match Lookup(w, m, module_)
         case None => MeetsName(w, m.name, g)
         case Some(k) => k !in seen && Reaches(w, NodeOf(w, k), seen + {k}, g)
  }

  lemma GivenInTurn(w: World, m: Mention, module_: string, seen: set<Key>)
    requires IsWorld(w)
    ensures forall g :: Gives(w, m, module_, seen, g) == GivesInTurn(w, m, module_, seen, g)
  {
    hide Reaches;
    var r := Lookup(w, m, module_);
    assert forall k :: Enters(w, m, module_, k) ==> r == Some(k);
    forall g
      ensures Gives(w, m, module_, seen, g) == GivesInTurn(w, m, module_, seen, g)
    {
      if !IsBound(w, m) && !IsVariable(m) && r.Some? {
        var k := r.value;
        assert Enters(w, m, module_, k);
        assert GivesVia(w, m, module_, seen, g, k) <==> k !in seen && Reaches(w, NodeOf(w, k), seen + {k}, g);
      }
    }
  }

  /** From the top, where nothing is seen yet, a goal is reached exactly if some chain of declared
      types leads to it. */
  lemma TopReaches(w: World, n: Node, g: Goal)
    requires IsWorld(w)
    ensures Reaches(w, n, {}, g) <==> ArrivesAt(w, n, g)
  {
    forall p | Arrives(w, n, p, g)
      ensures IsRoute(w, n, p, {}, g)
    {
    }
    if Reaches(w, n, {}, g) {
      var p :| IsRoute(w, n, p, {}, g);
      assert Arrives(w, n, p, g);
    }
  }

  ghost predicate Arrives(w: World, n: Node, p: seq<Key>, g: Goal)
    requires IsWorld(w)
  {
    IsPath(w, n, p) && Has(w, End(w, n, p), g)
  }

  ghost predicate ArrivesAt(w: World, n: Node, g: Goal)
    requires IsWorld(w)
  {
    exists p :: Arrives(w, n, p, g)
  }

  lemma TopGathers(w: World, n: Node)
    requires IsWorld(w)
    ensures IsFound(w, n, {}) <==> ArrivesAt(w, n, StringLeaf)
    ensures forall x :: IsUnknown(w, n, {}, x) <==> ArrivesAt(w, n, UnknownName(x))
  {
    TopReaches(w, n, StringLeaf);
    forall x
      ensures IsUnknown(w, n, {}, x) <==> ArrivesAt(w, n, UnknownName(x))
    {
      TopReaches(w, n, UnknownName(x));
    }
  }

  lemma PathGrows(w: World, seen: set<Key>, k: Key)
    requires k in w.types && k !in seen
    ensures |w.types.Keys - (seen + {k})| < |w.types.Keys - seen|
  {
    assert w.types.Keys - (seen + {k}) == (w.types.Keys - seen) - {k};
  }

  lemma LeadsMore(w: World, a: Node, b: Node, m: Mention, k: Key)
    requires IsWorld(w) && b.text == a.text + [m] && b.module_ == a.module_
    ensures Leads(w, b, k) <==> Leads(w, a, k) || Enters(w, m, a.module_, k)
  {
    if Leads(w, a, k) {
      var j :| 0 <= j < |a.text| && Enters(w, a.text[j], a.module_, k);
      assert b.text[j] == a.text[j];
    }
    assert b.text[|a.text|] == m;
  }

  class Survey {
    const w: World
    var unknown: set<string>

    constructor (w: World)
      ensures this.w == w && unknown == {}
    {
      this.w := w;
      unknown := {};
    }

    /** A type variable's bounds are leaves, or unknown. */
    method Bounds(m: Mention) returns (found: bool)
      requires IsWorld(w) && IsBound(w, m)
      modifies this
      ensures found <==> AnyMeets(w, w.bounds[m.name], StringLeaf)
      ensures forall x :: x in unknown <==> x in old(unknown) || AnyMeets(w, w.bounds[m.name], UnknownName(x))
    {
      found := false;
      var bs := w.bounds[m.name];
      for i := 0 to |bs|
        invariant found <==> AnyMeets(w, bs[..i], StringLeaf)
        invariant forall x :: x in unknown <==> x in old(unknown) || AnyMeets(w, bs[..i], UnknownName(x))
      {
        OneMoreMeets(w, bs, i);
        if bs[i] in w.leaves {
          found := found || w.leaves[bs[i]];
        } else {
          unknown := unknown + {bs[i]};
        }
      }
      assert bs[..|bs|] == bs;
    }

    /** One mention of a type expression. */
    method OneMention(m: Mention, module_: string, seen: set<Key>) returns (found: bool)
      requires IsWorld(w) && seen <= w.types.Keys
      modifies this
      ensures found <==> Gives(w, m, module_, seen, StringLeaf)
      ensures forall x :: x in unknown <==> x in old(unknown) || Gives(w, m, module_, seen, UnknownName(x))
      decreases |w.types.Keys - seen|, 0
    {
      GivenInTurn(w, m, module_, seen);
      hide Gives;
      hide Reaches;
      found := false;
      if IsBound(w, m) {
        found := Bounds(m);
      } else if !IsVariable(m) {
        var key := Lookup(w, m, module_);
        if key.Some? {
          if key.value !in seen {
            PathGrows(w, seen, key.value);
            found := CarriesString(NodeOf(w, key.value), seen + {key.value});
          }
        } else if m.name in w.leaves {
          found := w.leaves[m.name];
        } else {
          unknown := unknown + {m.name};
        }
      }
    }

    /** Whether the type expression can hold a String; the names that resolve nowhere are added to
        `unknown`. A found String does not stop the walk. From the top it answers whether any chain of
        declared types leads to a String, and adds the unresolved names any chain leads to. */
    method CarriesString(n: Node, seen: set<Key>) returns (found: bool)
      requires IsWorld(w) && seen <= w.types.Keys
      modifies this
      ensures found <==> IsFound(w, n, seen)
      ensures forall x :: x in unknown <==> x in old(unknown) || IsUnknown(w, n, seen, x)
      ensures seen == {} ==> (found <==> ArrivesAt(w, n, StringLeaf))
      ensures seen == {} ==> forall x :: x in unknown <==> x in old(unknown) || ArrivesAt(w, n, UnknownName(x))
      decreases |w.types.Keys - seen|, 1
    {
      hide *;
      found := false;
      NothingGathered(w, n, seen);
      for i := 0 to |n.text|
        invariant found <==> IsFound(w, Upto(n, i), seen)
        invariant forall x :: x in unknown <==> x in old(unknown) || IsUnknown(w, Upto(n, i), seen, x)
      {
        var here := OneMention(n.text[i], n.module_, seen);
        OneMoreGathered(w, n, i, seen);
        found := found || here;
      }
      UptoAll(n);
      TopGathers(w, n);
    }
  }

  lemma UptoAll(n: Node)
    ensures Upto(n, |n.text|) == n
  {
  }
}
