/** The platform key of a native-dependency table: the recursive-descent check, and the grammar it
    decides. */
module CfgKey {
  import opened Options
  import opened CfgTokens

  // ---------------------------------------------------------------- the grammar

  datatype Expr =
    | Group(name: string, items: Items, trailing: bool)
    | Not(body: Expr)
    | Name(name: string)
    | Pair(name: string, text: string)

  datatype Items = Nil | Cons(head: Expr, tail: Items)

  /** `all(...)` and `any(...)`; a trailing comma only after an item; names are identifiers and
      strings hold no quote. */
  ghost predicate IsExpr(e: Expr) {
    match e
    case Group(name, items, trailing) =>
      name in {"all", "any"} && AreItems(items) && (trailing ==> items.Cons?)
    case Not(body) => IsExpr(body)
    case Name(name) => IsIdent(name)
    case Pair(name, text) => IsIdent(name) && '"' !in text
  }

  ghost predicate AreItems(items: Items) {
    items.Cons? ==> IsExpr(items.head) && AreItems(items.tail)
  }

  function Written(e: Expr): (ts: seq<Token>)
    ensures ts != [] && ts[0].Ident?
  {
    match e
    case Group(name, items, trailing) => [Ident(name), LeftParen] + WrittenItems(items, trailing) + [RightParen]
    case Not(body) => [Ident("not"), LeftParen] + Written(body) + [RightParen]
    case Name(name) => [Ident(name)]
    case Pair(name, text) => [Ident(name), Equals, Str(text)]
  }

  function WrittenItems(items: Items, trailing: bool): seq<Token> {
    match items
    case Nil => []
    case Cons(head, Nil) => Written(head) + (if trailing then [Comma] else [])
    case Cons(head, tail) => Written(head) + [Comma] + WrittenItems(tail, trailing)
  }

  // ---------------------------------------------------------------- the parser

  function Peek(ts: seq<Token>, p: nat): Option<Token> {
    if p < |ts| then Some(ts[p]) else None
  }

  function EatAt(ts: seq<Token>, p: nat, want: Token): (r: Result<nat, Problem>)
    ensures r.Ok? ==> p < |ts| && ts[p] == want && r.value == p + 1
  {
    if Peek(ts, p) == Some(want) then Ok(p + 1) else Err(Expected(want, Peek(ts, p)))
  }

  /** Where the expression at `p` ends, or what is wrong with it. */
  function ExprAt(ts: seq<Token>, p: nat): (r: Result<nat, Problem>)
    requires p <= |ts|
    ensures r.Ok? ==> p < r.value <= |ts|
    decreases |ts| - p, 0
  {
    if p == |ts| || !ts[p].Ident? then Err(ExpectedName(Peek(ts, p)))
    else
      var name := ts[p].name;
      var next := Peek(ts, p + 1);
      if name in {"all", "any"} && next == Some(LeftParen) then
        match ItemsAt(ts, p + 2)
        case Ok(q) => EatAt(ts, q, RightParen)
        case Err(e) => Err(e)
      else if name == "not" && next == Some(LeftParen) then
        match ExprAt(ts, p + 2)
        case Ok(q) => EatAt(ts, q, RightParen)
        case Err(e) => Err(e)
      else if next == Some(Equals) then
        if p + 2 < |ts| && ts[p + 2].Str? then Ok(p + 3) else Err(ExpectedString(name, Peek(ts, p + 2)))
      else Ok(p + 1)
  }

  /** Where the loop over the items from `p` stops. */
  function ItemsAt(ts: seq<Token>, p: nat): (r: Result<nat, Problem>)
    requires p <= |ts|
    ensures r.Ok? ==> p <= r.value <= |ts|
    decreases |ts| - p, 1
  {
    if Peek(ts, p) == Some(RightParen) then Ok(p)
    else
      match ExprAt(ts, p)
      case Err(e) => Err(e)
      case Ok(q) => if Peek(ts, q) == Some(Comma) then ItemsAt(ts, q + 1) else Ok(q)
  }

  class Parser {
    const tokens: seq<Token>
    var pos: nat

    constructor (tokens: seq<Token>)
      ensures this.tokens == tokens && pos == 0
    {
      this.tokens := tokens;
      pos := 0;
    }

    method Eat(want: Token) returns (r: Result<(), Problem>)
      modifies this
      ensures r.Ok? <==> EatAt(tokens, old(pos), want).Ok?
      ensures r.Ok? ==> pos == EatAt(tokens, old(pos), want).value
      ensures r.Err? ==> r.error == EatAt(tokens, old(pos), want).error
    {
      if Peek(tokens, pos) == Some(want) {
        pos := pos + 1;
        return Ok(());
      }
      return Err(Expected(want, Peek(tokens, pos)));
    }

    /** Moves past one expression. */
    method Expr() returns (r: Result<(), Problem>)
      requires pos <= |tokens|
      modifies this
      ensures r.Ok? <==> ExprAt(tokens, old(pos)).Ok?
      ensures r.Ok? ==> pos == ExprAt(tokens, old(pos)).value
      ensures r.Err? ==> r.error == ExprAt(tokens, old(pos)).error
      decreases |tokens| - pos
    {
      if pos == |tokens| || !tokens[pos].Ident? {
        return Err(ExpectedName(Peek(tokens, pos)));
      }
      ghost var start := pos;
      var name := tokens[pos].name;
      pos := pos + 1;
      var next := Peek(tokens, pos);
      if name in {"all", "any"} && next == Some(LeftParen) {
        pos := pos + 1;
        while Peek(tokens, pos) != Some(RightParen)
          invariant start + 2 <= pos <= |tokens|
          invariant ItemsAt(tokens, pos) == ItemsAt(tokens, start + 2)
          decreases |tokens| - pos
        {
          r := Expr();
          if r.Err? {
            return;
          }
          if Peek(tokens, pos) == Some(Comma) {
            pos := pos + 1;
          } else {
            break;
          }
        }
        assert ItemsAt(tokens, start + 2) == Ok(pos);
        r := Eat(RightParen);
      } else if name == "not" && next == Some(LeftParen) {
        pos := pos + 1;
        r := Expr();
        if r.Err? {
          return;
        }
        r := Eat(RightParen);
      } else if next == Some(Equals) {
        pos := pos + 1;
        if pos < |tokens| && tokens[pos].Str? {
          pos := pos + 1;
          return Ok(());
        }
        return Err(ExpectedString(name, Peek(tokens, pos)));
      } else {
        r := Ok(());
      }
    }
  }

  // ---------------------------------------------------------------- the parser decides the grammar

  /** The tokens `part` stand at `p`. */
  predicate StandsAt(ts: seq<Token>, p: nat, part: seq<Token>) {
    p + |part| <= |ts| && ts[p..p + |part|] == part
  }

  /** What may follow an expression inside a key. */
  predicate Ends(ts: seq<Token>, p: nat) {
    p == |ts| || (p < |ts| && ts[p] in {Comma, RightParen})
  }

  lemma StandsSplit(ts: seq<Token>, p: nat, a: seq<Token>, b: seq<Token>)
    ensures StandsAt(ts, p, a + b) <==> StandsAt(ts, p, a) && StandsAt(ts, p + |a|, b)
  {
    if StandsAt(ts, p, a + b) {
      var part := ts[p..p + |a + b|];
      assert ts[p..p + |a|] == part[..|a|] && ts[p + |a|..p + |a| + |b|] == part[|a|..];
    }
  }

  lemma StandsOne(ts: seq<Token>, p: nat, t: Token)
    ensures StandsAt(ts, p, [t]) <==> Peek(ts, p) == Some(t)
  {
    if p < |ts| {
      assert ts[p..p + 1] == [ts[p]];
    }
  }

  /** An expression of the grammar is parsed to its end. */
  lemma {:induction false} ParsesExpr(ts: seq<Token>, p: nat, e: Expr)
    requires IsExpr(e) && StandsAt(ts, p, Written(e)) && Ends(ts, p + |Written(e)|)
    ensures ExprAt(ts, p) == Ok(p + |Written(e)|)
    decreases e, 1
  {
    match e
    case Group(name, items, trailing) =>
      ParsesGroup(ts, p, name, items, trailing);
    case Not(body) =>
      ParsesNot(ts, p, body);
    case Name(name) => NameEnds(ts, p, name);
    case Pair(name, text) => PairEnds(ts, p, name, text);
  }

  lemma {:induction false} ParsesGroup(ts: seq<Token>, p: nat, name: string, items: Items, trailing: bool)
    requires name in {"all", "any"} && AreItems(items) && (trailing ==> items.Cons?)
    requires StandsAt(ts, p, [Ident(name), LeftParen] + WrittenItems(items, trailing) + [RightParen])
    ensures ExprAt(ts, p) == Ok(p + |WrittenItems(items, trailing)| + 3)
    decreases items, 1
  {
    hide *;
    Enclosed(ts, p, Ident(name), WrittenItems(items, trailing));
    ParsesItems(ts, p + 2, items, trailing);
    GroupEnds(ts, p, name, p + 2 + |WrittenItems(items, trailing)|);
  }

  lemma {:induction false} ParsesNot(ts: seq<Token>, p: nat, body: Expr)
    requires IsExpr(body) && StandsAt(ts, p, [Ident("not"), LeftParen] + Written(body) + [RightParen])
    ensures ExprAt(ts, p) == Ok(p + |Written(body)| + 3)
    decreases body, 2
  {
    hide *;
    Enclosed(ts, p, Ident("not"), Written(body));
    ParsesExpr(ts, p + 2, body);
    NotEnds(ts, p, p + 2 + |Written(body)|);
  }

  lemma NotEnds(ts: seq<Token>, p: nat, q: nat)
    requires Peek(ts, p) == Some(Ident("not")) && Peek(ts, p + 1) == Some(LeftParen)
    requires p + 2 <= |ts| && ExprAt(ts, p + 2) == Ok(q) && Peek(ts, q) == Some(RightParen)
    ensures ExprAt(ts, p) == Ok(q + 1)
  {
    hide ItemsAt;
  }

  lemma NameEnds(ts: seq<Token>, p: nat, name: string)
    requires StandsAt(ts, p, [Ident(name)]) && Ends(ts, p + 1)
    ensures ExprAt(ts, p) == Ok(p + 1)
  {
    StandsOne(ts, p, Ident(name));
    hide ItemsAt;
  }

  lemma PairEnds(ts: seq<Token>, p: nat, name: string, text: string)
    requires StandsAt(ts, p, [Ident(name), Equals, Str(text)])
    ensures ExprAt(ts, p) == Ok(p + 3)
  {
    var part := ts[p..p + 3];
    assert part[0] == ts[p] && part[1] == ts[p + 1] && part[2] == ts[p + 2];
    hide ItemsAt;
  }

  lemma GroupEnds(ts: seq<Token>, p: nat, name: string, q: nat)
    requires name in {"all", "any"} && Peek(ts, p) == Some(Ident(name)) && Peek(ts, p + 1) == Some(LeftParen)
    requires ItemsAt(ts, p + 2) == Ok(q) && Peek(ts, q) == Some(RightParen)
    ensures ExprAt(ts, p) == Ok(q + 1)
  {
    hide ItemsAt;
  }

  lemma Enclosed(ts: seq<Token>, p: nat, t: Token, inner: seq<Token>)
    requires StandsAt(ts, p, [t, LeftParen] + inner + [RightParen])
    ensures Peek(ts, p) == Some(t) && Peek(ts, p + 1) == Some(LeftParen)
    ensures StandsAt(ts, p + 2, inner) && Peek(ts, p + 2 + |inner|) == Some(RightParen)
    ensures Ends(ts, p + 2 + |inner|)
  {
    StandsSplit(ts, p, [t, LeftParen] + inner, [RightParen]);
    StandsSplit(ts, p, [t, LeftParen], inner);
    StandsOne(ts, p + 2 + |inner|, RightParen);
    assert ts[p..p + 2][0] == ts[p] && ts[p..p + 2][1] == ts[p + 1];
  }

  lemma {:induction false} ParsesItems(ts: seq<Token>, p: nat, items: Items, trailing: bool)
    requires AreItems(items) && (trailing ==> items.Cons?)
    requires StandsAt(ts, p, WrittenItems(items, trailing))
    requires Peek(ts, p + |WrittenItems(items, trailing)|) == Some(RightParen)
    ensures ItemsAt(ts, p) == Ok(p + |WrittenItems(items, trailing)|)
    decreases items, 0
  {
    hide ExprAt;
    hide ItemsAt;
    hide Written;
    hide IsExpr;
    hide StandsAt;
    hide Ends;
    hide Peek;
    if items.Nil? {
      NoItems(ts, p);
    } else {
      var w := Written(items.head);
      var end := p + |WrittenItems(items, trailing)|;
      if items.tail.Cons? {
        FirstItem(ts, p, w, true, WrittenItems(items.tail, trailing));
        ParsesExpr(ts, p, items.head);
        ParsesItems(ts, p + |w| + 1, items.tail, trailing);
      } else if trailing {
        assert w + [Comma] == w + [Comma] + [];
        FirstItem(ts, p, w, true, []);
        ParsesExpr(ts, p, items.head);
      } else {
        assert w + [] == w;
        FirstItem(ts, p, w, false, []);
        ClosesItems(ts, p + |w|);
        ParsesExpr(ts, p, items.head);
      }
      hide WrittenItems;
      ItemsEnd(ts, p, p + |w|, items.tail.Cons? || trailing, end);
    }
  }

  lemma ClosesItems(ts: seq<Token>, p: nat)
    requires Peek(ts, p) == Some(RightParen)
    ensures Ends(ts, p)
  {
  }

  lemma NoItems(ts: seq<Token>, p: nat)
    requires Peek(ts, p) == Some(RightParen)
    ensures ItemsAt(ts, p) == Ok(p)
  {
  }

  /** The loop takes one item, and goes on after a comma. */
  lemma ItemsEnd(ts: seq<Token>, p: nat, q: nat, comma: bool, end: nat)
    requires p < |ts| && ts[p] != RightParen && ExprAt(ts, p) == Ok(q)
    requires Peek(ts, end) == Some(RightParen)
    requires if comma then Peek(ts, q) == Some(Comma) && (q + 1 == end || ItemsAt(ts, q + 1) == Ok(end)) else q == end
    ensures ItemsAt(ts, p) == Ok(end)
  {
    hide ExprAt;
  }

  lemma FirstItem(ts: seq<Token>, p: nat, w: seq<Token>, comma: bool, rest: seq<Token>)
    requires w != [] && StandsAt(ts, p, if comma then w + [Comma] + rest else w)
    ensures StandsAt(ts, p, w) && p < |ts| && ts[p] == w[0]
    ensures comma ==> Ends(ts, p + |w|)
    ensures comma ==> Peek(ts, p + |w|) == Some(Comma) && StandsAt(ts, p + |w| + 1, rest)
  {
    if comma {
      StandsSplit(ts, p, w + [Comma], rest);
      StandsSplit(ts, p, w, [Comma]);
      StandsOne(ts, p + |w|, Comma);
    }
    assert ts[p..p + |w|][0] == ts[p];
  }

  /** What is parsed is an expression of the grammar. */
  lemma {:induction false} ParsedIsExpr(ts: seq<Token>, p: nat) returns (e: Expr)
    requires AreTokens(ts) && p <= |ts| && ExprAt(ts, p).Ok?
    ensures IsExpr(e) && ts[p..ExprAt(ts, p).value] == Written(e)
    decreases |ts| - p, 0
  {
    assert ts[p] in ts;
    var name, next, end := ts[p].name, Peek(ts, p + 1), ExprAt(ts, p).value;
    ExprCases(ts, p);
    hide ExprAt;
    hide ItemsAt;
    hide AreTokens;
    if name in {"all", "any"} && next == Some(LeftParen) {
      var items, trailing := ParsedAreItems(ts, p + 2);
      e := Group(name, items, trailing);
      Brackets(ts, p, end);
    } else if name == "not" && next == Some(LeftParen) {
      var body := ParsedIsExpr(ts, p + 2);
      e := Not(body);
      Brackets(ts, p, end);
    } else if next == Some(Equals) {
      e := Pair(name, ts[p + 2].text);
    } else {
      e := Name(name);
    }
  }

  /** What an expression that ends looks like, by its first tokens. */
  lemma ExprCases(ts: seq<Token>, p: nat)
    requires AreTokens(ts) && p <= |ts| && ExprAt(ts, p).Ok?
    ensures p < |ts| && ts[p].Ident? && IsIdent(ts[p].name)
    ensures var name, next, end := ts[p].name, Peek(ts, p + 1), ExprAt(ts, p).value;
      if name in {"all", "any"} && next == Some(LeftParen) then
        ItemsAt(ts, p + 2) == Ok(end - 1) && Peek(ts, end - 1) == Some(RightParen)
      else if name == "not" && next == Some(LeftParen) then
        ExprAt(ts, p + 2) == Ok(end - 1) && Peek(ts, end - 1) == Some(RightParen)
      else if next == Some(Equals) then
        end == p + 3 && ts[p + 2].Str? && '"' !in ts[p + 2].text && ts[p..end] == [ts[p], Equals, ts[p + 2]]
      else end == p + 1 && ts[p..end] == [ts[p]]
  {
    assert ts[p] in ts;
    if p + 2 < |ts| {
      assert ts[p + 2] in ts;
    }
    hide ItemsAt;
  }

  lemma Brackets(ts: seq<Token>, p: nat, end: nat)
    requires p + 3 <= end <= |ts|
    ensures ts[p..end] == [ts[p], ts[p + 1]] + ts[p + 2..end - 1] + [ts[end - 1]]
  {
  }

  lemma {:induction false} ParsedAreItems(ts: seq<Token>, p: nat) returns (items: Items, trailing: bool)
    requires AreTokens(ts) && p <= |ts| && ItemsAt(ts, p).Ok?
    requires Peek(ts, ItemsAt(ts, p).value) == Some(RightParen)
    ensures AreItems(items) && (trailing ==> items.Cons?)
    ensures ts[p..ItemsAt(ts, p).value] == WrittenItems(items, trailing)
    decreases |ts| - p, 1
  {
    ItemsCases(ts, p);
    var end := ItemsAt(ts, p).value;
    hide ExprAt;
    hide ItemsAt;
    hide AreTokens;
    hide Written;
    hide IsExpr;
    if Peek(ts, p) == Some(RightParen) {
      items, trailing := Nil, false;
    } else {
      var head := ParsedIsExpr(ts, p);
      var q := ExprAt(ts, p).value;
      if Peek(ts, q) == Some(Comma) {
        var tail;
        tail, trailing := ParsedAreItems(ts, q + 1);
        trailing := trailing || tail.Nil?;
        items := Cons(head, tail);
        WrittenCons(head, tail, trailing);
        CutAt(ts, p, q, end);
      } else {
        items, trailing := Cons(head, Nil), false;
        WrittenOne(head);
      }
    }
  }

  lemma CutAt(ts: seq<Token>, p: nat, q: nat, end: nat)
    requires p <= q < end <= |ts|
    ensures ts[p..end] == ts[p..q] + [ts[q]] + ts[q + 1..end]
  {
  }

  lemma WrittenCons(head: Expr, tail: Items, trailing: bool)
    requires tail.Nil? ==> trailing
    ensures WrittenItems(Cons(head, tail), trailing)
      == Written(head) + [Comma] + (if tail.Nil? then [] else WrittenItems(tail, trailing))
  {
  }

  lemma WrittenOne(head: Expr)
    ensures WrittenItems(Cons(head, Nil), false) == Written(head)
  {
  }

  /** How the loop over the items goes on. */
  lemma ItemsCases(ts: seq<Token>, p: nat)
    requires p <= |ts| && ItemsAt(ts, p).Ok? && Peek(ts, ItemsAt(ts, p).value) == Some(RightParen)
    ensures if Peek(ts, p) == Some(RightParen) then ItemsAt(ts, p) == Ok(p)
      else
        && ExprAt(ts, p).Ok?
        && if Peek(ts, ExprAt(ts, p).value) == Some(Comma) then ItemsAt(ts, p) == ItemsAt(ts, ExprAt(ts, p).value + 1)
           else ItemsAt(ts, p) == ExprAt(ts, p)
  {
    hide ExprAt;
  }

  lemma {:induction false} ExprTokens(e: Expr)
    requires IsExpr(e)
    ensures AreTokens(Written(e)) && NoNamesMeet(Written(e))
  {
    match e
    case Group(name, items, trailing) =>
      ItemsTokens(items, trailing);
      Wrapped(Ident(name), WrittenItems(items, trailing));
    case Not(body) =>
      ExprTokens(body);
      Wrapped(Ident("not"), Written(body));
    case Name(name) =>
    case Pair(name, text) =>
  }

  /** No two names stand side by side. */
  predicate NoNamesMeet(ts: seq<Token>) {
    forall i :: 0 < i < |ts| ==> !(ts[i - 1].Ident? && ts[i].Ident?)
  }

  lemma Wrapped(t: Token, inner: seq<Token>)
    requires IsToken(t) && AreTokens(inner) && NoNamesMeet(inner)
    ensures AreTokens([t, LeftParen] + inner + [RightParen]) && NoNamesMeet([t, LeftParen] + inner + [RightParen])
  {
    var ts := [t, LeftParen] + inner + [RightParen];
    forall i | 0 < i < |ts|
      ensures !(ts[i - 1].Ident? && ts[i].Ident?)
    {
      if 2 < i < |ts| - 1 {
        assert ts[i - 1] == inner[i - 3] && ts[i] == inner[i - 2];
      }
    }
  }

  lemma Joined(a: seq<Token>, b: seq<Token>)
    requires AreTokens(a) && AreTokens(b) && NoNamesMeet(a) && NoNamesMeet(b)
    ensures AreTokens(a + [Comma] + b) && NoNamesMeet(a + [Comma] + b)
  {
    var ts := a + [Comma] + b;
    forall i | 0 < i < |ts|
      ensures !(ts[i - 1].Ident? && ts[i].Ident?)
    {
      if i > |a| + 1 {
        assert ts[i - 1] == b[i - |a| - 2] && ts[i] == b[i - |a| - 1];
      }
    }
  }

  lemma {:induction false} ItemsTokens(items: Items, trailing: bool)
    requires AreItems(items)
    ensures AreTokens(WrittenItems(items, trailing)) && NoNamesMeet(WrittenItems(items, trailing))
  {
    if items.Cons? {
      ExprTokens(items.head);
      if items.tail.Cons? {
        ItemsTokens(items.tail, trailing);
        Joined(Written(items.head), WrittenItems(items.tail, trailing));
      } else if trailing {
        Joined(Written(items.head), []);
        assert Written(items.head) + [Comma] + [] == Written(items.head) + [Comma];
      }
    }
  }

  // ---------------------------------------------------------------- keys

  const OPEN := "cfg("

  /** `key` is a cfg expression, spelled with blanks wherever the tokens allow them. */
  ghost predicate IsCfg(key: string) {
    exists e, gaps :: IsExpr(e) && AreGaps(Written(e), gaps) && key == "cfg(" + Spaced(Written(e), gaps) + ")"
  }

  ghost predicate IsTargetName(key: string) {
    key != "" && IsNameText(key)
  }

  /** The first thing wrong inside: a token, the expression, or something after it. */
  ghost predicate RefusesInner(inner: string, e: Problem) {
    match TokensOf(inner)
    case Err(bad) => e == bad
    case Ok(ts) =>
      match ExprAt(ts, 0)
      case Err(bad) => e == bad
      case Ok(q) => q < |ts| && e == Leftover(ts[q])
  }

  /** The expression inside `cfg(...)`. */
  method ValidateCfgExpr(inner: string) returns (r: Result<(), Problem>)
    ensures r.Err? ==> RefusesInner(inner, r.error)
    ensures r.Ok? <==> TokensOf(inner).Ok? && ExprAt(TokensOf(inner).value, 0) == Ok(|TokensOf(inner).value|)
  {
    var tokens := Tokenize(inner);
    if tokens.Err? {
      return Err(tokens.error);
    }
    var parser := new Parser(tokens.value);
    r := parser.Expr();
    if r.Ok? && parser.pos < |tokens.value| {
      r := Err(Leftover(tokens.value[parser.pos]));
    }
  }

  predicate IsClosed(key: string) {
    |key| > |OPEN| && OPEN <= key && key[|key| - 1] == ')'
  }

  /** What a refusal that is not about the inside of `cfg(...)` says. */
  ghost predicate Refuses(key: string, e: Problem) {
    if OPEN <= key || "cfg " <= key then e == Unclosed
    else if key == "" then e == EmptyName
    else exists i :: 0 <= i < |key| && e == NotAName(key[i]) && !IsNameText([key[i]]) && IsNameText(key[..i])
  }

  /** The check of a key: what it accepts is exactly what the grammar derives, and a refused name is
      refused for its first bad character. */
  method ValidateTargetKey(key: string) returns (r: Result<(), Problem>)
    ensures r.Ok? <==> IsCfg(key) || IsTargetName(key)
    ensures r.Err? ==>
      if IsClosed(key) then RefusesInner(key[|OPEN|..|key| - 1], r.error) else Refuses(key, r.error)
  {
    if IsClosed(key) {
      r := ValidateCfgExpr(key[|OPEN|..|key| - 1]);
      InnerDecides(key);
      return;
    }
    NotCfg(key);
    if OPEN <= key || "cfg " <= key {
      assert !IsNameChar(key[3]);
      return Err(Unclosed);
    }
    if key == "" {
      return Err(EmptyName);
    }
    for i := 0 to |key|
      invariant forall k :: 0 <= k < i ==> IsNameChar(key[k])
    {
      if !IsNameChar(key[i]) {
        assert [key[i]][0] == key[i] && IsNameText(key[..i]);
        return Err(NotAName(key[i]));
      }
    }
    r := Ok(());
  }

  lemma NotCfg(key: string)
    requires !IsClosed(key)
    ensures !IsCfg(key)
  {
    forall e, gaps | IsExpr(e) && AreGaps(Written(e), gaps)
      ensures key != OPEN + Spaced(Written(e), gaps) + ")"
    {
      var cfg := OPEN + Spaced(Written(e), gaps) + ")";
      assert cfg[|cfg| - 1] == ')' && OPEN <= cfg;
    }
  }

  lemma InnerDecides(key: string)
    requires IsClosed(key)
    ensures var inner := key[|OPEN|..|key| - 1];
      (TokensOf(inner).Ok? && ExprAt(TokensOf(inner).value, 0) == Ok(|TokensOf(inner).value|))
      <==> IsCfg(key) || IsTargetName(key)
  {
    var inner := key[|OPEN|..|key| - 1];
    assert key == OPEN + inner + ")";
    assert !IsNameChar(key[3]);
    if TokensOf(inner).Ok? && ExprAt(TokensOf(inner).value, 0) == Ok(|TokensOf(inner).value|) {
      AcceptedIsCfg(inner);
    }
    if IsCfg(key) {
      var e, gaps :| IsExpr(e) && AreGaps(Written(e), gaps) && key == "cfg(" + Spaced(Written(e), gaps) + ")";
      assert inner == Spaced(Written(e), gaps);
      SpelledIsAccepted(e, gaps);
    }
  }

  lemma AcceptedIsCfg(inner: string)
    requires TokensOf(inner).Ok? && ExprAt(TokensOf(inner).value, 0) == Ok(|TokensOf(inner).value|)
    ensures IsCfg(OPEN + inner + ")")
  {
    var ts := TokensOf(inner).value;
    var gaps := SpellsTokens(inner);
    var e := ParsedIsExpr(ts, 0);
    assert ts[0..|ts|] == ts;
  }

  /** Every expression is accepted however it is spaced, blanks between names never being needed. */
  lemma SpelledIsAccepted(e: Expr, gaps: seq<string>)
    requires IsExpr(e) && |gaps| == |Written(e)| + 1 && forall g :: g in gaps ==> IsBlank(g)
    ensures TokensOf(Spaced(Written(e), gaps)) == Ok(Written(e))
    ensures ExprAt(Written(e), 0) == Ok(|Written(e)|)
  {
    var ts := Written(e);
    ExprTokens(e);
    ReadsSpaced(ts, gaps);
    assert ts[0..|ts|] == ts;
    ParsesExpr(ts, 0, e);
  }
}
