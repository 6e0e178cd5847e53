/** The characters and tokens of the platform key of a native-dependency table: the tokenizer, and
    what it reads back of any spelling. */
module CfgTokens {
  import opened Options

  datatype Token = LeftParen | RightParen | Comma | Equals | Ident(name: string) | Str(text: string)

  datatype Problem =
    | Unclosed
    | EmptyName
    | NotAName(c: char)
    | Unterminated(rest: string)
    | Unexpected(c: char)
    | ExpectedName(found: Option<Token>)
    | ExpectedString(name: string, found: Option<Token>)
    | Expected(want: Token, found: Option<Token>)
    | Leftover(token: Token)

  // ---------------------------------------------------------------- characters

  predicate IsLetter(c: char) {
    'a' <= c <= 'z' || 'A' <= c <= 'Z' || c == '_'
  }

  predicate IsWord(c: char) {
    IsLetter(c) || '0' <= c <= '9'
  }

  predicate IsSpace(c: char) {
    c in " \t\n\r"
  }

  predicate IsNameChar(c: char) {
    IsWord(c) || c == '-' || c == '.'
  }

  // The alphabets of the grammar, by code point; the predicates above are the scanner's tests.

  ghost predicate InLetters(c: char) {
    var n := c as int;
    65 <= n <= 90 || 97 <= n <= 122 || n == 95
  }

  ghost predicate InDigits(c: char) {
    48 <= c as int <= 57
  }

  /** `[A-Za-z_][A-Za-z0-9_]*` */
  ghost predicate IsIdent(s: string) {
    s != "" && InLetters(s[0]) && forall i :: 0 <= i < |s| ==> InLetters(s[i]) || InDigits(s[i])
  }

  /** Spaces, tabs and line ends. */
  ghost predicate IsBlank(s: string) {
    forall i :: 0 <= i < |s| ==> s[i] as int in {32, 9, 10, 13}
  }

  /** Characters of `[A-Za-z0-9_.-]`. */
  ghost predicate IsNameText(s: string) {
    forall i :: 0 <= i < |s| ==> InLetters(s[i]) || InDigits(s[i]) || s[i] as int == 46 || s[i] as int == 45
  }

  // ---------------------------------------------------------------- tokens

  /** Where the first `c` stands, or the length. */
  function Find(s: string, c: char): (i: nat)
    ensures i <= |s|
    ensures forall k :: 0 <= k < i ==> s[k] != c
    ensures i < |s| ==> s[i] == c
  {
    if s == "" || s[0] == c then 0 else 1 + Find(s[1..], c)
  }

  /** How many word characters `s` begins with. */
  function WordLength(s: string): (n: nat)
    ensures n <= |s|
    ensures forall k :: 0 <= k < n ==> IsWord(s[k])
    ensures n < |s| ==> !IsWord(s[n])
  {
    if s == "" || !IsWord(s[0]) then 0 else 1 + WordLength(s[1..])
  }

  function Before(t: Token, r: Result<seq<Token>, Problem>): Result<seq<Token>, Problem> {
    match r
    case Ok(ts) => Ok([t] + ts)
    case Err(e) => Err(e)
  }

  function Punctuation(c: char): Option<Token> {
    if c == '(' then Some(LeftParen)
    else if c == ')' then Some(RightParen)
    else if c == ',' then Some(Comma)
    else if c == '=' then Some(Equals)
    else None
  }

  function TokensOf(s: string): Result<seq<Token>, Problem>
    decreases |s|
  {
    if s == "" then Ok([])
    else if IsSpace(s[0]) then TokensOf(s[1..])
    else if Punctuation(s[0]).Some? then Before(Punctuation(s[0]).value, TokensOf(s[1..]))
    else if s[0] == '"' then
      var end := Find(s[1..], '"');
      if end == |s| - 1 then Err(Unterminated(s)) else Before(Str(s[1..][..end]), TokensOf(s[1..][end + 1..]))
    else if IsLetter(s[0]) then Before(Ident(s[..WordLength(s)]), TokensOf(s[WordLength(s)..]))
    else Err(Unexpected(s[0]))
  }

  function After(out: seq<Token>, r: Result<seq<Token>, Problem>): Result<seq<Token>, Problem> {
    match r
    case Ok(ts) => Ok(out + ts)
    case Err(e) => Err(e)
  }

  lemma AfterBefore(out: seq<Token>, t: Token, r: Result<seq<Token>, Problem>)
    ensures After(out, Before(t, r)) == After(out + [t], r)
  {
    if r.Ok? {
      assert out + ([t] + r.value) == out + [t] + r.value;
    }
  }

  /** The tokens read so far come before those of what is left. */
  ghost predicate HasRead(s: string, out: seq<Token>, i: nat)
    requires i <= |s|
  {
    TokensOf(s) == After(out, TokensOf(s[i..]))
  }

  method Tokenize(s: string) returns (r: Result<seq<Token>, Problem>)
    ensures r == TokensOf(s)
  {
    hide *;
    var out: seq<Token> := [];
    var i := 0;
    ReadNothing(s);
    while i < |s|
      invariant 0 <= i <= |s|
      invariant HasRead(s, out, i)
    {
      var c := s[i];
      if IsSpace(c) {
        ReadSpace(s, out, i);
        i := i + 1;
      } else if Punctuation(c).Some? {
        ReadPunctuation(s, out, i);
        out := out + [Punctuation(c).value];
        i := i + 1;
      } else if c == '"' {
        var end := Find(s[i + 1..], '"');
        if end == |s| - i - 1 {
          ReadStops(s, out, i);
          return Err(Unterminated(s[i..]));
        }
        ReadString(s, out, i);
        out := out + [Str(s[i + 1..][..end])];
        i := i + end + 2;
      } else if IsLetter(c) {
        var end := i + 1;
        while end < |s| && IsWord(s[end])
          invariant i < end <= |s|
          invariant forall k :: i < k < end ==> IsWord(s[k])
        {
          end := end + 1;
        }
        ReadWord(s, out, i, end);
        out := out + [Ident(s[i..end])];
        i := end;
      } else {
        ReadStops(s, out, i);
        return Err(Unexpected(c));
      }
    }
    ReadAll(s, out);
    r := Ok(out);
  }

  lemma ReadNothing(s: string)
    ensures HasRead(s, [], 0)
  {
    assert s[0..] == s;
    NothingBefore(TokensOf(s));
  }

  lemma ReadAll(s: string, out: seq<Token>)
    requires HasRead(s, out, |s|)
    ensures TokensOf(s) == Ok(out)
  {
    assert s[|s|..] == "" && out + [] == out;
  }

  lemma ReadSpace(s: string, out: seq<Token>, i: nat)
    requires i < |s| && HasRead(s, out, i) && IsSpace(s[i])
    ensures HasRead(s, out, i + 1)
  {
    assert s[i..][1..] == s[i + 1..];
  }

  lemma ReadPunctuation(s: string, out: seq<Token>, i: nat)
    requires i < |s| && HasRead(s, out, i) && !IsSpace(s[i]) && Punctuation(s[i]).Some?
    ensures HasRead(s, out + [Punctuation(s[i]).value], i + 1)
  {
    assert s[i..][1..] == s[i + 1..];
    AfterBefore(out, Punctuation(s[i]).value, TokensOf(s[i + 1..]));
  }

  lemma ReadString(s: string, out: seq<Token>, i: nat)
    requires i < |s| && HasRead(s, out, i) && s[i] == '"' && Find(s[i + 1..], '"') < |s| - i - 1
    ensures HasRead(s, out + [Str(s[i + 1..][..Find(s[i + 1..], '"')])], i + Find(s[i + 1..], '"') + 2)
  {
    var end := Find(s[i + 1..], '"');
    assert s[i..][1..] == s[i + 1..] && s[i + 1..][end + 1..] == s[i + end + 2..];
    AfterBefore(out, Str(s[i + 1..][..end]), TokensOf(s[i + end + 2..]));
  }

  lemma ReadWord(s: string, out: seq<Token>, i: nat, end: nat)
    requires i < end <= |s| && HasRead(s, out, i) && IsLetter(s[i])
    requires forall k :: i < k < end ==> IsWord(s[k])
    requires end < |s| ==> !IsWord(s[end])
    ensures HasRead(s, out + [Ident(s[i..end])], end)
  {
    WordEnds(s[i..], end - i);
    assert s[i..][..end - i] == s[i..end] && s[i..][end - i..] == s[end..];
    AfterBefore(out, Ident(s[i..end]), TokensOf(s[end..]));
  }

  lemma ReadStops(s: string, out: seq<Token>, i: nat)
    requires i < |s| && HasRead(s, out, i) && !IsSpace(s[i]) && Punctuation(s[i]).None?
    ensures s[i] == '"' && Find(s[i + 1..], '"') == |s| - i - 1 ==> TokensOf(s) == Err(Unterminated(s[i..]))
    ensures s[i] != '"' && !IsLetter(s[i]) ==> TokensOf(s) == Err(Unexpected(s[i]))
  {
    assert s[i..][1..] == s[i + 1..];
  }

  lemma NothingBefore(r: Result<seq<Token>, Problem>)
    ensures After([], r) == r
  {
    if r.Ok? {
      assert [] + r.value == r.value;
    }
  }

  lemma WordEnds(s: string, n: nat)
    requires n <= |s| && (forall k :: 0 <= k < n ==> IsWord(s[k])) && (n < |s| ==> !IsWord(s[n]))
    ensures WordLength(s) == n
  {
  }

  // ---------------------------------------------------------------- spelling

  ghost predicate IsToken(t: Token) {
    match t
    case Ident(name) => IsIdent(name)
    case Str(text) => '"' !in text
    case _ => true
  }

  ghost predicate AreTokens(ts: seq<Token>) {
    forall t :: t in ts ==> IsToken(t)
  }

  function Spell(t: Token): string {
    match t
    case LeftParen => "("
    case RightParen => ")"
    case Comma => ","
    case Equals => "="
    case Ident(name) => name
    case Str(text) => "\"" + text + "\""
  }

  /** The tokens written out, with a gap before each and one at the end. */
  function Spaced(ts: seq<Token>, gaps: seq<string>): string
    requires |gaps| == |ts| + 1
  {
    if ts == [] then gaps[0] else gaps[0] + Spell(ts[0]) + Spaced(ts[1..], gaps[1..])
  }

  /** Gaps are blank, and two names in a row are kept apart. */
  ghost predicate AreGaps(ts: seq<Token>, gaps: seq<string>) {
    && |gaps| == |ts| + 1
    && (forall g :: g in gaps ==> IsBlank(g))
    && (forall i :: 0 < i < |ts| && ts[i - 1].Ident? && ts[i].Ident? ==> gaps[i] != "")
  }

  lemma {:induction false} SkipsBlank(g: string, s: string)
    requires IsBlank(g)
    ensures TokensOf(g + s) == TokensOf(s)
  {
    if g == "" {
      assert g + s == s;
    } else {
      SkipsBlank(g[1..], s);
      assert (g + s)[1..] == g[1..] + s;
    }
  }

  predicate StartsWithWord(s: string) {
    s != "" && IsWord(s[0])
  }

  /** A token is read back from its spelling, unless a name runs on. */
  lemma ReadsToken(t: Token, s: string)
    requires IsToken(t) && (t.Ident? ==> !StartsWithWord(s))
    ensures TokensOf(Spell(t) + s) == Before(t, TokensOf(s))
  {
    match t
    case Ident(name) => ReadsName(name, s);
    case Str(text) => ReadsString(text, s);
    case _ =>
      assert Spell(t) + s == [Spell(t)[0]] + s;
      ReadsPunctuation(t, Spell(t)[0], s);
  }

  lemma ReadsPunctuation(t: Token, c: char, s: string)
    requires !IsSpace(c) && Punctuation(c) == Some(t)
    ensures TokensOf([c] + s) == Before(t, TokensOf(s))
  {
    assert ([c] + s)[1..] == s;
  }

  lemma ReadsName(name: string, s: string)
    requires IsIdent(name) && !StartsWithWord(s)
    ensures TokensOf(name + s) == Before(Ident(name), TokensOf(s))
  {
    var text := name + s;
    WordEnds(text, |name|);
    assert text[..|name|] == name && text[|name|..] == s && text[0] == name[0];
  }

  lemma ReadsString(body: string, s: string)
    requires '"' !in body
    ensures TokensOf("\"" + body + "\"" + s) == Before(Str(body), TokensOf(s))
  {
    var text := "\"" + body + "\"" + s;
    var rest := body + "\"" + s;
    assert text[1..] == rest;
    FindsQuote(body, s);
    assert rest[..|body|] == body && rest[|body| + 1..] == s;
  }

  lemma FindsQuote(body: string, s: string)
    requires '"' !in body
    ensures Find(body + "\"" + s, '"') == |body|
  {
    var text := body + "\"" + s;
    assert text[|body|] == '"';
    forall k | 0 <= k < |body|
      ensures text[k] != '"'
    {
      assert text[k] == body[k] && body[k] in body;
    }
  }

  /** Tokens written with any blank gaps are read back. */
  lemma {:induction false} ReadsSpaced(ts: seq<Token>, gaps: seq<string>)
    requires AreTokens(ts) && AreGaps(ts, gaps)
    ensures TokensOf(Spaced(ts, gaps)) == Ok(ts)
  {
    if ts == [] {
      assert gaps[0] in gaps;
      SkipsBlank(gaps[0], "");
      NoTokens();
      assert gaps[0] + "" == gaps[0];
    } else {
      assert gaps[0] in gaps && ts[0] in ts;
      RestIsGapped(ts, gaps);
      ReadsSpaced(ts[1..], gaps[1..]);
      NameEnds(ts, gaps);
      ReadsFirst(gaps[0], ts[0], Spaced(ts[1..], gaps[1..]));
      hide TokensOf;
      hide Spell;
      assert [ts[0]] + ts[1..] == ts;
    }
  }

  lemma ReadsFirst(gap: string, t: Token, rest: string)
    requires IsBlank(gap) && IsToken(t) && (t.Ident? ==> !StartsWithWord(rest))
    ensures TokensOf(gap + Spell(t) + rest) == Before(t, TokensOf(rest))
  {
    hide *;
    ReadsToken(t, rest);
    SkipsBlank(gap, Spell(t) + rest);
    assert gap + Spell(t) + rest == gap + (Spell(t) + rest);
  }

  lemma NoTokens()
    ensures TokensOf("") == Ok([])
  {
  }

  lemma RestIsGapped(ts: seq<Token>, gaps: seq<string>)
    requires AreTokens(ts) && AreGaps(ts, gaps) && ts != []
    ensures AreTokens(ts[1..]) && AreGaps(ts[1..], gaps[1..])
  {
    forall i | 0 < i < |ts[1..]| && ts[1..][i - 1].Ident? && ts[1..][i].Ident?
      ensures gaps[1..][i] != ""
    {
      assert ts[i].Ident? && ts[i + 1].Ident?;
    }
  }

  /** What follows a name does not run on. */
  lemma NameEnds(ts: seq<Token>, gaps: seq<string>)
    requires AreTokens(ts) && AreGaps(ts, gaps) && ts != []
    ensures ts[0].Ident? ==> !StartsWithWord(Spaced(ts[1..], gaps[1..]))
  {
    var rest := Spaced(ts[1..], gaps[1..]);
    assert gaps[1] in gaps;
    if gaps[1] != "" {
      assert rest[0] == gaps[1][0];
    } else if |ts| > 1 {
      assert ts[1] in ts;
      assert rest == Spell(ts[1]) + Spaced(ts[2..], gaps[2..]) by {
        assert ts[1..][1..] == ts[2..] && gaps[1..][1..] == gaps[2..];
      }
      assert rest[0] == Spell(ts[1])[0];
    }
  }

  /** Whatever is read was written that way. */
  lemma {:induction false} SpellsTokens(s: string) returns (gaps: seq<string>)
    requires TokensOf(s).Ok?
    ensures AreTokens(TokensOf(s).value) && AreGaps(TokensOf(s).value, gaps)
    ensures s == Spaced(TokensOf(s).value, gaps)
    decreases |s|
  {
    if s == "" {
      gaps := [""];
    } else if IsSpace(s[0]) {
      var narrow := SpellsTokens(s[1..]);
      var ts := TokensOf(s[1..]).value;
      gaps := Wider(s[0], narrow);
      WiderIsGaps(s[0], ts, narrow);
      WiderSpells(s[0], ts, narrow);
      assert s == [s[0]] + s[1..];
    } else {
      var t, rest := FirstToken(s);
      gaps := SpellsTokens(rest);
      gaps := OneToken(s, t, rest, TokensOf(rest).value, gaps);
    }
  }

  /** The first gap made wider by one blank. */
  function Wider(c: char, gaps: seq<string>): seq<string>
    requires gaps != []
  {
    [[c] + gaps[0]] + gaps[1..]
  }

  lemma WiderIsGaps(c: char, ts: seq<Token>, gaps: seq<string>)
    requires IsSpace(c) && AreGaps(ts, gaps)
    ensures AreGaps(ts, Wider(c, gaps))
  {
    assert gaps[0] in gaps && IsBlank(gaps[0]);
    forall g | g in Wider(c, gaps)
      ensures IsBlank(g)
    {
      assert g == [c] + gaps[0] || g in gaps[1..];
    }
  }

  lemma WiderSpells(c: char, ts: seq<Token>, gaps: seq<string>)
    requires |gaps| == |ts| + 1
    ensures Spaced(ts, Wider(c, gaps)) == [c] + Spaced(ts, gaps)
  {
    hide Spell;
    assert Wider(c, gaps)[1..] == gaps[1..];
    if ts != [] {
      var rest := Spaced(ts[1..], gaps[1..]);
      assert [c] + gaps[0] + Spell(ts[0]) + rest == [c] + (gaps[0] + Spell(ts[0]) + rest);
    }
  }

  lemma FirstString(s: string) returns (t: Token, rest: string)
    requires s != "" && s[0] == '"' && TokensOf(s).Ok?
    ensures IsToken(t) && !t.Ident? && s == Spell(t) + rest && |rest| < |s|
    ensures TokensOf(s) == Before(t, TokensOf(rest))
  {
    var end := Find(s[1..], '"');
    t, rest := Str(s[1..][..end]), s[1..][end + 1..];
    assert s[1..] == s[1..][..end] + "\"" + rest;
  }

  lemma FirstWord(s: string) returns (t: Token, rest: string)
    requires s != "" && IsLetter(s[0])
    ensures IsToken(t) && t.Ident? && s == Spell(t) + rest && |rest| < |s| && !StartsWithWord(rest)
    ensures TokensOf(s) == Before(t, TokensOf(rest))
  {
    t, rest := Ident(s[..WordLength(s)]), s[WordLength(s)..];
  }

  lemma FirstToken(s: string) returns (t: Token, rest: string)
    requires s != "" && !IsSpace(s[0]) && TokensOf(s).Ok?
    ensures IsToken(t) && s == Spell(t) + rest && |rest| < |s| && (t.Ident? ==> !StartsWithWord(rest))
    ensures TokensOf(rest).Ok? && TokensOf(s).value == [t] + TokensOf(rest).value
  {
    if Punctuation(s[0]).Some? {
      t, rest := Punctuation(s[0]).value, s[1..];
    } else if s[0] == '"' {
      t, rest := FirstString(s);
    } else {
      t, rest := FirstWord(s);
    }
  }

  lemma OneToken(s: string, t: Token, rest: string, ts: seq<Token>, gaps: seq<string>) returns (more: seq<string>)
    requires IsToken(t) && s == Spell(t) + rest && (t.Ident? ==> !StartsWithWord(rest))
    requires AreTokens(ts) && AreGaps(ts, gaps) && rest == Spaced(ts, gaps)
    ensures AreTokens([t] + ts) && AreGaps([t] + ts, more) && s == Spaced([t] + ts, more)
  {
    hide Spell;
    hide IsBlank;
    EmptyIsBlank();
    more := [""] + gaps;
    assert more[1..] == gaps && ([t] + ts)[1..] == ts;
    if ts != [] && ts[0].Ident? && gaps[0] == "" {
      StartsWithName(ts, gaps);
    }
  }

  lemma EmptyIsBlank()
    ensures IsBlank("")
  {
  }

  lemma StartsWithName(ts: seq<Token>, gaps: seq<string>)
    requires AreTokens(ts) && AreGaps(ts, gaps) && ts != [] && ts[0].Ident? && gaps[0] == ""
    ensures StartsWithWord(Spaced(ts, gaps))
  {
    assert ts[0] in ts;
    assert Spaced(ts, gaps)[0] == Spell(ts[0])[0];
  }
}
