/** What the diagnostics print of a source text: the body of a JSON string (section 7 of RFC 8259),
    and the terminal line with its hidden characters spelled out. `hidden` stands for the
    characters the lexer refuses. */
module JsonEscape {
  import opened Options

  const QUOTE := '"'
  const BACKSLASH := '\\'

  // ---------------------------------------------------------------- numbers

  function Hex(d: nat): char
    requires d < 16
  {
    "0123456789abcdef"[d]
  }

  ghost function UnHex(c: char): Option<nat> {
    if '0' <= c <= '9' then Some(c as nat - '0' as nat)
    else if 'a' <= c <= 'f' then Some(c as nat - 'a' as nat + 10)
    else if 'A' <= c <= 'F' then Some(c as nat - 'A' as nat + 10)
    else None
  }

  function Four(n: nat): (s: string)
    requires n < 0x10000
    ensures |s| == 4
  {
    [Hex(n / 4096), Hex(n / 256 % 16), Hex(n / 16 % 16), Hex(n % 16)]
  }

  lemma HexReads(d: nat)
    requires d < 16
    ensures UnHex(Hex(d)) == Some(d)
  {
  }

  predicate AreUnits(us: seq<nat>) {
    forall i :: 0 <= i < |us| ==> us[i] < 0x10000
  }

  /** The code units of a character in UTF-16. */
  function Utf16(c: char): (us: seq<nat>)
    ensures AreUnits(us)
  {
    var n := c as nat;
    if n < 0x10000 then [n] else [0xD800 + (n - 0x10000) / 0x400, 0xDC00 + (n - 0x10000) % 0x400]
  }

  function Units(us: seq<nat>): string
    requires AreUnits(us)
  {
    if us == [] then "" else UnitEscape(us[0]) + Units(us[1..])
  }

  /** One code unit as an escape. */
  function UnitEscape(n: nat): (s: string)
    requires n < 0x10000
    ensures |s| == 6 && s[0] == BACKSLASH && s[1] == 'u'
  {
    "\\u" + Four(n)
  }

  // ---------------------------------------------------------------- the escape

  function Escaped(c: char, hidden: char -> bool): string {
    if c == QUOTE then "\\\""
    else if c == BACKSLASH then "\\\\"
    else if c == '\n' then "\\n"
    else if c == '\r' then "\\r"
    else if c == '\t' then "\\t"
    else if c < ' ' then UnitEscape(c as nat)
    else if hidden(c) then Units(Utf16(c))
    else [c]
  }

  function EscapedText(s: string, hidden: char -> bool): string {
    if s == "" then "" else Escaped(s[0], hidden) + EscapedText(s[1..], hidden)
  }

  lemma {:induction false} EscapedTextAdds(s: string, c: char, hidden: char -> bool)
    ensures EscapedText(s + [c], hidden) == EscapedText(s, hidden) + Escaped(c, hidden)
  {
    hide Escaped;
    if s == "" {
      assert [c][1..] == "" && s + [c] == [c];
    } else {
      EscapedTextAdds(s[1..], c, hidden);
      assert (s + [c])[1..] == s[1..] + [c];
    }
  }

  method JsonEscape(s: string, hidden: char -> bool) returns (out: string)
    ensures out == EscapedText(s, hidden)
  {
    out := "";
    for i := 0 to |s|
      invariant out == EscapedText(s[..i], hidden)
    {
      var c := s[i];
      EscapedTextAdds(s[..i], c, hidden);
      assert s[..i + 1] == s[..i] + [c];
      if c == QUOTE {
        out := out + "\\\"";
      } else if c == BACKSLASH {
        out := out + "\\\\";
      } else if c == '\n' {
        out := out + "\\n";
      } else if c == '\r' {
        out := out + "\\r";
      } else if c == '\t' {
        out := out + "\\t";
      } else if c < ' ' {
        out := out + UnitEscape(c as nat);
      } else if hidden(c) {
        out := out + Units(Utf16(c));
      } else {
        out := out + [c];
      }
    }
    assert s[..|s|] == s;
  }

  // ---------------------------------------------------------------- reading a JSON string body

  /** The code unit of four hexadecimal digits. */
  ghost function Unit(t: string): Option<nat> {
    if |t| < 4 then None
    else
      match (UnHex(t[0]), UnHex(t[1]), UnHex(t[2]), UnHex(t[3]))
      case (Some(a), Some(b), Some(c), Some(d)) => Some(4096 * a + 256 * b + 16 * c + d)
      case _ => None
  }

  ghost predicate IsHigh(u: nat) {
    0xD800 <= u < 0xDC00
  }

  ghost predicate IsLow(u: nat) {
    0xDC00 <= u < 0xE000
  }

  /** The character of a surrogate pair. */
  ghost function Combined(high: nat, low: nat): char
    requires IsHigh(high) && IsLow(low)
  {
    (0x10000 + (high - 0xD800) * 0x400 + (low - 0xDC00)) as char
  }

  ghost function Short(c: char): Option<char> {
    if c == QUOTE || c == BACKSLASH || c == '/' then Some(c)
    else if c == 'b' then Some(8 as char)
    else if c == 'f' then Some(12 as char)
    else if c == 'n' then Some('\n')
    else if c == 'r' then Some('\r')
    else if c == 't' then Some('\t')
    else None
  }

  /** The first character of a JSON string body and the rest: a plain character, a short escape,
      one code unit, or a surrogate pair. */
  ghost function ReadChar(t: string): (r: Option<(char, string)>)
    ensures r.Some? ==> |r.value.1| < |t|
  {
    if t == "" || t[0] == QUOTE || t[0] < ' ' then None
    else if t[0] != BACKSLASH then Some((t[0], t[1..]))
    else if |t| < 2 then None
    else if t[1] != 'u' then
      match Short(t[1])
      case Some(c) => Some((c, t[2..]))
      case None => None
    else
      match Unit(t[2..])
      case None => None
      case Some(u) =>
        if IsLow(u) || u >= 0x10000 then None
        else if !IsHigh(u) then Some((u as char, t[6..]))
        else if |t| >= 12 && t[6] == BACKSLASH && t[7] == 'u' && Unit(t[8..]).Some? && IsLow(Unit(t[8..]).value) then
          Some((Combined(u, Unit(t[8..]).value), t[12..]))
        else None
  }

  ghost function Decoded(t: string): Option<string>
    decreases |t|
  {
    if t == "" then Some("")
    else
      match ReadChar(t)
      case None => None
      case Some((c, rest)) =>
        match Decoded(rest)
        case None => None
        case Some(s) => Some([c] + s)
  }

  lemma FourDigits(n: nat)
    ensures 4096 * (n / 4096) + 256 * (n / 256 % 16) + 16 * (n / 16 % 16) + n % 16 == n
  {
    assert n / 16 == 16 * (n / 16 / 16) + n / 16 % 16 && n / 16 / 16 == n / 256;
    assert n / 256 == 16 * (n / 256 / 16) + n / 256 % 16 && n / 256 / 16 == n / 4096;
  }

  lemma FourReads(n: nat, rest: string)
    requires n < 0x10000
    ensures Unit(Four(n) + rest) == Some(n)
  {
    var t := Four(n) + rest;
    assert t[0] == Hex(n / 4096) && t[1] == Hex(n / 256 % 16) && t[2] == Hex(n / 16 % 16) && t[3] == Hex(n % 16);
    FourDigits(n);
    hide Hex;
    hide UnHex;
    HexReads(n / 4096);
    HexReads(n / 256 % 16);
    HexReads(n / 16 % 16);
    HexReads(n % 16);
  }

  lemma UnitReads(n: nat, rest: string)
    requires n < 0x10000
    ensures var t := UnitEscape(n) + rest; Unit(t[2..]) == Some(n) && t[6..] == rest
  {
    var t := UnitEscape(n) + rest;
    assert t[2..] == Four(n) + rest;
    FourReads(n, rest);
  }

  lemma ReadsUnit(c: char, rest: string)
    requires c as nat < 0x10000
    ensures ReadChar(UnitEscape(c as nat) + rest) == Some((c, rest))
  {
    UnitReads(c as nat, rest);
    hide Unit;
    hide UnitEscape;
  }

  lemma PairUnits(c: char)
    requires c as nat >= 0x10000
    ensures var us := Utf16(c);
      && |us| == 2 && us[0] < 0x10000 && us[1] < 0x10000 && IsHigh(us[0]) && IsLow(us[1])
      && Combined(us[0], us[1]) == c
      && Units(us) == UnitEscape(us[0]) + UnitEscape(us[1])
  {
    var us := Utf16(c);
    hide UnitEscape;
    assert us[1..] == [us[1]] && us[1..][1..] == [];
    assert Units(us[1..]) == UnitEscape(us[1]);
  }

  lemma ReadsTwoUnits(u: nat, v: nat, rest: string)
    requires IsHigh(u) && IsLow(v)
    ensures ReadChar(UnitEscape(u) + (UnitEscape(v) + rest)) ==
      Some((Combined(u, v), rest))
  {
    var low := UnitEscape(v) + rest;
    var t := UnitEscape(u) + low;
    UnitReads(u, low);
    UnitReads(v, rest);
    hide Unit;
    hide UnitEscape;
    assert t[6] == low[0] && t[7] == low[1];
    assert t[8..] == low[2..] && t[12..] == low[6..];
  }

  lemma ReadsPair(c: char, rest: string)
    requires c as nat >= 0x10000
    ensures ReadChar(Units(Utf16(c)) + rest) == Some((c, rest))
  {
    hide *;
    var us := Utf16(c);
    PairUnits(c);
    ReadsTwoUnits(us[0], us[1], rest);
    JoinsLeft(UnitEscape(us[0]), UnitEscape(us[1]), rest);
  }

  lemma JoinsLeft(a: string, b: string, c: string)
    ensures (a + b) + c == a + (b + c)
  {
  }

  lemma ReadsEscaped(c: char, hidden: char -> bool, rest: string)
    ensures ReadChar(Escaped(c, hidden) + rest) == Some((c, rest))
  {
    var t := Escaped(c, hidden) + rest;
    if c in {QUOTE, BACKSLASH, '\n', '\r', '\t'} {
      assert t[2..] == rest;
    } else if c < ' ' {
      ReadsUnit(c, rest);
    } else if hidden(c) {
      if c as nat < 0x10000 {
        assert Units(Utf16(c)) == UnitEscape(c as nat) + "";
        assert t == UnitEscape(c as nat) + rest;
        ReadsUnit(c, rest);
      } else {
        ReadsPair(c, rest);
      }
    } else {
      assert t[1..] == rest;
    }
  }

  /** Reading the escaped text back gives the text, for every Unicode string. */
  lemma {:induction false} DecodesEscaped(s: string, hidden: char -> bool)
    ensures Decoded(EscapedText(s, hidden)) == Some(s)
  {
    if s != "" {
      DecodesEscaped(s[1..], hidden);
      ReadsEscaped(s[0], hidden, EscapedText(s[1..], hidden));
      assert s == [s[0]] + s[1..];
    }
  }

  // ---------------------------------------------------------------- what the reader of the text sees

  /** How many backslashes stand directly before `i`. */
  function Backslashes(out: string, i: nat): (n: nat)
    requires i <= |out|
    ensures n <= i
  {
    if i > 0 && out[i - 1] == BACKSLASH then 1 + Backslashes(out, i - 1) else 0
  }

  /** No character is hidden or a control, every quote is escaped (an odd number of backslashes stands
      before it), and so would be no quote that followed the text. */
  ghost predicate IsClean(out: string, hidden: char -> bool) {
    && (forall i {:trigger CleanAt(out, i, hidden)} :: 0 <= i < |out| ==> CleanAt(out, i, hidden))
    && Backslashes(out, |out|) % 2 == 0
  }

  ghost predicate CleanAt(out: string, i: nat, hidden: char -> bool)
    requires i < |out|
  {
    !hidden(out[i]) && out[i] >= ' ' && (out[i] == QUOTE ==> Backslashes(out, i) % 2 == 1)
  }

  ghost predicate PrintableIsShown(hidden: char -> bool) {
    forall c :: ' ' <= c <= '~' ==> !hidden(c)
  }

  lemma HexPrints(d: nat)
    requires d < 16
    ensures ' ' <= Hex(d) <= '~' && Hex(d) != QUOTE && Hex(d) != BACKSLASH
  {
  }

  lemma FourPrints(n: nat)
    requires n < 0x10000
    ensures forall c :: c in Four(n) ==> ' ' <= c <= '~' && c != QUOTE
    ensures Four(n)[3] != BACKSLASH
  {
    HexPrints(n / 4096);
    HexPrints(n / 256 % 16);
    HexPrints(n / 16 % 16);
    HexPrints(n % 16);
  }

  lemma UnitPrints(n: nat)
    requires n < 0x10000
    ensures forall c :: c in UnitEscape(n) ==> ' ' <= c <= '~' && c != QUOTE
    ensures UnitEscape(n)[5] != BACKSLASH
  {
    FourPrints(n);
  }

  lemma {:induction false} UnitsPrint(us: seq<nat>)
    requires AreUnits(us)
    ensures forall c :: c in Units(us) ==> ' ' <= c <= '~' && c != QUOTE
    ensures us != [] ==> Units(us) != "" && Units(us)[|Units(us)| - 1] != BACKSLASH
  {
    if us != [] {
      UnitPrints(us[0]);
      hide UnitEscape;
      UnitsPrint(us[1..]);
    }
  }

  /** Printable text without quotes that ends in no backslash. */
  lemma PlainIsClean(s: string, hidden: char -> bool)
    requires PrintableIsShown(hidden) && s != "" && s[|s| - 1] != BACKSLASH
    requires forall c :: c in s ==> ' ' <= c <= '~' && c != QUOTE
    ensures IsClean(s, hidden)
  {
    assert forall i :: 0 <= i < |s| ==> s[i] in s;
  }

  lemma OneIsClean(c: char, hidden: char -> bool)
    requires c != QUOTE && c != BACKSLASH && c >= ' ' && !hidden(c)
    ensures IsClean([c], hidden)
  {
  }

  lemma ShortIsClean(c: char, hidden: char -> bool)
    requires PrintableIsShown(hidden) && ' ' <= c <= '~'
    ensures IsClean([BACKSLASH, c], hidden)
  {
    var s := [BACKSLASH, c];
    assert Backslashes(s, 1) == 1 + Backslashes(s, 0) == 1;
    assert Backslashes(s, 2) == if c == BACKSLASH then 2 else 0;
  }

  lemma EscapedIsClean(c: char, hidden: char -> bool)
    requires PrintableIsShown(hidden)
    ensures IsClean(Escaped(c, hidden), hidden)
  {
    hide IsClean;
    hide UnitEscape;
    if c in {QUOTE, BACKSLASH, '\n', '\r', '\t'} {
      assert Escaped(c, hidden) == [BACKSLASH, Escaped(c, hidden)[1]];
      ShortIsClean(Escaped(c, hidden)[1], hidden);
    } else if c < ' ' {
      UnitPrints(c as nat);
      PlainIsClean(UnitEscape(c as nat), hidden);
    } else if hidden(c) {
      UnitsPrint(Utf16(c));
      hide Units;
      PlainIsClean(Units(Utf16(c)), hidden);
    } else {
      OneIsClean(c, hidden);
    }
  }

  /** The escaped text holds no raw quote, control or hidden character. */
  lemma {:induction false} EscapedTextIsClean(s: string, hidden: char -> bool)
    requires PrintableIsShown(hidden)
    ensures IsClean(EscapedText(s, hidden), hidden)
  {
    if s != "" {
      EscapedIsClean(s[0], hidden);
      EscapedTextIsClean(s[1..], hidden);
      hide IsClean;
      hide Escaped;
      CleanJoins(Escaped(s[0], hidden), EscapedText(s[1..], hidden), hidden);
    }
  }

  /** Backslashes inside the first part are counted as there, and behind it up to an even number
      more. */
  lemma {:induction false} BackslashesJoin(a: string, b: string, i: nat)
    requires i <= |a + b| && Backslashes(a, |a|) % 2 == 0
    ensures i <= |a| ==> Backslashes(a + b, i) == Backslashes(a, i)
    ensures i >= |a| ==> Backslashes(a + b, i) % 2 == Backslashes(b, i - |a|) % 2
  {
    if i > 0 {
      BackslashesJoin(a, b, i - 1);
      assert (a + b)[i - 1] == if i - 1 < |a| then a[i - 1] else b[i - 1 - |a|];
    }
  }

  lemma CleanJoins(a: string, b: string, hidden: char -> bool)
    requires IsClean(a, hidden) && IsClean(b, hidden)
    ensures IsClean(a + b, hidden)
  {
    var out := a + b;
    forall i | 0 <= i < |out|
      ensures CleanAt(out, i, hidden)
    {
      BackslashesJoin(a, b, i);
      if i < |a| {
        assert CleanAt(a, i, hidden);
      } else {
        assert CleanAt(b, i - |a|, hidden);
      }
    }
    BackslashesJoin(a, b, |out|);
  }

  // ---------------------------------------------------------------- the terminal line

  function UpperHex(n: nat): string {
    if n < 16 then ["0123456789ABCDEF"[n]] else UpperHex(n / 16) + ["0123456789ABCDEF"[n % 16]]
  }

  function Padded(s: string): string {
    if |s| >= 4 then s else ['0', '0', '0', '0'][..4 - |s|] + s
  }

  /** How one character of a source line is shown. */
  function Shown(c: char, hidden: char -> bool): (s: string)
    ensures s != ""
  {
    if hidden(c) then "\\u{" + Padded(UpperHex(c as nat)) + "}" else [c]
  }

  function ShownText(s: string, hidden: char -> bool): string {
    if s == "" then "" else Shown(s[0], hidden) + ShownText(s[1..], hidden)
  }

  lemma {:induction false} ShownTextAdds(s: string, c: char, hidden: char -> bool)
    ensures ShownText(s + [c], hidden) == ShownText(s, hidden) + Shown(c, hidden)
  {
    hide Shown;
    if s == "" {
      assert [c][1..] == "" && s + [c] == [c];
    } else {
      ShownTextAdds(s[1..], c, hidden);
      assert (s + [c])[1..] == s[1..] + [c];
    }
  }

  /** A line without hidden characters is borrowed as it is. */
  method EscapeBidi(text: string, hidden: char -> bool) returns (out: string)
    ensures out == ShownText(text, hidden)
  {
    if forall i :: 0 <= i < |text| ==> !hidden(text[i]) {
      NothingHidden(text, hidden);
      return text;
    }
    out := "";
    for i := 0 to |text|
      invariant out == ShownText(text[..i], hidden)
    {
      ShownTextAdds(text[..i], text[i], hidden);
      assert text[..i + 1] == text[..i] + [text[i]];
      if hidden(text[i]) {
        out := out + "\\u{" + Padded(UpperHex(text[i] as nat)) + "}";
      } else {
        out := out + [text[i]];
      }
    }
    assert text[..|text|] == text;
  }

  lemma {:induction false} NothingHidden(text: string, hidden: char -> bool)
    requires forall i :: 0 <= i < |text| ==> !hidden(text[i])
    ensures ShownText(text, hidden) == text
  {
    if text != "" {
      NothingHidden(text[1..], hidden);
    }
  }

  /** The rendered width of the first `n` characters. */
  function EscapedWidth(line: string, n: nat, hidden: char -> bool): nat {
    if n == 0 || line == "" then 0 else |Shown(line[0], hidden)| + EscapedWidth(line[1..], n - 1, hidden)
  }

  lemma {:induction false} ShownJoins(a: string, b: string, hidden: char -> bool)
    ensures ShownText(a + b, hidden) == ShownText(a, hidden) + ShownText(b, hidden)
  {
    hide Shown;
    if a == "" {
      assert a + b == b;
    } else {
      var c, rest := a[0], a[1..];
      ShownJoins(rest, b, hidden);
      assert (a + b)[0] == c && (a + b)[1..] == rest + b;
      assert ShownText(a + b, hidden) == Shown(c, hidden) + ShownText(rest + b, hidden);
      assert ShownText(a, hidden) == Shown(c, hidden) + ShownText(rest, hidden);
      hide ShownText;
      assert Shown(c, hidden) + (ShownText(rest, hidden) + ShownText(b, hidden))
          == (Shown(c, hidden) + ShownText(rest, hidden)) + ShownText(b, hidden);
    }
  }

  /** The width of a prefix is what it is shown as long. */
  lemma {:induction false} WidthIsShownLength(line: string, n: nat, hidden: char -> bool)
    requires n <= |line|
    ensures EscapedWidth(line, n, hidden) == |ShownText(line[..n], hidden)|
  {
    hide Shown;
    if n > 0 {
      WidthIsShownLength(line[1..], n - 1, hidden);
      assert line[..n][1..] == line[1..][..n - 1];
    }
  }

  /** What stands at the width of `k` characters of the shown line is the character `k`, and the
      next character stands behind it. */
  lemma CaretStandsUnder(line: string, k: nat, hidden: char -> bool)
    requires k < |line|
    ensures var before := ShownText(line[..k], hidden);
      && EscapedWidth(line, k, hidden) == |before|
      && EscapedWidth(line, k + 1, hidden) == |before| + |Shown(line[k], hidden)|
      && ShownText(line, hidden) == before + Shown(line[k], hidden) + ShownText(line[k + 1..], hidden)
  {
    WidthIsShownLength(line, k, hidden);
    WidthIsShownLength(line, k + 1, hidden);
    ShownTextAdds(line[..k], line[k], hidden);
    assert line[..k + 1] == line[..k] + [line[k]];
    ShownJoins(line[..k + 1], line[k + 1..], hidden);
    assert line == line[..k + 1] + line[k + 1..];
  }

  // ---------------------------------------------------------------- what the shown line spells

  ghost predicate IsUpperDigit(c: char) {
    '0' <= c <= '9' || 'A' <= c <= 'F'
  }

  /** The number that hexadecimal digits spell. */
  ghost function Spells(s: string): int {
    if s == "" then 0
    else
      var d := s[|s| - 1];
      16 * Spells(s[..|s| - 1]) + (if d <= '9' then d as int - '0' as int else d as int - 'A' as int + 10)
  }

  lemma UpperDigit(d: nat)
    requires d < 16
    ensures var c := "0123456789ABCDEF"[d];
      IsUpperDigit(c) && (if c <= '9' then c as int - '0' as int else c as int - 'A' as int + 10) == d
  {
  }

  lemma {:induction false} UpperHexSpells(n: nat)
    ensures var s := UpperHex(n);
      && s != "" && (forall c :: c in s ==> IsUpperDigit(c)) && Spells(s) == n
      && (s[0] == '0' ==> n == 0)
  {
    UpperDigit(n % 16);
    var s := UpperHex(n);
    if n >= 16 {
      UpperHexSpells(n / 16);
      assert s[..|s| - 1] == UpperHex(n / 16);
    } else {
      assert s[..0] == "";
    }
  }

  lemma {:induction false} ZerosSpellNothing(zeros: string, s: string)
    requires forall c :: c in zeros ==> c == '0'
    ensures Spells(zeros + s) == Spells(s)
    decreases |s|, |zeros|
  {
    var t := zeros + s;
    if s != "" {
      assert t[..|t| - 1] == zeros + s[..|s| - 1];
      ZerosSpellNothing(zeros, s[..|s| - 1]);
    } else if zeros != "" {
      var front := zeros[..|zeros| - 1];
      assert forall c :: c in front ==> c in zeros;
      assert t[..|t| - 1] == front + "" && zeros[|zeros| - 1] in zeros;
      ZerosSpellNothing(front, "");
    }
  }

  /** Four digits or more, none of the further ones a leading zero, that spell the number. */
  lemma PaddedSpells(n: nat)
    ensures var s := Padded(UpperHex(n));
      && |s| >= 4 && (|s| > 4 ==> s[0] != '0') && (forall c :: c in s ==> IsUpperDigit(c)) && Spells(s) == n
  {
    UpperHexSpells(n);
    var s := UpperHex(n);
    var zeros := ['0', '0', '0', '0'];
    if |s| < 4 {
      ZerosSpellNothing(zeros[..4 - |s|], s);
    } else if |s| > 4 {
      assert |UpperHex(0)| == 1;
    }
  }

  /** A hidden character is shown as an escape whose digits spell its code point, any other as itself. */
  lemma ShownMeans(c: char, hidden: char -> bool)
    ensures !hidden(c) ==> Shown(c, hidden) == [c]
    ensures hidden(c) ==> exists digits ::
      && Shown(c, hidden) == ['\\', 'u', '{'] + digits + ['}']
      && |digits| >= 4 && (|digits| > 4 ==> digits[0] != '0')
      && (forall d :: d in digits ==> IsUpperDigit(d)) && Spells(digits) == c as int
  {
    PaddedSpells(c as nat);
    if hidden(c) {
      var digits := Padded(UpperHex(c as nat));
      assert Shown(c, hidden) == ['\\', 'u', '{'] + digits + ['}'];
    }
  }

  /** The shown line holds no hidden character. */
  lemma {:induction false} ShownIsVisible(s: string, hidden: char -> bool)
    requires PrintableIsShown(hidden)
    ensures forall c :: c in ShownText(s, hidden) ==> !hidden(c)
  {
    if s != "" {
      ShownIsVisible(s[1..], hidden);
      ShownMeans(s[0], hidden);
    }
  }

  /** The escapes of the JSON text are written with four lower-case digits. */
  lemma UnitIsLowerCase(n: nat)
    requires n < 0x10000
    ensures UnitEscape(n)[..2] == [BACKSLASH, 'u']
    ensures forall c :: c in UnitEscape(n)[2..] ==> '0' <= c <= '9' || 'a' <= c <= 'f'
    ensures |UnitEscape(n)| == 6
  {
    LowerDigit(n / 4096);
    LowerDigit(n / 256 % 16);
    LowerDigit(n / 16 % 16);
    LowerDigit(n % 16);
  }

  lemma LowerDigit(d: nat)
    requires d < 16
    ensures '0' <= Hex(d) <= '9' || 'a' <= Hex(d) <= 'f'
  {
  }
}
