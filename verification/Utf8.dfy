/** UTF-8 as section 3 of RFC 3629 defines it: the octets of a code point, the emitted decoder
    that reads them back, and which octet sequences are valid. */
module Utf8 {
  import opened HexFields

  predicate IsScalar(cp: int) {
    0 <= cp < 0xD800 || 0xE000 <= cp < 0x110000
  }

  ghost predicate AllScalars(cps: seq<int>) {
    forall i :: 0 <= i < |cps| ==> IsScalar(cps[i])
  }

  function Encode(cp: int): (b: seq<byte>)
    requires IsScalar(cp)
    ensures 1 <= |b| <= 4
  {
    if cp < 128 then [cp]
    else if cp < 2048 then [192 + cp / 64, 128 + cp % 64]
    else if cp < 65536 then [224 + cp / 4096, 128 + cp / 64 % 64, 128 + cp % 64]
    else [240 + cp / 262144, 128 + cp / 4096 % 64, 128 + cp / 64 % 64, 128 + cp % 64]
  }

  function EncodeAll(cps: seq<int>): seq<byte>
    requires AllScalars(cps)
  {
    if cps == [] then [] else Encode(cps[0]) + EncodeAll(cps[1..])
  }

  lemma {:induction false} EncodeAllAppend(a: seq<int>, b: seq<int>)
    requires AllScalars(a) && AllScalars(b)
    ensures AllScalars(a + b) && EncodeAll(a + b) == EncodeAll(a) + EncodeAll(b)
  {
    hide Encode;
    if a == [] {
      assert a + b == b;
    } else {
      EncodeAllAppend(a[1..], b);
      assert (a + b)[0] == a[0] && (a + b)[1..] == a[1..] + b;
    }
  }

  // ---------------------------------------------------------------- reading

  /** A byte of memory; the reads a valid text leads to are all inside it. */
  function Load(s: seq<byte>, a: int): byte {
    if 0 <= a < |s| then s[a] else 0
  }

  predicate Continuation(b: byte) {
    128 <= b < 192
  }

  /** The code point at `a` and how many bytes it has, as the emitted code reads it. */
  function DecodeAt(s: seq<byte>, a: int): (int, nat) {
    var b0 := Load(s, a) as int;
    if b0 < 128 then (b0, 1)
    else if b0 < 224 then ((b0 - 192) * 64 + (Load(s, a + 1) - 128), 2)
    else if b0 < 240 then ((b0 - 224) * 4096 + (Load(s, a + 1) - 128) * 64 + (Load(s, a + 2) - 128), 3)
    else ((b0 - 240) * 262144 + (Load(s, a + 1) - 128) * 4096 + (Load(s, a + 2) - 128) * 64 + (Load(s, a + 3) - 128), 4)
  }

  /** The octets of `cp` stand at `a`. */
  ghost predicate StandsAt(s: seq<byte>, a: nat, cp: int)
    requires IsScalar(cp)
  {
    a + |Encode(cp)| <= |s| && s[a..a + |Encode(cp)|] == Encode(cp)
  }

  lemma Sextets(cp: int)
    requires 0 <= cp < 0x110000
    ensures cp == cp / 64 * 64 + cp % 64
    ensures cp == cp / 4096 * 4096 + cp / 64 % 64 * 64 + cp % 64
    ensures cp == cp / 262144 * 262144 + cp / 4096 % 64 * 4096 + cp / 64 % 64 * 64 + cp % 64
  {
    assert cp / 64 == cp / 4096 * 64 + cp / 64 % 64;
    assert cp / 4096 == cp / 262144 * 64 + cp / 4096 % 64;
  }

  /** The decoder reads back what the encoder wrote, wherever it stands, and stays inside it. */
  lemma DecodesEncoded(s: seq<byte>, a: nat, cp: int)
    requires IsScalar(cp) && StandsAt(s, a, cp)
    ensures DecodeAt(s, a) == (cp, |Encode(cp)|)
    ensures !Continuation(s[a]) && forall i :: a < i < a + |Encode(cp)| ==> Continuation(s[i])
  {
    var e := Encode(cp);
    forall i | 0 <= i < |e|
      ensures s[a + i] == e[i]
    {
      assert s[a..a + |e|][i] == e[i];
    }
    assert forall i :: 0 < i < |e| ==> Continuation(e[i]);
    forall i | a < i < a + |e|
      ensures Continuation(s[i])
    {
      assert s[i] == e[i - a];
    }
    assert Load(s, a) == e[0];
    if 128 <= cp {
      assert Load(s, a + 1) == e[1];
    }
    if 2048 <= cp {
      assert Load(s, a + 2) == e[2];
    }
    if 65536 <= cp {
      assert Load(s, a + 3) == e[3];
    }
    Sextets(cp);
  }

  // ---------------------------------------------------------------- validity

  predicate Tail(b: byte) {
    0x80 <= b <= 0xBF
  }

  /** One UTF8-char of the grammar in section 4 of RFC 3629. */
  predicate IsChar(s: seq<byte>) {
    || (|s| == 1 && s[0] <= 0x7F)
    || (|s| == 2 && 0xC2 <= s[0] <= 0xDF && Tail(s[1]))
    || (|s| == 3 && s[0] == 0xE0 && 0xA0 <= s[1] <= 0xBF && Tail(s[2]))
    || (|s| == 3 && 0xE1 <= s[0] <= 0xEC && Tail(s[1]) && Tail(s[2]))
    || (|s| == 3 && s[0] == 0xED && 0x80 <= s[1] <= 0x9F && Tail(s[2]))
    || (|s| == 3 && 0xEE <= s[0] <= 0xEF && Tail(s[1]) && Tail(s[2]))
    || (|s| == 4 && s[0] == 0xF0 && 0x90 <= s[1] <= 0xBF && Tail(s[2]) && Tail(s[3]))
    || (|s| == 4 && 0xF1 <= s[0] <= 0xF3 && Tail(s[1]) && Tail(s[2]) && Tail(s[3]))
    || (|s| == 4 && s[0] == 0xF4 && 0x80 <= s[1] <= 0x8F && Tail(s[2]) && Tail(s[3]))
  }

  /** The grammar derives exactly the encodings of the scalar values, and the decoder names the
      value of each. */
  lemma CharsAreEncodings(s: seq<byte>)
    ensures IsChar(s) <==> exists cp :: IsScalar(cp) && Encode(cp) == s
    ensures IsChar(s) ==> IsScalar(DecodeAt(s, 0).0) && Encode(DecodeAt(s, 0).0) == s
  {
    if IsChar(s) {
      CharIsEncoded(s);
      var cp := DecodeAt(s, 0).0;
      assert IsScalar(cp) && Encode(cp) == s;
    }
    forall cp | IsScalar(cp) && Encode(cp) == s
      ensures IsChar(s)
    {
      EncodingIsChar(cp);
    }
  }

  lemma EncodingIsChar(cp: int)
    requires IsScalar(cp)
    ensures IsChar(Encode(cp))
  {
    Sextets(cp);
  }

  lemma CharIsEncoded(s: seq<byte>)
    requires IsChar(s)
    ensures IsScalar(DecodeAt(s, 0).0) && Encode(DecodeAt(s, 0).0) == s
  {
    if |s| == 2 {
      TwoOctets(s[0] as int - 192, s[1] as int - 128);
      assert s == [s[0], s[1]];
    } else if |s| == 3 {
      ThreeOctetsAreEncoded(s);
    } else if |s| == 4 {
      FourOctetsAreEncoded(s);
    } else {
      assert s == [s[0]];
    }
  }

  lemma ThreeOctetsAreEncoded(s: seq<byte>)
    requires IsChar(s) && |s| == 3
    ensures IsScalar(DecodeAt(s, 0).0) && Encode(DecodeAt(s, 0).0) == s
  {
    ThreeOctets(s[0] as int - 224, s[1] as int - 128, s[2] as int - 128);
    assert s == [s[0], s[1], s[2]];
  }

  lemma FourOctetsAreEncoded(s: seq<byte>)
    requires IsChar(s) && |s| == 4
    ensures IsScalar(DecodeAt(s, 0).0) && Encode(DecodeAt(s, 0).0) == s
  {
    FourOctets(s[0] as int - 240, s[1] as int - 128, s[2] as int - 128, s[3] as int - 128);
    assert s == [s[0], s[1], s[2], s[3]];
  }

  lemma TwoOctets(a: int, b: int)
    requires 0 <= a && 0 <= b < 64
    ensures (a * 64 + b) / 64 == a && (a * 64 + b) % 64 == b
  {
  }

  lemma ThreeOctets(a: int, b: int, c: int)
    requires 0 <= a && 0 <= b < 64 && 0 <= c < 64
    ensures var cp := a * 4096 + b * 64 + c; cp / 4096 == a && cp / 64 % 64 == b && cp % 64 == c
  {
    TwoOctets(a * 64 + b, c);
    TwoOctets(a, b);
  }

  lemma FourOctets(a: int, b: int, c: int, d: int)
    requires 0 <= a && 0 <= b < 64 && 0 <= c < 64 && 0 <= d < 64
    ensures var cp := a * 262144 + b * 4096 + c * 64 + d;
      cp / 262144 == a && cp / 4096 % 64 == b && cp / 64 % 64 == c && cp % 64 == d
  {
    TwoOctets((a * 64 + b) * 64 + c, d);
    ThreeOctets(a, b, c);
  }

  function Flatten(units: seq<seq<byte>>): seq<byte> {
    if units == [] then [] else units[0] + Flatten(units[1..])
  }

  /** A valid UTF-8 text: UTF8-octets of the grammar. */
  ghost predicate IsUtf8(s: seq<byte>) {
    exists units :: (forall u :: u in units ==> IsChar(u)) && Flatten(units) == s
  }

  /** Valid texts are exactly the encodings of sequences of scalar values. */
  lemma ValidIffEncoded(s: seq<byte>)
    ensures IsUtf8(s) <==> exists cps :: AllScalars(cps) && EncodeAll(cps) == s
  {
    if IsUtf8(s) {
      var units :| (forall u :: u in units ==> IsChar(u)) && Flatten(units) == s;
      var cps := UnitsEncode(units);
    }
    if exists cps :: AllScalars(cps) && EncodeAll(cps) == s {
      var cps :| AllScalars(cps) && EncodeAll(cps) == s;
      var units := EncodingUnits(cps);
    }
  }

  lemma {:induction false} UnitsEncode(units: seq<seq<byte>>) returns (cps: seq<int>)
    requires forall u :: u in units ==> IsChar(u)
    ensures AllScalars(cps) && EncodeAll(cps) == Flatten(units)
  {
    if units == [] {
      cps := [];
    } else {
      CharsAreEncodings(units[0]);
      var rest := UnitsEncode(units[1..]);
      cps := [DecodeAt(units[0], 0).0] + rest;
      assert cps[1..] == rest;
    }
  }

  lemma {:induction false} EncodingUnits(cps: seq<int>) returns (units: seq<seq<byte>>)
    requires AllScalars(cps)
    ensures (forall u :: u in units ==> IsChar(u)) && Flatten(units) == EncodeAll(cps)
  {
    if cps == [] {
      units := [];
    } else {
      EncodingIsChar(cps[0]);
      var rest := EncodingUnits(cps[1..]);
      units := [Encode(cps[0])] + rest;
      assert units[1..] == rest;
    }
  }
}
