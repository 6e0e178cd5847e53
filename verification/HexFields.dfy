/** Tables in hexadecimal text: numbers in fixed-width upper-case digits, read back digit by
    digit, and rows laid end to end. */
module HexFields {
  type byte = x: int | 0 <= x < 256

  function HexChar(d: int): byte
    requires 0 <= d < 16
  {
    if d < 10 then 48 + d else 55 + d
  }

  /** `n` in `width` upper-case digits, zero-padded. */
  function Hex(n: nat, width: nat): (h: seq<byte>)
    ensures |h| == width
  {
    if width == 0 then [] else Hex(n / 16, width - 1) + [HexChar(n % 16)]
  }

  function Pow16(n: nat): nat {
    if n == 0 then 1 else 16 * Pow16(n - 1)
  }

  function H1(b: byte): int {
    if b <= 57 then b - 48 else b - 55
  }

  function Read(tbl: seq<byte>, a: nat, width: nat): int
    requires a + width <= |tbl|
  {
    if width == 0 then 0 else 16 * Read(tbl, a, width - 1) + H1(tbl[a + width - 1])
  }

  function Rd6(tbl: seq<byte>, a: nat): int
    requires a + 6 <= |tbl|
  {
    Read(tbl, a, 6)
  }

  lemma {:induction false} ReadsHex(tbl: seq<byte>, a: nat, n: nat, width: nat)
    requires a + width <= |tbl| && tbl[a..a + width] == Hex(n, width)
    requires n < Pow16(width)
    ensures Read(tbl, a, width) == n
  {
    if width > 0 {
      var h := Hex(n, width);
      assert h[..width - 1] == Hex(n / 16, width - 1);
      assert tbl[a..a + width - 1] == tbl[a..a + width][..width - 1];
      assert tbl[a + width - 1] == tbl[a..a + width][width - 1];
      ReadsHex(tbl, a, n / 16, width - 1);
    }
  }

  /** Six digits are read back as the number they were written from. */
  lemma Rd6ReadsHex(tbl: seq<byte>, a: nat, n: nat)
    requires a + 6 <= |tbl| && tbl[a..a + 6] == Hex(n, 6) && n < 0x1000000
    ensures Rd6(tbl, a) == n
  {
    assert Pow16(6) == 0x1000000;
    ReadsHex(tbl, a, n, 6);
  }

  /** `Rd6` is the sum the emitted code writes out. */
  lemma Rd6IsSum(tbl: seq<byte>, a: nat)
    requires a + 6 <= |tbl|
    ensures Rd6(tbl, a) == H1(tbl[a]) * 1048576 + H1(tbl[a + 1]) * 65536 + H1(tbl[a + 2]) * 4096
      + H1(tbl[a + 3]) * 256 + H1(tbl[a + 4]) * 16 + H1(tbl[a + 5])
  {
    var r1, r2, r3, r4, r5, r6 := Read(tbl, a, 1), Read(tbl, a, 2), Read(tbl, a, 3), Read(tbl, a, 4), Read(tbl, a, 5), Read(tbl, a, 6);
    assert Read(tbl, a, 0) == 0;
    assert r1 == H1(tbl[a]);
    assert r2 == 16 * r1 + H1(tbl[a + 1]);
    assert r3 == 16 * r2 + H1(tbl[a + 2]);
    assert r4 == 16 * r3 + H1(tbl[a + 3]);
    assert r5 == 16 * r4 + H1(tbl[a + 4]);
    assert r6 == 16 * r5 + H1(tbl[a + 5]);
  }

  function Concat(rows: seq<seq<byte>>): seq<byte> {
    if rows == [] then [] else Concat(rows[..|rows| - 1]) + rows[|rows| - 1]
  }

  /** Where the `i`-th row starts, it stands. */
  lemma {:induction false} ConcatAt(rows: seq<seq<byte>>, i: nat)
    requires i < |rows|
    ensures var a := |Concat(rows[..i])|;
      a + |rows[i]| <= |Concat(rows)| && Concat(rows)[a..a + |rows[i]|] == rows[i]
  {
    var n := |rows| - 1;
    if i < n {
      ConcatAt(rows[..n], i);
      assert rows[..n][..i] == rows[..i];
      var a, front := |Concat(rows[..i])|, Concat(rows[..n]);
      assert Concat(rows)[a..a + |rows[i]|] == front[a..a + |rows[i]|];
    }
  }

  lemma {:induction false} ConcatLength(rows: seq<seq<byte>>, width: nat)
    requires forall r :: r in rows ==> |r| == width
    ensures |Concat(rows)| == width * |rows|
  {
    if rows != [] {
      var n := |rows| - 1;
      ConcatLength(rows[..n], width);
      assert rows[n] in rows;
      OneMoreTimes(width, n);
    }
  }

  lemma OneMoreTimes(width: nat, n: nat)
    ensures width * (n + 1) == width * n + width
  {
  }

  lemma SubSlice(s: seq<byte>, a: nat, n: nat, i: nat, j: nat)
    requires a + n <= |s| && i <= j <= n
    ensures s[a..a + n][i..j] == s[a + i..a + j]
  {
    var x, y := s[a..a + n][i..j], s[a + i..a + j];
    forall k | 0 <= k < j - i
      ensures x[k] == y[k]
    {
      assert x[k] == s[a..a + n][i + k] == s[a + i + k];
    }
  }
}
