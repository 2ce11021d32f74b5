/** Little-endian integers and 32-bit words as byte sequences.  A 32-bit float is represented by its bit
    pattern, a word. */
module Bytes {
  type byte = x: int | 0 <= x < 256
  type word = x: int | 0 <= x < 0x1_0000_0000
  type u64 = x: int | 0 <= x < 0x1_0000_0000_0000_0000

  function Pow256(w: nat): (p: nat)
    ensures p > 0
  {
    if w == 0 then 1 else 256 * Pow256(w - 1)
  }

  lemma Widths()
    ensures Pow256(4) == 0x1_0000_0000
    ensures Pow256(8) == 0x1_0000_0000_0000_0000
  {
    assert Pow256(1) == 256;
    assert Pow256(2) == 256 * 256;
    assert Pow256(4) == 256 * Pow256(3);
    assert Pow256(6) == 256 * Pow256(5);
    assert Pow256(8) == 256 * Pow256(7);
  }

  /** `to_le_bytes` of the low `w` bytes of n. */
  function LE(n: nat, w: nat): (b: seq<byte>)
    ensures |b| == w
  {
    if w == 0 then [] else [n % 256] + LE(n / 256, w - 1)
  }

  lemma DivideTwice(n: nat, p: nat)
    requires p > 0
    ensures (n / 256) / p == n / (256 * p)
  {
    var q, m := n / 256 / p, n / 256;
    var r := n - 256 * p * q;
    assert n == 256 * m + n % 256 && m == p * q + m % p;
    assert r == 256 * (m % p) + n % 256;
    QuotientIs(n, 256 * p, q, r);
  }

  lemma QuotientIs(n: nat, d: nat, q: nat, r: nat)
    requires d > 0 && n == d * q + r && r < d
    ensures n / d == q
  {
    var k := n / d;
    assert n == d * k + n % d;
    Scales(d, k, q);
    Scales(d, q, k);
  }

  lemma {:induction false} Scales(d: nat, a: nat, b: nat)
    ensures a < b ==> d * a + d <= d * b
    decreases b
  {
    if a < b {
      assert d * b == d * (b - 1) + d;
      if a < b - 1 { Scales(d, a, b - 1); }
    }
  }

  /** Byte i is digit i to the base 256, the least significant first. */
  lemma {:induction false} DigitAt(n: nat, w: nat, i: nat)
    requires i < w
    ensures LE(n, w)[i] == n / Pow256(i) % 256
    decreases w
  {
    if i == 0 {
    } else {
      DigitAt(n / 256, w - 1, i - 1);
      DivideTwice(n, Pow256(i - 1));
    }
  }

  function FromLE(b: seq<byte>): nat {
    if b == [] then 0 else b[0] + 256 * FromLE(b[1..])
  }

  lemma {:induction false} FromLEBound(b: seq<byte>)
    ensures FromLE(b) < Pow256(|b|)
  {
    if b == [] {
    } else {
      FromLEBound(b[1..]);
    }
  }

  /** Reading back what was written gives the number, unless it did not fit. */
  lemma {:induction false} ReadsBack(n: nat, w: nat)
    requires n < Pow256(w)
    ensures FromLE(LE(n, w)) == n
  {
    if w == 0 {
    } else {
      assert n / 256 < Pow256(w - 1);
      ReadsBack(n / 256, w - 1);
      assert LE(n, w)[1..] == LE(n / 256, w - 1);
    }
  }

  function EncodeWords(ws: seq<word>): (b: seq<byte>)
    ensures |b| == 4 * |ws|
  {
    if ws == [] then [] else LE(ws[0], 4) + EncodeWords(ws[1..])
  }

  function DecodeWords(b: seq<byte>): (ws: seq<word>)
    requires |b| % 4 == 0
    ensures 4 * |ws| == |b|
  {
    if b == [] then []
    else
      FromLEBound(b[..4]);
      Widths();
      [FromLE(b[..4])] + DecodeWords(b[4..])
  }

  lemma {:induction false} WordsReadBack(ws: seq<word>)
    ensures DecodeWords(EncodeWords(ws)) == ws
  {
    if ws == [] {
    } else {
      WordsReadBack(ws[1..]);
      Widths();
      ReadsBack(ws[0], 4);
      assert EncodeWords(ws)[..4] == LE(ws[0], 4);
      assert EncodeWords(ws)[4..] == EncodeWords(ws[1..]);
    }
  }
}
