/** Octets, and the fixed-width big-endian integers that encoding/binary reads and writes. */
module Bytes {
  type byte = b: int | 0 <= b < 256
  type bytes = seq<byte>

  type uint16 = n: int | 0 <= n < 0x1_0000
  type uint32 = n: int | 0 <= n < 0x1_0000_0000
  type uint64 = n: int | 0 <= n < 0x1_0000_0000_0000_0000
  type int16 = n: int | -0x8000 <= n < 0x8000
  type int32 = n: int | -0x8000_0000 <= n < 0x8000_0000
  type int64 = n: int | -0x8000_0000_0000_0000 <= n < 0x8000_0000_0000_0000

  /** The number of values that fit in w octets. */
  function Pow256(w: nat): (p: nat)
    ensures p >= 1
  {
    if w == 0 then 1 else 256 * Pow256(w - 1)
  }

  /** The low w octets of n, most significant first; higher octets are dropped, as a Go conversion does. */
  function BigEndian(n: nat, w: nat): (bs: bytes)
    ensures |bs| == w
    decreases n, w
  {
    if w == 0 then [] else BigEndian(n / 256, w - 1) + [n % 256]
  }

  function FromBigEndian(bs: bytes): (n: nat)
    ensures n < Pow256(|bs|)
  {
    if bs == [] then 0 else 256 * FromBigEndian(bs[..|bs| - 1]) + bs[|bs| - 1]
  }

  /** Two's complement in w octets. */
  function Unsigned(i: int, w: nat): (n: nat)
    ensures n < Pow256(w)
  {
    i % Pow256(w)
  }

  function Signed(n: nat, w: nat): int {
    if 2 * n < Pow256(w) then n else n - Pow256(w)
  }

  lemma Widths()
    ensures Pow256(1) == 0x100
    ensures Pow256(2) == 0x1_0000
    ensures Pow256(4) == 0x1_0000_0000
    ensures Pow256(8) == 0x1_0000_0000_0000_0000
  {
    assert Pow256(3) == 256 * Pow256(2);
    assert Pow256(6) == 256 * Pow256(5) && Pow256(5) == 256 * Pow256(4);
  }

  lemma MultipleIsFar(d: int, m: int)
    requires m > 0 && d != 0
    ensures d * m >= m || d * m <= -m
  {
    if d > 0 {
      assert (d - 1) * m >= 0;
    } else {
      assert (-d - 1) * m >= 0;
    }
  }

  lemma DivisionIsUnique(a: int, q: int, m: int, c: int)
    requires m > 0 && 0 <= c < m && a == q * m + c
    ensures a % m == c && a / m == q
  {
    var d := a / m - q;
    assert d * m == c - a % m by {
      assert a == (a / m) * m + a % m;
      assert d * m == (a / m) * m - q * m;
    }
    if d != 0 {
      MultipleIsFar(d, m);
    }
  }

  /** Reading back a written integer yields it modulo the width. */
  lemma {:induction false} BigEndianInverts(n: nat, w: nat)
    ensures FromBigEndian(BigEndian(n, w)) == n % Pow256(w)
  {
    if w > 0 {
      var hi, p := n / 256, Pow256(w - 1);
      BigEndianInverts(hi, w - 1);
      assert BigEndian(n, w)[..w - 1] == BigEndian(hi, w - 1);
      RemainderOfDigits(n, p);
    }
  }

  lemma RemainderOfDigits(n: nat, p: nat)
    requires p > 0
    ensures n % (256 * p) == 256 * ((n / 256) % p) + n % 256
  {
    var hi := n / 256;
    var q, r := hi / p, hi % p;
    assert hi == q * p + r;
    assert n == 256 * (q * p) + 256 * r + n % 256;
    assert 256 * (q * p) == q * (256 * p);
    DivisionIsUnique(n, q, 256 * p, 256 * r + n % 256);
  }

  lemma SmallRemainder(n: nat, w: nat)
    requires n < Pow256(w)
    ensures n % Pow256(w) == n
  {
    DivisionIsUnique(n, 0, Pow256(w), n);
  }

  lemma SignedInverts(i: int, w: nat)
    requires 0 <= 2 * i + Pow256(w) && 2 * i < Pow256(w)
    ensures Signed(Unsigned(i, w), w) == i
  {
    if i >= 0 {
      DivisionIsUnique(i, 0, Pow256(w), i);
    } else {
      DivisionIsUnique(i, -1, Pow256(w), i + Pow256(w));
    }
  }
}
