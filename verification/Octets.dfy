/** Integers as octets, spelled out: the most significant first, in the widths that the protocol has. */
module Octets {
  import opened Bytes
  import opened Streams

  function Two(n: nat): bytes {
    [n / 256 % 256, n % 256]
  }

  function Four(n: nat): bytes {
    [n / 0x100_0000 % 256, n / 0x1_0000 % 256, n / 0x100 % 256, n % 256]
  }

  function Eight(n: nat): (o: bytes)
    ensures |o| == 8
  {
    Four(n / 0x1_0000_0000) + Four(n)
  }

  lemma OneOctet(n: nat)
    ensures BigEndian(n, 1) == [n % 256]
  {
    assert BigEndian(n / 256, 0) == [];
  }

  lemma TwoOctets(n: nat)
    ensures BigEndian(n, 2) == Two(n)
  {
    assert BigEndian(n / 256 / 256, 0) == [];
    assert BigEndian(n / 256, 1) == [] + [n / 256 % 256];
  }

  lemma FourOctets(n: nat)
    ensures BigEndian(n, 4) == Four(n)
  {
    TwoOctets(n / 256 / 256);
    assert BigEndian(n / 256, 3) == BigEndian(n / 256 / 256, 2) + [n / 256 % 256];
  }

  function Shifted(n: nat, k: nat): nat {
    if k == 0 then n else Shifted(n / 256, k - 1)
  }

  lemma ShiftedByFour(n: nat)
    ensures Shifted(n, 4) == n / 0x1_0000_0000
  {
    var d := n / 256 / 256 / 256 / 256;
    assert Shifted(d, 0) == d && Shifted(n / 256 / 256 / 256, 1) == d && Shifted(n / 256 / 256, 2) == d;
    assert Shifted(n / 256, 3) == d;
  }

  /** The last k octets, and those before. */
  lemma {:induction false} LastOctets(n: nat, w: nat, k: nat)
    ensures BigEndian(n, w + k) == BigEndian(Shifted(n, k), w) + BigEndian(n, k)
  {
    if k > 0 {
      LastOctets(n / 256, w, k - 1);
    }
  }

  lemma EightOctets(n: nat)
    ensures BigEndian(n, 8) == Eight(n)
  {
    hide BigEndian, Four;
    LastOctets(n, 4, 4);
    ShiftedByFour(n);
    FourOctets(n / 0x1_0000_0000);
    FourOctets(n);
  }

  // ---------------------------------------------------------------- reading

  function FromTwo(w: bytes): nat
    requires |w| >= 2
  {
    var a: nat, b: nat := w[0], w[1];
    256 * a + b
  }

  function FromFour(w: bytes): nat
    requires |w| >= 4
  {
    var a: nat, b: nat, c: nat, d: nat := w[0], w[1], w[2], w[3];
    0x100_0000 * a + 0x1_0000 * b + 0x100 * c + d
  }

  function FromEight(w: bytes): nat
    requires |w| >= 8
  {
    0x1_0000_0000 * FromFour(w) + FromFour(w[4..])
  }

  lemma ReadsOne(w: bytes)
    requires |w| >= 1
    ensures Number(w, 1) == Got(w[0], 1)
  {
    assert w[..1] == [w[0]] && [w[0]][..0] == [];
  }

  lemma OneMoreOctet(w: bytes, n: nat)
    requires n < |w|
    ensures FromBigEndian(w[..n + 1]) == 256 * FromBigEndian(w[..n]) + w[n]
  {
    assert w[..n + 1][..n] == w[..n];
  }

  lemma ReadsTwo(w: bytes)
    requires |w| >= 2
    ensures Number(w, 2) == Got(FromTwo(w), 2)
  {
    hide FromBigEndian;
    NoOctets(w);
    OneMoreOctet(w, 0);
    OneMoreOctet(w, 1);
  }

  lemma NoOctets(w: bytes)
    ensures FromBigEndian(w[..0]) == 0
  {
  }

  lemma ReadsFour(w: bytes)
    requires |w| >= 4
    ensures Number(w, 4) == Got(FromFour(w), 4)
  {
    hide FromBigEndian;
    NoOctets(w);
    OneMoreOctet(w, 0);
    OneMoreOctet(w, 1);
    OneMoreOctet(w, 2);
    OneMoreOctet(w, 3);
  }

  lemma ReadsEight(w: bytes)
    requires |w| >= 8
    ensures Number(w, 8) == Got(FromEight(w), 8)
  {
    hide FromBigEndian;
    ReadsFour(w);
    OneMoreOctet(w, 4);
    OneMoreOctet(w, 5);
    OneMoreOctet(w, 6);
    OneMoreOctet(w, 7);
    assert w[4..][0] == w[4] && w[4..][1] == w[5] && w[4..][2] == w[6] && w[4..][3] == w[7];
  }
}
