/** What io.ReadFull and binary.Read do to the octets a reader can still deliver. */
module Streams {
  import opened Bytes

  /** The errors a caller can tell apart, and the run-time panic of make with a negative length. */
  datatype Error =
    | EndOfFile
    | UnexpectedEndOfFile
    | SyntaxError
    | FrameError
    | UnknownMethod
    | HeartbeatPayload
    | NegativeLength

  /** The outcome of one read: what it gave, and how many octets it took, which matters after an error too. */
  datatype Read<+T> = Got(value: T, used: nat) | Failed(error: Error, used: nat) {
    /** The same outcome, seen from n octets earlier. */
    function After(n: nat): Read<T> {
      match this
      case Got(v, u) => Got(v, n + u)
      case Failed(e, u) => Failed(e, n + u)
    }
  }

  function Full(w: bytes, n: nat): (r: Read<bytes>)
    ensures r.used <= |w|
  {
    if n == 0 then Got([], 0)
    else if w == [] then Failed(EndOfFile, 0)
    else if |w| < n then Failed(UnexpectedEndOfFile, |w|)
    else Got(w[..n], n)
  }

  function Number(w: bytes, width: nat): (r: Read<nat>)
    ensures r.used <= |w|
    ensures r.Got? ==> r.used == width && r.value < Pow256(width)
  {
    match Full(w, width)
    case Failed(e, u) => Failed(e, u)
    case Got(bs, u) => Got(FromBigEndian(bs), u)
  }

  lemma FullOnPrefix(a: bytes, suffix: bytes)
    ensures Full(a + suffix, |a|) == Got(a, |a|)
  {
    assert (a + suffix)[..|a|] == a;
  }

  lemma NumberOnPrefix(n: nat, width: nat, suffix: bytes)
    requires n < Pow256(width)
    ensures Number(BigEndian(n, width) + suffix, width) == Got(n, width)
  {
    FullOnPrefix(BigEndian(n, width), suffix);
    BigEndianInverts(n, width);
    SmallRemainder(n, width);
  }
}
