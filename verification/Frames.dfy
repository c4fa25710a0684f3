/** The four frame types on the wire, and the stream of frames that a parse loop makes of any octets. */
module Frames {
  import opened Bytes
  import opened Streams
  import opened FieldValues
  import opened Methods
  import opened Headers
  import opened HeaderRoundTrip

  const FRAME_METHOD: byte := 1
  const FRAME_HEADER: byte := 2
  const FRAME_BODY: byte := 3
  const FRAME_HEARTBEAT: byte := 8
  const FRAME_END: byte := 206

  datatype Frame<T> =
    | MethodFrame(channel: uint16, command: Method<T>)
    | HeaderFrame(channel: uint16, header: Header<T>)
    | BodyFrame(channel: uint16, body: bytes)
    | HeartbeatFrame(channel: uint16)

  // ---------------------------------------------------------------- writing

  function Framed(typ: byte, channel: uint16, payload: bytes): bytes {
    [typ] + BigEndian(channel, 2) + BigEndian(|payload|, 4) + payload + [FRAME_END]
  }

  predicate ValidFrame(f: Frame<Entries>) {
    match f
    case MethodFrame(_, m) => WellTyped(m) && ValidArgs(m.args)
    case HeaderFrame(_, h) => ValidProperties(h.properties)
    case _ => true
  }

  function FrameType<T>(f: Frame<T>): byte {
    match f
    case MethodFrame(_, _) => FRAME_METHOD
    case HeaderFrame(_, _) => FRAME_HEADER
    case BodyFrame(_, _) => FRAME_BODY
    case HeartbeatFrame(_) => FRAME_HEARTBEAT
  }

  function Payload(f: Frame<Entries>): bytes
    requires ValidFrame(f)
  {
    match f
    case MethodFrame(_, m) => MethodBytes(m)
    case HeaderFrame(_, h) => HeaderBytes(h)
    case BodyFrame(_, b) => b
    case HeartbeatFrame(_) => []
  }

  function FrameBytes(f: Frame<Entries>): bytes
    requires ValidFrame(f)
  {
    Framed(FrameType(f), f.channel, Payload(f))
  }

  predicate ValidFrames(fs: seq<Frame<Entries>>) {
    forall i | 0 <= i < |fs| :: ValidFrame(fs[i])
  }

  function FramesBytes(fs: seq<Frame<Entries>>): bytes
    requires ValidFrames(fs)
  {
    if fs == [] then [] else FrameBytes(fs[0]) + FramesBytes(fs[1..])
  }

  // ---------------------------------------------------------------- reading

  /** The size field bounds a body and forbids a heartbeat payload; the other payloads ignore it. */
  function ReadPayload(typ: byte, channel: uint16, size: nat, w: bytes): (r: Read<Frame<Table>>)
    ensures r.used <= |w|
  {
    if typ == FRAME_METHOD then
      match ReadMethod(w)
      case Failed(e, u) => Failed(e, u)
      case Got(m, u) => Got(MethodFrame(channel, m), u)
    else if typ == FRAME_HEADER then
      match ReadHeader(w)
      case Failed(e, u) => Failed(e, u)
      case Got(h, u) => Got(HeaderFrame(channel, h), u)
    else if typ == FRAME_BODY then
      match Full(w, size)
      case Failed(e, u) => Failed(e, u)
      case Got(b, u) => Got(BodyFrame(channel, b), u)
    else if typ == FRAME_HEARTBEAT then
      if size > 0 then Failed(HeartbeatPayload, 0) else Got(HeartbeatFrame(channel), 0)
    else Failed(FrameError, 0)
  }

  function ReadEnd(f: Frame<Table>, w: bytes): (r: Read<Frame<Table>>)
    ensures r.used <= |w|
    ensures r.Got? ==> r.used == 1
  {
    match Number(w, 1)
    case Failed(e, u) => Failed(e, u)
    case Got(n, u) => if n == FRAME_END then Got(f, u) else Failed(FrameError, u)
  }

  function ReadFrame(w: bytes): (r: Read<Frame<Table>>)
    ensures r.used <= |w|
    ensures r.Got? ==> r.used >= 8
    ensures r.Failed? && r.error != EndOfFile ==> r.used >= 1
  {
    match Full(w, 7)
    case Failed(e, u) => Failed(e, u)
    case Got(scratch, u) =>
      Widths();
      var channel := FromBigEndian(scratch[1..3]);
      var size := FromBigEndian(scratch[3..7]);
      match ReadPayload(scratch[0], channel, size, w[u..])
      case Failed(e, u') => Failed(e, u + u')
      case Got(f, u') => ReadEnd(f, w[u + u'..]).After(u + u')
  }

  /** The frames that reach the demultiplexer, and whether the loop ended in a panic. */
  datatype Scan = Scan(frames: seq<Frame<Table>>, panicked: bool)

  /** The loop of Parse: an end of file returns, any other error is passed over. */
  function Scanned(w: bytes): (s: Scan)
    decreases |w|
  {
    match ReadFrame(w)
    case Failed(e, u) =>
      if e == EndOfFile then Scan([], false)
      else if e == NegativeLength then Scan([], true)
      else Scanned(w[u..])
    case Got(f, u) =>
      var rest := Scanned(w[u..]);
      Scan([f] + rest.frames, rest.panicked)
  }

  // ---------------------------------------------------------------- round trip

  function FrameReadBack(f: Frame<Entries>): Frame<Table> {
    match f
    case MethodFrame(c, m) => MethodFrame(c, MethodReadBack(m))
    case HeaderFrame(c, h) => HeaderFrame(c, Header(h.classId, h.weight, h.size, ReadBack(h.properties)))
    case BodyFrame(c, b) => BodyFrame(c, b)
    case HeartbeatFrame(c) => HeartbeatFrame(c)
  }

  function FramesReadBack(fs: seq<Frame<Entries>>): (rs: seq<Frame<Table>>)
    ensures |rs| == |fs|
  {
    seq(|fs|, i requires 0 <= i < |fs| => FrameReadBack(fs[i]))
  }

  predicate FrameFits(f: Frame<Entries>)
    ensures FrameFits(f) ==> ValidFrame(f)
  {
    match f
    case MethodFrame(_, m) => MethodFits(m)
    case HeaderFrame(_, h) => PropertiesFit(h.properties)
    case BodyFrame(_, b) => |b| < 0x1_0000_0000
    case HeartbeatFrame(_) => true
  }

  predicate FramesFit(fs: seq<Frame<Entries>>)
    ensures FramesFit(fs) ==> ValidFrames(fs)
  {
    forall i | 0 <= i < |fs| :: FrameFits(fs[i])
  }

  lemma PayloadRoundTrips(f: Frame<Entries>, size: nat, suffix: bytes)
    requires FrameFits(f) && (f.BodyFrame? || f.HeartbeatFrame? ==> size == |Payload(f)|)
    ensures ReadPayload(FrameType(f), f.channel, size, Payload(f) + suffix)
      == Got(FrameReadBack(f), |Payload(f)|)
  {
    hide ReadMethod, ReadHeader, MethodBytes, HeaderBytes;
    match f
    case MethodFrame(_, m) => MethodRoundTrips(m, suffix);
    case HeaderFrame(_, h) => HeaderRoundTrips(h, suffix);
    case BodyFrame(_, b) => FullOnPrefix(b, suffix);
    case HeartbeatFrame(_) =>
  }

  /** How the seven octets in front of a payload are read. */
  lemma PreambleReads(typ: byte, channel: uint16, payload: bytes, suffix: bytes)
    ensures var w := Framed(typ, channel, payload) + suffix;
      && Full(w, 7) == Got(w[..7], 7) && w[0] == typ
      && FromBigEndian(w[..7][1..3]) == channel
      && FromBigEndian(w[..7][3..7]) == |payload| % 0x1_0000_0000
      && w[7..] == payload + ([FRAME_END] + suffix)
      && w[7 + |payload|..] == [FRAME_END] + suffix
  {
    var w := Framed(typ, channel, payload) + suffix;
    var front := [typ] + BigEndian(channel, 2) + BigEndian(|payload|, 4);
    assert w == front + (payload + ([FRAME_END] + suffix));
    FullOnPrefix(front, payload + ([FRAME_END] + suffix));
    assert w[..7] == front;
    assert front[1..3] == BigEndian(channel, 2) && front[3..7] == BigEndian(|payload|, 4);
    BigEndianInverts(channel, 2);
    BigEndianInverts(|payload|, 4);
    Widths();
  }

  lemma EndReads(f: Frame<Table>, suffix: bytes)
    ensures ReadEnd(f, [FRAME_END] + suffix) == Got(f, 1)
  {
    FullOnPrefix([FRAME_END], suffix);
    assert FromBigEndian([FRAME_END]) == FRAME_END;
  }

  /** ReadFrame inverts frame.write and leaves exactly what follows the frame. */
  lemma FrameRoundTrips(f: Frame<Entries>, suffix: bytes)
    requires FrameFits(f)
    ensures ReadFrame(FrameBytes(f) + suffix) == Got(FrameReadBack(f), |FrameBytes(f)|)
  {
    hide ReadPayload, ReadEnd, Framed, Full;
    var payload := Payload(f);
    PreambleReads(FrameType(f), f.channel, payload, suffix);
    PayloadRoundTrips(f, |payload| % 0x1_0000_0000, [FRAME_END] + suffix);
    EndReads(FrameReadBack(f), suffix);
    FramedLength(FrameType(f), f.channel, payload);
  }

  lemma FramedLength(typ: byte, channel: uint16, payload: bytes)
    ensures |Framed(typ, channel, payload)| == 8 + |payload|
  {
  }

  /** A body frame reads back exactly when its size fits the size field. */
  lemma BodyRoundTripsExactlyWhenItFits(channel: uint16, body: bytes, suffix: bytes)
    ensures ReadFrame(FrameBytes(BodyFrame(channel, body)) + suffix)
      == Got(BodyFrame(channel, body), |FrameBytes(BodyFrame(channel, body))|)
      <==> |body| < 0x1_0000_0000
  {
    if |body| < 0x1_0000_0000 {
      FrameRoundTrips(BodyFrame(channel, body), suffix);
    } else {
      PreambleReads(FRAME_BODY, channel, body, suffix);
    }
  }

  /** A stream of frames is read as exactly those frames, and reading goes on after them. */
  lemma {:induction false} StreamRoundTrips(fs: seq<Frame<Entries>>, suffix: bytes)
    requires FramesFit(fs)
    ensures Scanned(FramesBytes(fs) + suffix)
      == Scan(FramesReadBack(fs) + Scanned(suffix).frames, Scanned(suffix).panicked)
  {
    hide ReadFrame, FrameBytes, FrameReadBack, FrameFits, ValidFrame;
    if fs == [] {
      assert FramesBytes(fs) + suffix == suffix;
      assert FramesReadBack(fs) + Scanned(suffix).frames == Scanned(suffix).frames;
    } else {
      var first, rest := FrameBytes(fs[0]), FramesBytes(fs[1..]) + suffix;
      assert FramesBytes(fs) + suffix == first + rest;
      assert (first + rest)[|first|..] == rest;
      FrameRoundTrips(fs[0], rest);
      StreamRoundTrips(fs[1..], suffix);
      assert FramesReadBack(fs) == [FrameReadBack(fs[0])] + FramesReadBack(fs[1..]);
    }
  }

  /** Distinct lists of frames are written apart, but for what reading back cannot tell apart. */
  lemma StreamsAreUnambiguous(fs: seq<Frame<Entries>>, gs: seq<Frame<Entries>>)
    requires FramesFit(fs) && FramesFit(gs)
    requires FramesBytes(fs) == FramesBytes(gs)
    ensures FramesReadBack(fs) == FramesReadBack(gs)
  {
    StreamRoundTrips(fs, []);
    StreamRoundTrips(gs, []);
    assert Scanned([]).frames == [];
    assert FramesReadBack(fs) + [] == FramesReadBack(fs) && FramesReadBack(gs) + [] == FramesReadBack(gs);
    assert FramesBytes(fs) + [] == FramesBytes(gs) + [];
  }

  /** Every frame costs at least eight octets. */
  lemma {:induction false} FramesAreBounded(w: bytes)
    ensures 8 * |Scanned(w).frames| <= |w|
    decreases |w|
  {
    match ReadFrame(w)
    case Failed(e, u) =>
      if e != EndOfFile && e != NegativeLength {
        FramesAreBounded(w[u..]);
      }
    case Got(f, u) => FramesAreBounded(w[u..]);
  }
}
