/** Frames and content headers as octets, spelled out: types, channel, size, frame end, and each property. */
module FrameFormat {
  import opened Bytes
  import opened Streams
  import opened Octets
  import opened FieldValues
  import opened FieldCodec
  import opened FieldFormat
  import opened Methods
  import opened Headers
  import opened Frames

  /** The first octet of a frame. */
  function TypeOctet<T>(f: Frame<T>): byte {
    match f
    case MethodFrame(_, _) => 1
    case HeaderFrame(_, _) => 2
    case BodyFrame(_, _) => 3
    case HeartbeatFrame(_) => 8
  }

  // ---------------------------------------------------------------- writing

  lemma FramesAreWritten(f: Frame<Entries>)
    requires ValidFrame(f)
    ensures FrameBytes(f) == [TypeOctet(f)] + Two(f.channel) + Four(|Payload(f)|) + Payload(f) + [206]
    ensures FrameBytes(f)[0] == TypeOctet(f) && FrameBytes(f)[|FrameBytes(f)| - 1] == 206
  {
    hide BigEndian, Payload, Two, Four;
    TwoOctets(f.channel);
    FourOctets(|Payload(f)|);
  }

  lemma BodiesAreWritten(c: uint16, b: bytes)
    ensures FrameBytes(BodyFrame(c, b)) == [3] + Two(c) + Four(|b|) + b + [206]
    ensures FrameBytes(HeartbeatFrame(c)) == [8] + Two(c) + [0, 0, 0, 0] + [206]
  {
    FramesAreWritten(BodyFrame(c, b));
    FramesAreWritten(HeartbeatFrame(c));
    assert Payload(HeartbeatFrame(c)) == [] && Four(0) == [0, 0, 0, 0];
  }

  // ---------------------------------------------------------------- reading

  /** What stands in front of a payload. */
  lemma PreambleIs(w: bytes)
    requires |w| >= 7
    ensures Full(w, 7) == Got(w[..7], 7) && w[..7][0] == w[0]
    ensures FromBigEndian(w[..7][1..3]) == FromTwo(w[1..])
    ensures FromBigEndian(w[..7][3..7]) == FromFour(w[3..])
  {
    hide FromBigEndian, FromTwo, FromFour;
    ReadsTwo(w[1..]);
    ReadsFour(w[3..]);
    assert w[1..][..2] == w[..7][1..3] && w[3..][..4] == w[..7][3..7];
  }

  /** Whatever octets a frame is read from: its type, its channel and the frame end stand in their places. */
  lemma FramesAreRead(w: bytes)
    requires ReadFrame(w).Got?
    ensures var f, u := ReadFrame(w).value, ReadFrame(w).used;
      && 8 <= u <= |w|
      && w[0] == TypeOctet(f) && FromTwo(w[1..]) == f.channel && w[u - 1] == 206
  {
    hide ReadMethod, ReadHeader, FromTwo, FromFour, Number, Full;
    assert |w| >= 7 by { NeedsSeven(w); }
    PreambleIs(w);
    var p := ReadPayload(w[0], FromBigEndian(w[..7][1..3]), FromBigEndian(w[..7][3..7]), w[7..]);
    EndIs(p.value, w[7 + p.used..]);
  }

  lemma NeedsSeven(w: bytes)
    requires ReadFrame(w).Got?
    ensures |w| >= 7
  {
    hide ReadPayload, ReadEnd;
  }

  /** The octet 206 ends a frame, and no other does. */
  lemma EndIs(f: Frame<Table>, w: bytes)
    ensures ReadEnd(f, w) ==
      if w == [] then Failed(EndOfFile, 0) else if w[0] == 206 then Got(f, 1) else Failed(FrameError, 1)
  {
    if w != [] {
      ReadsOne(w);
    }
  }

  /** Exactly: what eight octets and a body are read as. */
  lemma BodiesAreRead(w: bytes)
    requires |w| >= 7 && w[0] == 3 && 8 + FromFour(w[3..]) <= |w|
    ensures var n := FromFour(w[3..]);
      ReadFrame(w) == if w[7 + n] == 206 then Got(BodyFrame(FromTwo(w[1..]), w[7..7 + n]), 8 + n)
        else Failed(FrameError, 8 + n)
  {
    hide ReadEnd, FromTwo, FromFour, FromBigEndian, Full;
    PreambleIs(w);
    var n := FromFour(w[3..]);
    FullAt(w, 7, n);
    EndIs(BodyFrame(FromTwo(w[1..]), w[7..7 + n]), w[7 + n..]);
  }

  lemma HeartbeatsAreRead(w: bytes)
    requires |w| >= 8 && w[0] == 8
    ensures ReadFrame(w) ==
      if FromFour(w[3..]) > 0 then Failed(HeartbeatPayload, 7)
      else if w[7] == 206 then Got(HeartbeatFrame(FromTwo(w[1..])), 8) else Failed(FrameError, 8)
  {
    hide ReadEnd, FromTwo, FromFour, FromBigEndian, Full;
    PreambleIs(w);
    EndIs(HeartbeatFrame(FromTwo(w[1..])), w[7..]);
  }

  /** A method payload is a method and nothing else: class, method, arguments; likewise a content header. */
  lemma PayloadsAreRead(w: bytes)
    requires |w| >= 7
    ensures w[0] == 1 ==>
      var m := ReadMethod(w[7..]);
      ReadFrame(w) == if m.Failed? then Failed(m.error, 7 + m.used)
        else ReadEnd(MethodFrame(FromTwo(w[1..]), m.value), w[7 + m.used..]).After(7 + m.used)
    ensures w[0] == 2 ==>
      var h := ReadHeader(w[7..]);
      ReadFrame(w) == if h.Failed? then Failed(h.error, 7 + h.used)
        else ReadEnd(HeaderFrame(FromTwo(w[1..]), h.value), w[7 + h.used..]).After(7 + h.used)
    ensures w[0] !in {1, 2, 3, 8} ==> ReadFrame(w) == Failed(FrameError, 7)
  {
    hide ReadEnd, ReadMethod, ReadHeader, FromTwo, FromFour, FromBigEndian, Full;
    PreambleIs(w);
  }

  // ---------------------------------------------------------------- content headers

  function Joined(parts: seq<bytes>): bytes {
    if parts == [] then [] else parts[0] + Joined(parts[1..])
  }

  function TextIf(s: bytes): bytes {
    if s == [] then [] else [|s| % 256] + s[..|s| % 256]
  }

  function OctetIf(o: byte): bytes {
    if o == 0 then [] else [o]
  }

  function TableIf(t: Option<Entries>): bytes
    requires t.Some? ==> ValidEntries(t.value)
  {
    if t.None? || t.value == [] then [] else TableBytes(t.value)
  }

  function TimeIf(t: Option<Instant>): bytes {
    if t.None? then []
    else Eight(if t.value.seconds >= 0 then t.value.seconds else t.value.seconds + 0x1_0000_0000_0000_0000)
  }

  /** The properties in their order, each of them if it is not blank. */
  function PropertyParts(p: Properties<Entries>): (parts: seq<bytes>)
    requires ValidProperties(p)
    ensures |parts| == 14
  {
    [TextIf(p.contentType), TextIf(p.contentEncoding), TableIf(p.headers), OctetIf(p.deliveryMode),
     OctetIf(p.priority), TextIf(p.correlationId), TextIf(p.replyTo), TextIf(p.expiration), TextIf(p.messageId),
     TimeIf(p.timestamp), TextIf(p.type_), TextIf(p.userId), TextIf(p.appId), []]
  }

  lemma SlotIsPart(p: Properties<Entries>, i: nat)
    requires ValidProperties(p) && i < 14
    ensures Present(p, i) ==> !Blank(Get(p, i)) && (Get(p, i).TableSlot? ==> ValidEntries(Get(p,
      i).table.value))
    ensures (if Present(p, i) then SlotBytes(Get(p, i)) else []) == PropertyParts(p)[i]
  {
    hide BigEndian, TableBytes, Unsigned, Two, Four, Eight;
    if i == 9 && p.timestamp.Some? {
      Widths();
      UnsignedIs(p.timestamp.value.seconds, 8, 0x1_0000_0000_0000_0000);
      EightOctets(Unsigned(p.timestamp.value.seconds, 8));
    } else if Get(p, i).TextSlot? {
      OneOctet(|Get(p, i).text|);
    }
  }

  lemma {:induction false} PropertiesAreJoined(p: Properties<Entries>, i: nat)
    requires ValidProperties(p) && i <= 14
    ensures PropertyBytes(p, i) == Joined(PropertyParts(p)[i..])
    decreases 14 - i
  {
    hide SlotBytes, Present, Get, PropertyParts;
    if i < 14 {
      SlotIsPart(p, i);
      PropertiesAreJoined(p, i + 1);
      assert PropertyParts(p)[i..][1..] == PropertyParts(p)[i + 1..];
    }
  }

  /** Class, weight, body size, flags, and the properties. */
  lemma HeadersAreWritten(h: Header<Entries>)
    requires ValidProperties(h.properties)
    ensures HeaderBytes(h) == Two(h.classId) + Two(h.weight) + Eight(h.size) + Two(Mask(h.properties))
      + Joined(PropertyParts(h.properties))
  {
    hide BigEndian, PropertyBytes, Mask, PropertyParts, Two, Eight;
    TwoOctets(h.classId);
    TwoOctets(h.weight);
    EightOctets(h.size);
    TwoOctets(Mask(h.properties));
    PropertiesAreJoined(h.properties, 0);
    assert PropertyParts(h.properties)[0..] == PropertyParts(h.properties);
  }

  /** The numbers in front of the properties, as they are read from any octets. */
  lemma HeadersAreRead(w: bytes)
    requires ReadHeader(w).Got?
    ensures var h := ReadHeader(w).value;
      && |w| >= 14
      && h.classId == FromTwo(w) && h.weight == FromTwo(w[2..]) && h.size == FromEight(w[4..])
      && ReadProperties(FromTwo(w[12..]), 0, w[14..], NoProperties()).Got?
      && h.properties == ReadProperties(FromTwo(w[12..]), 0, w[14..], NoProperties()).value
  {
    hide ReadProperties, FromTwo, FromEight, Number;
    assert |w| >= 14 by { NeedsFourteen(w); }
    ReadsTwo(w);
    ReadsTwo(w[2..]);
    ReadsEight(w[4..]);
    ReadsTwo(w[12..]);
  }

  lemma NeedsFourteen(w: bytes)
    requires ReadHeader(w).Got?
    ensures |w| >= 14
  {
    hide ReadProperties;
  }
}
