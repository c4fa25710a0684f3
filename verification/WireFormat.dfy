/** Octets as AMQP 0-9-1 lays them down, so that writer and reader do not merely agree with each other. */
module WireFormat {
  import opened Bytes
  import opened Octets
  import opened FieldValues
  import opened Methods
  import opened Headers
  import opened Frames

  lemma FramedOnTheWire(typ: byte, channel: uint16, payload: bytes)
    requires |payload| < 256
    ensures Framed(typ, channel, payload) == [typ, channel / 256, channel % 256, 0, 0, 0, |payload|] + payload + [206]
  {
    hide BigEndian;
    TwoOctets(channel);
    FourOctets(|payload|);
  }

  /** basic.ack, class 60, method 80: a delivery tag of eight octets and the bit `multiple`. */
  lemma AckOnTheWire(channel: uint16, tag: uint64, multiple: bool)
    ensures FrameBytes(MethodFrame(channel, Method(BasicAck, [NumArg(tag), FlagArg([multiple])])))
      == [1, channel / 256, channel % 256, 0, 0, 0, 13, 0, 60, 0, 80] + Eight(tag) + [if multiple then 1 else 0, 206]
  {
    hide BigEndian, Framed, ArgsBytes, Eight;
    var args: seq<Arg<Entries>> := [NumArg(tag), FlagArg([multiple])];
    AckArguments(tag, multiple);
    TwoOctets(60);
    TwoOctets(80);
    var payload := MethodBytes(Method(BasicAck, args));
    assert payload == [0, 60, 0, 80] + ArgsBytes(Schema(BasicAck), args);
    FramedOnTheWire(1, channel, payload);
  }

  lemma TwoArguments(k: Kind, l: Kind, x: Arg<Entries>, y: Arg<Entries>)
    requires Typed(k, x) && Typed(l, y) && ValidArg(x) && ValidArg(y)
    ensures AllTyped([k, l], [x, y]) && ValidArgs([x, y])
    ensures ArgsBytes([k, l], [x, y]) == ArgBytes(k, x) + ArgBytes(l, y)
  {
    hide ArgBytes, Typed, ValidArg;
    assert [k, l][1..] == [l] && [x, y][1..] == [y] && [l][1..] == [] && [y][1..] == [];
    assert ArgsBytes([l], [y]) == ArgBytes(l, y) + [];
  }

  lemma AckArguments(tag: uint64, multiple: bool)
    ensures var args: seq<Arg<Entries>> := [NumArg(tag), FlagArg([multiple])];
      && AllTyped(Schema(BasicAck), args) && ValidArgs(args)
      && ArgsBytes(Schema(BasicAck), args) == Eight(tag) + [if multiple then 1 else 0]
  {
    hide BigEndian, ArgsBytes, AllTyped, ValidArgs, Eight;
    Widths();
    TwoArguments(Uint(8), FlagBits(1), NumArg(tag), FlagArg([multiple]));
    assert Packed([multiple][1..]) == 0;
    assert Packed([multiple]) == if multiple then 1 else 0;
    EightOctets(tag);
    OneOctet(Packed([multiple]));
  }

  function FlagIf(present: bool, flag: nat): nat {
    if present then flag else 0
  }

  /** The property flags, section 4.2.6.1 of the AMQP 0-9-1 specification: the highest bit is that of the first property. */
  lemma FlagsOnTheWire(p: Properties<Entries>)
    ensures Mask(p) ==
      FlagIf(p.contentType != [], 0x8000) + FlagIf(p.contentEncoding != [], 0x4000)
      + FlagIf(p.headers.Some? && p.headers.value != [], 0x2000) + FlagIf(p.deliveryMode != 0, 0x1000)
      + FlagIf(p.priority != 0, 0x0800) + FlagIf(p.correlationId != [], 0x0400)
      + FlagIf(p.replyTo != [], 0x0200) + FlagIf(p.expiration != [], 0x0100)
      + FlagIf(p.messageId != [], 0x0080) + FlagIf(p.timestamp.Some?, 0x0040)
      + FlagIf(p.type_ != [], 0x0020) + FlagIf(p.userId != [], 0x0010) + FlagIf(p.appId != [], 0x0008)
  {
    hide FlagIf, Mask, Tail;
    LowFlags(p);
    HighFlags(p);
    ScaledFlags(p);
  }

  lemma ScaledFlags(p: Properties<Entries>)
    ensures 256 * (FlagIf(p.expiration != [], 1) + FlagIf(p.replyTo != [], 2)
      + FlagIf(p.correlationId != [], 4) + FlagIf(p.priority != 0, 8) + FlagIf(p.deliveryMode != 0, 16)
      + FlagIf(p.headers.Some? && p.headers.value != [], 32) + FlagIf(p.contentEncoding != [], 64)
      + FlagIf(p.contentType != [], 128))
      == FlagIf(p.contentType != [], 0x8000) + FlagIf(p.contentEncoding != [], 0x4000)
      + FlagIf(p.headers.Some? && p.headers.value != [], 0x2000) + FlagIf(p.deliveryMode != 0, 0x1000)
      + FlagIf(p.priority != 0, 0x0800) + FlagIf(p.correlationId != [], 0x0400)
      + FlagIf(p.replyTo != [], 0x0200) + FlagIf(p.expiration != [], 0x0100)
  {
    hide FlagIf;
    Scaled(p.contentType != [], 128);
    Scaled(p.contentEncoding != [], 64);
    Scaled(p.headers.Some? && p.headers.value != [], 32);
    Scaled(p.deliveryMode != 0, 16);
    Scaled(p.priority != 0, 8);
    Scaled(p.correlationId != [], 4);
    Scaled(p.replyTo != [], 2);
    Scaled(p.expiration != [], 1);
  }

  lemma Scaled(present: bool, flag: nat)
    ensures 256 * FlagIf(present, flag) == FlagIf(present, 256 * flag)
  {
  }

  lemma LowFlags(p: Properties<Entries>)
    ensures Mask(p) == FlagIf(p.appId != [], 8) + FlagIf(p.userId != [], 16) + FlagIf(p.type_ != [], 32)
      + FlagIf(p.timestamp.Some?, 64) + FlagIf(p.messageId != [], 128) + 256 * Tail(p, 8)
  {
    hide Presence, Present;
    MaskFrom(p, 0);
    PresenceAt(p);
    PresentAt(p);
    assert Presence(p)[0..] == Presence(p);
  }

  lemma HighFlags(p: Properties<Entries>)
    ensures Tail(p, 8) == FlagIf(p.expiration != [], 1) + FlagIf(p.replyTo != [], 2)
      + FlagIf(p.correlationId != [], 4) + FlagIf(p.priority != 0, 8) + FlagIf(p.deliveryMode != 0, 16)
      + FlagIf(p.headers.Some? && p.headers.value != [], 32) + FlagIf(p.contentEncoding != [], 64)
      + FlagIf(p.contentType != [], 128)
  {
    hide Presence, Present, FlagIf;
    MaskFrom(p, 8);
    PresenceAt(p);
    PresentAt(p);
    assert Presence(p)[16..] == [];
  }

  lemma PresenceAt(p: Properties<Entries>)
    ensures forall b | 0 <= b < 16 :: Presence(p)[b] <==> b >= 2 && Present(p, 15 - b)
  {
  }

  lemma PresentAt(p: Properties<Entries>)
    ensures Present(p, 0) <==> p.contentType != []
    ensures Present(p, 1) <==> p.contentEncoding != []
    ensures Present(p, 2) <==> p.headers.Some? && p.headers.value != []
    ensures Present(p, 3) <==> p.deliveryMode != 0
    ensures Present(p, 4) <==> p.priority != 0
    ensures Present(p, 5) <==> p.correlationId != []
    ensures Present(p, 6) <==> p.replyTo != []
    ensures Present(p, 7) <==> p.expiration != []
    ensures Present(p, 8) <==> p.messageId != []
    ensures Present(p, 9) <==> p.timestamp.Some?
    ensures Present(p, 10) <==> p.type_ != []
    ensures Present(p, 11) <==> p.userId != []
    ensures Present(p, 12) <==> p.appId != []
    ensures !Present(p, 13)
  {
  }

  function Tail(p: Properties<Entries>, b: nat): nat
    requires b <= 16
  {
    Packed(Presence(p)[b..])
  }

  lemma MaskFrom(p: Properties<Entries>, b: nat)
    requires b <= 8
    ensures var f := Presence(p);
      Tail(p, b) == FlagIf(f[b], 1) + FlagIf(f[b + 1], 2) + FlagIf(f[b + 2], 4) + FlagIf(f[b + 3], 8)
        + FlagIf(f[b + 4], 16) + FlagIf(f[b + 5], 32) + FlagIf(f[b + 6], 64) + FlagIf(f[b + 7], 128) + 256 * Tail(p, b + 8)
  {
    FourBits(p, b);
    FourBits(p, b + 4);
  }

  lemma FourBits(p: Properties<Entries>, b: nat)
    requires b <= 12
    ensures var f := Presence(p);
      Tail(p, b) == FlagIf(f[b], 1) + FlagIf(f[b + 1], 2) + FlagIf(f[b + 2], 4) + FlagIf(f[b + 3], 8) + 16 * Tail(p, b + 4)
  {
    OneBit(p, b);
    OneBit(p, b + 1);
    OneBit(p, b + 2);
    OneBit(p, b + 3);
  }

  lemma OneBit(p: Properties<Entries>, b: nat)
    requires b < 16
    ensures Tail(p, b) == FlagIf(Presence(p)[b], 1) + 2 * Tail(p, b + 1)
  {
    var f := Presence(p)[b..];
    assert f[1..] == Presence(p)[b + 1..];
  }
}
