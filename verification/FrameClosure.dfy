/**
 From what is read to what fits: a frame read from any octets whatever has taken at least as many as
 writing it takes, and is within the writer's bounds. So round trips succeed exactly on frames that fit.
 */
module FrameClosure {
  import opened Bytes
  import opened Streams
  import opened FieldValues
  import opened FieldCodec
  import opened FieldRoundTrip
  import opened FieldClosure
  import opened Methods
  import opened Headers
  import opened HeaderRoundTrip
  import opened Frames

  // ---------------------------------------------------------------- methods

  lemma TextClosed(s: bytes, w: bytes)
    ensures ReadShortstr(w).Got? && ReadShortstr(w).value == s
      ==> |s| <= 255 && |Shortstr(s)| == ReadShortstr(w).used
    ensures ReadLongstr(w).Got? && ReadLongstr(w).value == s
      ==> |s| <= MAX_LONGSTR && |Longstr(s)| == ReadLongstr(w).used
  {
    hide ReadShortstr, ReadLongstr, BigEndian;
  }

  lemma EntriesReadBackClosed(es: Entries, w: bytes)
    requires ValidEntries(es) && ReadTable(w).Got? && ReadTable(w).value == CanonTable(Contents(es))
    ensures TableFits(es) && |TableBytes(es)| <= ReadTable(w).used
  {
    hide ReadTable, Contents, CanonTable, CanonEntries;
    CanonEntriesDenoteCanon(es);
    CanonEntriesWriteAlike(es);
    TableClosed(w, CanonEntries(es));
  }

  lemma ArgClosed(k: Kind, a: Arg<Entries>, w: bytes)
    requires Typed(k, a) && ValidArg(a) && ReadArg(k, w).Got? && ReadArg(k, w).value == ArgReadBack(a)
    ensures ArgFits(k, a) && |ArgBytes(k, a)| <= ReadArg(k, w).used
  {
    hide ReadShortstr, ReadLongstr, ReadTable, Shortstr, Longstr, TableBytes, TableFits;
    match k
    case ShortText => TextClosed(a.text, w);
    case LongText => TextClosed(a.text, w);
    case FieldTable => EntriesReadBackClosed(a.t, w);
    case _ =>
  }

  lemma {:induction false} ArgsClosed(ks: seq<Kind>, args: seq<Arg<Entries>>, w: bytes)
    requires AllTyped(ks, args) && ValidArgs(args)
    requires ReadArgs(ks, w).Got? && ReadArgs(ks, w).value == ArgsReadBack(args)
    ensures ArgsFit(ks, args) && |ArgsBytes(ks, args)| <= ReadArgs(ks, w).used
  {
    hide ReadArg, ArgBytes, ArgFits, ArgReadBack, Typed, ValidArg;
    if ks != [] {
      var u := ReadArg(ks[0], w).used;
      var rest := ReadArgs(ks[1..], w[u..]);
      assert ArgsReadBack(args)[0] == ArgReadBack(args[0]) && ArgsReadBack(args)[1..] == ArgsReadBack(args[1..]);
      assert ReadArgs(ks, w).value == [ReadArg(ks[0], w).value] + rest.value;
      assert ReadArgs(ks, w).value[1..] == rest.value;
      ArgClosed(ks[0], args[0], w);
      ArgsClosed(ks[1..], args[1..], w[u..]);
      forall i | 0 <= i < |ks| ensures ArgFits(ks[i], args[i]) {
        if i > 0 {
          assert ArgFits(ks[1..][i - 1], args[1..][i - 1]);
        }
      }
    }
  }

  lemma MethodClosed(m: Method<Entries>, w: bytes)
    requires WellTyped(m) && ValidArgs(m.args)
    requires ReadMethod(w).Got? && ReadMethod(w).value == MethodReadBack(m)
    ensures MethodFits(m) && |MethodBytes(m)| <= ReadMethod(w).used
  {
    hide ReadArgs, ArgsBytes, Selected, Id, Schema;
    ArgsClosed(Schema(m.name), m.args, w[4..]);
  }

  // ---------------------------------------------------------------- content headers

  /** A property that is present is read back as something that is not blank. */
  lemma PresentIsReadBack(p: Properties<Entries>, i: nat)
    requires i < RESERVED1
    ensures Present(p, i) <==> Get(ReadBack(p), i) != Get(NoProperties<Table>(), i)
  {
  }

  lemma AbsentFits(p: Properties<Entries>, i: nat)
    requires i < RESERVED1 && !Present(p, i)
    ensures SlotFits(Get(p, i))
  {
  }

  lemma SlotClosed(p: Properties<Entries>, i: nat, w: bytes)
    requires ValidProperties(p) && Present(p, i)
    requires ReadSlot(i, w).Got? && ReadSlot(i, w).value == Get(ReadBack(p), i)
    ensures SlotFits(Get(p, i)) && |SlotBytes(Get(p, i))| <= ReadSlot(i, w).used
  {
    hide ReadShortstr, ReadTable, Shortstr, TableBytes, TableFits, ValidEntries, CanonTable, Contents;
    var s := Get(p, i);
    if i == 2 {
      EntriesReadBackClosed(s.table.value, w);
    } else if s.TextSlot? {
      TextClosed(s.text, w);
    }
  }

  /** Places already read are not read again. */
  lemma {:induction false} SlotsAreKept(mask: nat, i: nat, w: bytes, q: Properties<Table>, j: nat)
    requires j < i <= SLOTS && ReadProperties(mask, i, w, q).Got?
    ensures Get(ReadProperties(mask, i, w, q).value, j) == Get(q, j)
    decreases SLOTS - i
  {
    hide ReadSlot, HasProperty, Put, Get;
    if i < SLOTS {
      if HasProperty(mask, i) {
        var r := ReadSlot(i, w);
        SlotsAreKept(mask, i + 1, w[r.used..], Put(q, i, r.value), j);
        PutAt(q, i, r.value, j);
      } else {
        SlotsAreKept(mask, i + 1, w, q, j);
      }
    }
  }

  lemma PutAt(q: Properties<Table>, i: nat, s: Slot<Table>, j: nat)
    requires i < SLOTS && j < SLOTS && Suits(s, i)
    ensures Get(Put(q, i, s), j) == if i == j then s else Get(q, j)
  {
  }

  predicate BlankFrom(q: Properties<Table>, i: nat) {
    forall j | i <= j < SLOTS :: Get(q, j) == Get(NoProperties<Table>(), j)
  }

  /** What place i came to be. */
  lemma SlotCameFrom(mask: nat, i: nat, w: bytes, q: Properties<Table>)
    requires i < SLOTS && BlankFrom(q, i) && ReadProperties(mask, i, w, q).Got?
    ensures var s := Get(ReadProperties(mask, i, w, q).value, i);
      if HasProperty(mask, i) then
        var r := ReadSlot(i, w);
        r.Got? && s == r.value && BlankFrom(Put(q, i, r.value), i + 1)
      else s == Get(NoProperties<Table>(), i) && BlankFrom(q, i + 1)
  {
    hide ReadSlot, HasProperty, Put, Get;
    if HasProperty(mask, i) {
      var r := ReadSlot(i, w);
      var q' := Put(q, i, r.value);
      SlotsAreKept(mask, i + 1, w[r.used..], q', i);
      PutAt(q, i, r.value, i);
      forall j | i + 1 <= j < SLOTS ensures Get(q', j) == Get(NoProperties<Table>(), j) {
        PutAt(q, i, r.value, j);
      }
    } else {
      SlotsAreKept(mask, i + 1, w, q, i);
    }
  }

  lemma {:induction false} PropertiesClosed(
      p: Properties<Entries>, mask: nat, i: nat, w: bytes, q: Properties<Table>)
    requires ValidProperties(p) && i <= SLOTS && BlankFrom(q, i)
    requires ReadProperties(mask, i, w, q).Got? && ReadProperties(mask, i, w, q).value == ReadBack(p)
    ensures forall j | i <= j < RESERVED1 :: SlotFits(Get(p, j))
    ensures |PropertyBytes(p, i)| <= ReadProperties(mask, i, w, q).used
    decreases SLOTS - i
  {
    hide ReadSlot, HasProperty, Put, Get, Present, SlotBytes, SlotFits, ReadBack, ValidProperties, BlankFrom;
    if i < SLOTS {
      SlotCameFrom(mask, i, w, q);
      if HasProperty(mask, i) {
        var r := ReadSlot(i, w);
        PropertiesClosed(p, mask, i + 1, w[r.used..], Put(q, i, r.value));
      } else {
        PropertiesClosed(p, mask, i + 1, w, q);
      }
      PlaceClosed(p, mask, i, w);
    }
  }

  /** One place, given what it came to be. */
  lemma PlaceClosed(p: Properties<Entries>, mask: nat, i: nat, w: bytes)
    requires ValidProperties(p) && i < SLOTS
    requires if HasProperty(mask, i) then ReadSlot(i, w).Got? && ReadSlot(i, w).value == Get(ReadBack(p), i)
             else Get(ReadBack(p), i) == Get(NoProperties<Table>(), i)
    ensures i < RESERVED1 ==> SlotFits(Get(p, i))
    ensures Present(p, i) ==> HasProperty(mask, i)
    ensures Present(p, i) ==> !Blank(Get(p, i)) && (Get(p, i).TableSlot? ==> ValidEntries(Get(p, i).table.value))
    ensures Present(p, i) ==> |SlotBytes(Get(p, i))| <= ReadSlot(i, w).used
  {
    hide ReadSlot, HasProperty, SlotFits, ReadBack, SlotBytes;
    if i < RESERVED1 {
      PresentIsReadBack(p, i);
      if Present(p, i) {
        SlotClosed(p, i, w);
      } else {
        AbsentFits(p, i);
      }
    }
  }

  lemma HeaderClosed(h: Header<Entries>, w: bytes)
    requires ValidProperties(h.properties) && ReadHeader(w).Got?
    requires ReadHeader(w).value == Header(h.classId, h.weight, h.size, ReadBack(h.properties))
    ensures PropertiesFit(h.properties) && |HeaderBytes(h)| <= ReadHeader(w).used
  {
    hide ReadProperties, PropertyBytes, Mask, ReadBack, SlotFits;
    PropertiesClosed(h.properties, Number(w[12..], 2).value, 0, w[14..], NoProperties());
  }

  // ---------------------------------------------------------------- frames

  /** Whatever octets a frame is read from, it fits, and they are no fewer than those it is written in. */
  lemma FrameClosed(f: Frame<Entries>, w: bytes)
    requires ValidFrame(f) && ReadFrame(w).Got? && ReadFrame(w).value == FrameReadBack(f)
    ensures FrameFits(f) && |FrameBytes(f)| <= ReadFrame(w).used
  {
    hide ReadMethod, ReadHeader, MethodBytes, HeaderBytes, ReadBack, MethodReadBack, ValidProperties;
    FramedLength(FrameType(f), f.channel, Payload(f));
    Widths();
    match f
    case MethodFrame(_, m) => MethodClosed(m, w[7..]);
    case HeaderFrame(_, h) => HeaderClosed(h, w[7..]);
    case BodyFrame(_, b) =>
    case HeartbeatFrame(_) =>
  }

  /** A frame is read back, with exactly what follows it left over, if and only if it fits. */
  lemma FrameRoundTripsExactlyWhenItFits(f: Frame<Entries>, suffix: bytes)
    requires ValidFrame(f)
    ensures ReadFrame(FrameBytes(f) + suffix) == Got(FrameReadBack(f), |FrameBytes(f)|) <==> FrameFits(f)
  {
    hide ReadFrame, FrameBytes, FrameFits;
    if FrameFits(f) {
      FrameRoundTrips(f, suffix);
    } else if ReadFrame(FrameBytes(f) + suffix) == Got(FrameReadBack(f), |FrameBytes(f)|) {
      FrameClosed(f, FrameBytes(f) + suffix);
    }
  }

  lemma {:induction false} ScannedClosed(fs: seq<Frame<Entries>>, w: bytes)
    requires ValidFrames(fs) && Scanned(w).frames == FramesReadBack(fs)
    ensures FramesFit(fs) && |FramesBytes(fs)| <= |w|
    decreases |w|
  {
    hide ReadFrame, FrameBytes, FrameFits, FrameReadBack, ValidFrame;
    var r := ReadFrame(w);
    if r.Got? {
      var rest := Scanned(w[r.used..]).frames;
      assert Scanned(w).frames == [r.value] + rest;
      assert FramesReadBack(fs)[0] == FrameReadBack(fs[0]) && FramesReadBack(fs)[1..] == FramesReadBack(fs[1..]);
      assert Scanned(w).frames[1..] == rest;
      FrameClosed(fs[0], w);
      ScannedClosed(fs[1..], w[r.used..]);
      forall i | 0 <= i < |fs| ensures FrameFits(fs[i]) {
        if i > 0 {
          assert FrameFits(fs[1..][i - 1]);
        }
      }
    } else if r.error != EndOfFile && r.error != NegativeLength {
      ScannedClosed(fs, w[r.used..]);
    }
  }

  /** A stream of frames is read as exactly those frames if and only if each of them fits. */
  lemma StreamRoundTripsExactlyWhenItFits(fs: seq<Frame<Entries>>)
    requires ValidFrames(fs)
    ensures Scanned(FramesBytes(fs)) == Scan(FramesReadBack(fs), false) <==> FramesFit(fs)
  {
    hide Scanned, FramesBytes, FramesReadBack;
    if FramesFit(fs) {
      StreamRoundTrips(fs, []);
      assert Scanned([]) == Scan([], false) by { NothingScanned(); }
      assert FramesBytes(fs) + [] == FramesBytes(fs) && FramesReadBack(fs) + [] == FramesReadBack(fs);
    } else if Scanned(FramesBytes(fs)) == Scan(FramesReadBack(fs), false) {
      ScannedClosed(fs, FramesBytes(fs));
    }
  }

  lemma NothingScanned()
    ensures Scanned([]) == Scan([], false)
  {
  }

  // ---------------------------------------------------------------- the size field

  /** A frame with any four octets in place of its size. */
  function Resized(f: Frame<Entries>, size: bytes): bytes
    requires ValidFrame(f) && |size| == 4
  {
    [FrameType(f)] + BigEndian(f.channel, 2) + size + Payload(f) + [FRAME_END]
  }

  lemma ResizedPreamble(f: Frame<Entries>, size: bytes, suffix: bytes)
    requires ValidFrame(f) && |size| == 4
    ensures var w := Resized(f, size) + suffix;
      && Full(w, 7) == Got(w[..7], 7) && w[0] == FrameType(f)
      && FromBigEndian(w[..7][1..3]) == f.channel && w[..7][3..7] == size
      && w[7..] == Payload(f) + ([FRAME_END] + suffix)
      && w[7 + |Payload(f)|..] == [FRAME_END] + suffix
      && |Resized(f, size)| == |FrameBytes(f)| == 8 + |Payload(f)|
  {
    hide Payload;
    var w := Resized(f, size) + suffix;
    var front := [FrameType(f)] + BigEndian(f.channel, 2) + size;
    assert w == front + (Payload(f) + ([FRAME_END] + suffix));
    FullOnPrefix(front, Payload(f) + ([FRAME_END] + suffix));
    assert w[..7] == front;
    assert front[1..3] == BigEndian(f.channel, 2) && front[3..7] == size;
    BigEndianInverts(f.channel, 2);
    Widths();
  }

  /**
   Exactly: whatever stands in the size field, a method or header frame is read back, with exactly what
   follows it left over; a body or heartbeat frame only if the field holds the size of its payload.
   */
  lemma SizeMattersExactlyToBodies(f: Frame<Entries>, size: bytes, suffix: bytes)
    requires FrameFits(f) && |size| == 4
    ensures ReadFrame(Resized(f, size) + suffix) == Got(FrameReadBack(f), |FrameBytes(f)|)
      <==> f.MethodFrame? || f.HeaderFrame? || FromBigEndian(size) == |Payload(f)|
  {
    hide ReadPayload, ReadEnd, Resized, FromBigEndian;
    ResizedPreamble(f, size, suffix);
    EndReads(FrameReadBack(f), suffix);
    if f.MethodFrame? || f.HeaderFrame? || FromBigEndian(size) == |Payload(f)| {
      PayloadRoundTrips(f, FromBigEndian(size), [FRAME_END] + suffix);
    } else {
      WrongSizeIsNoticed(f, FromBigEndian(size), Payload(f) + ([FRAME_END] + suffix));
      EndKeepsFrame(f, size, suffix);
    }
  }

  lemma WrongSizeIsNoticed(f: Frame<Entries>, size: nat, w: bytes)
    requires ValidFrame(f) && (f.BodyFrame? || f.HeartbeatFrame?) && size != |Payload(f)|
    ensures var r := ReadPayload(FrameType(f), f.channel, size, w);
      r.Got? ==> r.value != FrameReadBack(f)
  {
  }

  lemma EndKeepsFrame(f: Frame<Entries>, size: bytes, suffix: bytes)
    requires ValidFrame(f) && |size| == 4
    ensures var w := Resized(f, size) + suffix;
      ReadFrame(w).Got? ==>
        |w| >= 7 && FromBigEndian(w[..7][1..3]) == f.channel
        && var p := ReadPayload(FrameType(f), f.channel, FromBigEndian(size), w[7..]);
        p.Got? && ReadFrame(w).value == p.value
  {
    hide ReadPayload, Resized, FromBigEndian;
    ResizedPreamble(f, size, suffix);
  }
}
