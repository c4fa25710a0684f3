/**
 What is read of a frame that its packet does not hold to the end: nothing. Every reader runs into
 the end of the data, and the parse loop stops there.
 */
module Truncation {
  import opened Bytes
  import opened Streams
  import opened FieldValues
  import opened FieldCodec
  import opened FieldRoundTrip
  import opened Methods
  import opened Headers
  import opened HeaderRoundTrip
  import opened Frames
  import opened Reassembly
  import opened Demultiplexing
  import opened EndToEnd
  import opened FrameClosure
  import Octets
  import WireFormat

  /** The end of the data was reached, at an octet boundary of something or within it. */
  predicate RunsOut<T>(r: Read<T>, w: bytes) {
    r.Failed? && (r.error == EndOfFile || (r.error == UnexpectedEndOfFile && r.used == |w|))
  }

  lemma NumberRunsOut(w: bytes, width: nat)
    requires |w| < width
    ensures RunsOut(Number(w, width), w)
  {
  }

  /** The first n octets of a + b, when n reaches into b. */
  lemma CutBehind(a: bytes, b: bytes, n: nat)
    requires |a| <= n <= |a| + |b|
    ensures (a + b)[..n] == a + b[..n - |a|] && (a + b)[..n][|a|..] == b[..n - |a|]
  {
  }

  lemma CutWithin(a: bytes, b: bytes, n: nat)
    requires n <= |a|
    ensures (a + b)[..n] == a[..n]
  {
  }

  // ---------------------------------------------------------------- strings and tables

  lemma ShortstrRunsOut(s: bytes, n: nat)
    requires n < |Shortstr(s)|
    ensures RunsOut(ReadShortstr(Shortstr(s)[..n]), Shortstr(s)[..n])
  {
    if n > 0 {
      var size, body := BigEndian(|s|, 1), s[..|s| % 256];
      CutBehind(size, body, n);
      LengthOnPrefix(|s|, 1, body[..n - 1]);
      assert |s| % Pow256(1) == |s| % 256 by { Widths(); }
    }
  }

  lemma LongstrRunsOut(s: bytes, n: nat)
    requires |s| <= MAX_LONGSTR && n < |Longstr(s)|
    ensures RunsOut(ReadLongstr(Longstr(s)[..n]), Longstr(s)[..n])
  {
    if n >= 4 {
      var size, body := BigEndian(|s|, 4), s[..|s| % 0x1_0000_0000];
      CutBehind(size, body, n);
      assert |s| < Pow256(4) by { Widths(); }
      NumberOnPrefix(|s|, 4, body[..n - 4]);
    } else {
      NumberRunsOut(Longstr(s)[..n], 4);
    }
  }

  lemma TableRunsOut(es: Entries, n: nat)
    requires ValidEntries(es) && TableFits(es) && n < |TableBytes(es)|
    ensures RunsOut(ReadTable(TableBytes(es)[..n]), TableBytes(es)[..n])
  {
    hide ReadLongstr, Longstr;
    LongstrRunsOut(EntryBytes(es), n);
  }

  // ---------------------------------------------------------------- methods

  lemma ArgRunsOut(k: Kind, a: Arg<Entries>, n: nat)
    requires Typed(k, a) && ValidArg(a) && ArgFits(k, a) && n < |ArgBytes(k, a)|
    ensures RunsOut(ReadArg(k, ArgBytes(k, a)[..n]), ArgBytes(k, a)[..n])
  {
    hide ReadShortstr, ReadLongstr, ReadTable, Shortstr, Longstr, TableBytes, Number;
    match k
    case Uint(width) => NumberRunsOut(ArgBytes(k, a)[..n], width);
    case ShortText => ShortstrRunsOut(a.text, n);
    case LongText => LongstrRunsOut(a.text, n);
    case FlagBits(_) => NumberRunsOut(ArgBytes(k, a)[..n], 1);
    case FieldTable => TableRunsOut(a.t, n);
  }

  lemma {:induction false} ArgsRunOut(ks: seq<Kind>, args: seq<Arg<Entries>>, n: nat)
    requires AllTyped(ks, args) && ValidArgs(args) && ArgsFit(ks, args) && n < |ArgsBytes(ks, args)|
    ensures RunsOut(ReadArgs(ks, ArgsBytes(ks, args)[..n]), ArgsBytes(ks, args)[..n])
  {
    hide ReadArg, ArgBytes, ArgFits;
    var first, rest := ArgBytes(ks[0], args[0]), ArgsBytes(ks[1..], args[1..]);
    assert ArgsBytes(ks, args) == first + rest;
    assert ArgFits(ks[0], args[0]);
    if n < |first| {
      CutWithin(first, rest, n);
      ArgRunsOut(ks[0], args[0], n);
    } else {
      CutBehind(first, rest, n);
      ArgRoundTrips(ks[0], args[0], rest[..n - |first|]);
      forall i | 0 <= i < |ks[1..]| ensures ArgFits(ks[1..][i], args[1..][i]) {
        assert ArgFits(ks[i + 1], args[i + 1]);
      }
      ArgsRunOut(ks[1..], args[1..], n - |first|);
    }
  }

  lemma MethodRunsOut(m: Method<Entries>, n: nat)
    requires MethodFits(m) && n < |MethodBytes(m)|
    ensures RunsOut(ReadMethod(MethodBytes(m)[..n]), MethodBytes(m)[..n])
  {
    hide ReadArgs, ArgsBytes, Selected, Id, Schema, Number;
    var a, b, args := BigEndian(Id(m.name).0, 2), BigEndian(Id(m.name).1, 2), ArgsBytes(Schema(m.name), m.args);
    assert MethodBytes(m) == a + (b + args);
    assert 0x1_0000 == Pow256(2) by { Widths(); }
    if n < 2 {
      NumberRunsOut(MethodBytes(m)[..n], 2);
    } else {
      CutBehind(a, b + args, n);
      NumberOnPrefix(Id(m.name).0, 2, (b + args)[..n - 2]);
      if n < 4 {
        NumberRunsOut((b + args)[..n - 2], 2);
      } else {
        CutBehind(b, args, n - 2);
        NumberOnPrefix(Id(m.name).1, 2, args[..n - 4]);
        assert MethodBytes(m)[..n][4..] == args[..n - 4];
        SelectionInvertsId(Id(m.name).0, Id(m.name).1, m.name);
        ArgsRunOut(Schema(m.name), m.args, n - 4);
      }
    }
  }

  // ---------------------------------------------------------------- content headers

  lemma SlotRunsOut(p: Properties<Entries>, i: nat, n: nat)
    requires PropertiesFit(p) && Present(p, i) && n < |SlotBytes(Get(p, i))|
    ensures RunsOut(ReadSlot(i, SlotBytes(Get(p, i))[..n]), SlotBytes(Get(p, i))[..n])
  {
    hide ReadShortstr, ReadTable, Shortstr, TableBytes, Number;
    var s := Get(p, i);
    assert SlotFits(s);
    if i == 2 {
      TableRunsOut(p.headers.value, n);
    } else if i == 3 || i == 4 {
      NumberRunsOut(SlotBytes(s)[..n], 1);
    } else if i == 9 {
      NumberRunsOut(SlotBytes(s)[..n], 8);
    } else {
      ShortstrRunsOut(s.text, n);
    }
  }

  lemma SlotIsWritable(p: Properties<Entries>, i: nat)
    requires ValidProperties(p) && i < SLOTS && Present(p, i)
    ensures !Blank(Get(p, i)) && (Get(p, i).TableSlot? ==> ValidEntries(Get(p, i).table.value))
  {
  }

  lemma {:induction false} PropertiesRunOut(p: Properties<Entries>, i: nat, n: nat, q: Properties<Table>)
    requires PropertiesFit(p) && i <= SLOTS && n < |PropertyBytes(p, i)|
    ensures RunsOut(ReadProperties(Mask(p), i, PropertyBytes(p, i)[..n], q), PropertyBytes(p, i)[..n])
    decreases SLOTS - i
  {
    hide ReadSlot, SlotBytes, HasProperty, Mask, PropertiesFit, Put, Get, Blank, ReadBack;
    MaskInverts(p, i);
    if Present(p, i) {
      SlotIsWritable(p, i);
      var first, rest := SlotBytes(Get(p, i)), PropertyBytes(p, i + 1);
      assert PropertyBytes(p, i) == first + rest;
      if n < |first| {
        CutWithin(first, rest, n);
        SlotRunsOut(p, i, n);
      } else {
        CutBehind(first, rest, n);
        SlotRoundTrips(p, i, rest[..n - |first|]);
        PropertiesRunOut(p, i + 1, n - |first|, Put(q, i, Get(ReadBack(p), i)));
      }
    } else {
      assert PropertyBytes(p, i) == PropertyBytes(p, i + 1);
      PropertiesRunOut(p, i + 1, n, q);
    }
  }

  /** A number in front: reading it fails where the cut is within it, and goes on behind it otherwise. */
  lemma NumberThen(x: nat, width: nat, rest: bytes, n: nat)
    requires x < Pow256(width) && n <= width + |rest|
    ensures var w := (BigEndian(x, width) + rest)[..n];
      if n < width then RunsOut(Number(w, width), w)
      else Number(w, width) == Got(x, width) && w[width..] == rest[..n - width] && |w| == n
  {
    if n < width {
      NumberRunsOut((BigEndian(x, width) + rest)[..n], width);
    } else {
      CutBehind(BigEndian(x, width), rest, n);
      NumberOnPrefix(x, width, rest[..n - width]);
    }
  }

  lemma HeaderRunsOut(h: Header<Entries>, n: nat)
    requires PropertiesFit(h.properties) && n < |HeaderBytes(h)|
    ensures RunsOut(ReadHeader(HeaderBytes(h)[..n]), HeaderBytes(h)[..n])
  {
    hide ReadProperties, PropertyBytes, Mask, Number, BigEndian, PropertiesFit, ValidProperties;
    var p := h.properties;
    var props := PropertyBytes(p, 0);
    var d := BigEndian(Mask(p), 2) + props;
    var c := BigEndian(h.size, 8) + d;
    var b := BigEndian(h.weight, 2) + c;
    assert HeaderBytes(h) == BigEndian(h.classId, 2) + b;
    MaskInverts(p, 0);
    assert 0x1_0000 == Pow256(2) && 0x1_0000_0000_0000_0000 == Pow256(8) by { Widths(); }
    var w := HeaderBytes(h)[..n];
    NumberThen(h.classId, 2, b, n);
    if n >= 2 {
      NumberThen(h.weight, 2, c, n - 2);
      if n >= 4 {
        NumberThen(h.size, 8, d, n - 4);
        assert w[4..] == c[..n - 4];
        if n >= 12 {
          NumberThen(Mask(p), 2, props, n - 12);
          assert w[12..] == d[..n - 12];
          if n >= 14 {
            assert w[14..] == props[..n - 14];
            PropertiesRunOut(p, 0, n - 14, NoProperties());
          }
        }
      }
    }
  }

  // ---------------------------------------------------------------- frames

  lemma PayloadRunsOut(f: Frame<Entries>, size: nat, n: nat)
    requires FrameFits(f) && n < |Payload(f)| && (f.BodyFrame? ==> size == |Payload(f)|)
    ensures RunsOut(ReadPayload(FrameType(f), f.channel, size, Payload(f)[..n]), Payload(f)[..n])
  {
    hide ReadMethod, ReadHeader, MethodBytes, HeaderBytes;
    match f
    case MethodFrame(_, m) => MethodRunsOut(m, n);
    case HeaderFrame(_, h) => HeaderRunsOut(h, n);
    case BodyFrame(_, b) =>
  }

  lemma FrameRunsOut(f: Frame<Entries>, n: nat)
    requires FrameFits(f) && n < |FrameBytes(f)|
    ensures RunsOut(ReadFrame(FrameBytes(f)[..n]), FrameBytes(f)[..n])
  {
    hide ReadPayload, Payload, FrameFits;
    var payload, w := Payload(f), FrameBytes(f)[..n];
    FramedLength(FrameType(f), f.channel, payload);
    if n >= 7 {
      var size := |payload| % 0x1_0000_0000;
      PreambleCut(FrameType(f), f.channel, payload, n);
      BodySize(f);
      if n - 7 < |payload| {
        PayloadRunsOut(f, size, n - 7);
      } else {
        PayloadRoundTrips(f, size, []);
        assert payload[..n - 7] == payload + [] && payload + [] == payload;
      }
    }
  }

  lemma BodySize(f: Frame<Entries>)
    requires FrameFits(f)
    ensures f.BodyFrame? || f.HeartbeatFrame? ==> |Payload(f)| % 0x1_0000_0000 == |Payload(f)|
  {
  }

  lemma PreambleCut(typ: byte, channel: uint16, payload: bytes, n: nat)
    requires 7 <= n < 8 + |payload|
    ensures var w := Framed(typ, channel, payload)[..n];
      && Full(w, 7) == Got(w[..7], 7) && w[0] == typ
      && FromBigEndian(w[..7][1..3]) == channel
      && FromBigEndian(w[..7][3..7]) == |payload| % 0x1_0000_0000
      && w[7..] == payload[..n - 7]
  {
    var whole := Framed(typ, channel, payload);
    PreambleReads(typ, channel, payload, []);
    assert whole + [] == whole;
    assert whole[..n][..7] == whole[..7];
    assert whole[..n][7..] == whole[7..][..n - 7];
    assert whole[7..] == payload + ([FRAME_END] + []);
  }

  /** A frame cut anywhere before its last octet yields nothing, and no panic. */
  lemma CutFrameYieldsNothing(f: Frame<Entries>, n: nat)
    requires FrameFits(f) && n < |FrameBytes(f)|
    ensures Scanned(FrameBytes(f)[..n]) == Scan([], false)
  {
    hide ReadFrame, FrameBytes;
    var w := FrameBytes(f)[..n];
    FrameRunsOut(f, n);
    assert ReadFrame([]) == Failed(EndOfFile, 0) by { NothingToRead(); }
    assert w[|w|..] == [];
  }

  lemma NothingToRead()
    ensures ReadFrame([]) == Failed(EndOfFile, 0)
  {
  }

  // ---------------------------------------------------------------- packets

  /** The data of a packet: the frames fs, and then perhaps the beginning of one more. */
  ghost predicate Holds(data: bytes, fs: seq<Frame<Entries>>)
    requires FramesFit(fs)
  {
    || data == FramesBytes(fs)
    || exists f, n: nat :: FrameFits(f) && n < |FrameBytes(f)| && data == FramesBytes(fs) + FrameBytes(f)[..n]
  }

  /** Of a packet, exactly its whole frames are parsed; the beginning of another is forgotten. */
  lemma BeginningsAreForgotten(cs: Channels, data: bytes, fs: seq<Frame<Entries>>)
    requires AllConsistent(cs) && FramesFit(fs) && Holds(data, fs)
    ensures Parsed(cs, data) == Parsed(cs, FramesBytes(fs))
  {
    hide Scanned, Demuxed, Holds;
    HeldFramesAreScanned(data, fs);
    ScannedWhole(fs);
  }

  lemma HeldFramesAreScanned(data: bytes, fs: seq<Frame<Entries>>)
    requires FramesFit(fs) && Holds(data, fs)
    ensures Scanned(data) == Scan(FramesReadBack(fs), false)
  {
    hide Scanned, FrameFits, FrameBytes;
    if data == FramesBytes(fs) {
      ScannedWhole(fs);
    } else {
      var f, n: nat :| FrameFits(f) && n < |FrameBytes(f)| && data == FramesBytes(fs) + FrameBytes(f)[..n];
      StreamRoundTrips(fs, FrameBytes(f)[..n]);
      CutFrameYieldsNothing(f, n);
      assert FramesReadBack(fs) + [] == FramesReadBack(fs);
    }
  }

  /**
   A frame that straddles two packets: the first is parsed as if the frame were not there at all, the
   second as if a stream began with the octets that remain of it.
   */
  lemma StraddlingFrameIsNotRead(
      cs: Channels, fs: seq<Frame<Entries>>, f: Frame<Entries>, n: nat, rest: bytes)
    requires AllConsistent(cs) && FramesFit(fs) && FrameFits(f) && n < |FrameBytes(f)|
    ensures ParsedInTurn(cs, [FramesBytes(fs) + FrameBytes(f)[..n], FrameBytes(f)[n..] + rest])
      == ParsedInTurn(cs, [FramesBytes(fs), FrameBytes(f)[n..] + rest])
  {
    hide Parsed;
    var a, b := FramesBytes(fs) + FrameBytes(f)[..n], FrameBytes(f)[n..] + rest;
    assert Holds(a, fs);
    BeginningsAreForgotten(cs, a, fs);
    assert [a, b][1..] == [b] && [FramesBytes(fs), b][1..] == [b];
  }

  ghost predicate AllHold(data: seq<bytes>, parts: seq<seq<Frame<Entries>>>)
    requires PartsFit(parts)
  {
    |data| == |parts| && forall i | 0 <= i < |data| :: Holds(data[i], parts[i])
  }

  /** Packets that end within a frame, whose remainder never comes, yield their whole frames. */
  lemma {:induction false} OnlyWholeFramesCount(data: seq<bytes>, parts: seq<seq<Frame<Entries>>>)
    requires PartsFit(parts) && AllHold(data, parts)
    ensures FramesIn(data) == Scan(FramesReadBack(Joined(parts)), false)
    decreases |data|
  {
    hide Holds, Scanned, FrameReadBack, FrameFits;
    if data != [] {
      HeldFramesAreScanned(data[0], parts[0]);
      OnlyWholeFramesCount(data[1..], parts[1..]);
      assert FramesReadBack(Joined(parts)) == FramesReadBack(parts[0]) + FramesReadBack(Joined(parts[1..]));
    }
  }

  // ---------------------------------------------------------------- where a stream may be cut

  function Concat(data: seq<bytes>): bytes {
    if data == [] then [] else data[0] + Concat(data[1..])
  }

  /** Every packet is a number of whole frames. */
  ghost predicate BetweenFrames(data: seq<bytes>, fs: seq<Frame<Entries>>) {
    exists parts :: PartsFit(parts) && Joined(parts) == fs && data == Packets(parts)
  }

  /**
   Exactly: a stream cut into packets is read as the frames that were written if and only if every cut
   falls between two frames. No remainder of a frame is ever misread into the frames that are missing.
   */
  lemma CutsAreHarmlessExactlyBetweenFrames(fs: seq<Frame<Entries>>, data: seq<bytes>)
    requires FramesFit(fs) && Concat(data) == FramesBytes(fs)
    ensures FramesIn(data) == Scan(FramesReadBack(fs), false) <==> BetweenFrames(data, fs)
  {
    hide FramesIn, FramesBytes, FramesReadBack, Holds, FrameFits;
    if FramesIn(data) == Scan(FramesReadBack(fs), false) {
      var parts := FramesOfEach(data, fs);
      LengthsDecide(data, parts);
    }
    if BetweenFrames(data, fs) {
      var parts :| PartsFit(parts) && Joined(parts) == fs && data == Packets(parts);
      forall i | 0 <= i < |data| ensures Holds(data[i], parts[i]) {
        WholeIsHeld(parts[i]);
      }
      OnlyWholeFramesCount(data, parts);
    }
  }

  lemma WholeIsHeld(fs: seq<Frame<Entries>>)
    requires FramesFit(fs)
    ensures Holds(FramesBytes(fs), fs)
  {
  }

  predicate NoLonger(parts: seq<seq<Frame<Entries>>>, data: seq<bytes>)
    requires PartsFit(parts)
  {
    |parts| == |data| && forall i | 0 <= i < |data| :: |FramesBytes(parts[i])| <= |data[i]|
  }

  /** Which frames each packet has yielded; they are no longer than the packet. */
  lemma {:induction false} FramesOfEach(data: seq<bytes>, fs: seq<Frame<Entries>>)
    returns (parts: seq<seq<Frame<Entries>>>)
    requires FramesFit(fs) && FramesIn(data) == Scan(FramesReadBack(fs), false)
    ensures PartsFit(parts) && Joined(parts) == fs && NoLonger(parts, data)
    decreases |data|
  {
    hide Scanned, FrameFits, FrameReadBack, FramesBytes;
    parts := [];
    if data != [] {
      var first := Scanned(data[0]).frames;
      var k := |first|;
      var rs := FramesReadBack(fs);
      assert rs == first + FramesIn(data[1..]).frames;
      assert FramesReadBack(fs[..k]) == rs[..k] == first;
      assert FramesReadBack(fs[k..]) == rs[k..] == FramesIn(data[1..]).frames;
      ScannedClosed(fs[..k], data[0]);
      var later := FramesOfEach(data[1..], fs[k..]);
      parts := [fs[..k]] + later;
      assert parts[1..] == later && fs == fs[..k] + fs[k..];
      forall i | 0 <= i < |data| ensures |FramesBytes(parts[i])| <= |data[i]| {
        if i > 0 {
          assert parts[i] == later[i - 1] && data[i] == data[1..][i - 1];
        }
      }
    }
  }

  lemma {:induction false} PartsAreNoLonger(data: seq<bytes>, parts: seq<seq<Frame<Entries>>>)
    requires PartsFit(parts) && NoLonger(parts, data)
    ensures FramesFit(Joined(parts)) && |FramesBytes(Joined(parts))| <= |Concat(data)|
    decreases |data|
  {
    hide FramesBytes, FrameFits;
    if data != [] {
      PartsAreNoLonger(data[1..], parts[1..]);
      FramesBytesConcat(parts[0], Joined(parts[1..]));
    } else {
      assert |FramesBytes([])| == 0 by { NoFrames(); }
    }
  }

  lemma NoFrames()
    ensures FramesBytes([]) == []
  {
  }

  /** Where the packets hold no more octets in all than the frames, each holds exactly its own. */
  lemma {:induction false} LengthsDecide(data: seq<bytes>, parts: seq<seq<Frame<Entries>>>)
    requires PartsFit(parts) && NoLonger(parts, data)
    requires FramesFit(Joined(parts)) && Concat(data) == FramesBytes(Joined(parts))
    ensures data == Packets(parts)
    decreases |data|
  {
    hide FramesBytes, FrameFits;
    if data != [] {
      var own, rest := FramesBytes(parts[0]), Joined(parts[1..]);
      PartsAreNoLonger(data[1..], parts[1..]);
      FramesBytesConcat(parts[0], rest);
      SplitsAlike(data[0], Concat(data[1..]), own, FramesBytes(rest));
      LengthsDecide(data[1..], parts[1..]);
      assert Packets(parts) == [own] + Packets(parts[1..]);
    }
  }

  lemma SplitsAlike(a: bytes, b: bytes, c: bytes, d: bytes)
    requires a + b == c + d && |c| <= |a| && |d| <= |b|
    ensures a == c && b == d
  {
    assert |a + b| == |c + d|;
    assert a == (a + b)[..|a|] && c == (c + d)[..|c|];
    assert b == (a + b)[|a|..] && d == (c + d)[|c|..];
  }

  // ---------------------------------------------------------------- what the remainder does

  /** Octets that begin with none of the four frame types are skipped seven at a time. */
  lemma WrongTypesAreSkipped(w: bytes)
    requires |w| >= 7 && w[0] !in {FRAME_METHOD, FRAME_HEADER, FRAME_BODY, FRAME_HEARTBEAT}
    ensures Scanned(w) == Scanned(w[7..])
  {
    assert ReadFrame(w) == Failed(FrameError, 7) by {
      assert Full(w, 7) == Got(w[..7], 7);
      assert w[..7][0] == w[0];
    }
  }

  lemma TooShortForAFrame(w: bytes)
    requires |w| < 7
    ensures Scanned(w) == Scan([], false)
  {
    hide ReadPayload, ReadEnd;
    NothingToRead();
    if w != [] {
      assert ReadFrame(w) == Failed(UnexpectedEndOfFile, |w|);
      assert w[|w|..] == [];
    }
  }

  const SELECT: Frame<Entries> := MethodFrame(1, Method(TxSelect, []))

  lemma SelectOnTheWire()
    ensures FrameFits(SELECT)
    ensures FrameBytes(SELECT) == [1, 0, 1, 0, 0, 0, 4, 0, 90, 0, 10, 206]
  {
    hide BigEndian, Framed;
    Octets.TwoOctets(90);
    Octets.TwoOctets(10);
    assert Payload(SELECT) == [0, 90, 0, 10];
    WireFormat.FramedOnTheWire(1, 1, [0, 90, 0, 10]);
  }

  /** The remainder is misread: not only the frame that was cut is lost, but a whole one behind it. */
  lemma CutFramesTakeOthersWithThem()
    ensures FramesFit([SELECT, SELECT])
    ensures var w := FramesBytes([SELECT, SELECT]);
      && |w| == 24
      && ParsedInTurn(map[], [w[..1], w[1..]]) == Running(map[])
      && Parsed(map[], w).Running?
      && StateOf(Parsed(map[], w).channels, 1).log == [Bare(Method(TxSelect, [])), Bare(Method(TxSelect, []))]
  {
    hide Scanned, FrameBytes, FrameFits, Parsed, ParsedInTurn;
    SelectOnTheWire();
    var one, fs := FrameBytes(SELECT), [SELECT, SELECT];
    var w := FramesBytes(fs);
    assert fs[1..] == [SELECT] && [SELECT][1..] == [];
    assert FramesBytes([SELECT]) == one + FramesBytes([]);
    assert w == one + one;
    TooShortForAFrame(w[..1]);
    RemainderIsSkipped(w[1..]);
    NothingInEither(w[..1], w[1..]);
    BothAreDispatched();
  }

  lemma NothingInEither(a: bytes, b: bytes)
    requires Scanned(a) == Scanned(b) == Scan([], false)
    ensures ParsedInTurn(map[], [a, b]) == Running(map[])
  {
    hide Scanned;
    assert [a, b][1..] == [b] && [b][1..] == [];
    assert Parsed(map[], a) == Parsed(map[], b) == Running(map[]);
    assert ParsedInTurn(map[], [b]) == Running(map[]);
  }

  lemma RemainderIsSkipped(w: bytes)
    requires w == [0, 1, 0, 0, 0, 4, 0, 90, 0, 10, 206, 1, 0, 1, 0, 0, 0, 4, 0, 90, 0, 10, 206]
    ensures Scanned(w) == Scan([], false)
  {
    hide Scanned;
    WrongTypesAreSkipped(w);
    assert w[7..] == [90, 0, 10, 206, 1, 0, 1, 0, 0, 0, 4, 0, 90, 0, 10, 206];
    WrongTypesAreSkipped(w[7..]);
    assert w[7..][7..] == [0, 0, 0, 4, 0, 90, 0, 10, 206];
    WrongTypesAreSkipped(w[7..][7..]);
    TooShortForAFrame(w[7..][7..][7..]);
  }

  /** The publications tx.select, tx.select on channel 1. */
  lemma BothAreDispatched()
    ensures FrameFits(SELECT) && FramesFit([SELECT, SELECT])
    ensures var o := Parsed(map[], FramesBytes([SELECT, SELECT]));
      o.Running? && StateOf(o.channels, 1).log == [Bare(Method(TxSelect, [])), Bare(Method(TxSelect, []))]
  {
    hide Parsed, FrameBytes, FrameFits, InTurn, AllFramesFor, Deliveries, Delivery;
    var two := [SELECTED, SELECTED];
    SelectOnTheWire();
    FramesOfBoth();
    SomeInterleaving([1], map[1 := two]);
    MessagesArrive([SELECT, SELECT], map[1 := two], 1);
    DeliveriesOfBoth();
  }

  const SELECTED := BareMethod(Method(TxSelect, []))

  lemma DeliveriesOfBoth()
    ensures Deliveries([SELECTED, SELECTED]) == [Bare(Method(TxSelect, [])), Bare(Method(TxSelect, []))]
  {
    assert MethodReadBack(Method(TxSelect, [])).args == [];
  }

  lemma FramesOfBoth()
    ensures AllProper([SELECTED, SELECTED])
    ensures InTurn([1], map[1 := [SELECTED, SELECTED]]) == [SELECT, SELECT]
  {
    var one, two := [SELECTED], [SELECTED, SELECTED];
    var ps := map[1 := two];
    assert two[1..] == one && one[1..] == [];
    assert AllFramesFor(1, one) == [SELECT] + AllFramesFor(1, one[1..]);
    assert AllFramesFor(1, two) == [SELECT] + AllFramesFor(1, one);
    var cs: seq<uint16> := [1];
    assert cs[..0] == [] && InTurn([], ps) == [];
    assert InTurn(cs, ps) == InTurn([], ps) + AllFramesFor(1, PublishedOn(ps, 1));
  }
}
