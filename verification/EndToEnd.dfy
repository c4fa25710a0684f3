/**
 From messages to octets and back: what a publisher's frames, cut and interleaved in any way, make
 a parser dispatch.
 */
module EndToEnd {
  import opened Bytes
  import opened FieldValues
  import opened Methods
  import opened Headers
  import opened HeaderRoundTrip
  import opened Frames
  import opened Reassembly
  import opened Demultiplexing

  /** The Parse loop over one reader: every frame that can be read is demultiplexed, until the end. */
  function Parsed(cs: Channels, w: bytes): (o: Outcome)
    requires AllConsistent(cs)
    ensures AllConsistent(o.channels)
  {
    var scan := Scanned(w);
    var o := Demuxed(cs, scan.frames);
    if scan.panicked then Panicked(o.channels) else o
  }

  // ---------------------------------------------------------------- packets

  /** Parsing whole frames and then the rest is parsing them in one piece, mid-message or not. */
  lemma PacketsSplitAtFrames(cs: Channels, fs: seq<Frame<Entries>>, rest: bytes)
    requires AllConsistent(cs) && FramesFit(fs)
    ensures var o := Parsed(cs, FramesBytes(fs));
      Parsed(cs, FramesBytes(fs) + rest) == if o.Panicked? then o else Parsed(o.channels, rest)
  {
    hide Demuxed, Scanned;
    ScannedWhole(fs);
    StreamRoundTrips(fs, rest);
    DemuxedConcat(cs, FramesReadBack(fs), Scanned(rest).frames);
  }

  lemma ScannedWhole(fs: seq<Frame<Entries>>)
    requires FramesFit(fs)
    ensures Scanned(FramesBytes(fs)) == Scan(FramesReadBack(fs), false)
  {
    StreamRoundTrips(fs, []);
    assert Scanned([]) == Scan([], false);
    assert FramesBytes(fs) + [] == FramesBytes(fs);
    assert FramesReadBack(fs) + [] == FramesReadBack(fs);
  }

  /** One call of Parse after another, each on its own packet, for the same connection. */
  function ParsedInTurn(cs: Channels, packets: seq<bytes>): (o: Outcome)
    requires AllConsistent(cs)
    ensures AllConsistent(o.channels)
    decreases |packets|
  {
    if packets == [] then Running(cs)
    else
      var o := Parsed(cs, packets[0]);
      if o.Panicked? then o else ParsedInTurn(o.channels, packets[1..])
  }

  /** The frames read from packets, each on its own, up to a panic if there is one. */
  function FramesIn(packets: seq<bytes>): Scan
    decreases |packets|
  {
    if packets == [] then Scan([], false)
    else
      var first, later := Scanned(packets[0]), FramesIn(packets[1..]);
      if first.panicked then first else Scan(first.frames + later.frames, later.panicked)
  }

  /** Whatever the packets hold, the outcome is that of the frames which each of them yields on its own. */
  lemma {:induction false} PacketsYieldTheirFrames(cs: Channels, packets: seq<bytes>)
    requires AllConsistent(cs)
    ensures var s := FramesIn(packets);
      var o := Demuxed(cs, s.frames);
      ParsedInTurn(cs, packets) == if s.panicked then Panicked(o.channels) else o
    decreases |packets|
  {
    hide Demuxed, Scanned;
    if packets == [] {
      NothingDemuxed(cs);
    } else {
      var o := Parsed(cs, packets[0]);
      PacketsYieldTheirFrames(o.channels, packets[1..]);
      DemuxedConcat(cs, Scanned(packets[0]).frames, FramesIn(packets[1..]).frames);
    }
  }

  lemma NothingDemuxed(cs: Channels)
    requires AllConsistent(cs)
    ensures Demuxed(cs, []) == Running(cs)
  {
  }

  function Joined(parts: seq<seq<Frame<Entries>>>): seq<Frame<Entries>> {
    if parts == [] then [] else parts[0] + Joined(parts[1..])
  }

  predicate PartsFit(parts: seq<seq<Frame<Entries>>>) {
    forall i | 0 <= i < |parts| :: FramesFit(parts[i])
  }

  function Packets(parts: seq<seq<Frame<Entries>>>): seq<bytes>
    requires PartsFit(parts)
  {
    seq(|parts|, i requires 0 <= i < |parts| => FramesBytes(parts[i]))
  }

  /** A stream cut into packets anywhere between frames parses as the uncut stream does. */
  lemma {:induction false} PacketsMakeOneStream(cs: Channels, parts: seq<seq<Frame<Entries>>>)
    requires AllConsistent(cs) && PartsFit(parts)
    ensures FramesFit(Joined(parts))
    ensures ParsedInTurn(cs, Packets(parts)) == Parsed(cs, FramesBytes(Joined(parts)))
    decreases |parts|
  {
    hide Parsed, FramesBytes;
    if parts == [] {
      NothingParses(cs);
    } else {
      var first, later := parts[0], parts[1..];
      var o := Parsed(cs, FramesBytes(first));
      assert Packets(parts)[1..] == Packets(later);
      PacketsMakeOneStream(o.channels, later);
      PacketsSplitAtFrames(cs, first, FramesBytes(Joined(later)));
      FramesBytesConcat(first, Joined(later));
    }
  }

  lemma NothingParses(cs: Channels)
    requires AllConsistent(cs)
    ensures Parsed(cs, FramesBytes([])) == Running(cs)
  {
  }

  lemma {:induction false} FramesBytesConcat(fs: seq<Frame<Entries>>, gs: seq<Frame<Entries>>)
    requires ValidFrames(fs) && ValidFrames(gs)
    ensures FramesBytes(fs + gs) == FramesBytes(fs) + FramesBytes(gs)
  {
    hide FrameBytes, ValidFrame;
    if fs == [] {
      assert fs + gs == gs;
    } else {
      FramesBytesConcat(fs[1..], gs);
      assert (fs + gs)[0] == fs[0] && (fs + gs)[1..] == fs[1..] + gs;
      var first, a, b := FrameBytes(fs[0]), FramesBytes(fs[1..]), FramesBytes(gs);
      assert FramesBytes(fs + gs) == first + (a + b);
      assert first + (a + b) == (first + a) + b;
    }
  }

  // ---------------------------------------------------------------- publications

  /** A method on its own, or one with content, whose body is sent in any number of chunks of any size. */
  datatype Publication =
    | BareMethod(command: Method<Entries>)
    | WithContent(command: Method<Entries>, classId: uint16, weight: uint16,
                  properties: Properties<Entries>, chunks: seq<bytes>)

  function Flat(chunks: seq<bytes>): bytes {
    if chunks == [] then [] else chunks[0] + Flat(chunks[1..])
  }

  /** A method is sent with content exactly when it is one of those that carry it. */
  predicate Proper(p: Publication) {
    && (p.WithContent? <==> CarriesContent(p.command.name))
    && (p.WithContent? ==> |Flat(p.chunks)| < 0x1_0000_0000_0000_0000)
  }

  predicate AllProper(ps: seq<Publication>) {
    forall i | 0 <= i < |ps| :: Proper(ps[i])
  }

  function BodyFrames<T>(c: uint16, chunks: seq<bytes>): (fs: seq<Frame<T>>)
    ensures |fs| == |chunks| && forall i | 0 <= i < |fs| :: fs[i] == BodyFrame(c, chunks[i])
  {
    if chunks == [] then [] else [BodyFrame(c, chunks[0])] + BodyFrames(c, chunks[1..])
  }

  /** The frames of one publication on channel c. */
  function FramesFor(c: uint16, p: Publication): seq<Frame<Entries>>
    requires Proper(p)
  {
    match p
    case BareMethod(m) => [MethodFrame(c, m)]
    case WithContent(m, classId, weight, properties, chunks) =>
      [MethodFrame(c, m), HeaderFrame(c, Header(classId, weight, |Flat(chunks)|, properties))]
      + BodyFrames(c, chunks)
  }

  function AllFramesFor(c: uint16, ps: seq<Publication>): seq<Frame<Entries>>
    requires AllProper(ps)
  {
    if ps == [] then [] else FramesFor(c, ps[0]) + AllFramesFor(c, ps[1..])
  }

  /** The message that the receiving channel should dispatch. */
  function Delivery(p: Publication): Message {
    match p
    case BareMethod(m) => Bare(MethodReadBack(m))
    case WithContent(m, _, _, properties, chunks) =>
      Content(MethodReadBack(m), ReadBack(properties), Flat(chunks))
  }

  function Deliveries(ps: seq<Publication>): seq<Message> {
    seq(|ps|, i requires 0 <= i < |ps| => Delivery(ps[i]))
  }

  // ---------------------------------------------------------------- one channel

  lemma RunFirst(s: State, f: Received, fs: seq<Received>)
    requires Consistent(s) && Expected(f) && AllExpected(fs)
    ensures AllExpected([f] + fs) && Run(s, [f] + fs) == Run(Step(s, f), fs)
  {
    assert Run(s, [f]) == Step(s, f) by {
      assert [f][..0] == [];
    }
    RunConcat(s, [f], fs);
  }

  lemma {:induction false} StrayBodiesAreDropped(s: State, c: uint16, chunks: seq<bytes>)
    requires s.recv == AwaitMethod
    ensures AllExpected(BodyFrames(c, chunks)) && Run(s, BodyFrames(c, chunks)) == s
  {
    if chunks != [] {
      StrayBodiesAreDropped(s, c, chunks[1..]);
      RunFirst(s, BodyFrame(c, chunks[0]), BodyFrames(c, chunks[1..]));
    }
  }

  /** Chunks that make up exactly what a message lacks complete it, empty ones included. */
  lemma {:induction false} ChunksComplete(s: State, c: uint16, chunks: seq<bytes>)
    requires Consistent(s) && s.recv == AwaitContent
    requires |s.body + Flat(chunks)| == s.header.value.size
    ensures AllExpected(BodyFrames(c, chunks))
    ensures var r := Run(s, BodyFrames(c, chunks));
      && r.recv == AwaitMethod
      && r.log == s.log + [Content(s.message.value, s.header.value.properties, s.body + Flat(chunks))]
    decreases |chunks|
  {
    var f: Received := BodyFrame(c, chunks[0]);
    var next := Step(s, f);
    assert s.body + Flat(chunks) == (s.body + chunks[0]) + Flat(chunks[1..]);
    if next.recv == AwaitContent {
      ChunksComplete(next, c, chunks[1..]);
    } else {
      assert s.body + chunks[0] == s.body + Flat(chunks);
      StrayBodiesAreDropped(next, c, chunks[1..]);
    }
    RunFirst(s, f, BodyFrames(c, chunks[1..]));
  }

  function ReceivedFrames(c: uint16, p: Publication): seq<Received>
    requires Proper(p)
  {
    match p
    case BareMethod(m) => [MethodFrame(c, MethodReadBack(m))]
    case WithContent(m, classId, weight, properties, chunks) =>
      [MethodFrame(c, MethodReadBack(m)),
       HeaderFrame(c, Header(classId, weight, |Flat(chunks)|, ReadBack(properties)))]
      + BodyFrames(c, chunks)
  }

  lemma ReadBackOfFrames(c: uint16, p: Publication)
    requires Proper(p)
    ensures FramesReadBack(FramesFor(c, p)) == ReceivedFrames(c, p)
  {
    var a, b := FramesReadBack(FramesFor(c, p)), ReceivedFrames(c, p);
    forall i | 0 <= i < |a| ensures a[i] == b[i] {
    }
  }

  /**
   Resynchronisation: whatever the channel was doing before, the frames of one publication make it
   dispatch exactly that message, and leave it idle.
   */
  lemma PublicationIsDelivered(s: State, c: uint16, p: Publication)
    requires Consistent(s) && Proper(p)
    ensures AllExpected(FramesReadBack(FramesFor(c, p)))
    ensures var r := Run(s, FramesReadBack(FramesFor(c, p)));
      r.recv == AwaitMethod && r.log == s.log + [Delivery(p)]
  {
    hide Run, FramesFor, ArgsReadBack, ReadBack, Flat, Step, CarriesContent;
    ReadBackOfFrames(c, p);
    var m: Received := MethodFrame(c, MethodReadBack(p.command));
    MethodStep(s, m);
    match p
    case BareMethod(_) =>
      RunFirst(s, m, []);
      NothingRuns(Step(s, m));
      assert [m] + [] == [m];
    case WithContent(_, classId, weight, properties, chunks) =>
      var s1 := Step(s, m);
      var h := Header(classId, weight, |Flat(chunks)|, ReadBack(properties));
      ContentIsDelivered(s1, c, h, chunks);
      var rest: seq<Received> := [HeaderFrame(c, h)] + BodyFrames(c, chunks);
      RunFirst(s, m, rest);
      assert [m] + rest == [m, HeaderFrame(c, h)] + BodyFrames(c, chunks);
  }

  /** A method frame is handled alike in every state. */
  lemma MethodStep(s: State, f: Received)
    requires Consistent(s) && f.MethodFrame?
    ensures Step(s, f) == RecvMethod(s, f)
  {
  }

  /** After its method, a header and its chunks make the message whole. */
  lemma ContentIsDelivered(s: State, c: uint16, h: Header<Table>, chunks: seq<bytes>)
    requires Consistent(s) && s.recv == AwaitHeader && h.size == |Flat(chunks)|
    ensures AllExpected([HeaderFrame(c, h)] + BodyFrames(c, chunks))
    ensures var r := Run(s, [HeaderFrame(c, h)] + BodyFrames(c, chunks));
      && r.recv == AwaitMethod
      && r.log == s.log + [Content(s.message.value, h.properties, Flat(chunks))]
  {
    hide Run;
    var f: Received := HeaderFrame(c, h);
    var next := Step(s, f);
    assert [] + Flat(chunks) == Flat(chunks);
    if next.recv == AwaitContent {
      ChunksComplete(next, c, chunks);
    } else {
      StrayBodiesAreDropped(next, c, chunks);
    }
    RunFirst(s, f, BodyFrames(c, chunks));
  }

  lemma {:induction false} PublicationsAreDelivered(s: State, c: uint16, ps: seq<Publication>)
    requires Consistent(s) && s.recv == AwaitMethod && AllProper(ps)
    ensures AllExpected(FramesReadBack(AllFramesFor(c, ps)))
    ensures var r := Run(s, FramesReadBack(AllFramesFor(c, ps)));
      r.recv == AwaitMethod && r.log == s.log + Deliveries(ps)
    decreases |ps|
  {
    hide Run, Delivery, FrameReadBack, FramesFor;
    if ps == [] {
      assert Deliveries(ps) == [];
      NothingRuns(s);
    } else {
      var first, rest := FramesReadBack(FramesFor(c, ps[0])), FramesReadBack(AllFramesFor(c, ps[1..]));
      PublicationIsDelivered(s, c, ps[0]);
      var s1 := Run(s, first);
      PublicationsAreDelivered(s1, c, ps[1..]);
      RunConcat(s, first, rest);
      assert FramesReadBack(AllFramesFor(c, ps)) == first + rest;
      assert Deliveries(ps) == [Delivery(ps[0])] + Deliveries(ps[1..]);
    }
  }

  lemma NothingRuns(s: State)
    requires Consistent(s)
    ensures FramesReadBack([]) == [] && Run(s, []) == s
  {
  }

  // ---------------------------------------------------------------- all channels

  lemma {:induction false} ProjectionOfReadBack(fs: seq<Frame<Entries>>, c: uint16)
    ensures Projection(FramesReadBack(fs), c) == FramesReadBack(Projection(fs, c))
  {
    if fs != [] {
      var front, f := fs[..|fs| - 1], fs[|fs| - 1];
      ProjectionOfReadBack(front, c);
      assert FramesReadBack(fs)[..|fs| - 1] == FramesReadBack(front);
      assert FramesReadBack(Projection(front, c) + [f]) == FramesReadBack(Projection(front, c)) + [FrameReadBack(f)];
      assert FramesReadBack(Projection(front, c) + []) == FramesReadBack(Projection(front, c));
    }
  }

  function PublishedOn(ps: map<uint16, seq<Publication>>, c: uint16): seq<Publication> {
    if c in ps then ps[c] else []
  }

  /** On every channel but 0, fs holds exactly the frames of that channel's publications, in order. */
  predicate Interleaves(fs: seq<Frame<Entries>>, ps: map<uint16, seq<Publication>>) {
    forall c: uint16 | c != 0 ::
      AllProper(PublishedOn(ps, c)) && Projection(fs, c) == AllFramesFor(c, PublishedOn(ps, c))
  }

  lemma {:induction false} InterleavedIsTolerated(fs: seq<Frame<Entries>>, c: uint16, f: Frame<Entries>)
    requires f in fs && f.channel == c
    ensures f in Projection(fs, c)
  {
    if f != fs[|fs| - 1] {
      assert f in fs[..|fs| - 1];
      InterleavedIsTolerated(fs[..|fs| - 1], c, f);
    }
  }

  /**
   End to end: any publications on any channels, their bodies cut into any chunks and their frames
   interleaved in any way that keeps each channel's order, with anything at all on channel 0, are
   written to octets; parsing those on a new connection makes every channel dispatch exactly its
   own messages, in order and whole.
   */
  lemma MessagesArrive(fs: seq<Frame<Entries>>, ps: map<uint16, seq<Publication>>, c: uint16)
    requires FramesFit(fs) && Interleaves(fs, ps) && c != 0
    ensures var o := Parsed(map[], FramesBytes(fs));
      && o.Running?
      && StateOf(o.channels, c).log == Deliveries(PublishedOn(ps, c))
      && StateOf(o.channels, c).recv == AwaitMethod
  {
    hide Demuxed, Scanned, Run, Interleaves, Deliveries;
    ScannedWhole(fs);
    ReadFramesAreDispatched(fs, ps, c);
  }

  /** The frames as they are read, without the octets. */
  lemma ReadFramesAreDispatched(fs: seq<Frame<Entries>>, ps: map<uint16, seq<Publication>>, c: uint16)
    requires Interleaves(fs, ps) && c != 0
    ensures var o := Demuxed(map[], FramesReadBack(fs));
      && o.Running?
      && StateOf(o.channels, c).log == Deliveries(PublishedOn(ps, c))
      && StateOf(o.channels, c).recv == AwaitMethod
  {
    hide Demuxed, Run;
    var rs := FramesReadBack(fs);
    forall i | 0 <= i < |rs| ensures Tolerated(rs[i]) {
      if rs[i].channel != 0 {
        PublishedFramesAreExpected(fs, ps, i);
      }
    }
    ChannelsAreIsolated(map[], rs, c);
    ProjectionOfReadBack(fs, c);
    PublicationsAreDelivered(FRESH, c, PublishedOn(ps, c));
    assert [] + Deliveries(PublishedOn(ps, c)) == Deliveries(PublishedOn(ps, c));
  }

  lemma PublishedFramesAreExpected(fs: seq<Frame<Entries>>, ps: map<uint16, seq<Publication>>, i: nat)
    requires Interleaves(fs, ps) && i < |fs| && fs[i].channel != 0
    ensures Expected(FrameReadBack(fs[i]))
  {
    var c := fs[i].channel;
    InterleavedIsTolerated(fs, c, fs[i]);
    NoHeartbeats(c, PublishedOn(ps, c), fs[i]);
  }

  lemma {:induction false} NoHeartbeats(c: uint16, ps: seq<Publication>, f: Frame<Entries>)
    requires AllProper(ps) && f in AllFramesFor(c, ps)
    ensures !f.HeartbeatFrame?
  {
    if f !in FramesFor(c, ps[0]) {
      NoHeartbeats(c, ps[1..], f);
    }
  }

  lemma {:induction false} ProjectionOfOneChannel(fs: seq<Frame<Entries>>, c: uint16, d: uint16)
    requires forall i | 0 <= i < |fs| :: fs[i].channel == c
    ensures Projection(fs, d) == if d == c then fs else []
  {
    if fs != [] {
      ProjectionOfOneChannel(fs[..|fs| - 1], c, d);
      assert fs == fs[..|fs| - 1] + [fs[|fs| - 1]];
    }
  }

  predicate AllPublishable(ps: map<uint16, seq<Publication>>)
    ensures AllPublishable(ps) ==> forall c :: AllProper(PublishedOn(ps, c))
  {
    forall c | c in ps :: AllProper(ps[c])
  }

  lemma {:induction false} OneChannelAfterAnother(cs: seq<uint16>, ps: map<uint16, seq<Publication>>, d: uint16)
    requires AllPublishable(ps)
    requires forall i, j | 0 <= i < j < |cs| :: cs[i] != cs[j]
    ensures Projection(InTurn(cs, ps), d) == if d in cs then AllFramesFor(d, PublishedOn(ps, d)) else []
  {
    hide AllFramesFor, AllPublishable, AllProper, PublishedOn, Projection;
    if cs == [] {
      ProjectionOfOneChannel([], d, d);
    } else {
      var n := |cs| - 1;
      var own := AllFramesFor(cs[n], PublishedOn(ps, cs[n]));
      OneChannelAfterAnother(cs[..n], ps, d);
      OwnChannel(cs[n], PublishedOn(ps, cs[n]));
      ProjectionOfOneChannel(own, cs[n], d);
      var before := InTurn(cs[..n], ps);
      ProjectionConcat(before, own, d);
      assert InTurn(cs, ps) == before + own;
      if d == cs[n] {
        assert d !in cs[..n];
        assert Projection(before, d) == [] && [] + own == own;
      } else {
        assert d in cs <==> d in cs[..n];
        assert Projection(before, d) + [] == Projection(before, d);
      }
    }
  }

  /** The publications of the channels cs, one channel after the other. */
  function InTurn(cs: seq<uint16>, ps: map<uint16, seq<Publication>>): seq<Frame<Entries>>
    requires AllPublishable(ps)
  {
    if cs == [] then []
    else InTurn(cs[..|cs| - 1], ps) + AllFramesFor(cs[|cs| - 1], PublishedOn(ps, cs[|cs| - 1]))
  }

  lemma {:induction false} OwnChannel(c: uint16, ps: seq<Publication>)
    requires AllProper(ps)
    ensures forall i | 0 <= i < |AllFramesFor(c, ps)| :: AllFramesFor(c, ps)[i].channel == c
  {
    if ps != [] {
      OwnChannel(c, ps[1..]);
    }
  }

  lemma {:induction false} ProjectionConcat(a: seq<Frame<Entries>>, b: seq<Frame<Entries>>, c: uint16)
    ensures Projection(a + b, c) == Projection(a, c) + Projection(b, c)
  {
    if b == [] {
      assert a + b == a;
    } else {
      ProjectionConcat(a, b[..|b| - 1], c);
      assert (a + b)[..|a + b| - 1] == a + b[..|b| - 1];
    }
  }

  /** Any publications on any channels have an interleaving: one channel after the other is one. */
  lemma SomeInterleaving(cs: seq<uint16>, ps: map<uint16, seq<Publication>>)
    requires AllPublishable(ps)
    requires forall i, j | 0 <= i < j < |cs| :: cs[i] != cs[j]
    requires forall c | c in ps :: c in cs
    ensures Interleaves(InTurn(cs, ps), ps)
  {
    forall c: uint16 | c != 0
      ensures AllProper(PublishedOn(ps, c)) && Projection(InTurn(cs, ps), c) == AllFramesFor(c, PublishedOn(ps, c))
    {
      OneChannelAfterAnother(cs, ps, c);
    }
  }
}
