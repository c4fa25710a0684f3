/** Frames of many channels on one connection: channels made on first use, and kept apart. */
module Demultiplexing {
  import opened Bytes
  import opened Frames
  import opened Reassembly

  type Channels = map<uint16, State>

  predicate AllConsistent(cs: Channels) {
    forall c | c in cs :: Consistent(cs[c])
  }

  /** A heartbeat is only expected on channel 0; elsewhere it reaches the channel, which panics. */
  predicate Tolerated(f: Received) {
    f.channel == 0 || Expected(f)
  }

  predicate AllTolerated(fs: seq<Received>) {
    forall i | 0 <= i < |fs| :: Tolerated(fs[i])
  }

  function StateOf(cs: Channels, c: uint16): (s: State)
    requires AllConsistent(cs)
    ensures Consistent(s)
  {
    if c in cs then cs[c] else FRESH
  }

  datatype Outcome = Running(channels: Channels) | Panicked(channels: Channels)

  /** One frame: channel 0 goes to the connection itself, a new channel is made for a new number. */
  function Demux(cs: Channels, f: Received): (o: Outcome)
    requires AllConsistent(cs)
    ensures AllConsistent(o.channels)
  {
    if f.channel == 0 then Running(cs)
    else if !Expected(f) then Panicked(cs[f.channel := StateOf(cs, f.channel)])
    else Running(cs[f.channel := Step(StateOf(cs, f.channel), f)])
  }

  function Demuxed(cs: Channels, fs: seq<Received>): (o: Outcome)
    requires AllConsistent(cs)
    ensures AllConsistent(o.channels)
  {
    if fs == [] then Running(cs)
    else
      var o := Demuxed(cs, fs[..|fs| - 1]);
      if o.Panicked? then o else Demux(o.channels, fs[|fs| - 1])
  }

  /** The frames of one channel, in order. */
  function Projection<T>(fs: seq<Frame<T>>, c: uint16): seq<Frame<T>> {
    if fs == [] then []
    else Projection(fs[..|fs| - 1], c) + (if fs[|fs| - 1].channel == c then [fs[|fs| - 1]] else [])
  }

  lemma {:induction false} ProjectionIsExpected(fs: seq<Received>, c: uint16)
    requires AllTolerated(fs) && c != 0
    ensures AllExpected(Projection(fs, c))
  {
    if fs != [] {
      ProjectionIsExpected(fs[..|fs| - 1], c);
    }
  }

  /** The run panics exactly when some other channel than 0 is sent a heartbeat. */
  lemma {:induction false} PanicsExactlyOnStrayHeartbeats(cs: Channels, fs: seq<Received>)
    requires AllConsistent(cs)
    ensures Demuxed(cs, fs).Panicked? <==> !AllTolerated(fs)
  {
    if fs != [] {
      PanicsExactlyOnStrayHeartbeats(cs, fs[..|fs| - 1]);
      assert fs == fs[..|fs| - 1] + [fs[|fs| - 1]];
    }
  }

  /**
   Isolation: however the frames of the channels interleave, every channel ends as if it had been
   alone on the connection, and the channels in use are the old ones and those addressed.
   */
  lemma {:induction false} ChannelsAreIsolated(cs: Channels, fs: seq<Received>, c: uint16)
    requires AllConsistent(cs) && AllTolerated(fs) && c != 0
    ensures AllExpected(Projection(fs, c))
    ensures var o := Demuxed(cs, fs);
      && o.Running?
      && StateOf(o.channels, c) == Run(StateOf(cs, c), Projection(fs, c))
      && (c in o.channels <==> c in cs || Projection(fs, c) != [])
  {
    ProjectionIsExpected(fs, c);
    if fs != [] {
      var front, f := fs[..|fs| - 1], fs[|fs| - 1];
      ChannelsAreIsolated(cs, front, c);
      if f.channel == c {
        RunOneMore(StateOf(cs, c), Projection(front, c), f);
      } else {
        assert Projection(fs, c) == Projection(front, c);
      }
    }
  }

  lemma RunOneMore(s: State, fs: seq<Received>, f: Received)
    requires Consistent(s) && AllExpected(fs) && Expected(f)
    ensures AllExpected(fs + [f]) && Run(s, fs + [f]) == Step(Run(s, fs), f)
  {
    assert (fs + [f])[..|fs|] == fs;
  }

  /** Channel 0 is never given a state. */
  lemma {:induction false} ChannelZeroIsApart(cs: Channels, fs: seq<Received>)
    requires AllConsistent(cs)
    ensures (0 in Demuxed(cs, fs).channels <==> 0 in cs) && (0 in cs ==> Demuxed(cs, fs).channels[0] == cs[0])
  {
    if fs != [] {
      ChannelZeroIsApart(cs, fs[..|fs| - 1]);
    }
  }

  /** Frames of different channels commute. */
  lemma FramesOfDifferentChannelsCommute(cs: Channels, f: Received, g: Received)
    requires AllConsistent(cs) && Tolerated(f) && Tolerated(g) && f.channel != g.channel
    ensures Demuxed(cs, [f, g]) == Demuxed(cs, [g, f])
  {
    hide Demuxed, Demux;
    Pair(cs, f, g);
    Pair(cs, g, f);
    DemuxesCommute(cs, f, g);
  }

  lemma DemuxesCommute(cs: Channels, f: Received, g: Received)
    requires AllConsistent(cs) && Tolerated(f) && Tolerated(g) && f.channel != g.channel
    requires Demux(cs, f).Running? && Demux(cs, g).Running?
    ensures Demux(Demux(cs, f).channels, g) == Demux(Demux(cs, g).channels, f)
  {
    hide Step, Consistent;
    var fs, gs := Demux(cs, f).channels, Demux(cs, g).channels;
    assert StateOf(fs, g.channel) == StateOf(cs, g.channel) && StateOf(gs, f.channel) == StateOf(cs, f.channel);
    if f.channel != 0 && g.channel != 0 {
      var s, t := Step(StateOf(cs, f.channel), f), Step(StateOf(cs, g.channel), g);
      UpdatesCommute(cs, f.channel, s, g.channel, t);
    }
  }

  lemma UpdatesCommute(cs: Channels, c: uint16, s: State, d: uint16, t: State)
    requires c != d
    ensures cs[c := s][d := t] == cs[d := t][c := s]
  {
  }

  lemma Pair(cs: Channels, f: Received, g: Received)
    requires AllConsistent(cs) && Tolerated(f) && Tolerated(g)
    ensures Demux(cs, f).Running? && Demuxed(cs, [f, g]) == Demux(Demux(cs, f).channels, g)
  {
    assert [f, g][..1] == [f] && [f][..0] == [];
    assert Demuxed(cs, []) == Running(cs);
    assert Demuxed(cs, [f]) == Demux(cs, f);
  }

  lemma {:induction false} DemuxedConcat(cs: Channels, a: seq<Received>, b: seq<Received>)
    requires AllConsistent(cs)
    ensures var o := Demuxed(cs, a);
      Demuxed(cs, a + b) == if o.Panicked? then o else Demuxed(o.channels, b)
  {
    if b == [] {
      assert a + b == a;
    } else {
      DemuxedConcat(cs, a, b[..|b| - 1]);
      assert (a + b)[..|a + b| - 1] == a + b[..|b| - 1];
    }
  }
}
