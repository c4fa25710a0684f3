/** The connection object: it makes channels on first use and drives them from a reader. */
module Connections {
  import opened Bytes
  import opened Streams
  import opened Frames
  import opened Reassembly
  import opened Demultiplexing
  import opened EndToEnd
  import opened Sessions
  import opened Readers
  import opened FrameReaders
  import Channels

  /** Where the loop of Parse stands after one more read. */
  lemma ParsedNext(cs: Demultiplexing.Channels, w: bytes)
    requires AllConsistent(cs)
    ensures var r := ReadFrame(w);
      Parsed(cs, w) ==
      if r.Got? then
        var o := Demux(cs, r.value);
        if o.Panicked? then o else Parsed(o.channels, w[r.used..])
      else if r.error == EndOfFile then Running(cs)
      else if r.error == NegativeLength then Panicked(cs)
      else Parsed(cs, w[r.used..])
  {
    hide ReadFrame, Demux;
    var r := ReadFrame(w);
    if r.Got? {
      var rest := Scanned(w[r.used..]).frames;
      OneDemuxed(cs, r.value);
      DemuxedConcat(cs, [r.value], rest);
    }
  }

  lemma OneDemuxed(cs: Demultiplexing.Channels, f: Received)
    requires AllConsistent(cs)
    ensures Demuxed(cs, [f]) == Demux(cs, f)
  {
    hide Demux;
    assert [f][..0] == [];
    assert Demuxed(cs, []) == Running(cs);
  }

  lemma Replaced<K, V>(m: map<K, V>, k: K, before: V, after: V)
    ensures m[k := before][k := after] == m[k := after]
  {
  }

  class Connection {
    const server: Endpoint
    const client: Endpoint
    var channels: map<uint16, Channels.Channel>
    ghost var Repr: set<object>

    /** Every channel has its own objects. */
    ghost predicate Valid()
      reads this, Repr
      ensures Valid() ==> this in Repr
    {
      && this in Repr
      && (forall c | c in channels ::
            && channels[c] in Repr && channels[c].Repr <= Repr && this !in channels[c].Repr && channels[c].Valid())
      && (forall c, d | c in channels && d in channels && c != d :: channels[c].Repr !! channels[d].Repr)
    }

    ghost function View(): (cs: Demultiplexing.Channels)
      requires Valid()
      reads this, Repr
      ensures AllConsistent(cs)
    {
      map c | c in channels :: channels[c].Current()
    }

    constructor (server: Endpoint, client: Endpoint)
      ensures Valid() && fresh(Repr) && View() == map[]
      ensures this.server == server && this.client == client
    {
      this.server, this.client := server, client;
      channels := map[];
      Repr := {this};
    }

    /** demux, with dispatchN and dispatchClosed. */
    method Demux(f: Received) returns (panicked: bool)
      requires Valid()
      modifies Repr
      ensures Valid() && fresh(Repr - old(Repr))
      ensures var o := Demultiplexing.Demux(old(View()), f);
        panicked == o.Panicked? && View() == o.channels
    {
      hide Step, Consistent, Channels.Channel.Valid, Channels.Channel.Current;
      panicked := false;
      if f.channel != 0 {
        OpenChannel(f.channel);
        ghost var before := View();
        panicked := Deliver(f);
        ghost var after := View()[f.channel];
        assert View() == before[f.channel := after];
        Replaced(old(View()), f.channel, StateOf(old(View()), f.channel), after);
      }
    }

    /** A channel number seen for the first time gets a new channel. */
    method OpenChannel(id: uint16)
      requires Valid()
      modifies this
      ensures Valid() && fresh(Repr - old(Repr)) && id in channels
      ensures View() == old(View())[id := StateOf(old(View()), id)]
    {
      hide Step, Consistent, Channels.Channel.Valid, Channels.Channel.Current;
      if id !in channels {
        var channel := new Channels.Channel();
        channels := channels[id := channel];
        Repr := Repr + {channel} + channel.Repr;
      }
    }

    method Deliver(f: Received) returns (panicked: bool)
      requires Valid() && f.channel in channels
      modifies Repr
      ensures Valid() && fresh(Repr - old(Repr))
      ensures panicked <==> !Expected(f)
      ensures channels == old(channels)
      ensures forall c | c in channels && c != f.channel :: channels[c].Current() == old(channels[c].Current())
      ensures channels[f.channel].Current()
        == if panicked then old(channels[f.channel].Current()) else Step(old(channels[f.channel].Current()), f)
    {
      hide Step, Consistent, Channels.Channel.Valid, Channels.Channel.Current;
      var channel := channels[f.channel];
      panicked := channel.Receive(f);
      Repr := Repr + channel.Repr;
    }

    /** Parse: it ends with the data, or panics; every read that succeeds is demultiplexed. */
    method Parse(data: bytes) returns (panicked: bool)
      requires Valid()
      modifies Repr
      ensures Valid() && fresh(Repr - old(Repr))
      ensures var o := Parsed(old(View()), data);
        panicked == o.Panicked? && View() == o.channels
    {
      hide Parsed, ReadFrame, Valid, View, AllConsistent;
      var r := new Reader(data);
      while true
        invariant Valid() && fresh(Repr - old(Repr)) && r.Valid() && fresh(r) && r !in Repr
        invariant Parsed(View(), r.Window()) == Parsed(old(View()), data)
        decreases |r.Window()|
      {
        ParsedNext(View(), r.Window());
        var frame := ReadOneFrame(r);
        if frame.Success? {
          panicked := Demux(frame.value);
          if panicked {
            return;
          }
        } else if frame.error == EndOfFile {
          return false;
        } else if frame.error == NegativeLength {
          return true;
        }
      }
    }
  }
}
