/**
 The parser over many packets of many connections: a connection is looked up by the client's port
 alone, is kept from one packet to the next, and is not affected by the packets of other ports.
 */
module Sessions {
  import opened Bytes
  import opened FieldValues
  import opened Frames
  import opened Reassembly
  import opened Demultiplexing
  import opened EndToEnd
  import opened Truncation

  datatype Endpoint = Endpoint(host: string, port: string)

  datatype Packet = Packet(server: Endpoint, client: Endpoint, data: bytes)

  /** A connection with the endpoints of the packet that opened it. */
  datatype Session = Session(server: Endpoint, client: Endpoint, channels: Channels)

  type Sessions = map<string, Session>

  predicate AllSound(ss: Sessions) {
    forall port | port in ss :: AllConsistent(ss[port].channels)
  }

  /** getConnection. */
  function Opened(ss: Sessions, server: Endpoint, client: Endpoint): Session {
    if client.port in ss then ss[client.port] else Session(server, client, map[])
  }

  datatype Progress = Going(sessions: Sessions) | Crashed(sessions: Sessions)

  function ParsePacket(ss: Sessions, p: Packet): (r: Progress)
    requires AllSound(ss)
    ensures AllSound(r.sessions)
  {
    var s := Opened(ss, p.server, p.client);
    var o := Parsed(s.channels, p.data);
    var ss' := ss[p.client.port := s.(channels := o.channels)];
    if o.Running? then Going(ss') else Crashed(ss')
  }

  function ParsePackets(ss: Sessions, ps: seq<Packet>): (r: Progress)
    requires AllSound(ss)
    ensures AllSound(r.sessions)
  {
    if ps == [] then Going(ss)
    else
      var r := ParsePackets(ss, ps[..|ps| - 1]);
      if r.Crashed? then r else ParsePacket(r.sessions, ps[|ps| - 1])
  }

  /** The data of the packets from one client port, in order. */
  function PacketsOf(ps: seq<Packet>, port: string): seq<bytes> {
    if ps == [] then []
    else
      var last := ps[|ps| - 1];
      PacketsOf(ps[..|ps| - 1], port) + (if last.client.port == port then [last.data] else [])
  }

  function ChannelsOf(ss: Sessions, port: string): (cs: Channels)
    requires AllSound(ss)
    ensures AllConsistent(cs)
  {
    if port in ss then ss[port].channels else map[]
  }

  lemma {:induction false} OnePacketMore(cs: Channels, ds: seq<bytes>, d: bytes)
    requires AllConsistent(cs)
    ensures var o := ParsedInTurn(cs, ds);
      ParsedInTurn(cs, ds + [d]) == if o.Panicked? then o else Parsed(o.channels, d)
    decreases |ds|
  {
    hide Parsed;
    if ds == [] {
      var all := ds + [d];
      assert all[0] == d && all[1..] == [];
      var o := Parsed(cs, d);
      assert o.Running? ==> ParsedInTurn(o.channels, []) == o;
    } else {
      var o := Parsed(cs, ds[0]);
      assert (ds + [d])[0] == ds[0] && (ds + [d])[1..] == ds[1..] + [d];
      OnePacketMore(o.channels, ds[1..], d);
    }
  }

  /** Each port's channels are what its own packets make of them, one after the other. */
  lemma {:induction false} SessionsAreIsolated(ss: Sessions, ps: seq<Packet>, port: string)
    requires AllSound(ss) && ParsePackets(ss, ps).Going?
    ensures var ss' := ParsePackets(ss, ps).sessions;
      && ParsedInTurn(ChannelsOf(ss, port), PacketsOf(ps, port)) == Running(ChannelsOf(ss', port))
      && (port in ss' <==> port in ss || PacketsOf(ps, port) != [])
  {
    hide Parsed;
    if ps != [] {
      var front, last := ps[..|ps| - 1], ps[|ps| - 1];
      SessionsAreIsolated(ss, front, port);
      if last.client.port == port {
        OnePacketMore(ChannelsOf(ss, port), PacketsOf(front, port), last.data);
      } else {
        assert PacketsOf(ps, port) == PacketsOf(front, port);
      }
    }
  }

  /** The parser as a whole panics exactly when the packets of some one port would make it. */
  lemma {:induction false} CrashesExactlyWhenAPortDoes(ss: Sessions, ps: seq<Packet>)
    requires AllSound(ss)
    ensures ParsePackets(ss, ps).Crashed?
      <==> exists port :: ParsedInTurn(ChannelsOf(ss, port), PacketsOf(ps, port)).Panicked?
  {
    hide Parsed, ParsedInTurn;
    if ParsePackets(ss, ps).Crashed? {
      var port := CrashingPort(ss, ps);
    } else {
      forall port ensures !ParsedInTurn(ChannelsOf(ss, port), PacketsOf(ps, port)).Panicked? {
        SessionsAreIsolated(ss, ps, port);
      }
    }
  }

  lemma {:induction false} CrashingPort(ss: Sessions, ps: seq<Packet>) returns (port: string)
    requires AllSound(ss) && ParsePackets(ss, ps).Crashed?
    ensures ParsedInTurn(ChannelsOf(ss, port), PacketsOf(ps, port)).Panicked?
  {
    hide Parsed, ParsedInTurn;
    var front, last := ps[..|ps| - 1], ps[|ps| - 1];
    if ParsePackets(ss, front).Crashed? {
      port := CrashingPort(ss, front);
    } else {
      port := last.client.port;
      SessionsAreIsolated(ss, front, port);
    }
    OnePacketMore(ChannelsOf(ss, port), PacketsOf(front, port), last.data);
    assert PacketsOf(front, port) + [] == PacketsOf(front, port);
  }

  /** A connection keeps the endpoints of its first packet, whichever hosts its later ones name. */
  lemma {:induction false} EndpointsAreThoseOfTheFirstPacket(ss: Sessions, ps: seq<Packet>, i: nat)
    requires AllSound(ss) && ParsePackets(ss, ps).Going? && i < |ps| && ps[i].client.port !in ss
    requires forall j | 0 <= j < i :: ps[j].client.port != ps[i].client.port
    ensures var ss' := ParsePackets(ss, ps).sessions;
      && ps[i].client.port in ss'
      && ss'[ps[i].client.port].server == ps[i].server
      && ss'[ps[i].client.port].client == ps[i].client
  {
    hide Parsed;
    var front, port := ps[..|ps| - 1], ps[i].client.port;
    if i < |ps| - 1 {
      EndpointsAreThoseOfTheFirstPacket(ss, front, i);
    } else {
      SessionsAreIsolated(ss, front, port);
      NoPackets(front, port);
    }
  }

  lemma {:induction false} NoPackets(ps: seq<Packet>, port: string)
    requires forall j | 0 <= j < |ps| :: ps[j].client.port != port
    ensures PacketsOf(ps, port) == []
  {
    if ps != [] {
      NoPackets(ps[..|ps| - 1], port);
    }
  }

  /**
   What is read of a port's packets are the frames fs, which interleave publications. So it is, for
   one, when every packet holds whole frames, or those and the beginning of one more.
   */
  predicate Streams(data: seq<bytes>, fs: seq<Frame<Entries>>, pubs: map<uint16, seq<Publication>>) {
    FramesIn(data) == Scan(FramesReadBack(fs), false) && Interleaves(fs, pubs)
  }

  lemma PacketsStreamTheirFrames(
      data: seq<bytes>, parts: seq<seq<Frame<Entries>>>, pubs: map<uint16, seq<Publication>>)
    requires PartsFit(parts) && AllHold(data, parts) && Interleaves(Joined(parts), pubs)
    ensures Streams(data, Joined(parts), pubs)
  {
    OnlyWholeFramesCount(data, parts);
  }

  /**
   End to end for the parser: packets of any number of connections, in any order that keeps each
   connection's own, make every channel of every connection dispatch exactly its own messages.
   */
  lemma MessagesArriveInPackets(
      ps: seq<Packet>, frames: map<string, seq<Frame<Entries>>>,
      pubs: map<string, map<uint16, seq<Publication>>>, port: string, c: uint16)
    requires forall q :: PacketsOf(ps, q) != [] ==> q in frames && q in pubs && Streams(PacketsOf(ps, q), frames[q], pubs[q])
    requires port in pubs && port in frames && Streams(PacketsOf(ps, port), frames[port], pubs[port]) && c != 0
    ensures var r := ParsePackets(map[], ps);
      && r.Going?
      && StateOf(ChannelsOf(r.sessions, port), c).log == Deliveries(PublishedOn(pubs[port], c))
      && StateOf(ChannelsOf(r.sessions, port), c).recv == AwaitMethod
  {
    hide Parsed, ParsedInTurn, Streams, Deliveries;
    forall q ensures ParsedInTurn(map[], PacketsOf(ps, q)).Running? {
      if PacketsOf(ps, q) == [] {
        NothingInTurn();
      } else {
        StreamArrives(PacketsOf(ps, q), frames[q], pubs[q], c);
      }
    }
    CrashesExactlyWhenAPortDoes(map[], ps);
    SessionsAreIsolated(map[], ps, port);
    StreamArrives(PacketsOf(ps, port), frames[port], pubs[port], c);
  }

  lemma NothingInTurn()
    ensures ParsedInTurn(map[], []) == Running(map[])
  {
  }

  lemma StreamArrives(
      data: seq<bytes>, fs: seq<Frame<Entries>>, pubs: map<uint16, seq<Publication>>, c: uint16)
    requires Streams(data, fs, pubs) && c != 0
    ensures var o := ParsedInTurn(map[], data);
      && o.Running?
      && StateOf(o.channels, c).log == Deliveries(PublishedOn(pubs, c))
      && StateOf(o.channels, c).recv == AwaitMethod
  {
    hide Demuxed, FramesIn, Interleaves, Deliveries;
    PacketsYieldTheirFrames(map[], data);
    ReadFramesAreDispatched(fs, pubs, c);
  }
}
