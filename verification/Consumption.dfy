/** From the octets of publications to the consumers of their deliveries. */
module Consumption {
  import opened Bytes
  import opened FieldValues
  import opened Frames
  import opened Reassembly
  import opened Demultiplexing
  import opened EndToEnd
  import opened TypedMessages
  import Sessions
  import Consumers
  import opened Dispatching
  import Overtaking
  import Renewal

  /**
   However a channel dispatches these messages and its buffers are scheduled: what a tag's buffers
   received, the delivery in hand and those to come are the tag's deliveries in order; when all are
   dispatched and all queues empty, all have been sent on; and they leave in that order unless the
   messages renew the tag's consumer.
   */
  ghost predicate ReachConsumers(log: seq<Message>)
    requires TypedMessages.AllSound(log)
  {
    forall moves, w, t | Reaches(Start(log), moves, w) :: Kept(log, moves, w, t)
  }

  predicate Kept(log: seq<Message>, moves: seq<Move>, w: World, t: Consumers.Tag)
    requires TypedMessages.AllSound(log)
  {
    var bs := w.consumers.buffers;
    && TypedMessages.AllSound(w.todo)
    && ReceivedBy(bs, t) + Pending(w.consumers, t) + DeliveriesFor(w.todo, t) == DeliveriesFor(log, t)
    && (w.todo == [] && w.consumers.lock == Consumers.Free && (forall i | 0 <= i < |bs| :: bs[i].queue == [])
        ==> SentBy(bs, t) == DeliveriesFor(log, t))
    && (!Renewal.Renews(log, t) ==> Overtaking.Timeline(Start(log), moves, t) <= DeliveriesFor(log, t))
  }

  lemma SoundMessagesReachConsumers(log: seq<Message>)
    requires TypedMessages.AllSound(log)
    ensures ReachConsumers(log)
  {
    hide Reaches, Kept, TypedMessages.AllSound;
    forall moves, w, t | Reaches(Start(log), moves, w) ensures Kept(log, moves, w, t) {
      RunIsKept(log, moves, w, t);
    }
  }

  lemma RunIsKept(log: seq<Message>, moves: seq<Move>, w: World, t: Consumers.Tag)
    requires TypedMessages.AllSound(log) && Reaches(Start(log), moves, w)
    ensures Kept(log, moves, w, t)
  {
    hide Reaches, ReceivedBy, SentBy, DeliveriesFor, Sound, Renewal.Renews, Overtaking.Timeline;
    DeliveriesReachTheirConsumers(log, moves, w, t);
    if !Renewal.Renews(log, t) {
      Renewal.UnrenewedLeaveInOrder(log, moves, w, t);
    }
  }

  /**
   Publications written to octets and parsed: every channel dispatches exactly its own messages, and
   their deliveries reach their consumers.
   */
  lemma PublicationsReachConsumers(fs: seq<Frame<Entries>>, ps: map<uint16, seq<Publication>>, c: uint16)
    requires FramesFit(fs) && Interleaves(fs, ps) && c != 0
    ensures var log := StateOf(Parsed(map[], FramesBytes(fs)).channels, c).log;
      && log == Deliveries(PublishedOn(ps, c))
      && TypedMessages.AllSound(log) && ReachConsumers(log)
  {
    hide Parsed, Interleaves, Deliveries, FramesFit, TypedMessages.AllSound;
    MessagesArrive(fs, ps, c);
    NothingIsSound();
    DispatchedMessagesAreSound(map[], FramesBytes(fs), c);
    SoundMessagesReachConsumers(StateOf(Parsed(map[], FramesBytes(fs)).channels, c).log);
  }

  lemma NothingIsSound()
    ensures AllConsistent(map[]) && SoundChannels(map[])
  {
  }

  lemma {:induction false} PacketsKeepSound(cs: Channels, packets: seq<bytes>)
    requires AllConsistent(cs) && SoundChannels(cs)
    ensures SoundChannels(ParsedInTurn(cs, packets).channels)
    decreases |packets|
  {
    hide Parsed, SoundChannels;
    if packets != [] {
      DispatchedMessagesAreSound(cs, packets[0], 0);
      PacketsKeepSound(Parsed(cs, packets[0]).channels, packets[1..]);
    }
  }

  /** The same for packets of any number of connections, each read as the frames of its publications. */
  lemma PacketsReachConsumers(
      ps: seq<Sessions.Packet>, frames: map<string, seq<Frame<Entries>>>,
      pubs: map<string, map<uint16, seq<Publication>>>, port: string, c: uint16)
    requires forall q :: Sessions.PacketsOf(ps, q) != [] ==>
      q in frames && q in pubs && Sessions.Streams(Sessions.PacketsOf(ps, q), frames[q], pubs[q])
    requires port in pubs && port in frames && c != 0
    requires Sessions.Streams(Sessions.PacketsOf(ps, port), frames[port], pubs[port])
    ensures var r := Sessions.ParsePackets(map[], ps);
      && r.Going?
      && var log := StateOf(Sessions.ChannelsOf(r.sessions, port), c).log;
      && log == Deliveries(PublishedOn(pubs[port], c))
      && TypedMessages.AllSound(log) && ReachConsumers(log)
  {
    hide ParsedInTurn, Deliveries, Sessions.Streams, Sessions.ParsePackets, TypedMessages.AllSound;
    Sessions.MessagesArriveInPackets(ps, frames, pubs, port, c);
    Sessions.SessionsAreIsolated(map[], ps, port);
    NothingIsSound();
    PacketsKeepSound(map[], Sessions.PacketsOf(ps, port));
    var log := StateOf(Sessions.ChannelsOf(Sessions.ParsePackets(map[], ps).sessions, port), c).log;
    LogIsSound(Sessions.ChannelsOf(Sessions.ParsePackets(map[], ps).sessions, port), c);
    SoundMessagesReachConsumers(log);
  }

  lemma LogIsSound(cs: Channels, c: uint16)
    requires AllConsistent(cs) && SoundChannels(cs)
    ensures TypedMessages.AllSound(StateOf(cs, c).log)
  {
  }
}
