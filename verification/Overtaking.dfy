/**
 The order in which the deliveries of one tag leave, in time. Each consumer channel sees its own in
 order; a renewed consumer may overtake the queue of the one that was cancelled, and only that.
 */
module Overtaking {
  import opened Methods
  import Reassembly
  import opened TypedMessages
  import opened Consumers
  import opened Dispatching

  type Message = Reassembly.Message

  /** A buffer sends on while an earlier one of the same tag still has deliveries queued. */
  predicate Overtakes(s: Registry, move: Move, t: Tag) {
    && move.Buffering? && move.e.Emit? && move.e.buffer < |s.buffers| && s.buffers[move.e.buffer].tag == t
    && exists i | 0 <= i < move.e.buffer :: s.buffers[i].tag == t && s.buffers[i].queue != []
  }

  /** What a move sends on for a tag. */
  function EmittedBy(s: Registry, move: Move, t: Tag): seq<Message> {
    if move.Buffering? && move.e.Emit? && move.e.buffer < |s.buffers|
       && s.buffers[move.e.buffer].tag == t && s.buffers[move.e.buffer].queue != []
    then [s.buffers[move.e.buffer].queue[0]]
    else []
  }

  /** What a run sends on for a tag, in time. */
  function Timeline(w: World, moves: seq<Move>, t: Tag): seq<Message>
    requires TypedMessages.AllSound(w.todo)
    decreases |moves|
  {
    if moves == [] || Next(w, moves[0]).None? then []
    else EmittedBy(w.consumers, moves[0], t) + Timeline(Next(w, moves[0]).value, moves[1..], t)
  }

  predicate NeverOvertakes(w: World, moves: seq<Move>, t: Tag)
    requires TypedMessages.AllSound(w.todo)
    decreases |moves|
  {
    moves == [] || Next(w, moves[0]).None? ||
    (!Overtakes(w.consumers, moves[0], t) && NeverOvertakes(Next(w, moves[0]).value, moves[1..], t))
  }

  /** Nothing has been sent on past a delivery that is still queued. */
  predicate Tidy(bs: seq<Buffer>, t: Tag) {
    forall i, j | 0 <= i < j < |bs| && bs[i].tag == t && bs[j].tag == t :: bs[i].queue == [] || bs[j].sent == []
  }

  // ---------------------------------------------------------------- one move

  lemma OperationEffect(s: Registry, e: Event)
    requires !s.panicked && !ByBuffer(e) && Step(s, e).Some? && ChansOk(s)
    ensures var r := Step(s, e).value;
      && |s.buffers| <= |r.buffers|
      && (forall j | 0 <= j < |s.buffers| :: r.buffers[j].tag == s.buffers[j].tag
            && r.buffers[j].queue == s.buffers[j].queue && r.buffers[j].sent == s.buffers[j].sent)
      && (forall j | |s.buffers| <= j < |r.buffers| :: r.buffers[j].sent == [])
  {
  }

  /** A move keeps a tag tidy exactly when it does not overtake. */
  lemma TidyExactlyUnlessOvertaken(w: World, move: Move, t: Tag)
    requires TypedMessages.AllSound(w.todo) && Running(w.consumers) && Next(w, move).Some?
    requires Tidy(w.consumers.buffers, t)
    ensures Tidy(Next(w, move).value.consumers.buffers, t) <==> !Overtakes(w.consumers, move, t)
  {
    hide Step, Running, Sound;
    var s, r := w.consumers, Next(w, move).value.consumers;
    if move.Buffering? {
      BufferingIsSafe(s, move.e);
      if Overtakes(s, move, t) {
        var i :| 0 <= i < move.e.buffer && s.buffers[i].tag == t && s.buffers[i].queue != [];
        assert r.buffers[i].queue != [] && r.buffers[move.e.buffer].sent != [];
      } else if move.e.Receive? {
        ReceiverIsMapped(s);
      }
    } else if Wanted(w, move.output).Some? {
      assert ChansOk(s) && !s.panicked by { RunningIsSound(s); }
      OperationEffect(s, Wanted(w, move.output).value);
    }
  }

  lemma RunningIsSound(s: Registry)
    requires Running(s)
    ensures Consumers.Invariant(s) && ChansOk(s) && !s.panicked
    ensures forall i | 0 <= i < |s.buffers| :: Conserves(s.buffers[i])
  {
    forall i | 0 <= i < |s.buffers| ensures Conserves(s.buffers[i]) {
      assert BufferOk(s, i);
    }
  }

  lemma BufferingIsSafe(s: Registry, e: Event)
    requires Running(s) && ByBuffer(e) && Step(s, e).Some?
    ensures e.buffer < |s.buffers| && Step(s, e) == BufferStep(s, e) && !BufferStep(s, e).value.panicked
    ensures var b, r := s.buffers[e.buffer], Step(s, e).value;
      && |r.buffers| == |s.buffers|
      && (forall j | 0 <= j < |s.buffers| && j != e.buffer :: r.buffers[j] == s.buffers[j])
      && r.buffers[e.buffer].tag == b.tag
      && (e.Receive? ==> s.lock.Sending? && s.lock.buffer == e.buffer)
      && (e.Emit? ==> b.queue != [] && r.buffers[e.buffer].sent == b.sent + [b.queue[0]]
                      && r.buffers[e.buffer].queue == b.queue[1..])
      && (!e.Emit? ==> r.buffers[e.buffer].sent == b.sent)
      && (!e.Emit? && !e.Receive? ==> r.buffers[e.buffer].queue == b.queue)
  {
    hide Consumers.Invariant, LatestMapped, BufferStep;
    RunningIsSound(s);
    SafeWithOwnOutputs(s, e);
    BufferEffect(s, e);
  }

  lemma {:induction false} SameSent(bs: seq<Buffer>, cs: seq<Buffer>, t: Tag)
    requires |bs| <= |cs| && forall i | 0 <= i < |bs| :: bs[i].tag == cs[i].tag && bs[i].sent == cs[i].sent
    requires forall i | |bs| <= i < |cs| :: cs[i].sent == []
    ensures SentBy(bs, t) == SentBy(cs, t)
    decreases |cs|
  {
    if cs != [] {
      var n := |cs| - 1;
      if |bs| == |cs| {
        SameSent(bs[..n], cs[..n], t);
      } else {
        SameSent(bs, cs[..n], t);
        assert SentBy(cs[..n], t) + [] == SentBy(cs[..n], t);
      }
    }
  }

  /** What a buffer sends on comes last for its tag when no later buffer of the tag has sent anything. */
  lemma {:induction false} OneMoreSent(bs: seq<Buffer>, cs: seq<Buffer>, i: nat, d: Message, t: Tag)
    requires |bs| == |cs| && i < |bs|
    requires forall j | 0 <= j < |bs| && j != i :: bs[j].tag == cs[j].tag && bs[j].sent == cs[j].sent
    requires bs[i].tag == cs[i].tag && cs[i].sent == bs[i].sent + [d]
    requires bs[i].tag == t ==> forall j | i < j < |bs| && bs[j].tag == t :: bs[j].sent == []
    ensures SentBy(cs, t) == SentBy(bs, t) + (if bs[i].tag == t then [d] else [])
  {
    var n := |bs| - 1;
    if i == n {
      SameSent(bs[..n], cs[..n], t);
    } else {
      OneMoreSent(bs[..n], cs[..n], i, d, t);
    }
  }

  lemma MoveSends(w: World, move: Move, t: Tag)
    requires TypedMessages.AllSound(w.todo) && Running(w.consumers) && Next(w, move).Some?
    requires Tidy(w.consumers.buffers, t)
    ensures SentBy(Next(w, move).value.consumers.buffers, t)
      == SentBy(w.consumers.buffers, t) + EmittedBy(w.consumers, move, t)
  {
    hide Step, Running, Sound;
    var s, r := w.consumers, Next(w, move).value.consumers;
    if move.Buffering? {
      BufferingIsSafe(s, move.e);
      if move.e.Emit? {
        OneMoreSent(s.buffers, r.buffers, move.e.buffer, s.buffers[move.e.buffer].queue[0], t);
      } else {
        SameSent(s.buffers, r.buffers, t);
      }
    } else if Wanted(w, move.output).Some? {
      assert ChansOk(s) && !s.panicked by { RunningIsSound(s); }
      OperationEffect(s, Wanted(w, move.output).value);
      SameSent(s.buffers, r.buffers, t);
    }
  }

  // ---------------------------------------------------------------- runs

  lemma {:induction false} TimelineIsSent(w: World, moves: seq<Move>, w': World, ms: seq<Message>, t: Tag)
    requires TypedMessages.AllSound(w.todo) && TypedMessages.AllSound(ms) && Reaches(w, moves, w')
    requires Running(w.consumers) && Accounted(w, ms, t) && Tidy(w.consumers.buffers, t) && NeverOvertakes(w, moves, t)
    ensures Running(w'.consumers) && Tidy(w'.consumers.buffers, t)
    ensures SentBy(w'.consumers.buffers, t) == SentBy(w.consumers.buffers, t) + Timeline(w, moves, t)
    decreases |moves|
  {
    hide Running, Accounted, Next, SentBy, Tidy, EmittedBy, Overtakes;
    if moves != [] {
      NextKeeps(w, moves[0], ms, t);
      TidyExactlyUnlessOvertaken(w, moves[0], t);
      MoveSends(w, moves[0], t);
      TimelineIsSent(Next(w, moves[0]).value, moves[1..], w', ms, t);
    }
  }

  lemma {:induction false} TidySent(bs: seq<Buffer>, t: Tag)
    requires Tidy(bs, t) && forall i | 0 <= i < |bs| :: Conserves(bs[i])
    ensures SentBy(bs, t) <= ReceivedBy(bs, t)
  {
    if bs != [] {
      var n := |bs| - 1;
      TidySent(bs[..n], t);
      if bs[n].tag == t && bs[n].sent != [] {
        QueuesAreEmpty(bs[..n], t);
      }
    }
  }

  lemma {:induction false} QueuesAreEmpty(bs: seq<Buffer>, t: Tag)
    requires forall i | 0 <= i < |bs| :: Conserves(bs[i]) && (bs[i].tag == t ==> bs[i].queue == [])
    ensures SentBy(bs, t) == ReceivedBy(bs, t)
  {
    if bs != [] {
      var last := bs[|bs| - 1];
      QueuesAreEmpty(bs[..|bs| - 1], t);
      assert last.tag == t ==> last.sent + [] == last.sent;
    }
  }

  /** As long as no renewed consumer overtakes, a tag's deliveries leave in the order in which they came. */
  lemma DeliveriesLeaveInOrder(ms: seq<Message>, moves: seq<Move>, w: World, t: Tag)
    requires TypedMessages.AllSound(ms) && Reaches(Start(ms), moves, w) && NeverOvertakes(Start(ms), moves, t)
    ensures Timeline(Start(ms), moves, t) <= DeliveriesFor(ms, t)
    ensures Timeline(Start(ms), moves, t) == SentBy(w.consumers.buffers, t)
  {
    hide Reaches, Running, NeverOvertakes, Timeline, DeliveriesFor, Accounted, SentBy, ReceivedBy, Tidy,
      Sound, Conserves, Pending;
    StartIsTidy(ms, t);
    TimelineIsSent(Start(ms), moves, w, ms, t);
    DeliveriesReachTheirConsumers(ms, moves, w, t);
    RunningIsSound(w.consumers);
    TidySent(w.consumers.buffers, t);
    var bs := w.consumers.buffers;
    PrefixOfAll(SentBy(bs, t), ReceivedBy(bs, t), Pending(w.consumers, t), DeliveriesFor(w.todo, t));
    assert [] + Timeline(Start(ms), moves, t) == Timeline(Start(ms), moves, t);
  }

  lemma PrefixOfAll(sent: seq<Message>, received: seq<Message>, pending: seq<Message>, coming: seq<Message>)
    requires sent <= received
    ensures sent <= received + pending + coming
  {
  }

  lemma StartIsTidy(ms: seq<Message>, t: Tag)
    requires TypedMessages.AllSound(ms)
    ensures Running(Start(ms).consumers) && Accounted(Start(ms), ms, t)
    ensures Tidy(Start(ms).consumers.buffers, t) && SentBy(Start(ms).consumers.buffers, t) == []
  {
  }

  // ---------------------------------------------------------------- a renewed consumer

  predicate Renewed(m1: Message, c: Message, m2: Message) {
    && Sound(m1) && Sound(c) && Sound(m2)
    && m1.command.name == BasicDeliver && c.command.name == BasicCancel && m2.command.name == BasicDeliver
    && ConsumerTag(m1) == ConsumerTag(c) == ConsumerTag(m2)
  }

  function OldBuffer(t: Tag, open: bool, ms: seq<Message>): Buffer {
    Buffer(if ms == [] then Ranging else Selecting, t, 0, open, true, ms, ms, [])
  }

  function NewBuffer(t: Tag, ms: seq<Message>): Buffer {
    Buffer(if ms == [] then Ranging else Selecting, t, 1, true, true, ms, ms, [])
  }

  function Only(lock: Lock, chans: map<Tag, nat>, buffers: seq<Buffer>): Registry {
    Registry(lock, chans, buffers, false, |buffers|, {}, false)
  }

  lemma AddsOld(m1: Message, c: Message, m2: Message)
    requires Renewed(m1, c, m2)
    ensures var t := ConsumerTag(m1);
      Next(Start([m1, c, m2]), Dispatch(0))
      == Some(World([m1, c, m2], Only(Free, map[t := 0], [OldBuffer(t, true, [])])))
  {
    hide BufferStep, Unmap, CloseInputOf;
    var t := ConsumerTag(m1);
    assert map[][t := 0] == map[t := 0];
    assert [] + [OldBuffer(t, true, [])] == [OldBuffer(t, true, [])];
  }

  /** The send of the first message todo to the buffer b that its tag is mapped to. */
  lemma Sends(ms: seq<Message>, b: nat, buffers: seq<Buffer>, output: nat)
    requires TypedMessages.AllSound(ms) && ms != [] && ms[0].command.name == BasicDeliver
    requires Unused(Only(Free, map[ConsumerTag(ms[0]) := b], buffers), output)
    ensures var chans := map[ConsumerTag(ms[0]) := b];
      Next(World(ms, Only(Free, chans, buffers)), Dispatch(output))
      == Some(World(ms[1..], Only(Sending(b, ms[0]), chans, buffers)))
  {
  }

  lemma OldReceives(t: Tag, d: Message, ms: seq<Message>)
    requires TypedMessages.AllSound(ms)
    ensures Next(World(ms, Only(Sending(0, d), map[t := 0], [OldBuffer(t, true, [])])), Buffering(Receive(0)))
      == Some(World(ms, Only(Free, map[t := 0], [OldBuffer(t, true, [d])])))
  {
    assert [] + [d] == [d];
    assert [OldBuffer(t, true, [])][0 := OldBuffer(t, true, [d])] == [OldBuffer(t, true, [d])];
  }

  lemma Cancels(c: Message, d: Message, ms: seq<Message>)
    requires Sound(c) && c.command.name == BasicCancel && TypedMessages.AllSound(ms)
    ensures TypedMessages.AllSound([c] + ms)
    ensures var t := ConsumerTag(c);
      Next(World([c] + ms, Only(Free, map[t := 0], [OldBuffer(t, true, [d])])), Dispatch(1))
      == Some(World(ms, Only(Free, map[], [OldBuffer(t, false, [d])])))
  {
    var t := ConsumerTag(c);
    assert ([c] + ms)[1..] == ms && map[t := 0] - {t} == map[];
    assert [OldBuffer(t, true, [d])][0 := OldBuffer(t, false, [d])] == [OldBuffer(t, false, [d])];
  }

  lemma AddsNew(m: Message, d: Message)
    requires Sound(m) && m.command.name == BasicDeliver
    ensures var t := ConsumerTag(m);
      Next(World([m], Only(Free, map[], [OldBuffer(t, false, [d])])), Dispatch(1))
      == Some(World([m], Only(Free, map[t := 1], [OldBuffer(t, false, [d]), NewBuffer(t, [])])))
  {
    var t := ConsumerTag(m);
    assert map[][t := 1] == map[t := 1];
    assert [OldBuffer(t, false, [d])] + [NewBuffer(t, [])] == [OldBuffer(t, false, [d]), NewBuffer(t, [])];
  }

  lemma NewReceivesAndEmits(t: Tag, old_: Buffer, d: Message)
    requires old_.output == 0
    ensures Next(World([], Only(Sending(1, d), map[t := 1], [old_, NewBuffer(t, [])])), Buffering(Receive(1)))
      == Some(World([], Only(Free, map[t := 1], [old_, NewBuffer(t, [d])])))
    ensures Next(World([], Only(Free, map[t := 1], [old_, NewBuffer(t, [d])])), Buffering(Emit(1)))
      == Some(World([], Only(Free, map[t := 1], [old_, NewBuffer(t, []).(received := [d], sent := [d])])))
  {
    assert [] + [d] == [d] && [d][1..] == [];
    assert [old_, NewBuffer(t, [])][1 := NewBuffer(t, [d])] == [old_, NewBuffer(t, [d])];
    var last := NewBuffer(t, []).(received := [d], sent := [d]);
    assert [old_, NewBuffer(t, [d])][1 := last] == [old_, last];
  }

  lemma Prefixed(w: World, move: Move, moves: seq<Move>, w': World, t: Tag)
    requires TypedMessages.AllSound(w.todo) && Next(w, move).Some?
    requires TypedMessages.AllSound(Next(w, move).value.todo) && Reaches(Next(w, move).value, moves, w')
    ensures Reaches(w, [move] + moves, w')
    ensures Timeline(w, [move] + moves, t) == EmittedBy(w.consumers, move, t) + Timeline(Next(w, move).value, moves, t)
  {
    assert ([move] + moves)[1..] == moves;
  }

  lemma NoMoves(w: World, t: Tag)
    requires TypedMessages.AllSound(w.todo)
    ensures Reaches(w, [], w) && Timeline(w, [], t) == []
  {
  }

  /** From the cancel on: the new buffer is made, receives and sends on. */
  lemma NewLeaves(m1: Message, m2: Message) returns (moves: seq<Move>, w: World)
    requires Sound(m2) && m2.command.name == BasicDeliver
    ensures var t := ConsumerTag(m2);
      var from := World([m2], Only(Free, map[], [OldBuffer(t, false, [m1])]));
      Reaches(from, moves, w) && Timeline(from, moves, t) == [m2]
  {
    hide Next, Reaches, Timeline, Sound;
    var t, old_ := ConsumerTag(m2), OldBuffer(ConsumerTag(m2), false, [m1]);
    var w4 := World([m2], Only(Free, map[], [old_]));
    var w5 := World([m2], Only(Free, map[t := 1], [old_, NewBuffer(t, [])]));
    var w6 := World([], Only(Sending(1, m2), map[t := 1], [old_, NewBuffer(t, [])]));
    var w7 := World([], Only(Free, map[t := 1], [old_, NewBuffer(t, [m2])]));
    w := World([], Only(Free, map[t := 1], [old_, NewBuffer(t, []).(received := [m2], sent := [m2])]));
    assert [m2][1..] == [];
    AddsNew(m2, m1);
    Sends([m2], 1, w5.consumers.buffers, 2);
    NewReceivesAndEmits(t, old_, m2);
    NoMoves(w, t);
    Prefixed(w7, Buffering(Emit(1)), [], w, t);
    moves := [Buffering(Emit(1))] + [];
    Prefixed(w6, Buffering(Receive(1)), moves, w, t);
    moves := [Buffering(Receive(1))] + moves;
    Prefixed(w5, Dispatch(2), moves, w, t);
    moves := [Dispatch(2)] + moves;
    Prefixed(w4, Dispatch(1), moves, w, t);
    moves := [Dispatch(1)] + moves;
  }

  lemma TwoDeliveries(m1: Message, c: Message, m2: Message)
    requires Renewed(m1, c, m2)
    ensures TypedMessages.AllSound([m1, c, m2]) && DeliveriesFor([m1, c, m2], ConsumerTag(m1)) == [m1, m2]
  {
    var t := ConsumerTag(m1);
    assert [m1, c, m2][1..] == [c, m2] && [c, m2][1..] == [m2] && [m2][1..] == [];
    assert DeliveriesFor([m2], t) == [m2] + DeliveriesFor([], t);
    assert DeliveriesFor([c, m2], t) == DeliveriesFor([m2], t);
  }

  /** The other case does occur: delivered, cancelled, delivered again, the second may leave first. */
  lemma RenewedConsumerMayOvertake(m1: Message, c: Message, m2: Message) returns (moves: seq<Move>, w: World)
    requires Renewed(m1, c, m2)
    ensures TypedMessages.AllSound([m1, c, m2]) && Reaches(Start([m1, c, m2]), moves, w)
    ensures var t := ConsumerTag(m1);
      && DeliveriesFor([m1, c, m2], t) == [m1, m2]
      && Timeline(Start([m1, c, m2]), moves, t) == [m2]
  {
    hide Next, Reaches, Timeline, DeliveriesFor, Sound;
    TwoDeliveries(m1, c, m2);
    var t, ms := ConsumerTag(m1), [m1, c, m2];
    assert TypedMessages.AllSound([m2]) && TypedMessages.AllSound([c] + [m2]);
    assert ms[1..] == [c] + [m2];
    var w1 := World(ms, Only(Free, map[t := 0], [OldBuffer(t, true, [])]));
    var w2 := World([c] + [m2], Only(Sending(0, m1), map[t := 0], [OldBuffer(t, true, [])]));
    var w3 := World([c] + [m2], Only(Free, map[t := 0], [OldBuffer(t, true, [m1])]));
    AddsOld(m1, c, m2);
    Sends(ms, 0, w1.consumers.buffers, 1);
    OldReceives(t, m1, [c] + [m2]);
    Cancels(c, m1, [m2]);
    moves, w := NewLeaves(m1, m2);
    Prefixed(w3, Dispatch(1), moves, w, t);
    moves := [Dispatch(1)] + moves;
    Prefixed(w2, Buffering(Receive(0)), moves, w, t);
    moves := [Buffering(Receive(0))] + moves;
    Prefixed(w1, Dispatch(1), moves, w, t);
    moves := [Dispatch(1)] + moves;
    Prefixed(Start(ms), Dispatch(0), moves, w, t);
    moves := [Dispatch(0)] + moves;
  }
}
