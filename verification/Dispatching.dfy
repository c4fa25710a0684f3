/**
 What dispatch does with the messages of one channel: a delivery goes to the buffer of its consumer,
 which is added when there is none, and an acknowledgement to the publisher confirms.
 */
module Dispatching {
  import opened Methods
  import opened Reassembly
  import opened TypedMessages
  import opened Consumers

  function ConsumerTag(m: Message): Tag
    requires Sound(m) && (m.command.name == BasicDeliver || m.command.name == BasicCancel)
  {
    m.command.args[0].text
  }

  /** The messages yet to be dispatched, in the midst of the buffer goroutines. */
  datatype World = World(todo: seq<Message>, consumers: Registry)

  /** A step of the dispatching goroutine, with the consumer channel it makes if it makes one, or of a buffer. */
  datatype Move = Dispatch(output: nat) | Buffering(e: Event)

  /** What dispatch asks of the registry next; after an add the same message is still to be sent. */
  function Wanted(w: World, output: nat): Option<Event>
    requires w.todo != [] && Sound(w.todo[0])
  {
    var m := w.todo[0];
    if m.command.name == BasicDeliver then
      if ConsumerTag(m) in w.consumers.chans then Some(BeginSend(ConsumerTag(m), m))
      else Some(Add(ConsumerTag(m), output))
    else if m.command.name == BasicCancel then Some(Cancel(ConsumerTag(m)))
    else None
  }

  predicate Unused(s: Registry, output: nat) {
    output !in s.closedOutputs && forall i | 0 <= i < |s.buffers| :: s.buffers[i].output != output
  }

  function Next(w: World, move: Move): Option<World>
    requires TypedMessages.AllSound(w.todo)
  {
    match move
    case Buffering(e) =>
      if !ByBuffer(e) || Consumers.Step(w.consumers, e).None? then None
      else Some(w.(consumers := Consumers.Step(w.consumers, e).value))
    case Dispatch(output) =>
      if w.todo == [] || w.consumers.lock != Free || !Unused(w.consumers, output) then None
      else
        var e := Wanted(w, output);
        if e.None? then Some(w.(todo := w.todo[1..]))
        else if Consumers.Step(w.consumers, e.value).None? then None
        else
          var rest := if e.value.Add? then w.todo else w.todo[1..];
          Some(World(rest, Consumers.Step(w.consumers, e.value).value))
  }

  predicate Reaches(w: World, moves: seq<Move>, w': World)
    requires TypedMessages.AllSound(w.todo)
    decreases |moves|
  {
    if moves == [] then w' == w
    else
      var next := Next(w, moves[0]);
      next.Some? && Reaches(next.value, moves[1..], w')
  }

  // ---------------------------------------------------------------- who has received what

  /** The deliveries for a consumer tag, in order. */
  function DeliveriesFor(ms: seq<Message>, t: Tag): seq<Message>
    requires TypedMessages.AllSound(ms)
  {
    if ms == [] then []
    else if ms[0].command.name == BasicDeliver && ConsumerTag(ms[0]) == t then [ms[0]] + DeliveriesFor(ms[1..], t)
    else DeliveriesFor(ms[1..], t)
  }

  /** What the buffers made for a tag, one after the other, have received. */
  function ReceivedBy(bs: seq<Buffer>, t: Tag): seq<Message> {
    if bs == [] then []
    else
      var last := bs[|bs| - 1];
      ReceivedBy(bs[..|bs| - 1], t) + (if last.tag == t then last.received else [])
  }

  function SentBy(bs: seq<Buffer>, t: Tag): seq<Message> {
    if bs == [] then []
    else
      var last := bs[|bs| - 1];
      SentBy(bs[..|bs| - 1], t) + (if last.tag == t then last.sent else [])
  }

  /** The delivery that a send in progress is about to hand over. */
  function Pending(s: Registry, t: Tag): seq<Message> {
    if s.lock.Sending? && s.lock.buffer < |s.buffers| && s.buffers[s.lock.buffer].tag == t then [s.lock.delivery] else []
  }

  /** A mapped buffer is the last one made for its tag. */
  predicate LatestMapped(s: Registry) {
    forall t, j | t in s.chans && s.chans[t] < j < |s.buffers| :: s.buffers[j].tag != t
  }

  predicate Accounted(w: World, ms: seq<Message>, t: Tag)
    requires TypedMessages.AllSound(w.todo) && TypedMessages.AllSound(ms)
  {
    ReceivedBy(w.consumers.buffers, t) + Pending(w.consumers, t) + DeliveriesFor(w.todo, t) == DeliveriesFor(ms, t)
  }

  /** The part of the invariant that is about the registry alone. */
  predicate Running(s: Registry) {
    Consumers.Invariant(s) && OutputsDiffer(s) && !s.closed && LatestMapped(s) && (s.lock == Free || s.lock.Sending?)
  }

  lemma {:induction false} SameReceived(bs: seq<Buffer>, cs: seq<Buffer>, t: Tag)
    requires |bs| == |cs| && forall i | 0 <= i < |bs| :: bs[i].tag == cs[i].tag && bs[i].received == cs[i].received
    ensures ReceivedBy(bs, t) == ReceivedBy(cs, t)
  {
    if bs != [] {
      SameReceived(bs[..|bs| - 1], cs[..|cs| - 1], t);
    }
  }

  /** A delivery received by the last buffer of its tag comes last for that tag. */
  lemma {:induction false} OneMoreReceived(bs: seq<Buffer>, cs: seq<Buffer>, i: nat, d: Message, t: Tag)
    requires |bs| == |cs| && i < |bs|
    requires forall j | 0 <= j < |bs| && j != i :: bs[j].tag == cs[j].tag && bs[j].received == cs[j].received
    requires bs[i].tag == cs[i].tag && cs[i].received == bs[i].received + [d]
    requires forall j | i < j < |bs| :: bs[j].tag != bs[i].tag
    ensures ReceivedBy(cs, t) == ReceivedBy(bs, t) + (if bs[i].tag == t then [d] else [])
  {
    var n := |bs| - 1;
    if i == n {
      SameReceived(bs[..n], cs[..n], t);
    } else {
      OneMoreReceived(bs[..n], cs[..n], i, d, t);
    }
  }

  /** What a buffer's step leaves alone. */
  lemma BufferingFrame(s: Registry, e: Event)
    requires Running(s) && ByBuffer(e) && Consumers.Step(s, e).Some?
    ensures var r := Consumers.Step(s, e).value;
      && |r.buffers| == |s.buffers| && r.chans == s.chans && r.closed == s.closed && e.buffer < |s.buffers|
      && (forall i | 0 <= i < |s.buffers| :: r.buffers[i].tag == s.buffers[i].tag)
      && OutputsDiffer(r)
      && (e.Receive? ==> s.lock.Sending? && s.lock.buffer == e.buffer)
      && r.lock == if e.Receive? then Free else s.lock
  {
    hide Consumers.Invariant, LatestMapped;
    SafeWithOwnOutputs(s, e) by { assert Consumers.Invariant(s); }
    BufferEffect(s, e);
  }

  /** A buffer's step moves at most the pending delivery into what was received. */
  lemma BufferingKeepsAccounts(s: Registry, e: Event, t: Tag)
    requires Running(s) && ByBuffer(e) && Consumers.Step(s, e).Some?
    ensures var r := Consumers.Step(s, e).value;
      && Running(r) && r.chans == s.chans && (e.Receive? ==> s.lock.Sending?)
      && r.lock == (if e.Receive? then Free else s.lock)
      && ReceivedBy(r.buffers, t) + Pending(r, t) == ReceivedBy(s.buffers, t) + Pending(s, t)
  {
    hide Consumers.Step, BufferOk, Consumers.Invariant;
    BufferingFrame(s, e);
    SafeWithOwnOutputs(s, e);
    StepKeeps(s, e);
    var r := Consumers.Step(s, e).value;
    forall i | 0 <= i < |s.buffers|
      ensures r.buffers[i].received == s.buffers[i].received + (if e == Receive(i) then [s.lock.delivery] else [])
    {
      HistoryGrows(s, e, i);
    }
    if e.Receive? {
      ReceiverIsMapped(s);
      OneMoreReceived(s.buffers, r.buffers, e.buffer, s.lock.delivery, t);
    } else {
      SameReceived(s.buffers, r.buffers, t);
    }
  }

  lemma ReceiverIsMapped(s: Registry)
    requires Running(s) && s.lock.Sending?
    ensures s.lock.buffer < |s.buffers|
    ensures forall j | s.lock.buffer < j < |s.buffers| :: s.buffers[j].tag != s.buffers[s.lock.buffer].tag
  {
    assert BufferOk(s, s.lock.buffer);
  }

  /** The buffers of s are those of r, but for their inputs, and no consumer channel is shared. */
  predicate Retains(s: Registry, r: Registry) {
    && |s.buffers| <= |r.buffers| && r.closed == s.closed && LatestMapped(r) && OutputsDiffer(r)
    && (forall i | 0 <= i < |s.buffers| ::
          r.buffers[i].tag == s.buffers[i].tag && r.buffers[i].received == s.buffers[i].received)
  }

  lemma AddFrame(s: Registry, tag: Tag, output: nat)
    requires Running(s) && s.lock == Free && Unused(s, output)
    ensures var r := DoAdd(s, tag, output);
      && Retains(s, r) && |r.buffers| == |s.buffers| + 1 && r.buffers[|s.buffers|].received == []
      && tag in r.chans && r.lock == Free
  {
    if tag in s.chans {
      assert BufferOk(s, s.chans[tag]);
    }
  }

  lemma CancelFrame(s: Registry, tag: Tag)
    requires Running(s) && s.lock == Free && tag in s.chans
    ensures var r := Unmap(s, tag);
      Retains(s, r) && |r.buffers| == |s.buffers| && r.lock == Free
  {
    assert BufferOk(s, s.chans[tag]);
  }

  /** What the operations of dispatch do to the registry. */
  lemma OperationFrame(s: Registry, e: Event)
    requires Running(s) && s.lock == Free && (e.Add? ==> Unused(s, e.output)) && Consumers.Step(s, e).Some?
    requires e.Add? || e.Cancel? || (e.BeginSend? && e.tag in s.chans)
    ensures var r := Consumers.Step(s, e).value;
      && Retains(s, r)
      && (if e.Add? then |r.buffers| == |s.buffers| + 1 && r.buffers[|s.buffers|].received == []
          else |r.buffers| == |s.buffers|)
      && (e.Add? ==> e.tag in r.chans)
      && r.lock == (if e.BeginSend? then Sending(s.chans[e.tag], e.delivery) else Free)
  {
    hide DoAdd, Unmap;
    if e.Add? {
      AddFrame(s, e.tag, e.output);
    } else if e.Cancel? && e.tag in s.chans {
      CancelFrame(s, e.tag);
    }
  }

  /** So does no operation: an added buffer starts empty, and a send becomes pending. */
  lemma OperationKeepsAccounts(s: Registry, e: Event, t: Tag)
    requires Running(s) && s.lock == Free && (e.Add? ==> Unused(s, e.output)) && Consumers.Step(s, e).Some?
    requires e.Add? || e.Cancel? || (e.BeginSend? && e.tag in s.chans)
    ensures var r := Consumers.Step(s, e).value;
      && Running(r)
      && (e.Add? ==> e.tag in r.chans)
      && r.lock == (if e.BeginSend? then Sending(s.chans[e.tag], e.delivery) else Free)
      && ReceivedBy(r.buffers, t) == ReceivedBy(s.buffers, t)
      && Pending(r, t) == if e.BeginSend? && e.tag == t then [e.delivery] else []
  {
    hide Consumers.Step, BufferOk, LatestMapped;
    OperationFrame(s, e);
    SafeWithOwnOutputs(s, e);
    StepKeeps(s, e);
    var r := Consumers.Step(s, e).value;
    var before := r.buffers[..|s.buffers|];
    SameReceived(s.buffers, before, t);
    if e.Add? {
      assert r.buffers[..|r.buffers| - 1] == before;
      assert ReceivedBy(before, t) + [] == ReceivedBy(before, t);
    } else {
      assert r.buffers == before;
    }
  }

  lemma NextKeeps(w: World, move: Move, ms: seq<Message>, t: Tag)
    requires TypedMessages.AllSound(w.todo) && TypedMessages.AllSound(ms) && Next(w, move).Some?
    requires Running(w.consumers) && Accounted(w, ms, t)
    ensures var w' := Next(w, move).value;
      TypedMessages.AllSound(w'.todo) && Running(w'.consumers) && Accounted(w', ms, t)
  {
    hide Consumers.Step, Running, ReceivedBy, Pending, DeliveriesFor;
    if move.Buffering? {
      BufferingKeepsAccounts(w.consumers, move.e, t);
    } else {
      DispatchKeeps(w, move.output, t);
    }
  }

  lemma DispatchKeeps(w: World, output: nat, t: Tag)
    requires TypedMessages.AllSound(w.todo) && Next(w, Dispatch(output)).Some? && Running(w.consumers)
    ensures var w' := Next(w, Dispatch(output)).value;
      && TypedMessages.AllSound(w'.todo) && Running(w'.consumers)
      && ReceivedBy(w'.consumers.buffers, t) + Pending(w'.consumers, t) + DeliveriesFor(w'.todo, t)
         == ReceivedBy(w.consumers.buffers, t) + Pending(w.consumers, t) + DeliveriesFor(w.todo, t)
  {
    hide Consumers.Step, Running, ReceivedBy, Sound;
    var e := Wanted(w, output);
    if e.Some? {
      OperationKeepsAccounts(w.consumers, e.value, t);
      if e.value.BeginSend? && e.value.tag == t {
        var r, rest := ReceivedBy(w.consumers.buffers, t), DeliveriesFor(w.todo[1..], t);
        assert r + [w.todo[0]] + rest == r + [] + ([w.todo[0]] + rest);
      }
    }
  }

  function Start(ms: seq<Message>): World {
    World(ms, Consumers.NEW)
  }

  lemma {:induction false} ReachedIsAccounted(w: World, moves: seq<Move>, w': World, ms: seq<Message>, t: Tag)
    requires TypedMessages.AllSound(w.todo) && TypedMessages.AllSound(ms) && Reaches(w, moves, w')
    requires Running(w.consumers) && Accounted(w, ms, t)
    ensures TypedMessages.AllSound(w'.todo) && Running(w'.consumers) && Accounted(w', ms, t)
    decreases |moves|
  {
    hide Running, Accounted, Next;
    if moves != [] {
      NextKeeps(w, moves[0], ms, t);
      ReachedIsAccounted(Next(w, moves[0]).value, moves[1..], w', ms, t);
    }
  }

  lemma {:induction false} ReceivedIsSent(bs: seq<Buffer>, t: Tag)
    requires forall i | 0 <= i < |bs| :: bs[i].queue == [] && Conserves(bs[i])
    ensures SentBy(bs, t) == ReceivedBy(bs, t)
  {
    if bs != [] {
      ReceivedIsSent(bs[..|bs| - 1], t);
      assert bs[|bs| - 1].sent + [] == bs[|bs| - 1].sent;
    }
  }

  /**
   Through any interleaving, cancels and renewed consumers included, what the buffers of a tag have
   received, then the delivery being sent, then those to come, are the tag's deliveries in order; and
   once all are dispatched and all queues empty, they have all been sent on.
   */
  lemma DeliveriesReachTheirConsumers(ms: seq<Message>, moves: seq<Move>, w: World, t: Tag)
    requires TypedMessages.AllSound(ms) && Reaches(Start(ms), moves, w)
    ensures TypedMessages.AllSound(w.todo)
    ensures ReceivedBy(w.consumers.buffers, t) + Pending(w.consumers, t) + DeliveriesFor(w.todo, t) == DeliveriesFor(ms, t)
    ensures w.todo == [] && w.consumers.lock == Free
      && (forall i | 0 <= i < |w.consumers.buffers| :: w.consumers.buffers[i].queue == [])
      ==> SentBy(w.consumers.buffers, t) == DeliveriesFor(ms, t)
  {
    ReachedIsAccounted(Start(ms), moves, w, ms, t);
    var bs := w.consumers.buffers;
    forall i | 0 <= i < |bs| ensures Conserves(bs[i]) {
      assert BufferOk(w.consumers, i);
    }
    if forall i | 0 <= i < |bs| :: bs[i].queue == [] {
      ReceivedIsSent(bs, t);
    }
  }

  // ---------------------------------------------------------------- progress

  /** How many more steps the dispatching goroutine and its partners in sending can take. */
  function Remaining(w: World): nat
    requires TypedMessages.AllSound(w.todo)
  {
    var mapped := w.todo != [] && w.todo[0].command.name == BasicDeliver && ConsumerTag(w.todo[0]) in w.consumers.chans;
    3 * |w.todo| - (if mapped then 1 else 0) + (if w.consumers.lock.Sending? then 1 else 0)
  }

  /** Dispatch never waits for the consumers: while anything remains, a step is enabled that sends nothing on. */
  lemma DispatchNeverBlocks(ms: seq<Message>, moves: seq<Move>, w: World) returns (move: Move)
    requires TypedMessages.AllSound(ms) && Reaches(Start(ms), moves, w)
    requires w.todo != [] || w.consumers.lock != Free
    ensures TypedMessages.AllSound(w.todo) && Next(w, move).Some?
    ensures if w.consumers.lock.Sending? then move == Buffering(Receive(w.consumers.lock.buffer)) else move.Dispatch?
  {
    ReachedIsAccounted(Start(ms), moves, w, ms, []);
    if w.consumers.lock.Sending? {
      SendingCanEnd(w.consumers);
      move := Buffering(Receive(w.consumers.lock.buffer));
    } else {
      var output := UnusedOutput(w.consumers);
      OperationsAreEnabled(w.consumers);
      move := Dispatch(output);
    }
  }

  lemma SendingCanEnd(s: Registry)
    requires Running(s) && s.lock.Sending?
    ensures Consumers.Step(s, Receive(s.lock.buffer)).Some?
  {
    assert BufferOk(s, s.lock.buffer);
  }

  lemma OperationsAreEnabled(s: Registry)
    requires Running(s) && s.lock == Free
    ensures forall e: Event | e.Add? || e.Cancel? || e.BeginSend? :: Consumers.Step(s, e).Some?
  {
  }

  lemma {:induction false} AboveAll(ns: set<nat>) returns (h: nat)
    ensures forall n | n in ns :: n < h
  {
    h := 0;
    if ns != {} {
      var n :| n in ns;
      h := AboveAll(ns - {n});
      h := if h > n then h else n + 1;
      forall k | k in ns ensures k < h {
        assert k == n || k in ns - {n};
      }
    }
  }

  lemma UnusedOutput(s: Registry) returns (output: nat)
    ensures Unused(s, output)
  {
    var outputs := set i | 0 <= i < |s.buffers| :: s.buffers[i].output;
    output := AboveAll(s.closedOutputs + outputs);
    forall i | 0 <= i < |s.buffers| ensures s.buffers[i].output != output {
      assert s.buffers[i].output in outputs;
    }
  }

  /** Each of those steps uses up one of the remaining, and no other step adds any. */
  lemma DispatchAdvances(w: World, move: Move)
    requires TypedMessages.AllSound(w.todo) && Next(w, move).Some? && Running(w.consumers)
    ensures var w' := Next(w, move).value;
      && TypedMessages.AllSound(w'.todo)
      && Remaining(w') <= Remaining(w)
      && (move.Dispatch? || move.e.Receive? ==> Remaining(w') < Remaining(w))
  {
    hide Consumers.Step, Running, Sound;
    if move.Buffering? {
      BufferingKeepsAccounts(w.consumers, move.e, []);
    } else if Wanted(w, move.output).Some? {
      OperationKeepsAccounts(w.consumers, Wanted(w, move.output).value, []);
    }
  }
}
