/** Deliveries and cancels as the methods that they are, and which consumer each of them concerns. */
module DispatchFormat {
  import opened Bytes
  import opened FieldValues
  import opened Methods
  import opened Headers
  import Reassembly
  import opened TypedMessages
  import opened Consumers
  import opened Dispatching

  type Message = Reassembly.Message

  /** A basic.deliver with its content. */
  function Delivered(
      tag: bytes, n: uint64, redelivered: bool, exchange: bytes, key: bytes, p: Properties<Table>, body: bytes): Message
  {
    Reassembly.Content(
      Method(BasicDeliver, [TextArg(tag), NumArg(n), FlagArg([redelivered]), TextArg(exchange), TextArg(key)]), p, body)
  }

  /** basic.cancel. */
  function Cancelled(tag: bytes, noWait: bool): Message {
    Reassembly.Bare(Method(BasicCancel, [TextArg(tag), FlagArg([noWait])]))
  }

  lemma DeliveryIsFor(
      tag: bytes, n: uint64, redelivered: bool, exchange: bytes, key: bytes, p: Properties<Table>, body: bytes)
    ensures var m := Delivered(tag, n, redelivered, exchange, key, p, body);
      Sound(m) && m.command.name == BasicDeliver && ConsumerTag(m) == tag
  {
    Widths();
  }

  /** Dispatching a delivery: it is sent to its consumer's buffer, or a consumer is added under its tag first. */
  lemma DeliveriesAreSent(
      w: World, output: nat,
      tag: bytes, n: uint64, redelivered: bool, exchange: bytes, key: bytes, p: Properties<Table>, body: bytes)
    requires TypedMessages.AllSound(w.todo) && w.todo != [] && Running(w.consumers) && w.consumers.lock == Free
    requires w.todo[0] == Delivered(tag, n, redelivered, exchange, key, p, body) && Unused(w.consumers, output)
    ensures Next(w, Dispatch(output)).Some?
    ensures var s, w' := w.consumers, Next(w, Dispatch(output)).value;
      if tag in s.chans then
        w'.todo == w.todo[1..] && w'.consumers == s.(lock := Sending(s.chans[tag], w.todo[0]))
      else
        && w'.todo == w.todo && w'.consumers.lock == Free
        && w'.consumers.chans == s.chans[tag := |s.buffers|]
        && |w'.consumers.buffers| == |s.buffers| + 1 && w'.consumers.buffers[|s.buffers|].tag == tag
  {
    hide Sound;
    DeliveryIsFor(tag, n, redelivered, exchange, key, p, body);
  }

  /** Dispatching a cancel: its consumer is no longer known, and all others still are. */
  lemma CancelsAreMade(w: World, output: nat, tag: bytes, noWait: bool)
    requires TypedMessages.AllSound(w.todo) && w.todo != [] && Running(w.consumers) && w.consumers.lock == Free
    requires w.todo[0] == Cancelled(tag, noWait) && Unused(w.consumers, output)
    ensures Next(w, Dispatch(output)).Some?
    ensures var w' := Next(w, Dispatch(output)).value;
      w'.todo == w.todo[1..] && w'.consumers.chans == w.consumers.chans - {tag}
  {
    hide Sound, Running, Consumers.Step;
    OperationsAreEnabled(w.consumers);
    CancelUnmaps(w.consumers, tag);
  }

  lemma CancelUnmaps(s: Registry, tag: Tag)
    requires Running(s) && s.lock == Free
    ensures Step(s, Cancel(tag)).Some? && Step(s, Cancel(tag)).value.chans == s.chans - {tag}
  {
    if tag in s.chans {
      assert BufferOk(s, s.chans[tag]);
    } else {
      assert s.chans - {tag} == s.chans;
    }
  }

  /** A message with any other name leaves the registry alone. */
  lemma OthersConcernNoConsumer(w: World, output: nat)
    requires TypedMessages.AllSound(w.todo) && w.todo != [] && w.consumers.lock == Free && Unused(w.consumers, output)
    requires w.todo[0].command.name !in {BasicDeliver, BasicCancel}
    ensures Next(w, Dispatch(output)) == Some(World(w.todo[1..], w.consumers))
  {
    hide Sound;
  }

  // ---------------------------------------------------------------- in the end

  lemma {:induction false} DeliveryIsAmong(ms: seq<Message>, t: Tag, i: nat)
    requires TypedMessages.AllSound(ms) && i < |ms| && ms[i].command.name == BasicDeliver && ConsumerTag(ms[i]) == t
    ensures ms[i] in DeliveriesFor(ms, t)
  {
    hide Sound;
    if i > 0 {
      DeliveryIsAmong(ms[1..], t, i - 1);
    }
  }

  lemma {:induction false} AmongIsDelivery(ms: seq<Message>, t: Tag, m: Message) returns (i: nat)
    requires TypedMessages.AllSound(ms) && m in DeliveriesFor(ms, t)
    ensures i < |ms| && ms[i] == m && m.command.name == BasicDeliver && ConsumerTag(m) == t
  {
    hide Sound;
    i := 0;
    if !(ms[0] == m && m.command.name == BasicDeliver && ConsumerTag(m) == t) {
      i := AmongIsDelivery(ms[1..], t, m);
      i := i + 1;
    }
  }

  lemma {:induction false} SentByOne(bs: seq<Buffer>, t: Tag, m: Message) returns (b: nat)
    requires m in SentBy(bs, t)
    ensures b < |bs| && bs[b].tag == t && m in bs[b].sent
  {
    b := |bs| - 1;
    if !(bs[b].tag == t && m in bs[b].sent) {
      b := SentByOne(bs[..b], t, m);
    }
  }

  lemma {:induction false} ReceivedIsAmong(bs: seq<Buffer>, b: nat, m: Message)
    requires b < |bs| && m in bs[b].received
    ensures m in ReceivedBy(bs, bs[b].tag)
  {
    if b < |bs| - 1 {
      ReceivedIsAmong(bs[..|bs| - 1], b, m);
    }
  }

  /** Once all is dispatched and drained, every delivery has been sent on by a buffer of its consumer tag. */
  lemma DeliveriesAreConsumed(
      ms: seq<Message>, moves: seq<Move>, w: World, i: nat,
      tag: bytes, n: uint64, redelivered: bool, exchange: bytes, key: bytes, p: Properties<Table>, body: bytes)
    returns (b: nat)
    requires TypedMessages.AllSound(ms) && Reaches(Start(ms), moves, w) && w.todo == [] && w.consumers.lock == Free
    requires forall j | 0 <= j < |w.consumers.buffers| :: w.consumers.buffers[j].queue == []
    requires i < |ms| && ms[i] == Delivered(tag, n, redelivered, exchange, key, p, body)
    ensures b < |w.consumers.buffers| && w.consumers.buffers[b].tag == tag && ms[i] in w.consumers.buffers[b].sent
  {
    hide Sound, Reaches, SentBy, DeliveriesFor, ReceivedBy;
    DeliveryIsFor(tag, n, redelivered, exchange, key, p, body);
    DeliveriesReachTheirConsumers(ms, moves, w, tag);
    DeliveryIsAmong(ms, tag, i);
    b := SentByOne(w.consumers.buffers, tag, ms[i]);
  }

  /** And no buffer ever receives anything but deliveries of its own tag. */
  lemma NothingElseIsReceived(ms: seq<Message>, moves: seq<Move>, w: World, b: nat, m: Message) returns (i: nat)
    requires TypedMessages.AllSound(ms) && Reaches(Start(ms), moves, w)
    requires b < |w.consumers.buffers| && m in w.consumers.buffers[b].received
    ensures i < |ms| && ms[i] == m && m.command.name == BasicDeliver
    ensures m.command.args != [] && m.command.args[0] == TextArg(w.consumers.buffers[b].tag)
  {
    hide Reaches, SentBy, DeliveriesFor, ReceivedBy;
    var t := w.consumers.buffers[b].tag;
    DeliveriesReachTheirConsumers(ms, moves, w, t);
    ReceivedIsAmong(w.consumers.buffers, b, m);
    i := AmongIsDelivery(ms, t, m);
  }
}
