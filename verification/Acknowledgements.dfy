/** How dispatch feeds acknowledgements to the publisher confirms, and what comes of it. */
module Acknowledgements {
  import opened Bytes
  import opened Methods
  import Reassembly
  import opened TypedMessages
  import opened Resequencing

  type Message = Reassembly.Message

  predicate Acknowledges(m: Message) {
    m.command.name == BasicAck || m.command.name == BasicNack
  }

  function VerdictOf(m: Message): Confirmation
    requires Sound(m) && Acknowledges(m)
  {
    Confirmation(m.command.args[0].n, m.command.name == BasicAck)
  }

  predicate IsMultiple(m: Message)
    requires Sound(m) && Acknowledges(m)
  {
    m.command.args[1].flags[0]
  }

  /** A publishing by the application, or a message dispatched by the channel. */
  datatype Event = Publishing | Dispatched(m: Message)

  predicate SoundEvents(es: seq<Event>) {
    forall i | 0 <= i < |es| :: es[i].Dispatched? ==> Sound(es[i].m)
  }

  predicate IsAcknowledgement(e: Event) {
    e.Dispatched? && Acknowledges(e.m)
  }

  /** What the events ask of the confirms of a channel in confirm mode, or not in it. */
  function Ops(confirming: bool, es: seq<Event>): seq<Op>
    requires SoundEvents(es)
  {
    if es == [] then []
    else Ops(confirming, es[..|es| - 1]) + OpsOf(confirming, es[|es| - 1])
  }

  function OpsOf(confirming: bool, e: Event): seq<Op>
    requires e.Dispatched? ==> Sound(e.m)
  {
    if e.Publishing? then [Publish]
    else if !confirming || !Acknowledges(e.m) then []
    else if IsMultiple(e.m) then [ConfirmMultiple(VerdictOf(e.m))]
    else [ConfirmOne(VerdictOf(e.m))]
  }

  function PublishedIn(es: seq<Event>): nat {
    if es == [] then 0 else PublishedIn(es[..|es| - 1]) + (if es[|es| - 1].Publishing? then 1 else 0)
  }

  /** The verdicts that acknowledgements give. */
  function Verdicts(es: seq<Event>): map<uint64, bool>
    requires SoundEvents(es)
  {
    if es == [] then map[]
    else
      var last, v := es[|es| - 1], Verdicts(es[..|es| - 1]);
      if IsAcknowledgement(last) then v[VerdictOf(last.m).tag := VerdictOf(last.m).ack] else v
  }

  /** Among any other messages, publishings are acknowledged one by one, each at most once and after it was made. */
  predicate AcknowledgedOnce(es: seq<Event>)
    requires SoundEvents(es)
  {
    es == [] ||
    var front, last := es[..|es| - 1], es[|es| - 1];
    && AcknowledgedOnce(front)
    && (IsAcknowledgement(last) ==>
          && !IsMultiple(last.m)
          && 1 <= VerdictOf(last.m).tag <= PublishedIn(front)
          && VerdictOf(last.m).tag !in Verdicts(front))
  }

  lemma {:induction false} AcknowledgedInTime(es: seq<Event>)
    requires SoundEvents(es) && AcknowledgedOnce(es) && PublishedIn(es) < TAG_LIMIT
    ensures var ops := Ops(true, es);
      && OnceEach(ops) && PublishedFirst(ops) && PublishedBy(ops) == PublishedIn(es)
      && Resequencing.Verdicts(ops) == Verdicts(es)
  {
    hide Sound;
    if es != [] {
      var front, last := es[..|es| - 1], es[|es| - 1];
      AcknowledgedInTime(front);
      var ops := Ops(true, es);
      if OpsOf(true, last) == [] {
        assert ops == Ops(true, front);
      } else {
        assert ops[..|ops| - 1] == Ops(true, front);
      }
    }
  }

  /**
   From messages to listeners: whatever else the channel receives, the confirms emit the longest run
   1..k of acknowledged tags, each with the verdict of its own ack or nack, and stash the others.
   */
  lemma AcknowledgementsAreResequenced(es: seq<Event>)
    requires SoundEvents(es) && AcknowledgedOnce(es) && PublishedIn(es) < TAG_LIMIT
    ensures AllProper(Ops(true, es))
    ensures var s := Run(Ops(true, es));
      && s.expecting !in Verdicts(es)
      && |s.emitted| == s.expecting - 1
      && (forall t: uint64 | 1 <= t < s.expecting ::
            t in Verdicts(es) && s.emitted[t - 1] == Confirmation(t, Verdicts(es)[t]))
      && s.stash.Keys == set t | t in Verdicts(es) && t > s.expecting
  {
    hide SoundEvents, AcknowledgedOnce, PublishedIn, Verdicts, Ops, OnceEach, PublishedFirst, PublishedBy, Run,
      Resequencing.Verdicts;
    AcknowledgedInTime(es);
    LongestRunIsEmitted(Ops(true, es));
  }

  /** Two channels that receive the same acknowledgements in different orders emit the same. */
  lemma AcknowledgementOrderDoesNotMatter(a: seq<Event>, b: seq<Event>)
    requires SoundEvents(a) && AcknowledgedOnce(a) && PublishedIn(a) < TAG_LIMIT
    requires SoundEvents(b) && AcknowledgedOnce(b) && PublishedIn(b) < TAG_LIMIT
    requires Verdicts(a) == Verdicts(b)
    ensures AllProper(Ops(true, a)) && AllProper(Ops(true, b))
    ensures Run(Ops(true, a)).emitted == Run(Ops(true, b)).emitted
  {
    AcknowledgedInTime(a);
    AcknowledgedInTime(b);
    OrderDoesNotMatter(Ops(true, a), Ops(true, b));
  }

  /** Out of confirm mode, nothing is ever confirmed, whatever is acknowledged. */
  lemma {:induction false} NothingIsConfirmedUnasked(es: seq<Event>)
    requires SoundEvents(es)
    ensures AllProper(Ops(false, es))
    ensures var s := Run(Ops(false, es));
      s.emitted == [] && s.stash == map[] && s.expecting == 1
  {
    hide Sound;
    if es != [] {
      var front := es[..|es| - 1];
      NothingIsConfirmedUnasked(front);
      var ops := Ops(false, es);
      if OpsOf(false, es[|es| - 1]) == [] {
        assert ops == Ops(false, front);
      } else {
        assert ops[..|ops| - 1] == Ops(false, front);
      }
    }
  }
}
