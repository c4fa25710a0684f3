/** Acknowledgements as the methods that they are, and what each of them makes the confirms emit. */
module AcknowledgementFormat {
  import opened Bytes
  import opened Methods
  import Reassembly
  import opened TypedMessages
  import opened Resequencing
  import opened Acknowledgements

  /** basic.ack of a tag. */
  function Acked(t: uint64, multiple: bool): Event {
    Dispatched(Reassembly.Bare(Method(BasicAck, [NumArg(t), FlagArg([multiple])])))
  }

  /** basic.nack of a tag. */
  function Nacked(t: uint64, multiple: bool, requeue: bool): Event {
    Dispatched(Reassembly.Bare(Method(BasicNack, [NumArg(t), FlagArg([multiple, requeue])])))
  }

  function Answer(t: uint64, multiple: bool, ack: bool, requeue: bool): Event {
    if ack then Acked(t, multiple) else Nacked(t, multiple, requeue)
  }

  lemma AnswersAreSound(t: uint64, multiple: bool, ack: bool, requeue: bool)
    ensures var e := Answer(t, multiple, ack, requeue);
      && Sound(e.m) && IsAcknowledgement(e)
      && OpsOf(true, e) == [if multiple then ConfirmMultiple(Confirmation(t, ack)) else ConfirmOne(Confirmation(t, ack))]
  {
    Widths();
  }

  predicate Named(e: Event) {
    e.Dispatched? && (e.m.command.name == BasicAck || e.m.command.name == BasicNack)
  }

  function TagIn(e: Event): uint64
    requires Named(e) && Sound(e.m)
  {
    Widths();
    e.m.command.args[0].n
  }

  predicate TagsBelowLimit(es: seq<Event>)
    requires SoundEvents(es)
  {
    forall i | 0 <= i < |es| && Named(es[i]) :: TagIn(es[i]) < TAG_LIMIT
  }

  lemma {:induction false} BelowLimitIsProper(es: seq<Event>)
    requires SoundEvents(es) && TagsBelowLimit(es)
    ensures AllProper(Ops(true, es))
  {
    hide Sound;
    if es != [] {
      BelowLimitIsProper(es[..|es| - 1]);
    }
  }

  lemma RunOneMore(es: seq<Event>, e: Event, op: Op)
    requires SoundEvents(es) && TagsBelowLimit(es) && e.Dispatched? && Sound(e.m)
    requires OpsOf(true, e) == [op] && Proper(op)
    ensures SoundEvents(es + [e]) && AllProper(Ops(true, es)) && AllProper(Ops(true, es + [e]))
    ensures Run(Ops(true, es + [e])) == Apply(Run(Ops(true, es)), op)
  {
    hide Apply, Sound, OpsOf;
    BelowLimitIsProper(es);
    assert (es + [e])[..|es|] == es;
    var ops := Ops(true, es);
    assert Ops(true, es + [e]) == ops + [op] && (ops + [op])[..|ops|] == ops;
  }

  /** From s to r, every tag from the expected one to n has been emitted, with this verdict. */
  predicate ConfirmedUpTo(s: Confirms, r: Confirms, n: uint64, ack: bool) {
    && r.expecting > n && |r.emitted| == r.expecting - 1 && s.emitted <= r.emitted
    && forall t: uint64 | 1 <= t && s.expecting <= t <= n :: r.emitted[t - 1] == Confirmation(t, ack)
  }

  /** From s to r, one confirmation has been taken: emitted if it was expected, else emitted or stashed; a late one is stashed. */
  predicate TakenSingly(s: Confirms, r: Confirms, t: uint64, ack: bool) {
    && |r.emitted| == r.expecting - 1
    && (1 <= t && t == s.expecting ==> r.expecting > t && r.emitted[t - 1] == Confirmation(t, ack))
    && (1 <= t && t > s.expecting ==>
          if t < r.expecting then r.emitted[t - 1] == Confirmation(t, ack)
          else t in r.stash && r.stash[t] == Confirmation(t, ack))
    && (t < s.expecting ==> t in r.stash && r.stash[t] == Confirmation(t, ack))
  }

  /**
   After any events at all: a multiple ack or nack of n confirms every tag from the expected one to n, each
   with its own verdict.
   */
  lemma MultipleAnswersConfirmAll(es: seq<Event>, n: uint64, ack: bool, requeue: bool)
    requires SoundEvents(es) && TagsBelowLimit(es) && n < TAG_LIMIT
    ensures var longer := es + [Answer(n, true, ack, requeue)];
      && SoundEvents(longer) && AllProper(Ops(true, es)) && AllProper(Ops(true, longer))
      && ConfirmedUpTo(Run(Ops(true, es)), Run(Ops(true, longer)), n, ack)
  {
    hide Ops, Run, Multiple, Sound, TagsBelowLimit, Blanket, OpsOf, Acknowledgements.IsAcknowledgement;
    var e, c := Answer(n, true, ack, requeue), Confirmation(n, ack);
    AnswersAreSound(n, true, ack, requeue);
    RunOneMore(es, e, ConfirmMultiple(c));
    var s := Run(Ops(true, es));
    EmissionIsContiguous(Ops(true, es));
    MultipleConfirmsAll(s, c);
    var r := Multiple(s, c);
    FirstPart(s.emitted, Blanket(s.expecting, c.tag, c.ack), r.emitted);
    forall t: uint64 | s.expecting <= t <= n ensures r.emitted[t - 1] == Confirmation(t, ack) {
      BlanketAt(s.expecting, n, ack, t - s.expecting);
      assert r.emitted[..n][t - 1] == Blanket(s.expecting, n, ack)[t - s.expecting];
    }
  }

  lemma FirstPart(a: seq<Confirmation>, b: seq<Confirmation>, r: seq<Confirmation>)
    requires |a| + |b| <= |r|
    ensures r[..|a| + |b|] == a + b ==> a <= r
  {
    if r[..|a| + |b|] == a + b {
      assert r[..|a|] == (a + b)[..|a|] == a;
    }
  }

  /** After any events at all: a single ack or nack is emitted or stashed with its own verdict, at once if expected. */
  lemma SingleAnswersAreTaken(es: seq<Event>, t: uint64, ack: bool, requeue: bool)
    requires SoundEvents(es) && TagsBelowLimit(es) && t < TAG_LIMIT
    ensures var longer := es + [Answer(t, false, ack, requeue)];
      && SoundEvents(longer) && AllProper(Ops(true, es)) && AllProper(Ops(true, longer))
      && TakenSingly(Run(Ops(true, es)), Run(Ops(true, longer)), t, ack)
  {
    hide Ops, Run, Resequence, Sound, TagsBelowLimit, OpsOf;
    var e, c := Answer(t, false, ack, requeue), Confirmation(t, ack);
    AnswersAreSound(t, false, ack, requeue);
    RunOneMore(es, e, ConfirmOne(c));
    var s := Run(Ops(true, es));
    EmissionIsContiguous(Ops(true, es));
    if t == s.expecting {
      ConfirmKeeps(s, c);
      DrainsFrom(Confirm(s, c), t);
    } else {
      StashingKeeps(s, c);
      DrainsFrom(s.(stash := s.stash[c.tag := c]), t);
    }
  }

  lemma DrainsFrom(s: Confirms, t: uint64)
    requires Invariant(s)
    ensures var r := Resequence(s);
      && s.expecting <= r.expecting && |r.emitted| == r.expecting - 1
      && (1 <= t < s.expecting ==> r.emitted[t - 1] == s.emitted[t - 1])
      && (t in s.stash && s.expecting <= t < r.expecting ==> r.emitted[t - 1] == s.stash[t])
      && (t in s.stash && (t < s.expecting || r.expecting <= t) ==> t in r.stash && r.stash[t] == s.stash[t])
  {
    ResequenceDrains(s);
    ResequenceKeeps(s);
    var r := Resequence(s);
    if t in s.stash && s.expecting <= t < r.expecting {
      assert DrainedAt(s, r, t);
    }
  }

  // ---------------------------------------------------------------- each acknowledged once

  /** Publishings are acked or nacked one by one, each at most once, and after it was made. */
  predicate SinglyAnswered(es: seq<Event>)
    requires SoundEvents(es)
  {
    es == [] ||
    var front, last := es[..|es| - 1], es[|es| - 1];
    && SinglyAnswered(front)
    && (Named(last) ==>
          && last.m.command.args[1].flags[0] == false
          && 1 <= TagIn(last) <= PublishedIn(front)
          && forall j | 0 <= j < |front| && Named(front[j]) :: TagIn(front[j]) != TagIn(last))
  }

  lemma LastVerdict(es: seq<Event>)
    requires SoundEvents(es) && es != []
    ensures var front, last := es[..|es| - 1], es[|es| - 1];
      var v := Acknowledgements.Verdicts(front);
      Acknowledgements.Verdicts(es)
      == if Named(last) then v[TagIn(last) := last.m.command.name == BasicAck] else v
  {
    hide Sound;
  }

  lemma {:induction false} VerdictIsOfSome(es: seq<Event>, t: uint64) returns (i: nat)
    requires SoundEvents(es) && t in Acknowledgements.Verdicts(es)
    ensures i < |es| && Named(es[i]) && TagIn(es[i]) == t
  {
    hide Sound, Acknowledgements.Verdicts, TagIn;
    if es == [] {
      NoVerdicts();
    } else {
      LastVerdict(es);
      i := |es| - 1;
      if !Named(es[i]) || TagIn(es[i]) != t {
        i := VerdictIsOfSome(es[..i], t);
      }
    }
  }

  lemma NoVerdicts()
    ensures Acknowledgements.Verdicts([]) == map[]
  {
  }

  lemma {:induction false} VerdictIs(es: seq<Event>, i: nat)
    requires SoundEvents(es) && SinglyAnswered(es) && i < |es| && Named(es[i])
    ensures var v := Acknowledgements.Verdicts(es);
      TagIn(es[i]) in v && v[TagIn(es[i])] == (es[i].m.command.name == BasicAck)
  {
    hide Sound, Acknowledgements.Verdicts, TagIn;
    LastVerdict(es);
    var n := |es| - 1;
    if i < n {
      VerdictIs(es[..n], i);
      assert es[..n][i] == es[i];
    }
  }

  lemma {:induction false} SinglyIsOnce(es: seq<Event>)
    requires SoundEvents(es) && SinglyAnswered(es)
    ensures AcknowledgedOnce(es)
  {
    hide Sound, Acknowledgements.Verdicts;
    if es != [] {
      var front, last := es[..|es| - 1], es[|es| - 1];
      SinglyIsOnce(front);
      if Named(last) && TagIn(last) in Acknowledgements.Verdicts(front) {
        var i := VerdictIsOfSome(front, TagIn(last));
        assert false;
      }
    }
  }

  /** Then every tag that is emitted is emitted with the verdict of the very method that answered it. */
  lemma EmittedVerdictsAreTheirMethods(es: seq<Event>, i: nat, t: uint64, ack: bool, requeue: bool)
    requires SoundEvents(es) && SinglyAnswered(es) && PublishedIn(es) < TAG_LIMIT
    requires i < |es| && es[i] == Answer(t, false, ack, requeue)
    ensures AllProper(Ops(true, es)) && 1 <= t
    ensures var s := Run(Ops(true, es));
      && |s.emitted| == s.expecting - 1
      && (t < s.expecting ==> s.emitted[t - 1] == Confirmation(t, ack))
      && (t > s.expecting ==> t in s.stash)
  {
    hide Run, Ops, Sound, OpsOf, AcknowledgedOnce, SinglyAnswered, Acknowledgements.Verdicts;
    AnswersAreSound(t, false, ack, requeue);
    SinglyIsOnce(es);
    VerdictIs(es, i);
    AnsweredIsPositive(es, i);
    AcknowledgementsAreResequenced(es);
    assert Named(es[i]) && TagIn(es[i]) == t;
    var v := Acknowledgements.Verdicts(es);
    assert t in v && v[t] == ack;
  }

  lemma {:induction false} AnsweredIsPositive(es: seq<Event>, i: nat)
    requires SoundEvents(es) && SinglyAnswered(es) && i < |es| && Named(es[i])
    ensures 1 <= TagIn(es[i])
  {
    hide Sound;
    if i < |es| - 1 {
      AnsweredIsPositive(es[..|es| - 1], i);
    }
  }
}
