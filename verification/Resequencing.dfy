/** The publisher-confirm resequencer: what it emits, keeps back and tells its listeners. */
module Resequencing {
  import opened Bytes

  const TAG_LIMIT: nat := 0xFFFF_FFFF_FFFF_FFFF

  datatype Confirmation = Confirmation(tag: uint64, ack: bool)

  /** A listener: how many confirmations had been emitted when it registered, and what it was sent. */
  datatype Listener = Listener(start: nat, received: seq<Confirmation>)

  /** A listener that Close has closed, and how many confirmations had been emitted by then. */
  datatype Finished = Finished(listener: Listener, stop: nat)

  /**
   emitted is the history of all calls of confirm. Listeners that Close has closed are finished;
   nothing is sent to them any more.
   */
  datatype Confirms = Confirms(
    published: uint64,
    expecting: uint64,
    stash: map<uint64, Confirmation>,
    emitted: seq<Confirmation>,
    listeners: seq<Listener>,
    finished: seq<Finished>)

  const NEW := Confirms(0, 1, map[], [], [], [])

  function Increment(n: uint64): uint64 {
    (n + 1) % 0x1_0000_0000_0000_0000
  }

  function Told(ls: seq<Listener>, c: Confirmation): (r: seq<Listener>)
    ensures |r| == |ls|
  {
    seq(|ls|, i requires 0 <= i < |ls| => ls[i].(received := ls[i].received + [c]))
  }

  function Closed(ls: seq<Listener>, stop: nat): (fs: seq<Finished>)
    ensures |fs| == |ls|
  {
    seq(|ls|, i requires 0 <= i < |ls| => Finished(ls[i], stop))
  }

  function Confirm(s: Confirms, c: Confirmation): Confirms {
    s.(stash := s.stash - {s.expecting},
       expecting := Increment(s.expecting),
       emitted := s.emitted + [c],
       listeners := Told(s.listeners, c))
  }

  lemma StashShrinks(s: Confirms)
    requires s.expecting in s.stash
    ensures |s.stash - {s.expecting}| < |s.stash|
  {
    var rest := s.stash - {s.expecting};
    assert s.stash == rest[s.expecting := s.stash[s.expecting]];
    assert |rest[s.expecting := s.stash[s.expecting]]| == |rest| + 1;
  }

  function Resequence(s: Confirms): Confirms
    decreases |s.stash|
  {
    if s.expecting <= s.published && s.expecting in s.stash then
      StashShrinks(s);
      Resequence(Confirm(s, s.stash[s.expecting]))
    else s
  }

  function One(s: Confirms, c: Confirmation): Confirms {
    Resequence(if s.expecting == c.tag then Confirm(s, c) else s.(stash := s.stash[c.tag := c]))
  }

  /** The loop of Multiple; it would not end on the largest tag. */
  function UpTo(s: Confirms, c: Confirmation): Confirms
    requires c.tag < TAG_LIMIT
    decreases c.tag + 1 - s.expecting
  {
    if s.expecting <= c.tag then UpTo(Confirm(s, Confirmation(s.expecting, c.ack)), c) else s
  }

  function Multiple(s: Confirms, c: Confirmation): Confirms
    requires c.tag < TAG_LIMIT
  {
    Resequence(UpTo(s, c))
  }

  datatype Op = Publish | ConfirmOne(c: Confirmation) | ConfirmMultiple(c: Confirmation) | Listen | Close

  predicate Proper(op: Op) {
    op.ConfirmOne? || op.ConfirmMultiple? ==> op.c.tag < TAG_LIMIT
  }

  function Apply(s: Confirms, op: Op): Confirms
    requires Proper(op)
  {
    match op
    case Publish => s.(published := Increment(s.published))
    case ConfirmOne(c) => One(s, c)
    case ConfirmMultiple(c) => Multiple(s, c)
    case Listen => s.(listeners := s.listeners + [Listener(|s.emitted|, [])])
    case Close => s.(listeners := [], finished := s.finished + Closed(s.listeners, |s.emitted|))
  }

  predicate AllProper(ops: seq<Op>) {
    forall i | 0 <= i < |ops| :: Proper(ops[i])
  }

  function Run(ops: seq<Op>): Confirms
    requires AllProper(ops)
  {
    if ops == [] then NEW else Apply(Run(ops[..|ops| - 1]), ops[|ops| - 1])
  }

  // ---------------------------------------------------------------- contiguity

  /** The emitted tags are exactly 1, 2, ..., expecting - 1. */
  predicate Contiguous(s: Confirms) {
    && 1 <= s.expecting <= TAG_LIMIT
    && |s.emitted| == s.expecting - 1
    && (forall i | 0 <= i < |s.emitted| :: s.emitted[i].tag == i + 1)
  }

  predicate StashIsKeyed(s: Confirms) {
    forall t | t in s.stash :: s.stash[t].tag == t < TAG_LIMIT
  }

  /** Every open listener has exactly what was emitted since it registered, a finished one up to its close. */
  predicate ListenersAgree(s: Confirms) {
    && (forall i | 0 <= i < |s.listeners| ::
          s.listeners[i].start <= |s.emitted| && s.listeners[i].received == s.emitted[s.listeners[i].start..])
    && (forall i | 0 <= i < |s.finished| :: FinishedAgrees(s.finished[i], s.emitted))
  }

  predicate FinishedAgrees(f: Finished, emitted: seq<Confirmation>) {
    && f.listener.start <= f.stop <= |emitted|
    && f.listener.received == emitted[f.listener.start..f.stop]
  }

  predicate Invariant(s: Confirms) {
    Contiguous(s) && StashIsKeyed(s) && ListenersAgree(s)
  }

  lemma ConfirmKeeps(s: Confirms, c: Confirmation)
    requires Invariant(s) && c.tag == s.expecting && s.expecting < TAG_LIMIT
    ensures Invariant(Confirm(s, c))
  {
    var r := Confirm(s, c);
    forall i | 0 <= i < |r.listeners|
      ensures r.listeners[i].received == r.emitted[r.listeners[i].start..]
    {
      assert r.emitted[s.listeners[i].start..] == s.emitted[s.listeners[i].start..] + [c];
    }
    forall i | 0 <= i < |r.finished| ensures FinishedAgrees(r.finished[i], r.emitted) {
      var f := s.finished[i];
      assert FinishedAgrees(f, s.emitted);
      assert r.emitted[f.listener.start..f.stop] == s.emitted[f.listener.start..f.stop];
    }
  }

  lemma {:induction false} ResequenceKeeps(s: Confirms)
    requires Invariant(s)
    ensures Invariant(Resequence(s)) && s.emitted <= Resequence(s).emitted
    decreases |s.stash|
  {
    if s.expecting <= s.published && s.expecting in s.stash {
      StashShrinks(s);
      ConfirmKeeps(s, s.stash[s.expecting]);
      ResequenceKeeps(Confirm(s, s.stash[s.expecting]));
    }
  }

  lemma {:induction false} UpToKeeps(s: Confirms, c: Confirmation)
    requires Invariant(s) && c.tag < TAG_LIMIT
    ensures Invariant(UpTo(s, c))
    decreases c.tag + 1 - s.expecting
  {
    if s.expecting <= c.tag {
      ConfirmKeeps(s, Confirmation(s.expecting, c.ack));
      UpToKeeps(Confirm(s, Confirmation(s.expecting, c.ack)), c);
    }
  }

  lemma StashingKeeps(s: Confirms, c: Confirmation)
    requires Invariant(s) && c.tag < TAG_LIMIT
    ensures Invariant(s.(stash := s.stash[c.tag := c]))
  {
  }

  lemma ApplyKeeps(s: Confirms, op: Op)
    requires Invariant(s) && Proper(op)
    ensures Invariant(Apply(s, op))
  {
    hide Resequence, UpTo;
    match op
    case ConfirmOne(c) =>
      if s.expecting == c.tag {
        ConfirmKeeps(s, c);
        ResequenceKeeps(Confirm(s, c));
      } else {
        StashingKeeps(s, c);
        ResequenceKeeps(s.(stash := s.stash[c.tag := c]));
      }
    case ConfirmMultiple(c) =>
      UpToKeeps(s, c);
      ResequenceKeeps(UpTo(s, c));
    case Close => CloseFinishesAll(s);
    case _ =>
  }

  /** Close finishes exactly the open listeners, each with all that was emitted since it registered. */
  lemma CloseFinishesAll(s: Confirms)
    requires Invariant(s)
    ensures var r := Apply(s, Close);
      && Invariant(r)
      && r == s.(listeners := [], finished := r.finished)
      && |r.finished| == |s.finished| + |s.listeners| && s.finished <= r.finished
      && forall i | 0 <= i < |s.listeners| ::
           var f := r.finished[|s.finished| + i];
           f.stop == |s.emitted| && f.listener.start == s.listeners[i].start
           && f.listener.received == s.emitted[f.listener.start..]
  {
    var r := Apply(s, Close);
    forall i | 0 <= i < |r.finished| ensures FinishedAgrees(r.finished[i], r.emitted) {
      if i >= |s.finished| {
        var l := s.listeners[i - |s.finished|];
        assert s.emitted[l.start..|s.emitted|] == s.emitted[l.start..];
      } else {
        assert FinishedAgrees(s.finished[i], s.emitted);
      }
    }
  }

  /** Nothing but the history moves: the same listeners stay open, and the finished ones are left alone. */
  predicate Follows(s: Confirms, r: Confirms) {
    && r.finished == s.finished
    && s.emitted <= r.emitted
    && |r.listeners| == |s.listeners|
    && forall i | 0 <= i < |s.listeners| :: r.listeners[i].start == s.listeners[i].start
  }

  lemma {:induction false} ResequenceFollows(s: Confirms)
    ensures Follows(s, Resequence(s))
    decreases |s.stash|
  {
    if s.expecting <= s.published && s.expecting in s.stash {
      StashShrinks(s);
      ResequenceFollows(Confirm(s, s.stash[s.expecting]));
    }
  }

  lemma {:induction false} UpToFollows(s: Confirms, c: Confirmation)
    requires c.tag < TAG_LIMIT
    ensures Follows(s, UpTo(s, c))
    decreases c.tag + 1 - s.expecting
  {
    if s.expecting <= c.tag {
      UpToFollows(Confirm(s, Confirmation(s.expecting, c.ack)), c);
    }
  }

  lemma ApplyFollows(s: Confirms, op: Op)
    requires Proper(op)
    ensures s.emitted <= Apply(s, op).emitted && s.finished <= Apply(s, op).finished
    ensures op != Close && op != Listen ==> Follows(s, Apply(s, op))
  {
    hide Resequence, UpTo;
    match op
    case ConfirmOne(c) =>
      ResequenceFollows(if s.expecting == c.tag then Confirm(s, c) else s.(stash := s.stash[c.tag := c]));
    case ConfirmMultiple(c) =>
      UpToFollows(s, c);
      ResequenceFollows(UpTo(s, c));
    case _ =>
  }

  /** Whatever is done after a close, the listeners that it finished are sent nothing and keep what they have. */
  lemma {:induction false} FinishedListenersAreLeftAlone(ops: seq<Op>, more: seq<Op>)
    requires AllProper(ops) && AllProper(more)
    ensures AllProper(ops + more) && Run(ops).finished <= Run(ops + more).finished
    ensures Close !in more ==> Run(ops).finished == Run(ops + more).finished
  {
    hide Apply;
    if more == [] {
      assert ops + more == ops;
    } else {
      var front, last := more[..|more| - 1], more[|more| - 1];
      FinishedListenersAreLeftAlone(ops, front);
      assert (ops + more)[..|ops + more| - 1] == ops + front;
      ApplyFollows(Run(ops + front), last);
      if last == Listen {
        ListenOpensOne(Run(ops + front));
      }
    }
  }

  lemma ListenOpensOne(s: Confirms)
    ensures Apply(s, Listen) == s.(listeners := s.listeners + [Listener(|s.emitted|, [])])
  {
  }

  /** As long as nobody closes, every open listener stays where it is. */
  lemma {:induction false} OpenListenersStay(ops: seq<Op>, more: seq<Op>)
    requires AllProper(ops) && AllProper(more) && Close !in more
    ensures AllProper(ops + more)
    ensures var s, r := Run(ops), Run(ops + more);
      && s.emitted <= r.emitted
      && |s.listeners| <= |r.listeners|
      && forall i | 0 <= i < |s.listeners| :: r.listeners[i].start == s.listeners[i].start
  {
    hide Apply;
    if more == [] {
      assert ops + more == ops;
    } else {
      var front, last := more[..|more| - 1], more[|more| - 1];
      OpenListenersStay(ops, front);
      assert (ops + more)[..|ops + more| - 1] == ops + front;
      ApplyFollows(Run(ops + front), last);
      if last == Listen {
        ListenOpensOne(Run(ops + front));
      }
    }
  }

  /**
   Under any mix of operations, with duplicate, late and early tags: nothing is skipped, nothing is
   repeated, and every listener is told exactly what was emitted from its registration to its close.
   */
  lemma {:induction false} EmissionIsContiguous(ops: seq<Op>)
    requires AllProper(ops)
    ensures Invariant(Run(ops))
  {
    if ops != [] {
      EmissionIsContiguous(ops[..|ops| - 1]);
      ApplyKeeps(Run(ops[..|ops| - 1]), ops[|ops| - 1]);
    }
  }

  /**
   A listener that registers after `before` sees, as long as nobody closes, exactly what is emitted
   from then on.
   */
  lemma OpenListenersSeeTheRest(before: seq<Op>, since: seq<Op>)
    requires AllProper(before) && AllProper(since) && Close !in since
    ensures AllProper(before + [Listen] + since)
    ensures var s, r := Run(before), Run(before + [Listen] + since);
      && s.emitted <= r.emitted
      && |s.listeners| < |r.listeners|
      && r.listeners[|s.listeners|].received == r.emitted[|s.emitted|..]
  {
    hide Apply;
    assert (before + [Listen])[..|before|] == before;
    ListenOpensOne(Run(before));
    OpenListenersStay(before + [Listen], since);
    EmissionIsContiguous(before + [Listen] + since);
  }

  /** And one that is closed saw exactly what was emitted until then, whatever is done afterwards. */
  lemma ClosedListenersSawTheirShare(before: seq<Op>, since: seq<Op>, after: seq<Op>)
    requires AllProper(before) && AllProper(since) && Close !in since && AllProper(after)
    ensures AllProper(before + [Listen] + since + [Close] + after)
    ensures var s, m, r := Run(before), Run(before + [Listen] + since), Run(before + [Listen] + since + [Close] + after);
      && s.emitted <= m.emitted <= r.emitted
      && |m.finished| + |s.listeners| < |r.finished|
      && r.finished[|m.finished| + |s.listeners|].listener.received == m.emitted[|s.emitted|..]
  {
    hide Apply;
    var open := before + [Listen] + since;
    OpenListenersSeeTheRest(before, since);
    EmissionIsContiguous(open);
    CloseFinishesAll(Run(open));
    assert (open + [Close])[..|open|] == open;
    FinishedListenersAreLeftAlone(open + [Close], after);
    EmissionGrows(open + [Close], after);
    ClosedKeepsReceived(Run(open), |Run(before).listeners|);
  }

  lemma ClosedKeepsReceived(s: Confirms, i: nat)
    requires i < |s.listeners|
    ensures Apply(s, Close).emitted == s.emitted
    ensures Apply(s, Close).finished == s.finished + Closed(s.listeners, |s.emitted|)
  {
  }

  lemma {:induction false} EmissionGrows(ops: seq<Op>, more: seq<Op>)
    requires AllProper(ops) && AllProper(more)
    ensures AllProper(ops + more) && Run(ops).emitted <= Run(ops + more).emitted
  {
    hide Apply;
    if more == [] {
      assert ops + more == ops;
    } else {
      EmissionGrows(ops, more[..|more| - 1]);
      assert (ops + more)[..|ops + more| - 1] == ops + more[..|more| - 1];
      ApplyFollows(Run(ops + more[..|more| - 1]), more[|more| - 1]);
    }
  }

  // ---------------------------------------------------------------- verdicts

  /** One verdict for each of the tags first..last. */
  function Blanket(first: nat, last: uint64, ack: bool): seq<Confirmation>
    decreases last + 1 - first
  {
    if first > last then [] else [Confirmation(first, ack)] + Blanket(first + 1, last, ack)
  }

  /** What the loop of Multiple emits: its own verdict for every tag up to its own, stashed or not. */
  lemma {:induction false} MultipleOverrules(s: Confirms, c: Confirmation)
    requires Contiguous(s) && c.tag < TAG_LIMIT
    ensures var r := UpTo(s, c);
      && r.expecting == (if s.expecting <= c.tag then c.tag + 1 else s.expecting)
      && r.emitted == s.emitted + Blanket(s.expecting, c.tag, c.ack)
      && r.stash == map t | t in s.stash && (t < s.expecting || t > c.tag) :: s.stash[t]
    decreases c.tag + 1 - s.expecting
  {
    if s.expecting <= c.tag {
      var next := Confirm(s, Confirmation(s.expecting, c.ack));
      MultipleOverrules(next, c);
      assert s.emitted + Blanket(s.expecting, c.tag, c.ack)
        == next.emitted + Blanket(s.expecting + 1, c.tag, c.ack);
    }
  }

  /** What resequence emits: the stashed confirmations from expecting on, as far as they go. */
  predicate Drains(s: Confirms, r: Confirms) {
    && s.expecting <= r.expecting <= TAG_LIMIT && r.published == s.published
    && |r.emitted| == |s.emitted| + r.expecting - s.expecting && s.emitted <= r.emitted
    && (forall t: uint64 | s.expecting <= t < r.expecting :: DrainedAt(s, r, t))
    && r.stash == (map t | t in s.stash && (t < s.expecting || t >= r.expecting) :: s.stash[t])
    && (r.expecting <= r.published ==> r.expecting !in r.stash)
  }

  predicate DrainedAt(s: Confirms, r: Confirms, t: uint64)
    requires s.expecting <= t && |s.emitted| + t - s.expecting < |r.emitted|
  {
    t in s.stash && t <= s.published && r.emitted[|s.emitted| + t - s.expecting] == s.stash[t]
  }

  lemma {:induction false} ResequenceDrains(s: Confirms)
    requires Invariant(s)
    ensures Drains(s, Resequence(s))
    decreases |s.stash|
  {
    if s.expecting <= s.published && s.expecting in s.stash {
      var c := s.stash[s.expecting];
      StashShrinks(s);
      ConfirmKeeps(s, c);
      ResequenceDrains(Confirm(s, c));
      DrainsOneMore(s, Resequence(Confirm(s, c)));
    }
  }

  lemma DrainsOneMore(s: Confirms, r: Confirms)
    requires Contiguous(s) && s.expecting < TAG_LIMIT && s.expecting <= s.published && s.expecting in s.stash
    requires Drains(Confirm(s, s.stash[s.expecting]), r)
    ensures Drains(s, r)
  {
    var next := Confirm(s, s.stash[s.expecting]);
    assert next.emitted[|s.emitted|] == s.stash[s.expecting] && r.emitted[|s.emitted|] == next.emitted[|s.emitted|];
    forall t: uint64 | s.expecting <= t < r.expecting ensures DrainedAt(s, r, t) {
      if t > s.expecting {
        assert DrainedAt(next, r, t);
      }
    }
  }

  /**
   All that Multiple does: its own verdict for every tag up to its own that was still expected, then
   the stashed confirmations that follow on, as far as they go.
   */
  lemma MultipleConfirmsAll(s: Confirms, c: Confirmation)
    requires Invariant(s) && c.tag < TAG_LIMIT
    ensures var first, r := (if s.expecting <= c.tag then c.tag + 1 else s.expecting), Multiple(s, c);
      && first <= r.expecting && |r.emitted| == r.expecting - 1
      && r.emitted[..first - 1] == s.emitted + Blanket(s.expecting, c.tag, c.ack)
      && (forall t: uint64 | first <= t < r.expecting :: t in s.stash && r.emitted[t - 1] == s.stash[t])
      && r.stash == (map t | t in s.stash && (t < s.expecting || t >= r.expecting) :: s.stash[t])
      && (r.expecting <= r.published ==> r.expecting !in r.stash)
  {
    hide Resequence, UpTo, Blanket;
    MultipleOverrules(s, c);
    UpToKeeps(s, c);
    ResequenceDrains(UpTo(s, c));
    ResequenceKeeps(UpTo(s, c));
    var m, r := UpTo(s, c), Multiple(s, c);
    assert |m.emitted| == m.expecting - 1;
    forall t: uint64 | m.expecting <= t < r.expecting ensures t in s.stash && r.emitted[t - 1] == s.stash[t] {
      assert DrainedAt(m, r, t);
    }
  }

  lemma {:induction false} BlanketAt(first: nat, last: uint64, ack: bool, k: nat)
    requires first + k <= last
    ensures |Blanket(first, last, ack)| == last + 1 - first
    ensures Blanket(first, last, ack)[k] == Confirmation(first + k, ack)
    decreases last + 1 - first
  {
    if first < last {
      BlanketAt(first + 1, last, ack, if k > 0 then k - 1 else 0);
    }
  }

  /** Multiple keeps the stashed verdicts of the tags it covers exactly when they are all its own. */
  lemma MultipleKeepsVerdictsExactly(s: Confirms, c: Confirmation)
    requires Invariant(s) && c.tag < TAG_LIMIT
    ensures s.expecting <= c.tag ==> |Multiple(s, c).emitted| >= c.tag
    ensures (forall t | t in s.stash && s.expecting <= t <= c.tag :: Multiple(s, c).emitted[t - 1] == s.stash[t])
      <==> (forall t | t in s.stash && s.expecting <= t <= c.tag :: s.stash[t].ack == c.ack)
  {
    hide Multiple, Blanket;
    MultipleConfirmsAll(s, c);
    var r := Multiple(s, c);
    forall t | t in s.stash && s.expecting <= t <= c.tag ensures r.emitted[t - 1] == Confirmation(t, c.ack) {
      BlanketAt(s.expecting, c.tag, c.ack, t - s.expecting);
      assert r.emitted[..c.tag][t - 1] == Blanket(s.expecting, c.tag, c.ack)[t - s.expecting];
    }
  }

  /** The state before round n of the loop of Multiple, if it gets that far. */
  function Rounds(s: Confirms, ack: bool, n: nat): Confirms {
    if n == 0 then s
    else
      var before := Rounds(s, ack, n - 1);
      Confirm(before, Confirmation(before.expecting, ack))
  }

  lemma {:induction false} RoundsCount(s: Confirms, ack: bool, n: nat)
    requires s.expecting + n <= TAG_LIMIT
    ensures Rounds(s, ack, n).expecting == s.expecting + n
  {
    if n > 0 {
      RoundsCount(s, ack, n - 1);
    }
  }

  /** The loop of Multiple comes to an end, from any state, exactly when the tag is not the largest one. */
  lemma MultipleEndsExactlyBelowTheLimit(s: Confirms, c: Confirmation)
    ensures (exists n :: Rounds(s, c.ack, n).expecting > c.tag) <==> c.tag < TAG_LIMIT
  {
    RoundsCount(s, c.ack, TAG_LIMIT - s.expecting);
    assert Rounds(s, c.ack, TAG_LIMIT - s.expecting).expecting == TAG_LIMIT;
  }

  lemma {:induction false} RoundsFirst(s: Confirms, ack: bool, n: nat)
    requires n > 0
    ensures Rounds(s, ack, n) == Rounds(Confirm(s, Confirmation(s.expecting, ack)), ack, n - 1)
  {
    if n > 1 {
      RoundsFirst(s, ack, n - 1);
    }
  }

  /** Where it ends, its outcome is that of the first round that finds the tag passed. */
  lemma {:induction false} UpToIsTheFirstRoundPast(s: Confirms, c: Confirmation) returns (n: nat)
    requires c.tag < TAG_LIMIT
    ensures UpTo(s, c) == Rounds(s, c.ack, n) && UpTo(s, c).expecting > c.tag
    ensures forall k | 0 <= k < n :: Rounds(s, c.ack, k).expecting <= c.tag
    decreases c.tag + 1 - s.expecting
  {
    n := 0;
    if s.expecting <= c.tag {
      var next := Confirm(s, Confirmation(s.expecting, c.ack));
      n := UpToIsTheFirstRoundPast(next, c);
      n := n + 1;
      RoundsFirst(s, c.ack, n);
      forall k | 0 <= k < n ensures Rounds(s, c.ack, k).expecting <= c.tag {
        if k > 0 {
          RoundsFirst(s, c.ack, k);
        }
      }
    }
  }

  // ---------------------------------------------------------------- order independence

  /** The verdict of every tag that ops confirms. */
  function Verdicts(ops: seq<Op>): map<uint64, bool> {
    if ops == [] then map[]
    else
      var last, v := ops[|ops| - 1], Verdicts(ops[..|ops| - 1]);
      if last.ConfirmOne? then v[last.c.tag := last.c.ack] else v
  }

  function PublishedBy(ops: seq<Op>): nat {
    if ops == [] then 0
    else PublishedBy(ops[..|ops| - 1]) + (if ops[|ops| - 1].Publish? then 1 else 0)
  }

  /** Publishings and single confirmations, each tag from 1 on confirmed at most once. */
  predicate OnceEach(ops: seq<Op>) {
    ops == [] ||
    var front, last := ops[..|ops| - 1], ops[|ops| - 1];
    && OnceEach(front)
    && (last.Publish? || last.ConfirmOne?)
    && (last.Publish? ==> PublishedBy(ops) <= TAG_LIMIT)
    && (last.ConfirmOne? ==> 1 <= last.c.tag < TAG_LIMIT && last.c.tag !in Verdicts(front))
  }

  /** Besides, each tag is published before it is confirmed. */
  predicate PublishedFirst(ops: seq<Op>) {
    ops == [] ||
    var front, last := ops[..|ops| - 1], ops[|ops| - 1];
    PublishedFirst(front) && (last.ConfirmOne? ==> last.c.tag <= PublishedBy(front))
  }

  /**
   The confirmed tags below expecting are emitted in order, each with its own verdict, and the
   others are stashed, each with its own.
   */
  predicate Splits(s: Confirms, v: map<uint64, bool>) {
    && 1 <= s.expecting <= TAG_LIMIT
    && |s.emitted| == s.expecting - 1
    && (forall t: uint64 | 1 <= t < s.expecting :: t in v && s.emitted[t - 1] == Confirmation(t, v[t]))
    && (forall t | t in v :: 1 <= t < TAG_LIMIT)
    && s.stash == map t | t in v && t >= s.expecting :: Confirmation(t, v[t])
  }

  lemma ConfirmSplits(s: Confirms, v: map<uint64, bool>)
    requires Splits(s, v) && s.expecting in v
    ensures Splits(Confirm(s, Confirmation(s.expecting, v[s.expecting])), v)
  {
  }

  lemma {:induction false} ResequenceSplits(s: Confirms, v: map<uint64, bool>)
    requires Splits(s, v)
    ensures var r := Resequence(s);
      Splits(r, v) && r.published == s.published && (r.expecting in v ==> r.expecting > r.published)
    decreases |s.stash|
  {
    if s.expecting <= s.published && s.expecting in s.stash {
      StashShrinks(s);
      ConfirmSplits(s, v);
      ResequenceSplits(Confirm(s, s.stash[s.expecting]), v);
    }
  }

  lemma OneSplits(s: Confirms, v: map<uint64, bool>, c: Confirmation)
    requires Splits(s, v) && c.tag !in v && 1 <= c.tag < TAG_LIMIT
    ensures var r := One(s, c);
      Splits(r, v[c.tag := c.ack]) && r.published == s.published && (r.expecting in v[c.tag := c.ack] ==> r.expecting > r.published)
  {
    hide Resequence;
    var v' := v[c.tag := c.ack];
    if s.expecting == c.tag {
      OnTimeSplits(s, v, c);
      ResequenceSplits(Confirm(s, c), v');
    } else {
      EarlySplits(s, v, c);
      ResequenceSplits(s.(stash := s.stash[c.tag := c]), v');
    }
  }

  lemma OnTimeSplits(s: Confirms, v: map<uint64, bool>, c: Confirmation)
    requires Splits(s, v) && c.tag !in v && c.tag == s.expecting < TAG_LIMIT
    ensures Splits(Confirm(s, c), v[c.tag := c.ack])
  {
  }

  lemma EarlySplits(s: Confirms, v: map<uint64, bool>, c: Confirmation)
    requires Splits(s, v) && c.tag !in v && 1 <= c.tag < TAG_LIMIT && c.tag != s.expecting
    ensures Splits(s.(stash := s.stash[c.tag := c]), v[c.tag := c.ack])
  {
    var v' := v[c.tag := c.ack];
    assert s.stash[c.tag := c] == map t | t in v' && t >= s.expecting :: Confirmation(t, v'[t]);
  }

  lemma {:induction false} OnceEachIsProper(ops: seq<Op>)
    requires OnceEach(ops)
    ensures AllProper(ops)
  {
    if ops != [] {
      OnceEachIsProper(ops[..|ops| - 1]);
      assert ops == ops[..|ops| - 1] + [ops[|ops| - 1]];
    }
  }

  /** Whatever the order, even of tags confirmed before they are published, each keeps its verdict. */
  lemma {:induction false} VerdictsAreKept(ops: seq<Op>)
    requires OnceEach(ops)
    ensures AllProper(ops)
    ensures Splits(Run(ops), Verdicts(ops)) && Run(ops).published == PublishedBy(ops) <= TAG_LIMIT
    ensures ops != [] && ops[|ops| - 1].ConfirmOne? && Run(ops).expecting in Verdicts(ops)
      ==> Run(ops).expecting > Run(ops).published
  {
    OnceEachIsProper(ops);
    if ops != [] {
      var front, last := ops[..|ops| - 1], ops[|ops| - 1];
      VerdictsAreKept(front);
      if last.ConfirmOne? {
        OneSplits(Run(front), Verdicts(front), last.c);
      }
    }
  }

  lemma {:induction false} PublishedTagsAreBounded(ops: seq<Op>, t: uint64)
    requires PublishedFirst(ops) && OnceEach(ops) && t in Verdicts(ops)
    ensures t <= PublishedBy(ops)
  {
    var front, last := ops[..|ops| - 1], ops[|ops| - 1];
    if t in Verdicts(front) {
      PublishedTagsAreBounded(front, t);
    }
  }

  /**
   When every tag is published before it is confirmed, the emitted tags are the longest run 1..k of
   confirmed ones: nothing that could be emitted is kept back.
   */
  lemma {:induction false} LongestRunIsEmitted(ops: seq<Op>)
    requires OnceEach(ops) && PublishedFirst(ops)
    ensures AllProper(ops)
    ensures Splits(Run(ops), Verdicts(ops)) && Run(ops).expecting !in Verdicts(ops)
  {
    VerdictsAreKept(ops);
    if ops != [] {
      var front, last := ops[..|ops| - 1], ops[|ops| - 1];
      LongestRunIsEmitted(front);
      VerdictsAreKept(front);
      if last.ConfirmOne? && Run(ops).expecting in Verdicts(ops) {
        PublishedTagsAreBounded(ops, Run(ops).expecting);
      }
    }
  }

  /** The same confirmations in any two orders lead to the same state and the same emissions. */
  lemma OrderDoesNotMatter(a: seq<Op>, b: seq<Op>)
    requires OnceEach(a) && PublishedFirst(a) && OnceEach(b) && PublishedFirst(b)
    requires Verdicts(a) == Verdicts(b)
    ensures AllProper(a) && AllProper(b)
    ensures Run(a).expecting == Run(b).expecting
    ensures Run(a).stash == Run(b).stash
    ensures Run(a).emitted == Run(b).emitted
  {
    LongestRunIsEmitted(a);
    LongestRunIsEmitted(b);
    var s, t, v := Run(a), Run(b), Verdicts(a);
    ExpectingIsLeast(s, t, v);
    ExpectingIsLeast(t, s, v);
    forall i | 0 <= i < |s.emitted| ensures s.emitted[i] == t.emitted[i] {
      assert s.emitted[i + 1 - 1] == Confirmation(i + 1, v[i + 1]);
    }
  }

  lemma ExpectingIsLeast(s: Confirms, t: Confirms, v: map<uint64, bool>)
    requires Splits(s, v) && Splits(t, v) && s.expecting !in v
    ensures t.expecting <= s.expecting
  {
    assert forall k: uint64 | 1 <= k < t.expecting :: k in v;
  }

  const CONFIRM1 := Confirmation(1, true)
  const CONFIRM2 := Confirmation(2, true)

  /**
   Without that condition order does matter: tags confirmed in the order 2, 1 before they are
   published leave 2 in the stash, and publishing does not bring it out.
   */
  lemma EarlyConfirmationsAreKeptBack()
    ensures var ops := [ConfirmOne(CONFIRM2)] + [ConfirmOne(CONFIRM1)] + [Publish] + [Publish];
      OnceEach(ops) && AllProper(ops) && Run(ops).emitted == [CONFIRM1] && Run(ops).stash == map[2 := CONFIRM2]
  {
    var a := [ConfirmOne(CONFIRM2)];
    var b := a + [ConfirmOne(CONFIRM1)];
    FirstStep(ConfirmOne(CONFIRM2));
    assert Run(a) == NEW.(stash := map[2 := CONFIRM2]);
    NextStep(a, ConfirmOne(CONFIRM1));
    assert Confirm(Run(a), CONFIRM1).stash == map[2 := CONFIRM2];
    NextStep(b, Publish);
    NextStep(b + [Publish], Publish);
  }

  lemma FirstStep(op: Op)
    requires Proper(op) && (op.ConfirmOne? ==> op.c.tag > 0) && (op.Publish? || op.ConfirmOne?)
    ensures AllProper([op]) && Run([op]) == Apply(NEW, op) && OnceEach([op])
    ensures Verdicts([op]) == if op.ConfirmOne? then map[op.c.tag := op.c.ack] else map[]
    ensures PublishedBy([op]) == if op.Publish? then 1 else 0
  {
    var none: seq<Op> := [];
    assert [op][..0] == none && OnceEach(none) && Verdicts(none) == map[] && PublishedBy(none) == 0;
  }

  lemma NextStep(ops: seq<Op>, op: Op)
    requires AllProper(ops) && Proper(op) && OnceEach(ops)
    ensures AllProper(ops + [op]) && Run(ops + [op]) == Apply(Run(ops), op)
    ensures Verdicts(ops + [op]) == if op.ConfirmOne? then Verdicts(ops)[op.c.tag := op.c.ack] else Verdicts(ops)
    ensures PublishedBy(ops + [op]) == PublishedBy(ops) + (if op.Publish? then 1 else 0)
    ensures op.Publish? && PublishedBy(ops) < TAG_LIMIT ==> OnceEach(ops + [op])
    ensures op.ConfirmOne? && 1 <= op.c.tag && op.c.tag !in Verdicts(ops) ==> OnceEach(ops + [op])
  {
    hide Apply;
    var longer := ops + [op];
    assert longer[..|longer| - 1] == ops && longer[|longer| - 1] == op;
  }
}
