/**
 Which messages make the order of a tag's deliveries depend on the scheduler: exactly those in which
 the consumer is cancelled between two of its deliveries.
 */
module Renewal {
  import opened Methods
  import opened TypedMessages
  import opened Consumers
  import opened Dispatching
  import opened Overtaking

  predicate Delivers(m: Message, t: Tag)
    requires Sound(m)
  {
    m.command.name == BasicDeliver && ConsumerTag(m) == t
  }

  predicate Cancels(m: Message, t: Tag)
    requires Sound(m)
  {
    m.command.name == BasicCancel && ConsumerTag(m) == t
  }

  predicate SomeDelivery(ms: seq<Message>, t: Tag)
    requires TypedMessages.AllSound(ms)
  {
    ms != [] && (Delivers(ms[0], t) || SomeDelivery(ms[1..], t))
  }

  /** A cancel, and later a delivery. */
  predicate Resumes(ms: seq<Message>, t: Tag)
    requires TypedMessages.AllSound(ms)
  {
    ms != [] && (Resumes(ms[1..], t) || (Cancels(ms[0], t) && SomeDelivery(ms[1..], t)))
  }

  /** A delivery, later a cancel, and later still a delivery, all of one tag. */
  predicate Renews(ms: seq<Message>, t: Tag)
    requires TypedMessages.AllSound(ms)
  {
    ms != [] && (Renews(ms[1..], t) || (Delivers(ms[0], t) && Resumes(ms[1..], t)))
  }

  lemma {:induction false} FindDelivery(ms: seq<Message>, t: Tag) returns (k: nat)
    requires TypedMessages.AllSound(ms) && SomeDelivery(ms, t)
    ensures k < |ms| && Delivers(ms[k], t)
  {
    hide Sound, Delivers, Cancels;
    k := 0;
    if !Delivers(ms[0], t) {
      k := FindDelivery(ms[1..], t);
      k := k + 1;
    }
  }

  lemma {:induction false} FindResumption(ms: seq<Message>, t: Tag) returns (j: nat, k: nat)
    requires TypedMessages.AllSound(ms) && Resumes(ms, t)
    ensures j < k < |ms| && Cancels(ms[j], t) && Delivers(ms[k], t)
  {
    hide Sound, Delivers, Cancels;
    if Resumes(ms[1..], t) {
      j, k := FindResumption(ms[1..], t);
      j, k := j + 1, k + 1;
    } else {
      k := FindDelivery(ms[1..], t);
      j, k := 0, k + 1;
    }
  }

  lemma {:induction false} FindRenewal(ms: seq<Message>, t: Tag) returns (i: nat, j: nat, k: nat)
    requires TypedMessages.AllSound(ms) && Renews(ms, t)
    ensures i < j < k < |ms| && Delivers(ms[i], t) && Cancels(ms[j], t) && Delivers(ms[k], t)
  {
    hide Sound, Delivers, Cancels;
    if Renews(ms[1..], t) {
      i, j, k := FindRenewal(ms[1..], t);
      i, j, k := i + 1, j + 1, k + 1;
    } else {
      j, k := FindResumption(ms[1..], t);
      i, j, k := 0, j + 1, k + 1;
    }
  }

  lemma {:induction false} RenewsIfSo(ms: seq<Message>, t: Tag, i: nat, j: nat, k: nat)
    requires TypedMessages.AllSound(ms)
    requires i < j < k < |ms| && Delivers(ms[i], t) && Cancels(ms[j], t) && Delivers(ms[k], t)
    ensures Renews(ms, t)
  {
    hide Sound, Delivers, Cancels;
    if i > 0 {
      RenewsIfSo(ms[1..], t, i - 1, j - 1, k - 1);
    } else {
      ResumesIfSo(ms[1..], t, j - 1, k - 1);
    }
  }

  lemma {:induction false} ResumesIfSo(ms: seq<Message>, t: Tag, j: nat, k: nat)
    requires TypedMessages.AllSound(ms)
    requires j < k < |ms| && Cancels(ms[j], t) && Delivers(ms[k], t)
    ensures Resumes(ms, t)
  {
    hide Sound, Delivers, Cancels;
    if j > 0 {
      ResumesIfSo(ms[1..], t, j - 1, k - 1);
    } else {
      DeliveryIfSo(ms[1..], t, k - 1);
    }
  }

  lemma {:induction false} DeliveryIfSo(ms: seq<Message>, t: Tag, k: nat)
    requires TypedMessages.AllSound(ms) && k < |ms| && Delivers(ms[k], t)
    ensures SomeDelivery(ms, t)
  {
    hide Sound, Delivers, Cancels;
    if k > 0 {
      DeliveryIfSo(ms[1..], t, k - 1);
    }
  }

  // ---------------------------------------------------------------- without renewal

  predicate HasBuffer(bs: seq<Buffer>, t: Tag) {
    exists i | 0 <= i < |bs| :: bs[i].tag == t
  }

  predicate Single(bs: seq<Buffer>, t: Tag) {
    forall i, j | 0 <= i < j < |bs| :: bs[i].tag != t || bs[j].tag != t
  }

  /** The tag has one buffer at most, and what is still to come will not ask for another. */
  predicate Settled(w: World, t: Tag)
    requires TypedMessages.AllSound(w.todo)
  {
    && Single(w.consumers.buffers, t)
    && (t in w.consumers.chans ==> HasBuffer(w.consumers.buffers, t))
    && (if !HasBuffer(w.consumers.buffers, t) then !Renews(w.todo, t)
        else if t in w.consumers.chans then !Resumes(w.todo, t)
        else !SomeDelivery(w.todo, t))
  }

  lemma OperationMaps(s: Registry, e: Event)
    requires !s.panicked && ChansOk(s) && Step(s, e).Some?
    requires (e.Add? && e.tag !in s.chans) || e.Cancel? || e.BeginSend?
    ensures var r := Step(s, e).value;
      && |r.buffers| == |s.buffers| + (if e.Add? then 1 else 0)
      && (forall i | 0 <= i < |s.buffers| :: r.buffers[i].tag == s.buffers[i].tag)
      && (e.Add? ==> r.buffers[|s.buffers|].tag == e.tag)
      && (forall t :: t in r.chans <==> if e.Add? then t in s.chans || t == e.tag
                                        else if e.Cancel? then t in s.chans && t != e.tag else t in s.chans)
  {
  }

  lemma SettledStays(w: World, move: Move, t: Tag)
    requires TypedMessages.AllSound(w.todo) && Running(w.consumers) && Next(w, move).Some? && Settled(w, t)
    ensures var w' := Next(w, move).value;
      TypedMessages.AllSound(w'.todo) && Settled(w', t)
  {
    hide Step, Running, Sound;
    var s := w.consumers;
    if move.Buffering? {
      BufferingIsSafe(s, move.e);
      BufferEffect(s, move.e);
      SameTags(s.buffers, Next(w, move).value.consumers.buffers, t);
    } else {
      RunningIsSound(s);
      if Wanted(w, move.output).Some? {
        var e := Wanted(w, move.output).value;
        OperationMaps(s, e);
        if e.Add? {
          OneMoreTag(s.buffers, Next(w, move).value.consumers.buffers, t);
        } else {
          SameTags(s.buffers, Next(w, move).value.consumers.buffers, t);
        }
      }
    }
  }

  lemma SameTags(bs: seq<Buffer>, cs: seq<Buffer>, t: Tag)
    requires |bs| == |cs| && forall i | 0 <= i < |bs| :: cs[i].tag == bs[i].tag
    ensures HasBuffer(bs, t) <==> HasBuffer(cs, t)
    ensures Single(bs, t) <==> Single(cs, t)
  {
  }

  lemma OneMoreTag(bs: seq<Buffer>, cs: seq<Buffer>, t: Tag)
    requires |cs| == |bs| + 1 && forall i | 0 <= i < |bs| :: cs[i].tag == bs[i].tag
    ensures HasBuffer(cs, t) <==> HasBuffer(bs, t) || cs[|bs|].tag == t
    ensures Single(cs, t) <==> Single(bs, t) && !(HasBuffer(bs, t) && cs[|bs|].tag == t)
  {
  }

  lemma {:induction false} SettledNeverOvertakes(w: World, moves: seq<Move>, w': World, ms: seq<Message>, t: Tag)
    requires TypedMessages.AllSound(w.todo) && TypedMessages.AllSound(ms) && Reaches(w, moves, w')
    requires Running(w.consumers) && Accounted(w, ms, t) && Settled(w, t)
    ensures NeverOvertakes(w, moves, t)
    ensures TypedMessages.AllSound(w'.todo) && Settled(w', t)
    decreases |moves|
  {
    hide Running, Accounted, Next, Settled, Overtakes;
    if moves != [] {
      NextKeeps(w, moves[0], ms, t);
      SettledStays(w, moves[0], t);
      SingleIsNotOvertaken(w, moves[0], t);
      SettledNeverOvertakes(Next(w, moves[0]).value, moves[1..], w', ms, t);
    }
  }

  lemma SingleIsNotOvertaken(w: World, move: Move, t: Tag)
    requires TypedMessages.AllSound(w.todo) && Settled(w, t)
    ensures !Overtakes(w.consumers, move, t)
  {
  }

  ghost predicate AlwaysInOrder(ms: seq<Message>, t: Tag)
    requires TypedMessages.AllSound(ms)
  {
    forall moves, w | Reaches(Start(ms), moves, w) :: Timeline(Start(ms), moves, t) <= DeliveriesFor(ms, t)
  }

  lemma UnrenewedLeaveInOrder(ms: seq<Message>, moves: seq<Move>, w: World, t: Tag)
    requires TypedMessages.AllSound(ms) && !Renews(ms, t) && Reaches(Start(ms), moves, w)
    ensures TypedMessages.AllSound(w.todo) && Settled(w, t)
    ensures Timeline(Start(ms), moves, t) <= DeliveriesFor(ms, t)
  {
    hide Reaches, Running, NeverOvertakes, Timeline, DeliveriesFor, Accounted, Renews, SentBy, ReceivedBy;
    StartIsTidy(ms, t);
    assert Settled(Start(ms), t);
    SettledNeverOvertakes(Start(ms), moves, w, ms, t);
    DeliveriesLeaveInOrder(ms, moves, w, t);
  }

  // ---------------------------------------------------------------- with renewal: nothing is sent on yet

  /** Everything received is still queued. */
  predicate Waits(s: Registry) {
    Running(s) && s.lock == Free && forall i | 0 <= i < |s.buffers| :: s.buffers[i].sent == []
  }

  /** Buffers keep their tags, receive more, and are not mapped again. */
  predicate Grows(s: Registry, r: Registry) {
    && |s.buffers| <= |r.buffers|
    && forall i | 0 <= i < |s.buffers| ::
         && r.buffers[i].tag == s.buffers[i].tag
         && |s.buffers[i].received| <= |r.buffers[i].received|
         && (r.buffers[i].inputOpen ==> s.buffers[i].inputOpen)
  }

  lemma OperationGrows(s: Registry, e: Event)
    requires Running(s) && s.lock == Free && Step(s, e).Some?
    requires (e.Add? && e.tag !in s.chans) || e.Cancel? || e.BeginSend?
    ensures Grows(s, Step(s, e).value)
  {
  }

  lemma BufferingGrows(s: Registry, e: Event)
    requires ByBuffer(e) && e.buffer < |s.buffers| && BufferStep(s, e).Some? && !BufferStep(s, e).value.panicked
    ensures Grows(s, BufferStep(s, e).value)
  {
  }

  /** Feeding: the moves of a run in which no buffer sends anything on. */
  predicate Feeds(w: World, moves: seq<Move>, w': World)
    requires TypedMessages.AllSound(w.todo)
  {
    && Reaches(w, moves, w') && TypedMessages.AllSound(w'.todo)
    && Waits(w.consumers) && Waits(w'.consumers) && Grows(w.consumers, w'.consumers)
    && forall i | 0 <= i < |moves| :: !(moves[i].Buffering? && moves[i].e.Emit?)
  }

  lemma NextIsSound(w: World, move: Move)
    requires TypedMessages.AllSound(w.todo) && Next(w, move).Some?
    ensures TypedMessages.AllSound(Next(w, move).value.todo)
  {
    hide Step, Sound;
  }

  lemma OneMove(w: World, move: Move)
    requires TypedMessages.AllSound(w.todo) && Next(w, move).Some?
    ensures Reaches(w, [move], Next(w, move).value)
  {
    hide Next;
    NextIsSound(w, move);
    assert [move][1..] == [];
  }

  lemma {:induction false} SilentTimeline(w: World, moves: seq<Move>, more: seq<Move>, w': World, t: Tag)
    requires TypedMessages.AllSound(w.todo) && Reaches(w, moves, w') && TypedMessages.AllSound(w'.todo)
    requires forall i | 0 <= i < |moves| :: !(moves[i].Buffering? && moves[i].e.Emit?)
    ensures Timeline(w, moves + more, t) == Timeline(w', more, t)
    decreases |moves|
  {
    hide Next;
    if moves == [] {
      assert moves + more == more;
    } else {
      assert (moves + more)[0] == moves[0] && (moves + more)[1..] == moves[1..] + more;
      assert EmittedBy(w.consumers, moves[0], t) == [];
      NextIsSound(w, moves[0]);
      SilentTimeline(Next(w, moves[0]).value, moves[1..], more, w', t);
    }
  }

  lemma {:induction false} ReachesFurther(w: World, a: seq<Move>, m: World, b: seq<Move>, w': World)
    requires TypedMessages.AllSound(w.todo) && Reaches(w, a, m) && TypedMessages.AllSound(m.todo) && Reaches(m, b, w')
    ensures Reaches(w, a + b, w')
    decreases |a|
  {
    hide Next;
    if a == [] {
      assert a + b == b;
    } else {
      assert (a + b)[0] == a[0] && (a + b)[1..] == a[1..] + b;
      NextIsSound(w, a[0]);
      ReachesFurther(Next(w, a[0]).value, a[1..], m, b, w');
    }
  }

  lemma FeedsFurther(w: World, a: seq<Move>, m: World, b: seq<Move>, w': World)
    requires TypedMessages.AllSound(w.todo) && Feeds(w, a, m) && Feeds(m, b, w')
    ensures Feeds(w, a + b, w')
  {
    hide Reaches, Waits;
    ReachesFurther(w, a, m, b, w');
  }

  lemma FeedsNothing(w: World)
    requires TypedMessages.AllSound(w.todo) && Waits(w.consumers)
    ensures Feeds(w, [], w)
  {
  }

  /** One step of dispatch that is not a send. */
  lemma FeedStep(w: World, output: nat)
    requires TypedMessages.AllSound(w.todo) && w.todo != [] && Waits(w.consumers) && Unused(w.consumers, output)
    requires Wanted(w, output).Some? ==> !Wanted(w, output).value.BeginSend?
    ensures Next(w, Dispatch(output)).Some?
    ensures var w' := Next(w, Dispatch(output)).value;
      && Feeds(w, [Dispatch(output)], w')
      && w'.todo == (if Wanted(w, output).Some? && Wanted(w, output).value.Add? then w.todo else w.todo[1..])
      && forall t :: t in w'.consumers.chans <==>
           if Wanted(w, output).None? then t in w.consumers.chans
           else if Wanted(w, output).value.Add? then t in w.consumers.chans || t == Wanted(w, output).value.tag
           else t in w.consumers.chans && t != Wanted(w, output).value.tag
  {
    hide Step, Running, Sound;
    var s, e := w.consumers, Wanted(w, output);
    OperationsAreEnabled(s);
    var w' := Next(w, Dispatch(output)).value;
    RunningIsSound(s);
    if e.Some? {
      OperationKeepsAccounts(s, e.value, []);
      OperationEffect(s, e.value);
      OperationMaps(s, e.value);
      OperationGrows(s, e.value);
    }
    OneMove(w, Dispatch(output));
  }

  /** The tag has a buffer that takes deliveries and has got one. */
  predicate Served(s: Registry, t: Tag) {
    t in s.chans && s.chans[t] < |s.buffers| && s.buffers[s.chans[t]].received != []
  }

  /** A send that its buffer receives at once. */
  lemma FeedSend(w: World, output: nat) returns (moves: seq<Move>, w': World)
    requires TypedMessages.AllSound(w.todo) && w.todo != [] && Waits(w.consumers) && Unused(w.consumers, output)
    requires w.todo[0].command.name == BasicDeliver && ConsumerTag(w.todo[0]) in w.consumers.chans
    ensures Feeds(w, moves, w') && w'.todo == w.todo[1..] && Served(w'.consumers, ConsumerTag(w.todo[0]))
  {
    hide Step, Running, Sound, Reaches;
    var s, t := w.consumers, ConsumerTag(w.todo[0]);
    var e := BeginSend(t, w.todo[0]);
    var move := Dispatch(output);
    OperationsAreEnabled(s);
    OperationKeepsAccounts(s, e, []);
    SendChangesTheLock(s, e);
    var held := World(w.todo[1..], s.(lock := Sending(s.chans[t], w.todo[0])));
    assert Next(w, move) == Some(held);
    var receipt;
    receipt, w' := ReceiveAtOnce(held, t);
    OneMove(w, move);
    ReachesFurther(w, [move], held, [receipt], w');
    moves := [move] + [receipt];
  }

  lemma ReceiveAtOnce(w: World, t: Tag) returns (move: Move, w': World)
    requires TypedMessages.AllSound(w.todo) && Running(w.consumers) && w.consumers.lock.Sending?
    requires t in w.consumers.chans && w.consumers.lock.buffer == w.consumers.chans[t]
    requires forall i | 0 <= i < |w.consumers.buffers| :: w.consumers.buffers[i].sent == []
    ensures Reaches(w, [move], w') && w'.todo == w.todo && Waits(w'.consumers) && Served(w'.consumers, t)
    ensures Grows(w.consumers, w'.consumers) && !(move.Buffering? && move.e.Emit?)
  {
    hide Step, Running, Sound, BufferStep;
    var s := w.consumers;
    var e := Receive(s.lock.buffer);
    move := Buffering(e);
    SendingCanEnd(s);
    BufferingKeepsAccounts(s, e, []);
    BufferingIsSafe(s, e);
    BufferEffect(s, e);
    BufferingGrows(s, e);
    w' := Next(w, move).value;
    OneMove(w, move);
  }

  lemma SendChangesTheLock(s: Registry, e: Event)
    requires Running(s) && s.lock == Free && e.BeginSend? && e.tag in s.chans
    ensures Step(s, e) == Some(s.(lock := Sending(s.chans[e.tag], e.delivery)))
    ensures Waits(s) ==> forall i | 0 <= i < |s.buffers| :: s.buffers[i].sent == []
  {
  }

  /** One message, all the way. */
  lemma FeedOne(w: World) returns (moves: seq<Move>, w': World)
    requires TypedMessages.AllSound(w.todo) && w.todo != [] && Waits(w.consumers)
    ensures Feeds(w, moves, w') && w'.todo == w.todo[1..]
    ensures forall t :: Delivers(w.todo[0], t) ==> Served(w'.consumers, t)
    ensures forall t :: Cancels(w.todo[0], t) ==> t !in w'.consumers.chans
  {
    hide Feeds, Next, Waits, Sound;
    var output := UnusedOutput(w.consumers);
    var m := w.todo[0];
    if m.command.name != BasicDeliver {
      FeedStep(w, output);
      moves, w' := [Dispatch(output)], Next(w, Dispatch(output)).value;
    } else if ConsumerTag(m) in w.consumers.chans {
      moves, w' := FeedSend(w, output);
    } else {
      FeedStep(w, output);
      var w1 := Next(w, Dispatch(output)).value;
      FedWaits(w, [Dispatch(output)], w1);
      var other := UnusedOutput(w1.consumers);
      var rest;
      rest, w' := FeedSend(w1, other);
      FeedsFurther(w, [Dispatch(output)], w1, rest, w');
      moves := [Dispatch(output)] + rest;
    }
  }

  lemma FedWaits(w: World, moves: seq<Move>, w': World)
    requires TypedMessages.AllSound(w.todo) && Feeds(w, moves, w')
    ensures TypedMessages.AllSound(w'.todo) && Waits(w'.consumers) && Grows(w.consumers, w'.consumers)
  {
  }

  lemma {:induction false} FeedMany(w: World, n: nat) returns (moves: seq<Move>, w': World)
    requires TypedMessages.AllSound(w.todo) && Waits(w.consumers) && n <= |w.todo|
    ensures Feeds(w, moves, w') && w'.todo == w.todo[n..]
  {
    hide Feeds, Waits, Sound;
    if n == 0 {
      moves, w' := [], w;
      FeedsNothing(w);
    } else {
      var a, m := FeedMany(w, n - 1);
      FedWaits(w, a, m);
      var b;
      b, w' := FeedOne(m);
      FeedsFurther(w, a, m, b, w');
      moves := a + b;
    }
  }

  // ---------------------------------------------------------------- exactly when

  /** Two buffers of the tag hold deliveries; the later one could send on now. */
  predicate Overtakable(s: Registry, t: Tag, i: nat, j: nat) {
    && i < j < |s.buffers| && s.buffers[i].tag == t && s.buffers[j].tag == t
    && s.buffers[i].queue != [] && s.buffers[j].queue != []
  }

  lemma FedIsQueued(s: Registry, i: nat)
    requires Waits(s) && i < |s.buffers| && s.buffers[i].received != []
    ensures s.buffers[i].queue == s.buffers[i].received
    ensures Step(s, Emit(i)).Some?
  {
    assert BufferOk(s, i);
    assert [] + s.buffers[i].queue == s.buffers[i].queue;
    assert s.buffers[i].output !in s.closedOutputs by { LiveOutputIsOpen(s, i); }
  }

  lemma LiveOutputIsOpen(s: Registry, i: nat)
    requires Running(s) && i < |s.buffers| && s.buffers[i].pc != Gone
    ensures s.buffers[i].output !in s.closedOutputs
  {
  }

  lemma MappedIsOpen(s: Registry, t: Tag)
    requires Waits(s) && t in s.chans
    ensures s.chans[t] < |s.buffers| && s.buffers[s.chans[t]].inputOpen && s.buffers[s.chans[t]].tag == t
  {
    assert BufferOk(s, s.chans[t]);
  }

  lemma UnmappedIsClosed(s: Registry, t: Tag, i: nat)
    requires Waits(s) && t !in s.chans && i < |s.buffers| && s.buffers[i].tag == t
    ensures !s.buffers[i].inputOpen
  {
    assert BufferOk(s, i);
  }

  /** Feeding all messages of a renewed consumer leaves deliveries queued in two of its buffers. */
  lemma RenewedFillsTwo(ms: seq<Message>, t: Tag) returns (moves: seq<Move>, w: World, i: nat, j: nat)
    requires TypedMessages.AllSound(ms) && Renews(ms, t)
    ensures Feeds(Start(ms), moves, w) && Overtakable(w.consumers, t, i, j)
  {
    hide Feeds, Waits, Sound, Renews, Delivers, Cancels;
    var m1, c, m2 := FindRenewal(ms, t);
    StartWaits(ms);
    var a, w1 := FeedMany(Start(ms), m1);
    FedWaits(Start(ms), a, w1);
    var a', w2 := FeedOne(w1);
    FedWaits(w1, a', w2);
    i := w2.consumers.chans[t];
    MappedIsOpen(w2.consumers, t);
    assert w2.todo == ms[m1 + 1..];
    var b, w3 := FeedMany(w2, c - m1 - 1);
    FedWaits(w2, b, w3);
    assert w3.todo == ms[c..] && w3.todo[0] == ms[c];
    var b', w4 := FeedOne(w3);
    FedWaits(w3, b', w4);
    UnmappedIsClosed(w4.consumers, t, i);
    assert w4.todo == ms[c + 1..];
    var d, w5 := FeedMany(w4, m2 - c - 1);
    FedWaits(w4, d, w5);
    assert w5.todo == ms[m2..] && w5.todo[0] == ms[m2];
    var d', w6 := FeedOne(w5);
    FedWaits(w5, d', w6);
    j := w6.consumers.chans[t];
    MappedIsOpen(w6.consumers, t);
    if j < |w4.consumers.buffers| {
      UnmappedIsClosed(w4.consumers, t, j);
      assert false;
    }
    FeedsFurther(Start(ms), a, w1, a', w2);
    FeedsFurther(Start(ms), a + a', w2, b, w3);
    FeedsFurther(Start(ms), a + a' + b, w3, b', w4);
    FeedsFurther(Start(ms), a + a' + b + b', w4, d, w5);
    FeedsFurther(Start(ms), a + a' + b + b' + d, w5, d', w6);
    moves, w := a + a' + b + b' + d + d', w6;
    FedIsQueued(w.consumers, i);
    FedIsQueued(w.consumers, j);
  }

  lemma StartWaits(ms: seq<Message>)
    requires TypedMessages.AllSound(ms)
    ensures Waits(Start(ms).consumers)
  {
  }

  ghost predicate CanOvertake(ms: seq<Message>, t: Tag)
    requires TypedMessages.AllSound(ms)
  {
    exists moves, w, move :: Reaches(Start(ms), moves, w) && TypedMessages.AllSound(w.todo)
      && Next(w, move).Some? && Overtakes(w.consumers, move, t)
  }

  predicate DistinctDeliveries(ms: seq<Message>, t: Tag)
    requires TypedMessages.AllSound(ms)
  {
    var ds := DeliveriesFor(ms, t);
    forall i, j | 0 <= i < j < |ds| :: ds[i] != ds[j]
  }

  lemma {:induction false} FirstsReceived(bs: seq<Buffer>, n: nat, t: Tag)
    requires n <= |bs|
    ensures ReceivedBy(bs[..n], t) <= ReceivedBy(bs, t)
  {
    if n < |bs| {
      FirstsReceived(bs[..|bs| - 1], n, t);
      assert bs[..|bs| - 1][..n] == bs[..n];
    } else {
      assert bs[..n] == bs;
    }
  }

  /** What the later buffer received first does not come first for the tag. */
  lemma NotTheFirst(bs: seq<Buffer>, t: Tag, i: nat, j: nat) returns (p: nat)
    requires i < j < |bs| && bs[i].tag == t && bs[j].tag == t && bs[i].received != [] && bs[j].received != []
    ensures 0 < p < |ReceivedBy(bs, t)| && ReceivedBy(bs, t)[p] == bs[j].received[0]
  {
    var own := ReceivedBy(bs[..i + 1], t);
    assert bs[..i + 1][..i] == bs[..i] && own == ReceivedBy(bs[..i], t) + bs[i].received;
    FirstsReceived(bs[..j], i + 1, t);
    assert bs[..j][..i + 1] == bs[..i + 1];
    p := |ReceivedBy(bs[..j], t)|;
    FirstsReceived(bs, j + 1, t);
    var upto := bs[..j + 1];
    assert upto[..j] == bs[..j] && upto[j] == bs[j];
    assert ReceivedBy(upto, t) == ReceivedBy(bs[..j], t) + bs[j].received;
    assert ReceivedBy(upto, t)[p] == bs[j].received[0];
  }

  lemma OvertakingIsEnabled(ms: seq<Message>, t: Tag) returns (moves: seq<Move>, w: World, i: nat, j: nat)
    requires TypedMessages.AllSound(ms) && Renews(ms, t)
    ensures Feeds(Start(ms), moves, w) && Overtakable(w.consumers, t, i, j)
    ensures Next(w, Buffering(Emit(j))).Some? && Overtakes(w.consumers, Buffering(Emit(j)), t)
    ensures CanOvertake(ms, t)
  {
    hide Renews, Sound, Waits, Step, Reaches;
    moves, w, i, j := RenewedFillsTwo(ms, t);
    QueuedWasReceived(w.consumers, i);
    QueuedWasReceived(w.consumers, j);
    FedIsQueued(w.consumers, j);
  }

  lemma QueuedWasReceived(s: Registry, i: nat)
    requires Waits(s) && i < |s.buffers|
    ensures s.buffers[i].queue == s.buffers[i].received
  {
    assert BufferOk(s, i);
    assert [] + s.buffers[i].queue == s.buffers[i].queue;
  }

  lemma RenewedMayLeaveOutOfOrder(ms: seq<Message>, t: Tag)
    requires TypedMessages.AllSound(ms) && Renews(ms, t) && DistinctDeliveries(ms, t)
    ensures !AlwaysInOrder(ms, t)
  {
    hide Renews, Sound, Waits, Next, Reaches, Timeline, DeliveriesFor, ReceivedBy;
    var moves, w, i, j := OvertakingIsEnabled(ms, t);
    var move := Buffering(Emit(j));
    var bs := w.consumers.buffers;
    QueuedWasReceived(w.consumers, i);
    QueuedWasReceived(w.consumers, j);
    var p := NotTheFirst(bs, t, i, j);
    DeliveriesReachTheirConsumers(ms, moves, w, t);
    OneMove(w, move);
    var next := Next(w, move).value;
    ReachesFurther(Start(ms), moves, w, [move], next);
    SilentTimeline(Start(ms), moves, [move], w, t);
    OneOnTheTimeline(w, move, t);
    var d, ds := bs[j].queue[0], DeliveriesFor(ms, t);
    assert Timeline(Start(ms), moves + [move], t) == [d];
    assert ds[p] == d && ds[0] != d;
    assert !([d] <= ds);
  }

  lemma OneOnTheTimeline(w: World, move: Move, t: Tag)
    requires TypedMessages.AllSound(w.todo) && Next(w, move).Some?
    ensures Timeline(w, [move], t) == EmittedBy(w.consumers, move, t)
  {
    hide Next;
    NextIsSound(w, move);
    assert [move][1..] == [];
    assert Timeline(Next(w, move).value, [], t) == [];
  }

  /**
   Exactly: a buffer can overtake an earlier one of its tag if and only if the messages renew the
   tag's consumer. If they do not, the tag's deliveries leave in order in every run; and if the
   deliveries are distinct, as delivery tags make them, they do so only then.
   */
  lemma OrderDependsOnTheMessages(ms: seq<Message>, t: Tag)
    requires TypedMessages.AllSound(ms)
    ensures CanOvertake(ms, t) <==> Renews(ms, t)
    ensures !Renews(ms, t) ==> AlwaysInOrder(ms, t)
    ensures DistinctDeliveries(ms, t) ==> (AlwaysInOrder(ms, t) <==> !Renews(ms, t))
  {
    hide Renews, Sound, Reaches, Timeline, DeliveriesFor, Next, Settled, Overtakes, DistinctDeliveries;
    if Renews(ms, t) {
      var moves, w, i, j := OvertakingIsEnabled(ms, t);
      if DistinctDeliveries(ms, t) {
        RenewedMayLeaveOutOfOrder(ms, t);
      }
    } else {
      forall moves, w | Reaches(Start(ms), moves, w)
        ensures Timeline(Start(ms), moves, t) <= DeliveriesFor(ms, t)
      {
        UnrenewedLeaveInOrder(ms, moves, w, t);
      }
      if CanOvertake(ms, t) {
        var moves, w, move :| Reaches(Start(ms), moves, w) && TypedMessages.AllSound(w.todo)
          && Next(w, move).Some? && Overtakes(w.consumers, move, t);
        UnrenewedLeaveInOrder(ms, moves, w, t);
        SingleIsNotOvertaken(w, move, t);
      }
    }
  }

  /** What Renews means, in positions. */
  lemma RenewsInPositions(ms: seq<Message>, t: Tag)
    requires TypedMessages.AllSound(ms)
    ensures Renews(ms, t) <==> exists i, j, k | 0 <= i < j < k < |ms| ::
      Delivers(ms[i], t) && Cancels(ms[j], t) && Delivers(ms[k], t)
  {
    hide Sound, Delivers, Cancels, Renews;
    if Renews(ms, t) {
      var i, j, k := FindRenewal(ms, t);
    }
    if i, j, k :| 0 <= i < j < k < |ms| && Delivers(ms[i], t) && Cancels(ms[j], t) && Delivers(ms[k], t) {
      RenewsIfSo(ms, t, i, j, k);
    }
  }
}
