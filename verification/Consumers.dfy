/**
 The consumer registry and its buffer goroutines, as steps that interleave freely. One operation at
 a time holds the lock; send keeps it until the buffer receives, close until all buffers are done.
 Every input channel belongs to the buffer made with it, and is named by that buffer's index.
 */
module Consumers {
  import opened Bytes
  import opened Methods
  import Reassembly

  type Tag = bytes
  type Delivery = Reassembly.Message

  /**
   Where a buffer goroutine is: at the range over its input, in the select with deliveries queued,
   or past both, with the deferred Done, then the deferred close of its output, still to run.
   */
  datatype Pc = Ranging | Selecting | Leaving | ClosingOutput | Gone

  /** inflight is false once the select has seen the input closed; received and sent are history. */
  datatype Buffer = Buffer(
    pc: Pc,
    tag: Tag,
    output: nat,
    inputOpen: bool,
    inflight: bool,
    queue: seq<Delivery>,
    received: seq<Delivery>,
    sent: seq<Delivery>)

  datatype Lock = Free | Sending(buffer: nat, delivery: Delivery) | ClosingInputs | Waiting

  /** panicked is set by whatever Go would panic on; a panicked program takes no more steps. */
  datatype Registry = Registry(
    lock: Lock,
    chans: map<Tag, nat>,
    buffers: seq<Buffer>,
    closed: bool,
    waitGroup: int,
    closedOutputs: set<nat>,
    panicked: bool)

  const NEW := Registry(Free, map[], [], false, 0, {}, false)

  datatype Event =
    // operations, by the holder of the lock
    | Add(tag: Tag, output: nat)
    | Cancel(tag: Tag)
    | BeginSend(tag: Tag, delivery: Delivery)
    | BeginClose
    | CloseInput(tag: Tag)
    | AwaitBuffers
    | WaitReturns
    // buffer goroutines
    | Receive(buffer: nat)
    | SeeInputClosed(buffer: nat)
    | SeeClosed(buffer: nat)
    | Emit(buffer: nat)
    | RunDone(buffer: nat)
    | CloseOutput(buffer: nat)

  function Panic(s: Registry): Registry {
    s.(panicked := true)
  }

  function Update(s: Registry, b: nat, buf: Buffer): Registry
    requires b < |s.buffers|
  {
    s.(buffers := s.buffers[b := buf])
  }

  /** close(input): closing a closed channel panics. */
  function CloseInputOf(s: Registry, b: nat): Registry {
    if b >= |s.buffers| || !s.buffers[b].inputOpen then Panic(s)
    else Update(s, b, s.buffers[b].(inputOpen := false))
  }

  function DoAdd(s: Registry, tag: Tag, output: nat): Registry {
    var r := if tag in s.chans then CloseInputOf(s, s.chans[tag]) else s;
    r.(chans := r.chans[tag := |r.buffers|],
       buffers := r.buffers + [Buffer(Ranging, tag, output, true, true, [], [], [])],
       waitGroup := r.waitGroup + 1)
  }

  function Unmap(s: Registry, tag: Tag): Registry
    requires tag in s.chans
  {
    CloseInputOf(s.(chans := s.chans - {tag}), s.chans[tag])
  }

  predicate Receptive(b: Buffer) {
    b.pc == Ranging || (b.pc == Selecting && b.inflight)
  }

  /** The step of one event, or None where the event cannot happen. */
  function Step(s: Registry, e: Event): Option<Registry> {
    if s.panicked then None
    else
      match e
      case Add(tag, output) => if s.lock != Free then None else Some(DoAdd(s, tag, output))
      case Cancel(tag) =>
        if s.lock != Free then None else if tag in s.chans then Some(Unmap(s, tag)) else Some(s)
      case BeginSend(tag, delivery) =>
        if s.lock != Free then None
        else if tag in s.chans then Some(s.(lock := Sending(s.chans[tag], delivery))) else Some(s)
      case BeginClose =>
        if s.lock != Free then None
        else if s.closed then Some(Panic(s)) else Some(s.(lock := ClosingInputs, closed := true))
      case CloseInput(tag) =>
        if s.lock != ClosingInputs || tag !in s.chans then None else Some(Unmap(s, tag))
      case AwaitBuffers =>
        if s.lock != ClosingInputs || s.chans != map[] then None else Some(s.(lock := Waiting))
      case WaitReturns => if s.lock != Waiting || s.waitGroup != 0 then None else Some(s.(lock := Free))
      case _ => if e.buffer >= |s.buffers| then None else BufferStep(s, e)
  }

  /** The events of the goroutines; the others belong to the holder of the lock. */
  predicate ByBuffer(e: Event) {
    e.Receive? || e.SeeInputClosed? || e.SeeClosed? || e.Emit? || e.RunDone? || e.CloseOutput?
  }

  function BufferStep(s: Registry, e: Event): Option<Registry>
    requires ByBuffer(e)
    requires e.buffer < |s.buffers|
  {
    var b := s.buffers[e.buffer];
    match e
    case Receive(i) =>
      if !(s.lock.Sending? && s.lock.buffer == i && Receptive(b)) then None
      else if !b.inputOpen then Some(Panic(s))
      else
        var d := s.lock.delivery;
        Some(Update(s, i, b.(pc := Selecting, queue := b.queue + [d], received := b.received + [d])).(lock := Free))
    case SeeInputClosed(i) =>
      if b.inputOpen then None
      else if b.pc == Ranging then Some(Update(s, i, b.(pc := Leaving)))
      else if b.pc == Selecting && b.inflight then Some(Update(s, i, b.(inflight := false)))
      else None
    case SeeClosed(i) => if s.closed && b.pc == Selecting then Some(Update(s, i, b.(pc := Leaving))) else None
    case Emit(i) =>
      if b.pc != Selecting || b.queue == [] then None
      else if b.output in s.closedOutputs then Some(Panic(s))
      else
        var pc := if |b.queue| == 1 then Ranging else Selecting;
        Some(Update(s, i, b.(pc := pc, queue := b.queue[1..], sent := b.sent + [b.queue[0]])))
    case RunDone(i) =>
      if b.pc != Leaving then None
      else if s.waitGroup == 0 then Some(Panic(s))
      else Some(Update(s, i, b.(pc := ClosingOutput)).(waitGroup := s.waitGroup - 1))
    case CloseOutput(i) =>
      if b.pc != ClosingOutput then None
      else if b.output in s.closedOutputs then Some(Panic(s))
      else Some(Update(s, i, b.(pc := Gone)).(closedOutputs := s.closedOutputs + {b.output}))
  }

  // ---------------------------------------------------------------- runs

  predicate IsRun(s: Registry, es: seq<Event>, s': Registry)
    decreases |es|
  {
    if es == [] then s' == s
    else
      var next := Step(s, es[0]);
      next.Some? && IsRun(next.value, es[1..], s')
  }

  // ---------------------------------------------------------------- the invariant

  predicate Live(b: Buffer) {
    b.pc == Ranging || b.pc == Selecting
  }

  predicate Undone(b: Buffer) {
    Live(b) || b.pc == Leaving
  }

  function CountUndone(bs: seq<Buffer>): nat {
    if bs == [] then 0 else CountUndone(bs[..|bs| - 1]) + (if Undone(bs[|bs| - 1]) then 1 else 0)
  }

  /** Conservation: what went out, then what is queued, is what came in. */
  predicate Conserves(b: Buffer) {
    b.sent + b.queue == b.received
  }

  predicate BufferOk(s: Registry, i: nat)
    requires i < |s.buffers|
  {
    var b := s.buffers[i];
    && Conserves(b)
    && (b.pc == Ranging ==> b.queue == [])
    && (b.pc == Selecting ==> b.queue != [])
    && (b.inputOpen <==> b.tag in s.chans && s.chans[b.tag] == i)
    && (b.inputOpen ==> b.inflight)
    && (!Live(b) && !s.closed ==> !b.inputOpen && b.queue == [])
    && (b.pc == Gone ==> b.output in s.closedOutputs)
  }

  predicate ChansOk(s: Registry) {
    forall t | t in s.chans :: s.chans[t] < |s.buffers| && s.buffers[s.chans[t]].tag == t
  }

  /** No consumer channel has been given to two calls of add. */
  predicate OutputsDiffer(s: Registry) {
    forall i, j | 0 <= i < j < |s.buffers| :: s.buffers[i].output != s.buffers[j].output
  }

  predicate ClosedBy(s: Registry, i: nat, output: nat) {
    i < |s.buffers| && s.buffers[i].output == output && s.buffers[i].pc == Gone
  }

  /** A closed consumer channel was closed by a buffer that is gone. */
  predicate ClosedOk(s: Registry) {
    forall o | o in s.closedOutputs :: exists i | 0 <= i < |s.buffers| :: ClosedBy(s, i, o)
  }

  predicate LockOk(s: Registry) {
    && (s.lock.Sending? ==> s.lock.buffer < |s.buffers| && s.buffers[s.lock.buffer].inputOpen)
    && (s.lock == ClosingInputs || s.lock == Waiting ==> s.closed)
    && (s.lock == Waiting ==> s.chans == map[])
  }

  predicate Invariant(s: Registry) {
    && !s.panicked
    && ChansOk(s)
    && (forall i | 0 <= i < |s.buffers| :: BufferOk(s, i))
    && ClosedOk(s)
    && LockOk(s)
    && s.waitGroup == CountUndone(s.buffers)
  }

  lemma {:induction false} CountAfterUpdate(bs: seq<Buffer>, i: nat, b: Buffer)
    requires i < |bs|
    ensures CountUndone(bs[i := b])
      == CountUndone(bs) - (if Undone(bs[i]) then 1 else 0) + (if Undone(b) then 1 else 0)
  {
    var n := |bs| - 1;
    if i == n {
      assert bs[i := b][..n] == bs[..n];
    } else {
      CountAfterUpdate(bs[..n], i, b);
      assert bs[i := b][..n] == bs[..n][i := b];
    }
  }

  lemma CountAfterAppend(bs: seq<Buffer>, b: Buffer)
    ensures CountUndone(bs + [b]) == CountUndone(bs) + (if Undone(b) then 1 else 0)
  {
    assert (bs + [b])[..|bs|] == bs;
  }

  lemma {:induction false} SomeUndone(bs: seq<Buffer>, i: nat)
    requires i < |bs| && Undone(bs[i])
    ensures CountUndone(bs) > 0
  {
    if i < |bs| - 1 {
      SomeUndone(bs[..|bs| - 1], i);
    }
  }

  /** Closing a mapped input is never closing it twice. */
  lemma ClosingKeeps(s: Registry, tag: Tag)
    requires Invariant(s) && tag in s.chans && !s.lock.Sending?
    ensures Invariant(Unmap(s, tag))
  {
    var b := s.chans[tag];
    assert BufferOk(s, b);
    CountAfterUpdate(s.buffers, b, s.buffers[b].(inputOpen := false));
    var r := Unmap(s, tag);
    forall i | 0 <= i < |r.buffers| ensures BufferOk(r, i) {
      assert BufferOk(s, i);
    }
    StillClosed(s, r);
  }

  lemma StillClosed(s: Registry, r: Registry)
    requires ClosedOk(s) && r.closedOutputs == s.closedOutputs && |s.buffers| <= |r.buffers|
    requires forall i | 0 <= i < |s.buffers| ::
      r.buffers[i].output == s.buffers[i].output && (s.buffers[i].pc == Gone ==> r.buffers[i].pc == Gone)
    ensures ClosedOk(r)
  {
    forall o | o in r.closedOutputs ensures exists i | 0 <= i < |r.buffers| :: ClosedBy(r, i, o) {
      var i :| 0 <= i < |s.buffers| && ClosedBy(s, i, o);
      assert ClosedBy(r, i, o);
    }
  }

  lemma AddKeeps(s: Registry, tag: Tag, output: nat)
    requires Invariant(s) && s.lock == Free
    ensures Invariant(DoAdd(s, tag, output))
  {
    if tag in s.chans {
      ClosingKeeps(s, tag);
      var r := Unmap(s, tag);
      AddNewKeeps(r, tag, output);
      assert r.chans[tag := |r.buffers|] == s.chans[tag := |r.buffers|];
    } else {
      AddNewKeeps(s, tag, output);
    }
  }

  lemma AddNewKeeps(s: Registry, tag: Tag, output: nat)
    requires Invariant(s) && s.lock == Free && tag !in s.chans
    ensures Invariant(DoAdd(s, tag, output))
  {
    CountAfterAppend(s.buffers, Buffer(Ranging, tag, output, true, true, [], [], []));
    var r := DoAdd(s, tag, output);
    forall i | 0 <= i < |r.buffers| ensures BufferOk(r, i) {
      if i < |s.buffers| {
        assert BufferOk(s, i);
      }
    }
    StillClosed(s, r);
  }

  /** A goroutine changes its own buffer and nothing that the others rely on. */
  lemma OwnMoveKeeps(s: Registry, r: Registry, i: nat)
    requires Invariant(s) && i < |s.buffers| && |r.buffers| == |s.buffers|
    requires r == s.(buffers := s.buffers[i := r.buffers[i]], lock := r.lock,
                     waitGroup := r.waitGroup, closedOutputs := r.closedOutputs)
    requires r.lock == s.lock || r.lock == Free
    requires var b, b' := s.buffers[i], r.buffers[i];
      && b'.tag == b.tag && b'.output == b.output && b'.inputOpen == b.inputOpen
      && r.waitGroup == s.waitGroup - (if Undone(b) then 1 else 0) + (if Undone(b') then 1 else 0)
      && (b.pc == Gone ==> b'.pc == Gone)
      && r.closedOutputs == s.closedOutputs + (if b'.pc == Gone then {b.output} else {})
    requires BufferOk(r, i)
    ensures Invariant(r)
  {
    CountAfterUpdate(s.buffers, i, r.buffers[i]);
    forall j | 0 <= j < |r.buffers| ensures BufferOk(r, j) {
      if j != i {
        assert BufferOk(s, j);
      }
    }
    StillClosed(s, r.(closedOutputs := s.closedOutputs));
    forall o | o in r.closedOutputs ensures exists j | 0 <= j < |r.buffers| :: ClosedBy(r, j, o) {
      if o in s.closedOutputs {
        var j :| 0 <= j < |r.buffers| && ClosedBy(r.(closedOutputs := s.closedOutputs), j, o);
        assert ClosedBy(r, j, o);
      } else {
        assert ClosedBy(r, i, o);
      }
    }
  }

  lemma BufferStepKeeps(s: Registry, e: Event)
    requires Invariant(s)
    requires ByBuffer(e)
    requires e.buffer < |s.buffers| && BufferStep(s, e).Some? && !BufferStep(s, e).value.panicked
    ensures Invariant(BufferStep(s, e).value)
  {
    var i := e.buffer;
    var r := BufferStep(s, e).value;
    OwnStepIsOk(s, e);
    OwnMoveKeeps(s, r, i);
  }

  lemma OwnStepIsOk(s: Registry, e: Event)
    requires Invariant(s)
    requires ByBuffer(e)
    requires e.buffer < |s.buffers| && BufferStep(s, e).Some?
    ensures var r := BufferStep(s, e).value;
      && |r.buffers| == |s.buffers|
      && (r.panicked <==> (e.Emit? || e.CloseOutput?) && s.buffers[e.buffer].output in s.closedOutputs)
      && (!r.panicked ==> BufferOk(r, e.buffer))
  {
    var i := e.buffer;
    assert BufferOk(s, i);
    if e.RunDone? {
      SomeUndone(s.buffers, i);
    }
  }

  lemma StepKeeps(s: Registry, e: Event)
    requires Invariant(s) && Step(s, e).Some? && !Step(s, e).value.panicked
    ensures Invariant(Step(s, e).value)
  {
    hide DoAdd, Unmap, BufferStep;
    match e
    case Add(tag, output) => AddKeeps(s, tag, output);
    case Cancel(tag) => if tag in s.chans { ClosingKeeps(s, tag); }
    case CloseInput(tag) => ClosingKeeps(s, tag);
    case BeginSend(tag, delivery) => LockingKeeps(s, Step(s, e).value);
    case BeginClose => LockingKeeps(s, Step(s, e).value);
    case AwaitBuffers => LockingKeeps(s, Step(s, e).value);
    case WaitReturns => LockingKeeps(s, Step(s, e).value);
    case _ => BufferStepKeeps(s, e);
  }

  lemma LockingKeeps(s: Registry, r: Registry)
    requires Invariant(s) && r == s.(lock := r.lock, closed := r.closed) && (s.closed ==> r.closed)
    requires r.lock.Sending? ==> exists t :: t in s.chans && s.chans[t] == r.lock.buffer
    requires r.lock == ClosingInputs || r.lock == Waiting ==> r.closed
    requires r.lock == Waiting ==> r.chans == map[]
    ensures Invariant(r)
  {
    if r.lock.Sending? {
      var t :| t in s.chans && s.chans[t] == r.lock.buffer;
      assert BufferOk(s, r.lock.buffer);
    }
    forall i | 0 <= i < |r.buffers| ensures BufferOk(r, i) {
      assert BufferOk(s, i);
    }
    StillClosed(s, r);
  }

  lemma {:induction false} RunKeeps(s: Registry, es: seq<Event>, s': Registry)
    requires Invariant(s) && IsRun(s, es, s') && !s'.panicked
    ensures Invariant(s')
    decreases |es|
  {
    if es != [] {
      var next := Step(s, es[0]).value;
      if next.panicked {
        PanickedStops(next, es[1..], s');
      }
      StepKeeps(s, es[0]);
      RunKeeps(next, es[1..], s');
    }
  }

  lemma PanickedStops(s: Registry, es: seq<Event>, s': Registry)
    requires s.panicked && IsRun(s, es, s')
    ensures es == [] && s' == s
  {
  }

  // ---------------------------------------------------------------- safety

  /** The buffer is about to use a consumer channel that another buffer has closed. */
  predicate UsesClosedOutput(s: Registry, e: Event) {
    && (e.Emit? || e.CloseOutput?) && e.buffer < |s.buffers|
    && exists i | 0 <= i < |s.buffers| :: i != e.buffer && ClosedBy(s, i, s.buffers[e.buffer].output)
  }

  /**
   In every state that any interleaving reaches, exactly two things panic: a second close, and a
   buffer that uses a consumer channel which was given to add twice and has been closed by its other
   buffer. No send meets a closed input, no input is closed twice, the wait group never goes below zero.
   */
  lemma WhatPanics(es: seq<Event>, s: Registry, e: Event)
    requires IsRun(NEW, es, s) && !s.panicked && Step(s, e).Some?
    ensures Step(s, e).value.panicked <==> (e.BeginClose? && s.closed) || UsesClosedOutput(s, e)
  {
    RunKeeps(NEW, es, s);
    StepPanics(s, e);
  }

  lemma StepPanics(s: Registry, e: Event)
    requires Invariant(s) && Step(s, e).Some?
    ensures Step(s, e).value.panicked <==> (e.BeginClose? && s.closed) || UsesClosedOutput(s, e)
  {
    if ByBuffer(e) {
      OwnStepIsOk(s, e);
      ClosedByAnother(s, e);
    } else {
      OperationPanics(s, e);
    }
  }

  lemma ClosedByAnother(s: Registry, e: Event)
    requires Invariant(s) && ByBuffer(e) && Step(s, e).Some?
    ensures (e.Emit? || e.CloseOutput?) && s.buffers[e.buffer].output in s.closedOutputs <==> UsesClosedOutput(s, e)
  {
    if (e.Emit? || e.CloseOutput?) && s.buffers[e.buffer].output in s.closedOutputs {
      var i :| 0 <= i < |s.buffers| && ClosedBy(s, i, s.buffers[e.buffer].output);
      assert i != e.buffer;
    }
    if UsesClosedOutput(s, e) {
      var i :| 0 <= i < |s.buffers| && i != e.buffer && ClosedBy(s, i, s.buffers[e.buffer].output);
      assert BufferOk(s, i);
    }
  }

  lemma OperationPanics(s: Registry, e: Event)
    requires Invariant(s) && !ByBuffer(e) && Step(s, e).Some?
    ensures Step(s, e).value.panicked <==> e.BeginClose? && s.closed
  {
    if (e.Add? || e.Cancel? || e.CloseInput?) && e.tag in s.chans {
      assert BufferOk(s, s.chans[e.tag]);
    }
  }

  /** As long as every add is given a consumer channel of its own, only a second close panics. */
  lemma OnlyASecondClosePanics(es: seq<Event>, s: Registry, e: Event)
    requires IsRun(NEW, es, s) && !s.panicked && OutputsDiffer(s) && Step(s, e).Some?
    ensures Step(s, e).value.panicked <==> e.BeginClose? && s.closed
  {
    RunKeeps(NEW, es, s);
    SafeWithOwnOutputs(s, e);
  }

  lemma SafeWithOwnOutputs(s: Registry, e: Event)
    requires Invariant(s) && OutputsDiffer(s) && Step(s, e).Some?
    ensures Step(s, e).value.panicked <==> e.BeginClose? && s.closed
  {
    StepPanics(s, e);
  }

  /**
   Every mapped input is open and belongs to one buffer, which is live as long as nobody has called
   close; every open input is mapped; and the wait group counts the buffers still to run Done.
   */
  lemma MappedInputsAreOwned(es: seq<Event>, s: Registry, t: Tag, u: Tag)
    requires IsRun(NEW, es, s) && !s.panicked && t in s.chans
    ensures s.chans[t] < |s.buffers| && s.buffers[s.chans[t]].inputOpen && s.buffers[s.chans[t]].tag == t
    ensures !s.closed ==> Live(s.buffers[s.chans[t]])
    ensures u in s.chans && s.chans[u] == s.chans[t] ==> u == t
    ensures forall i | 0 <= i < |s.buffers| :: s.buffers[i].inputOpen ==> s.buffers[i].tag in s.chans && s.chans[s.buffers[i].tag] == i
    ensures s.waitGroup == CountUndone(s.buffers)
  {
    RunKeeps(NEW, es, s);
    assert BufferOk(s, s.chans[t]);
    forall i | 0 <= i < |s.buffers| && s.buffers[i].inputOpen
      ensures s.buffers[i].tag in s.chans && s.chans[s.buffers[i].tag] == i
    {
      assert BufferOk(s, i);
    }
  }

  /**
   Conservation and order: what a buffer has sent out, followed by its queue, is what it received;
   and one that leaves before any close has sent everything on before its output closes.
   */
  lemma BuffersConserve(es: seq<Event>, s: Registry, i: nat)
    requires IsRun(NEW, es, s) && !s.panicked && i < |s.buffers|
    ensures var b := s.buffers[i];
      && b.sent + b.queue == b.received
      && b.sent <= b.received
      && (!Live(b) && !s.closed ==> b.sent == b.received)
      && (b.pc == Gone ==> b.output in s.closedOutputs)
      && (b.output in s.closedOutputs ==> exists j | 0 <= j < |s.buffers| :: ClosedBy(s, j, b.output))
  {
    RunKeeps(NEW, es, s);
    assert BufferOk(s, i);
    var b := s.buffers[i];
    assert !Live(b) && !s.closed ==> b.sent + [] == b.sent;
  }

  /** History only grows: a step appends to what one buffer received or to what it sent. */
  lemma HistoryGrows(s: Registry, e: Event, i: nat)
    requires Invariant(s) && i < |s.buffers| && Step(s, e).Some? && !Step(s, e).value.panicked
    ensures var r := Step(s, e).value;
      && |s.buffers| <= |r.buffers|
      && r.buffers[i].received ==
           (if e == Receive(i) then s.buffers[i].received + [s.lock.delivery] else s.buffers[i].received)
      && r.buffers[i].sent ==
           (if e == Emit(i) then s.buffers[i].sent + [s.buffers[i].queue[0]] else s.buffers[i].sent)
  {
    hide BufferStep, BufferOk;
    if ByBuffer(e) {
      BufferEffect(s, e);
    } else if e.Add? && e.tag in s.chans {
      assert s.chans[e.tag] < |s.buffers|;
    }
  }

  /** What a goroutine's step does to its own buffer; it touches no other. */
  lemma BufferEffect(s: Registry, e: Event)
    requires ByBuffer(e) && e.buffer < |s.buffers| && BufferStep(s, e).Some? && !BufferStep(s, e).value.panicked
    ensures var b, r := s.buffers[e.buffer], BufferStep(s, e).value;
      var b' := r.buffers[e.buffer];
      && |r.buffers| == |s.buffers| && r.chans == s.chans && r.closed == s.closed
      && (forall j | 0 <= j < |s.buffers| && j != e.buffer :: r.buffers[j] == s.buffers[j])
      && b'.tag == b.tag && b'.output == b.output
      && r.lock == (if e.Receive? then Free else s.lock)
      && (e.Receive? ==> s.lock.Sending? && s.lock.buffer == e.buffer) && (e.Emit? ==> b.queue != [])
      && b'.received == b.received + (if e.Receive? then [s.lock.delivery] else [])
      && b'.sent == b.sent + (if e.Emit? then [b.queue[0]] else [])
      && (!e.Receive? ==> b'.queue == if e.Emit? then b.queue[1..] else b.queue)
  {
  }

  // ---------------------------------------------------------------- progress

  /** A blocked send can complete at once exactly when its buffer is live, as it is before any close. */
  lemma SendIsReceivedWhileLive(es: seq<Event>, s: Registry)
    requires IsRun(NEW, es, s) && !s.panicked && s.lock.Sending?
    ensures s.lock.buffer < |s.buffers|
    ensures Step(s, Receive(s.lock.buffer)).Some? <==> Live(s.buffers[s.lock.buffer])
    ensures !s.closed ==> Live(s.buffers[s.lock.buffer])
  {
    RunKeeps(NEW, es, s);
    assert BufferOk(s, s.lock.buffer);
  }

  /** Upper bound on the steps that a buffer takes once its input is closed. */
  function Weight(b: Buffer): nat {
    match b.pc
    case Ranging => if b.inflight then 4 else 3
    case Selecting => 4 + |b.queue| + (if b.inflight then 1 else 0)
    case Leaving => 2
    case ClosingOutput => 1
    case Gone => 0
  }

  function TotalWeight(bs: seq<Buffer>): nat {
    if bs == [] then 0 else TotalWeight(bs[..|bs| - 1]) + Weight(bs[|bs| - 1])
  }

  lemma {:induction false} WeightAfterUpdate(bs: seq<Buffer>, i: nat, b: Buffer)
    requires i < |bs|
    ensures TotalWeight(bs[i := b]) == TotalWeight(bs) - Weight(bs[i]) + Weight(b)
  {
    var n := |bs| - 1;
    if i == n {
      assert bs[i := b][..n] == bs[..n];
    } else {
      WeightAfterUpdate(bs[..n], i, b);
      assert bs[i := b][..n] == bs[..n][i := b];
    }
  }

  lemma BufferStepLightens(s: Registry, e: Event)
    requires Invariant(s) && s.lock == Waiting && ByBuffer(e) && e.buffer < |s.buffers| && BufferStep(s, e).Some?
    ensures var r := BufferStep(s, e).value;
      !r.panicked ==> r.lock == Waiting && TotalWeight(r.buffers) < TotalWeight(s.buffers)
  {
    OwnStepIsOk(s, e);
    assert BufferOk(s, e.buffer);
    WeightAfterUpdate(s.buffers, e.buffer, BufferStep(s, e).value.buffers[e.buffer]);
  }

  /** While close waits, every step but the return of Wait comes from a buffer and uses up weight. */
  lemma WaitingLightens(s: Registry, e: Event)
    requires Invariant(s) && s.lock == Waiting && Step(s, e).Some? && e != WaitReturns
    ensures var r := Step(s, e).value;
      !r.panicked ==> r.lock == Waiting && TotalWeight(r.buffers) < TotalWeight(s.buffers)
  {
    BufferStepLightens(s, e);
  }

  /** While close waits, every buffer yet to run Done can take a step that needs no reader. */
  lemma WaitingBuffersCanMove(s: Registry, i: nat) returns (e: Event)
    requires Invariant(s) && s.lock == Waiting && i < |s.buffers| && Undone(s.buffers[i])
    ensures e in {SeeInputClosed(i), SeeClosed(i), RunDone(i)} && Step(s, e).Some? && !Step(s, e).value.panicked
  {
    assert BufferOk(s, i);
    e := if s.buffers[i].pc == Ranging then SeeInputClosed(i)
         else if s.buffers[i].pc == Selecting then SeeClosed(i) else RunDone(i);
    SomeUndone(s.buffers, i);
  }

  lemma {:induction false} FindUndone(bs: seq<Buffer>) returns (i: nat)
    requires CountUndone(bs) > 0
    ensures i < |bs| && Undone(bs[i])
  {
    if Undone(bs[|bs| - 1]) {
      i := |bs| - 1;
    } else {
      i := FindUndone(bs[..|bs| - 1]);
    }
  }

  /** close never gets stuck: Wait returns now, or some buffer can move though nobody reads its output. */
  lemma ShutdownIsNeverStuck(es: seq<Event>, s: Registry) returns (e: Event)
    requires IsRun(NEW, es, s) && !s.panicked && s.lock == Waiting
    ensures Step(s, e).Some? && !Step(s, e).value.panicked && !e.Emit?
    ensures s.waitGroup == 0 ==> e == WaitReturns
  {
    RunKeeps(NEW, es, s);
    if s.waitGroup == 0 {
      e := WaitReturns;
    } else {
      var i := FindUndone(s.buffers);
      e := WaitingBuffersCanMove(s, i);
    }
  }

  /** Wait returns exactly when every buffer has run Done. */
  lemma WaitReturnsExactlyWhenAllAreDone(es: seq<Event>, s: Registry)
    requires IsRun(NEW, es, s) && !s.panicked && s.lock == Waiting
    ensures Step(s, WaitReturns).Some? <==> forall i | 0 <= i < |s.buffers| :: s.buffers[i].pc in {ClosingOutput, Gone}
  {
    RunKeeps(NEW, es, s);
    if CountUndone(s.buffers) > 0 {
      var i := FindUndone(s.buffers);
    } else {
      forall i | 0 <= i < |s.buffers| ensures s.buffers[i].pc in {ClosingOutput, Gone} {
        if Undone(s.buffers[i]) {
          SomeUndone(s.buffers, i);
        }
      }
    }
  }

  /**
   What a buffer with a queue can do, in every reachable state: send on its head always, receive what is
   being sent to it until it has seen its input closed, see that once it is so, and leave once all is closed.
   */
  lemma SelectOffersExactly(es: seq<Event>, s: Registry, i: nat)
    requires IsRun(NEW, es, s) && !s.panicked && i < |s.buffers| && s.buffers[i].pc == Selecting
    ensures var b := s.buffers[i];
      && b.queue != []
      && Step(s, Emit(i)).Some?
      && (Step(s, Receive(i)).Some? <==> s.lock.Sending? && s.lock.buffer == i)
      && (Step(s, SeeInputClosed(i)).Some? <==> b.inflight && !b.inputOpen)
      && (Step(s, SeeClosed(i)).Some? <==> s.closed)
      && Step(s, RunDone(i)).None? && Step(s, CloseOutput(i)).None?
  {
    hide IsRun, Step;
    RunKeeps(NEW, es, s);
    ReceiverIsInflight(s, i);
    BufferSteps(s, i);
  }

  lemma ReceiverIsInflight(s: Registry, i: nat)
    requires Invariant(s) && i < |s.buffers|
    ensures BufferOk(s, i) && !s.panicked
    ensures s.lock.Sending? && s.lock.buffer == i ==> s.buffers[i].inflight
  {
  }

  /** The events of buffer i are its own steps. */
  lemma BufferSteps(s: Registry, i: nat)
    requires !s.panicked && i < |s.buffers|
    ensures Step(s, Emit(i)) == BufferStep(s, Emit(i)) && Step(s, Receive(i)) == BufferStep(s, Receive(i))
    ensures Step(s, SeeInputClosed(i)) == BufferStep(s, SeeInputClosed(i))
    ensures Step(s, SeeClosed(i)) == BufferStep(s, SeeClosed(i))
    ensures Step(s, RunDone(i)) == BufferStep(s, RunDone(i)) && Step(s, CloseOutput(i)) == BufferStep(s, CloseOutput(i))
  {
    hide BufferStep;
  }

  /** And what one without: receive, or leave when its input is closed. */
  lemma RangeOffersExactly(es: seq<Event>, s: Registry, i: nat)
    requires IsRun(NEW, es, s) && !s.panicked && i < |s.buffers| && s.buffers[i].pc == Ranging
    ensures var b := s.buffers[i];
      && b.queue == [] && Step(s, Emit(i)).None?
      && (Step(s, Receive(i)).Some? <==> s.lock.Sending? && s.lock.buffer == i)
      && (Step(s, SeeInputClosed(i)).Some? <==> !b.inputOpen)
      && Step(s, SeeClosed(i)).None? && Step(s, RunDone(i)).None? && Step(s, CloseOutput(i)).None?
  {
    hide IsRun, Step;
    RunKeeps(NEW, es, s);
    ReceiverIsInflight(s, i);
    BufferSteps(s, i);
  }

  /** However the steps are scheduled, Wait returns before the weight is used up. */
  lemma {:induction false} ShutdownIsBounded(s: Registry, es: seq<Event>, s': Registry)
    requires Invariant(s) && s.lock == Waiting && IsRun(s, es, s') && WaitReturns !in es
    ensures !s'.panicked ==> |es| + TotalWeight(s'.buffers) <= TotalWeight(s.buffers)
    ensures |es| <= TotalWeight(s.buffers) + 1
    decreases |es|
  {
    if es != [] {
      var next := Step(s, es[0]).value;
      WaitingLightens(s, es[0]);
      if next.panicked {
        PanickedStops(next, es[1..], s');
      } else {
        StepKeeps(s, es[0]);
        ShutdownIsBounded(next, es[1..], s');
      }
    }
  }

  /** Before that, close works through the mapped inputs, one step for each. */
  lemma ClosingAdvances(es: seq<Event>, s: Registry) returns (e: Event)
    requires IsRun(NEW, es, s) && !s.panicked && s.lock == ClosingInputs
    ensures Step(s, e).Some? && !Step(s, e).value.panicked && (e == AwaitBuffers || (e.CloseInput? && |Step(s, e).value.chans| < |s.chans|))
  {
    RunKeeps(NEW, es, s);
    if s.chans == map[] {
      e := AwaitBuffers;
    } else {
      var t :| t in s.chans;
      e := CloseInput(t);
      assert BufferOk(s, s.chans[t]);
      var rest := s.chans - {t};
      assert s.chans == rest[t := s.chans[t]];
    }
  }

  // ---------------------------------------------------------------- sending after close

  /** A send in progress to a buffer that has left its loop. */
  predicate Blocked(s: Registry) {
    !s.panicked && s.lock.Sending? && s.lock.buffer < |s.buffers| && !Live(s.buffers[s.lock.buffer])
  }

  /** Such a send never ends, and keeps the lock, whatever else happens. */
  lemma {:induction false} BlockedForever(s: Registry, es: seq<Event>, s': Registry)
    requires Blocked(s) && IsRun(s, es, s')
    ensures s'.lock == s.lock && (s'.panicked || Blocked(s'))
    decreases |es|
  {
    if es != [] {
      var next := Step(s, es[0]).value;
      BlockedStays(s, es[0]);
      if next.panicked {
        PanickedStops(next, es[1..], s');
      } else {
        BlockedForever(next, es[1..], s');
      }
    }
  }

  lemma BlockedStays(s: Registry, e: Event)
    requires Blocked(s) && Step(s, e).Some?
    ensures var r := Step(s, e).value;
      r.lock == s.lock && (r.panicked || Blocked(r))
  {
  }

  /** No one adds a consumer or closes the registry. */
  predicate Quiet(es: seq<Event>) {
    forall i | 0 <= i < |es| :: !es[i].Add? && !es[i].BeginClose?
  }

  ghost predicate CanBlock(s: Registry) {
    exists es, r :: IsRun(s, es, r) && Quiet(es) && Blocked(r)
  }

  /**
   Exactly: with the lock free, some run of sends, cancels and buffer steps ends in a send that blocks
   for ever if and only if the registry has been closed and a consumer is mapped all the same.
   */
  lemma SendBlocksForeverExactly(es: seq<Event>, s: Registry, d: Delivery)
    requires IsRun(NEW, es, s) && !s.panicked && s.lock == Free
    ensures CanBlock(s) <==> s.closed && s.chans != map[]
  {
    RunKeeps(NEW, es, s);
    if s.closed && s.chans != map[] {
      var t :| t in s.chans;
      var fs, r := SomeSendBlocks(s, t, d);
    } else if CanBlock(s) {
      var fs, r :| IsRun(s, fs, r) && Quiet(fs) && Blocked(r);
      NoSendBlocks(s, fs, r);
    }
  }

  /** Nothing can block: the registry is open, or it is closed and has no consumer. */
  predicate Harmless(s: Registry) {
    !s.closed || (s.chans == map[] && !s.lock.Sending?)
  }

  lemma {:induction false} NoSendBlocks(s: Registry, es: seq<Event>, r: Registry)
    requires Invariant(s) && Harmless(s) && IsRun(s, es, r) && Quiet(es)
    ensures !Blocked(r)
    decreases |es|
  {
    if es == [] {
      if s.lock.Sending? {
        assert BufferOk(s, s.lock.buffer);
      }
    } else {
      var next := Step(s, es[0]).value;
      if next.panicked {
        PanickedStops(next, es[1..], r);
      } else {
        StepKeeps(s, es[0]);
        HarmlessStays(s, es[0]);
        NoSendBlocks(next, es[1..], r);
      }
    }
  }

  lemma HarmlessStays(s: Registry, e: Event)
    requires Invariant(s) && Harmless(s) && Step(s, e).Some? && !e.Add? && !e.BeginClose?
    ensures Harmless(Step(s, e).value)
  {
  }

  lemma Prepend(s: Registry, e: Event, es: seq<Event>, r: Registry)
    requires Step(s, e).Some? && IsRun(Step(s, e).value, es, r)
    requires Quiet(es) && !e.Add? && !e.BeginClose?
    ensures IsRun(s, [e] + es, r) && Quiet([e] + es)
  {
    Then(s, e, es, r);
  }

  lemma Then(s: Registry, e: Event, es: seq<Event>, r: Registry)
    requires Step(s, e).Some? && IsRun(Step(s, e).value, es, r)
    ensures IsRun(s, [e] + es, r)
  {
    assert ([e] + es)[1..] == es;
  }

  lemma SomeSendBlocks(s: Registry, t: Tag, d: Delivery) returns (es: seq<Event>, r: Registry)
    requires Invariant(s) && s.lock == Free && s.closed && t in s.chans
    ensures IsRun(s, es, r) && Quiet(es) && Blocked(r)
  {
    hide IsRun, Quiet;
    var i := s.chans[t];
    assert BufferOk(s, i);
    if s.buffers[i].pc == Ranging {
      FirstSend(s, t, d);
      var held := Step(s, BeginSend(t, d)).value;
      var queued := Step(held, Receive(i)).value;
      es, r := SendToLeaving(queued, t, d);
      Prepend(held, Receive(i), es, r);
      Prepend(s, BeginSend(t, d), [Receive(i)] + es, r);
      es := [BeginSend(t, d)] + ([Receive(i)] + es);
    } else {
      es, r := SendToLeaving(s, t, d);
    }
  }

  /** A buffer that ranges over its input takes what is sent, and goes to its select. */
  lemma FirstSend(s: Registry, t: Tag, d: Delivery)
    requires Invariant(s) && s.lock == Free && t in s.chans && s.buffers[s.chans[t]].pc == Ranging
    ensures var held := Step(s, BeginSend(t, d));
      && held.Some?
      && var queued := Step(held.value, Receive(s.chans[t]));
      && queued.Some? && queued.value.lock == Free && queued.value.chans == s.chans && !queued.value.panicked
      && queued.value.closed == s.closed && |queued.value.buffers| == |s.buffers|
      && queued.value.buffers[s.chans[t]].pc == Selecting
  {
    assert BufferOk(s, s.chans[t]);
  }

  /** A buffer at its select may see that the registry is closed; the next send finds nobody. */
  lemma SendToLeaving(s: Registry, t: Tag, d: Delivery) returns (es: seq<Event>, r: Registry)
    requires !s.panicked && s.lock == Free && s.closed && t in s.chans && s.chans[t] < |s.buffers|
    requires s.buffers[s.chans[t]].pc != Ranging
    ensures IsRun(s, es, r) && Quiet(es) && Blocked(r)
  {
    hide IsRun, Quiet;
    var i := s.chans[t];
    if s.buffers[i].pc == Selecting {
      var left := Step(s, SeeClosed(i)).value;
      r := left.(lock := Sending(i, d));
      EmptyRun(r);
      Prepend(left, BeginSend(t, d), [], r);
      Prepend(s, SeeClosed(i), [BeginSend(t, d)] + [], r);
      es := [SeeClosed(i)] + ([BeginSend(t, d)] + []);
    } else {
      r := s.(lock := Sending(i, d));
      EmptyRun(r);
      Prepend(s, BeginSend(t, d), [], r);
      es := [BeginSend(t, d)] + [];
    }
  }

  lemma EmptyRun(s: Registry)
    ensures IsRun(s, [], s) && Quiet([])
  {
  }

  /** There are such states: close, and then add a consumer. */
  lemma SendAfterCloseBlocksForever(tag: Tag, d: Delivery) returns (s: Registry)
    ensures IsRun(NEW, [BeginClose, AwaitBuffers, WaitReturns, Add(tag, 0)], s)
    ensures !s.panicked && s.lock == Free && s.closed && tag in s.chans && CanBlock(s)
  {
    hide IsRun;
    var closed, add := NEW.(closed := true), [Add(tag, 0)];
    s := DoAdd(closed, tag, 0);
    EmptyRun(s);
    assert add == add + [] && [WaitReturns] + add == [WaitReturns, Add(tag, 0)];
    assert [AwaitBuffers] + ([WaitReturns] + add) == [AwaitBuffers, WaitReturns, Add(tag, 0)];
    var es := [BeginClose] + ([AwaitBuffers] + ([WaitReturns] + add));
    assert es == [BeginClose, AwaitBuffers, WaitReturns, Add(tag, 0)];
    Then(closed, Add(tag, 0), [], s);
    Then(closed.(lock := Waiting), WaitReturns, add, s);
    Then(closed.(lock := ClosingInputs), AwaitBuffers, [WaitReturns] + add, s);
    Then(NEW, BeginClose, [AwaitBuffers] + ([WaitReturns] + add), s);
    SendBlocksForeverExactly(es, s, d);
  }
}
