/** Exactly when a consumer channel that is given to add more than once can end in a panic. */
module SharedOutputs {
  import opened Consumers

  /** The consumer channels that a run has given to add, in order. */
  function Added(es: seq<Event>): seq<nat> {
    if es == [] then [] else (if es[0].Add? then [es[0].output] else []) + Added(es[1..])
  }

  function Outputs(s: Registry): seq<nat> {
    seq(|s.buffers|, i requires 0 <= i < |s.buffers| => s.buffers[i].output)
  }

  predicate Distinct(outputs: seq<nat>) {
    forall i, j | 0 <= i < j < |outputs| :: outputs[i] != outputs[j]
  }

  lemma StepAdds(s: Registry, e: Event)
    requires Step(s, e).Some?
    ensures Outputs(Step(s, e).value) == Outputs(s) + (if e.Add? then [e.output] else [])
  {
  }

  lemma {:induction false} RunAdds(s: Registry, es: seq<Event>, s': Registry)
    requires IsRun(s, es, s')
    ensures Outputs(s') == Outputs(s) + Added(es)
    decreases |es|
  {
    hide Step, Outputs;
    if es != [] {
      StepAdds(s, es[0]);
      RunAdds(Step(s, es[0]).value, es[1..], s');
    }
  }

  /** No two buffers that are gone have closed the same consumer channel. */
  predicate GoneDiffer(s: Registry) {
    forall i, j | 0 <= i < j < |s.buffers| && s.buffers[i].pc == Gone && s.buffers[j].pc == Gone ::
      s.buffers[i].output != s.buffers[j].output
  }

  lemma OperationKeepsGone(s: Registry, e: Event)
    requires Invariant(s) && Step(s, e).Some? && !ByBuffer(e)
    ensures var r := Step(s, e).value;
      && |s.buffers| <= |r.buffers|
      && (forall i | 0 <= i < |s.buffers| :: r.buffers[i].pc == s.buffers[i].pc && r.buffers[i].output == s.buffers[i].output)
      && (forall i | |s.buffers| <= i < |r.buffers| :: r.buffers[i].pc == Ranging)
  {
  }

  lemma CloseMeetsNone(s: Registry, e: Event)
    requires Invariant(s) && e.CloseOutput? && e.buffer < |s.buffers|
    requires BufferStep(s, e).Some? && !BufferStep(s, e).value.panicked
    ensures forall j | 0 <= j < |s.buffers| && s.buffers[j].pc == Gone :: s.buffers[j].output != s.buffers[e.buffer].output
  {
    forall j | 0 <= j < |s.buffers| && s.buffers[j].pc == Gone
      ensures s.buffers[j].output != s.buffers[e.buffer].output
    {
      assert BufferOk(s, j);
    }
  }

  lemma OnlyCloseGoes(s: Registry, e: Event)
    requires ByBuffer(e) && e.buffer < |s.buffers| && BufferStep(s, e).Some? && !BufferStep(s, e).value.panicked
    ensures var r := BufferStep(s, e).value;
      && s.buffers[e.buffer].pc != Gone && (r.buffers[e.buffer].pc == Gone ==> e.CloseOutput?)
  {
  }

  lemma StepKeepsGone(s: Registry, e: Event)
    requires Invariant(s) && GoneDiffer(s) && Step(s, e).Some? && !Step(s, e).value.panicked
    ensures GoneDiffer(Step(s, e).value)
  {
    hide BufferStep, Invariant;
    if ByBuffer(e) {
      BufferEffect(s, e);
      OnlyCloseGoes(s, e);
      if e.CloseOutput? {
        CloseMeetsNone(s, e);
      }
    } else {
      OperationKeepsGone(s, e);
    }
  }

  lemma {:induction false} RunKeepsGone(s: Registry, es: seq<Event>, s': Registry)
    requires Invariant(s) && GoneDiffer(s) && IsRun(s, es, s') && !s'.panicked
    ensures Invariant(s') && GoneDiffer(s')
    decreases |es|
  {
    hide Invariant, GoneDiffer, Step;
    if es != [] {
      var next := Step(s, es[0]).value;
      if next.panicked {
        PanickedStops(next, es[1..], s');
      } else {
        StepKeeps(s, es[0]);
        StepKeepsGone(s, es[0]);
        RunKeepsGone(next, es[1..], s');
      }
    }
  }

  // ---------------------------------------------------------------- bringing a buffer to its end

  /** With the lock free, the next step of a buffer towards its end, which needs no one to close. */
  function Towards(s: Registry, i: nat): Event
    requires i < |s.buffers|
  {
    var b := s.buffers[i];
    if b.inputOpen then Cancel(b.tag)
    else if b.pc == Ranging then SeeInputClosed(i)
    else if b.pc == Selecting then Emit(i)
    else if b.pc == Leaving then RunDone(i)
    else CloseOutput(i)
  }

  function Distance(b: Buffer): nat {
    Weight(b) + (if b.inputOpen then 1 else 0)
  }

  /** Nothing is lost on the way: the same buffers, and those that are gone stay so. */
  predicate Onward(s: Registry, r: Registry) {
    && r.lock == Free && |r.buffers| == |s.buffers|
    && forall j | 0 <= j < |s.buffers| ::
         r.buffers[j].output == s.buffers[j].output && (s.buffers[j].pc == Gone ==> r.buffers[j].pc == Gone)
  }

  lemma CancelLeads(s: Registry, i: nat)
    requires Invariant(s) && s.lock == Free && i < |s.buffers| && s.buffers[i].inputOpen
    ensures var e := Cancel(s.buffers[i].tag);
      && Step(s, e).Some?
      && var r := Step(s, e).value;
      !r.panicked && Onward(s, r) && Distance(r.buffers[i]) < Distance(s.buffers[i])
  {
    assert BufferOk(s, i);
  }

  lemma BufferLeads(s: Registry, i: nat)
    requires Invariant(s) && s.lock == Free && i < |s.buffers| && !s.buffers[i].inputOpen && s.buffers[i].pc != Gone
    ensures var e := Towards(s, i);
      && ByBuffer(e) && Step(s, e).Some?
      && var r := Step(s, e).value;
      r.panicked || (Onward(s, r) && Distance(r.buffers[i]) < Distance(s.buffers[i]))
  {
    assert BufferOk(s, i);
    if s.buffers[i].pc == Leaving {
      SomeUndone(s.buffers, i);
    }
  }

  lemma {:induction false} Finish(s: Registry, i: nat) returns (es: seq<Event>, r: Registry)
    requires Invariant(s) && GoneDiffer(s) && s.lock == Free && i < |s.buffers|
    ensures IsRun(s, es, r) && Quiet(es)
    ensures !r.panicked ==> Invariant(r) && GoneDiffer(r) && Onward(s, r) && r.buffers[i].pc == Gone
    decreases Distance(s.buffers[i])
  {
    hide Step, Invariant, GoneDiffer, IsRun, Quiet, Distance;
    if s.buffers[i].pc == Gone && !s.buffers[i].inputOpen {
      es, r := [], s;
      EmptyRun(s);
    } else {
      var e := Towards(s, i);
      if s.buffers[i].inputOpen {
        CancelLeads(s, i);
      } else {
        BufferLeads(s, i);
      }
      var next := Step(s, e).value;
      if next.panicked {
        es, r := [], next;
        EmptyRun(next);
      } else {
        StepKeeps(s, e);
        StepKeepsGone(s, e);
        es, r := Finish(next, i);
      }
      Prepend(s, e, es, r);
      es := [e] + es;
    }
  }

  lemma {:induction false} Joined(s: Registry, a: seq<Event>, m: Registry, b: seq<Event>, r: Registry)
    requires IsRun(s, a, m) && IsRun(m, b, r) && Quiet(a) && Quiet(b)
    ensures IsRun(s, a + b, r) && Quiet(a + b)
    decreases |a|
  {
    if a == [] {
      assert a + b == b;
    } else {
      assert (a + b)[1..] == a[1..] + b;
      Joined(Step(s, a[0]).value, a[1..], m, b, r);
    }
  }

  // ---------------------------------------------------------------- exactly when

  ghost predicate CanPanic(s: Registry) {
    exists es, r :: IsRun(s, es, r) && Quiet(es) && r.panicked
  }

  lemma SharingPanics(s: Registry, i: nat, j: nat)
    requires Invariant(s) && GoneDiffer(s) && s.lock == Free
    requires i < j < |s.buffers| && s.buffers[i].output == s.buffers[j].output
    ensures CanPanic(s)
  {
    hide IsRun, Quiet, Invariant;
    var a, m := Finish(s, i);
    if !m.panicked {
      var b, r := Finish(m, j);
      Joined(s, a, m, b, r);
      assert r.panicked;
    }
  }

  lemma {:induction false} DistinctIsSafe(s: Registry, es: seq<Event>, r: Registry)
    requires Invariant(s) && OutputsDiffer(s) && IsRun(s, es, r) && Quiet(es)
    ensures !r.panicked
    decreases |es|
  {
    hide Invariant, OutputsDiffer, Step;
    if es == [] {
      assert !s.panicked by { InvariantIsCalm(s); }
    } else {
      SafeWithOwnOutputs(s, es[0]);
      StepKeeps(s, es[0]);
      StepAdds(s, es[0]);
      var next := Step(s, es[0]).value;
      assert OutputsDiffer(next) by { SameOutputsDiffer(s, next); }
      DistinctIsSafe(next, es[1..], r);
    }
  }

  lemma InvariantIsCalm(s: Registry)
    requires Invariant(s)
    ensures !s.panicked
  {
  }

  lemma SameOutputsDiffer(s: Registry, r: Registry)
    requires OutputsDiffer(s) && Outputs(r) == Outputs(s) + []
    ensures OutputsDiffer(r)
  {
    assert |Outputs(r)| == |r.buffers| && |Outputs(s)| == |s.buffers|;
    forall i, j | 0 <= i < j < |r.buffers| ensures r.buffers[i].output != r.buffers[j].output {
      assert Outputs(r)[i] == Outputs(s)[i] && Outputs(r)[j] == Outputs(s)[j];
    }
  }

  lemma DistinctMeansDiffer(s: Registry)
    ensures Distinct(Outputs(s)) <==> OutputsDiffer(s)
  {
    if OutputsDiffer(s) {
      forall i, j | 0 <= i < j < |s.buffers| ensures Outputs(s)[i] != Outputs(s)[j] {
      }
    }
    if Distinct(Outputs(s)) {
      forall i, j | 0 <= i < j < |s.buffers| ensures s.buffers[i].output != s.buffers[j].output {
        assert Outputs(s)[i] != Outputs(s)[j];
      }
    }
  }

  /**
   Exactly: with the lock free, some run that adds no one and closes nothing panics if and only if the
   calls of add so far have not each been given a consumer channel of its own.
   */
  lemma PanicsExactlyOnSharedOutputs(es: seq<Event>, s: Registry)
    requires IsRun(NEW, es, s) && !s.panicked && s.lock == Free
    ensures CanPanic(s) <==> !Distinct(Added(es))
  {
    hide IsRun, Invariant, OutputsDiffer, Quiet, Distinct;
    NewIsSound();
    RunKeepsGone(NEW, es, s);
    RunAdds(NEW, es, s);
    assert Outputs(s) == Added(es);
    DistinctMeansDiffer(s);
    if !OutputsDiffer(s) {
      var i, j := SharedPair(s);
      SharingPanics(s, i, j);
    } else if CanPanic(s) {
      var fs, r :| IsRun(s, fs, r) && Quiet(fs) && r.panicked;
      DistinctIsSafe(s, fs, r);
    }
  }

  lemma NewIsSound()
    ensures Invariant(NEW) && GoneDiffer(NEW) && Outputs(NEW) == []
  {
  }

  lemma SharedPair(s: Registry) returns (i: nat, j: nat)
    requires !OutputsDiffer(s)
    ensures i < j < |s.buffers| && s.buffers[i].output == s.buffers[j].output
  {
    i, j :| 0 <= i < j < |s.buffers| && s.buffers[i].output == s.buffers[j].output;
  }

  /** There are such runs: the same consumer channel for two tags, or twice for one. */
  lemma OneOutputForTwo(a: Tag, b: Tag) returns (s: Registry)
    ensures IsRun(NEW, [Add(a, 0), Add(b, 0)], s) && !s.panicked && s.lock == Free && CanPanic(s)
  {
    hide IsRun, CanPanic;
    var first := DoAdd(NEW, a, 0);
    s := DoAdd(first, b, 0);
    EmptyRun(s);
    Then(first, Add(b, 0), [], s);
    Then(NEW, Add(a, 0), [Add(b, 0)] + [], s);
    var es := [Add(a, 0)] + ([Add(b, 0)] + []);
    assert es == [Add(a, 0), Add(b, 0)];
    assert Added(es) == [0, 0] by {
      var last := [Add(b, 0)];
      assert es[1..] == last && last[1..] == [];
      assert Added(last) == [0] + Added([]);
      assert Added(es) == [0] + Added(last);
    }
    assert Added(es)[0] == Added(es)[1];
    PanicsExactlyOnSharedOutputs(es, s);
  }
}
