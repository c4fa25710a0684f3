/** Exactly when the resequencer keeps nothing back that it could emit. */
module Promptness {
  import opened Bytes
  import opened Resequencing

  /** The last of the tags from n on that v has without a gap; n - 1 if it has not n. */
  function RunFrom(v: map<uint64, bool>, n: nat): (k: nat)
    requires 1 <= n <= 0x1_0000_0000_0000_0000
    ensures n - 1 <= k && k + 1 !in v
    ensures forall t: uint64 | n <= t <= k :: t in v
    decreases 0x1_0000_0000_0000_0000 - n
  {
    if n < 0x1_0000_0000_0000_0000 && n in v then RunFrom(v, n + 1) else n - 1
  }

  /** The longest run 1..k of confirmed tags. */
  function LongestRun(v: map<uint64, bool>): nat {
    RunFrom(v, 1)
  }

  /**
   At some confirmation, no more tags than were published by then made up the run, or there was none yet;
   and every confirmation since has lengthened the run by one tag at most.
   */
  predicate InTime(ops: seq<Op>) {
    ops == [] ||
    var front, last := ops[..|ops| - 1], ops[|ops| - 1];
    if !last.ConfirmOne? then InTime(front)
    else
      var k := LongestRun(Verdicts(ops));
      k <= PublishedBy(front) || (InTime(front) && k <= LongestRun(Verdicts(front)) + 1)
  }

  lemma {:induction false} RunBounded(v: map<uint64, bool>, n: nat)
    requires 1 <= n <= 0x1_0000_0000_0000_0000
    ensures RunFrom(v, n) < 0x1_0000_0000_0000_0000
    decreases 0x1_0000_0000_0000_0000 - n
  {
    if n < 0x1_0000_0000_0000_0000 && n in v {
      RunBounded(v, n + 1);
    }
  }

  /** In a state that splits v, all but what is kept back of the run has been emitted. */
  lemma RunOfState(s: Confirms, v: map<uint64, bool>)
    requires Splits(s, v)
    ensures s.expecting <= LongestRun(v) + 1 <= TAG_LIMIT
    ensures s.expecting !in v <==> s.expecting == LongestRun(v) + 1
  {
    RunBounded(v, 1);
    var top: uint64 := TAG_LIMIT;
    assert top !in v;
  }

  /** What One moves past is the tag itself, if it was expected, and stashed tags that were published. */
  lemma OneMovesPast(s: Confirms, c: Confirmation)
    requires Invariant(s) && c.tag < TAG_LIMIT
    ensures var r := One(s, c);
      && s.expecting <= r.expecting
      && (c.tag == s.expecting ==> s.expecting + 1 <= r.expecting)
      && (r.expecting > s.expecting + (if c.tag == s.expecting then 1 else 0) ==> r.expecting - 1 <= s.published)
      && (c.tag != s.expecting && s.expecting !in s.stash ==> r.expecting == s.expecting)
  {
    if c.tag == s.expecting {
      ConfirmKeeps(s, c);
      DrainsPast(Confirm(s, c));
    } else {
      StashingKeeps(s, c);
      DrainsPast(s.(stash := s.stash[c.tag := c]));
    }
  }

  lemma DrainsPast(s: Confirms)
    requires Invariant(s)
    ensures var r := Resequence(s);
      s.expecting <= r.expecting && (r.expecting > s.expecting ==> r.expecting - 1 <= s.published)
  {
    ResequenceDrains(s);
    var r := Resequence(s);
    if r.expecting > s.expecting {
      assert DrainedAt(s, r, r.expecting - 1);
    }
  }

  lemma ConfirmedInTime(s: Confirms, v: map<uint64, bool>, c: Confirmation)
    requires Invariant(s) && Splits(s, v) && c.tag !in v && 1 <= c.tag < TAG_LIMIT
    ensures var r, v' := One(s, c), v[c.tag := c.ack];
      r.expecting !in v' <==>
        LongestRun(v') <= s.published || (s.expecting !in v && LongestRun(v') <= LongestRun(v) + 1)
  {
    hide One, Invariant, Splits, LongestRun;
    var r, v' := One(s, c), v[c.tag := c.ack];
    OneSplits(s, v, c);
    OneMovesPast(s, c);
    RunOfState(s, v);
    RunOfState(r, v');
    StashOfState(s, v);
    if c.tag != s.expecting && s.expecting !in v {
      assert s.expecting !in v' && r.expecting == s.expecting;
    }
  }

  lemma StashOfState(s: Confirms, v: map<uint64, bool>)
    requires Splits(s, v)
    ensures s.expecting in s.stash <==> s.expecting in v
  {
  }

  /**
   Exactly: nothing that could be emitted is kept back, that is, the longest confirmed run 1..k has been
   emitted, if and only if the confirmations came in time.
   */
  lemma {:induction false} LongestRunIsEmittedExactly(ops: seq<Op>)
    requires OnceEach(ops)
    ensures AllProper(ops) && Splits(Run(ops), Verdicts(ops))
    ensures Run(ops).expecting == LongestRun(Verdicts(ops)) + 1 <==> InTime(ops)
    ensures Run(ops).expecting !in Verdicts(ops) <==> InTime(ops)
  {
    hide LongestRun, Splits, Invariant;
    VerdictsAreKept(ops);
    RunOfState(Run(ops), Verdicts(ops));
    if ops == [] {
      assert Verdicts(ops) == map[];
    } else {
      var front, last := ops[..|ops| - 1], ops[|ops| - 1];
      LongestRunIsEmittedExactly(front);
      VerdictsAreKept(front);
      EmissionIsContiguous(front);
      RunOfState(Run(front), Verdicts(front));
      if last.ConfirmOne? {
        ConfirmedInTime(Run(front), Verdicts(front), last.c);
      }
    }
  }

  /** Confirmed after they were published, tags are in time. */
  lemma PublishedFirstIsInTime(ops: seq<Op>)
    requires OnceEach(ops) && PublishedFirst(ops)
    ensures InTime(ops)
  {
    LongestRunIsEmitted(ops);
    LongestRunIsEmittedExactly(ops);
  }

  /** Nothing more is needed for the order not to matter. */
  lemma OrderInTimeDoesNotMatter(a: seq<Op>, b: seq<Op>)
    requires OnceEach(a) && OnceEach(b) && Verdicts(a) == Verdicts(b) && InTime(a)
    ensures AllProper(a) && AllProper(b)
    ensures Run(a).emitted == Run(b).emitted <==> InTime(b)
  {
    LongestRunIsEmittedExactly(a);
    LongestRunIsEmittedExactly(b);
    var s, t, v := Run(a), Run(b), Verdicts(a);
    if InTime(b) {
      forall i | 0 <= i < |s.emitted| ensures s.emitted[i] == t.emitted[i] {
        assert s.emitted[i + 1 - 1] == Confirmation(i + 1, v[i + 1]);
        assert t.emitted[i + 1 - 1] == Confirmation(i + 1, v[i + 1]);
      }
    }
  }
}
