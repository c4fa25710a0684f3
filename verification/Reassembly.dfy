/**
 The per-channel state machine that rebuilds messages from method, header and body frames, and
 exactly which frame sequences make it dispatch which messages.
 */
module Reassembly {
  import opened Bytes
  import opened FieldValues
  import opened Methods
  import opened Headers
  import opened Frames

  /** Which of recvMethod, recvHeader and recvContent takes the next frame. */
  datatype Recv = AwaitMethod | AwaitHeader | AwaitContent

  /** What dispatch is given: a bare method, or one that setContent has completed. */
  datatype Message =
    | Bare(command: Method<Table>)
    | Content(command: Method<Table>, properties: Properties<Table>, body: bytes)

  datatype State = State(
    recv: Recv,
    message: Option<Method<Table>>,
    header: Option<Header<Table>>,
    body: bytes,
    log: seq<Message>)

  const FRESH := State(AwaitMethod, None, None, [], [])

  type Received = Frame<Table>

  /** A heartbeat falls through every case of the machine, into a panic. */
  predicate Expected(f: Received) {
    !f.HeartbeatFrame?
  }

  /** Between two frames: what each state relies on. */
  predicate Consistent(s: State) {
    match s.recv
    case AwaitMethod => true
    case AwaitHeader => s.message.Some? && s.body == []
    case AwaitContent => s.message.Some? && s.header.Some? && |s.body| < s.header.value.size
  }

  function RecvMethod(s: State, f: Received): State
    requires Expected(f)
  {
    match f
    case MethodFrame(_, m) =>
      if CarriesContent(m.name) then s.(body := [], message := Some(m), recv := AwaitHeader)
      else s.(log := s.log + [Bare(m)], recv := AwaitMethod)
    case _ => s.(recv := AwaitMethod)
  }

  function RecvHeader(s: State, f: Received): State
    requires Expected(f) && s.message.Some?
  {
    match f
    case MethodFrame(_, _) => RecvMethod(s, f)
    case HeaderFrame(_, h) =>
      if h.size == 0 then
        s.(header := Some(h), log := s.log + [Content(s.message.value, h.properties, s.body)], recv := AwaitMethod)
      else s.(header := Some(h), recv := AwaitContent)
    case _ => s.(recv := AwaitMethod)
  }

  function RecvContent(s: State, f: Received): State
    requires Expected(f) && s.message.Some? && s.header.Some?
  {
    match f
    case MethodFrame(_, _) => RecvMethod(s, f)
    case BodyFrame(_, b) =>
      var h, body := s.header.value, s.body + b;
      if |body| >= h.size then
        s.(body := body, log := s.log + [Content(s.message.value, h.properties, body)], recv := AwaitMethod)
      else s.(body := body, recv := AwaitContent)
    case _ => s.(recv := AwaitMethod)
  }

  /** One call of channel.recv: every state hands on a consistent one and keeps what was dispatched. */
  function Step(s: State, f: Received): (s': State)
    requires Consistent(s) && Expected(f)
    ensures Consistent(s') && s.log <= s'.log
  {
    match s.recv
    case AwaitMethod => RecvMethod(s, f)
    case AwaitHeader => RecvHeader(s, f)
    case AwaitContent => RecvContent(s, f)
  }

  predicate AllExpected(fs: seq<Received>) {
    forall i | 0 <= i < |fs| :: Expected(fs[i])
  }

  function Run(s: State, fs: seq<Received>): (s': State)
    requires Consistent(s) && AllExpected(fs)
    ensures Consistent(s') && s.log <= s'.log
  {
    if fs == [] then s else Step(Run(s, fs[..|fs| - 1]), fs[|fs| - 1])
  }

  lemma {:induction false} RunConcat(s: State, a: seq<Received>, b: seq<Received>)
    requires Consistent(s) && AllExpected(a) && AllExpected(b)
    ensures AllExpected(a + b) && Run(s, a + b) == Run(Run(s, a), b)
  {
    if b == [] {
      assert a + b == a;
    } else {
      var front := b[..|b| - 1];
      RunConcat(s, a, front);
      assert (a + b)[..|a + b| - 1] == a + front;
    }
  }

  // ---------------------------------------------------------------- exact characterisation

  predicate OpensContent(f: Received) {
    f.MethodFrame? && CarriesContent(f.command.name)
  }

  /** The octets of the bodies fs[from..to]. */
  function Bodies(fs: seq<Received>, from: nat, to: nat): bytes
    requires from <= to <= |fs|
    requires forall k | from <= k < to :: fs[k].BodyFrame?
  {
    if from == to then [] else Bodies(fs, from, to - 1) + fs[to - 1].body
  }

  /** fs[from] is a content method, fs[from + 1] its header, and all up to `to` are its bodies. */
  predicate Gathering(fs: seq<Received>, from: nat, to: nat) {
    && from + 2 <= to <= |fs|
    && OpensContent(fs[from])
    && fs[from + 1].HeaderFrame?
    && (forall k | from + 2 <= k < to :: fs[k].BodyFrame?)
  }

  /** A content message that begins at frame `from` is complete at frame i, and not before. */
  predicate Completes(fs: seq<Received>, from: nat, i: nat) {
    && i < |fs|
    && Gathering(fs, from, i + 1)
    && fs[from + 1].header.size <= |Bodies(fs, from + 2, i + 1)|
    && (i == from + 1 || |Bodies(fs, from + 2, i)| < fs[from + 1].header.size)
  }

  /** A content message that begins at frame `from` still lacks octets before frame `to`. */
  predicate Lacks(fs: seq<Received>, from: nat, to: nat) {
    Gathering(fs, from, to) && |Bodies(fs, from + 2, to)| < fs[from + 1].header.size
  }

  function Completed(fs: seq<Received>, from: nat, i: nat): Message
    requires Completes(fs, from, i)
  {
    Content(fs[from].command, fs[from + 1].header.properties, Bodies(fs, from + 2, i + 1))
  }

  /** What frame i makes the channel dispatch. */
  function DispatchedAt(s: State, fs: seq<Received>, i: nat): seq<Message>
    requires Consistent(s) && AllExpected(fs) && i < |fs|
  {
    var before := Run(s, fs[..i]);
    Step(before, fs[i]).log[|before.log|..]
  }

  /** A sequence seen through its own prefix. */
  lemma {:induction false} BodiesOfPrefix(fs: seq<Received>, from: nat, to: nat, n: nat)
    requires from <= to <= n <= |fs|
    requires forall k | from <= k < to :: fs[k].BodyFrame?
    ensures Bodies(fs[..n], from, to) == Bodies(fs, from, to)
  {
    if from < to {
      BodiesOfPrefix(fs, from, to - 1, n);
    }
  }

  /**
   Where the machine stands after fs: awaiting a header exactly after a content method, and
   awaiting content only while a message that began at frame `from` lacks octets.
   */
  predicate Stands(r: State, fs: seq<Received>, from: nat) {
    && (r.recv == AwaitHeader <==> fs != [] && OpensContent(fs[|fs| - 1]))
    && (r.recv == AwaitHeader ==> r.message == Some(fs[|fs| - 1].command))
    && (r.recv == AwaitContent ==> Collects(r, fs, from))
  }

  predicate Collects(r: State, fs: seq<Received>, from: nat) {
    && Lacks(fs, from, |fs|)
    && r.message == Some(fs[from].command)
    && r.header == Some(fs[from + 1].header)
    && r.body == Bodies(fs, from + 2, |fs|)
  }

  lemma BodyExtends(fs: seq<Received>, from: nat)
    requires fs != [] && Gathering(fs[..|fs| - 1], from, |fs| - 1) && fs[|fs| - 1].BodyFrame?
    ensures Gathering(fs, from, |fs|)
    ensures Bodies(fs, from + 2, |fs|) == Bodies(fs[..|fs| - 1], from + 2, |fs| - 1) + fs[|fs| - 1].body
  {
    var n := |fs| - 1;
    forall k | from + 2 <= k < n ensures fs[k].BodyFrame? {
      assert fs[..n][k].BodyFrame?;
    }
    BodiesOfPrefix(fs, from + 2, n, n);
  }

  lemma StandsNext(r: State, fs: seq<Received>, from: nat) returns (from': nat)
    requires fs != [] && Consistent(r) && Expected(fs[|fs| - 1]) && Stands(r, fs[..|fs| - 1], from)
    ensures Stands(Step(r, fs[|fs| - 1]), fs, from')
  {
    hide Bodies;
    var n := |fs| - 1;
    var f := fs[n];
    from' := from;
    if r.recv == AwaitHeader && f.HeaderFrame? {
      from' := n - 1;
      assert Bodies(fs, from' + 2, |fs|) == [] by { NoBodies(fs); }
    } else if r.recv == AwaitContent && f.BodyFrame? {
      BodyExtends(fs, from);
    }
  }

  lemma NoBodies(fs: seq<Received>)
    ensures Bodies(fs, |fs|, |fs|) == []
  {
  }

  lemma {:induction false} WhereItStands(s: State, fs: seq<Received>) returns (from: nat)
    requires Consistent(s) && s.recv == AwaitMethod && AllExpected(fs)
    ensures Stands(Run(s, fs), fs, from)
  {
    hide Stands, Step;
    from := 0;
    if fs == [] {
      IdleStands(s);
    } else {
      from := WhereItStands(s, fs[..|fs| - 1]);
      from := StandsNext(Run(s, fs[..|fs| - 1]), fs, from);
    }
  }

  lemma IdleStands(s: State)
    requires s.recv == AwaitMethod
    ensures Stands(s, [], 0)
  {
  }

  /** While a message lacks octets, the machine is collecting it, whatever came before. */
  lemma {:induction false} LackingIsCollected(s: State, fs: seq<Received>, from: nat)
    requires Consistent(s) && AllExpected(fs) && Lacks(fs, from, |fs|)
    ensures var r := Run(s, fs);
      r.recv == AwaitContent && Collects(r, fs, from)
  {
    var n := |fs| - 1;
    var front := fs[..n];
    if n == from + 1 {
      OpeningIsAwaited(s, front);
    } else {
      BodiesOfPrefix(fs, from + 2, n, n);
      assert Bodies(fs, from + 2, |fs|) == Bodies(fs, from + 2, n) + fs[n].body;
      LackingIsCollected(s, front, from);
    }
  }

  lemma OpeningIsAwaited(s: State, fs: seq<Received>)
    requires Consistent(s) && AllExpected(fs) && fs != [] && OpensContent(fs[|fs| - 1])
    ensures var r := Run(s, fs);
      r.recv == AwaitHeader && r.message == Some(fs[|fs| - 1].command) && r.body == []
  {
  }

  /** From any state at all, a message that completes at frame i is dispatched there, whole. */
  lemma CompletionIsDispatched(s: State, fs: seq<Received>, from: nat, i: nat)
    requires Consistent(s) && AllExpected(fs) && Completes(fs, from, i)
    ensures DispatchedAt(s, fs, i) == [Completed(fs, from, i)]
  {
    var front := fs[..i];
    if i == from + 1 {
      OpeningIsAwaited(s, front);
    } else {
      BodiesOfPrefix(fs, from + 2, i, i);
      LackingIsCollected(s, front, from);
    }
  }

  /** From any state at all, a method without content is dispatched by its own frame. */
  lemma BareMethodIsDispatched(s: State, fs: seq<Received>, i: nat)
    requires Consistent(s) && AllExpected(fs) && i < |fs|
    requires fs[i].MethodFrame? && !CarriesContent(fs[i].command.name)
    ensures DispatchedAt(s, fs, i) == [Bare(fs[i].command)]
  {
  }

  /** Nothing else is ever dispatched. */
  lemma NothingElseIsDispatched(s: State, fs: seq<Received>, i: nat)
    requires Consistent(s) && s.recv == AwaitMethod && AllExpected(fs) && i < |fs|
    requires !(fs[i].MethodFrame? && !CarriesContent(fs[i].command.name))
    requires forall from | 0 <= from < i :: !Completes(fs, from, i)
    ensures DispatchedAt(s, fs, i) == []
  {
    var front := fs[..i];
    var from := WhereItStands(s, front);
    var before := Run(s, front);
    if before.recv == AwaitHeader && fs[i].HeaderFrame? {
      assert Bodies(fs, i + 1, i + 1) == [];
      assert fs[i].header.size == 0 ==> Completes(fs, i - 1, i);
    } else if before.recv == AwaitContent && fs[i].BodyFrame? {
      BodiesOfPrefix(fs, from + 2, i, i);
      assert Bodies(fs, from + 2, i + 1) == Bodies(fs, from + 2, i) + fs[i].body;
      assert fs[from + 1].header.size <= |Bodies(fs, from + 2, i + 1)| ==> Completes(fs, from, i);
    }
  }

  /**
   Exactly: frame i dispatches a content message if and only if one completes there; it is that
   message, and only one can be.
   */
  lemma ContentIsDispatchedExactly(s: State, fs: seq<Received>, i: nat, m: Message)
    requires Consistent(s) && s.recv == AwaitMethod && AllExpected(fs) && i < |fs| && m.Content?
    ensures DispatchedAt(s, fs, i) == [m]
      <==> exists from | 0 <= from < i :: Completes(fs, from, i) && m == Completed(fs, from, i)
  {
    if from :| 0 <= from < i && Completes(fs, from, i) {
      CompletionIsDispatched(s, fs, from, i);
    } else if fs[i].MethodFrame? && !CarriesContent(fs[i].command.name) {
      BareMethodIsDispatched(s, fs, i);
    } else {
      NothingElseIsDispatched(s, fs, i);
    }
  }

  /** The log is what the frames dispatched, one after the other. */
  function LogOf(s: State, fs: seq<Received>, n: nat): seq<Message>
    requires Consistent(s) && AllExpected(fs) && n <= |fs|
  {
    if n == 0 then [] else LogOf(s, fs, n - 1) + DispatchedAt(s, fs, n - 1)
  }

  lemma {:induction false} LogIsWhatWasDispatched(s: State, fs: seq<Received>, n: nat)
    requires Consistent(s) && AllExpected(fs) && n <= |fs|
    ensures Run(s, fs[..n]).log == s.log + LogOf(s, fs, n)
  {
    if n > 0 {
      LogIsWhatWasDispatched(s, fs, n - 1);
      assert fs[..n][..n - 1] == fs[..n - 1];
    }
  }
}
