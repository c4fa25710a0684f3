/** ReadFrame and what it calls, on a reader object. */
module FrameReaders {
  import opened Bytes
  import opened Streams
  import opened FieldValues
  import opened Methods
  import opened Headers
  import opened Frames
  import opened Readers

  method ReadArgument(r: Reader, k: Kind) returns (out: Result<Arg<Table>>)
    requires r.Valid()
    modifies r`pos
    ensures r.Valid()
    ensures var spec := ReadArg(k, old(r.Window()));
      out == Outcome(spec) && r.pos == old(r.pos) + spec.used && r.Window() == old(r.Window())[spec.used..]
  {
    match k
    case Uint(width) =>
      var n :- r.Number(width);
      out := Success(NumArg(n));
    case ShortText =>
      var s :- r.Shortstr();
      out := Success(TextArg(s));
    case LongText =>
      var s :- r.Longstr();
      out := Success(TextArg(s));
    case FlagBits(count) =>
      var bits :- r.Number(1);
      var flags := UnpackBits(bits, count);
      out := Success(FlagArg(flags));
    case FieldTable =>
      var t :- r.Table();
      out := Success(TableArg(t));
  }

  /** Bit i of the octet is flag i. */
  method UnpackBits(bits: nat, count: nat) returns (flags: seq<bool>)
    ensures flags == Unpacked(bits, count)
    ensures |flags| == count && forall i | 0 <= i < count :: flags[i] <==> bits / Pow2(i) % 2 == 1
  {
    hide Unpacked, Pow2;
    flags := [];
    var left := bits;
    NothingUnpacked(bits, count);
    for i := 0 to count
      invariant |flags| == i && flags + Unpacked(left, count - i) == Unpacked(bits, count)
      invariant left == bits / Pow2(i)
      invariant forall j | 0 <= j < i :: flags[j] <==> bits / Pow2(j) % 2 == 1
    {
      OneMoreUnpacked(flags, left, count - i);
      NextPower(bits, i);
      flags := flags + [left % 2 == 1];
      left := left / 2;
    }
    assert flags + Unpacked(left, 0) == flags;
  }

  lemma NothingUnpacked(bits: nat, count: nat)
    ensures [] + Unpacked(bits, count) == Unpacked(bits, count) && bits / Pow2(0) == bits
  {
  }

  lemma OneMoreUnpacked(flags: seq<bool>, left: nat, count: nat)
    requires count > 0
    ensures flags + Unpacked(left, count) == (flags + [left % 2 == 1]) + Unpacked(left / 2, count - 1)
  {
  }

  lemma NextPower(bits: nat, i: nat)
    ensures bits / Pow2(i) / 2 == bits / Pow2(i + 1)
  {
    HalvingAgain(bits, Pow2(i));
  }

  lemma HalvingAgain(n: nat, p: nat)
    requires p > 0
    ensures n / p / 2 == n / (2 * p)
  {
    var q, m := n / p, n % p;
    assert n == q * p + m;
    assert q == 2 * (q / 2) + q % 2;
    assert q * p == (q / 2) * (2 * p) + (q % 2) * p;
    assert (q % 2) * p + m < 2 * p;
    DivisionIsUnique(n, q / 2, 2 * p, (q % 2) * p + m);
  }

  method ReadArguments(r: Reader, ks: seq<Kind>) returns (out: Result<seq<Arg<Table>>>)
    requires r.Valid()
    modifies r`pos
    ensures r.Valid()
    ensures var spec := ReadArgs(ks, old(r.Window()));
      out == Outcome(spec) && r.pos == old(r.pos) + spec.used && r.Window() == old(r.Window())[spec.used..]
  {
    hide ReadArg, ReadArgs, ArgsSoFar, Reader.Window;
    ghost var w := r.Window();
    var start := r.pos;
    var args: seq<Arg<Table>> := [];
    var i := 0;
    NoArgsYet(ks, w);
    while i < |ks|
      invariant r.Valid() && r.end == old(r.end) && start <= r.pos && i <= |ks|
      invariant ArgsSoFar(ks, w, args, i, r.pos - start, r.Window())
    {
      ghost var here, n := r.Window(), r.pos - start;
      NextArg(ks, w, args, i, n, here);
      var arg :- ReadArgument(r, ks[i]);
      args := args + [arg];
      i := i + 1;
    }
    LastArg(ks, w, args, r.pos - start, r.Window());
    out := Success(args);
  }

  /** Arguments already read, in front of those still to come. */
  function AfterArgs(args: seq<Arg<Table>>, used: nat, r: Read<seq<Arg<Table>>>): Read<seq<Arg<Table>>> {
    match r
    case Failed(e, u) => Failed(e, used + u)
    case Got(vs, u) => Got(args + vs, used + u)
  }

  ghost predicate ArgsSoFar(ks: seq<Kind>, w: bytes, args: seq<Arg<Table>>, i: nat, n: nat, here: bytes) {
    i <= |ks| && n <= |w| && here == w[n..] && ReadArgs(ks, w) == AfterArgs(args, n, ReadArgs(ks[i..], here))
  }

  lemma NoArgsYet(ks: seq<Kind>, w: bytes)
    ensures ArgsSoFar(ks, w, [], 0, 0, w)
  {
    var r := ReadArgs(ks, w);
    assert r.Got? ==> [] + r.value == r.value;
    assert ks[0..] == ks;
  }

  lemma NextArg(ks: seq<Kind>, w: bytes, args: seq<Arg<Table>>, i: nat, n: nat, here: bytes)
    requires ArgsSoFar(ks, w, args, i, n, here) && i < |ks|
    ensures var a := ReadArg(ks[i], here);
      if a.Failed? then ReadArgs(ks, w) == Failed(a.error, n + a.used) && here[a.used..] == w[n + a.used..]
      else ArgsSoFar(ks, w, args + [a.value], i + 1, n + a.used, here[a.used..])
  {
    hide ReadArg;
    var a := ReadArg(ks[i], here);
    assert ks[i..][0] == ks[i] && ks[i..][1..] == ks[i + 1..];
    if a.Got? {
      var later := ReadArgs(ks[i + 1..], here[a.used..]);
      assert later.Got? ==> args + ([a.value] + later.value) == args + [a.value] + later.value;
    }
  }

  lemma LastArg(ks: seq<Kind>, w: bytes, args: seq<Arg<Table>>, n: nat, here: bytes)
    requires ArgsSoFar(ks, w, args, |ks|, n, here)
    ensures ReadArgs(ks, w) == Got(args, n) && here == w[n..]
  {
    assert args + [] == args;
  }

  /** parseMethodFrame, but for the channel number. */
  method ReadMethodPayload(r: Reader) returns (out: Result<Method<Table>>)
    requires r.Valid()
    modifies r`pos
    ensures r.Valid()
    ensures var spec := ReadMethod(old(r.Window()));
      out == Outcome(spec) && r.pos == old(r.pos) + spec.used && r.Window() == old(r.Window())[spec.used..]
  {
    hide ReadArgs, Schema, Selected;
    var class_ :- r.Number(2);
    var method_ :- r.Number(2);
    match Selected(class_, method_)
    case None => out := Failure(UnknownMethod);
    case Some(name) =>
      var args :- ReadArguments(r, Schema(name));
      out := Success(Method(name, args));
  }

  method ReadSlotValue(r: Reader, i: nat) returns (out: Result<Slot<Table>>)
    requires r.Valid()
    modifies r`pos
    ensures r.Valid()
    ensures var spec := ReadSlot(i, old(r.Window()));
      out == Outcome(spec) && r.pos == old(r.pos) + spec.used && r.Window() == old(r.Window())[spec.used..]
  {
    Widths();
    if i == 2 {
      var t :- r.Table();
      out := Success(TableSlot(Some(t)));
    } else if i == 3 || i == 4 {
      var n :- r.Number(1);
      out := Success(OctetSlot(n));
    } else if i == 9 {
      var n :- r.Number(8);
      out := Success(TimeSlot(Some(Instant(Signed(n, 8), 0))));
    } else {
      var s :- r.Shortstr();
      out := Success(TextSlot(s));
    }
  }

  /** The second part of parseHeaderFrame: one conditional read for each place in the mask. */
  method ReadPropertyList(r: Reader, mask: nat) returns (out: Result<Properties<Table>>)
    requires r.Valid()
    modifies r`pos
    ensures r.Valid()
    ensures var spec := ReadProperties(mask, 0, old(r.Window()), NoProperties());
      out == Outcome(spec) && r.pos == old(r.pos) + spec.used && r.Window() == old(r.Window())[spec.used..]
  {
    hide ReadSlot, HasProperty, Put, Get, ReadProperties, PropertiesSoFar;
    ghost var w := r.Window();
    var start := r.pos;
    var p: Properties<Table> := NoProperties();
    var i := 0;
    NoPropertyYet(mask, w);
    while i < SLOTS
      invariant r.Valid() && r.end == old(r.end) && start <= r.pos && i <= SLOTS
      invariant PropertiesSoFar(mask, w, p, i, r.pos - start, r.Window())
    {
      ghost var here, n := r.Window(), r.pos - start;
      NextProperty(mask, w, p, i, n, here);
      if HasProperty(mask, i) {
        var s :- ReadSlotValue(r, i);
        p := Put(p, i, s);
      }
      i := i + 1;
    }
    LastProperty(mask, w, p, r.pos - start, r.Window());
    out := Success(p);
  }

  ghost predicate PropertiesSoFar(mask: nat, w: bytes, p: Properties<Table>, i: nat, n: nat, here: bytes) {
    && i <= SLOTS && n <= |w| && here == w[n..]
    && ReadProperties(mask, 0, w, NoProperties()) == ReadProperties(mask, i, here, p).After(n)
  }

  lemma NoPropertyYet(mask: nat, w: bytes)
    ensures PropertiesSoFar(mask, w, NoProperties(), 0, 0, w)
  {
    hide ReadProperties;
  }

  lemma NextProperty(mask: nat, w: bytes, p: Properties<Table>, i: nat, n: nat, here: bytes)
    requires PropertiesSoFar(mask, w, p, i, n, here) && i < SLOTS
    ensures !HasProperty(mask, i) ==> PropertiesSoFar(mask, w, p, i + 1, n, here)
    ensures HasProperty(mask, i) ==>
      var s := ReadSlot(i, here);
      if s.Failed? then
        ReadProperties(mask, 0, w, NoProperties()) == Failed(s.error, n + s.used) && here[s.used..] == w[n + s.used..]
      else PropertiesSoFar(mask, w, Put(p, i, s.value), i + 1, n + s.used, here[s.used..])
  {
    hide ReadSlot, HasProperty, Put;
  }

  lemma LastProperty(mask: nat, w: bytes, p: Properties<Table>, n: nat, here: bytes)
    requires PropertiesSoFar(mask, w, p, SLOTS, n, here)
    ensures ReadProperties(mask, 0, w, NoProperties()) == Got(p, n) && here == w[n..]
  {
  }

  /** Where reading a header stands at each of its numbers. */
  lemma HeaderInSteps(w: bytes)
    ensures var a := Number(w, 2);
      if a.Failed? then ReadHeader(w) == Failed(a.error, a.used)
      else
        var b := Number(w[2..], 2);
        if b.Failed? then ReadHeader(w) == Failed(b.error, 2 + b.used)
        else
          var c := Number(w[4..], 8);
          if c.Failed? then ReadHeader(w) == Failed(c.error, 4 + c.used)
          else
            var d := Number(w[12..], 2);
            if d.Failed? then ReadHeader(w) == Failed(d.error, 12 + d.used)
            else
              var p := ReadProperties(d.value, 0, w[14..], NoProperties());
              if p.Failed? then ReadHeader(w) == Failed(p.error, 14 + p.used)
              else
                && a.value < 0x1_0000 && b.value < 0x1_0000 && c.value < 0x1_0000_0000_0000_0000
                && ReadHeader(w) == Got(Header(a.value, b.value, c.value, p.value), 14 + p.used)
  {
    hide ReadProperties;
    Widths();
  }

  /** parseHeaderFrame, but for the channel number. */
  method ReadHeaderPayload(r: Reader) returns (out: Result<Header<Table>>)
    requires r.Valid()
    modifies r`pos
    ensures r.Valid()
    ensures var spec := ReadHeader(old(r.Window()));
      out == Outcome(spec) && r.pos == old(r.pos) + spec.used && r.Window() == old(r.Window())[spec.used..]
  {
    hide ReadHeader, ReadProperties, Number, Reader.Valid, Reader.Window;
    Widths();
    ghost var w := r.Window();
    HeaderInSteps(w);
    var classId :- r.Number(2);
    var weight :- r.Number(2);
    assert r.Window() == w[4..];
    var size :- r.Number(8);
    assert r.Window() == w[12..];
    var flags :- r.Number(2);
    assert r.Window() == w[14..];
    var p :- ReadPropertyList(r, flags);
    out := Success(Header(classId, weight, size, p));
  }

  method ReadPayloadOf(r: Reader, typ: byte, channel: uint16, size: nat) returns (out: Result<Frame<Table>>)
    requires r.Valid()
    modifies r`pos
    ensures r.Valid()
    ensures var spec := ReadPayload(typ, channel, size, old(r.Window()));
      out == Outcome(spec) && r.pos == old(r.pos) + spec.used && r.Window() == old(r.Window())[spec.used..]
  {
    hide ReadMethod, ReadHeader;
    if typ == FRAME_METHOD {
      var m :- ReadMethodPayload(r);
      out := Success(MethodFrame(channel, m));
    } else if typ == FRAME_HEADER {
      var h :- ReadHeaderPayload(r);
      out := Success(HeaderFrame(channel, h));
    } else if typ == FRAME_BODY {
      var b :- r.Full(size);
      out := Success(BodyFrame(channel, b));
    } else if typ == FRAME_HEARTBEAT {
      out := if size > 0 then Failure(HeartbeatPayload) else Success(HeartbeatFrame(channel));
    } else {
      out := Failure(FrameError);
    }
  }

  method ReadOneFrame(r: Reader) returns (out: Result<Frame<Table>>)
    requires r.Valid()
    modifies r`pos
    ensures r.Valid()
    ensures var spec := ReadFrame(old(r.Window()));
      out == Outcome(spec) && r.pos == old(r.pos) + spec.used && r.Window() == old(r.Window())[spec.used..]
  {
    hide ReadPayload;
    Widths();
    var scratch :- r.Full(7);
    var f :- ReadPayloadOf(r, scratch[0], FromBigEndian(scratch[1..3]), FromBigEndian(scratch[3..7]));
    var end :- r.Number(1);
    out := if end == FRAME_END then Success(f) else Failure(FrameError);
  }
}
