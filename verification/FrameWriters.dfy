/** frame.write and what it calls: a payload is built aside, so a failure writes nothing. */
module FrameWriters {
  import opened Bytes
  import opened FieldValues
  import opened Methods
  import opened Headers
  import opened HeaderRoundTrip
  import opened Frames
  import opened FrameValues
  import opened Writers

  /** bits |= 1 << i for every flag i that is set. */
  method PackBits(flags: seq<bool>) returns (bits: nat)
    ensures bits == Packed(flags)
    ensures forall i | 0 <= i < |flags| :: bits / Pow2(i) % 2 == 1 <==> flags[i]
  {
    bits := 0;
    var unset := seq(|flags|, _ => false);
    NoFlags(unset);
    var now := unset;
    for i := 0 to |flags|
      invariant |now| == |flags| && bits == Packed(now)
      invariant forall j | 0 <= j < |flags| :: now[j] == (j < i && flags[j])
    {
      if flags[i] {
        SettingAFlag(now, i);
        bits := bits + Pow2(i);
        now := now[i := true];
      }
    }
    assert now == flags;
    forall i | 0 <= i < |flags| ensures bits / Pow2(i) % 2 == 1 <==> flags[i] {
      BitOf(flags, i);
    }
  }

  lemma {:induction false} NoFlags(flags: seq<bool>)
    requires forall i | 0 <= i < |flags| :: !flags[i]
    ensures Packed(flags) == 0
  {
    if flags != [] {
      NoFlags(flags[1..]);
    }
  }

  lemma {:induction false} SettingAFlag(flags: seq<bool>, i: nat)
    requires i < |flags| && !flags[i]
    ensures Packed(flags[i := true]) == Packed(flags) + Pow2(i)
  {
    if i > 0 {
      SettingAFlag(flags[1..], i - 1);
      assert flags[i := true][1..] == flags[1..][i - 1 := true];
    } else {
      assert flags[0 := true][1..] == flags[1..];
    }
  }

  method WriteArgument(w: Buffer, k: Kind, a: Arg<Table>) returns (ok: bool, ghost p: Arg<Entries>)
    requires Typed(k, a)
    modifies w
    ensures ok <==> ArgSupported(a)
    ensures ok ==> Typed(k, p) && ValidArg(p) && ArgValue(p) == a && w.contents == old(w.contents) + ArgBytes(k, p)
  {
    ok := true;
    match a
    case NumArg(n) =>
      p := NumArg(n);
      WriteNumber(w, n, k.width);
    case TextArg(s) =>
      p := TextArg(s);
      if k.ShortText? {
        WriteShortstr(w, s);
      } else {
        WriteLongstr(w, s);
      }
    case FlagArg(flags) =>
      p := FlagArg(flags);
      var bits := PackBits(flags);
      WriteNumber(w, bits, 1);
    case TableArg(t) =>
      ghost var es;
      ok, es := WriteTable(w, Dict(t));
      p := TableArg(es);
  }

  method WriteArguments(w: Buffer, ks: seq<Kind>, args: seq<Arg<Table>>) returns (ok: bool, ghost ps: seq<Arg<Entries>>)
    requires AllTyped(ks, args)
    modifies w
    ensures ok <==> forall i | 0 <= i < |args| :: ArgSupported(args[i])
    ensures ok ==> AllTyped(ks, ps) && ValidArgs(ps) && ArgValues(ps) == args
    ensures ok ==> w.contents == old(w.contents) + ArgsBytes(ks, ps)
  {
    hide ArgBytes, ArgSupported, Typed, ValidArg, ArgValue;
    ok, ps := true, [];
    var i := 0;
    while i < |args|
      invariant 0 <= i <= |args| && |ps| == i
      invariant forall j | 0 <= j < i :: ArgSupported(args[j])
      invariant AllTyped(ks[..i], ps) && ValidArgs(ps)
      invariant forall j | 0 <= j < i :: ArgValue(ps[j]) == args[j]
      invariant w.contents == old(w.contents) + ArgsBytes(ks[..i], ps)
    {
      ghost var p;
      ok, p := WriteArgument(w, ks[i], args[i]);
      if !ok {
        return;
      }
      ArgAppended(ks[..i], ps, ks[i], p);
      assert ks[..i + 1] == ks[..i] + [ks[i]];
      ps := ps + [p];
      i := i + 1;
    }
    assert ks[..i] == ks;
    assert ArgValues(ps) == args;
  }

  lemma {:induction false} ArgAppended(ks: seq<Kind>, args: seq<Arg<Entries>>, k: Kind, a: Arg<Entries>)
    requires AllTyped(ks, args) && ValidArgs(args) && Typed(k, a) && ValidArg(a)
    ensures AllTyped(ks + [k], args + [a]) && ValidArgs(args + [a])
    ensures ArgsBytes(ks + [k], args + [a]) == ArgsBytes(ks, args) + ArgBytes(k, a)
  {
    hide ArgBytes, Typed, ValidArg;
    if ks == [] {
      assert [] + [k] == [k] && [] + [a] == [a];
      assert ArgsBytes([k], [a]) == ArgBytes(k, a) + ArgsBytes([k][1..], [a][1..]);
    } else {
      ArgAppended(ks[1..], args[1..], k, a);
      assert (ks + [k])[1..] == ks[1..] + [k] && (args + [a])[1..] == args[1..] + [a];
    }
  }

  /** Whether the first pass of headerFrame.write leaves a property out. */
  predicate LeftOut(s: Slot<Table>) {
    match s
    case TextSlot(t) => |t| == 0
    case OctetSlot(o) => o == 0
    case TableSlot(t) => t.None? || |t.value| == 0
    case TimeSlot(t) => t.None?
  }

  lemma LeftOutIsBlank(p: Properties<Entries>, i: nat)
    requires i < RESERVED1
    ensures Present(p, i) <==> !LeftOut(Get(PropertiesValue(p), i))
  {
    if p.headers.Some? {
      OnlyNothingIsEmpty(p.headers.value);
    }
  }

  /** The first pass: mask = mask | flag for every property that is there. */
  method BuildMask(v: Properties<Table>) returns (mask: nat)
    ensures forall p :: PropertiesValue(p) == v ==> mask == Mask(p)
    ensures forall i | 0 <= i < RESERVED1 :: HasProperty(mask, i) <==> !LeftOut(Get(v, i))
  {
    mask := 0;
    var now := seq(16, _ => false);
    NoFlags(now);
    for i := 0 to RESERVED1
      invariant |now| == 16 && mask == Packed(now)
      invariant forall b | 0 <= b < 16 :: now[b] == (15 - b < i && !LeftOut(Get(v, 15 - b)))
    {
      if !LeftOut(Get(v, i)) {
        SettingAFlag(now, 15 - i);
        mask := mask + Pow2(15 - i);
        now := now[15 - i := true];
      }
    }
    forall i | 0 <= i < RESERVED1 ensures HasProperty(mask, i) <==> !LeftOut(Get(v, i)) {
      BitOf(now, 15 - i);
    }
    forall p | PropertiesValue(p) == v ensures mask == Mask(p) {
      forall b | 0 <= b < 16 ensures now[b] == Presence(p)[b] {
        if b > 2 {
          LeftOutIsBlank(p, 15 - b);
        }
      }
      assert now == Presence(p);
    }
  }

  function SlotValue(s: Slot<Entries>): Slot<Table> {
    match s
    case TextSlot(t) => TextSlot(t)
    case OctetSlot(o) => OctetSlot(o)
    case TableSlot(t) => TableSlot(TableValue(t))
    case TimeSlot(t) => TimeSlot(t)
  }

  /** The only plan of a value that is not written. */
  function BlankPlan(s: Slot<Table>): Slot<Entries> {
    match s
    case TextSlot(t) => TextSlot(t)
    case OctetSlot(o) => OctetSlot(o)
    case TableSlot(t) => TableSlot(if t.None? then None else Some([]))
    case TimeSlot(t) => TimeSlot(t)
  }

  method WriteSlot(w: Buffer, s: Slot<Table>) returns (ok: bool, ghost q: Slot<Entries>)
    requires !LeftOut(s)
    modifies w
    ensures ok <==> (s.TableSlot? ==> Supported(Dict(s.table.value)))
    ensures ok ==> SlotValue(q) == s && !Blank(q) && (q.TableSlot? ==> ValidEntries(q.table.value))
    ensures ok ==> w.contents == old(w.contents) + SlotBytes(q)
  {
    ok := true;
    match s
    case TextSlot(t) =>
      q := TextSlot(t);
      WriteShortstr(w, t);
    case OctetSlot(o) =>
      q := OctetSlot(o);
      w.Write([o]);
    case TimeSlot(t) =>
      q := TimeSlot(t);
      WriteNumber(w, Unsigned(t.value.seconds, 8), 8);
    case TableSlot(t) =>
      ghost var es;
      ok, es := WriteTable(w, Dict(t.value));
      q := TableSlot(Some(es));
      if ok {
        OnlyNothingIsEmpty(es);
      }
  }

  /** The octets of the properties before place i. */
  function PrefixBytes(p: Properties<Entries>, i: nat): bytes
    requires ValidProperties(p) && i <= SLOTS
  {
    if i == 0 then [] else PrefixBytes(p, i - 1) + OwnBytes(p, i - 1)
  }

  function OwnBytes(p: Properties<Entries>, i: nat): bytes
    requires ValidProperties(p) && i < SLOTS
  {
    if Present(p, i) then SlotBytes(Get(p, i)) else []
  }

  lemma {:induction false} PrefixAndRest(p: Properties<Entries>, i: nat)
    requires ValidProperties(p) && i <= SLOTS
    ensures PropertyBytes(p, 0) == PrefixBytes(p, i) + PropertyBytes(p, i)
  {
    hide SlotBytes, Present, Get;
    if i > 0 {
      PrefixAndRest(p, i - 1);
      assert PropertyBytes(p, i - 1) == OwnBytes(p, i - 1) + PropertyBytes(p, i);
    }
  }

  lemma {:induction false} PutKeepsPrefix(p: Properties<Entries>, i: nat, s: Slot<Entries>, j: nat)
    requires i < SLOTS && Suits(s, i) && j <= i && ValidProperties(p) && ValidProperties(Put(p, i, s))
    ensures PrefixBytes(Put(p, i, s), j) == PrefixBytes(p, j)
  {
    hide SlotBytes, Put, Get, ValidProperties;
    if j > 0 {
      PutKeepsPrefix(p, i, s, j - 1);
      PutElsewhere(p, i, s, j - 1);
    }
  }

  lemma PutElsewhere(p: Properties<Entries>, i: nat, s: Slot<Entries>, j: nat)
    requires i < SLOTS && j < SLOTS && Suits(s, i) && i != j
    ensures Get(Put(p, i, s), j) == Get(p, j)
  {
  }

  /** p has plans for the first i properties of v. */
  ghost predicate Planned(p: Properties<Entries>, v: Properties<Table>, i: nat) {
    && i <= SLOTS
    && ValidProperties(p)
    && forall j | 0 <= j < i :: SlotValue(Get(p, j)) == Get(v, j)
  }

  lemma PlanOneMore(p: Properties<Entries>, v: Properties<Table>, i: nat, s: Slot<Entries>)
    requires i < SLOTS && Planned(p, v, i) && SlotValue(s) == Get(v, i)
    requires s.TableSlot? && s.table.Some? ==> ValidEntries(s.table.value)
    ensures Suits(s, i) && Planned(Put(p, i, s), v, i + 1)
    ensures Get(Put(p, i, s), i) == s
    ensures PrefixBytes(Put(p, i, s), i) == PrefixBytes(p, i)
  {
    hide PrefixBytes;
    assert ValidProperties(Put(p, i, s));
    PutKeepsPrefix(p, i, s, i);
    forall j | 0 <= j < i + 1 ensures SlotValue(Get(Put(p, i, s), j)) == Get(v, j) {
      if j < i {
        PutElsewhere(p, i, s, j);
      }
    }
  }

  lemma PlannedAll(p: Properties<Entries>, v: Properties<Table>)
    requires Planned(p, v, SLOTS)
    ensures PropertiesValue(p) == v && PrefixBytes(p, SLOTS) == PropertyBytes(p, 0)
  {
    hide PrefixBytes;
    forall j | 0 <= j < SLOTS ensures Get(PropertiesValue(p), j) == Get(v, j) {
      assert SlotValue(Get(p, j)) == Get(v, j);
    }
    SlotsDetermine(PropertiesValue(p), v);
    PrefixAndRest(p, SLOTS);
  }

  /** The second pass: one conditional write for each place in the mask. */
  method WritePropertyList(w: Buffer, v: Properties<Table>, mask: nat) returns (ok: bool, ghost p: Properties<Entries>)
    requires forall i | 0 <= i < RESERVED1 :: HasProperty(mask, i) <==> !LeftOut(Get(v, i))
    modifies w
    ensures ok <==> PropertiesSupported(v)
    ensures ok ==> ValidProperties(p) && PropertiesValue(p) == v
    ensures ok ==> w.contents == old(w.contents) + PropertyBytes(p, 0)
  {
    hide PrefixBytes, Planned, HasProperty, SlotBytes;
    ok, p := true, NoProperties();
    assert Planned(p, v, 0) && PrefixBytes(p, 0) == [] by { NothingPlanned(v); }
    var i := 0;
    while i < RESERVED1
      invariant 0 <= i <= RESERVED1 && Planned(p, v, i) && ValidProperties(p)
      invariant i > 2 ==> PropertiesSupported(v)
      invariant w.contents == old(w.contents) + PrefixBytes(p, i)
    {
      ghost var s := BlankPlan(Get(v, i));
      if HasProperty(mask, i) {
        ok, s := WriteSlot(w, Get(v, i));
        if !ok {
          return;
        }
      }
      PlanSlot(p, v, i, s);
      p := Put(p, i, s);
      i := i + 1;
    }
    PlanSlot(p, v, i, BlankPlan(Get(v, i)));
    p := Put(p, i, BlankPlan(Get(v, i)));
    PlannedAll(p, v);
  }

  lemma NothingPlanned(v: Properties<Table>)
    ensures Planned(NoProperties(), v, 0) && PrefixBytes(NoProperties(), 0) == []
  {
  }

  /** Planning one more property adds its octets, if it has any. */
  lemma PlanSlot(p: Properties<Entries>, v: Properties<Table>, i: nat, s: Slot<Entries>)
    requires i < SLOTS && Planned(p, v, i) && ValidProperties(p)
    requires
      || (s == BlankPlan(Get(v, i)) && (i == RESERVED1 || LeftOut(Get(v, i))))
      || (i < RESERVED1 && SlotValue(s) == Get(v, i) && !Blank(s) && (s.TableSlot? ==> ValidEntries(s.table.value)))
    ensures Suits(s, i) && Planned(Put(p, i, s), v, i + 1) && ValidProperties(Put(p, i, s))
    ensures PrefixBytes(Put(p, i, s), i + 1)
      == PrefixBytes(p, i) + (if i < RESERVED1 && !LeftOut(Get(v, i)) then SlotBytes(s) else [])
  {
    hide SlotBytes;
    PlanOneMore(p, v, i, s);
    assert Present(Put(p, i, s), i) <==> i < RESERVED1 && !Blank(s);
    if s.TableSlot? && s.table.Some? {
      OnlyNothingIsEmpty(s.table.value);
    }
  }

  method WriteHeaderPayload(w: Buffer, h: Header<Table>) returns (ok: bool, ghost p: Header<Entries>)
    modifies w
    ensures ok <==> PropertiesSupported(h.properties)
    ensures ok ==> ValidProperties(p.properties) && HeaderValue(p) == h
    ensures ok ==> w.contents == old(w.contents) + HeaderBytes(p)
  {
    hide PropertyBytes, Mask, HasProperty, LeftOut;
    WriteNumber(w, h.classId, 2);
    WriteNumber(w, h.weight, 2);
    WriteNumber(w, h.size, 8);
    var mask := BuildMask(h.properties);
    WriteNumber(w, mask, 2);
    ghost var q;
    ok, q := WritePropertyList(w, h.properties, mask);
    p := Header(h.classId, h.weight, h.size, q);
  }

  method WriteMethodPayload(w: Buffer, m: Method<Table>) returns (ok: bool, ghost p: Method<Entries>)
    requires WellTyped(m)
    modifies w
    ensures ok <==> MethodSupported(m)
    ensures ok ==> WellTyped(p) && ValidArgs(p.args) && MethodValue(p) == m
    ensures ok ==> w.contents == old(w.contents) + MethodBytes(p)
  {
    hide ArgsBytes, Id, Schema, Typed;
    WriteNumber(w, Id(m.name).0, 2);
    WriteNumber(w, Id(m.name).1, 2);
    ghost var ps;
    ok, ps := WriteArguments(w, Schema(m.name), m.args);
    p := Method(m.name, ps);
  }

  method WriteFramed(w: Buffer, typ: byte, channel: uint16, payload: bytes)
    modifies w
    ensures w.contents == old(w.contents) + Framed(typ, channel, payload)
  {
    w.Write([typ] + BigEndian(channel, 2) + BigEndian(|payload|, 4));
    w.Write(payload);
    w.Write([FRAME_END]);
  }

  /** The write method of each frame type: it writes the whole frame, or nothing and fails. */
  method WriteFrame(w: Buffer, f: Frame<Table>) returns (ok: bool, ghost p: Frame<Entries>)
    requires f.MethodFrame? ==> WellTyped(f.command)
    modifies w
    ensures ok <==> FrameSupported(f)
    ensures ok ==> ValidFrame(p) && FrameValue(p) == f && w.contents == old(w.contents) + FrameBytes(p)
    ensures !ok ==> w.contents == old(w.contents)
  {
    hide MethodBytes, HeaderBytes, Framed;
    ok := true;
    match f
    case MethodFrame(c, m) =>
      var payload := new Buffer();
      ghost var q;
      ok, q := WriteMethodPayload(payload, m);
      p := MethodFrame(c, q);
      if ok {
        assert payload.contents == MethodBytes(q);
        WriteFramed(w, FRAME_METHOD, c, payload.contents);
      }
    case HeaderFrame(c, h) =>
      var payload := new Buffer();
      ghost var q;
      ok, q := WriteHeaderPayload(payload, h);
      p := HeaderFrame(c, q);
      if ok {
        assert payload.contents == HeaderBytes(q);
        WriteFramed(w, FRAME_HEADER, c, payload.contents);
      }
    case BodyFrame(c, b) =>
      p := BodyFrame(c, b);
      WriteFramed(w, FRAME_BODY, c, b);
    case HeartbeatFrame(c) =>
      p := HeartbeatFrame(c);
      WriteFramed(w, FRAME_HEARTBEAT, c, []);
  }
}
