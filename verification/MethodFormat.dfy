/**
 The 62 methods as octets, spelled out: the numbers of each, and its arguments one after the other. It is
 this layout, not the schema that reader and writer share, that fixes what a peer sends.
 */
module MethodFormat {
  import opened Bytes
  import opened Streams
  import opened Octets
  import opened FieldValues
  import opened FieldCodec
  import opened FieldFormat
  import opened Methods
  import opened FrameFormat

  // ---------------------------------------------------------------- arguments by place

  function Num(a: seq<Arg<Entries>>, i: nat): nat {
    if i < |a| && a[i].NumArg? then a[i].n else 0
  }

  function Str(a: seq<Arg<Entries>>, i: nat): bytes {
    if i < |a| && a[i].TextArg? then a[i].text else []
  }

  predicate Flag(a: seq<Arg<Entries>>, i: nat, k: nat) {
    i < |a| && a[i].FlagArg? && k < |a[i].flags| && a[i].flags[k]
  }

  // ---------------------------------------------------------------- their octets

  function One(n: nat): bytes {
    [n % 256]
  }

  function Text(s: bytes): bytes {
    [|s| % 256] + s[..|s| % 256]
  }

  function LongText(s: bytes): bytes {
    Four(|s|) + s
  }

  /** Consecutive bits, n of them, share an octet, the first being the lowest. */
  function Bits(a: seq<Arg<Entries>>, i: nat, n: nat): bytes {
    if i >= |a| || !a[i].FlagArg? || |a[i].flags| != n then []
    else
    [(if Flag(a, i, 0) then 1 else 0) + (if Flag(a, i, 1) then 2 else 0) + (if Flag(a, i, 2) then 4 else 0)
     + (if Flag(a, i, 3) then 8 else 0) + (if Flag(a, i, 4) then 16 else 0)]
  }

  function Section(a: seq<Arg<Entries>>, i: nat): bytes {
    if i < |a| && a[i].TableArg? && ValidEntries(a[i].t) then Four(|EntryBytes(a[i].t)|)
      + EntryBytes(a[i].t) else []
  }

  /** Class and method number. */
  function Numbers(m: MethodName): bytes {
    match m
    case ConnectionStart => [0, 10, 0, 10]
    case ConnectionStartOk => [0, 10, 0, 11]
    case ConnectionSecure => [0, 10, 0, 20]
    case ConnectionSecureOk => [0, 10, 0, 21]
    case ConnectionTune => [0, 10, 0, 30]
    case ConnectionTuneOk => [0, 10, 0, 31]
    case ConnectionOpen => [0, 10, 0, 40]
    case ConnectionOpenOk => [0, 10, 0, 41]
    case ConnectionClose => [0, 10, 0, 50]
    case ConnectionCloseOk => [0, 10, 0, 51]
    case ConnectionBlocked => [0, 10, 0, 60]
    case ConnectionUnblocked => [0, 10, 0, 61]
    case ChannelOpen => [0, 20, 0, 10]
    case ChannelOpenOk => [0, 20, 0, 11]
    case ChannelFlow => [0, 20, 0, 20]
    case ChannelFlowOk => [0, 20, 0, 21]
    case ChannelClose => [0, 20, 0, 40]
    case ChannelCloseOk => [0, 20, 0, 41]
    case ExchangeDeclare => [0, 40, 0, 10]
    case ExchangeDeclareOk => [0, 40, 0, 11]
    case ExchangeDelete => [0, 40, 0, 20]
    case ExchangeDeleteOk => [0, 40, 0, 21]
    case ExchangeBind => [0, 40, 0, 30]
    case ExchangeBindOk => [0, 40, 0, 31]
    case ExchangeUnbind => [0, 40, 0, 40]
    case ExchangeUnbindOk => [0, 40, 0, 51]
    case QueueDeclare => [0, 50, 0, 10]
    case QueueDeclareOk => [0, 50, 0, 11]
    case QueueBind => [0, 50, 0, 20]
    case QueueBindOk => [0, 50, 0, 21]
    case QueueUnbind => [0, 50, 0, 50]
    case QueueUnbindOk => [0, 50, 0, 51]
    case QueuePurge => [0, 50, 0, 30]
    case QueuePurgeOk => [0, 50, 0, 31]
    case QueueDelete => [0, 50, 0, 40]
    case QueueDeleteOk => [0, 50, 0, 41]
    case BasicQos => [0, 60, 0, 10]
    case BasicQosOk => [0, 60, 0, 11]
    case BasicConsume => [0, 60, 0, 20]
    case BasicConsumeOk => [0, 60, 0, 21]
    case BasicCancel => [0, 60, 0, 30]
    case BasicCancelOk => [0, 60, 0, 31]
    case BasicPublish => [0, 60, 0, 40]
    case BasicReturn => [0, 60, 0, 50]
    case BasicDeliver => [0, 60, 0, 60]
    case BasicGet => [0, 60, 0, 70]
    case BasicGetOk => [0, 60, 0, 71]
    case BasicGetEmpty => [0, 60, 0, 72]
    case BasicAck => [0, 60, 0, 80]
    case BasicReject => [0, 60, 0, 90]
    case BasicRecoverAsync => [0, 60, 0, 100]
    case BasicRecover => [0, 60, 0, 110]
    case BasicRecoverOk => [0, 60, 0, 111]
    case BasicNack => [0, 60, 0, 120]
    case TxSelect => [0, 90, 0, 10]
    case TxSelectOk => [0, 90, 0, 11]
    case TxCommit => [0, 90, 0, 20]
    case TxCommitOk => [0, 90, 0, 21]
    case TxRollback => [0, 90, 0, 30]
    case TxRollbackOk => [0, 90, 0, 31]
    case ConfirmSelect => [0, 85, 0, 10]
    case ConfirmSelectOk => [0, 85, 0, 11]
  }

  /** The arguments in their order. */
  function Parts(m: MethodName, a: seq<Arg<Entries>>): seq<bytes> {
    match m
    case ConnectionStart => [One(Num(a, 0)), One(Num(a, 1)), Section(a, 2), LongText(Str(a, 3)),
      LongText(Str(a, 4))]
    case ConnectionStartOk => [Section(a, 0), Text(Str(a, 1)), LongText(Str(a, 2)), Text(Str(a, 3))]
    case ConnectionSecure => [LongText(Str(a, 0))]
    case ConnectionSecureOk => [LongText(Str(a, 0))]
    case ConnectionTune => [Two(Num(a, 0)), Four(Num(a, 1)), Two(Num(a, 2))]
    case ConnectionTuneOk => [Two(Num(a, 0)), Four(Num(a, 1)), Two(Num(a, 2))]
    case ConnectionOpen => [Text(Str(a, 0)), Text(Str(a, 1)), Bits(a, 2, 1)]
    case ConnectionOpenOk => [Text(Str(a, 0))]
    case ConnectionClose => [Two(Num(a, 0)), Text(Str(a, 1)), Two(Num(a, 2)), Two(Num(a, 3))]
    case ConnectionCloseOk => []
    case ConnectionBlocked => [Text(Str(a, 0))]
    case ConnectionUnblocked => []
    case ChannelOpen => [Text(Str(a, 0))]
    case ChannelOpenOk => [LongText(Str(a, 0))]
    case ChannelFlow => [Bits(a, 0, 1)]
    case ChannelFlowOk => [Bits(a, 0, 1)]
    case ChannelClose => [Two(Num(a, 0)), Text(Str(a, 1)), Two(Num(a, 2)), Two(Num(a, 3))]
    case ChannelCloseOk => []
    case ExchangeDeclare => [Two(Num(a, 0)), Text(Str(a, 1)), Text(Str(a, 2)), Bits(a, 3, 5), Section(a, 4)]
    case ExchangeDeclareOk => []
    case ExchangeDelete => [Two(Num(a, 0)), Text(Str(a, 1)), Bits(a, 2, 2)]
    case ExchangeDeleteOk => []
    case ExchangeBind => [Two(Num(a, 0)), Text(Str(a, 1)), Text(Str(a, 2)), Text(Str(a, 3)), Bits(a, 4, 1),
      Section(a, 5)]
    case ExchangeBindOk => []
    case ExchangeUnbind => [Two(Num(a, 0)), Text(Str(a, 1)), Text(Str(a, 2)), Text(Str(a, 3)), Bits(a, 4, 1),
      Section(a, 5)]
    case ExchangeUnbindOk => []
    case QueueDeclare => [Two(Num(a, 0)), Text(Str(a, 1)), Bits(a, 2, 5), Section(a, 3)]
    case QueueDeclareOk => [Text(Str(a, 0)), Four(Num(a, 1)), Four(Num(a, 2))]
    case QueueBind => [Two(Num(a, 0)), Text(Str(a, 1)), Text(Str(a, 2)), Text(Str(a, 3)), Bits(a, 4, 1),
      Section(a, 5)]
    case QueueBindOk => []
    case QueueUnbind => [Two(Num(a, 0)), Text(Str(a, 1)), Text(Str(a, 2)), Text(Str(a, 3)), Section(a, 4)]
    case QueueUnbindOk => []
    case QueuePurge => [Two(Num(a, 0)), Text(Str(a, 1)), Bits(a, 2, 1)]
    case QueuePurgeOk => [Four(Num(a, 0))]
    case QueueDelete => [Two(Num(a, 0)), Text(Str(a, 1)), Bits(a, 2, 3)]
    case QueueDeleteOk => [Four(Num(a, 0))]
    case BasicQos => [Four(Num(a, 0)), Two(Num(a, 1)), Bits(a, 2, 1)]
    case BasicQosOk => []
    case BasicConsume => [Two(Num(a, 0)), Text(Str(a, 1)), Text(Str(a, 2)), Bits(a, 3, 4), Section(a, 4)]
    case BasicConsumeOk => [Text(Str(a, 0))]
    case BasicCancel => [Text(Str(a, 0)), Bits(a, 1, 1)]
    case BasicCancelOk => [Text(Str(a, 0))]
    case BasicPublish => [Two(Num(a, 0)), Text(Str(a, 1)), Text(Str(a, 2)), Bits(a, 3, 2)]
    case BasicReturn => [Two(Num(a, 0)), Text(Str(a, 1)), Text(Str(a, 2)), Text(Str(a, 3))]
    case BasicDeliver => [Text(Str(a, 0)), Eight(Num(a, 1)), Bits(a, 2, 1), Text(Str(a, 3)), Text(Str(a, 4))]
    case BasicGet => [Two(Num(a, 0)), Text(Str(a, 1)), Bits(a, 2, 1)]
    case BasicGetOk => [Eight(Num(a, 0)), Bits(a, 1, 1), Text(Str(a, 2)), Text(Str(a, 3)), Four(Num(a, 4))]
    case BasicGetEmpty => [Text(Str(a, 0))]
    case BasicAck => [Eight(Num(a, 0)), Bits(a, 1, 1)]
    case BasicReject => [Eight(Num(a, 0)), Bits(a, 1, 1)]
    case BasicRecoverAsync => [Bits(a, 0, 1)]
    case BasicRecover => [Bits(a, 0, 1)]
    case BasicRecoverOk => []
    case BasicNack => [Eight(Num(a, 0)), Bits(a, 1, 2)]
    case TxSelect => []
    case TxSelectOk => []
    case TxCommit => []
    case TxCommitOk => []
    case TxRollback => []
    case TxRollbackOk => []
    case ConfirmSelect => [Bits(a, 0, 1)]
    case ConfirmSelectOk => []
  }

  // ---------------------------------------------------------------- they are what is written and read

  lemma BitsArePacked(flags: seq<bool>)
    requires |flags| <= 5
    ensures Packed(flags) == FlagValue(flags, 0, 1) + FlagValue(flags, 1, 2) + FlagValue(flags, 2, 4)
      + FlagValue(flags, 3, 8) + FlagValue(flags, 4, 16)
  {
    hide FlagValue, Packed;
    PackedFrom(flags, 0);
    PackedFrom(flags, 1);
    PackedFrom(flags, 2);
    PackedFrom(flags, 3);
    PackedFrom(flags, 4);
    FlagScales(flags, 1, 2);
    FlagScales(flags, 2, 4);
    FlagScales(flags, 3, 8);
    FlagScales(flags, 4, 16);
    assert Rest(flags, 0) == flags && Rest(flags, 5) == [] && Packed([]) == 0 by { NothingPacked(); }
  }

  lemma NothingPacked()
    ensures Packed([]) == 0
  {
  }

  lemma FlagScales(flags: seq<bool>, k: nat, value: nat)
    ensures FlagValue(flags, k, value) == value * FlagValue(flags, k, 1)
  {
  }

  function FlagValue(flags: seq<bool>, k: nat, value: nat): nat {
    if k < |flags| && flags[k] then value else 0
  }

  function Rest(flags: seq<bool>, k: nat): seq<bool> {
    if k <= |flags| then flags[k..] else []
  }

  lemma PackedFrom(flags: seq<bool>, k: nat)
    ensures Packed(Rest(flags, k)) == FlagValue(flags, k, 1) + 2 * Packed(Rest(flags, k + 1))
  {
    if k < |flags| {
      assert flags[k..][1..] == flags[k + 1..];
    }
  }

  /** The octets of one argument, by its kind. */
  function KindOctets(k: Kind, a: seq<Arg<Entries>>, i: nat): bytes {
    match k
    case Uint(width) =>
      if width == 1 then One(Num(a, i)) else if width == 2 then Two(Num(a, i))
      else if width == 4 then Four(Num(a, i)) else Eight(Num(a, i))
    case ShortText => Text(Str(a, i))
    case LongText => LongText(Str(a, i))
    case FlagBits(n) => Bits(a, i, n)
    case FieldTable => Section(a, i)
  }

  predicate Usual(k: Kind) {
    (k.Uint? ==> k.width in {1, 2, 4, 8}) && (k.FlagBits? ==> k.count <= 5)
  }

  lemma ArgIsWritten(k: Kind, a: seq<Arg<Entries>>, i: nat)
    requires i < |a| && Typed(k, a[i]) && ValidArg(a[i]) && ArgFits(k, a[i]) && Usual(k)
    ensures ArgBytes(k, a[i]) == KindOctets(k, a, i)
  {
    hide BigEndian, Two, Four, Eight, EntryBytes;
    match k
    case Uint(width) =>
      OneOctet(a[i].n);
      TwoOctets(a[i].n);
      FourOctets(a[i].n);
      EightOctets(a[i].n);
    case ShortText => OneOctet(|a[i].text|);
    case LongText =>
      FourOctets(|a[i].text|);
      assert a[i].text[..|a[i].text| % 0x1_0000_0000] == a[i].text;
    case FlagBits(_) =>
      BitsArePacked(a[i].flags);
      OneOctet(Packed(a[i].flags));
    case FieldTable => SectionsAreWritten([], a[i].t);
  }

  lemma {:induction false} ArgsAreWritten(ks: seq<Kind>, args: seq<Arg<Entries>>, parts: seq<bytes>)
    requires AllTyped(ks, args) && ValidArgs(args) && |parts| == |ks|
    requires forall i | 0 <= i < |ks| :: parts[i] == ArgBytes(ks[i], args[i])
    ensures ArgsBytes(ks, args) == Joined(parts)
  {
    hide ArgBytes;
    if ks != [] {
      ArgsAreWritten(ks[1..], args[1..], parts[1..]);
    }
  }

  /** The two tables agree with the schema and the numbers that the reader and the writer use. */
  predicate Agrees(m: MethodName, a: seq<Arg<Entries>>) {
    && Numbers(m) == Two(Id(m).0) + Two(Id(m).1)
    && |Parts(m, a)| == |Schema(m)|
    && forall i | 0 <= i < |Schema(m)| ::
         Usual(Schema(m)[i]) && Parts(m, a)[i] == KindOctets(Schema(m)[i], a, i)
  }

  lemma ConnectionAgrees(m: MethodName, a: seq<Arg<Entries>>)
    requires m.ConnectionStart? || m.ConnectionStartOk? || m.ConnectionSecure? || m.ConnectionSecureOk? ||
      m.ConnectionTune? || m.ConnectionTuneOk? || m.ConnectionOpen? || m.ConnectionOpenOk? ||
      m.ConnectionClose? || m.ConnectionCloseOk? || m.ConnectionBlocked? || m.ConnectionUnblocked?
    ensures Agrees(m, a)
  {
    hide One, Four, Eight, Text, LongText, Bits, Section, Num, Str;
  }

  lemma ChannelAgrees(m: MethodName, a: seq<Arg<Entries>>)
    requires m.ChannelOpen? || m.ChannelOpenOk? || m.ChannelFlow? || m.ChannelFlowOk? || m.ChannelClose? ||
      m.ChannelCloseOk?
    ensures Agrees(m, a)
  {
    hide One, Four, Eight, Text, LongText, Bits, Section, Num, Str;
  }

  lemma ExchangeAgrees(m: MethodName, a: seq<Arg<Entries>>)
    requires m.ExchangeDeclare? || m.ExchangeDeclareOk? || m.ExchangeDelete? || m.ExchangeDeleteOk? ||
      m.ExchangeBind? || m.ExchangeBindOk? || m.ExchangeUnbind? || m.ExchangeUnbindOk?
    ensures Agrees(m, a)
  {
    hide One, Four, Eight, Text, LongText, Bits, Section, Num, Str;
  }

  lemma QueueAgrees(m: MethodName, a: seq<Arg<Entries>>)
    requires m.QueueDeclare? || m.QueueDeclareOk? || m.QueueBind? || m.QueueBindOk? || m.QueueUnbind? ||
      m.QueueUnbindOk? || m.QueuePurge? || m.QueuePurgeOk? || m.QueueDelete? || m.QueueDeleteOk?
    ensures Agrees(m, a)
  {
    hide One, Four, Eight, Text, LongText, Bits, Section, Num, Str;
  }

  lemma ConsumingAgrees(m: MethodName, a: seq<Arg<Entries>>)
    requires m.BasicQos? || m.BasicQosOk? || m.BasicConsume? || m.BasicConsumeOk? || m.BasicCancel? ||
      m.BasicCancelOk?
    ensures Agrees(m, a)
  {
    hide One, Four, Eight, Text, LongText, Bits, Section, Num, Str;
  }

  lemma PublishingAgrees(m: MethodName, a: seq<Arg<Entries>>)
    requires m.BasicPublish? || m.BasicReturn? || m.BasicDeliver? || m.BasicGet? || m.BasicGetOk? || m.BasicGetEmpty?
    ensures Agrees(m, a)
  {
    hide One, Four, Eight, Text, LongText, Bits, Section, Num, Str;
  }

  lemma AcknowledgingAgrees(m: MethodName, a: seq<Arg<Entries>>)
    requires m.BasicAck? || m.BasicReject? || m.BasicRecoverAsync? || m.BasicRecover? || m.BasicRecoverOk? ||
      m.BasicNack?
    ensures Agrees(m, a)
  {
    hide One, Four, Eight, Text, LongText, Bits, Section, Num, Str;
  }

  lemma TxAgrees(m: MethodName, a: seq<Arg<Entries>>)
    requires m.TxSelect? || m.TxSelectOk? || m.TxCommit? || m.TxCommitOk? || m.TxRollback? || m.TxRollbackOk?
    ensures Agrees(m, a)
  {
    hide One, Four, Eight, Text, LongText, Bits, Section, Num, Str;
  }

  lemma ConfirmAgrees(m: MethodName, a: seq<Arg<Entries>>)
    requires m.ConfirmSelect? || m.ConfirmSelectOk?
    ensures Agrees(m, a)
  {
    hide One, Four, Eight, Text, LongText, Bits, Section, Num, Str;
  }

  lemma MethodsAgree(m: MethodName, a: seq<Arg<Entries>>)
    ensures Agrees(m, a)
  {
    hide Agrees;
    if m.ConnectionStart? || m.ConnectionStartOk? || m.ConnectionSecure? || m.ConnectionSecureOk? ||
      m.ConnectionTune? || m.ConnectionTuneOk? || m.ConnectionOpen? || m.ConnectionOpenOk? ||
      m.ConnectionClose? || m.ConnectionCloseOk? || m.ConnectionBlocked? || m.ConnectionUnblocked? {
      ConnectionAgrees(m, a);
    } else if m.ChannelOpen? || m.ChannelOpenOk? || m.ChannelFlow? || m.ChannelFlowOk? || m.ChannelClose? ||
      m.ChannelCloseOk? {
      ChannelAgrees(m, a);
    } else if m.ExchangeDeclare? || m.ExchangeDeclareOk? || m.ExchangeDelete? || m.ExchangeDeleteOk? ||
      m.ExchangeBind? || m.ExchangeBindOk? || m.ExchangeUnbind? || m.ExchangeUnbindOk? {
      ExchangeAgrees(m, a);
    } else if m.QueueDeclare? || m.QueueDeclareOk? || m.QueueBind? || m.QueueBindOk? || m.QueueUnbind? ||
      m.QueueUnbindOk? || m.QueuePurge? || m.QueuePurgeOk? || m.QueueDelete? || m.QueueDeleteOk? {
      QueueAgrees(m, a);
    } else if m.BasicQos? || m.BasicQosOk? || m.BasicConsume? || m.BasicConsumeOk? || m.BasicCancel? ||
      m.BasicCancelOk? {
      ConsumingAgrees(m, a);
    } else if m.BasicPublish? || m.BasicReturn? || m.BasicDeliver? || m.BasicGet? || m.BasicGetOk? || m.BasicGetEmpty? {
      PublishingAgrees(m, a);
    } else if m.BasicAck? || m.BasicReject? || m.BasicRecoverAsync? || m.BasicRecover? || m.BasicRecoverOk? ||
      m.BasicNack? {
      AcknowledgingAgrees(m, a);
    } else if m.TxSelect? || m.TxSelectOk? || m.TxCommit? || m.TxCommitOk? || m.TxRollback? || m.TxRollbackOk? {
      TxAgrees(m, a);
    } else {
      ConfirmAgrees(m, a);
    }
  }

  /** Every method is written as these octets, and these octets, whatever follows, are read as that method. */
  lemma MethodsOnTheWire(m: Method<Entries>, suffix: bytes)
    requires MethodFits(m)
    ensures var w := Numbers(m.name) + Joined(Parts(m.name, m.args));
      MethodBytes(m) == w && ReadMethod(w + suffix) == Got(MethodReadBack(m), |w|)
  {
    hide Schema, Parts, Id, Numbers, ArgBytes, KindOctets, ArgFits, Usual, BigEndian, Two;
    MethodsAgree(m.name, m.args);
    TwoOctets(Id(m.name).0);
    TwoOctets(Id(m.name).1);
    var ks := Schema(m.name);
    forall i | 0 <= i < |ks| ensures Parts(m.name, m.args)[i] == ArgBytes(ks[i], m.args[i]) {
      ArgIsWritten(ks[i], m.args, i);
    }
    ArgsAreWritten(ks, m.args, Parts(m.name, m.args));
    MethodRoundTrips(m, suffix);
  }

  lemma TwoInverts(w: bytes)
    requires |w| >= 2
    ensures Two(FromTwo(w)) == w[..2]
  {
    var a: nat, b: nat := w[0], w[1];
    assert (256 * a + b) / 256 == a && (256 * a + b) % 256 == b;
  }

  /** Whatever octets a method is read from, they begin with its numbers; others are not read as any. */
  lemma NumbersAreRead(w: bytes)
    ensures ReadMethod(w).Got? ==> |w| >= 4 && w[..4] == Numbers(ReadMethod(w).value.name)
    ensures |w| >= 4 && (forall m :: Numbers(m) != w[..4]) ==> ReadMethod(w) == Failed(UnknownMethod, 4)
  {
    hide ReadArgs, Selected, Schema, Id, Numbers, Two, FromTwo;
    if |w| >= 4 {
      ReadsTwo(w);
      ReadsTwo(w[2..]);
      TwoInverts(w);
      TwoInverts(w[2..]);
      assert w[..4] == w[..2] + w[2..][..2];
      var selected := Selected(FromTwo(w), FromTwo(w[2..]));
      if selected.Some? {
        SelectionInvertsId(FromTwo(w), FromTwo(w[2..]), selected.value);
        assert Agrees(selected.value, []) by { MethodsAgree(selected.value, []); }
      }
    }
  }

  // ---------------------------------------------------------------- some of them, argument by argument

  function Short(s: bytes): bytes
    requires |s| <= 255
  {
    [|s|] + s
  }

  lemma TextIsShort(s: bytes)
    requires |s| <= 255
    ensures Text(s) == Short(s)
  {
    assert s[..|s|] == s;
  }

  lemma JoinTwo(a: bytes, b: bytes)
    ensures Joined([a, b]) == a + b
  {
    assert [a, b][1..] == [b] && [b][1..] == [];
    assert Joined([b]) == b + Joined([]);
  }

  lemma JoinFour(a: bytes, b: bytes, c: bytes, d: bytes)
    ensures Joined([a, b, c, d]) == a + b + c + d
  {
    hide Joined;
    JoinMore(a, [b, c, d]);
    JoinMore(b, [c, d]);
    JoinTwo(c, d);
    assert [a] + [b, c, d] == [a, b, c, d] && [b] + [c, d] == [b, c, d];
    assert a + (b + (c + d)) == a + b + c + d;
  }

  lemma JoinFive(a: bytes, b: bytes, c: bytes, d: bytes, e: bytes)
    ensures Joined([a, b, c, d, e]) == a + b + c + d + e
  {
    hide Joined;
    JoinMore(a, [b, c, d, e]);
    JoinFour(b, c, d, e);
    assert [a] + [b, c, d, e] == [a, b, c, d, e];
    assert a + (b + c + d + e) == a + b + c + d + e;
  }

  lemma JoinMore(a: bytes, parts: seq<bytes>)
    ensures Joined([a] + parts) == a + Joined(parts)
  {
    assert ([a] + parts)[1..] == parts;
  }

  lemma DeliverParts(tag: bytes, n: uint64, redelivered: bool, exchange: bytes, key: bytes)
    requires |tag| <= 255 && |exchange| <= 255 && |key| <= 255
    ensures var args: seq<Arg<Entries>> := [TextArg(tag), NumArg(n), FlagArg([redelivered]),
      TextArg(exchange), TextArg(key)];
      && MethodFits(Method(BasicDeliver, args))
      && Numbers(BasicDeliver) == [0, 60, 0, 60]
      && Parts(BasicDeliver, args) == [Short(tag), Eight(n), [if redelivered then 1 else 0], Short(exchange),
        Short(key)]
      && MethodReadBack(Method(BasicDeliver, args)) == Method(BasicDeliver, [TextArg(tag), NumArg(n),
        FlagArg([redelivered]), TextArg(exchange), TextArg(key)])
  {
    hide Four, Eight, Two;
    Widths();
    TextIsShort(tag);
    TextIsShort(exchange);
    TextIsShort(key);
    var args: seq<Arg<Entries>> := [TextArg(tag), NumArg(n), FlagArg([redelivered]), TextArg(exchange),
      TextArg(key)];
    assert MethodReadBack(Method(BasicDeliver, args)).args == [TextArg(tag), NumArg(n),
      FlagArg([redelivered]), TextArg(exchange), TextArg(key)];
  }

  /** basic.deliver: consumer tag, delivery tag, the bit `redelivered`, exchange, routing key. */
  lemma DeliverOnTheWire(tag: bytes, n: uint64, redelivered: bool, exchange: bytes, key: bytes, suffix: bytes)
    requires |tag| <= 255 && |exchange| <= 255 && |key| <= 255
    ensures var w := [0, 60, 0, 60] + (Short(tag) + Eight(n) + [if redelivered then 1 else 0]
      + Short(exchange) + Short(key));
      ReadMethod(w + suffix) == Got(Method(BasicDeliver, [TextArg(tag), NumArg(n), FlagArg([redelivered]),
        TextArg(exchange), TextArg(key)]), |w|)
  {
    hide Joined, Parts, Numbers, MethodFits, MethodReadBack, Eight, Two, Short;
    var args: seq<Arg<Entries>> := [TextArg(tag), NumArg(n), FlagArg([redelivered]), TextArg(exchange),
      TextArg(key)];
    DeliverParts(tag, n, redelivered, exchange, key);
    MethodsOnTheWire(Method(BasicDeliver, args), suffix);
    JoinFive(Short(tag), Eight(n), [if redelivered then 1 else 0], Short(exchange), Short(key));
  }

  lemma PublishParts(reserved: uint16, exchange: bytes, key: bytes, mandatory: bool, immediate: bool)
    requires |exchange| <= 255 && |key| <= 255
    ensures var args: seq<Arg<Entries>> := [NumArg(reserved), TextArg(exchange), TextArg(key),
      FlagArg([mandatory, immediate])];
      && MethodFits(Method(BasicPublish, args))
      && Numbers(BasicPublish) == [0, 60, 0, 40]
      && Parts(BasicPublish, args) == [Two(reserved), Short(exchange), Short(key),
        [(if mandatory then 1 else 0) + (if immediate then 2 else 0)]]
      && MethodReadBack(Method(BasicPublish, args)) == Method(BasicPublish, [NumArg(reserved),
        TextArg(exchange), TextArg(key), FlagArg([mandatory, immediate])])
  {
    hide Four, Eight, Two;
    Widths();
    TextIsShort(exchange);
    TextIsShort(key);
    var args: seq<Arg<Entries>> := [NumArg(reserved), TextArg(exchange), TextArg(key), FlagArg([mandatory,
      immediate])];
    assert MethodReadBack(Method(BasicPublish, args)).args == [NumArg(reserved), TextArg(exchange),
      TextArg(key), FlagArg([mandatory, immediate])];
  }

  /** basic.publish: a reserved number, exchange, routing key, the bits `mandatory` and `immediate`. */
  lemma PublishOnTheWire(reserved: uint16, exchange: bytes, key: bytes, mandatory: bool, immediate: bool, suffix: bytes)
    requires |exchange| <= 255 && |key| <= 255
    ensures var w := [0, 60, 0, 40] + (Two(reserved) + Short(exchange) + Short(key)
      + [(if mandatory then 1 else 0) + (if immediate then 2 else 0)]);
      ReadMethod(w + suffix) == Got(Method(BasicPublish, [NumArg(reserved), TextArg(exchange), TextArg(key),
        FlagArg([mandatory, immediate])]), |w|)
  {
    hide Joined, Parts, Numbers, MethodFits, MethodReadBack, Eight, Two, Short;
    var args: seq<Arg<Entries>> := [NumArg(reserved), TextArg(exchange), TextArg(key), FlagArg([mandatory,
      immediate])];
    PublishParts(reserved, exchange, key, mandatory, immediate);
    MethodsOnTheWire(Method(BasicPublish, args), suffix);
    JoinFour(Two(reserved), Short(exchange), Short(key), [(if mandatory then 1 else 0)
      + (if immediate then 2 else 0)]);
  }

  lemma AckParts(n: uint64, multiple: bool)
    ensures var args: seq<Arg<Entries>> := [NumArg(n), FlagArg([multiple])];
      && MethodFits(Method(BasicAck, args))
      && Numbers(BasicAck) == [0, 60, 0, 80]
      && Parts(BasicAck, args) == [Eight(n), [if multiple then 1 else 0]]
      && MethodReadBack(Method(BasicAck, args)) == Method(BasicAck, [NumArg(n), FlagArg([multiple])])
  {
    hide Four, Eight, Two;
    Widths();
    var args: seq<Arg<Entries>> := [NumArg(n), FlagArg([multiple])];
    assert MethodReadBack(Method(BasicAck, args)).args == [NumArg(n), FlagArg([multiple])];
  }

  /** basic.ack: delivery tag, the bit `multiple`. */
  lemma AckOnTheWire(n: uint64, multiple: bool, suffix: bytes)
    ensures var w := [0, 60, 0, 80] + (Eight(n) + [if multiple then 1 else 0]);
      ReadMethod(w + suffix) == Got(Method(BasicAck, [NumArg(n), FlagArg([multiple])]), |w|)
  {
    hide Joined, Parts, Numbers, MethodFits, MethodReadBack, Eight, Two, Short;
    var args: seq<Arg<Entries>> := [NumArg(n), FlagArg([multiple])];
    AckParts(n, multiple);
    MethodsOnTheWire(Method(BasicAck, args), suffix);
    JoinTwo(Eight(n), [if multiple then 1 else 0]);
  }

  lemma NackParts(n: uint64, multiple: bool, requeue: bool)
    ensures var args: seq<Arg<Entries>> := [NumArg(n), FlagArg([multiple, requeue])];
      && MethodFits(Method(BasicNack, args))
      && Numbers(BasicNack) == [0, 60, 0, 120]
      && Parts(BasicNack, args) == [Eight(n), [(if multiple then 1 else 0) + (if requeue then 2 else 0)]]
      && MethodReadBack(Method(BasicNack, args)) == Method(BasicNack, [NumArg(n), FlagArg([multiple, requeue])])
  {
    hide Four, Eight, Two;
    Widths();
    var args: seq<Arg<Entries>> := [NumArg(n), FlagArg([multiple, requeue])];
    assert MethodReadBack(Method(BasicNack, args)).args == [NumArg(n), FlagArg([multiple, requeue])];
  }

  /** basic.nack: delivery tag, the bits `multiple` and `requeue`. */
  lemma NackOnTheWire(n: uint64, multiple: bool, requeue: bool, suffix: bytes)
    ensures var w := [0, 60, 0, 120] + (Eight(n) + [(if multiple then 1 else 0) + (if requeue then 2 else 0)]);
      ReadMethod(w + suffix) == Got(Method(BasicNack, [NumArg(n), FlagArg([multiple, requeue])]), |w|)
  {
    hide Joined, Parts, Numbers, MethodFits, MethodReadBack, Eight, Two, Short;
    var args: seq<Arg<Entries>> := [NumArg(n), FlagArg([multiple, requeue])];
    NackParts(n, multiple, requeue);
    MethodsOnTheWire(Method(BasicNack, args), suffix);
    JoinTwo(Eight(n), [(if multiple then 1 else 0) + (if requeue then 2 else 0)]);
  }

  lemma CancelParts(tag: bytes, noWait: bool)
    requires |tag| <= 255
    ensures var args: seq<Arg<Entries>> := [TextArg(tag), FlagArg([noWait])];
      && MethodFits(Method(BasicCancel, args))
      && Numbers(BasicCancel) == [0, 60, 0, 30]
      && Parts(BasicCancel, args) == [Short(tag), [if noWait then 1 else 0]]
      && MethodReadBack(Method(BasicCancel, args)) == Method(BasicCancel, [TextArg(tag), FlagArg([noWait])])
  {
    hide Four, Eight, Two;
    Widths();
    TextIsShort(tag);
    var args: seq<Arg<Entries>> := [TextArg(tag), FlagArg([noWait])];
    assert MethodReadBack(Method(BasicCancel, args)).args == [TextArg(tag), FlagArg([noWait])];
  }

  /** basic.cancel: consumer tag, the bit `no-wait`. */
  lemma CancelOnTheWire(tag: bytes, noWait: bool, suffix: bytes)
    requires |tag| <= 255
    ensures var w := [0, 60, 0, 30] + (Short(tag) + [if noWait then 1 else 0]);
      ReadMethod(w + suffix) == Got(Method(BasicCancel, [TextArg(tag), FlagArg([noWait])]), |w|)
  {
    hide Joined, Parts, Numbers, MethodFits, MethodReadBack, Eight, Two, Short;
    var args: seq<Arg<Entries>> := [TextArg(tag), FlagArg([noWait])];
    CancelParts(tag, noWait);
    MethodsOnTheWire(Method(BasicCancel, args), suffix);
    JoinTwo(Short(tag), [if noWait then 1 else 0]);
  }
}
