/**
 The 62 methods of the protocol: their class and method numbers, the wire types of their arguments
 in order, and the reading and writing of those arguments.
 */
module Methods {
  import opened Bytes
  import opened Streams
  import opened FieldValues
  import opened FieldCodec
  import opened FieldRoundTrip

  datatype MethodName =
    | ConnectionStart
    | ConnectionStartOk
    | ConnectionSecure
    | ConnectionSecureOk
    | ConnectionTune
    | ConnectionTuneOk
    | ConnectionOpen
    | ConnectionOpenOk
    | ConnectionClose
    | ConnectionCloseOk
    | ConnectionBlocked
    | ConnectionUnblocked
    | ChannelOpen
    | ChannelOpenOk
    | ChannelFlow
    | ChannelFlowOk
    | ChannelClose
    | ChannelCloseOk
    | ExchangeDeclare
    | ExchangeDeclareOk
    | ExchangeDelete
    | ExchangeDeleteOk
    | ExchangeBind
    | ExchangeBindOk
    | ExchangeUnbind
    | ExchangeUnbindOk
    | QueueDeclare
    | QueueDeclareOk
    | QueueBind
    | QueueBindOk
    | QueueUnbind
    | QueueUnbindOk
    | QueuePurge
    | QueuePurgeOk
    | QueueDelete
    | QueueDeleteOk
    | BasicQos
    | BasicQosOk
    | BasicConsume
    | BasicConsumeOk
    | BasicCancel
    | BasicCancelOk
    | BasicPublish
    | BasicReturn
    | BasicDeliver
    | BasicGet
    | BasicGetOk
    | BasicGetEmpty
    | BasicAck
    | BasicReject
    | BasicRecoverAsync
    | BasicRecover
    | BasicRecoverOk
    | BasicNack
    | TxSelect
    | TxSelectOk
    | TxCommit
    | TxCommitOk
    | TxRollback
    | TxRollbackOk
    | ConfirmSelect
    | ConfirmSelectOk

  /** id(): the class and method number that a method is written with. */
  function Id(m: MethodName): (uint16, uint16) {
    match m
    case ConnectionStart => (10, 10)
    case ConnectionStartOk => (10, 11)
    case ConnectionSecure => (10, 20)
    case ConnectionSecureOk => (10, 21)
    case ConnectionTune => (10, 30)
    case ConnectionTuneOk => (10, 31)
    case ConnectionOpen => (10, 40)
    case ConnectionOpenOk => (10, 41)
    case ConnectionClose => (10, 50)
    case ConnectionCloseOk => (10, 51)
    case ConnectionBlocked => (10, 60)
    case ConnectionUnblocked => (10, 61)
    case ChannelOpen => (20, 10)
    case ChannelOpenOk => (20, 11)
    case ChannelFlow => (20, 20)
    case ChannelFlowOk => (20, 21)
    case ChannelClose => (20, 40)
    case ChannelCloseOk => (20, 41)
    case ExchangeDeclare => (40, 10)
    case ExchangeDeclareOk => (40, 11)
    case ExchangeDelete => (40, 20)
    case ExchangeDeleteOk => (40, 21)
    case ExchangeBind => (40, 30)
    case ExchangeBindOk => (40, 31)
    case ExchangeUnbind => (40, 40)
    case ExchangeUnbindOk => (40, 51)
    case QueueDeclare => (50, 10)
    case QueueDeclareOk => (50, 11)
    case QueueBind => (50, 20)
    case QueueBindOk => (50, 21)
    case QueueUnbind => (50, 50)
    case QueueUnbindOk => (50, 51)
    case QueuePurge => (50, 30)
    case QueuePurgeOk => (50, 31)
    case QueueDelete => (50, 40)
    case QueueDeleteOk => (50, 41)
    case BasicQos => (60, 10)
    case BasicQosOk => (60, 11)
    case BasicConsume => (60, 20)
    case BasicConsumeOk => (60, 21)
    case BasicCancel => (60, 30)
    case BasicCancelOk => (60, 31)
    case BasicPublish => (60, 40)
    case BasicReturn => (60, 50)
    case BasicDeliver => (60, 60)
    case BasicGet => (60, 70)
    case BasicGetOk => (60, 71)
    case BasicGetEmpty => (60, 72)
    case BasicAck => (60, 80)
    case BasicReject => (60, 90)
    case BasicRecoverAsync => (60, 100)
    case BasicRecover => (60, 110)
    case BasicRecoverOk => (60, 111)
    case BasicNack => (60, 120)
    case TxSelect => (90, 10)
    case TxSelectOk => (90, 11)
    case TxCommit => (90, 20)
    case TxCommitOk => (90, 21)
    case TxRollback => (90, 30)
    case TxRollbackOk => (90, 31)
    case ConfirmSelect => (85, 10)
    case ConfirmSelectOk => (85, 11)
  }

  /** The switch of parseMethodFrame: the method that a class and method number select, if any. */
  function Selected(class_: nat, method_: nat): Option<MethodName> {
    if class_ == 10 then SelectedConnection(method_)
    else if class_ == 20 then SelectedChannel(method_)
    else if class_ == 40 then SelectedExchange(method_)
    else if class_ == 50 then SelectedQueue(method_)
    else if class_ == 60 then SelectedBasic(method_)
    else if class_ == 90 then SelectedTx(method_)
    else if class_ == 85 then SelectedConfirm(method_)
    else None
  }

  function SelectedConnection(method_: nat): Option<MethodName> {
    if method_ == 10 then Some(ConnectionStart)
    else if method_ == 11 then Some(ConnectionStartOk)
    else if method_ == 20 then Some(ConnectionSecure)
    else if method_ == 21 then Some(ConnectionSecureOk)
    else if method_ == 30 then Some(ConnectionTune)
    else if method_ == 31 then Some(ConnectionTuneOk)
    else if method_ == 40 then Some(ConnectionOpen)
    else if method_ == 41 then Some(ConnectionOpenOk)
    else if method_ == 50 then Some(ConnectionClose)
    else if method_ == 51 then Some(ConnectionCloseOk)
    else if method_ == 60 then Some(ConnectionBlocked)
    else if method_ == 61 then Some(ConnectionUnblocked)
    else None
  }

  function SelectedChannel(method_: nat): Option<MethodName> {
    if method_ == 10 then Some(ChannelOpen)
    else if method_ == 11 then Some(ChannelOpenOk)
    else if method_ == 20 then Some(ChannelFlow)
    else if method_ == 21 then Some(ChannelFlowOk)
    else if method_ == 40 then Some(ChannelClose)
    else if method_ == 41 then Some(ChannelCloseOk)
    else None
  }

  function SelectedExchange(method_: nat): Option<MethodName> {
    if method_ == 10 then Some(ExchangeDeclare)
    else if method_ == 11 then Some(ExchangeDeclareOk)
    else if method_ == 20 then Some(ExchangeDelete)
    else if method_ == 21 then Some(ExchangeDeleteOk)
    else if method_ == 30 then Some(ExchangeBind)
    else if method_ == 31 then Some(ExchangeBindOk)
    else if method_ == 40 then Some(ExchangeUnbind)
    else if method_ == 51 then Some(ExchangeUnbindOk)
    else None
  }

  function SelectedQueue(method_: nat): Option<MethodName> {
    if method_ == 10 then Some(QueueDeclare)
    else if method_ == 11 then Some(QueueDeclareOk)
    else if method_ == 20 then Some(QueueBind)
    else if method_ == 21 then Some(QueueBindOk)
    else if method_ == 50 then Some(QueueUnbind)
    else if method_ == 51 then Some(QueueUnbindOk)
    else if method_ == 30 then Some(QueuePurge)
    else if method_ == 31 then Some(QueuePurgeOk)
    else if method_ == 40 then Some(QueueDelete)
    else if method_ == 41 then Some(QueueDeleteOk)
    else None
  }

  function SelectedBasic(method_: nat): Option<MethodName> {
    if method_ == 10 then Some(BasicQos)
    else if method_ == 11 then Some(BasicQosOk)
    else if method_ == 20 then Some(BasicConsume)
    else if method_ == 21 then Some(BasicConsumeOk)
    else if method_ == 30 then Some(BasicCancel)
    else if method_ == 31 then Some(BasicCancelOk)
    else if method_ == 40 then Some(BasicPublish)
    else if method_ == 50 then Some(BasicReturn)
    else if method_ == 60 then Some(BasicDeliver)
    else if method_ == 70 then Some(BasicGet)
    else if method_ == 71 then Some(BasicGetOk)
    else if method_ == 72 then Some(BasicGetEmpty)
    else if method_ == 80 then Some(BasicAck)
    else if method_ == 90 then Some(BasicReject)
    else if method_ == 100 then Some(BasicRecoverAsync)
    else if method_ == 110 then Some(BasicRecover)
    else if method_ == 111 then Some(BasicRecoverOk)
    else if method_ == 120 then Some(BasicNack)
    else None
  }

  function SelectedTx(method_: nat): Option<MethodName> {
    if method_ == 10 then Some(TxSelect)
    else if method_ == 11 then Some(TxSelectOk)
    else if method_ == 20 then Some(TxCommit)
    else if method_ == 21 then Some(TxCommitOk)
    else if method_ == 30 then Some(TxRollback)
    else if method_ == 31 then Some(TxRollbackOk)
    else None
  }

  function SelectedConfirm(method_: nat): Option<MethodName> {
    if method_ == 10 then Some(ConfirmSelect)
    else if method_ == 11 then Some(ConfirmSelectOk)
    else None
  }

  datatype Option<+T> = None | Some(value: T)

  /** The wire types of the arguments; consecutive bits share one octet. */
  datatype Kind = Uint(width: nat) | ShortText | LongText | FlagBits(count: nat) | FieldTable

  function Schema(m: MethodName): seq<Kind> {
    match m
    case ConnectionStart => [Uint(1), Uint(1), FieldTable, LongText, LongText]
    case ConnectionStartOk => [FieldTable, ShortText, LongText, ShortText]
    case ConnectionSecure => [LongText]
    case ConnectionSecureOk => [LongText]
    case ConnectionTune => [Uint(2), Uint(4), Uint(2)]
    case ConnectionTuneOk => [Uint(2), Uint(4), Uint(2)]
    case ConnectionOpen => [ShortText, ShortText, FlagBits(1)]
    case ConnectionOpenOk => [ShortText]
    case ConnectionClose => [Uint(2), ShortText, Uint(2), Uint(2)]
    case ConnectionCloseOk => []
    case ConnectionBlocked => [ShortText]
    case ConnectionUnblocked => []
    case ChannelOpen => [ShortText]
    case ChannelOpenOk => [LongText]
    case ChannelFlow => [FlagBits(1)]
    case ChannelFlowOk => [FlagBits(1)]
    case ChannelClose => [Uint(2), ShortText, Uint(2), Uint(2)]
    case ChannelCloseOk => []
    case ExchangeDeclare => [Uint(2), ShortText, ShortText, FlagBits(5), FieldTable]
    case ExchangeDeclareOk => []
    case ExchangeDelete => [Uint(2), ShortText, FlagBits(2)]
    case ExchangeDeleteOk => []
    case ExchangeBind => [Uint(2), ShortText, ShortText, ShortText, FlagBits(1), FieldTable]
    case ExchangeBindOk => []
    case ExchangeUnbind => [Uint(2), ShortText, ShortText, ShortText, FlagBits(1), FieldTable]
    case ExchangeUnbindOk => []
    case QueueDeclare => [Uint(2), ShortText, FlagBits(5), FieldTable]
    case QueueDeclareOk => [ShortText, Uint(4), Uint(4)]
    case QueueBind => [Uint(2), ShortText, ShortText, ShortText, FlagBits(1), FieldTable]
    case QueueBindOk => []
    case QueueUnbind => [Uint(2), ShortText, ShortText, ShortText, FieldTable]
    case QueueUnbindOk => []
    case QueuePurge => [Uint(2), ShortText, FlagBits(1)]
    case QueuePurgeOk => [Uint(4)]
    case QueueDelete => [Uint(2), ShortText, FlagBits(3)]
    case QueueDeleteOk => [Uint(4)]
    case BasicQos => [Uint(4), Uint(2), FlagBits(1)]
    case BasicQosOk => []
    case BasicConsume => [Uint(2), ShortText, ShortText, FlagBits(4), FieldTable]
    case BasicConsumeOk => [ShortText]
    case BasicCancel => [ShortText, FlagBits(1)]
    case BasicCancelOk => [ShortText]
    case BasicPublish => [Uint(2), ShortText, ShortText, FlagBits(2)]
    case BasicReturn => [Uint(2), ShortText, ShortText, ShortText]
    case BasicDeliver => [ShortText, Uint(8), FlagBits(1), ShortText, ShortText]
    case BasicGet => [Uint(2), ShortText, FlagBits(1)]
    case BasicGetOk => [Uint(8), FlagBits(1), ShortText, ShortText, Uint(4)]
    case BasicGetEmpty => [ShortText]
    case BasicAck => [Uint(8), FlagBits(1)]
    case BasicReject => [Uint(8), FlagBits(1)]
    case BasicRecoverAsync => [FlagBits(1)]
    case BasicRecover => [FlagBits(1)]
    case BasicRecoverOk => []
    case BasicNack => [Uint(8), FlagBits(2)]
    case TxSelect => []
    case TxSelectOk => []
    case TxCommit => []
    case TxCommitOk => []
    case TxRollback => []
    case TxRollbackOk => []
    case ConfirmSelect => [FlagBits(1)]
    case ConfirmSelectOk => []
  }

  /** The methods that a content header and body follow (messageWithContent). */
  predicate CarriesContent(m: MethodName) {
    m.BasicPublish? || m.BasicReturn? || m.BasicDeliver? || m.BasicGetOk?
  }

  /** One argument; T is how a field table is given, as entries in writing order or as a map. */
  datatype Arg<T> = NumArg(n: nat) | TextArg(text: bytes) | FlagArg(flags: seq<bool>) | TableArg(t: T)

  datatype Method<T> = Method(name: MethodName, args: seq<Arg<T>>)

  predicate Typed<T>(k: Kind, a: Arg<T>) {
    match k
    case Uint(width) => a.NumArg? && a.n < Pow256(width)
    case FlagBits(count) => a.FlagArg? && |a.flags| == count && count <= 8
    case FieldTable => a.TableArg?
    case _ => a.TextArg?
  }

  predicate AllTyped<T>(ks: seq<Kind>, args: seq<Arg<T>>) {
    |ks| == |args| && forall i | 0 <= i < |ks| :: Typed(ks[i], args[i])
  }

  predicate WellTyped<T>(m: Method<T>) {
    AllTyped(Schema(m.name), m.args)
  }

  // ---------------------------------------------------------------- bits

  /** Bit i is set when flag i is. */
  function Packed(flags: seq<bool>): nat {
    if flags == [] then 0 else (if flags[0] then 1 else 0) + 2 * Packed(flags[1..])
  }

  function Unpacked(bits: nat, count: nat): (flags: seq<bool>)
    ensures |flags| == count
  {
    if count == 0 then [] else [bits % 2 == 1] + Unpacked(bits / 2, count - 1)
  }

  function Pow2(n: nat): (p: nat)
    ensures p >= 1
  {
    if n == 0 then 1 else 2 * Pow2(n - 1)
  }

  lemma {:induction false} PackingInverts(flags: seq<bool>)
    ensures Packed(flags) < Pow2(|flags|)
    ensures Unpacked(Packed(flags), |flags|) == flags
  {
    if flags != [] {
      PackingInverts(flags[1..]);
      assert Packed(flags) / 2 == Packed(flags[1..]);
    }
  }

  lemma {:induction false} Pow2Grows(m: nat, n: nat)
    requires m <= n
    ensures Pow2(m) <= Pow2(n)
    decreases n
  {
    if m < n {
      Pow2Grows(m, n - 1);
    }
  }

  lemma FlagsFillAnOctet(flags: seq<bool>)
    requires |flags| <= 8
    ensures Packed(flags) < 256
  {
    PackingInverts(flags);
    Pow2Grows(|flags|, 8);
    assert Pow2(8) == 256;
  }

  // ---------------------------------------------------------------- writing

  predicate ValidArg(a: Arg<Entries>) {
    a.TableArg? ==> ValidEntries(a.t)
  }

  predicate ValidArgs(args: seq<Arg<Entries>>) {
    forall i | 0 <= i < |args| :: ValidArg(args[i])
  }

  function ArgBytes(k: Kind, a: Arg<Entries>): bytes
    requires Typed(k, a) && ValidArg(a)
  {
    match k
    case Uint(width) => BigEndian(a.n, width)
    case ShortText => Shortstr(a.text)
    case LongText => Longstr(a.text)
    case FlagBits(_) => BigEndian(Packed(a.flags), 1)
    case FieldTable => TableBytes(a.t)
  }

  function ArgsBytes(ks: seq<Kind>, args: seq<Arg<Entries>>): bytes
    requires AllTyped(ks, args) && ValidArgs(args)
  {
    if ks == [] then [] else ArgBytes(ks[0], args[0]) + ArgsBytes(ks[1..], args[1..])
  }

  function MethodBytes(m: Method<Entries>): bytes
    requires WellTyped(m) && ValidArgs(m.args)
  {
    BigEndian(Id(m.name).0, 2) + BigEndian(Id(m.name).1, 2) + ArgsBytes(Schema(m.name), m.args)
  }

  // ---------------------------------------------------------------- reading

  function ReadArg(k: Kind, w: bytes): (r: Read<Arg<Table>>)
    ensures r.used <= |w|
  {
    match k
    case Uint(width) =>
      (match Number(w, width)
       case Failed(e, u) => Failed(e, u)
       case Got(n, u) => Got(NumArg(n), u))
    case ShortText =>
      (match ReadShortstr(w)
       case Failed(e, u) => Failed(e, u)
       case Got(s, u) => Got(TextArg(s), u))
    case LongText =>
      (match ReadLongstr(w)
       case Failed(e, u) => Failed(e, u)
       case Got(s, u) => Got(TextArg(s), u))
    case FlagBits(count) =>
      (match Number(w, 1)
       case Failed(e, u) => Failed(e, u)
       case Got(n, u) => Got(FlagArg(Unpacked(n, count)), u))
    case FieldTable =>
      (match ReadTable(w)
       case Failed(e, u) => Failed(e, u)
       case Got(t, u) => Got(TableArg(t), u))
  }

  function ReadArgs(ks: seq<Kind>, w: bytes): (r: Read<seq<Arg<Table>>>)
    ensures r.used <= |w|
  {
    if ks == [] then Got([], 0)
    else
      match ReadArg(ks[0], w)
      case Failed(e, u) => Failed(e, u)
      case Got(a, u) =>
        match ReadArgs(ks[1..], w[u..])
        case Failed(e, u') => Failed(e, u + u')
        case Got(rest, u') => Got([a] + rest, u + u')
  }

  function ReadMethod(w: bytes): (r: Read<Method<Table>>)
    ensures r.used <= |w|
  {
    match Number(w, 2)
    case Failed(e, u) => Failed(e, u)
    case Got(class_, u) =>
      match Number(w[u..], 2)
      case Failed(e, u') => Failed(e, u + u')
      case Got(method_, u') =>
        match Selected(class_, method_)
        case None => Failed(UnknownMethod, u + u')
        case Some(name) =>
          match ReadArgs(Schema(name), w[u + u'..])
          case Failed(e, u'') => Failed(e, u + u' + u'')
          case Got(args, u'') => Got(Method(name, args), u + u' + u'')
  }

  // ---------------------------------------------------------------- round trip

  /** The argument that a written one is read back as. */
  function ArgReadBack(a: Arg<Entries>): Arg<Table> {
    match a
    case NumArg(n) => NumArg(n)
    case TextArg(s) => TextArg(s)
    case FlagArg(flags) => FlagArg(flags)
    case TableArg(es) => TableArg(CanonTable(Contents(es)))
  }

  function ArgsReadBack(args: seq<Arg<Entries>>): seq<Arg<Table>> {
    seq(|args|, i requires 0 <= i < |args| => ArgReadBack(args[i]))
  }

  function MethodReadBack(m: Method<Entries>): Method<Table> {
    Method(m.name, ArgsReadBack(m.args))
  }

  predicate ArgFits(k: Kind, a: Arg<Entries>)
    requires Typed(k, a) && ValidArg(a)
  {
    match k
    case ShortText => |a.text| <= 255
    case LongText => |a.text| <= MAX_LONGSTR
    case FieldTable => TableFits(a.t)
    case _ => true
  }

  predicate ArgsFit(ks: seq<Kind>, args: seq<Arg<Entries>>)
    requires AllTyped(ks, args) && ValidArgs(args)
  {
    forall i | 0 <= i < |ks| :: ArgFits(ks[i], args[i])
  }

  predicate MethodFits(m: Method<Entries>) {
    WellTyped(m) && ValidArgs(m.args) && ArgsFit(Schema(m.name), m.args)
  }

  /** parseMethodFrame selects a method exactly when given the numbers that its id() returns. */
  lemma SelectionInvertsId(class_: nat, method_: nat, m: MethodName)
    ensures Selected(class_, method_) == Some(m) <==> Id(m) == (class_, method_)
  {
    hide Id, Selected;
    SelectedHasId(class_, method_);
    IdIsSelected(m);
  }

  lemma SelectedHasId(class_: nat, method_: nat)
    ensures Selected(class_, method_).Some? ==> Id(Selected(class_, method_).value) == (class_, method_)
  {
    hide Id, SelectedConnection, SelectedChannel, SelectedExchange, SelectedQueue, SelectedBasic, SelectedTx, SelectedConfirm;
    ConnectionHasId(method_);
    ChannelHasId(method_);
    ExchangeHasId(method_);
    QueueHasId(method_);
    BasicHasId(method_);
    TxHasId(method_);
    ConfirmHasId(method_);
  }

  lemma IdIsSelected(m: MethodName)
    ensures Selected(Id(m).0, Id(m).1) == Some(m)
  {
    hide Id, SelectedConnection, SelectedChannel, SelectedExchange, SelectedQueue, SelectedBasic, SelectedTx, SelectedConfirm;
    ClassesOfIds(m);
    if Id(m).0 == 10 {
      ConnectionIsSelected(m);
    } else if Id(m).0 == 20 {
      ChannelIsSelected(m);
    } else if Id(m).0 == 40 {
      ExchangeIsSelected(m);
    } else if Id(m).0 == 50 {
      QueueIsSelected(m);
    } else if Id(m).0 == 60 {
      BasicIsSelected(m);
    } else if Id(m).0 == 90 {
      TxIsSelected(m);
    } else {
      ConfirmIsSelected(m);
    }
  }

  lemma ClassesOfIds(m: MethodName)
    ensures Id(m).0 in {10, 20, 40, 50, 60, 90, 85}
  {
  }

  lemma ConnectionHasId(method_: nat)
    ensures SelectedConnection(method_).Some? ==> Id(SelectedConnection(method_).value) == (10, method_)
  {
  }

  lemma ConnectionIsSelected(m: MethodName)
    requires Id(m).0 == 10
    ensures SelectedConnection(Id(m).1) == Some(m)
  {
  }

  lemma ChannelHasId(method_: nat)
    ensures SelectedChannel(method_).Some? ==> Id(SelectedChannel(method_).value) == (20, method_)
  {
  }

  lemma ChannelIsSelected(m: MethodName)
    requires Id(m).0 == 20
    ensures SelectedChannel(Id(m).1) == Some(m)
  {
  }

  lemma ExchangeHasId(method_: nat)
    ensures SelectedExchange(method_).Some? ==> Id(SelectedExchange(method_).value) == (40, method_)
  {
  }

  lemma ExchangeIsSelected(m: MethodName)
    requires Id(m).0 == 40
    ensures SelectedExchange(Id(m).1) == Some(m)
  {
  }

  lemma QueueHasId(method_: nat)
    ensures SelectedQueue(method_).Some? ==> Id(SelectedQueue(method_).value) == (50, method_)
  {
  }

  lemma QueueIsSelected(m: MethodName)
    requires Id(m).0 == 50
    ensures SelectedQueue(Id(m).1) == Some(m)
  {
  }

  lemma BasicHasId(method_: nat)
    ensures SelectedBasic(method_).Some? ==> Id(SelectedBasic(method_).value) == (60, method_)
  {
    hide Id, SelectedBasic;
    if method_ < 60 {
      LowBasicHasId(method_);
    } else {
      HighBasicHasId(method_);
    }
  }

  lemma LowBasicHasId(method_: nat)
    requires method_ < 60
    ensures SelectedBasic(method_).Some? ==> Id(SelectedBasic(method_).value) == (60, method_)
  {
  }

  lemma HighBasicHasId(method_: nat)
    requires method_ >= 60
    ensures SelectedBasic(method_).Some? ==> Id(SelectedBasic(method_).value) == (60, method_)
  {
  }

  lemma BasicIsSelected(m: MethodName)
    requires Id(m).0 == 60
    ensures SelectedBasic(Id(m).1) == Some(m)
  {
  }

  lemma TxHasId(method_: nat)
    ensures SelectedTx(method_).Some? ==> Id(SelectedTx(method_).value) == (90, method_)
  {
  }

  lemma TxIsSelected(m: MethodName)
    requires Id(m).0 == 90
    ensures SelectedTx(Id(m).1) == Some(m)
  {
  }

  lemma ConfirmHasId(method_: nat)
    ensures SelectedConfirm(method_).Some? ==> Id(SelectedConfirm(method_).value) == (85, method_)
  {
  }

  lemma ConfirmIsSelected(m: MethodName)
    requires Id(m).0 == 85
    ensures SelectedConfirm(Id(m).1) == Some(m)
  {
  }

  lemma IdsAreDistinct(m: MethodName, n: MethodName)
    requires Id(m) == Id(n)
    ensures m == n
  {
    SelectionInvertsId(Id(m).0, Id(m).1, m);
    SelectionInvertsId(Id(m).0, Id(m).1, n);
  }

  lemma ArgRoundTrips(k: Kind, a: Arg<Entries>, suffix: bytes)
    requires Typed(k, a) && ValidArg(a) && ArgFits(k, a)
    ensures ReadArg(k, ArgBytes(k, a) + suffix) == Got(ArgReadBack(a), |ArgBytes(k, a)|)
  {
    hide ReadShortstr, ReadLongstr, ReadTable, Shortstr, Longstr;
    match k
    case Uint(width) => NumberOnPrefix(a.n, width, suffix);
    case ShortText =>
      assert a.text[..|a.text| % 256] == a.text;
      ShortstrInverts(a.text, suffix);
      KeyLength(a.text);
    case LongText => LongstrInverts(a.text, suffix);
    case FlagBits(_) =>
      FlagsFillAnOctet(a.flags);
      assert Packed(a.flags) < Pow256(1) by { Widths(); }
      NumberOnPrefix(Packed(a.flags), 1, suffix);
      PackingInverts(a.flags);
    case FieldTable => TableRoundTrips(a.t, suffix);
  }

  lemma {:induction false} ArgsRoundTrip(ks: seq<Kind>, args: seq<Arg<Entries>>, suffix: bytes)
    requires AllTyped(ks, args) && ValidArgs(args) && ArgsFit(ks, args)
    ensures ReadArgs(ks, ArgsBytes(ks, args) + suffix) == Got(ArgsReadBack(args), |ArgsBytes(ks, args)|)
  {
    hide ReadArg, ArgBytes;
    if ks != [] {
      var first, rest := ArgBytes(ks[0], args[0]), ArgsBytes(ks[1..], args[1..]);
      assert ArgsBytes(ks, args) + suffix == first + (rest + suffix);
      assert (first + (rest + suffix))[|first|..] == rest + suffix;
      ArgRoundTrips(ks[0], args[0], rest + suffix);
      ArgsRoundTrip(ks[1..], args[1..], suffix);
      assert ArgsReadBack(args) == [ArgReadBack(args[0])] + ArgsReadBack(args[1..]);
    } else {
      assert ArgsReadBack(args) == [];
    }
  }

  /** parseMethodFrame inverts methodFrame.write on every method. */
  lemma MethodRoundTrips(m: Method<Entries>, suffix: bytes)
    requires MethodFits(m)
    ensures ReadMethod(MethodBytes(m) + suffix) == Got(MethodReadBack(m), |MethodBytes(m)|)
  {
    hide ReadArgs, ArgsBytes, Selected, Id, Schema;
    var c, n, args := BigEndian(Id(m.name).0, 2), BigEndian(Id(m.name).1, 2), ArgsBytes(Schema(m.name), m.args);
    assert MethodBytes(m) + suffix == c + (n + (args + suffix));
    assert (c + (n + (args + suffix)))[2..] == n + (args + suffix);
    assert (c + (n + (args + suffix)))[4..] == args + suffix;
    assert 0x1_0000 == Pow256(2) by { Widths(); }
    NumberOnPrefix(Id(m.name).0, 2, n + (args + suffix));
    NumberOnPrefix(Id(m.name).1, 2, args + suffix);
    SelectionInvertsId(Id(m.name).0, Id(m.name).1, m.name);
    ArgsRoundTrip(Schema(m.name), m.args, suffix);
  }
}
