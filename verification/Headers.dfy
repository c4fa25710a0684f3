/**
 The content header: a mask of sixteen presence bits, then the properties it announces. A property
 is addressed by its place in the mask, counted from bit 15 downwards.
 */
module Headers {
  import opened Bytes
  import opened Streams
  import opened FieldValues
  import opened FieldCodec
  import opened Methods

  /** A moment that is not Go's zero time. */
  datatype Instant = Instant(seconds: int64, nanos: uint32)

  /** headers is None for a nil table, timestamp is None for the zero time. */
  datatype Properties<T> = Properties(
    contentType: bytes,
    contentEncoding: bytes,
    headers: Option<T>,
    deliveryMode: byte,
    priority: byte,
    correlationId: bytes,
    replyTo: bytes,
    expiration: bytes,
    messageId: bytes,
    timestamp: Option<Instant>,
    type_: bytes,
    userId: bytes,
    appId: bytes,
    reserved1: bytes)

  datatype Slot<T> =
    | TextSlot(text: bytes)
    | OctetSlot(octet: byte)
    | TableSlot(table: Option<T>)
    | TimeSlot(time: Option<Instant>)

  const SLOTS: nat := 14
  const RESERVED1: nat := 13

  function Get<T>(p: Properties<T>, i: nat): Slot<T>
    requires i < SLOTS
  {
    if i == 0 then TextSlot(p.contentType)
    else if i == 1 then TextSlot(p.contentEncoding)
    else if i == 2 then TableSlot(p.headers)
    else if i == 3 then OctetSlot(p.deliveryMode)
    else if i == 4 then OctetSlot(p.priority)
    else if i == 5 then TextSlot(p.correlationId)
    else if i == 6 then TextSlot(p.replyTo)
    else if i == 7 then TextSlot(p.expiration)
    else if i == 8 then TextSlot(p.messageId)
    else if i == 9 then TimeSlot(p.timestamp)
    else if i == 10 then TextSlot(p.type_)
    else if i == 11 then TextSlot(p.userId)
    else if i == 12 then TextSlot(p.appId)
    else TextSlot(p.reserved1)
  }

  /** Whether a slot value has the type of place i. */
  predicate Suits<T>(s: Slot<T>, i: nat) {
    if i == 2 then s.TableSlot?
    else if i == 3 || i == 4 then s.OctetSlot?
    else if i == 9 then s.TimeSlot?
    else s.TextSlot?
  }

  function Put<T>(p: Properties<T>, i: nat, s: Slot<T>): Properties<T>
    requires i < SLOTS && Suits(s, i)
  {
    if i == 0 then p.(contentType := s.text)
    else if i == 1 then p.(contentEncoding := s.text)
    else if i == 2 then p.(headers := s.table)
    else if i == 3 then p.(deliveryMode := s.octet)
    else if i == 4 then p.(priority := s.octet)
    else if i == 5 then p.(correlationId := s.text)
    else if i == 6 then p.(replyTo := s.text)
    else if i == 7 then p.(expiration := s.text)
    else if i == 8 then p.(messageId := s.text)
    else if i == 9 then p.(timestamp := s.time)
    else if i == 10 then p.(type_ := s.text)
    else if i == 11 then p.(userId := s.text)
    else if i == 12 then p.(appId := s.text)
    else p.(reserved1 := s.text)
  }

  function NoProperties<T>(): Properties<T> {
    Properties([], [], None, 0, 0, [], [], [], [], None, [], [], [], [])
  }

  // ---------------------------------------------------------------- writing

  predicate ValidProperties(p: Properties<Entries>) {
    p.headers.Some? ==> ValidEntries(p.headers.value)
  }

  /** Whether the first pass of the writer sets the bit of place i; it never sets that of reserved1. */
  predicate Present(p: Properties<Entries>, i: nat) {
    i < RESERVED1 && !Blank(Get(p, i))
  }

  predicate Blank(s: Slot<Entries>) {
    match s
    case TextSlot(t) => t == []
    case OctetSlot(o) => o == 0
    case TableSlot(t) => t.None? || t.value == []
    case TimeSlot(t) => t.None?
  }

  function Presence(p: Properties<Entries>): (flags: seq<bool>)
    ensures |flags| == 16
  {
    seq(16, b requires 0 <= b < 16 => b >= 2 && Present(p, 15 - b))
  }

  function Mask(p: Properties<Entries>): nat {
    Packed(Presence(p))
  }

  function SlotBytes(s: Slot<Entries>): bytes
    requires !Blank(s) && (s.TableSlot? ==> ValidEntries(s.table.value))
  {
    match s
    case TextSlot(t) => Shortstr(t)
    case OctetSlot(o) => [o]
    case TableSlot(t) => TableBytes(t.value)
    case TimeSlot(t) => BigEndian(Unsigned(t.value.seconds, 8), 8)
  }

  function PropertyBytes(p: Properties<Entries>, i: nat): bytes
    requires ValidProperties(p) && i <= SLOTS
    decreases SLOTS - i
  {
    if i == SLOTS then []
    else (if Present(p, i) then SlotBytes(Get(p, i)) else []) + PropertyBytes(p, i + 1)
  }

  datatype Header<T> = Header(classId: uint16, weight: uint16, size: uint64, properties: Properties<T>)

  function HeaderBytes(h: Header<Entries>): bytes
    requires ValidProperties(h.properties)
  {
    BigEndian(h.classId, 2) + BigEndian(h.weight, 2) + BigEndian(h.size, 8)
    + BigEndian(Mask(h.properties), 2) + PropertyBytes(h.properties, 0)
  }

  // ---------------------------------------------------------------- reading

  /** hasProperty(mask, 1 << (15 - i)) */
  predicate HasProperty(mask: nat, i: nat)
    requires i < 16
  {
    mask / Pow2(15 - i) % 2 == 1
  }

  function ReadSlot(i: nat, w: bytes): (r: Read<Slot<Table>>)
    ensures r.used <= |w|
    ensures r.Got? ==> Suits(r.value, i)
  {
    if i == 2 then
      match ReadTable(w)
      case Failed(e, u) => Failed(e, u)
      case Got(t, u) => Got(TableSlot(Some(t)), u)
    else if i == 3 || i == 4 then
      match Number(w, 1)
      case Failed(e, u) => Failed(e, u)
      case Got(n, u) => Widths(); Got(OctetSlot(n), u)
    else if i == 9 then
      match Number(w, 8)
      case Failed(e, u) => Failed(e, u)
      case Got(n, u) => Widths(); Got(TimeSlot(Some(Instant(Signed(n, 8), 0))), u)
    else
      match ReadShortstr(w)
      case Failed(e, u) => Failed(e, u)
      case Got(s, u) => Got(TextSlot(s), u)
  }

  function ReadProperties(mask: nat, i: nat, w: bytes, p: Properties<Table>): (r: Read<Properties<Table>>)
    requires i <= SLOTS
    ensures r.used <= |w|
    decreases SLOTS - i
  {
    if i == SLOTS then Got(p, 0)
    else if HasProperty(mask, i) then
      match ReadSlot(i, w)
      case Failed(e, u) => Failed(e, u)
      case Got(s, u) => ReadProperties(mask, i + 1, w[u..], Put(p, i, s)).After(u)
    else ReadProperties(mask, i + 1, w, p)
  }

  function ReadHeader(w: bytes): (r: Read<Header<Table>>)
    ensures r.used <= |w|
  {
    match Number(w, 2)
    case Failed(e, u) => Failed(e, u)
    case Got(classId, u) =>
      match Number(w[u..], 2)
      case Failed(e, u1) => Failed(e, u + u1)
      case Got(weight, u1) =>
        match Number(w[u + u1..], 8)
        case Failed(e, u2) => Failed(e, u + u1 + u2)
        case Got(size, u2) =>
          match Number(w[u + u1 + u2..], 2)
          case Failed(e, u3) => Failed(e, u + u1 + u2 + u3)
          case Got(mask, u3) =>
            match ReadProperties(mask, 0, w[u + u1 + u2 + u3..], NoProperties())
            case Failed(e, u4) => Failed(e, u + u1 + u2 + u3 + u4)
            case Got(p, u4) => Widths(); Got(Header(classId, weight, size, p), u + u1 + u2 + u3 + u4)
  }
}
