/**
 Frames as programs see them, with maps in place of ordered entries: which can be written at all,
 and what a peer makes of them.
 */
module FrameValues {
  import opened Bytes
  import opened Streams
  import opened FieldValues
  import opened Methods
  import opened Headers
  import opened Frames

  // ---------------------------------------------------------------- the value of a plan

  function ArgValue(a: Arg<Entries>): Arg<Table> {
    match a
    case NumArg(n) => NumArg(n)
    case TextArg(s) => TextArg(s)
    case FlagArg(flags) => FlagArg(flags)
    case TableArg(es) => TableArg(Contents(es))
  }

  function ArgValues(args: seq<Arg<Entries>>): seq<Arg<Table>> {
    seq(|args|, i requires 0 <= i < |args| => ArgValue(args[i]))
  }

  function MethodValue(m: Method<Entries>): Method<Table> {
    Method(m.name, ArgValues(m.args))
  }

  function TableValue(t: Option<Entries>): Option<Table> {
    match t
    case None => None
    case Some(es) => Some(Contents(es))
  }

  function PropertiesValue(p: Properties<Entries>): Properties<Table> {
    Properties(p.contentType, p.contentEncoding, TableValue(p.headers), p.deliveryMode, p.priority, p.correlationId,
               p.replyTo, p.expiration, p.messageId, p.timestamp, p.type_, p.userId, p.appId, p.reserved1)
  }

  function HeaderValue(h: Header<Entries>): Header<Table> {
    Header(h.classId, h.weight, h.size, PropertiesValue(h.properties))
  }

  function FrameValue(f: Frame<Entries>): Frame<Table> {
    match f
    case MethodFrame(c, m) => MethodFrame(c, MethodValue(m))
    case HeaderFrame(c, h) => HeaderFrame(c, HeaderValue(h))
    case BodyFrame(c, b) => BodyFrame(c, b)
    case HeartbeatFrame(c) => HeartbeatFrame(c)
  }

  // ---------------------------------------------------------------- what a peer reads

  function CanonArg(a: Arg<Table>): Arg<Table> {
    if a.TableArg? then TableArg(CanonTable(a.t)) else a
  }

  function CanonMethod(m: Method<Table>): Method<Table> {
    Method(m.name, seq(|m.args|, i requires 0 <= i < |m.args| => CanonArg(m.args[i])))
  }

  /** An empty table and the zero time are read as absent, reserved1 is lost. */
  function CanonProperties(p: Properties<Table>): Properties<Table> {
    p.(headers := if p.headers.None? || p.headers.value == map[] then None else Some(CanonTable(p.headers.value)),
       timestamp := if p.timestamp.None? then None else Some(Instant(p.timestamp.value.seconds, 0)),
       reserved1 := [])
  }

  function CanonFrame(f: Frame<Table>): Frame<Table> {
    match f
    case MethodFrame(c, m) => MethodFrame(c, CanonMethod(m))
    case HeaderFrame(c, h) => HeaderFrame(c, h.(properties := CanonProperties(h.properties)))
    case _ => f
  }

  lemma OnlyNothingIsEmpty(es: Entries)
    ensures Contents(es) == map[] <==> es == []
  {
    if es != [] {
      assert es[0].key in Contents(es);
    }
  }

  /** What is read back depends on the value alone, on no map order. */
  lemma ReadBackIsCanon(f: Frame<Entries>)
    ensures FrameReadBack(f) == CanonFrame(FrameValue(f))
  {
    match f
    case MethodFrame(_, m) =>
      assert MethodReadBack(m).args == CanonMethod(MethodValue(m)).args;
    case HeaderFrame(_, h) =>
      if h.properties.headers.Some? {
        OnlyNothingIsEmpty(h.properties.headers.value);
      }
    case _ =>
  }

  /** Written with any map orders, a frame that fits is read as the canonical form of its value. */
  lemma WrittenIsReadAsCanon(f: Frame<Entries>, v: Frame<Table>, suffix: bytes)
    requires FrameFits(f) && FrameValue(f) == v
    ensures ReadFrame(FrameBytes(f) + suffix) == Got(CanonFrame(v), |FrameBytes(f)|)
  {
    FrameRoundTrips(f, suffix);
    ReadBackIsCanon(f);
  }

  // ---------------------------------------------------------------- what can be written

  predicate ArgSupported(a: Arg<Table>) {
    a.TableArg? ==> Supported(Dict(a.t))
  }

  predicate MethodSupported(m: Method<Table>) {
    forall i | 0 <= i < |m.args| :: ArgSupported(m.args[i])
  }

  predicate PropertiesSupported(p: Properties<Table>) {
    p.headers.Some? ==> Supported(Dict(p.headers.value))
  }

  predicate FrameSupported(f: Frame<Table>) {
    match f
    case MethodFrame(_, m) => MethodSupported(m)
    case HeaderFrame(_, h) => PropertiesSupported(h.properties)
    case _ => true
  }
}
