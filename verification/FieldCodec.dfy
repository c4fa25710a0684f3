/**
 The wire form of strings, field values, arrays and tables: what the writers emit for a plan, and
 what the readers make of any octets whatever. The window passed to a reader holds the octets that
 its io.Reader can still deliver, so a nested reader is given a shorter window.
 */
module FieldCodec {
  import opened Bytes
  import opened Streams
  import opened FieldValues

  const MAX_LONGSTR := 0x7FFF_FFFF

  // ---------------------------------------------------------------- writing

  function Shortstr(s: bytes): bytes {
    BigEndian(|s|, 1) + s[..|s| % 256]
  }

  function Longstr(s: bytes): bytes {
    BigEndian(|s|, 4) + s[..|s| % 0x1_0000_0000]
  }

  /** The scalars that are one integer of fixed width after the tag. */
  predicate Fixed(v: Value) {
    v.Bool? || v.Octet? || v.Short? || v.GoInt? || v.Int? || v.Long? || v.Float? || v.Double? || v.Time?
  }

  function Tag(v: Value): byte {
    match v
    case Bool(_) => 't' as int
    case Octet(_) => 'b' as int
    case Short(_) => 's' as int
    case GoInt(_) => 'I' as int
    case Int(_) => 'I' as int
    case Long(_) => 'l' as int
    case Float(_) => 'f' as int
    case Double(_) => 'd' as int
    case Decimal(_, _) => 'D' as int
    case Str(_) => 'S' as int
    case Time(_, _) => 'T' as int
    case Blob(_) => 'x' as int
    case Array(_) => 'A' as int
    case Dict(_) => 'F' as int
    case Nil => 'V' as int
    case Unsupported => 0
  }

  /** The width of the integer that follows a tag, or 0. */
  function Width(tag: byte): nat {
    if tag == 't' as int || tag == 'b' as int then 1
    else if tag == 's' as int then 2
    else if tag == 'I' as int || tag == 'f' as int then 4
    else if tag == 'l' as int || tag == 'd' as int || tag == 'T' as int then 8
    else 0
  }

  function Bits(v: Value): nat
    requires Fixed(v)
  {
    match v
    case Bool(b) => if b then 1 else 0
    case Octet(o) => o
    case Short(s) => Unsigned(s, 2)
    case GoInt(i) => Unsigned(i, 4)
    case Int(l) => Unsigned(l, 4)
    case Long(l) => Unsigned(l, 8)
    case Float(b) => b
    case Double(b) => b
    case Time(s, _) => Unsigned(s, 8)
  }

  function LeafBytes(v: Value): bytes
    requires Scalar(v)
  {
    if Fixed(v) then [Tag(v)] + BigEndian(Bits(v), Width(Tag(v)))
    else
      match v
      case Decimal(scale, u) => [Tag(v), scale] + BigEndian(Unsigned(u, 4), 4)
      case Str(s) => [Tag(v)] + BigEndian(|s|, 4) + s
      case Blob(b) => [Tag(v)] + BigEndian(|b|, 4) + b
      case Nil => [Tag(v)]
  }

  function FieldBytes(p: Plan): bytes
    requires Valid(p)
    decreases p, 1
  {
    match p
    case Leaf(v) => LeafBytes(v)
    case ArrayPlan(ps) => ['A' as int] + BigEndian(|ElemBytes(ps)|, 4) + ElemBytes(ps)
    case DictPlan(es) => ['F' as int] + Longstr(EntryBytes(es))
  }

  function ElemBytes(ps: seq<Plan>): bytes
    requires ValidElems(ps)
    decreases ps, 0
  {
    if ps == [] then [] else FieldBytes(ps[0]) + ElemBytes(ps[1..])
  }

  function EntryBytes(es: Entries): bytes
    requires ValidEntries(es)
    decreases es, 0
  {
    if es == [] then [] else Shortstr(es[0].key) + FieldBytes(es[0].plan) + EntryBytes(es[1..])
  }

  function TableBytes(es: Entries): bytes
    requires ValidEntries(es)
  {
    Longstr(EntryBytes(es))
  }

  // ---------------------------------------------------------------- reading

  function ReadShortstr(w: bytes): (r: Read<bytes>)
    ensures r.used <= |w|
    ensures r.Got? ==> |r.value| <= 255 && r.used == 1 + |r.value|
  {
    match Number(w, 1)
    case Failed(e, u) => Failed(e, u)
    case Got(n, u) => Widths(); Full(w[u..], n).After(u)
  }

  /** A length above the int32 range is taken for an empty string, and no error. */
  function ReadLongstr(w: bytes): (r: Read<bytes>)
    ensures r.used <= |w|
    ensures r.Got? ==> |r.value| <= MAX_LONGSTR && 4 + |r.value| == r.used
  {
    match Number(w, 4)
    case Failed(e, u) => Failed(e, u)
    case Got(n, u) => if n > MAX_LONGSTR then Got([], u) else Full(w[u..], n).After(u)
  }

  /** The value of an integer of Width(tag) octets read after the tag. */
  function FromBits(tag: byte, n: nat): Value
    requires Width(tag) > 0 && n < Pow256(Width(tag))
  {
    Widths();
    if tag == 't' as int then Bool(n != 0)
    else if tag == 'b' as int then Octet(n)
    else if tag == 's' as int then Short(Signed(n, 2))
    else if tag == 'I' as int then Int(Signed(n, 4))
    else if tag == 'l' as int then Long(Signed(n, 8))
    else if tag == 'f' as int then Float(n)
    else if tag == 'd' as int then Double(n)
    else Time(Signed(n, 8), 0)
  }

  function ReadDecimal(w: bytes): (r: Read<Value>)
    ensures r.used <= |w|
  {
    match Number(w, 1)
    case Failed(e, u) => Failed(e, u)
    case Got(scale, u) =>
      match Number(w[u..], 4)
      case Failed(e, u') => Failed(e, u + u')
      case Got(n, u') => Widths(); Got(Decimal(scale, Signed(n, 4)), u + u')
  }

  /** An int32 length; make panics on a negative one. */
  function ReadBlob(w: bytes): (r: Read<Value>)
    ensures r.used <= |w|
  {
    match Number(w, 4)
    case Failed(e, u) => Failed(e, u)
    case Got(n, u) =>
      if n > MAX_LONGSTR then Failed(NegativeLength, u)
      else
        match Full(w[u..], n)
        case Failed(e, u') => Failed(e, u + u')
        case Got(b, u') => Got(Blob(b), u + u')
  }

  function ReadField(w: bytes): (r: Read<Value>)
    ensures r.used <= |w|
    ensures r.Got? ==> r.used >= 1
    decreases |w|, 1
  {
    match Number(w, 1)
    case Failed(e, u) => Failed(e, u)
    case Got(tag, u) => Widths(); ReadTagged(tag, w[u..]).After(u)
  }

  function ReadTagged(tag: byte, w: bytes): (r: Read<Value>)
    ensures r.used <= |w|
    decreases |w|, 3
  {
    if Width(tag) > 0 then
      match Number(w, Width(tag))
      case Failed(e, u) => Failed(e, u)
      case Got(n, u) => Got(FromBits(tag, n), u)
    else if tag == 'D' as int then ReadDecimal(w)
    else if tag == 'S' as int then
      match ReadLongstr(w)
      case Failed(e, u) => Failed(e, u)
      case Got(s, u) => Got(Str(s), u)
    else if tag == 'A' as int then ReadArray(w)
    else if tag == 'F' as int then
      match ReadTable(w)
      case Failed(e, u) => Failed(e, u)
      case Got(t, u) => Got(Dict(t), u)
    else if tag == 'x' as int then ReadBlob(w)
    else if tag == 'V' as int then Got(Nil, 0)
    else Failed(SyntaxError, 0)
  }

  /** The elements are read through a LimitedReader of the declared size. */
  function ReadArray(w: bytes): (r: Read<Value>)
    ensures r.used <= |w|
    decreases |w|, 2
  {
    match Number(w, 4)
    case Failed(e, u) => Failed(e, u)
    case Got(size, u) =>
      match ReadElems(Limited(w[u..], size))
      case Failed(e, u') => Failed(e, u + u')
      case Got(vs, u') => Got(Array(vs), u + u')
  }

  function Limited(w: bytes, n: nat): (v: bytes)
    ensures |v| <= |w| && |v| <= n
  {
    if n < |w| then w[..n] else w
  }

  /** Any end of file that an element reports ends the array, even one from a table nested in it. */
  function ReadElems(w: bytes): (r: Read<seq<Value>>)
    ensures r.used <= |w|
    decreases |w|, 2
  {
    match ReadField(w)
    case Failed(e, u) => if e == EndOfFile then Got([], u) else Failed(e, u)
    case Got(v, u) => 
      match ReadElems(w[u..])
      case Failed(e, u') => Failed(e, u + u')
      case Got(vs, u') => Got([v] + vs, u + u')
  }

  /** A table is a long string, unpacked on its own; a later entry replaces an earlier one. */
  function ReadTable(w: bytes): (r: Read<Table>)
    ensures r.used <= |w|
    decreases |w|, 2
  {
    match ReadLongstr(w)
    case Failed(e, u) => Failed(e, u)
    case Got(section, u) =>
      match ReadEntries(section)
      case Failed(e, _) => Failed(e, u)
      case Got(t, _) => Got(t, u)
  }

  function ReadEntries(w: bytes): (r: Read<Table>)
    ensures r.used <= |w|
    decreases |w|, 2
  {
    if w == [] then Got(map[], 0)
    else
      match ReadShortstr(w)
      case Failed(e, u) => Failed(e, u)
      case Got(key, u) =>
        match ReadField(w[u..])
        case Failed(e, u') => Failed(e, u + u')
        case Got(v, u') =>
          match ReadEntries(w[u + u'..])
          case Failed(e, u'') => Failed(e, u + u' + u'')
          case Got(t, u'') => Got(map[key := v] + t, u + u' + u'')
  }
}
