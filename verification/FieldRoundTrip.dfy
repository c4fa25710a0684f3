/** Decoding inverts encoding, and everything that decodes lies in the domain where it does. */
module FieldRoundTrip {
  import opened Bytes
  import opened Streams
  import opened FieldValues
  import opened FieldCodec

  /**
   The lengths that the encoding can carry: keys of one length octet, strings, blobs and table
   sections whose length is an int32, array sections whose length is a uint32.
   */
  predicate Fits(p: Plan)
    requires Valid(p)
    decreases p, 1
  {
    match p
    case Leaf(v) => (v.Str? ==> |v.text| <= MAX_LONGSTR) && (v.Blob? ==> |v.blob| <= MAX_LONGSTR)
    case ArrayPlan(ps) => |ElemBytes(ps)| < 0x1_0000_0000 && ElemsFit(ps)
    case DictPlan(es) => TableFits(es)
  }

  predicate ElemsFit(ps: seq<Plan>)
    requires ValidElems(ps)
    decreases ps, 0
  {
    ps == [] || (Fits(ps[0]) && ElemsFit(ps[1..]))
  }

  predicate TableFits(es: Entries)
    requires ValidEntries(es)
    decreases es, 1
  {
    |EntryBytes(es)| <= MAX_LONGSTR && EntriesFit(es)
  }

  predicate EntriesFit(es: Entries)
    requires ValidEntries(es)
    decreases es, 0
  {
    es == [] || (|es[0].key| <= 255 && Fits(es[0].plan) && EntriesFit(es[1..]))
  }

  // ---------------------------------------------------------------- strings

  lemma ShortstrInverts(s: bytes, suffix: bytes)
    ensures ReadShortstr(Shortstr(s) + suffix) == Got(s[..|s| % 256], 1 + |s| % 256)
  {
    Widths();
    var body := s[..|s| % 256];
    assert Shortstr(s) + suffix == BigEndian(|s|, 1) + (body + suffix);
    LengthOnPrefix(|s|, 1, body + suffix);
    assert (Shortstr(s) + suffix)[1..] == body + suffix;
    FullOnPrefix(body, suffix);
  }

  lemma LengthOnPrefix(n: nat, width: nat, suffix: bytes)
    ensures Number(BigEndian(n, width) + suffix, width) == Got(n % Pow256(width), width)
  {
    FullOnPrefix(BigEndian(n, width), suffix);
    BigEndianInverts(n, width);
  }

  /** A count of four octets, then that many octets: the shape of long strings, arrays and blobs. */
  function Counted(b: bytes): bytes {
    BigEndian(|b|, 4) + b
  }

  lemma CountInverts(b: bytes, suffix: bytes)
    requires |b| < 0x1_0000_0000
    ensures Number(Counted(b) + suffix, 4) == Got(|b|, 4)
  {
    assert |b| < Pow256(4) by { Widths(); }
    assert Counted(b) + suffix == BigEndian(|b|, 4) + (b + suffix);
    NumberOnPrefix(|b|, 4, b + suffix);
  }

  lemma AfterCount(b: bytes, suffix: bytes)
    ensures |Counted(b)| == 4 + |b| && (Counted(b) + suffix)[4..] == b + suffix
  {
  }

  lemma CountedInverts(b: bytes, suffix: bytes)
    requires |b| < 0x1_0000_0000
    ensures |Counted(b)| == 4 + |b|
    ensures Number(Counted(b) + suffix, 4) == Got(|b|, 4)
    ensures Full((Counted(b) + suffix)[4..], |b|) == Got(b, |b|)
  {
    CountInverts(b, suffix);
    AfterCount(b, suffix);
    FullOnPrefix(b, suffix);
  }

  lemma LongstrInverts(s: bytes, suffix: bytes)
    requires |s| <= MAX_LONGSTR
    ensures Longstr(s) == Counted(s)
    ensures ReadLongstr(Longstr(s) + suffix) == Got(s, |Longstr(s)|)
  {
    assert s[..|s| % 0x1_0000_0000] == s;
    CountedInverts(s, suffix);
  }

  // ---------------------------------------------------------------- scalars

  lemma BitsInvert(v: Value)
    requires Scalar(v) && Fixed(v)
    ensures Width(Tag(v)) > 0 && Bits(v) < Pow256(Width(Tag(v)))
    ensures FromBits(Tag(v), Bits(v)) == Canon(v)
  {
    Widths();
    match v
    case Short(s) => SignedInverts(s, 2);
    case Int(l) => SignedInverts(l, 4);
    case Long(l) => SignedInverts(l, 8);
    case Time(s, _) => SignedInverts(s, 8);
    case _ =>
  }

  lemma FixedInverts(v: Value, suffix: bytes)
    requires Scalar(v) && Fixed(v)
    ensures ReadTagged(Tag(v), BigEndian(Bits(v), Width(Tag(v))) + suffix) == Got(Canon(v), Width(Tag(v)))
  {
    BitsInvert(v);
    NumberOnPrefix(Bits(v), Width(Tag(v)), suffix);
  }

  /** The octets of a scalar after its tag. */
  function LeafBody(v: Value): bytes
    requires Scalar(v)
  {
    LeafBytes(v)[1..]
  }

  lemma BodyInverts(v: Value, suffix: bytes)
    requires Valid(Leaf(v)) && Fits(Leaf(v))
    ensures ReadTagged(Tag(v), LeafBody(v) + suffix) == Got(Canon(v), |LeafBody(v)|)
  {
    if Fixed(v) {
      assert LeafBody(v) == BigEndian(Bits(v), Width(Tag(v)));
      FixedInverts(v, suffix);
    } else if v.Decimal? {
      DecimalInverts(v, suffix);
    } else if v.Str? {
      assert LeafBody(v) == Counted(v.text);
      CountedInverts(v.text, suffix);
    } else if v.Blob? {
      assert LeafBody(v) == Counted(v.blob);
      CountedInverts(v.blob, suffix);
    }
  }

  lemma LeafInverts(v: Value, suffix: bytes)
    requires Valid(Leaf(v)) && Fits(Leaf(v))
    ensures ReadField(LeafBytes(v) + suffix) == Got(Canon(v), |LeafBytes(v)|)
  {
    assert LeafBytes(v) == [Tag(v)] + LeafBody(v);
    TagFirst(Tag(v), LeafBody(v), suffix);
    BodyInverts(v, suffix);
  }

  lemma TagFirst(tag: byte, body: bytes, suffix: bytes)
    ensures ReadField([tag] + body + suffix) == ReadTagged(tag, body + suffix).After(1)
  {
    Widths();
    var w := [tag] + body + suffix;
    assert w == [tag] + (body + suffix);
    FullOnPrefix([tag], body + suffix);
    assert FromBigEndian([tag]) == tag;
    assert w[1..] == body + suffix;
  }

  lemma DecimalInverts(v: Value, suffix: bytes)
    requires v.Decimal?
    ensures ReadDecimal(LeafBody(v) + suffix) == Got(v, 5)
  {
    var n := Unsigned(v.unscaled, 4);
    assert LeafBody(v) + suffix == [v.scale] + (BigEndian(n, 4) + suffix);
    FullOnPrefix([v.scale], BigEndian(n, 4) + suffix);
    assert FromBigEndian([v.scale]) == v.scale;
    assert (LeafBody(v) + suffix)[1..] == BigEndian(n, 4) + suffix;
    NumberOnPrefix(n, 4, suffix);
    Widths();
    SignedInverts(v.unscaled, 4);
  }

  // ---------------------------------------------------------------- round trip

  lemma ArrayFirst(ps: seq<Plan>, suffix: bytes)
    requires ValidElems(ps) && |ElemBytes(ps)| < 0x1_0000_0000
    requires ReadElems(ElemBytes(ps)).Got? && ReadElems(ElemBytes(ps)).used == |ElemBytes(ps)|
    ensures ReadField(FieldBytes(ArrayPlan(ps)) + suffix) ==
      Got(Array(ReadElems(ElemBytes(ps)).value), |FieldBytes(ArrayPlan(ps))|)
  {
    var section := ElemBytes(ps);
    assert FieldBytes(ArrayPlan(ps)) == ['A' as int] + Counted(section);
    TagFirst('A' as int, Counted(section), suffix);
    ArrayAfterTag(section, suffix);
  }

  lemma ArrayAfterTag(section: bytes, suffix: bytes)
    requires |section| < 0x1_0000_0000
    requires ReadElems(section).Got? && ReadElems(section).used == |section|
    ensures ReadTagged('A' as int, Counted(section) + suffix) ==
      Got(Array(ReadElems(section).value), |Counted(section)|)
  {
    hide ReadElems;
    CountedInverts(section, suffix);
    AfterCount(section, suffix);
    assert Limited(section + suffix, |section|) == section;
  }

  lemma TableFirst(es: Entries, suffix: bytes)
    requires ValidEntries(es)
    requires ReadTable(TableBytes(es) + suffix).Got?
    ensures ReadField(FieldBytes(DictPlan(es)) + suffix) ==
      Got(Dict(ReadTable(TableBytes(es) + suffix).value), 1 + ReadTable(TableBytes(es) + suffix).used)
  {
    hide ReadTable;
    assert FieldBytes(DictPlan(es)) == ['F' as int] + TableBytes(es);
    TagFirst('F' as int, TableBytes(es), suffix);
  }

  /**
   For every plan, that is for every value and every map order at every level: reading the
   encoding, whatever follows it, gives the canonical value and leaves exactly what follows.
   */
  lemma {:induction false} FieldRoundTrips(p: Plan, suffix: bytes)
    requires Valid(p) && Fits(p)
    ensures ReadField(FieldBytes(p) + suffix) == Got(Canon(Of(p)), |FieldBytes(p)|)
    decreases p, 1
  {
    hide ReadField, ReadElems, ReadTable;
    match p
    case Leaf(v) => LeafInverts(v, suffix);
    case ArrayPlan(ps) => ElemsRoundTrip(ps); ArrayFirst(ps, suffix);
    case DictPlan(es) => TableRoundTrips(es, suffix); TableFirst(es, suffix);
  }

  lemma {:induction false} ElemsRoundTrip(ps: seq<Plan>)
    requires ValidElems(ps) && ElemsFit(ps)
    ensures ReadElems(ElemBytes(ps)) == Got(Canon(Array(OfElems(ps))).elems, |ElemBytes(ps)|)
    decreases ps, 0
  {
    hide ReadField, ReadElems;
    if ps == [] {
      NoElems();
      assert Canon(Array(OfElems(ps))).elems == [];
    } else {
      FieldRoundTrips(ps[0], ElemBytes(ps[1..]));
      ElemsRoundTrip(ps[1..]);
      ElemsStep(FieldBytes(ps[0]), ElemBytes(ps[1..]));
      CanonOfElems(ps);
    }
  }

  lemma NoElems()
    ensures ReadElems([]) == Got([], 0)
  {
    assert ReadField([]) == Failed(EndOfFile, 0);
  }

  lemma ElemsStep(first: bytes, rest: bytes)
    requires ReadField(first + rest).Got? && ReadField(first + rest).used == |first|
    requires ReadElems(rest).Got?
    ensures ReadElems(first + rest) ==
      Got([ReadField(first + rest).value] + ReadElems(rest).value, |first| + ReadElems(rest).used)
  {
    hide ReadField;
    assert (first + rest)[|first|..] == rest;
  }

  lemma CanonOfElems(ps: seq<Plan>)
    requires ps != []
    ensures Canon(Array(OfElems(ps))).elems == [Canon(Of(ps[0]))] + Canon(Array(OfElems(ps[1..]))).elems
  {
  }

  /** readTable inverts writeTable for every map order at every level. */
  lemma {:induction false} TableRoundTrips(es: Entries, suffix: bytes)
    requires ValidEntries(es) && TableFits(es)
    ensures ReadTable(TableBytes(es) + suffix) == Got(CanonTable(Contents(es)), |TableBytes(es)|)
    decreases es, 1
  {
    hide ReadEntries;
    LongstrInverts(EntryBytes(es), suffix);
    EntriesRoundTrip(es);
  }

  lemma {:induction false} EntriesRoundTrip(es: Entries)
    requires ValidEntries(es) && EntriesFit(es)
    ensures ReadEntries(EntryBytes(es)) == Got(CanonTable(Contents(es)), |EntryBytes(es)|)
    decreases es, 0
  {
    if es != [] {
      hide ReadField, ReadShortstr, ReadEntries, Shortstr, FieldBytes, CanonTable, Contents, Canon, Of, Fits;
      var key, field, rest := Shortstr(es[0].key), FieldBytes(es[0].plan), EntryBytes(es[1..]);
      EntryInverts(es[0], rest);
      EntriesRoundTrip(es[1..]);
      EntriesStep(key, field, rest);
      CanonOfEntries(es);
    }
  }

  lemma {:induction false} EntryInverts(e: Entry, rest: bytes)
    requires Valid(e.plan) && |e.key| <= 255 && Fits(e.plan)
    ensures var key, field := Shortstr(e.key), FieldBytes(e.plan);
      && ReadShortstr(key + (field + rest)) == Got(e.key, |key|)
      && ReadField(field + rest) == Got(Canon(Of(e.plan)), |field|)
    decreases e, 1
  {
    hide ReadField, ReadShortstr, Shortstr, FieldBytes;
    ShortstrInverts(e.key, FieldBytes(e.plan) + rest);
    KeyLength(e.key);
    assert e.key[..|e.key| % 256] == e.key;
    FieldRoundTrips(e.plan, rest);
  }

  lemma EntriesStep(key: bytes, field: bytes, rest: bytes)
    requires ReadShortstr(key + (field + rest)).Got? && ReadShortstr(key + (field + rest)).used == |key|
    requires ReadField(field + rest).Got? && ReadField(field + rest).used == |field|
    requires ReadEntries(rest).Got?
    ensures ReadEntries(key + field + rest) ==
      Got(map[ReadShortstr(key + (field + rest)).value := ReadField(field + rest).value] + ReadEntries(rest).value,
          |key| + |field| + ReadEntries(rest).used)
  {
    hide ReadField;
    EntrySplits(key, field, rest);
    assert key + field + rest != [];
  }

  lemma CanonOfEntries(es: Entries)
    requires ValidEntries(es) && es != []
    ensures CanonTable(Contents(es)) ==
      map[es[0].key := Canon(Of(es[0].plan))] + CanonTable(Contents(es[1..]))
  {
  }

  lemma KeyLength(s: bytes)
    ensures |Shortstr(s)| == 1 + |s| % 256
  {
  }

  lemma EntrySplits(key: bytes, field: bytes, rest: bytes)
    ensures key + field + rest == key + (field + rest)
    ensures (key + field + rest)[|key|..] == field + rest
    ensures (key + field + rest)[|key| + |field|..] == rest
  {
  }
}
