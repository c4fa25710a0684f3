/** What the decoder accepts from arbitrary octets lies in the encoder's round-trip domain. */
module FieldClosure {
  import opened Bytes
  import opened Streams
  import opened FieldValues
  import opened FieldCodec
  import opened FieldRoundTrip

  /**
   p is any plan of the value read from w: with duplicate keys already merged, and in any map
   order. It fits, its encoding is no longer than what was consumed, and its value is canonical.
   */
  predicate Reencodes(p: Plan, used: nat)
    requires Valid(p)
  {
    Fits(p) && |FieldBytes(p)| <= used && Canon(Of(p)) == Of(p)
  }

  predicate ElemsReencode(ps: seq<Plan>, used: nat)
    requires ValidElems(ps)
  {
    ElemsFit(ps) && |ElemBytes(ps)| <= used && Canon(Array(OfElems(ps))) == Array(OfElems(ps))
  }

  predicate EntriesReencode(es: Entries, used: nat)
    requires ValidEntries(es)
  {
    EntriesFit(es) && |EntryBytes(es)| <= used && CanonTable(Contents(es)) == Contents(es)
  }

  lemma {:induction false} FieldClosed(w: bytes, p: Plan)
    requires Valid(p) && ReadField(w).Got? && ReadField(w).value == Of(p)
    ensures Reencodes(p, ReadField(w).used)
    decreases |w|, 1
  {
    var tag := Number(w, 1).value;
    TaggedClosed(tag, w[1..], p);
  }

  lemma {:induction false} TaggedClosed(tag: byte, w: bytes, p: Plan)
    requires Valid(p) && ReadTagged(tag, w).Got? && ReadTagged(tag, w).value == Of(p)
    ensures Reencodes(p, 1 + ReadTagged(tag, w).used)
    decreases |w|, 3
  {
    hide ReadElems, ReadTable, Reencodes, TableFits;
    match p
    case Leaf(v) => LeafClosed(tag, w, v);
    case ArrayPlan(ps) => ArrayClosed(w, ps);
    case DictPlan(es) =>
      TableClosed(w, es);
      TableReencodes(es, ReadTable(w).used);
  }

  lemma {:induction false} ArrayClosed(w: bytes, ps: seq<Plan>)
    requires ValidElems(ps) && ReadArray(w).Got? && ReadArray(w).value == Array(OfElems(ps))
    ensures Reencodes(ArrayPlan(ps), 1 + ReadArray(w).used)
    decreases |w|, 2
  {
    hide ReadElems, ElemBytes, ElemsFit, Canon;
    ElemsClosed(Limited(w[4..], Number(w, 4).value), ps);
  }

  lemma TableReencodes(es: Entries, used: nat)
    requires ValidEntries(es) && TableFits(es) && |TableBytes(es)| <= used
    requires CanonTable(Contents(es)) == Contents(es)
    ensures Reencodes(DictPlan(es), 1 + used)
  {
  }

  lemma LeafClosed(tag: byte, w: bytes, v: Value)
    requires Scalar(v) && ReadTagged(tag, w).Got? && ReadTagged(tag, w).value == v
    ensures Reencodes(Leaf(v), 1 + ReadTagged(tag, w).used)
  {
    hide ReadElems, ReadEntries, FromBits, Bits;
    if Width(tag) > 0 {
      FixedClosed(tag, w, v);
    }
  }

  lemma FixedClosed(tag: byte, w: bytes, v: Value)
    requires Width(tag) > 0 && ReadTagged(tag, w).Got? && ReadTagged(tag, w).value == v
    ensures Scalar(v) && Reencodes(Leaf(v), 1 + ReadTagged(tag, w).used)
  {
    hide ReadElems, ReadEntries, ReadArray, ReadTable, ReadDecimal, ReadBlob, ReadLongstr, FromBits, Bits, Canon, Width;
    BitsClosed(tag, Number(w, Width(tag)).value);
  }

  lemma BitsClosed(tag: byte, n: nat)
    requires Width(tag) > 0 && n < Pow256(Width(tag))
    ensures var v := FromBits(tag, n);
      Scalar(v) && Fixed(v) && Fits(Leaf(v)) && Width(Tag(v)) == Width(tag) && Canon(v) == v
  {
  }

  lemma {:induction false} ElemsClosed(w: bytes, ps: seq<Plan>)
    requires ValidElems(ps) && ReadElems(w).Got? && ReadElems(w).value == OfElems(ps)
    ensures ElemsReencode(ps, ReadElems(w).used)
    decreases |w|, 2
  {
    if ps != [] {
      var u := ReadField(w).used;
      assert ReadElems(w).value == [ReadField(w).value] + ReadElems(w[u..]).value;
      assert OfElems(ps)[0] == Of(ps[0]) && OfElems(ps)[1..] == OfElems(ps[1..]);
      FieldClosed(w, ps[0]);
      ElemsClosed(w[u..], ps[1..]);
      CanonOfElems(ps);
    }
  }

  lemma {:induction false} TableClosed(w: bytes, es: Entries)
    requires ValidEntries(es) && ReadTable(w).Got? && ReadTable(w).value == Contents(es)
    ensures TableFits(es) && |TableBytes(es)| <= ReadTable(w).used && CanonTable(Contents(es)) == Contents(es)
    decreases |w|, 2
  {
    hide ReadEntries, EntryBytes, Contents, CanonTable, ValidEntries;
    var section := ReadLongstr(w).value;
    EntriesClosed(section, es);
  }

  lemma {:induction false} EntriesClosed(w: bytes, es: Entries)
    requires ValidEntries(es) && ReadEntries(w).Got? && ReadEntries(w).value == Contents(es)
    ensures EntriesReencode(es, |w|)
    decreases |w|, 2
  {
    hide ReadField, ReadShortstr, ReadEntries, EntryBytes, EntriesReencode, Reencodes;
    if w == [] {
      NoEntries();
      NothingReencodes(es);
    } else {
      var key, v, u, tail := FirstEntry(w);
      var later := ReadEntries(tail).value;
      if key in later {
        assert Contents(es) == later;
        EntriesClosed(tail, es);
        MoreRoom(es, |tail|, |w|);
      } else {
        var e, others := Without(es, key);
        assert Contents(others) == later;
        FieldClosed(w[1 + |key|..], e.plan);
        EntriesClosed(tail, others);
        Rejoin(es, e, others, u, |tail|);
      }
    }
  }

  lemma NoEntries()
    ensures ReadEntries([]) == Got(map[], 0)
  {
  }

  /** How reading a non-empty section begins. */
  lemma FirstEntry(w: bytes) returns (key: bytes, v: Value, u: nat, tail: bytes)
    requires w != [] && ReadEntries(w).Got?
    ensures |key| <= 255 && 1 + |key| + u + |tail| == |w|
    ensures ReadField(w[1 + |key|..]) == Got(v, u)
    ensures ReadEntries(tail).Got? && ReadEntries(w).value == map[key := v] + ReadEntries(tail).value
  {
    hide ReadField, ReadShortstr;
    key := ReadShortstr(w).value;
    var f := ReadField(w[1 + |key|..]);
    v, u, tail := f.value, f.used, w[1 + |key| + f.used..];
  }

  lemma MoreRoom(es: Entries, n: nat, m: nat)
    requires ValidEntries(es) && n <= m && EntriesReencode(es, n)
    ensures EntriesReencode(es, m)
  {
  }

  lemma Rejoin(es: Entries, e: Entry, others: Entries, fieldUsed: nat, restUsed: nat)
    requires ValidEntries(es) && Valid(e.plan) && ValidEntries(others)
    requires e.key in Contents(es) && Of(e.plan) == Contents(es)[e.key]
    requires Contents(others) == Contents(es) - {e.key} && |e.key| <= 255
    requires |EntryBytes(es)| == |Shortstr(e.key)| + |FieldBytes(e.plan)| + |EntryBytes(others)|
    requires Fits(e.plan) && EntriesFit(others) ==> EntriesFit(es)
    requires Reencodes(e.plan, fieldUsed) && EntriesReencode(others, restUsed)
    ensures EntriesReencode(es, 1 + |e.key| + fieldUsed + restUsed)
  {
    KeyLength(e.key);
    CanonTableGrows(Contents(es), e.key, Contents(others));
  }

  lemma NothingReencodes(es: Entries)
    requires ValidEntries(es) && Contents(es) == map[]
    ensures EntriesReencode(es, 0)
  {
    if es != [] {
      SomeContents(es);
    }
  }

  lemma SomeContents(es: Entries)
    requires es != []
    ensures Contents(es) != map[]
  {
    assert es[0].key in Contents(es);
  }

  lemma CanonTableGrows(t: Table, key: bytes, t': Table)
    requires key in t && t' == t - {key}
    requires CanonTable(t') == t' && Canon(t[key]) == t[key]
    ensures CanonTable(t) == t
  {
    forall k | k in t ensures Canon(t[k]) == t[k] {
      if k != key {
        assert k in t' && CanonTable(t')[k] == t'[k];
      }
    }
  }

  /** Taking out one entry takes out its octets, and a table fits when the rest and the entry do. */
  lemma {:induction false} Without(es: Entries, key: bytes) returns (e: Entry, others: Entries)
    requires ValidEntries(es) && key in Contents(es)
    ensures e.key == key && Valid(e.plan) && Of(e.plan) == Contents(es)[key]
    ensures ValidEntries(others) && Contents(others) == Contents(es) - {key}
    ensures |EntryBytes(es)| == |Shortstr(key)| + |FieldBytes(e.plan)| + |EntryBytes(others)|
    ensures |key| <= 255 && Fits(e.plan) && EntriesFit(others) ==> EntriesFit(es)
  {
    hide FieldBytes, Shortstr, Of, Valid, Fits;
    if es[0].key == key {
      e, others := es[0], es[1..];
    } else {
      var later;
      e, later := Without(es[1..], key);
      others := [es[0]] + later;
      assert others[1..] == later;
    }
  }

  // ---------------------------------------------------------------- the theorems

  /**
   Any field read from any octets has a type that the encoder accepts, at every depth; so it has a
   plan, and every plan of it, that is, every map order, fits, is written in no more octets than
   were read, and is read back as the same value.
   */
  lemma DecodedFieldReencodes(w: bytes)
    requires ReadField(w).Got?
    ensures var v := ReadField(w).value;
      && Supported(v)
      && (exists p :: Valid(p) && Of(p) == v)
      && (forall p | Valid(p) && Of(p) == v ::
            && Reencodes(p, ReadField(w).used)
            && forall suffix :: ReadField(FieldBytes(p) + suffix) == Got(v, |FieldBytes(p)|))
  {
    hide ReadField, FieldBytes, Valid, Of;
    var v := ReadField(w).value;
    FieldIsSupported(w);
    var some := SomePlan(v);
    forall p | Valid(p) && Of(p) == v
      ensures Reencodes(p, ReadField(w).used)
      ensures forall suffix :: ReadField(FieldBytes(p) + suffix) == Got(v, |FieldBytes(p)|)
    {
      FieldClosed(w, p);
      forall suffix ensures ReadField(FieldBytes(p) + suffix) == Got(v, |FieldBytes(p)|) {
        FieldRoundTrips(p, suffix);
      }
    }
  }

  lemma DecodedTableReencodes(w: bytes)
    requires ReadTable(w).Got?
    ensures var t := ReadTable(w).value;
      && Supported(Dict(t))
      && (exists es :: ValidEntries(es) && Contents(es) == t)
      && (forall es | ValidEntries(es) && Contents(es) == t ::
            && TableFits(es) && |TableBytes(es)| <= ReadTable(w).used && CanonTable(t) == t
            && forall suffix :: ReadTable(TableBytes(es) + suffix) == Got(t, |TableBytes(es)|))
  {
    hide ReadTable, TableBytes, ValidEntries, Contents, TableFits, CanonTable;
    var t := ReadTable(w).value;
    TableIsSupported(w);
    var some := SomeEntries(Dict(t), t.Keys);
    assert (map k | k in t.Keys :: t[k]) == t;
    forall es | ValidEntries(es) && Contents(es) == t
      ensures TableFits(es) && |TableBytes(es)| <= ReadTable(w).used && CanonTable(t) == t
      ensures forall suffix :: ReadTable(TableBytes(es) + suffix) == Got(t, |TableBytes(es)|)
    {
      TableClosed(w, es);
      forall suffix ensures ReadTable(TableBytes(es) + suffix) == Got(t, |TableBytes(es)|) {
        TableRoundTrips(es, suffix);
      }
    }
  }

  lemma {:induction false} FieldIsSupported(w: bytes)
    requires ReadField(w).Got?
    ensures Supported(ReadField(w).value)
    decreases |w|, 1
  {
    TaggedIsSupported(Number(w, 1).value, w[1..]);
  }

  lemma {:induction false} TaggedIsSupported(tag: byte, w: bytes)
    requires ReadTagged(tag, w).Got?
    ensures Supported(ReadTagged(tag, w).value)
    decreases |w|, 3
  {
    hide ReadElems, ReadTable, ReadLongstr;
    if Width(tag) > 0 {
    } else if tag == 'A' as int {
      ElemsAreSupported(Limited(w[4..], Number(w, 4).value));
    } else if tag == 'F' as int {
      TableIsSupported(w);
    }
  }

  lemma {:induction false} ElemsAreSupported(w: bytes)
    requires ReadElems(w).Got?
    ensures forall i | 0 <= i < |ReadElems(w).value| :: Supported(ReadElems(w).value[i])
    decreases |w|, 2
  {
    hide ReadField;
    if ReadField(w).Got? {
      FieldIsSupported(w);
      ElemsAreSupported(w[ReadField(w).used..]);
    }
  }

  lemma {:induction false} TableIsSupported(w: bytes)
    requires ReadTable(w).Got?
    ensures Supported(Dict(ReadTable(w).value))
    decreases |w|, 2
  {
    SectionIsSupported(ReadLongstr(w).value);
  }

  lemma {:induction false} SectionIsSupported(w: bytes)
    requires ReadEntries(w).Got?
    ensures Supported(Dict(ReadEntries(w).value))
    decreases |w|, 2
  {
    hide ReadField, ReadShortstr;
    if w != [] {
      var u := ReadShortstr(w).used;
      var u' := ReadField(w[u..]).used;
      FieldIsSupported(w[u..]);
      SectionIsSupported(w[u + u'..]);
    }
  }

  /** A plan and its canonical form are written alike, and are alike in size. */
  lemma {:induction false} CanonWritesAlike(p: Plan)
    requires Valid(p)
    ensures Valid(CanonPlan(p)) && FieldBytes(CanonPlan(p)) == FieldBytes(p)
    ensures Fits(CanonPlan(p)) == Fits(p)
    decreases p, 1
  {
    match p
    case Leaf(v) => LeafWritesAlike(v);
    case ArrayPlan(ps) => CanonElemsWriteAlike(ps);
    case DictPlan(es) => CanonEntriesWriteAlike(es);
  }

  lemma LeafWritesAlike(v: Value)
    requires Scalar(v)
    ensures Scalar(Canon(v)) && LeafBytes(Canon(v)) == LeafBytes(v)
  {
    if v.GoInt? {
      Widths();
      var n := Unsigned(v.int_, 4);
      SmallRemainder(n, 4);
      if 2 * n < Pow256(4) {
        assert Signed(n, 4) == n;
      } else {
        DivisionIsUnique(Signed(n, 4), -1, Pow256(4), n);
      }
    }
  }

  lemma {:induction false} CanonElemsWriteAlike(ps: seq<Plan>)
    requires ValidElems(ps)
    ensures ValidElems(CanonElems(ps)) && ElemBytes(CanonElems(ps)) == ElemBytes(ps)
    ensures ElemsFit(CanonElems(ps)) == ElemsFit(ps)
    decreases ps, 0
  {
    if ps != [] {
      CanonWritesAlike(ps[0]);
      CanonElemsWriteAlike(ps[1..]);
      assert CanonElems(ps)[1..] == CanonElems(ps[1..]);
    }
  }

  lemma {:induction false} CanonEntriesWriteAlike(es: Entries)
    requires ValidEntries(es)
    ensures ValidEntries(CanonEntries(es)) && EntryBytes(CanonEntries(es)) == EntryBytes(es)
    ensures EntriesFit(CanonEntries(es)) == EntriesFit(es)
    decreases es, 0
  {
    CanonEntriesDenoteCanon(es);
    if es != [] {
      CanonWritesAlike(es[0].plan);
      CanonEntriesWriteAlike(es[1..]);
      assert CanonEntries(es)[1..] == CanonEntries(es[1..]);
    }
  }

  /** The round trip succeeds exactly on the plans whose lengths fit. */
  lemma RoundTripsExactlyWhenFits(p: Plan, suffix: bytes)
    requires Valid(p)
    ensures ReadField(FieldBytes(p) + suffix) == Got(Canon(Of(p)), |FieldBytes(p)|) <==> Fits(p)
  {
    if Fits(p) {
      FieldRoundTrips(p, suffix);
    } else if ReadField(FieldBytes(p) + suffix) == Got(Canon(Of(p)), |FieldBytes(p)|) {
      CanonPlanDenotesCanon(p);
      CanonWritesAlike(p);
      FieldClosed(FieldBytes(p) + suffix, CanonPlan(p));
    }
  }

  /** Strings alone: a short string is read back exactly up to 255 octets, a long one up to 2^31-1. */
  lemma StringsRoundTripExactlyWhenShort(s: bytes, suffix: bytes)
    ensures ReadShortstr(Shortstr(s) + suffix) == Got(s, |Shortstr(s)|) <==> |s| <= 255
    ensures ReadLongstr(Longstr(s) + suffix) == Got(s, |Longstr(s)|) <==> |s| <= MAX_LONGSTR
  {
    hide ReadShortstr, ReadLongstr, Shortstr, Longstr;
    ShortstrInverts(s, suffix);
    KeyLength(s);
    if |s| <= 255 {
      assert s[..|s| % 256] == s;
    }
    if |s| <= MAX_LONGSTR {
      LongstrInverts(s, suffix);
    }
  }
}
