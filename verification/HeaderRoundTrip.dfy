/** The two-pass content header reads back, over every combination of present properties. */
module HeaderRoundTrip {
  import opened Bytes
  import opened Streams
  import opened FieldValues
  import opened FieldCodec
  import opened FieldRoundTrip
  import opened Methods
  import opened Headers

  // ---------------------------------------------------------------- the mask

  lemma HalvesCompose(n: nat, p: nat)
    requires p > 0
    ensures n / (2 * p) == n / 2 / p
  {
    var h := n / 2;
    var q, r := h / p, h % p;
    assert h == q * p + r;
    assert n == 2 * (q * p) + 2 * r + n % 2;
    assert 2 * (q * p) == q * (2 * p);
    DivisionIsUnique(n, q, 2 * p, 2 * r + n % 2);
  }

  lemma {:induction false} BitOf(flags: seq<bool>, b: nat)
    requires b < |flags|
    ensures Packed(flags) / Pow2(b) % 2 == 1 <==> flags[b]
  {
    if b > 0 {
      BitOf(flags[1..], b - 1);
      HalvesCompose(Packed(flags), Pow2(b - 1));
      assert Packed(flags) / 2 == Packed(flags[1..]);
    }
  }

  /** The bits that the writer sets are the ones that the reader finds. */
  lemma MaskInverts(p: Properties<Entries>, i: nat)
    requires i < SLOTS
    ensures Mask(p) < 0x1_0000
    ensures HasProperty(Mask(p), i) <==> Present(p, i)
  {
    BitOf(Presence(p), 15 - i);
    PackingInverts(Presence(p));
    assert Pow2(8) == 256;
    assert Pow2(12) == 16 * Pow2(8);
    assert Pow2(16) == 16 * Pow2(12);
  }

  // ---------------------------------------------------------------- the properties

  /** What the reader is left with: absent and empty coincide, and reserved1 is never written. */
  function ReadBack(p: Properties<Entries>): Properties<Table> {
    Properties(
      p.contentType,
      p.contentEncoding,
      if p.headers.None? || p.headers.value == [] then None else Some(CanonTable(Contents(p.headers.value))),
      p.deliveryMode,
      p.priority,
      p.correlationId,
      p.replyTo,
      p.expiration,
      p.messageId,
      if p.timestamp.None? then None else Some(Instant(p.timestamp.value.seconds, 0)),
      p.type_,
      p.userId,
      p.appId,
      [])
  }

  predicate SlotFits(s: Slot<Entries>) {
    (s.TextSlot? ==> |s.text| <= 255)
    && (s.TableSlot? && s.table.Some? ==> ValidEntries(s.table.value) && TableFits(s.table.value))
  }

  predicate PropertiesFit(p: Properties<Entries>)
    ensures PropertiesFit(p) ==> ValidProperties(p)
  {
    var fit := forall i | 0 <= i < RESERVED1 :: SlotFits(Get(p, i));
    assert fit ==> SlotFits(Get(p, 2));
    fit
  }

  lemma SlotRoundTrips(p: Properties<Entries>, i: nat, suffix: bytes)
    requires PropertiesFit(p) && Present(p, i)
    ensures ReadSlot(i, SlotBytes(Get(p, i)) + suffix) == Got(Get(ReadBack(p), i), |SlotBytes(Get(p, i))|)
  {
    hide ReadShortstr, ReadTable, Shortstr, TableBytes;
    var s := Get(p, i);
    assert SlotFits(s);
    if i == 2 {
      TableRoundTrips(p.headers.value, suffix);
    } else if i == 3 || i == 4 {
      FullOnPrefix([s.octet], suffix);
      assert FromBigEndian([s.octet]) == s.octet;
    } else if i == 9 {
      var n := Unsigned(s.time.value.seconds, 8);
      NumberOnPrefix(n, 8, suffix);
      Widths();
      SignedInverts(s.time.value.seconds, 8);
    } else {
      assert s.text[..|s.text| % 256] == s.text;
      ShortstrInverts(s.text, suffix);
      KeyLength(s.text);
    }
  }

  /** The properties whose first i places are those of q and whose others are blank. */
  function Upto(q: Properties<Table>, i: nat): Properties<Table>
    requires i <= SLOTS
  {
    if i == 0 then NoProperties() else Put(Upto(q, i - 1), i - 1, Get(q, i - 1))
  }

  lemma {:induction false} UptoAt(q: Properties<Table>, i: nat, j: nat)
    requires i <= SLOTS && j < SLOTS
    ensures Get(Upto(q, i), j) == if j < i then Get(q, j) else Get(NoProperties<Table>(), j)
  {
    hide Put, Get;
    if i > 0 {
      UptoAt(q, i - 1, j);
      PutThenGet(Upto(q, i - 1), i - 1, q, j);
    }
  }

  lemma PutThenGet(p: Properties<Table>, i: nat, q: Properties<Table>, j: nat)
    requires i < SLOTS && j < SLOTS
    ensures Get(Put(p, i, Get(q, i)), j) == if i == j then Get(q, i) else Get(p, j)
  {
  }

  lemma SlotsDetermine(p: Properties<Table>, q: Properties<Table>)
    requires forall j | 0 <= j < SLOTS :: Get(p, j) == Get(q, j)
    ensures p == q
  {
    assert Get(p, 0) == Get(q, 0) && Get(p, 1) == Get(q, 1) && Get(p, 2) == Get(q, 2) && Get(p, 3) == Get(q, 3)
      && Get(p, 4) == Get(q, 4) && Get(p, 5) == Get(q, 5) && Get(p, 6) == Get(q, 6) && Get(p, 7) == Get(q, 7)
      && Get(p, 8) == Get(q, 8) && Get(p, 9) == Get(q, 9) && Get(p, 10) == Get(q, 10) && Get(p, 11) == Get(q, 11)
      && Get(p, 12) == Get(q, 12) && Get(p, 13) == Get(q, 13);
  }

  lemma UptoAll(q: Properties<Table>)
    ensures Upto(q, SLOTS) == q
  {
    forall j | 0 <= j < SLOTS ensures Get(Upto(q, SLOTS), j) == Get(q, j) {
      UptoAt(q, SLOTS, j);
    }
    SlotsDetermine(Upto(q, SLOTS), q);
  }

  /** A property that is not written is read back blank. */
  lemma AbsentIsBlank(p: Properties<Entries>, i: nat)
    requires i < SLOTS && !Present(p, i)
    ensures Upto(ReadBack(p), i + 1) == Upto(ReadBack(p), i)
  {
    UptoAt(ReadBack(p), i, i);
    assert Get(ReadBack(p), i) == Get(NoProperties<Table>(), i);
  }

  lemma {:induction false} PropertiesRoundTrip(p: Properties<Entries>, i: nat, suffix: bytes)
    requires PropertiesFit(p) && i <= SLOTS
    ensures ReadProperties(Mask(p), i, PropertyBytes(p, i) + suffix, Upto(ReadBack(p), i))
      == Got(ReadBack(p), |PropertyBytes(p, i)|)
    decreases SLOTS - i
  {
    hide ReadSlot, SlotBytes, HasProperty, ReadBack, Mask;
    if i == SLOTS {
      UptoAll(ReadBack(p));
    } else {
      MaskInverts(p, i);
      PropertiesRoundTrip(p, i + 1, suffix);
      if Present(p, i) {
        var first, rest := SlotBytes(Get(p, i)), PropertyBytes(p, i + 1);
        assert PropertyBytes(p, i) + suffix == first + (rest + suffix);
        assert (first + (rest + suffix))[|first|..] == rest + suffix;
        SlotRoundTrips(p, i, rest + suffix);
      } else {
        AbsentIsBlank(p, i);
        assert PropertyBytes(p, i) == PropertyBytes(p, i + 1);
      }
    }
  }

  /** parseHeaderFrame inverts headerFrame.write over all 2^13 presence combinations and all map orders. */
  lemma HeaderRoundTrips(h: Header<Entries>, suffix: bytes)
    requires PropertiesFit(h.properties)
    ensures ReadHeader(HeaderBytes(h) + suffix)
      == Got(Header(h.classId, h.weight, h.size, ReadBack(h.properties)), |HeaderBytes(h)|)
  {
    hide ReadProperties, PropertyBytes, Mask, ReadBack;
    var p := h.properties;
    var d, props := BigEndian(Mask(p), 2), PropertyBytes(p, 0) + suffix;
    var c := BigEndian(h.size, 8);
    var b := BigEndian(h.weight, 2);
    var a := BigEndian(h.classId, 2);
    assert HeaderBytes(h) + suffix == a + (b + (c + (d + props)));
    FourFields(a, b, c, d, props);
    MaskInverts(p, 0);
    assert 0x1_0000 == Pow256(2) && 0x1_0000_0000_0000_0000 == Pow256(8) by { Widths(); }
    NumberOnPrefix(h.classId, 2, b + (c + (d + props)));
    NumberOnPrefix(h.weight, 2, c + (d + props));
    NumberOnPrefix(h.size, 8, d + props);
    NumberOnPrefix(Mask(p), 2, props);
    PropertiesRoundTrip(p, 0, suffix);
    assert Upto(ReadBack(p), 0) == NoProperties();
  }

  lemma FourFields(a: bytes, b: bytes, c: bytes, d: bytes, rest: bytes)
    requires |a| == 2 && |b| == 2 && |c| == 8 && |d| == 2
    ensures (a + (b + (c + (d + rest))))[2..] == b + (c + (d + rest))
    ensures (a + (b + (c + (d + rest))))[4..] == c + (d + rest)
    ensures (a + (b + (c + (d + rest))))[12..] == d + rest
    ensures (a + (b + (c + (d + rest))))[14..] == rest
  {
  }

  // ---------------------------------------------------------------- reserved1

  /** The flag 0x0004 is that of reserved1 alone. */
  lemma ReservedFlag(i: nat)
    requires i < SLOTS
    ensures HasProperty(4, i) <==> i == RESERVED1
  {
    hide Pow2;
    SmallPowers();
    if i < RESERVED1 {
      Pow2Grows(3, 15 - i);
      FourOver(Pow2(15 - i));
    }
  }

  lemma SmallPowers()
    ensures Pow2(2) == 4 && Pow2(3) == 8
  {
  }

  lemma FourOver(p: nat)
    requires p >= 8
    ensures 4 / p == 0
  {
    DivisionIsUnique(4, 0, p, 4);
  }

  lemma {:induction false} OthersAreSkipped(i: nat, w: bytes, p: Properties<Table>)
    requires i <= RESERVED1
    ensures ReadProperties(4, i, w, p) == ReadProperties(4, RESERVED1, w, p)
    decreases RESERVED1 - i
  {
    hide ReadSlot, HasProperty, Put;
    if i < RESERVED1 {
      ReservedFlag(i);
      OthersAreSkipped(i + 1, w, p);
    }
  }

  /** reserved1 is read when its flag is there, although the writer never sets it. */
  lemma ReservedIsReadNotWritten(s: bytes, suffix: bytes, p: Properties<Entries>)
    requires |s| <= 255
    ensures ReadProperties(4, 0, Shortstr(s) + suffix, NoProperties())
      == Got(NoProperties<Table>().(reserved1 := s), |Shortstr(s)|)
    ensures !HasProperty(Mask(p), RESERVED1) && ReadBack(p).reserved1 == []
  {
    hide ReadShortstr, Shortstr, HasProperty, Mask;
    OthersAreSkipped(0, Shortstr(s) + suffix, NoProperties());
    ReservedFlag(RESERVED1);
    ShortstrInverts(s, suffix);
    KeyLength(s);
    assert s[..|s| % 256] == s;
    MaskInverts(p, RESERVED1);
  }
}
