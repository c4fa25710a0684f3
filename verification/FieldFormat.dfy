/**
 Field values as octets, spelled out tag by tag: what is read from any octets, and what is written for
 any value. Nothing here speaks through the tables of tags and widths that reader and writer share.
 */
module FieldFormat {
  import opened Bytes
  import opened Streams
  import opened Octets
  import opened FieldValues
  import opened FieldCodec
  import opened ArrayEnds

  /** Two's complement: the upper half of the numbers below 2 * half are negative. */
  function Complement(n: nat, half: nat): int {
    if n < half then n else n - 2 * half
  }

  // ---------------------------------------------------------------- reading

  lemma SignedIsComplement(n: nat, w: nat, half: nat)
    requires Pow256(w) == 2 * half && n < 2 * half
    ensures Signed(n, w) == Complement(n, half)
  {
  }

  /** Any octet but 0 is true. */
  lemma BoolsAreRead(w: bytes)
    requires |w| >= 2 && w[0] == 't' as int
    ensures ReadField(w) == Got(Bool(w[1] != 0), 2)
  {
    hide ReadField, Number;
    FieldFromTag(w);
    ReadsOne(w[1..]);
  }

  lemma OctetsAreRead(w: bytes)
    requires |w| >= 2 && w[0] == 'b' as int
    ensures ReadField(w) == Got(Octet(w[1]), 2)
  {
    hide ReadField, Number;
    FieldFromTag(w);
    ReadsOne(w[1..]);
  }

  lemma ShortsAreRead(w: bytes)
    requires |w| >= 3 && w[0] == 's' as int
    ensures FromTwo(w[1..]) < 0x1_0000
    ensures ReadField(w) == Got(Short(Complement(FromTwo(w[1..]), 0x8000)), 3)
  {
    hide ReadField, Number;
    Widths();
    FieldFromTag(w);
    ReadsTwo(w[1..]);
    SignedIsComplement(FromTwo(w[1..]), 2, 0x8000);
  }

  lemma IntsAreRead(w: bytes)
    requires |w| >= 5 && w[0] == 'I' as int
    ensures FromFour(w[1..]) < 0x1_0000_0000
    ensures ReadField(w) == Got(Int(Complement(FromFour(w[1..]), 0x8000_0000)), 5)
  {
    hide ReadField, Number;
    Widths();
    FieldFromTag(w);
    ReadsFour(w[1..]);
    SignedIsComplement(FromFour(w[1..]), 4, 0x8000_0000);
  }

  lemma LongsAreRead(w: bytes)
    requires |w| >= 9 && w[0] == 'l' as int
    ensures FromEight(w[1..]) < 0x1_0000_0000_0000_0000
    ensures ReadField(w) == Got(Long(Complement(FromEight(w[1..]), 0x8000_0000_0000_0000)), 9)
  {
    hide ReadField, Number;
    Widths();
    FieldFromTag(w);
    ReadsEight(w[1..]);
    SignedIsComplement(FromEight(w[1..]), 8, 0x8000_0000_0000_0000);
  }

  lemma FloatsAreRead(w: bytes)
    requires |w| >= 5 && w[0] == 'f' as int
    ensures FromFour(w[1..]) < 0x1_0000_0000
    ensures ReadField(w) == Got(Float(FromFour(w[1..])), 5)
  {
    hide ReadField, Number;
    Widths();
    FieldFromTag(w);
    ReadsFour(w[1..]);
  }

  lemma DoublesAreRead(w: bytes)
    requires |w| >= 9 && w[0] == 'd' as int
    ensures FromEight(w[1..]) < 0x1_0000_0000_0000_0000
    ensures ReadField(w) == Got(Double(FromEight(w[1..])), 9)
  {
    hide ReadField, Number;
    Widths();
    FieldFromTag(w);
    ReadsEight(w[1..]);
  }

  lemma TimesAreRead(w: bytes)
    requires |w| >= 9 && w[0] == 'T' as int
    ensures FromEight(w[1..]) < 0x1_0000_0000_0000_0000
    ensures ReadField(w) == Got(Time(Complement(FromEight(w[1..]), 0x8000_0000_0000_0000), 0), 9)
  {
    hide ReadField, Number;
    Widths();
    FieldFromTag(w);
    ReadsEight(w[1..]);
    SignedIsComplement(FromEight(w[1..]), 8, 0x8000_0000_0000_0000);
  }

  lemma DecimalsAreRead(w: bytes)
    requires |w| >= 6 && w[0] == 'D' as int
    ensures FromFour(w[2..]) < 0x1_0000_0000
    ensures ReadField(w) == Got(Decimal(w[1], Complement(FromFour(w[2..]), 0x8000_0000)), 6)
  {
    hide ReadField, Number;
    Widths();
    FieldFromTag(w);
    ReadsOne(w[1..]);
    assert w[1..][1..] == w[2..];
    ReadsFour(w[2..]);
    SignedIsComplement(FromFour(w[2..]), 4, 0x8000_0000);
  }

  /** The n octets from place `from` on, if there are as many. */
  lemma FullAt(w: bytes, from: nat, n: nat)
    requires from <= |w|
    ensures from + n <= |w| ==> Full(w[from..], n) == Got(w[from..from + n], n)
    ensures from + n > |w| ==> Full(w[from..], n).Failed? && Full(w[from..], n).error != NegativeLength
  {
    if from + n <= |w| {
      assert w[from..][..n] == w[from..from + n];
    }
  }

  lemma LongstrAt(w: bytes)
    requires |w| >= 5
    ensures var n := FromFour(w[1..]);
      ReadLongstr(w[1..]) == if n > 0x7FFF_FFFF then Got([], 4) else Full(w[5..], n).After(4)
  {
    hide Number, Full;
    ReadsFour(w[1..]);
    assert w[1..][4..] == w[5..];
  }

  /** A string: its length, then its octets, if there are as many; a length of 2^31 or more is none. */
  lemma StringsAreRead(w: bytes)
    requires |w| >= 5 && w[0] == 'S' as int
    ensures var n := FromFour(w[1..]);
      && (n > 0x7FFF_FFFF ==> ReadField(w) == Got(Str([]), 5))
      && (n <= 0x7FFF_FFFF && 5 + n <= |w| ==> ReadField(w) == Got(Str(w[5..5 + n]), 5 + n))
      && (n <= 0x7FFF_FFFF && 5 + n > |w| ==> ReadField(w).Failed?)
  {
    hide ReadField, Number, Full, ReadLongstr, FromFour;
    FieldFromTag(w);
    LongstrAt(w);
    FullAt(w, 5, FromFour(w[1..]));
  }

  /** A byte array, likewise, but that a length of 2^31 or more is negative. */
  lemma BlobsAreRead(w: bytes)
    requires |w| >= 5 && w[0] == 'x' as int
    ensures var n := FromFour(w[1..]);
      && (n > 0x7FFF_FFFF ==> ReadField(w) == Failed(NegativeLength, 5))
      && (n <= 0x7FFF_FFFF && 5 + n <= |w| ==> ReadField(w) == Got(Blob(w[5..5 + n]), 5 + n))
      && (n <= 0x7FFF_FFFF && 5 + n > |w| ==> ReadField(w).Failed? && ReadField(w).error != NegativeLength)
  {
    hide ReadField, Number, Full, ReadLongstr, FromFour;
    FieldFromTag(w);
    ReadsFour(w[1..]);
    assert w[1..][4..] == w[5..];
    FullAt(w, 5, FromFour(w[1..]));
  }

  lemma NilsAreRead(w: bytes)
    requires |w| >= 1 && w[0] == 'V' as int
    ensures ReadField(w) == Got(Nil, 1)
  {
    hide ReadField;
    FieldFromTag(w);
  }

  /** An array: its size, and the elements read from as many octets, or from those that are left. */
  lemma ArraysAreRead(w: bytes)
    requires |w| >= 5 && w[0] == 'A' as int
    ensures var n := FromFour(w[1..]);
      var r := ReadElems(if 5 + n <= |w| then w[5..5 + n] else w[5..]);
      ReadField(w) == if r.Got? then Got(Array(r.value), 5 + r.used) else Failed(r.error, 5 + r.used)
  {
    hide ReadField, Number, ReadElems, FromFour;
    FieldFromTag(w);
    ReadsFour(w[1..]);
    var n := FromFour(w[1..]);
    assert w[1..][4..] == w[5..];
    assert Limited(w[5..], n) == if 5 + n <= |w| then w[5..5 + n] else w[5..];
  }

  /** A table: its size, and the entries read from as many octets, which must be there. */
  lemma TablesAreRead(w: bytes)
    requires |w| >= 5 && w[0] == 'F' as int
    ensures var n := FromFour(w[1..]);
      && (n > 0x7FFF_FFFF ==> ReadField(w) == Got(Dict(map[]), 5))
      && (n <= 0x7FFF_FFFF && 5 + n > |w| ==> ReadField(w).Failed?)
    ensures FromFour(w[1..]) <= 0x7FFF_FFFF && 5 + FromFour(w[1..]) <= |w| ==>
      var n := FromFour(w[1..]);
      var r := ReadEntries(w[5..5 + n]);
      ReadField(w) == if r.Got? then Got(Dict(r.value), 5 + n) else Failed(r.error, 5 + n)
  {
    hide ReadField, ReadLongstr, Full, ReadEntries, FromFour;
    FieldFromTag(w);
    LongstrAt(w);
    FullAt(w, 5, FromFour(w[1..]));
    NoEntriesInNothing();
  }

  lemma NoEntriesInNothing()
    ensures ReadEntries([]) == Got(map[], 0)
  {
  }

  lemma OtherTagsAreErrors(w: bytes)
    requires w != [] && w[0] !in {'t' as int, 'b' as int, 's' as int, 'I' as int, 'l' as int, 'f' as int, 'd' as int,
                                  'D' as int, 'S' as int, 'A' as int, 'T' as int, 'F' as int, 'x' as int, 'V' as int}
    ensures ReadField(w) == Failed(SyntaxError, 1)
  {
    hide ReadField;
    FieldFromTag(w);
  }

  /** Where the key at the front of w ends. */
  function KeyEnd(w: bytes): (e: nat)
    requires w != []
    ensures e >= 1
  {
    var n: nat := w[0];
    1 + n
  }

  lemma ShortstrAt(w: bytes)
    requires w != [] && KeyEnd(w) <= |w|
    ensures ReadShortstr(w) == Got(w[1..KeyEnd(w)], KeyEnd(w))
  {
    hide Number, Full;
    ReadsOne(w);
    FullAt(w, 1, w[0]);
  }

  /** An entry: the key, a short string, and the field; the entries behind it take precedence. */
  lemma EntriesAreRead(w: bytes)
    requires w != [] && KeyEnd(w) <= |w| && ReadField(w[KeyEnd(w)..]).Got?
    requires ReadEntries(w[KeyEnd(w) + ReadField(w[KeyEnd(w)..]).used..]).Got?
    ensures var field := ReadField(w[KeyEnd(w)..]);
      var rest := ReadEntries(w[KeyEnd(w) + field.used..]);
      ReadEntries(w) == Got(map[w[1..KeyEnd(w)] := field.value] + rest.value, KeyEnd(w) + field.used + rest.used)
  {
    hide ReadField, ReadShortstr, ReadEntries, KeyEnd;
    ShortstrAt(w);
    EntryThenRest(w);
  }

  lemma EntryThenRest(w: bytes)
    requires w != [] && ReadShortstr(w).Got? && ReadField(w[ReadShortstr(w).used..]).Got?
    requires ReadEntries(w[ReadShortstr(w).used + ReadField(w[ReadShortstr(w).used..]).used..]).Got?
    ensures var key := ReadShortstr(w);
      var field := ReadField(w[key.used..]);
      var rest := ReadEntries(w[key.used + field.used..]);
      ReadEntries(w) == Got(map[key.value := field.value] + rest.value, key.used + field.used + rest.used)
  {
    hide ReadField, ReadShortstr;
  }

  /** So of two entries under one key the later stays. */
  lemma LaterEntriesReplaceEarlier(w: bytes, n: nat)
    requires w != [] && KeyEnd(w) <= |w| && ReadField(w[KeyEnd(w)..]).Got? && ReadField(w[KeyEnd(w)..]).used == n
    requires ReadEntries(w[KeyEnd(w) + n..]).Got? && w[1..KeyEnd(w)] in ReadEntries(w[KeyEnd(w) + n..]).value
    ensures ReadEntries(w).Got? && ReadEntries(w).value == ReadEntries(w[KeyEnd(w) + n..]).value
  {
    hide ReadField, ReadEntries, KeyEnd;
    EntriesAreRead(w);
    Replaced(w[1..KeyEnd(w)], ReadField(w[KeyEnd(w)..]).value, ReadEntries(w[KeyEnd(w) + n..]).value);
  }

  lemma Replaced(k: bytes, v: Value, t: Table)
    requires k in t
    ensures map[k := v] + t == t
  {
  }

  // ---------------------------------------------------------------- whole tables

  datatype Pair = Pair(key: bytes, value: Value)

  /** w is nothing but these keys and values, one after the other. */
  predicate Spells(w: bytes, pairs: seq<Pair>)
    decreases |pairs|
  {
    if pairs == [] then w == []
    else
      && w != [] && KeyEnd(w) <= |w| && w[1..KeyEnd(w)] == pairs[0].key
      && var r := ReadField(w[KeyEnd(w)..]);
      r.Got? && r.value == pairs[0].value && Spells(w[KeyEnd(w) + r.used..], pairs[1..])
  }

  /** The map that they make: the last value under each key. */
  function MapOf(pairs: seq<Pair>): Table {
    if pairs == [] then map[] else MapOf(pairs[..|pairs| - 1])[pairs[|pairs| - 1].key := pairs[|pairs| - 1].value]
  }

  lemma {:induction false} MapFromFirst(pairs: seq<Pair>)
    requires pairs != []
    ensures MapOf(pairs) == map[pairs[0].key := pairs[0].value] + MapOf(pairs[1..])
  {
    var n := |pairs| - 1;
    if n > 0 {
      MapFromFirst(pairs[..n]);
      assert pairs[..n][1..] == pairs[1..][..n - 1] && pairs[1..][n - 1] == pairs[n];
    } else {
      assert pairs[..0] == [] && pairs[1..] == [];
    }
  }

  lemma ShortstrIsWhole(w: bytes)
    requires w != []
    ensures ReadShortstr(w).Got? <==> KeyEnd(w) <= |w|
  {
    hide Number, Full;
    ReadsOne(w);
    FullAt(w, 1, w[0]);
  }

  lemma {:induction false} ReadIsSpelt(w: bytes, t: Table, u: nat) returns (pairs: seq<Pair>)
    requires ReadEntries(w) == Got(t, u)
    ensures u == |w| && Spells(w, pairs) && t == MapOf(pairs)
    decreases |w|
  {
    hide ReadField, ReadShortstr, KeyEnd;
    pairs := [];
    if w != [] {
      ShortstrIsWhole(w);
      ShortstrAt(w);
      var field := ReadField(w[KeyEnd(w)..]);
      var rest := ReadEntries(w[KeyEnd(w) + field.used..]);
      var later := ReadIsSpelt(w[KeyEnd(w) + field.used..], rest.value, rest.used);
      pairs := [Pair(w[1..KeyEnd(w)], field.value)] + later;
      assert pairs[1..] == later;
      MapFromFirst(pairs);
    }
  }

  lemma {:induction false} SpeltIsRead(w: bytes, pairs: seq<Pair>)
    requires Spells(w, pairs)
    ensures ReadEntries(w) == Got(MapOf(pairs), |w|)
    decreases |pairs|
  {
    hide ReadField, KeyEnd, ReadEntries;
    if pairs == [] {
      NoEntriesInNothing();
    } else {
      SpeltIsRead(w[KeyEnd(w) + ReadField(w[KeyEnd(w)..]).used..], pairs[1..]);
      EntriesAreRead(w);
      MapFromFirst(pairs);
    }
  }

  /**
   Exactly: a section is read as a table if and only if it is nothing but keys and values, one after the
   other; the table has the last value under each key, and the whole section is consumed.
   */
  lemma TablesAreTheirEntries(w: bytes, t: Table, u: nat)
    ensures ReadEntries(w) == Got(t, u) <==> u == |w| && exists pairs :: Spells(w, pairs) && t == MapOf(pairs)
  {
    if ReadEntries(w) == Got(t, u) {
      var pairs := ReadIsSpelt(w, t, u);
    }
    if pairs :| Spells(w, pairs) && t == MapOf(pairs) {
      SpeltIsRead(w, pairs);
    }
  }

  // ---------------------------------------------------------------- writing

  /** The octets of a scalar. */
  function Written(v: Value): bytes
    requires Scalar(v)
  {
    match v
    case Bool(b) => ['t' as int, if b then 1 else 0]
    case Octet(o) => ['b' as int, o]
    case Short(s) => ['s' as int] + Two(if s >= 0 then s else s + 0x1_0000)
    case GoInt(i) => ['I' as int] + Four(i % 0x1_0000_0000)
    case Int(l) => ['I' as int] + Four(if l >= 0 then l else l + 0x1_0000_0000)
    case Long(l) => ['l' as int] + Eight(if l >= 0 then l else l + 0x1_0000_0000_0000_0000)
    case Float(bits) => ['f' as int] + Four(bits)
    case Double(bits) => ['d' as int] + Eight(bits)
    case Decimal(scale, u) => ['D' as int, scale] + Four(if u >= 0 then u else u + 0x1_0000_0000)
    case Str(s) => ['S' as int] + Four(|s|) + s
    case Time(s, _) => ['T' as int] + Eight(if s >= 0 then s else s + 0x1_0000_0000_0000_0000)
    case Blob(b) => ['x' as int] + Four(|b|) + b
    case Nil => ['V' as int]
  }

  lemma UnsignedIs(i: int, w: nat, whole: nat)
    requires Pow256(w) == whole && 0 <= 2 * i + whole && 2 * i < whole
    ensures Unsigned(i, w) == if i >= 0 then i else i + whole
  {
    if i >= 0 {
      DivisionIsUnique(i, 0, whole, i);
    } else {
      DivisionIsUnique(i, -1, whole, i + whole);
    }
  }

  lemma ScalarsAreWritten(v: Value)
    requires Scalar(v)
    ensures FieldBytes(Leaf(v)) == Written(v)
  {
    hide BigEndian, Unsigned, Two, Four;
    Widths();
    match v
    case Bool(b) => OneOctet(if b then 1 else 0);
    case Octet(o) => OneOctet(o);
    case Short(s) =>
      UnsignedIs(s, 2, 0x1_0000);
      TwoOctets(Unsigned(s, 2));
    case GoInt(i) =>
      FourOctets(Unsigned(i, 4));
      assert Unsigned(i, 4) == i % 0x1_0000_0000 by { UnsignedIsRemainder(i); }
    case Int(l) =>
      UnsignedIs(l, 4, 0x1_0000_0000);
      FourOctets(Unsigned(l, 4));
    case Long(l) =>
      UnsignedIs(l, 8, 0x1_0000_0000_0000_0000);
      EightOctets(Unsigned(l, 8));
    case Float(bits) => FourOctets(bits);
    case Double(bits) => EightOctets(bits);
    case Decimal(_, u) =>
      UnsignedIs(u, 4, 0x1_0000_0000);
      FourOctets(Unsigned(u, 4));
    case Str(s) => FourOctets(|s|);
    case Time(s, _) =>
      UnsignedIs(s, 8, 0x1_0000_0000_0000_0000);
      EightOctets(Unsigned(s, 8));
    case Blob(b) => FourOctets(|b|);
    case Nil =>
  }

  lemma UnsignedIsRemainder(i: int)
    ensures Unsigned(i, 4) == i % 0x1_0000_0000
  {
    Widths();
  }

  /** Arrays and tables: the tag, the size of the section, the section. */
  lemma SectionsAreWritten(ps: seq<Plan>, es: Entries)
    requires ValidElems(ps) && ValidEntries(es) && |EntryBytes(es)| < 0x1_0000_0000
    ensures FieldBytes(ArrayPlan(ps)) == ['A' as int] + Four(|ElemBytes(ps)|) + ElemBytes(ps)
    ensures FieldBytes(DictPlan(es)) == ['F' as int] + (Four(|EntryBytes(es)|) + EntryBytes(es))
    ensures TableBytes(es) == Four(|EntryBytes(es)|) + EntryBytes(es)
  {
    hide BigEndian, Four, ElemBytes, EntryBytes;
    FourOctets(|ElemBytes(ps)|);
    FourOctets(|EntryBytes(es)|);
    var w := EntryBytes(es);
    assert w[..|w| % 0x1_0000_0000] == w;
  }
}
