/** The writers on a buffer object; ghost results say in which order the maps were ranged over. */
module Writers {
  import opened Bytes
  import opened FieldValues
  import opened FieldCodec

  /** A bytes.Buffer, or any writer that takes all it is given. */
  class Buffer {
    var contents: bytes

    constructor ()
      ensures contents == []
    {
      contents := [];
    }

    method Write(b: bytes)
      modifies this
      ensures contents == old(contents) + b
    {
      contents := contents + b;
    }
  }

  /** binary.BigEndian.PutUint on buf[from..from + width]. */
  method PutUint(buf: array<byte>, from: nat, width: nat, n: nat)
    requires from + width <= buf.Length
    modifies buf
    ensures buf[from..from + width] == BigEndian(n, width)
    ensures forall j | 0 <= j < buf.Length && !(from <= j < from + width) :: buf[j] == old(buf[j])
  {
    var rest: nat, i: nat := n, width;
    while i > 0
      invariant i <= width
      invariant BigEndian(n, width) == BigEndian(rest, i) + buf[from + i..from + width]
      invariant forall j | 0 <= j < buf.Length && !(from <= j < from + width) :: buf[j] == old(buf[j])
    {
      i := i - 1;
      ghost var tail := buf[from + i + 1..from + width];
      buf[from + i] := rest % 256;
      assert buf[from + i..from + width] == [rest % 256] + tail;
      rest := rest / 256;
    }
  }

  method WriteNumber(w: Buffer, n: nat, width: nat)
    modifies w
    ensures w.contents == old(w.contents) + BigEndian(n, width)
  {
    w.Write(BigEndian(n, width));
  }

  method WriteShortstr(w: Buffer, s: bytes)
    modifies w
    ensures w.contents == old(w.contents) + Shortstr(s)
  {
    WriteNumber(w, |s|, 1);
    w.Write(s[..|s| % 256]);
  }

  method WriteLongstr(w: Buffer, s: bytes)
    modifies w
    ensures w.contents == old(w.contents) + Longstr(s)
  {
    WriteNumber(w, |s|, 4);
    w.Write(s[..|s| % 0x1_0000_0000]);
  }

  /** The scalar cases of writeField, by way of the scratch array. */
  method WriteScalar(w: Buffer, v: Value)
    requires Scalar(v)
    modifies w
    ensures w.contents == old(w.contents) + LeafBytes(v)
  {
    var buf := new byte[9](_ => 0);
    buf[0] := Tag(v);
    if Fixed(v) {
      var width := Width(Tag(v));
      PutUint(buf, 1, width, Bits(v));
      assert buf[..1 + width] == [Tag(v)] + buf[1..1 + width];
      w.Write(buf[..1 + width]);
    } else if v.Decimal? {
      buf[1] := v.scale;
      PutUint(buf, 2, 4, Unsigned(v.unscaled, 4));
      assert buf[..6] == [Tag(v), v.scale] + buf[2..6];
      w.Write(buf[..6]);
    } else if v.Nil? {
      assert buf[..1] == [Tag(v)];
      w.Write(buf[..1]);
    } else {
      var body := if v.Str? then v.text else v.blob;
      PutUint(buf, 1, 4, |body|);
      assert buf[..5] == [Tag(v)] + buf[1..5];
      w.Write(buf[..5] + body);
    }
  }

  /**
   writeField: succeeds exactly on the values that validateField accepts, and then writes the
   encoding of the value for the map orders that it met.
   */
  method WriteField(w: Buffer, v: Value) returns (ok: bool, ghost p: Plan)
    modifies w
    ensures ok <==> Supported(v)
    ensures ok ==> Valid(p) && Of(p) == v && w.contents == old(w.contents) + FieldBytes(p)
    decreases v, 1
  {
    hide ElemBytes, EntryBytes, Longstr, OfElems, Contents, ValidElems, ValidEntries;
    ok, p := true, Leaf(v);
    if v.Unsupported? {
      return false, p;
    } else if v.Array? {
      var section := new Buffer();
      ghost var ps: seq<Plan>;
      ok, ps := WriteElems(section, v);
      if !ok {
        return;
      }
      var buf := new byte[9](_ => 0);
      buf[0] := 'A' as int;
      PutUint(buf, 1, 4, |section.contents|);
      assert buf[..5] == ['A' as int] + buf[1..5];
      w.Write(buf[..5]);
      w.Write(section.contents);
      p := ArrayPlan(ps);
      assert FieldBytes(p) == buf[..5] + section.contents;
    } else if v.Dict? {
      w.Write(['F' as int]);
      ghost var es;
      ok, es := WriteTable(w, v);
      p := DictPlan(es);
      assert ok ==> FieldBytes(p) == ['F' as int] + TableBytes(es);
    } else {
      WriteScalar(w, v);
    }
  }

  method WriteElems(w: Buffer, v: Value) returns (ok: bool, ghost ps: seq<Plan>)
    requires v.Array?
    modifies w
    ensures ok <==> Supported(v)
    ensures ok ==> ValidElems(ps) && OfElems(ps) == v.elems && w.contents == old(w.contents) + ElemBytes(ps)
    decreases v, 0
  {
    hide FieldBytes, Of, Valid, OfElems, ElemBytes;
    ok, ps := true, [];
    NoElems();
    var i := 0;
    while i < |v.elems|
      invariant 0 <= i <= |v.elems|
      invariant forall j | 0 <= j < i :: Supported(v.elems[j])
      invariant ValidElems(ps) && OfElems(ps) == v.elems[..i]
      invariant w.contents == old(w.contents) + ElemBytes(ps)
    {
      ghost var p;
      ok, p := WriteField(w, v.elems[i]);
      if !ok {
        return;
      }
      ElemAppended(ps, p);
      ps := ps + [p];
      i := i + 1;
    }
  }

  /** writeTable ranges over the map in whatever order it comes. */
  method WriteTable(w: Buffer, v: Value) returns (ok: bool, ghost es: Entries)
    requires v.Dict?
    modifies w
    ensures ok <==> Supported(v)
    ensures ok ==> ValidEntries(es) && Contents(es) == v.table && w.contents == old(w.contents) + TableBytes(es)
    decreases v, 0
  {
    hide RangedOver, EntryBytes, Shortstr, FieldBytes, Longstr;
    var buf := new Buffer();
    ok, es := true, [];
    var rest := v.table.Keys;
    NothingRangedOver(v.table);
    while rest != {}
      invariant fresh(buf) && w.contents == old(w.contents)
      invariant RangedOver(v.table, rest, es) && ValidEntries(es)
      invariant buf.contents == EntryBytes(es)
      decreases |rest|
    {
      var key :| key in rest;
      KeyIsMapped(v.table, rest, es, key);
      WriteShortstr(buf, key);
      ghost var p;
      ok, p := WriteField(buf, v.table[key]);
      if !ok {
        return;
      }
      OneMoreRangedOver(v.table, rest, es, Entry(key, p));
      es := es + [Entry(key, p)];
      rest := rest - {key};
    }
    AllRangedOver(v.table, es);
    WriteLongstr(w, buf.contents);
  }

  /** The entries of t that are not left in rest have been ranged over, in the order of es. */
  ghost predicate RangedOver(t: Table, rest: set<bytes>, es: Entries) {
    && rest <= t.Keys
    && ValidEntries(es)
    && Contents(es) == map k | k in t && k !in rest :: t[k]
  }

  lemma NothingRangedOver(t: Table)
    ensures RangedOver(t, t.Keys, []) && ValidEntries([]) && EntryBytes([]) == []
  {
  }

  lemma KeyIsMapped(t: Table, rest: set<bytes>, es: Entries, key: bytes)
    requires RangedOver(t, rest, es) && key in rest
    ensures key in t && key !in Contents(es)
  {
  }

  lemma OneMoreRangedOver(t: Table, rest: set<bytes>, es: Entries, e: Entry)
    requires RangedOver(t, rest, es) && ValidEntries(es)
    requires e.key in rest && e.key in t && Valid(e.plan) && Of(e.plan) == t[e.key]
    ensures RangedOver(t, rest - {e.key}, es + [e]) && ValidEntries(es + [e])
    ensures EntryBytes(es + [e]) == EntryBytes(es) + Shortstr(e.key) + FieldBytes(e.plan)
  {
    hide EntryBytes, Shortstr, FieldBytes;
    EntryAppended(es, e);
    EntryBytesAppended(es, e);
  }

  lemma AllRangedOver(t: Table, es: Entries)
    requires RangedOver(t, {}, es)
    ensures ValidEntries(es) && Contents(es) == t && Supported(Dict(t))
  {
    EntriesAreSupported(es);
  }

  lemma NoElems()
    ensures ValidElems([]) && OfElems([]) == [] && ElemBytes([]) == []
  {
  }

  lemma {:induction false} ElemAppended(ps: seq<Plan>, p: Plan)
    requires ValidElems(ps) && Valid(p)
    ensures ValidElems(ps + [p]) && OfElems(ps + [p]) == OfElems(ps) + [Of(p)]
    ensures ElemBytes(ps + [p]) == ElemBytes(ps) + FieldBytes(p)
  {
    if ps == [] {
      assert [] + [p] == [p];
    } else {
      ElemAppended(ps[1..], p);
      assert (ps + [p])[1..] == ps[1..] + [p];
    }
  }

  lemma {:induction false} EntryAppended(es: Entries, e: Entry)
    requires ValidEntries(es) && Valid(e.plan) && e.key !in Contents(es)
    ensures ValidEntries(es + [e]) && Contents(es + [e]) == Contents(es)[e.key := Of(e.plan)]
  {
    hide Valid, Of;
    if es == [] {
      assert [] + [e] == [e];
    } else {
      EntryAppended(es[1..], e);
      assert (es + [e])[1..] == es[1..] + [e];
    }
  }

  lemma Associates(a: bytes, b: bytes, c: bytes, d: bytes)
    ensures a + (b + c + d) == a + b + c + d
  {
  }

  lemma {:induction false} EntryBytesAppended(es: Entries, e: Entry)
    requires ValidEntries(es) && Valid(e.plan) && ValidEntries(es + [e])
    ensures EntryBytes(es + [e]) == EntryBytes(es) + Shortstr(e.key) + FieldBytes(e.plan)
  {
    hide Valid, Of, Shortstr, FieldBytes, Contents;
    if es == [] {
      assert [] + [e] == [e];
      assert EntryBytes([e]) == Shortstr(e.key) + FieldBytes(e.plan) + EntryBytes([e][1..]);
    } else {
      assert (es + [e])[1..] == es[1..] + [e] && (es + [e])[0] == es[0];
      EntryBytesAppended(es[1..], e);
      Associates(Shortstr(es[0].key) + FieldBytes(es[0].plan), EntryBytes(es[1..]), Shortstr(e.key),
                 FieldBytes(e.plan));
    }
  }
}
