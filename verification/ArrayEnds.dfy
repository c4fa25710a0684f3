/** Where an array ends: at the first field that meets the end of its section, whole or not. */
module ArrayEnds {
  import opened Bytes
  import opened Streams
  import opened FieldValues
  import opened FieldCodec

  /** The first n octets of w are whole fields, with the values vs. */
  predicate Holds(w: bytes, vs: seq<Value>, n: nat)
    decreases |vs|
  {
    if vs == [] then n == 0
    else
      var r := ReadField(w);
      r.Got? && r.value == vs[0] && r.used <= n && Holds(w[r.used..], vs[1..], n - r.used)
  }

  /** What the section goes on with after those fields meets the end, within the next u octets. */
  predicate EndsAt(w: bytes, n: nat, u: nat) {
    n <= |w| && n <= u && ReadField(w[n..]) == Failed(EndOfFile, u - n)
  }

  lemma {:induction false} ReadIsHeld(w: bytes, vs: seq<Value>, u: nat) returns (n: nat)
    requires ReadElems(w) == Got(vs, u)
    ensures Holds(w, vs, n) && EndsAt(w, n, u)
    decreases |w|
  {
    hide ReadField;
    n := 0;
    var r := ReadField(w);
    if r.Got? {
      var rest := ReadElems(w[r.used..]);
      assert vs == [r.value] + rest.value && vs[1..] == rest.value;
      n := ReadIsHeld(w[r.used..], rest.value, rest.used);
      n := r.used + n;
      assert w[r.used..][n - r.used..] == w[n..];
    } else {
      assert w[0..] == w;
    }
  }

  lemma {:induction false} HeldIsRead(w: bytes, vs: seq<Value>, n: nat, u: nat)
    requires Holds(w, vs, n) && EndsAt(w, n, u)
    ensures ReadElems(w) == Got(vs, u)
    decreases |vs|
  {
    hide ReadField, ReadElems;
    if vs == [] {
      assert w[0..] == w;
      EofEndsElems(w, u);
    } else {
      var used := ReadField(w).used;
      assert w[used..][n - used..] == w[n..];
      HeldIsRead(w[used..], vs[1..], n - used, u - used);
      OneMoreElem(w);
      assert vs == [vs[0]] + vs[1..];
    }
  }

  /**
   Exactly: an array is read as vs if and only if its section begins with whole fields of these values
   and the reading of what is left of it, whatever that is, meets the end of the section.
   */
  lemma ArraysEndAtTheFirstEof(w: bytes, vs: seq<Value>, u: nat)
    ensures ReadElems(w) == Got(vs, u) <==> exists n: nat :: Holds(w, vs, n) && EndsAt(w, n, u)
  {
    if ReadElems(w) == Got(vs, u) {
      var n := ReadIsHeld(w, vs, u);
    }
    if n: nat :| Holds(w, vs, n) && EndsAt(w, n, u) {
      HeldIsRead(w, vs, n, u);
    }
  }

  /** What is left is dropped; nothing is, exactly when the whole fields fill the section. */
  lemma NothingIsDroppedExactlyWhenFieldsFill(w: bytes, vs: seq<Value>, n: nat, u: nat)
    requires Holds(w, vs, n) && EndsAt(w, n, u)
    ensures ReadElems(w) == Got(vs, u) && (u == n <==> n == |w|)
  {
    HeldIsRead(w, vs, n, u);
    assert w[|w|..] == [];
  }

  lemma TheFieldsAreDetermined(w: bytes, vs: seq<Value>, n: nat, u: nat, vs': seq<Value>, n': nat, u': nat)
    requires Holds(w, vs, n) && EndsAt(w, n, u) && Holds(w, vs', n') && EndsAt(w, n', u')
    ensures vs == vs' && n == n' && u == u'
  {
    HeldIsRead(w, vs, n, u);
    HeldIsRead(w, vs', n', u');
    SameFieldsSameLength(w, vs, n, n');
  }

  lemma {:induction false} SameFieldsSameLength(w: bytes, vs: seq<Value>, n: nat, n': nat)
    requires Holds(w, vs, n) && Holds(w, vs, n')
    ensures n == n'
    decreases |vs|
  {
    if vs != [] {
      var used := ReadField(w).used;
      SameFieldsSameLength(w[used..], vs[1..], n - used, n' - used);
    }
  }

  // ---------------------------------------------------------------- octets that are dropped

  lemma LoneOctet(a: byte)
    ensures FromBigEndian([a]) == a
  {
    assert [a][..0] == [];
  }

  lemma SmallLength(a: byte)
    ensures FromBigEndian([0, 0, 0, a]) == a
  {
    LoneOctet(0);
    assert [0, 0][..1] == [0] && FromBigEndian([0, 0]) == 0;
    assert [0, 0, 0][..2] == [0, 0] && FromBigEndian([0, 0, 0]) == 0;
    assert [0, 0, 0, a][..3] == [0, 0, 0];
  }

  lemma FieldFromTag(w: bytes)
    requires w != []
    ensures ReadField(w) == ReadTagged(w[0], w[1..]).After(1)
  {
    hide ReadTagged;
    LoneOctet(w[0]);
    assert w[..1] == [w[0]];
  }

  lemma LongstrFromLength(w: bytes)
    requires |w| >= 4 && w[..3] == [0, 0, 0]
    ensures ReadLongstr(w) == Full(w[4..], w[3]).After(4)
  {
    hide FromBigEndian;
    SmallLength(w[3]);
    assert w[..4] == [0, 0, 0, w[3]];
  }

  lemma EofEndsElems(w: bytes, u: nat)
    requires ReadField(w) == Failed(EndOfFile, u)
    ensures ReadElems(w) == Got([], u)
  {
  }

  /** A string of declared length n > 0, cut right behind its length. */
  lemma CutStringIsDropped(n: byte)
    requires n > 0
    ensures ReadElems(['S' as int, 0, 0, 0, n]) == Got([], 5)
  {
    hide ReadElems, ReadField, ReadLongstr;
    var w := ['S' as int, 0, 0, 0, n];
    assert w[1..] == [0, 0, 0, n] && w[1..][4..] == [] && w[1..][..3] == [0, 0, 0];
    FieldFromTag(w);
    LongstrFromLength(w[1..]);
    EofEndsElems(w, 5);
  }

  /** A table that is cut behind the length of its key; the nil element behind it is whole, and lost. */
  lemma ElementsBehindACutAreLost()
    ensures ReadElems(['F' as int, 0, 0, 0, 1, 3, 'V' as int]) == Got([], 6)
    ensures ReadElems(['V' as int]) == Got([Nil], 1)
  {
    hide ReadElems, ReadField, ReadLongstr, ReadEntries;
    var w := ['F' as int, 0, 0, 0, 1, 3, 'V' as int];
    var rest := w[1..];
    assert rest == [0, 0, 0, 1, 3, 'V' as int] && rest[..3] == [0, 0, 0];
    assert rest[4..] == [3, 'V' as int] && [3, 'V' as int][..1] == [3];
    FieldFromTag(w);
    LongstrFromLength(rest);
    KeyIsCut(3);
    EofEndsElems(w, 6);
    NilAlone();
  }

  lemma KeyIsCut(n: byte)
    requires n > 0
    ensures ReadEntries([n]) == Failed(EndOfFile, 1)
  {
    hide FromBigEndian;
    LoneOctet(n);
    assert [n][..1] == [n] && [n][1..] == [];
  }

  lemma NilAlone()
    ensures ReadElems(['V' as int]) == Got([Nil], 1)
  {
    hide ReadField, ReadElems;
    FieldFromTag(['V' as int]);
    NothingLeft();
    EofEndsElems([], 0);
    assert ['V' as int][1..] == [] && [Nil] + [] == [Nil];
    OneMoreElem(['V' as int]);
  }

  lemma OneMoreElem(w: bytes)
    requires ReadField(w).Got? && ReadElems(w[ReadField(w).used..]).Got?
    ensures var r := ReadField(w);
      var rest := ReadElems(w[r.used..]);
      ReadElems(w) == Got([r.value] + rest.value, r.used + rest.used)
  {
    hide ReadField;
  }

  lemma NothingLeft()
    ensures ReadField([]) == Failed(EndOfFile, 0)
  {
  }
}
