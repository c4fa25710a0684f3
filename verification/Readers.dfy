/**
 The reader as an object: a position in finite data below the limit that the LimitedReaders in
 force add up to. Its methods carry out the reading functions step by step.
 */
module Readers {
  import opened Bytes
  import opened Streams
  import opened FieldValues
  import opened FieldCodec

  /** A value or an error, as the Go readers return them. */
  datatype Result<+T> = Success(value: T) | Failure(error: Error) {
    predicate IsFailure() {
      Failure?
    }

    function PropagateFailure<U>(): Result<U>
      requires Failure?
    {
      Failure(error)
    }

    function Extract(): T
      requires Success?
    {
      value
    }
  }

  function Outcome<T>(r: Read<T>): Result<T> {
    match r
    case Got(v, _) => Success(v)
    case Failed(e, _) => Failure(e)
  }

  class Reader {
    const data: bytes
    var pos: nat
    /** Where the innermost limit, or the end of the data if that is nearer, stops the reader. */
    var end: nat

    constructor (data: bytes)
      ensures this.data == data && pos == 0 && end == |data|
      ensures Valid() && Window() == data
    {
      this.data := data;
      pos, end := 0, |data|;
    }

    /** No read has gone past the limit in force. */
    ghost predicate Valid()
      reads this
    {
      pos <= end <= |data|
    }

    /** What can still be delivered. */
    ghost function Window(): bytes
      requires Valid()
      reads this
    {
      data[pos..end]
    }

    method Full(n: nat) returns (out: Result<bytes>)
      requires Valid()
      modifies this`pos
      ensures Valid()
      ensures var r := Streams.Full(old(Window()), n);
        out == Outcome(r) && pos == old(pos) + r.used && Window() == old(Window())[r.used..]
    {
      var room := end - pos;
      if n == 0 {
        return Success([]);
      } else if room == 0 {
        return Failure(EndOfFile);
      } else if room < n {
        pos := pos + room;
        return Failure(UnexpectedEndOfFile);
      }
      assert data[pos..pos + n] == Window()[..n];
      out := Success(data[pos..pos + n]);
      pos := pos + n;
    }

    method Number(width: nat) returns (out: Result<nat>)
      requires Valid()
      modifies this`pos
      ensures Valid()
      ensures var r := Streams.Number(old(Window()), width);
        out == Outcome(r) && pos == old(pos) + r.used && Window() == old(Window())[r.used..]
    {
      var bs :- Full(width);
      return Success(FromBigEndian(bs));
    }

    method Shortstr() returns (out: Result<bytes>)
      requires Valid()
      modifies this`pos
      ensures Valid()
      ensures var r := ReadShortstr(old(Window()));
        out == Outcome(r) && pos == old(pos) + r.used && Window() == old(Window())[r.used..]
    {
      var n :- Number(1);
      out := Full(n);
    }

    method Longstr() returns (out: Result<bytes>)
      requires Valid()
      modifies this`pos
      ensures Valid()
      ensures var r := ReadLongstr(old(Window()));
        out == Outcome(r) && pos == old(pos) + r.used && Window() == old(Window())[r.used..]
    {
      var n :- Number(4);
      if n > MAX_LONGSTR {
        return Success([]);
      }
      out := Full(n);
    }
  
    method Decimal() returns (out: Result<Value>)
      requires Valid()
      modifies this`pos
      ensures Valid()
      ensures var r := ReadDecimal(old(Window()));
        out == Outcome(r) && pos == old(pos) + r.used && Window() == old(Window())[r.used..]
    {
      Widths();
      var scale :- Number(1);
      var n :- Number(4);
      return Success(Value.Decimal(scale, Signed(n, 4)));
    }

    method Blob() returns (out: Result<Value>)
      requires Valid()
      modifies this`pos
      ensures Valid()
      ensures var r := ReadBlob(old(Window()));
        out == Outcome(r) && pos == old(pos) + r.used && Window() == old(Window())[r.used..]
    {
      var n :- Number(4);
      if n > MAX_LONGSTR {
        return Failure(NegativeLength);
      }
      var b :- Full(n);
      return Success(Value.Blob(b));
    }

    /** readField: no element reads past this reader's limits, which are as before when it is done. */
    method Field() returns (out: Result<Value>)
      requires Valid()
      modifies this`pos, this`end
      ensures Valid() && end == old(end)
      ensures var r := ReadField(old(Window()));
        out == Outcome(r) && pos == old(pos) + r.used && Window() == old(Window())[r.used..]
      decreases |Window()|, 1
    {
      Widths();
      var tag :- Number(1);
      out := Tagged(tag);
    }

    method Tagged(tag: byte) returns (out: Result<Value>)
      requires Valid()
      modifies this`pos, this`end
      ensures Valid() && end == old(end)
      ensures var r := ReadTagged(tag, old(Window()));
        out == Outcome(r) && pos == old(pos) + r.used && Window() == old(Window())[r.used..]
      decreases |Window()|, 3
    {
      if Width(tag) > 0 {
        var n :- Number(Width(tag));
        return Success(FromBits(tag, n));
      } else if tag == 'D' as int {
        out := Decimal();
      } else if tag == 'S' as int {
        var s :- Longstr();
        return Success(Str(s));
      } else if tag == 'A' as int {
        out := Array();
      } else if tag == 'F' as int {
        var t :- Table();
        return Success(Dict(t));
      } else if tag == 'x' as int {
        out := Blob();
      } else if tag == 'V' as int {
        return Success(Nil);
      } else {
        return Failure(SyntaxError);
      }
    }

    /** readArray: the elements are read below one more limit, which is taken off again. */
    method Array() returns (out: Result<Value>)
      requires Valid()
      modifies this`pos, this`end
      ensures Valid() && end == old(end)
      ensures var r := ReadArray(old(Window()));
        out == Outcome(r) && pos == old(pos) + r.used && Window() == old(Window())[r.used..]
      decreases |Window()|, 2
    {
      var size :- Number(4);
      ghost var rest := Window();
      var outer := end;
      if pos + size < end {
        end := pos + size;
      }
      assert Window() == Limited(rest, size);
      var elems := Elems();
      end := outer;
      assert Window() == rest[ReadElems(Limited(rest, size)).used..];
      if elems.Failure? {
        return Failure(elems.error);
      }
      return Success(Value.Array(elems.value));
    }

    /** The loop of readArray: an end of file ends the array, any other error is passed on. */
    method Elems() returns (out: Result<seq<Value>>)
      requires Valid()
      modifies this`pos, this`end
      ensures Valid() && end == old(end)
      ensures var r := ReadElems(old(Window()));
        out == Outcome(r) && pos == old(pos) + r.used && Window() == old(Window())[r.used..]
      decreases |Window()|, 2
    {
      hide ReadField, ReadElems, ElemsSoFar;
      ghost var w := Window();
      var start := pos;
      var arr: seq<Value> := [];
      NoElemsYet(w);
      while true
        invariant Valid() && end == old(end) && start <= pos
        invariant ElemsSoFar(w, arr, pos - start, Window())
        decreases |Window()|
      {
        ghost var here, n := Window(), pos - start;
        var field := Field();
        if field.Failure? {
          LastElem(w, arr, n, here);
          if field.error == EndOfFile {
            return Success(arr);
          }
          return Failure(field.error);
        }
        NextElem(w, arr, n, here);
        arr := arr + [field.value];
      }
    }

    /** readTable: the section is a long string, and is read through a buffer of its own. */
    method Table() returns (out: Result<Table>)
      requires Valid()
      modifies this`pos
      ensures Valid()
      ensures var r := ReadTable(old(Window()));
        out == Outcome(r) && pos == old(pos) + r.used && Window() == old(Window())[r.used..]
      decreases |Window()|, 2
    {
      hide ReadEntries;
      var section :- Longstr();
      var nested := new Reader(section);
      out := nested.Entries();
    }

    /** The loop of readTable, until nothing is left. */
    method Entries() returns (out: Result<Table>)
      requires Valid()
      modifies this
      ensures out == Outcome(ReadEntries(old(Window())))
      decreases |Window()|, 2
    {
      hide ReadField, ReadEntries, ReadShortstr, EntriesSoFar;
      ghost var w := Window();
      var start := pos;
      var table: Table := map[];
      NoEntriesYet(w);
      while pos < end
        invariant Valid() && end == old(end) && start <= pos
        invariant EntriesSoFar(w, table, pos - start, Window())
        decreases |Window()|
      {
        ghost var here, n := Window(), pos - start;
        KeyOrError(w, table, n, here);
        var key :- Shortstr();
        ghost var there := Window();
        ValueOrError(w, table, n, here);
        var value :- Field();
        NextEntry(w, table, n, here);
        table := table[key := value];
        assert Window() == here[ReadShortstr(here).used + ReadField(there).used..];
      }
      LastEntry(w, table, pos - start, Window());
      return Success(table);
    }
  }

  /** Elements already read, in front of those still to come. */
  function AfterElems(arr: seq<Value>, used: nat, r: Read<seq<Value>>): Read<seq<Value>> {
    match r
    case Failed(e, u) => Failed(e, used + u)
    case Got(vs, u) => Got(arr + vs, used + u)
  }

  /** Entries already read, under those still to come. */
  function AfterEntries(t: Table, used: nat, r: Read<Table>): Read<Table> {
    match r
    case Failed(e, u) => Failed(e, used + u)
    case Got(t', u) => Got(t + t', used + u)
  }

  ghost predicate ElemsSoFar(w: bytes, arr: seq<Value>, n: nat, here: bytes) {
    n <= |w| && here == w[n..] && ReadElems(w) == AfterElems(arr, n, ReadElems(here))
  }

  lemma NoElemsYet(w: bytes)
    ensures ElemsSoFar(w, [], 0, w)
  {
    var r := ReadElems(w);
    assert r.Got? ==> [] + r.value == r.value;
  }

  lemma NextElem(w: bytes, arr: seq<Value>, n: nat, here: bytes)
    requires ElemsSoFar(w, arr, n, here) && ReadField(here).Got?
    ensures var f := ReadField(here);
      ElemsSoFar(w, arr + [f.value], n + f.used, here[f.used..])
  {
    hide ReadField;
    var f := ReadField(here);
    var later := ReadElems(here[f.used..]);
    assert later.Got? ==> arr + ([f.value] + later.value) == arr + [f.value] + later.value;
  }

  lemma LastElem(w: bytes, arr: seq<Value>, n: nat, here: bytes)
    requires ElemsSoFar(w, arr, n, here) && ReadField(here).Failed?
    ensures var f := ReadField(here);
      && ReadElems(w) == (if f.error == EndOfFile then Got(arr, n + f.used) else Failed(f.error, n + f.used))
      && here[f.used..] == w[n + f.used..]
  {
    hide ReadField;
    assert arr + [] == arr;
  }

  ghost predicate EntriesSoFar(w: bytes, t: Table, n: nat, here: bytes) {
    n <= |w| && here == w[n..] && ReadEntries(w) == AfterEntries(t, n, ReadEntries(here))
  }

  lemma NoEntriesYet(w: bytes)
    ensures EntriesSoFar(w, map[], 0, w)
  {
    var r := ReadEntries(w);
    assert r.Got? ==> map[] + r.value == r.value;
  }

  lemma KeyOrError(w: bytes, t: Table, n: nat, here: bytes)
    requires EntriesSoFar(w, t, n, here) && here != []
    ensures ReadShortstr(here).Failed? ==> Outcome(ReadEntries(w)) == Failure(ReadShortstr(here).error)
  {
    hide ReadField, ReadShortstr;
  }

  lemma ValueOrError(w: bytes, t: Table, n: nat, here: bytes)
    requires EntriesSoFar(w, t, n, here) && here != [] && ReadShortstr(here).Got?
    ensures var f := ReadField(here[ReadShortstr(here).used..]);
      f.Failed? ==> Outcome(ReadEntries(w)) == Failure(f.error)
  {
    hide ReadField, ReadShortstr;
  }

  lemma NextEntry(w: bytes, t: Table, n: nat, here: bytes)
    requires EntriesSoFar(w, t, n, here) && here != [] && ReadShortstr(here).Got?
    requires ReadField(here[ReadShortstr(here).used..]).Got?
    ensures var k := ReadShortstr(here);
      var f := ReadField(here[k.used..]);
      EntriesSoFar(w, t[k.value := f.value], n + k.used + f.used, here[k.used + f.used..])
  {
    hide ReadField, ReadShortstr;
    var k := ReadShortstr(here);
    var f := ReadField(here[k.used..]);
    var later := ReadEntries(here[k.used + f.used..]);
    if later.Got? {
      Override(t, k.value, f.value, later.value);
    }
  }

  lemma Override(t: Table, key: bytes, v: Value, later: Table)
    ensures t + (map[key := v] + later) == t[key := v] + later
  {
  }

  lemma LastEntry(w: bytes, t: Table, n: nat, here: bytes)
    requires EntriesSoFar(w, t, n, here) && here == []
    ensures ReadEntries(w) == Got(t, n)
  {
    assert t + map[] == t;
  }
}
