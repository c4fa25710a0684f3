/** The Go values that a field table may hold, and the form in which a peer reads them back. */
module FieldValues {
  import opened Bytes

  type Table = map<bytes, Value>

  /**
   Unsupported stands for any dynamic type outside the table documentation. Floats are bit
   patterns. Time is an instant: whole Unix seconds and the nanoseconds within the second.
   */
  datatype Value =
    | Bool(flag: bool)
    | Octet(octet: byte)
    | Short(short: int16)
    | GoInt(int_: int64)
    | Int(long: int32)
    | Long(longlong: int64)
    | Float(bits32: uint32)
    | Double(bits64: uint64)
    | Decimal(scale: byte, unscaled: int32)
    | Str(text: bytes)
    | Time(seconds: int64, nanos: uint32)
    | Blob(blob: bytes)
    | Nil
    | Unsupported
    | Array(elems: seq<Value>)
    | Dict(table: Table)

  /** validateField: every value, at every depth, has a type that AMQP knows. */
  predicate Supported(v: Value) {
    match v
    case Unsupported => false
    case Array(elems) => forall i | 0 <= i < |elems| :: Supported(elems[i])
    case Dict(table) => forall k | k in table :: Supported(table[k])
    case _ => true
  }

  /** What survives the wire: a Go int narrows to int32, an instant loses its nanoseconds. */
  function Canon(v: Value): Value {
    match v
    case GoInt(i) => Int(Signed(Unsigned(i, 4), 4))
    case Time(s, _) => Time(s, 0)
    case Array(elems) => Array(seq(|elems|, i requires 0 <= i < |elems| => Canon(elems[i])))
    case Dict(table) => Dict(map k | k in table :: Canon(table[k]))
    case _ => v
  }

  function CanonTable(t: Table): Table {
    map k | k in t :: Canon(t[k])
  }

  /**
   A value together with the order in which each of its maps yields its entries. Go chooses that
   order afresh at every range loop, so one value has a plan for every choice at every level.
   */
  datatype Plan = Leaf(value: Value) | ArrayPlan(elems: seq<Plan>) | DictPlan(entries: Entries)

  datatype Entry = Entry(key: bytes, plan: Plan)

  type Entries = seq<Entry>

  predicate Scalar(v: Value) {
    !v.Array? && !v.Dict? && !v.Unsupported?
  }

  predicate Valid(p: Plan)
    decreases p, 1
  {
    match p
    case Leaf(v) => Scalar(v)
    case ArrayPlan(ps) => ValidElems(ps)
    case DictPlan(es) => ValidEntries(es)
  }

  predicate ValidElems(ps: seq<Plan>)
    decreases ps, 0
  {
    ps == [] || (Valid(ps[0]) && ValidElems(ps[1..]))
  }

  predicate ValidEntries(es: Entries)
    decreases es, 0
  {
    es == [] || (Valid(es[0].plan) && ValidEntries(es[1..]) && es[0].key !in Contents(es[1..]))
  }

  /** The value that a plan is a plan of. */
  function Of(p: Plan): Value
    decreases p, 1
  {
    match p
    case Leaf(v) => v
    case ArrayPlan(ps) => Array(OfElems(ps))
    case DictPlan(es) => Dict(Contents(es))
  }

  function OfElems(ps: seq<Plan>): (vs: seq<Value>)
    ensures |vs| == |ps|
    decreases ps, 0
  {
    if ps == [] then [] else [Of(ps[0])] + OfElems(ps[1..])
  }

  function Contents(es: Entries): (t: Table)
    decreases es, 0
  {
    if es == [] then map[] else Contents(es[1..])[es[0].key := Of(es[0].plan)]
  }

  /** The same plan with every scalar in canonical form. */
  function CanonPlan(p: Plan): Plan
    decreases p, 1
  {
    match p
    case Leaf(v) => Leaf(Canon(v))
    case ArrayPlan(ps) => ArrayPlan(CanonElems(ps))
    case DictPlan(es) => DictPlan(CanonEntries(es))
  }

  function CanonElems(ps: seq<Plan>): seq<Plan>
    decreases ps, 0
  {
    if ps == [] then [] else [CanonPlan(ps[0])] + CanonElems(ps[1..])
  }

  function CanonEntries(es: Entries): Entries
    decreases es, 0
  {
    if es == [] then [] else [Entry(es[0].key, CanonPlan(es[0].plan))] + CanonEntries(es[1..])
  }

  /** Canonicalising a plan canonicalises its value, whatever the orders. */
  lemma {:induction false} CanonPlanDenotesCanon(p: Plan)
    requires Valid(p)
    ensures Valid(CanonPlan(p)) && Of(CanonPlan(p)) == Canon(Of(p))
    decreases p, 1
  {
    match p
    case Leaf(v) =>
    case ArrayPlan(ps) => CanonElemsDenoteCanon(ps);
    case DictPlan(es) => CanonEntriesDenoteCanon(es);
  }

  lemma {:induction false} CanonElemsDenoteCanon(ps: seq<Plan>)
    requires ValidElems(ps)
    ensures ValidElems(CanonElems(ps)) && Array(OfElems(CanonElems(ps))) == Canon(Array(OfElems(ps)))
    decreases ps, 0
  {
    if ps != [] {
      CanonPlanDenotesCanon(ps[0]);
      CanonElemsDenoteCanon(ps[1..]);
      var cs := CanonElems(ps);
      assert cs[0] == CanonPlan(ps[0]) && cs[1..] == CanonElems(ps[1..]);
      assert Canon(Array(OfElems(ps))).elems == [Canon(Of(ps[0]))] + Canon(Array(OfElems(ps[1..]))).elems;
    }
  }

  lemma {:induction false} CanonEntriesDenoteCanon(es: Entries)
    requires ValidEntries(es)
    ensures ValidEntries(CanonEntries(es)) && Contents(CanonEntries(es)) == CanonTable(Contents(es))
    decreases es, 0
  {
    if es != [] {
      CanonPlanDenotesCanon(es[0].plan);
      CanonEntriesDenoteCanon(es[1..]);
      var cs := CanonEntries(es);
      assert cs[0] == Entry(es[0].key, CanonPlan(es[0].plan)) && cs[1..] == CanonEntries(es[1..]);
    }
  }

  /** Every supported value has a plan: there is always some order in which its maps can be ranged over. */
  lemma {:induction false} SomePlan(v: Value) returns (p: Plan)
    requires Supported(v)
    ensures Valid(p) && Of(p) == v
    decreases v, 1
  {
    if v.Array? {
      var ps := SomeElems(v, |v.elems|);
      assert v.elems[|v.elems| - |v.elems|..] == v.elems;
      p := ArrayPlan(ps);
    } else if v.Dict? {
      var es := SomeEntries(v, v.table.Keys);
      assert Contents(es) == v.table;
      p := DictPlan(es);
    } else {
      p := Leaf(v);
    }
  }

  /** Plans for the last n elements. */
  lemma {:induction false} SomeElems(v: Value, n: nat) returns (ps: seq<Plan>)
    requires v.Array? && Supported(v) && n <= |v.elems|
    ensures ValidElems(ps) && OfElems(ps) == v.elems[|v.elems| - n..]
    decreases v, 0, n
  {
    ps := [];
    if n > 0 {
      var i := |v.elems| - n;
      var p := SomePlan(v.elems[i]);
      var rest := SomeElems(v, n - 1);
      ps := [p] + rest;
      assert ps[1..] == rest && v.elems[i..] == [v.elems[i]] + v.elems[i + 1..];
    }
  }

  /** Entries for some of the keys. */
  lemma {:induction false} SomeEntries(v: Value, keys: set<bytes>) returns (es: Entries)
    requires v.Dict? && Supported(v) && keys <= v.table.Keys
    ensures ValidEntries(es) && Contents(es) == map k | k in keys :: v.table[k]
    decreases v, 0, |keys|
  {
    es := [];
    if keys != {} {
      var key :| key in keys;
      var p := SomePlan(v.table[key]);
      var rest := SomeEntries(v, keys - {key});
      es := [Entry(key, p)] + rest;
      assert es[1..] == rest;
    }
  }

  lemma {:induction false} PlansAreSupported(p: Plan)
    requires Valid(p)
    ensures Supported(Of(p))
    decreases p, 1
  {
    match p
    case Leaf(v) =>
    case ArrayPlan(ps) =>
      forall i | 0 <= i < |ps| ensures Supported(Of(p).elems[i]) {
        ElemAt(ps, i);
        PlansAreSupported(ps[i]);
      }
    case DictPlan(es) => EntriesAreSupported(es);
  }

  lemma {:induction false} ElemAt(ps: seq<Plan>, i: nat)
    requires ValidElems(ps) && i < |ps|
    ensures Valid(ps[i]) && OfElems(ps)[i] == Of(ps[i])
  {
    if i > 0 {
      ElemAt(ps[1..], i - 1);
    }
  }

  lemma {:induction false} EntriesAreSupported(es: Entries)
    requires ValidEntries(es)
    ensures Supported(Dict(Contents(es)))
    decreases es, 0
  {
    if es != [] {
      PlansAreSupported(es[0].plan);
      EntriesAreSupported(es[1..]);
    }
  }
}
