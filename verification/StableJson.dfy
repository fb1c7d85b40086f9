/**
 * The canonical serializer `stableJson` of src/util.mjs: key-sorted JSON with no whitespace.
 *
 * An integer below 10 to the 21st prints as its decimal digits.  Every other finite number prints
 * with a point or an exponent, and is represented by that literal.
 */
module StableJson {
  import opened Collections
  import opened TextOrder
  import opened JsonText

  datatype Json =
    | Null
    | Bool(value: bool)
    | Int(n: int)
    | Dec(literal: Text)
    | Str(text: Text)
    | Arr(items: seq<Json>)
    | Obj(fields: seq<(Text, Json)>)

  const INTEGER_BOUND := 1_000_000_000_000_000_000_000

  /** The integers that print as digits alone, and the literals that do not. */
  predicate ValidNumber(v: Json)
    requires v.Int? || v.Dec?
  {
    if v.Int? then -INTEGER_BOUND < v.n < INTEGER_BOUND
    else (forall i | 0 <= i < |v.literal| :: IsNumeric(v.literal[i])) && (POINT in v.literal || EXPONENT in v.literal)
  }

  /** A JSON value: numbers are valid, and the keys of an object are distinct, at every depth. */
  predicate ValidJson(v: Json)
  {
    match v
    case Int(_) => ValidNumber(v)
    case Dec(_) => ValidNumber(v)
    case Arr(items) => forall i | 0 <= i < |items| :: ValidJson(items[i])
    case Obj(fields) =>
      && (forall i | 0 <= i < |fields| :: ValidJson(fields[i].1))
      && (forall i, j | 0 <= i < j < |fields| :: fields[i].0 != fields[j].0)
    case _ => true
  }

  /** Equal up to the order of object keys, at every depth. */
  ghost predicate Same(a: Json, b: Json)
    decreases a, 1
  {
    match (a, b)
    case (Arr(xs), Arr(ys)) => |xs| == |ys| && forall i | 0 <= i < |xs| :: Same(xs[i], ys[i])
    case (Obj(fs), Obj(gs)) => |fs| == |gs| && forall i | 0 <= i < |fs| :: HasField(a, i, b)
    case (_, _) => a == b
  }

  /** Object `b` has field `i` of object `a`, up to key order inside it. */
  ghost predicate HasField(a: Json, i: nat, b: Json)
    requires a.Obj? && b.Obj? && i < |a.fields|
    decreases a, 0
  {
    exists j | 0 <= j < |b.fields| :: a.fields[i].0 == b.fields[j].0 && Same(a.fields[i].1, b.fields[j].1)
  }

  // ----- the serializer

  function ByKey<T>(): ((Text, T), (Text, T)) -> bool
  {
    (x: (Text, T), y: (Text, T)) => Le(x.0, y.0)
  }

  function Scalar(v: Json): Text
    requires !v.Arr? && !v.Obj?
  {
    match v
    case Null => [0x6E, 0x75, 0x6C, 0x6C]
    case Bool(b) => if b then [0x74, 0x72, 0x75, 0x65] else [0x66, 0x61, 0x6C, 0x73, 0x65]
    case Int(n) => Decimal(n)
    case Dec(l) => l
    case Str(s) => Quoted(s)
  }

  /** `stableJson`: the entries of an object are serialized and listed in key order. */
  function Serialize(v: Json): Text
  {
    match v
    case Arr(items) => Bracket(LBRACKET, seq(|items|, i requires 0 <= i < |items| => Serialize(items[i])), RBRACKET)
    case Obj(fields) =>
      var entries := seq(|fields|, i requires 0 <= i < |fields| => (fields[i].0, Serialize(fields[i].1)));
      Bracket(LBRACE, Map(Entry, Sort(ByKey(), entries)), RBRACE)
    case _ => Scalar(v)
  }

  /** The same printer without sorting: fields in the order they stand. */
  function Print(v: Json): Text
  {
    match v
    case Arr(items) => Bracket(LBRACKET, Texts(v), RBRACKET)
    case Obj(fields) => Bracket(LBRACE, Entries(v), RBRACE)
    case _ => Scalar(v)
  }

  function Texts(v: Json): (r: seq<Text>)
    requires v.Arr?
    ensures |r| == |v.items|
    decreases v, 0
  {
    seq(|v.items|, i requires 0 <= i < |v.items| => Print(v.items[i]))
  }

  function Entries(v: Json): (r: seq<Text>)
    requires v.Obj?
    ensures |r| == |v.fields|
    decreases v, 0
  {
    seq(|v.fields|, i requires 0 <= i < |v.fields| => Entry((v.fields[i].0, Print(v.fields[i].1))))
  }

  function NormalFields(v: Json): (r: seq<(Text, Json)>)
    requires v.Obj?
    ensures |r| == |v.fields|
    decreases v, 0
  {
    seq(|v.fields|, i requires 0 <= i < |v.fields| => (v.fields[i].0, Normal(v.fields[i].1)))
  }

  /** A value with the fields of every object in key order. */
  function Normal(v: Json): Json
    decreases v, 1
  {
    match v
    case Arr(items) => Arr(seq(|items|, i requires 0 <= i < |items| => Normal(items[i])))
    case Obj(fields) => Obj(Sort(ByKey(), NormalFields(v)))
    case _ => v
  }

  // ----- the key order

  lemma ByKeyIsPreorder<T(!new)>()
    ensures TotalPreorder(ByKey<T>())
  {
    var le := ByKey<T>();
    forall x, y ensures le(x, y) || le(y, x) { LeTotal(x.0, y.0); }
    forall x, y, z | le(x, y) && le(y, z) ensures le(x, z) { LeTransitive(x.0, y.0, z.0); }
  }

  // ----- values read back one way only

  /** The first unit of a printed value tells its kind and is never a delimiter. */
  lemma FirstUnit(v: Json)
    requires ValidJson(v)
    ensures Print(v) != [] && !IsDelimiter(Print(v)[0])
    ensures Print(v)[0] == LBRACKET <==> v.Arr?
    ensures Print(v)[0] == LBRACE <==> v.Obj?
    ensures Print(v)[0] == QUOTE <==> v.Str?
    ensures IsNumeric(Print(v)[0]) <==> v.Int? || v.Dec?
  {
  }

  /** A number is told by its print. */
  lemma NumbersDetermined(a: Json, b: Json)
    requires (a.Int? || a.Dec?) && (b.Int? || b.Dec?) && ValidNumber(a) && ValidNumber(b)
    ensures SelfDelimiting(Print(a), Print(b)) && (Print(a) == Print(b) ==> a == b)
  {
    if a.Int? { DecimalDetermines(a.n, if b.Int? then b.n else 0); }
    if b.Int? { DecimalDetermines(b.n, 0); }
    NumbersDelimit(Print(a), Print(b));
  }

  /** Printed values delimit themselves and are told apart: printing is injective. */
  lemma {:induction false} PrintDelimits(a: Json, b: Json)
    requires ValidJson(a) && ValidJson(b)
    ensures SelfDelimiting(Print(a), Print(b)) && (Print(a) == Print(b) ==> a == b)
    decreases a
  {
    if a.Arr? && b.Arr? {
      forall k | 0 <= k < |a.items| && k < |b.items|
        ensures SelfDelimiting(Texts(a)[k], Texts(b)[k]) && (Texts(a)[k] == Texts(b)[k] ==> a.items[k] == b.items[k])
      {
        PrintDelimits(a.items[k], b.items[k]);
      }
      ArraysDelimit(a, b);
    } else if a.Obj? && b.Obj? {
      forall k | 0 <= k < |a.fields| && k < |b.fields|
        ensures SelfDelimiting(Entries(a)[k], Entries(b)[k]) && (Entries(a)[k] == Entries(b)[k] ==> a.fields[k] == b.fields[k])
      {
        PrintDelimits(a.fields[k].1, b.fields[k].1);
        EntriesDelimit(a.fields[k].0, Print(a.fields[k].1), b.fields[k].0, Print(b.fields[k].1));
      }
      ObjectsDelimit(a, b);
    } else {
      ScalarsDelimit(a, b);
    }
  }

  lemma ArraysDelimit(a: Json, b: Json)
    requires a.Arr? && b.Arr? && ValidJson(a) && ValidJson(b)
    requires forall k | 0 <= k < |a.items| && k < |b.items| :: SelfDelimiting(Texts(a)[k], Texts(b)[k])
    requires forall k | 0 <= k < |a.items| && k < |b.items| :: Texts(a)[k] == Texts(b)[k] ==> a.items[k] == b.items[k]
    ensures SelfDelimiting(Print(a), Print(b)) && (Print(a) == Print(b) ==> a == b)
  {
    forall k | 0 <= k < |a.items| ensures Texts(a)[k] != [] && !IsDelimiter(Texts(a)[k][0]) { FirstUnit(a.items[k]); }
    forall k | 0 <= k < |b.items| ensures Texts(b)[k] != [] && !IsDelimiter(Texts(b)[k][0]) { FirstUnit(b.items[k]); }
    BracketsDelimit(LBRACKET, Texts(a), Texts(b), RBRACKET);
  }

  lemma ObjectsDelimit(a: Json, b: Json)
    requires a.Obj? && b.Obj?
    requires forall k | 0 <= k < |a.fields| && k < |b.fields| :: SelfDelimiting(Entries(a)[k], Entries(b)[k])
    requires forall k | 0 <= k < |a.fields| && k < |b.fields| :: Entries(a)[k] == Entries(b)[k] ==> a.fields[k] == b.fields[k]
    ensures SelfDelimiting(Print(a), Print(b)) && (Print(a) == Print(b) ==> a == b)
  {
    BracketsDelimit(LBRACE, Entries(a), Entries(b), RBRACE);
  }

  lemma ScalarsDelimit(a: Json, b: Json)
    requires ValidJson(a) && ValidJson(b) && !(a.Arr? && b.Arr?) && !(a.Obj? && b.Obj?)
    ensures SelfDelimiting(Print(a), Print(b)) && (Print(a) == Print(b) ==> a == b)
  {
    FirstUnit(a);
    FirstUnit(b);
    if (a.Int? || a.Dec?) && (b.Int? || b.Dec?) {
      NumbersDetermined(a, b);
    } else if a.Str? && b.Str? {
      StringsDelimit(a.text, b.text);
    } else {
      forall text: Text, p: nat | Occurs(text, p, Print(a)) && Occurs(text, p, Print(b)) ensures a == b {
        assert text[p + 0] == Print(a)[0] == Print(b)[0];
      }
      assert Occurs(Print(a), 0, Print(a));
    }
  }

  // ----- sorting fields is the same as forgetting their order

  function PrintField(f: (Text, Json)): (Text, Text) { (f.0, Print(f.1)) }

  /** What the serializer writes is the plain print of the value with its keys in order. */
  lemma {:induction false} SerializeIsPrint(v: Json)
    ensures Serialize(v) == Print(Normal(v))
  {
    if v.Arr? {
      forall i | 0 <= i < |v.items| ensures Serialize(v.items[i]) == Print(Normal(v.items[i])) {
        SerializeIsPrint(v.items[i]);
      }
      assert seq(|v.items|, i requires 0 <= i < |v.items| => Serialize(v.items[i])) == Texts(Normal(v));
    } else if v.Obj? {
      forall i | 0 <= i < |v.fields| ensures Serialize(v.fields[i].1) == Print(Normal(v.fields[i].1)) {
        SerializeIsPrint(v.fields[i].1);
      }
      var entries := seq(|v.fields|, i requires 0 <= i < |v.fields| => (v.fields[i].0, Serialize(v.fields[i].1)));
      assert entries == Map(PrintField, NormalFields(v));
      SortMap(ByKey<Json>(), ByKey<Text>(), PrintField, NormalFields(v));
      assert Map(Entry, Sort(ByKey(), entries)) == Entries(Normal(v));
    }
  }

  /** Fields with valid values and distinct keys. */
  ghost predicate ValidFields(fields: seq<(Text, Json)>)
  {
    && (forall i | 0 <= i < |fields| :: ValidJson(fields[i].1))
    && (forall i, j | 0 <= i < j < |fields| :: fields[i].0 != fields[j].0)
  }

  lemma SortKeepsValid(fields: seq<(Text, Json)>)
    requires ValidFields(fields)
    ensures ValidFields(Sort(ByKey(), fields)) && multiset(Sort(ByKey(), fields)) == multiset(fields)
    ensures Sorted(ByKey(), Sort(ByKey(), fields))
  {
    var sorted := Sort(ByKey(), fields);
    SortMultiset(ByKey(), fields);
    ByKeyIsPreorder<Json>();
    SortSorted(ByKey(), fields);
    PermutedDistinct(fields, sorted);
    forall i | 0 <= i < |sorted| ensures ValidJson(sorted[i].1) {
      assert sorted[i] in fields;
    }
    forall i, j | 0 <= i < j < |sorted| ensures sorted[i].0 != sorted[j].0 {
      assert sorted[i] in fields && sorted[j] in fields && sorted[i] != sorted[j];
    }
  }

  lemma {:induction false} NormalIsValid(v: Json)
    requires ValidJson(v)
    ensures ValidJson(Normal(v))
    ensures v.Obj? ==> ValidFields(NormalFields(v))
  {
    if v.Arr? {
      forall i | 0 <= i < |v.items| ensures ValidJson(Normal(v.items[i])) {
        NormalIsValid(v.items[i]);
      }
    } else if v.Obj? {
      forall i | 0 <= i < |v.fields| ensures ValidJson(Normal(v.fields[i].1)) {
        NormalIsValid(v.fields[i].1);
      }
      SortKeepsValid(NormalFields(v));
    }
  }

  /** Sorted fields depend only on which fields there are. */
  lemma SortForgetsOrder(fs: seq<(Text, Json)>, gs: seq<(Text, Json)>)
    requires ValidFields(fs) && ValidFields(gs) && |fs| == |gs| && forall i | 0 <= i < |fs| :: fs[i] in gs
    ensures Sort(ByKey(), fs) == Sort(ByKey(), gs)
  {
    DistinctPermuted(fs, gs);
    ByKeyIsPreorder<Json>();
    forall x, y | x in fs && y in fs && ByKey()(x, y) && ByKey()(y, x) ensures x == y {
      LeAntisymmetric(x.0, y.0);
    }
    SortPermuted(ByKey(), fs, gs);
  }

  lemma SortedTellsFields(fs: seq<(Text, Json)>, gs: seq<(Text, Json)>)
    requires Sort(ByKey(), fs) == Sort(ByKey(), gs)
    ensures |fs| == |gs| && forall i | 0 <= i < |fs| :: fs[i] in gs
  {
    SortMultiset(ByKey(), fs);
    SortMultiset(ByKey(), gs);
    MembersOfPermuted(fs, gs);
  }

  /** Values have one normal form exactly when they differ only in key order. */
  lemma {:induction false} NormalIffSame(a: Json, b: Json)
    requires ValidJson(a) && ValidJson(b)
    ensures Normal(a) == Normal(b) <==> Same(a, b)
    decreases a
  {
    if a.Arr? && b.Arr? {
      forall i | 0 <= i < |a.items| && i < |b.items|
        ensures Normal(a.items[i]) == Normal(b.items[i]) <==> Same(a.items[i], b.items[i])
      {
        NormalIffSame(a.items[i], b.items[i]);
      }
      NormalArrays(a, b);
    } else if a.Obj? && b.Obj? {
      forall i, j | 0 <= i < |a.fields| && 0 <= j < |b.fields|
        ensures Normal(a.fields[i].1) == Normal(b.fields[j].1) <==> Same(a.fields[i].1, b.fields[j].1)
      {
        NormalIffSame(a.fields[i].1, b.fields[j].1);
      }
      NormalObjects(a, b);
    }
  }

  lemma NormalArrays(a: Json, b: Json)
    requires a.Arr? && b.Arr?
    requires forall i | 0 <= i < |a.items| && i < |b.items| :: Normal(a.items[i]) == Normal(b.items[i]) <==> Same(a.items[i], b.items[i])
    ensures Normal(a) == Normal(b) <==> Same(a, b)
  {
    var xs, ys := Normal(a).items, Normal(b).items;
    if xs == ys {
      forall i | 0 <= i < |a.items| ensures Same(a.items[i], b.items[i]) {
        assert xs[i] == ys[i];
      }
    }
    if Same(a, b) {
      assert xs == ys;
    }
  }

  lemma NormalObjects(a: Json, b: Json)
    requires a.Obj? && b.Obj? && ValidJson(a) && ValidJson(b)
    requires forall i, j | 0 <= i < |a.fields| && 0 <= j < |b.fields| ::
      Normal(a.fields[i].1) == Normal(b.fields[j].1) <==> Same(a.fields[i].1, b.fields[j].1)
    ensures Normal(a) == Normal(b) <==> Same(a, b)
  {
    if Normal(a) == Normal(b) {
      SortedTellsFields(NormalFields(a), NormalFields(b));
      MatchedFields(a, b);
    }
    if Same(a, b) {
      forall i | 0 <= i < |a.fields| ensures NormalFields(a)[i] in NormalFields(b) {
        SameFieldListed(a, b, i);
      }
      ListedFieldsSort(a, b);
    }
  }

  lemma SameFieldListed(a: Json, b: Json, i: nat)
    requires a.Obj? && b.Obj? && i < |a.fields| && HasField(a, i, b)
    requires forall j | 0 <= j < |b.fields| :: Same(a.fields[i].1, b.fields[j].1) ==> Normal(a.fields[i].1) == Normal(b.fields[j].1)
    ensures NormalFields(a)[i] in NormalFields(b)
  {
    var j :| 0 <= j < |b.fields| && a.fields[i].0 == b.fields[j].0 && Same(a.fields[i].1, b.fields[j].1);
    assert NormalFields(b)[j] == NormalFields(a)[i];
  }

  lemma ListedFieldsSort(a: Json, b: Json)
    requires a.Obj? && b.Obj? && ValidJson(a) && ValidJson(b) && |a.fields| == |b.fields|
    requires forall i | 0 <= i < |a.fields| :: NormalFields(a)[i] in NormalFields(b)
    ensures Normal(a) == Normal(b)
  {
    NormalIsValid(a);
    NormalIsValid(b);
    SortForgetsOrder(NormalFields(a), NormalFields(b));
  }

  lemma MatchedFields(a: Json, b: Json)
    requires a.Obj? && b.Obj? && |a.fields| == |b.fields|
    requires forall i | 0 <= i < |a.fields| :: NormalFields(a)[i] in NormalFields(b)
    requires forall i, j | 0 <= i < |a.fields| && 0 <= j < |b.fields| ::
      Normal(a.fields[i].1) == Normal(b.fields[j].1) ==> Same(a.fields[i].1, b.fields[j].1)
    ensures Same(a, b)
  {
    forall i | 0 <= i < |a.fields| ensures HasField(a, i, b) {
      var j :| 0 <= j < |b.fields| && NormalFields(b)[j] == NormalFields(a)[i];
      assert a.fields[i].0 == b.fields[j].0 && Same(a.fields[i].1, b.fields[j].1);
    }
  }

  /**
   * The serialization is canonical: two JSON values serialize to the same text if and only if
   * they are equal up to the order of object keys at every depth.
   */
  lemma Canonical(a: Json, b: Json)
    requires ValidJson(a) && ValidJson(b)
    ensures Serialize(a) == Serialize(b) <==> Same(a, b)
  {
    SerializeIsPrint(a);
    SerializeIsPrint(b);
    NormalIsValid(a);
    NormalIsValid(b);
    PrintDelimits(Normal(a), Normal(b));
    NormalIffSame(a, b);
  }
}
