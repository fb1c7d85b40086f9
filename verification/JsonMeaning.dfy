/**
 * What `stableJson` of src/util.mjs writes, in the characters of section 7 of RFC 8259, and that a
 * reader which follows that section gets back what was written.
 */
module JsonMeaning {
  import opened Collections
  import opened TextOrder
  import opened JsonText
  import opened StableJson

  /** The code units of a text of characters below U+10000. */
  function Code(c: char): Unit { if (c as int) < 0x10000 then c as int else 0 }

  function Units(s: string): (t: Text)
    ensures |t| == |s| && forall i | 0 <= i < |s| :: t[i] == Code(s[i])
  {
    if s == [] then [] else [Code(s[0])] + Units(s[1..])
  }

  // ----- reading strings

  function HexValue(u: Unit): Option<nat>
  {
    if Code('0') <= u <= Code('9') then Some(u - Code('0'))
    else if Code('a') <= u <= Code('f') then Some(10 + u - Code('a'))
    else if Code('A') <= u <= Code('F') then Some(10 + u - Code('A'))
    else None
  }

  /** What the character after a backslash stands for, but for `u`. */
  function ShortEscape(u: Unit): Option<Unit>
  {
    if u == Code('"') || u == Code('\\') || u == Code('/') then Some(u)
    else if u == Code('b') then Some(0x08)
    else if u == Code('f') then Some(0x0C)
    else if u == Code('n') then Some(0x0A)
    else if u == Code('r') then Some(0x0D)
    else if u == Code('t') then Some(0x09)
    else None
  }

  function FourHex(t: Text): Option<Unit>
    requires |t| >= 4
  {
    var a, b, c, d := HexValue(t[0]), HexValue(t[1]), HexValue(t[2]), HexValue(t[3]);
    if a.Some? && b.Some? && c.Some? && d.Some? && a.value < 16 && b.value < 16 && c.value < 16 && d.value < 16
    then Some(a.value * 4096 + b.value * 256 + c.value * 16 + d.value) else None
  }

  /** The first character of the inside of a JSON string, and the length of its spelling. */
  function ReadOne(t: Text): Option<(Unit, nat)>
    requires t != []
  {
    if t[0] == Code('"') || t[0] < 0x20 then None
    else if t[0] != Code('\\') then Some((t[0], 1))
    else if |t| >= 2 && ShortEscape(t[1]).Some? then Some((ShortEscape(t[1]).value, 2))
    else if |t| >= 6 && t[1] == Code('u') && FourHex(t[2..]).Some? then Some((FourHex(t[2..]).value, 6))
    else None
  }

  /** The text that the inside of a JSON string spells, if it is well formed. */
  function Unescape(t: Text): Option<Text>
  {
    if t == [] then Some([]) else
    var one := ReadOne(t);
    if one.None? || one.value.1 > |t| || one.value.1 == 0 then None else
    var rest := Unescape(t[one.value.1..]);
    if rest.None? then None else Some([one.value.0] + rest.value)
  }

  lemma HexReads(d: nat)
    requires d < 16
    ensures HexValue(Hex(d)) == Some(d)
  {
  }

  lemma HexDigitsRead(u: Unit, rest: Text)
    ensures FourHex(HexDigits(u) + rest) == Some(u)
  {
    HexReads(u / 16 / 16 / 16);
    HexReads(u / 16 / 16 % 16);
    HexReads(u / 16 % 16);
    HexReads(u % 16);
  }

  lemma EscapeUnitReads(u: Unit, rest: Text)
    ensures ReadOne(EscapeUnit(u) + rest) == Some((u, |EscapeUnit(u)|))
  {
    var t := EscapeUnit(u) + rest;
    if |EscapeUnit(u)| == 6 {
      HexDigitsRead(u, rest);
      assert t[2..] == HexDigits(u) + rest;
      assert t[1] == Code('u');
    } else if |EscapeUnit(u)| == 2 {
      assert t[1] == EscapeUnit(u)[1];
    }
  }

  lemma ReadsNext(u: Unit, spelling: Text, rest: Text)
    requires spelling != [] && ReadOne(spelling + rest) == Some((u, |spelling|)) && Unescape(rest).Some?
    ensures Unescape(spelling + rest) == Some([u] + Unescape(rest).value)
  {
    assert (spelling + rest)[|spelling|..] == rest;
  }

  lemma PairReads(high: Unit, low: Unit, rest: Text)
    requires IsHigh(high) && IsLow(low) && Unescape(rest).Some?
    ensures Unescape([high, low] + rest) == Some([high, low] + Unescape(rest).value)
  {
    ReadsNext(low, [low], rest);
    ReadsNext(high, [high], [low] + rest);
    assert [high, low] + rest == [high] + ([low] + rest);
    assert [high] + ([low] + Unescape(rest).value) == [high, low] + Unescape(rest).value;
  }

  lemma UnitReads(u: Unit, rest: Text)
    requires Unescape(rest).Some?
    ensures Unescape(EscapeUnit(u) + rest) == Some([u] + Unescape(rest).value)
  {
    EscapeUnitReads(u, rest);
    ReadsNext(u, EscapeUnit(u), rest);
  }

  /** A reader of JSON strings gets every string back, lone surrogates and control characters included. */
  lemma {:induction false} UnescapeEscape(s: Text)
    ensures Unescape(Escape(s)) == Some(s)
    decreases |s|
  {
    if s != [] {
      var n := CharSize(s);
      UnescapeEscape(s[n..]);
      assert s == s[..n] + s[n..];
      if n == 2 {
        PairReads(s[0], s[1], Escape(s[2..]));
        assert s[..2] == [s[0], s[1]];
      } else {
        UnitReads(s[0], Escape(s[1..]));
        assert s[..1] == [s[0]];
      }
    }
  }

  /** The short escapes; everything printable but the quote, the backslash and surrogates stands for itself. */
  lemma EscapesExact(u: Unit)
    ensures EscapeUnit(0x08) == Units("\\b") && EscapeUnit(0x09) == Units("\\t") && EscapeUnit(0x0A) == Units("\\n")
    ensures EscapeUnit(0x0C) == Units("\\f") && EscapeUnit(0x0D) == Units("\\r")
    ensures EscapeUnit(Code('"')) == Units("\\\"") && EscapeUnit(Code('\\')) == Units("\\\\")
    ensures EscapeUnit(u) == [u] <==> u >= 0x20 && u != Code('"') && u != Code('\\') && !(0xD800 <= u <= 0xDFFF)
    ensures |EscapeUnit(u)| == 6 <==> (u < 0x20 && !(0x08 <= u <= 0x0D && u != 0x0B)) || 0xD800 <= u <= 0xDFFF
  {
  }

  /** A surrogate pair is written as it is; a surrogate without its partner is escaped. */
  lemma SurrogatesExact(high: Unit, low: Unit)
    requires 0xD800 <= high <= 0xDBFF && 0xDC00 <= low <= 0xDFFF
    ensures Escape([high, low]) == [high, low]
    ensures |Escape([high])| == 6 && |Escape([low])| == 6 && |Escape([low, high])| == 12
  {
    assert [high, low][2..] == [] && [low, high][1..] == [high] && [high][1..] == [] && [low][1..] == [];
    assert Escape([high, low]) == [high, low] + Escape([]);
    assert Escape([low, high]) == EscapeUnit(low) + Escape([high]);
  }

  // ----- reading numbers

  /** The number that digits spell in base ten. */
  function ReadDigits(t: Text): int
  {
    if t == [] then 0 else ReadDigits(t[..|t| - 1]) * 10 + (t[|t| - 1] - Code('0'))
  }

  function ReadDecimal(t: Text): int
  {
    if t != [] && t[0] == Code('-') then -ReadDigits(t[1..]) else ReadDigits(t)
  }

  lemma {:induction false} DigitsRead(n: nat)
    ensures ReadDigits(Digits(n)) == n
    ensures Digits(n)[0] == Code('0') <==> n == 0
  {
    var t := Digits(n);
    if n < 10 {
      assert t[..0] == [];
    } else {
      DigitsRead(n / 10);
      assert t[..|t| - 1] == Digits(n / 10);
    }
  }

  /** An integer's digits spell it, without a leading zero. */
  lemma DecimalReads(n: int)
    ensures ReadDecimal(Decimal(n)) == n
    ensures Decimal(n)[0] == Code('0') <==> n == 0
  {
    DigitsRead(if n < 0 then -n else n);
    if n < 0 {
      assert Decimal(n)[1..] == Digits(-n);
    }
  }

  // ----- what is written

  lemma NullExact()
    ensures Serialize(Null) == Units("null")
  {
  }

  lemma BoolExact(b: bool)
    ensures Serialize(Bool(b)) == if b then Units("true") else Units("false")
  {
  }

  /** Numbers and strings are written as they are spelled. */
  lemma ScalarsExact(n: int, literal: Text, s: Text)
    ensures Serialize(Int(n)) == Decimal(n) && Serialize(Dec(literal)) == literal
    ensures Serialize(Str(s)) == Units("\"") + (Escape(s) + Units("\""))
  {
    assert Units("\"") == [QUOTE];
  }

  function WithCommas(parts: seq<Text>): Text
  {
    if parts == [] then []
    else if |parts| == 1 then parts[0]
    else parts[0] + (Units(",") + WithCommas(parts[1..]))
  }

  lemma {:induction false} JoinIsWithCommas(parts: seq<Text>, i: nat)
    requires i <= |parts|
    ensures JoinFrom(parts, i) == WithCommas(parts[i..])
    decreases |parts| - i
  {
    if i < |parts| {
      JoinIsWithCommas(parts, i + 1);
      assert parts[i..][1..] == parts[i + 1..];
    }
  }

  function SerializedItems(items: seq<Json>): seq<Text> { Map(Serialize, items) }

  /** An array is its items in order, between brackets and with commas. */
  lemma ArrayExact(items: seq<Json>)
    ensures Serialize(Arr(items)) == Units("[") + (WithCommas(SerializedItems(items)) + Units("]"))
  {
    var parts := seq(|items|, i requires 0 <= i < |items| => Serialize(items[i]));
    assert parts == SerializedItems(items);
    JoinIsWithCommas(parts, 0);
    assert parts[0..] == parts;
  }

  function SerializedField(f: (Text, Json)): (Text, Text) { (f.0, Serialize(f.1)) }

  /** A field is its key, a colon and its value. */
  function FieldText(f: (Text, Json)): Text { Units("\"") + (Escape(f.0) + Units("\"")) + (Units(":") + Serialize(f.1)) }

  lemma FieldIsEntry(f: (Text, Json))
    ensures Entry(SerializedField(f)) == FieldText(f)
  {
  }

  /** Fields in key order: a permutation whose keys ascend by code unit. */
  ghost predicate InKeyOrder(sorted: seq<(Text, Json)>, fields: seq<(Text, Json)>)
  {
    && multiset(sorted) == multiset(fields)
    && forall i, j | 0 <= i < j < |sorted| :: Le(sorted[i].0, sorted[j].0)
  }

  /** An object is its fields in key order, between braces and with commas. */
  lemma ObjectExact(fields: seq<(Text, Json)>) returns (sorted: seq<(Text, Json)>)
    ensures InKeyOrder(sorted, fields)
    ensures Serialize(Obj(fields)) == Units("{") + (WithCommas(Map(FieldText, sorted)) + Units("}"))
  {
    sorted := Sort(ByKey(), fields);
    SortedInOrder(fields);
    var entries := seq(|fields|, i requires 0 <= i < |fields| => (fields[i].0, Serialize(fields[i].1)));
    assert entries == Map(SerializedField, fields);
    SortMap(ByKey<Json>(), ByKey<Text>(), SerializedField, fields);
    FieldsAreEntries(sorted);
    JoinIsWithCommas(Map(FieldText, sorted), 0);
    assert Map(FieldText, sorted)[0..] == Map(FieldText, sorted);
  }

  lemma SortedInOrder(fields: seq<(Text, Json)>)
    ensures InKeyOrder(Sort(ByKey(), fields), fields)
  {
    ByKeyIsPreorder<Json>();
    SortSorted(ByKey<Json>(), fields);
    SortMultiset(ByKey<Json>(), fields);
    var sorted := Sort(ByKey(), fields);
    forall i, j | 0 <= i < j < |sorted| ensures Le(sorted[i].0, sorted[j].0) {
      assert ByKey<Json>()(sorted[i], sorted[j]);
    }
  }

  lemma FieldsAreEntries(fields: seq<(Text, Json)>)
    ensures Map(Entry, Map(SerializedField, fields)) == Map(FieldText, fields)
  {
    forall i | 0 <= i < |fields| ensures Map(Entry, Map(SerializedField, fields))[i] == Map(FieldText, fields)[i] {
      FieldIsEntry(fields[i]);
    }
  }
}
