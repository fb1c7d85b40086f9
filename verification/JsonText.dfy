/**
 * The texts `stableJson` of src/util.mjs writes, and why they read back one way only: strings,
 * numbers, and lists of texts between brackets.
 *
 * Strings are sequences of UTF-16 code units, escaped as section 7 of RFC 8259 requires and as
 * `JSON.stringify` does it (short escapes, `\u` for other controls and for lone surrogates).
 */
module JsonText {
  import opened Collections
  import opened TextOrder

  const QUOTE: Unit := 0x22
  const BACKSLASH: Unit := 0x5C
  const COMMA: Unit := 0x2C
  const COLON: Unit := 0x3A
  const LBRACKET: Unit := 0x5B
  const RBRACKET: Unit := 0x5D
  const LBRACE: Unit := 0x7B
  const RBRACE: Unit := 0x7D

  predicate IsNumeric(u: Unit)
  {
    0x30 <= u <= 0x39 || u == 0x2B || u == 0x2D || u == 0x2E || u == 0x65
  }

  const POINT: Unit := 0x2E
  const EXPONENT: Unit := 0x65
  const MINUS: Unit := 0x2D

  // ----- strings

  predicate IsHigh(u: Unit) { 0xD800 <= u < 0xDC00 }
  predicate IsLow(u: Unit) { 0xDC00 <= u < 0xE000 }

  function Hex(d: nat): Unit
    requires d < 16
  {
    if d < 10 then 0x30 + d else 0x57 + d
  }

  function HexDigits(u: Unit): Text
  {
    [Hex(u / 16 / 16 / 16), Hex(u / 16 / 16 % 16), Hex(u / 16 % 16), Hex(u % 16)]
  }

  function EscapeUnit(u: Unit): Text
  {
    if u == QUOTE || u == BACKSLASH then [BACKSLASH, u]
    else if u == 0x08 then [BACKSLASH, 0x62]
    else if u == 0x09 then [BACKSLASH, 0x74]
    else if u == 0x0A then [BACKSLASH, 0x6E]
    else if u == 0x0C then [BACKSLASH, 0x66]
    else if u == 0x0D then [BACKSLASH, 0x72]
    else if u < 0x20 || IsHigh(u) || IsLow(u) then
      [BACKSLASH, 0x75] + HexDigits(u)
    else [u]
  }

  /** A surrogate pair is one character; anything else is taken unit by unit. */
  function CharSize(s: Text): (n: nat)
    requires s != []
    ensures 1 <= n <= 2 && n <= |s|
  {
    if |s| >= 2 && IsHigh(s[0]) && IsLow(s[1]) then 2 else 1
  }

  function EscapeChar(s: Text): (r: Text)
    requires s != []
    ensures r != []
  {
    if CharSize(s) == 2 then [s[0], s[1]] else EscapeUnit(s[0])
  }

  function Escape(s: Text): Text
  {
    if s == [] then [] else EscapeChar(s) + Escape(s[CharSize(s)..])
  }

  function Quoted(s: Text): Text { [QUOTE] + (Escape(s) + [QUOTE]) }

  // ----- numbers

  function Digits(n: nat): (r: Text)
    ensures r != [] && (|r| == 1 <==> n < 10) && forall i | 0 <= i < |r| :: 0x30 <= r[i] <= 0x39
  {
    if n < 10 then [0x30 + n] else Digits(n / 10) + [0x30 + n % 10]
  }

  function Decimal(n: int): Text { if n < 0 then [MINUS] + Digits(-n) else Digits(n) }

  // ----- lists of texts

  function Join(parts: seq<Text>): Text
  {
    JoinFrom(parts, 0)
  }

  /** The parts from `i` on, separated by commas. */
  function JoinFrom(parts: seq<Text>, i: nat): Text
    requires i <= |parts|
    decreases |parts| - i
  {
    if i == |parts| then [] else if i + 1 == |parts| then parts[i] else parts[i] + ([COMMA] + JoinFrom(parts, i + 1))
  }

  function Bracket(open: Unit, parts: seq<Text>, close: Unit): Text { [open] + (Join(parts) + [close]) }

  function Entry(e: (Text, Text)): Text { Quoted(e.0) + ([COLON] + e.1) }

  // ----- strings read back one way only

  lemma HexInjective(a: nat, b: nat)
    requires a < 16 && b < 16 && Hex(a) == Hex(b)
    ensures a == b
  {
  }

  lemma SameQuotient(x: nat, y: nat)
    requires x / 16 == y / 16 && x % 16 == y % 16
    ensures x == y
  {
  }

  lemma HexDigitsInjective(u: Unit, w: Unit)
    requires HexDigits(u) == HexDigits(w)
    ensures u == w
  {
    var x, y := HexDigits(u), HexDigits(w);
    assert x[0] == y[0] && x[1] == y[1] && x[2] == y[2] && x[3] == y[3];
    HexInjective(u / 16 / 16 / 16, w / 16 / 16 / 16);
    HexInjective(u / 16 / 16 % 16, w / 16 / 16 % 16);
    HexInjective(u / 16 % 16, w / 16 % 16);
    HexInjective(u % 16, w % 16);
    SameQuotient(u / 16 / 16, w / 16 / 16);
    SameQuotient(u / 16, w / 16);
    SameQuotient(u, w);
  }

  lemma EscapeUnitDetermined(text: Text, p: nat, u: Unit, w: Unit)
    requires Occurs(text, p, EscapeUnit(u)) && Occurs(text, p, EscapeUnit(w))
    ensures u == w
  {
    var e, f := EscapeUnit(u), EscapeUnit(w);
    assert text[p + 0] == e[0] == f[0];
    if e[0] == BACKSLASH {
      assert text[p + 1] == e[1] == f[1];
      if e[1] == 0x75 {
        OccursPart(text, p, e, 2, HexDigits(u));
        OccursPart(text, p, f, 2, HexDigits(w));
        OccurOnce(text, p + 2, HexDigits(u), HexDigits(w));
        HexDigitsInjective(u, w);
      }
    }
  }

  lemma OccurOnce(text: Text, p: nat, x: Text, y: Text)
    requires |x| == |y| && Occurs(text, p, x) && Occurs(text, p, y)
    ensures x == y
  {
    forall i | 0 <= i < |x| ensures x[i] == y[i] {
      assert text[p + i] == x[i];
    }
  }

  lemma EscapeCharDetermined(text: Text, p: nat, s: Text, t: Text)
    requires s != [] && t != []
    requires Occurs(text, p, EscapeChar(s)) && Occurs(text, p, EscapeChar(t))
    ensures CharSize(s) == CharSize(t) && s[..CharSize(s)] == t[..CharSize(t)] && EscapeChar(s) == EscapeChar(t)
  {
    assert text[p + 0] == EscapeChar(s)[0] == EscapeChar(t)[0];
    if CharSize(s) == 2 || CharSize(t) == 2 {
      assert text[p + 1] == EscapeChar(s)[1] == EscapeChar(t)[1];
    } else {
      EscapeUnitDetermined(text, p, s[0], t[0]);
    }
  }

  lemma {:induction false} EscapedDetermined(text: Text, p: nat, s: Text, t: Text)
    requires Occurs(text, p, Escape(s) + [QUOTE]) && Occurs(text, p, Escape(t) + [QUOTE])
    ensures s == t
    decreases |s|
  {
    EscapedEnds(text, p, s);
    EscapedEnds(text, p, t);
    if s != [] {
      EscapeSplits(text, p, s);
      EscapeSplits(text, p, t);
      EscapeCharDetermined(text, p, s, t);
      var n := CharSize(s);
      EscapedDetermined(text, p + |EscapeChar(s)|, s[n..], t[n..]);
      Halves(s, t, n);
    }
  }

  lemma EscapedEnds(text: Text, p: nat, s: Text)
    requires Occurs(text, p, Escape(s) + [QUOTE])
    ensures p < |text| && (s == [] <==> text[p] == QUOTE)
  {
    var e := Escape(s) + [QUOTE];
    assert text[p + 0] == e[0];
    if s != [] {
      assert e[0] == EscapeChar(s)[0];
    }
  }

  lemma Halves(s: Text, t: Text, n: nat)
    requires n <= |s| && n <= |t| && s[..n] == t[..n] && s[n..] == t[n..]
    ensures s == t
  {
    assert s == s[..n] + s[n..] && t == t[..n] + t[n..];
  }

  lemma EscapeSplits(text: Text, p: nat, s: Text)
    requires s != [] && Occurs(text, p, Escape(s) + [QUOTE])
    ensures Occurs(text, p, EscapeChar(s)) && Occurs(text, p + |EscapeChar(s)|, Escape(s[CharSize(s)..]) + [QUOTE])
  {
    var head, tail := EscapeChar(s), Escape(s[CharSize(s)..]);
    assert (head + tail) + [QUOTE] == head + (tail + [QUOTE]);
    OccursConcat(text, p, head, tail + [QUOTE]);
  }

  lemma QuotedDetermined(text: Text, p: nat, s: Text, t: Text)
    requires Occurs(text, p, Quoted(s)) && Occurs(text, p, Quoted(t))
    ensures s == t
  {
    OccursConcat(text, p, [QUOTE], Escape(s) + [QUOTE]);
    OccursConcat(text, p, [QUOTE], Escape(t) + [QUOTE]);
    EscapedDetermined(text, p + 1, s, t);
  }

  // ----- texts that end themselves

  predicate IsDelimiter(u: Unit) { u == COMMA || u == RBRACKET || u == RBRACE }

  predicate DelimitedAt(text: Text, i: nat)
  {
    i < |text| ==> IsDelimiter(text[i])
  }

  /** Two texts at one place, each up to a delimiter, are the same text. */
  ghost predicate SelfDelimiting(x: Text, y: Text)
  {
    forall text: Text, p: nat | Occurs(text, p, x) && Occurs(text, p, y) && DelimitedAt(text, p + |x|) && DelimitedAt(text, p + |y|) :: x == y
  }

  lemma NumberGoesOn(text: Text, p: nat, m: Text, n: nat)
    requires Occurs(text, p, m) && n < |m| && forall i | 0 <= i < |m| :: IsNumeric(m[i])
    ensures !DelimitedAt(text, p + n)
  {
    assert text[p + n] == m[n];
  }

  lemma NumbersDelimit(l: Text, m: Text)
    requires forall i | 0 <= i < |l| :: IsNumeric(l[i])
    requires forall i | 0 <= i < |m| :: IsNumeric(m[i])
    ensures SelfDelimiting(l, m)
  {
    forall text: Text, p: nat | Occurs(text, p, l) && Occurs(text, p, m) && DelimitedAt(text, p + |l|) && DelimitedAt(text, p + |m|) ensures l == m {
      if |l| < |m| {
        NumberGoesOn(text, p, m, |l|);
      } else if |m| < |l| {
        NumberGoesOn(text, p, l, |m|);
      }
      OccurOnce(text, p, l, m);
    }
  }

  lemma {:induction false} DigitsInjective(a: nat, b: nat)
    requires Digits(a) == Digits(b)
    ensures a == b
  {
    var x, y := Digits(a), Digits(b);
    if a >= 10 && b >= 10 {
      assert x[..|x| - 1] == Digits(a / 10) && y[..|y| - 1] == Digits(b / 10);
      assert x[|x| - 1] == 0x30 + a % 10 && y[|y| - 1] == 0x30 + b % 10;
      DigitsInjective(a / 10, b / 10);
    } else if a < 10 && b < 10 {
      assert x[0] == y[0];
    }
  }

  /** An integer's digits determine it and hold neither a point nor an exponent. */
  lemma DecimalDetermines(a: int, b: int)
    ensures Decimal(a) == Decimal(b) ==> a == b
    ensures POINT !in Decimal(a) && EXPONENT !in Decimal(a)
    ensures forall i | 0 <= i < |Decimal(a)| :: IsNumeric(Decimal(a)[i])
  {
    var x, y := if a < 0 then -a else a, if b < 0 then -b else b;
    if Decimal(a) == Decimal(b) {
      assert Decimal(a)[0] == Decimal(b)[0];
      assert a < 0 <==> b < 0;
      if a < 0 {
        assert Decimal(a)[1..] == Digits(x) && Decimal(b)[1..] == Digits(y);
      }
      DigitsInjective(x, y);
    }
  }

  lemma StringsDelimit(s: Text, t: Text)
    ensures SelfDelimiting(Quoted(s), Quoted(t)) && (Quoted(s) == Quoted(t) ==> s == t)
  {
    forall text: Text, p: nat | Occurs(text, p, Quoted(s)) && Occurs(text, p, Quoted(t)) ensures s == t {
      QuotedDetermined(text, p, s, t);
    }
    assert Occurs(Quoted(s), 0, Quoted(s));
  }

  lemma OccursUnit(text: Text, p: nat, u: Unit)
    requires Occurs(text, p, [u])
    ensures p < |text| && text[p] == u
  {
    assert text[p + 0] == [u][0];
  }

  /** A part that something follows, and what follows it. */
  lemma PartFollowed(text: Text, p: nat, part: Text, u: Unit, rest: Text)
    requires Occurs(text, p, part + ([u] + rest))
    ensures Occurs(text, p, part) && p + |part| < |text| && text[p + |part|] == u && Occurs(text, p + |part| + 1, rest)
  {
    OccursConcat(text, p, part, [u] + rest);
    OccursConcat(text, p + |part|, [u], rest);
    OccursUnit(text, p + |part|, u);
  }

  lemma Regroup(a: Text, b: Text, c: Text, d: Text)
    ensures a + (b + c) + d == a + (b + (c + d))
  {
  }

  /** Where part `i` and what follows it stand. */
  lemma JoinSplits(text: Text, p: nat, parts: seq<Text>, i: nat, close: Unit)
    requires i < |parts| && Occurs(text, p, JoinFrom(parts, i) + [close])
    ensures Occurs(text, p, parts[i]) && p + |parts[i]| < |text|
    ensures i + 1 == |parts| ==> text[p + |parts[i]|] == close
    ensures i + 1 < |parts| ==> text[p + |parts[i]|] == COMMA && Occurs(text, p + |parts[i]| + 1, JoinFrom(parts, i + 1) + [close])
  {
    if i + 1 == |parts| {
      assert [close] == [close] + [];
      PartFollowed(text, p, parts[i], close, []);
    } else {
      Regroup(parts[i], [COMMA], JoinFrom(parts, i + 1), [close]);
      PartFollowed(text, p, parts[i], COMMA, JoinFrom(parts, i + 1) + [close]);
    }
  }

  lemma NoPart(text: Text, p: nat, parts: seq<Text>, close: Unit)
    requires parts == [] && Occurs(text, p, JoinFrom(parts, 0) + [close])
    ensures p < |text| && text[p] == close
  {
    assert text[p + 0] == (JoinFrom(parts, 0) + [close])[0];
  }

  lemma EmptyOrNot(text: Text, p: nat, xs: seq<Text>, ys: seq<Text>, close: Unit)
    requires xs == [] && ys != [] && IsDelimiter(close)
    requires Occurs(text, p, JoinFrom(xs, 0) + [close]) && Occurs(text, p, JoinFrom(ys, 0) + [close])
    ensures ys[0] == [] || IsDelimiter(ys[0][0])
  {
    NoPart(text, p, xs, close);
    JoinSplits(text, p, ys, 0, close);
    if ys[0] != [] {
      assert text[p + 0] == ys[0][0];
    }
  }

  /** Parts that can be told apart: each starts with no delimiter and delimits itself. */
  ghost predicate Separable(xs: seq<Text>, ys: seq<Text>)
  {
    && (forall k | 0 <= k < |xs| :: xs[k] != [] && !IsDelimiter(xs[k][0]))
    && (forall k | 0 <= k < |ys| :: ys[k] != [] && !IsDelimiter(ys[k][0]))
    && (forall k | 0 <= k < |xs| && k < |ys| :: SelfDelimiting(xs[k], ys[k]))
  }

  /** A joined list of such parts reads back one way only. */
  lemma {:induction false} PartsDetermined(text: Text, p: nat, xs: seq<Text>, ys: seq<Text>, i: nat, close: Unit)
    requires Separable(xs, ys) && IsDelimiter(close) && close != COMMA
    requires i <= |xs| && i <= |ys| && (i > 0 ==> i < |xs| && i < |ys|)
    requires Occurs(text, p, JoinFrom(xs, i) + [close]) && Occurs(text, p, JoinFrom(ys, i) + [close])
    ensures |xs| == |ys| && forall k | i <= k < |xs| :: xs[k] == ys[k]
    decreases |xs| - i
  {
    if i == |xs| || i == |ys| {
      if xs == [] && ys != [] { EmptyOrNot(text, p, xs, ys, close); }
      if ys == [] && xs != [] { EmptyOrNot(text, p, ys, xs, close); }
    } else {
      PartDetermined(text, p, xs, ys, i, close);
      if i + 1 < |xs| {
        PartsDetermined(text, p + |xs[i]| + 1, xs, ys, i + 1, close);
      }
    }
  }

  /** A part is followed by a comma and the other parts, or by the closing unit, according to whether it is the last. */
  lemma PartEnds(text: Text, p: nat, parts: seq<Text>, i: nat, close: Unit)
    requires i < |parts| && Occurs(text, p, JoinFrom(parts, i) + [close]) && IsDelimiter(close) && close != COMMA
    ensures Occurs(text, p, parts[i]) && DelimitedAt(text, p + |parts[i]|)
    ensures p + |parts[i]| < |text| && (text[p + |parts[i]|] == COMMA <==> i + 1 < |parts|)
    ensures i + 1 < |parts| ==> Occurs(text, p + |parts[i]| + 1, JoinFrom(parts, i + 1) + [close])
  {
    JoinSplits(text, p, parts, i, close);
  }

  lemma SameText(text: Text, p: nat, x: Text, y: Text)
    requires SelfDelimiting(x, y) && Occurs(text, p, x) && Occurs(text, p, y)
    requires DelimitedAt(text, p + |x|) && DelimitedAt(text, p + |y|)
    ensures x == y
  {
  }

  lemma PartDetermined(text: Text, p: nat, xs: seq<Text>, ys: seq<Text>, i: nat, close: Unit)
    requires i < |xs| && i < |ys| && SelfDelimiting(xs[i], ys[i]) && IsDelimiter(close) && close != COMMA
    requires Occurs(text, p, JoinFrom(xs, i) + [close]) && Occurs(text, p, JoinFrom(ys, i) + [close])
    ensures xs[i] == ys[i] && (i + 1 < |xs| <==> i + 1 < |ys|)
    ensures i + 1 < |xs| ==> Occurs(text, p + |xs[i]| + 1, JoinFrom(xs, i + 1) + [close])
    ensures i + 1 < |xs| ==> Occurs(text, p + |xs[i]| + 1, JoinFrom(ys, i + 1) + [close])
  {
    PartEnds(text, p, xs, i, close);
    PartEnds(text, p, ys, i, close);
    SameText(text, p, xs[i], ys[i]);
  }

  lemma BracketsDelimit(open: Unit, xs: seq<Text>, ys: seq<Text>, close: Unit)
    requires Separable(xs, ys) && IsDelimiter(close) && close != COMMA
    ensures SelfDelimiting(Bracket(open, xs, close), Bracket(open, ys, close))
    ensures Bracket(open, xs, close) == Bracket(open, ys, close) ==> xs == ys
  {
    var a, b := Bracket(open, xs, close), Bracket(open, ys, close);
    forall text: Text, p: nat | Occurs(text, p, a) && Occurs(text, p, b) ensures xs == ys {
      OccursConcat(text, p, [open], Join(xs) + [close]);
      OccursConcat(text, p, [open], Join(ys) + [close]);
      PartsDetermined(text, p + 1, xs, ys, 0, close);
    }
    assert Occurs(a, 0, a);
  }

  lemma EntriesDelimit(k: Text, x: Text, l: Text, y: Text)
    requires SelfDelimiting(x, y)
    ensures SelfDelimiting(Entry((k, x)), Entry((l, y)))
    ensures Entry((k, x)) == Entry((l, y)) ==> k == l && x == y
  {
    var e, f := Entry((k, x)), Entry((l, y));
    forall text: Text, p: nat | Occurs(text, p, e) && Occurs(text, p, f) ensures k == l {
      OccursConcat(text, p, Quoted(k), [COLON] + x);
      OccursConcat(text, p, Quoted(l), [COLON] + y);
      QuotedDetermined(text, p, k, l);
    }
    forall text: Text, p: nat | Occurs(text, p, e) && Occurs(text, p, f) && DelimitedAt(text, p + |e|) && DelimitedAt(text, p + |f|) ensures x == y {
      EntrySplits(text, p, k, x);
      EntrySplits(text, p, l, y);
    }
    assert Occurs(e, 0, e);
  }

  lemma EntrySplits(text: Text, p: nat, k: Text, x: Text)
    requires Occurs(text, p, Entry((k, x)))
    ensures Occurs(text, p + |Quoted(k)| + 1, x) && |Entry((k, x))| == |Quoted(k)| + 1 + |x|
  {
    OccursConcat(text, p, Quoted(k), [COLON] + x);
    OccursConcat(text, p + |Quoted(k)|, [COLON], x);
  }
}
