/**
 * The byte-bounded truncators of src/util.mjs: `boundedUtf8` scans the encoded bytes backwards,
 * `boundedText` adds code points greedily, `tailText` scans forwards from a cut.
 *
 * A text is the sequence of code points that iterating over it yields, so a lone surrogate may
 * occur; encoding replaces it by U+FFFD.  The byte layout is that of section 3 of RFC 3629.
 */
module Utf8Truncation {
  import opened Collections

  type CodePoint = c: int | 0 <= c <= 0x10FFFF
  type Byte = b: int | 0 <= b < 256
  type Text = seq<CodePoint>
  type Bytes = seq<Byte>

  const REPLACEMENT: CodePoint := 0xFFFD
  const ELLIPSIS: CodePoint := 0x2026

  predicate IsSurrogate(c: CodePoint) { 0xD800 <= c <= 0xDFFF }

  function ScrubOne(c: CodePoint): CodePoint { if IsSurrogate(c) then REPLACEMENT else c }

  /** A text with every lone surrogate replaced, as an encoder sees it. */
  function Scrub(t: Text): Text { Map(ScrubOne, t) }

  function Width(c: CodePoint): (w: nat)
    ensures 1 <= w <= 4
  {
    if c < 0x80 then 1 else if c < 0x800 then 2 else if c < 0x10000 then 3 else 4
  }

  function ByteLength(t: Text): nat
  {
    if t == [] then 0 else Width(t[0]) + ByteLength(t[1..])
  }

  function EncodeScalar(c: CodePoint): (r: Bytes)
    ensures |r| == Width(c)
  {
    if c < 0x80 then [c]
    else if c < 0x800 then [0xC0 + c / 0x40, 0x80 + c % 0x40]
    else if c < 0x10000 then [0xE0 + c / 0x1000, 0x80 + c / 0x40 % 0x40, 0x80 + c % 0x40]
    else [0xF0 + c / 0x40000, 0x80 + c / 0x1000 % 0x40, 0x80 + c / 0x40 % 0x40, 0x80 + c % 0x40]
  }

  function Encode(t: Text): Bytes
  {
    if t == [] then [] else EncodeScalar(ScrubOne(t[0])) + Encode(t[1..])
  }

  /** A byte whose two top bits are 10. */
  predicate IsContinuation(b: Byte) { 0x80 <= b < 0xC0 }

  /** The number a lead byte and its followers spell, whether or not they are well formed. */
  function Spelled(b: Bytes): int
    requires b != []
  {
    var a := b[0] as int;
    if a < 0xC0 || |b| < 2 then a else
    var b1 := b[1] as int - 0x80;
    if a < 0xE0 || |b| < 3 then (a - 0xC0) * 0x40 + b1 else
    var b2 := b[2] as int - 0x80;
    if a < 0xF0 || |b| < 4 then (a - 0xE0) * 0x1000 + b1 * 0x40 + b2 else
    var b3 := b[3] as int - 0x80;
    (a - 0xF0) * 0x40000 + b1 * 0x1000 + b2 * 0x40 + b3
  }

  /** Whether bytes start with the one shortest encoding of a scalar value. */
  predicate StartsWellFormed(b: Bytes)
  {
    && b != []
    && 0 <= Spelled(b) <= 0x10FFFF
    && !IsSurrogate(Spelled(b))
    && EncodeScalar(Spelled(b)) <= b
  }

  /** Decoding; a byte that starts no well-formed sequence reads as U+FFFD. */
  function Decode(b: Bytes): Text
    decreases |b|
  {
    if b == [] then []
    else if StartsWellFormed(b) then [Spelled(b)] + Decode(b[Width(Spelled(b))..])
    else [REPLACEMENT] + Decode(b[1..])
  }

  // ----- encoding and decoding

  lemma Sixty(c: CodePoint)
    ensures c / 0x40 == c / 0x1000 * 0x40 + c / 0x40 % 0x40
    ensures c / 0x1000 == c / 0x40000 * 0x40 + c / 0x1000 % 0x40
  {
  }

  lemma SpelledShort(c: CodePoint, rest: Bytes)
    requires c < 0x800
    ensures Spelled(EncodeScalar(c) + rest) == c
  {
    var b := EncodeScalar(c) + rest;
    assert b[0] == EncodeScalar(c)[0];
    if c >= 0x80 {
      assert b[1] == EncodeScalar(c)[1];
    }
  }

  lemma SpelledThree(c: CodePoint, rest: Bytes)
    requires 0x800 <= c < 0x10000
    ensures Spelled(EncodeScalar(c) + rest) == c
  {
    var e := EncodeScalar(c);
    var b := e + rest;
    assert b[0] == e[0] && b[1] == e[1] && b[2] == e[2];
    Sixty(c);
  }

  lemma SpelledFour(c: CodePoint, rest: Bytes)
    requires 0x10000 <= c
    ensures Spelled(EncodeScalar(c) + rest) == c
  {
    var e := EncodeScalar(c);
    var b := e + rest;
    assert b[0] == e[0] && b[1] == e[1] && b[2] == e[2] && b[3] == e[3];
    Sixty(c);
  }

  lemma SpelledEncoding(c: CodePoint, rest: Bytes)
    ensures Spelled(EncodeScalar(c) + rest) == c
  {
    if c < 0x800 {
      SpelledShort(c, rest);
    } else if c < 0x10000 {
      SpelledThree(c, rest);
    } else {
      SpelledFour(c, rest);
    }
  }

  lemma {:induction false} DecodeEncode(t: Text)
    ensures Decode(Encode(t)) == Scrub(t)
  {
    if t != [] {
      var c := ScrubOne(t[0]);
      var b := Encode(t);
      SpelledEncoding(c, Encode(t[1..]));
      assert EncodeScalar(c) <= b && b[Width(c)..] == Encode(t[1..]);
      DecodeEncode(t[1..]);
      assert Scrub(t) == [c] + Scrub(t[1..]);
    }
  }

  lemma Associate(a: Bytes, b: Bytes, c: Bytes)
    ensures a + (b + c) == a + b + c
  {
  }

  lemma {:induction false} EncodeAppend(s: Text, t: Text)
    ensures Encode(s + t) == Encode(s) + Encode(t)
    ensures ByteLength(s + t) == ByteLength(s) + ByteLength(t)
  {
    if s == [] {
      assert s + t == t;
    } else {
      EncodeAppend(s[1..], t);
      assert (s + t)[1..] == s[1..] + t && (s + t)[0] == s[0];
      Associate(EncodeScalar(ScrubOne(s[0])), Encode(s[1..]), Encode(t));
    }
  }

  lemma {:induction false} EncodeLength(t: Text)
    ensures |Encode(t)| == ByteLength(t)
  {
    if t != [] {
      EncodeLength(t[1..]);
    }
  }

  lemma {:induction false} ScrubKeepsBytes(t: Text)
    ensures Encode(Scrub(t)) == Encode(t) && ByteLength(Scrub(t)) == ByteLength(t)
  {
    if t != [] {
      ScrubKeepsBytes(t[1..]);
      assert Scrub(t)[1..] == Scrub(t[1..]);
    }
  }

  // ----- code point boundaries

  /** The byte position at which code point `k` starts. */
  function Offset(t: Text, k: nat): nat
    requires k <= |t|
  {
    ByteLength(t[..k])
  }

  lemma OffsetSplits(t: Text, k: nat)
    requires k <= |t|
    ensures Offset(t, k) + ByteLength(t[k..]) == ByteLength(t) == |Encode(t)|
    ensures Encode(t)[..Offset(t, k)] == Encode(t[..k])
    ensures Encode(t)[Offset(t, k)..] == Encode(t[k..])
  {
    assert t == t[..k] + t[k..];
    EncodeAppend(t[..k], t[k..]);
    EncodeLength(t);
    EncodeLength(t[..k]);
  }

  lemma OffsetIncreases(t: Text, j: nat, k: nat)
    requires j < k <= |t|
    ensures Offset(t, j) < Offset(t, k)
  {
    assert t[..k] == t[..j] + t[j..k];
    EncodeAppend(t[..j], t[j..k]);
  }

  lemma BoundaryIsLead(t: Text, k: nat)
    requires k < |t|
    ensures Offset(t, k) < |Encode(t)| && !IsContinuation(Encode(t)[Offset(t, k)])
  {
    OffsetSplits(t, k);
    EncodeLength(t[k..]);
    assert Encode(t)[Offset(t, k)] == Encode(t[k..])[0] == EncodeScalar(ScrubOne(t[k]))[0];
  }

  /** Every byte that is no continuation starts a code point. */
  lemma {:induction false} LeadIsBoundary(t: Text, i: nat) returns (k: nat)
    requires i < |Encode(t)| && !IsContinuation(Encode(t)[i])
    ensures k < |t| && Offset(t, k) == i
  {
    var w := Width(t[0]);
    if i < w {
      assert i == 0;
      k := 0;
    } else {
      assert Encode(t)[i] == Encode(t[1..])[i - w];
      var j := LeadIsBoundary(t[1..], i - w);
      k := j + 1;
      assert t[..k][1..] == t[1..][..j];
    }
  }

  // ----- the specification: longest prefixes and suffixes that fit

  /** How many leading code points fit in `limit` bytes. */
  function Fit(t: Text, limit: int): (k: nat)
    ensures k <= |t|
  {
    if t == [] || Width(t[0]) > limit then 0 else 1 + Fit(t[1..], limit - Width(t[0]))
  }

  /** `Fit` is exact: a prefix fits if and only if it is no longer. */
  lemma {:induction false} FitIsLongest(t: Text, limit: int, k: nat)
    requires limit >= 0 && k <= |t|
    ensures k <= Fit(t, limit) <==> Offset(t, k) <= limit
  {
    if k > 0 {
      assert t[..k][1..] == t[1..][..k - 1];
      if Width(t[0]) <= limit {
        FitIsLongest(t[1..], limit - Width(t[0]), k - 1);
      }
    }
  }

  function Bounded(t: Text, maxBytes: int): Text
  {
    if ByteLength(t) <= maxBytes then t else t[..Fit(t, maxBytes - 3)] + [ELLIPSIS]
  }

  /** What `boundedUtf8` returns. */
  function Utf8Bounded(t: Text, maxBytes: int): Text
  {
    Scrub(Bounded(t, maxBytes))
  }

  /** What `boundedText` returns. */
  function TextBounded(t: Text, maxBytes: int): Text
  {
    if maxBytes <= 0 then [ELLIPSIS] else Bounded(t, maxBytes)
  }

  /** The first code point of the longest suffix of at most `limit` bytes. */
  function TailStart(t: Text, limit: int): (k: nat)
    ensures k <= |t|
  {
    if t == [] || ByteLength(t) <= limit then 0 else 1 + TailStart(t[1..], limit)
  }

  // ----- the code

  lemma CutIsLongest(t: Text, limit: nat, end: nat)
    requires Offset(t, Fit(t, limit)) <= end <= limit
    requires end == 0 || (end < |Encode(t)| && !IsContinuation(Encode(t)[end]))
    ensures end == Offset(t, Fit(t, limit))
  {
    if end > 0 {
      var j := LeadIsBoundary(t, end);
      FitIsLongest(t, limit, j);
      if j < Fit(t, limit) {
        OffsetIncreases(t, j, Fit(t, limit));
      }
    }
  }

  lemma FitNothing(t: Text, limit: int)
    requires limit <= 0
    ensures Fit(t, limit) == 0
  {
  }

  lemma DecodePrefix(t: Text, k: nat)
    requires k <= |t|
    ensures Offset(t, k) <= |Encode(t)| && Decode(Encode(t)[..Offset(t, k)]) == Scrub(t[..k])
  {
    OffsetSplits(t, k);
    DecodeEncode(t[..k]);
  }

  method BoundedUtf8(value: Text, maxBytes: int) returns (r: Text)
    ensures r == Utf8Bounded(value, maxBytes)
  {
    var bytes := Encode(value);
    EncodeLength(value);
    if |bytes| <= maxBytes {
      DecodeEncode(value);
      return Decode(bytes);
    }
    var end := if maxBytes - 3 > 0 then maxBytes - 3 else 0;
    ghost var limit, k := end, Fit(value, end);
    FitIsLongest(value, limit, k);
    while end > 0 && IsContinuation(bytes[end])
      invariant Offset(value, k) <= end <= limit
      invariant end == 0 || end < |bytes|
    {
      assert end != Offset(value, k) by {
        OffsetSplits(value, k);
        if k < |value| {
          BoundaryIsLead(value, k);
        }
      }
      end := end - 1;
    }
    CutIsLongest(value, limit, end);
    DecodePrefix(value, k);
    r := Decode(bytes[..end]) + [ELLIPSIS];
    FitNothing(value, 0);
    if maxBytes < 3 {
      FitNothing(value, maxBytes - 3);
    }
    assert value[..k] + [ELLIPSIS] == Bounded(value, maxBytes);
    assert r == Scrub(value[..k] + [ELLIPSIS]);
  }

  method BoundedText(value: Text, maxBytes: int) returns (r: Text)
    ensures r == TextBounded(value, maxBytes)
  {
    if maxBytes <= 0 {
      return [ELLIPSIS];
    }
    if ByteLength(value) <= maxBytes {
      return value;
    }
    var chars: Text := [];
    var bytes := 0;
    while |chars| < |value| && bytes + Width(value[|chars|]) + 3 <= maxBytes
      invariant |chars| <= |value| && chars == value[..|chars|]
      invariant bytes == ByteLength(chars) && (bytes == 0 || bytes + 3 <= maxBytes)
      decreases |value| - |chars|
    {
      EncodeAppend(chars, [value[|chars|]]);
      bytes := bytes + Width(value[|chars|]);
      chars := chars + [value[|chars|]];
    }
    GreedyIsLongest(value, maxBytes - 3, |chars|);
    r := chars + [ELLIPSIS];
  }

  lemma GreedyIsLongest(t: Text, limit: int, k: nat)
    requires k <= |t| && (k == 0 || Offset(t, k) <= limit)
    requires k < |t| ==> Offset(t, k) + Width(t[k]) > limit
    ensures k == Fit(t, limit)
  {
    if limit < 0 {
      FitNothing(t, limit);
    } else {
      FitIsLongest(t, limit, k);
      if k < |t| {
        assert t[..k + 1] == t[..k] + [t[k]];
        EncodeAppend(t[..k], [t[k]]);
        FitIsLongest(t, limit, k + 1);
      }
    }
  }

  method TailText(value: Text, maxBytes: int) returns (r: Text)
    ensures r == Scrub(value[TailStart(value, maxBytes)..])
  {
    var bytes := Encode(value);
    EncodeLength(value);
    if |bytes| <= maxBytes {
      DecodeEncode(value);
      return Decode(bytes);
    }
    var start := |bytes| - maxBytes;
    ghost var k := TailStart(value, maxBytes);
    TailStartIsFirst(value, maxBytes);
    OffsetSplits(value, k);
    while start < |bytes| && IsContinuation(bytes[start])
      invariant maxBytes >= 0 ==> |bytes| - maxBytes <= start <= Offset(value, k)
      invariant maxBytes < 0 ==> start > |bytes|
    {
      assert start != Offset(value, k) by {
        if k < |value| {
          BoundaryIsLead(value, k);
        }
      }
      start := start + 1;
    }
    TailCut(value, maxBytes, start);
    DecodeEncode(value[k..]);
    r := Decode(if start > |bytes| then [] else bytes[start..]);
  }

  /** The tail starts at the first code point whose suffix fits. */
  lemma {:induction false} TailStartIsFirst(t: Text, limit: int)
    ensures forall j | 0 <= j < TailStart(t, limit) :: ByteLength(t[j..]) > limit
    ensures limit >= 0 ==> ByteLength(t[TailStart(t, limit)..]) <= limit
    ensures limit < 0 ==> TailStart(t, limit) == |t|
  {
    if t != [] && ByteLength(t) > limit {
      TailStartIsFirst(t[1..], limit);
      var k := TailStart(t, limit);
      assert t[k..] == t[1..][k - 1..];
      forall j | 0 <= j < k ensures ByteLength(t[j..]) > limit {
        assert j > 0 ==> t[j..] == t[1..][j - 1..];
      }
    }
  }

  lemma TailCut(t: Text, limit: int, start: int)
    requires var n := |Encode(t)|; var k := TailStart(t, limit);
      && (limit >= 0 ==> 0 <= n - limit <= start <= Offset(t, k))
      && (limit < 0 ==> start > n)
      && (0 <= start < n ==> !IsContinuation(Encode(t)[start]))
    ensures start <= |Encode(t)| ==> start == Offset(t, TailStart(t, limit))
    ensures start > |Encode(t)| ==> t[TailStart(t, limit)..] == []
  {
    var k := TailStart(t, limit);
    TailStartIsFirst(t, limit);
    OffsetSplits(t, k);
    if 0 <= start < |Encode(t)| {
      var j := LeadIsBoundary(t, start);
      OffsetSplits(t, j);
      if k < j {
        OffsetIncreases(t, k, j);
      }
    }
  }

  // ----- what the truncators promise

  /** The code points of the value that both truncators keep. */
  function Kept(t: Text, maxBytes: int): Text
  {
    if ByteLength(t) <= maxBytes then t else t[..Fit(t, maxBytes - 3)]
  }

  /**
   * The two truncators agree up to the replacement of lone surrogates, and return the same text
   * exactly when the kept part holds none; the one exception is the empty text at zero bytes.
   */
  lemma TruncatorsAgree(t: Text, maxBytes: int)
    ensures Utf8Bounded(t, maxBytes) == Scrub(TextBounded(t, maxBytes)) <==> !(t == [] && maxBytes == 0)
    ensures Utf8Bounded(t, maxBytes) == TextBounded(t, maxBytes)
      <==> !(t == [] && maxBytes == 0) && forall c | c in Kept(t, maxBytes) :: !IsSurrogate(c)
  {
    var b := Bounded(t, maxBytes);
    if maxBytes <= 0 {
      FitNothing(t, maxBytes - 3);
      assert t != [] ==> ByteLength(t) > 0;
    }
    forall c | c in Kept(t, maxBytes) ensures c in b {}
    if !(t == [] && maxBytes == 0) {
      assert TextBounded(t, maxBytes) == b;
      if Scrub(b) == b {
        forall c | c in Kept(t, maxBytes) ensures !IsSurrogate(c) {
          var i :| 0 <= i < |b| && b[i] == c;
          assert Scrub(b)[i] == ScrubOne(c);
        }
      }
    }
  }

  /** The result is within the bound, or is the ellipsis alone when the bound is below three. */
  lemma BoundedSize(t: Text, maxBytes: int)
    ensures ByteLength(Utf8Bounded(t, maxBytes)) <= if maxBytes > 3 then maxBytes else 3
    ensures maxBytes >= 3 || ByteLength(t) <= maxBytes ==> ByteLength(Utf8Bounded(t, maxBytes)) <= maxBytes
    ensures maxBytes < 3 && ByteLength(t) > maxBytes ==> Utf8Bounded(t, maxBytes) == [ELLIPSIS]
  {
    ScrubKeepsBytes(Bounded(t, maxBytes));
    var k := Fit(t, maxBytes - 3);
    if maxBytes < 3 {
      FitNothing(t, maxBytes - 3);
    } else {
      FitIsLongest(t, maxBytes - 3, k);
    }
    EncodeAppend(t[..k], [ELLIPSIS]);
  }

  /** A truncated text keeps the longest prefix that leaves room for the ellipsis. */
  lemma BoundedIsMaximal(t: Text, maxBytes: int, k: nat)
    requires maxBytes >= 3 && ByteLength(t) > maxBytes && k <= |t|
    ensures Fit(t, maxBytes - 3) < |t|
    ensures Utf8Bounded(t, maxBytes) == Scrub(t[..Fit(t, maxBytes - 3)]) + [ELLIPSIS]
    ensures k <= Fit(t, maxBytes - 3) <==> ByteLength(t[..k] + [ELLIPSIS]) <= maxBytes
  {
    FitIsLongest(t, maxBytes - 3, k);
    FitIsLongest(t, maxBytes - 3, |t|);
    assert t[..|t|] == t;
    EncodeAppend(t[..k], [ELLIPSIS]);
  }

  /** Truncating a truncated text changes nothing. */
  lemma BoundedIdempotent(t: Text, maxBytes: int)
    ensures Utf8Bounded(Utf8Bounded(t, maxBytes), maxBytes) == Utf8Bounded(t, maxBytes)
  {
    BoundedSize(t, maxBytes);
    var r := Utf8Bounded(t, maxBytes);
    assert Scrub(r) == r;
    if ByteLength(r) > maxBytes {
      BoundedSize(r, maxBytes);
    }
  }

  /** The tail is the longest suffix within the bound, and loses at most three bytes of it. */
  lemma TailIsMaximal(t: Text, maxBytes: nat, j: nat)
    requires j <= |t|
    ensures TailStart(t, maxBytes) <= j <==> ByteLength(t[j..]) <= maxBytes
    ensures ByteLength(t) > maxBytes ==> maxBytes - ByteLength(t[TailStart(t, maxBytes)..]) <= 3
  {
    TailStartIsFirst(t, maxBytes);
    var k := TailStart(t, maxBytes);
    if k < j {
      OffsetIncreases(t, k, j);
    }
    OffsetSplits(t, j);
    OffsetSplits(t, k);
    if ByteLength(t) > maxBytes {
      assert k > 0 by { assert t[0..] == t; }
      assert t[k - 1..] == [t[k - 1]] + t[k..];
      EncodeAppend([t[k - 1]], t[k..]);
    }
  }

  /** The encodings of U+0041, U+00E9, U+2026 and U+1F600, as RFC 3629 has them. */
  lemma KnownEncodings()
    ensures EncodeScalar(0x41) == [0x41] && EncodeScalar(0xE9) == [0xC3, 0xA9]
    ensures EncodeScalar(0x2026) == [0xE2, 0x80, 0xA6] && EncodeScalar(0x1F600) == [0xF0, 0x9F, 0x98, 0x80]
  {
  }

  /** One byte below U+0080, two below U+0800, three below U+10000 and four from there on. */
  lemma WidthExact(c: CodePoint)
    ensures Width(c) >= 2 <==> c > 0x7F
    ensures Width(c) >= 3 <==> c > 0x7FF
    ensures Width(c) >= 4 <==> c > 0xFFFF
  {
  }
}
