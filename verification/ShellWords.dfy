/**
 * The word splitter `shellWords` of src/util.mjs.  Quotes group and are stripped, whitespace
 * outside them separates, and a backslash escapes only a double quote or a backslash inside
 * double quotes.  (Sections 2.2.2 and 2.2.3 of the POSIX Shell Command Language are the model
 * the code narrows: there is no escape outside double quotes.)
 */
module ShellWords {
  import opened Collections
  import opened Whitespace

  predicate IsQuote(c: char) { c == '"' || c == '\'' }

  datatype State = State(words: seq<string>, current: Option<string>, quote: Option<char>, escaped: bool)

  const START := State([], None, None, false)

  function TextOf(current: Option<string>): string { if current.Some? then current.value else "" }

  /** The words so far, with the word under construction pushed. */
  function Pushed(words: seq<string>, current: Option<string>): seq<string>
  {
    if current.Some? then words + [current.value] else words
  }

  /** One character of the splitter. */
  function Step(s: State, c: char): State
  {
    if s.quote.None? && IsSpace(c) then s.(words := Pushed(s.words, s.current), current := None)
    else if s.quote.None? && IsQuote(c) then s.(quote := Some(c), current := Some(TextOf(s.current)))
    else if s.escaped then
      s.(current := Some(TextOf(s.current) + if c == '"' || c == '\\' then [c] else ['\\', c]), escaped := false)
    else if s.quote == Some('"') && c == '\\' then s.(escaped := true)
    else if s.quote == Some(c) then s.(quote := None)
    else s.(current := Some(TextOf(s.current) + [c]))
  }

  function Scan(s: State, text: string): State
    decreases |text|
  {
    if text == [] then s else Scan(Step(s, text[0]), text[1..])
  }

  function Finish(s: State): seq<string>
  {
    Pushed(s.words, if s.escaped then Some(TextOf(s.current) + "\\") else s.current)
  }

  /** The words of a command string. */
  function Words(text: string): seq<string>
  {
    Finish(Scan(START, text))
  }

  method Split(text: string) returns (words: seq<string>)
    ensures words == Words(text)
  {
    words := [];
    var current: Option<string> := None;
    var quote: Option<char> := None;
    var escaped := false;
    var i := 0;
    while i < |text|
      invariant 0 <= i <= |text|
      invariant Scan(START, text) == Scan(State(words, current, quote, escaped), text[i..])
    {
      var character := text[i];
      assert text[i..][0] == character && text[i..][1..] == text[i + 1..];
      i := i + 1;
      if quote.None? && IsSpace(character) {
        if current.Some? {
          words := words + [current.value];
        }
        current := None;
        continue;
      }
      if quote.None? && (character == '"' || character == '\'') {
        quote := Some(character);
        current := Some(TextOf(current));
        continue;
      }
      if escaped {
        current := Some(TextOf(current) + if character == '"' || character == '\\' then [character] else ['\\', character]);
        escaped := false;
        continue;
      }
      if quote == Some('"') && character == '\\' {
        escaped := true;
        continue;
      }
      if quote == Some(character) {
        quote := None;
        continue;
      }
      current := Some(TextOf(current) + [character]);
    }
    if escaped {
      current := Some(TextOf(current) + "\\");
    }
    if current.Some? {
      words := words + [current.value];
    }
  }

  // ----- scanning in parts

  lemma {:induction false} ScanAppend(s: State, a: string, b: string)
    ensures Scan(s, a + b) == Scan(Scan(s, a), b)
    decreases |a|
  {
    if a == [] {
      assert a + b == b;
    } else {
      assert (a + b)[1..] == a[1..] + b;
      ScanAppend(Step(s, a[0]), a[1..], b);
    }
  }

  /** Words already pushed are only carried along. */
  lemma {:induction false} ScanCarries(pushed: seq<string>, s: State, text: string)
    ensures Scan(s.(words := pushed + s.words), text) == Scan(s, text).(words := pushed + Scan(s, text).words)
    decreases |text|
  {
    if text != [] {
      var next := Step(s, text[0]);
      assert Step(s.(words := pushed + s.words), text[0]) == next.(words := pushed + next.words);
      ScanCarries(pushed, next, text[1..]);
    }
  }

  /** An escape is pending only inside double quotes, and an open quote has begun a word. */
  predicate Reachable(s: State)
  {
    (s.escaped ==> s.quote == Some('"')) && (s.quote.Some? ==> s.current.Some? && IsQuote(s.quote.value))
  }

  lemma {:induction false} ScanReachable(s: State, text: string)
    requires Reachable(s)
    ensures Reachable(Scan(s, text))
    decreases |text|
  {
    if text != [] {
      ScanReachable(Step(s, text[0]), text[1..]);
    }
  }

  /** A word under construction only grows until it is pushed, in its place. */
  lemma {:induction false} ScanGrows(s: State, text: string)
    requires s.current.Some?
    ensures var e := Finish(Scan(s, text));
      |e| > |s.words| && s.current.value <= e[|s.words|] && s.words <= e
    decreases |text|
  {
    if text != [] {
      var next := Step(s, text[0]);
      if next.current.Some? {
        ScanGrows(next, text[1..]);
      } else {
        ScanCarries(next.words, next.(words := []), text[1..]);
        assert next.words + [] == next.words;
      }
    }
  }

  /**
   * Splitting distributes over concatenation at a whitespace character if and only if no quote
   * is open there.
   */
  lemma SplitAtSpace(a: string, space: char, b: string)
    requires IsSpace(space)
    ensures Scan(START, a).quote.None? <==> Words(a + [space] + b) == Words(a) + Words(b)
  {
    var s := Scan(START, a);
    var next := Step(s, space);
    ScanReachable(START, a);
    ScanAppend(START, a + [space], b);
    ScanAppend(START, a, [space]);
    assert Scan(s, [space]) == next;
    if s.quote.None? {
      ScanCarries(next.words, START, b);
      assert next.words + [] == next.words;
      assert Words(a + [space] + b) == Words(a) + Words(b);
    } else {
      ScanGrows(next, b);
      assert next.words == s.words && |next.current.value| > |Words(a)[|s.words|]|;
      assert (Words(a) + Words(b))[|s.words|] == Words(a)[|s.words|];
    }
  }

  // ----- quoting and reading back

  /** A printed piece of a word. */
  datatype Segment =
    | Bare(text: string)      // as it is
    | Single(text: string)    // in single quotes
    | Double(text: string)    // in double quotes, with " and \ escaped
    | Path(text: string)      // in double quotes, with no escape

  predicate ValidSegment(g: Segment)
  {
    match g
    case Bare(t) => forall c | c in t :: !IsSpace(c) && !IsQuote(c)
    case Single(t) => '\'' !in t
    case Double(_) => true
    case Path(t) => ValidPath(t)
  }

  /** No double quote, and every backslash is followed by a character it does not escape. */
  predicate ValidPath(t: string)
  {
    '"' !in t && forall i | 0 <= i < |t| && t[i] == '\\' :: i + 1 < |t| && t[i + 1] != '\\'
  }

  function Escaped(t: string): string
  {
    if t == [] then [] else (if t[0] == '"' || t[0] == '\\' then ['\\', t[0]] else [t[0]]) + Escaped(t[1..])
  }

  function PrintSegment(g: Segment): string
  {
    match g
    case Bare(t) => t
    case Single(t) => ['\''] + t + ['\'']
    case Double(t) => ['"'] + Escaped(t) + ['"']
    case Path(t) => ['"'] + t + ['"']
  }

  type Word = seq<Segment>

  function PrintWord(w: Word): string
  {
    if w == [] then [] else PrintSegment(w[0]) + PrintWord(w[1..])
  }

  function Meaning(w: Word): string
  {
    if w == [] then [] else w[0].text + Meaning(w[1..])
  }

  /** A segment that makes a word exist: quoted, even when empty, or not empty. */
  predicate Begins(g: Segment) { !g.Bare? || g.text != [] }

  predicate IsWord(w: Word) { w != [] && (Begins(w[0]) || IsWord(w[1..])) }

  predicate ValidWord(w: Word)
  {
    (forall i | 0 <= i < |w| :: ValidSegment(w[i])) && IsWord(w)
  }

  /** Words between gaps of whitespace; only the outer gaps may be empty. */
  function PrintLine(ws: seq<Word>, gaps: seq<string>): string
    requires |gaps| == |ws| + 1
  {
    gaps[0] + if ws == [] then [] else PrintWord(ws[0]) + PrintLine(ws[1..], gaps[1..])
  }

  predicate ValidGaps(gaps: seq<string>)
  {
    && (forall i | 0 <= i < |gaps| :: forall c | c in gaps[i] :: IsSpace(c))
    && (forall i | 0 < i < |gaps| - 1 :: gaps[i] != [])
  }

  function Meanings(ws: seq<Word>): seq<string> { Map(Meaning, ws) }

  /** Outside quotes. */
  function Outside(words: seq<string>, current: Option<string>): State { State(words, current, None, false) }

  /** Inside an open quote. */
  function Inside(words: seq<string>, current: string, quote: char): State { State(words, Some(current), Some(quote), false) }

  lemma ScanOne(s: State, c: char)
    ensures Scan(s, [c]) == Step(s, c)
  {
  }

  lemma ScanTwo(s: State, c: char, d: char)
    ensures Scan(s, [c, d]) == Step(Step(s, c), d)
  {
    assert [c, d][1..] == [d];
    ScanOne(Step(s, c), d);
  }

  lemma {:induction false} ScanBare(words: seq<string>, current: Option<string>, t: string)
    requires forall c | c in t :: !IsSpace(c) && !IsQuote(c)
    ensures Scan(Outside(words, current), t) == Outside(words, if t == [] then current else Some(TextOf(current) + t))
    decreases |t|
  {
    if t == [] {
    } else {
      assert t[0] in t;
      var next := Some(TextOf(current) + [t[0]]);
      assert t == [t[0]] + t[1..];
      ScanBare(words, next, t[1..]);
      assert TextOf(current) + [t[0]] + t[1..] == TextOf(current) + t;
      assert t[1..] == [] ==> t == [t[0]];
    }
  }

  lemma {:induction false} ScanSingle(words: seq<string>, current: string, t: string)
    requires '\'' !in t
    ensures Scan(Inside(words, current, '\''), t) == Inside(words, current + t, '\'')
    decreases |t|
  {
    if t == [] {
      assert current + t == current;
    } else {
      assert t[0] in t;
      ScanSingle(words, current + [t[0]], t[1..]);
      assert current + [t[0]] + t[1..] == current + t;
    }
  }

  lemma {:induction false} ScanDouble(words: seq<string>, current: string, t: string)
    ensures Scan(Inside(words, current, '"'), Escaped(t)) == Inside(words, current + t, '"')
    decreases |t|
  {
    if t == [] {
      assert current + t == current;
    } else {
      var s := Inside(words, current, '"');
      var head := if t[0] == '"' || t[0] == '\\' then ['\\', t[0]] else [t[0]];
      ScanAppend(s, head, Escaped(t[1..]));
      if t[0] == '"' || t[0] == '\\' {
        ScanTwo(s, '\\', t[0]);
      } else {
        ScanOne(s, t[0]);
      }
      assert Scan(s, head) == Inside(words, current + [t[0]], '"');
      ScanDouble(words, current + [t[0]], t[1..]);
      assert current + [t[0]] + t[1..] == current + t;
    }
  }

  lemma {:induction false} ScanPath(words: seq<string>, current: string, t: string)
    requires ValidPath(t)
    ensures Scan(Inside(words, current, '"'), t) == Inside(words, current + t, '"')
    decreases |t|
  {
    if t == [] {
      assert current + t == current;
    } else {
      var s := Inside(words, current, '"');
      var n := if t[0] == '\\' then 2 else 1;
      assert t == t[..n] + t[n..];
      ScanAppend(s, t[..n], t[n..]);
      assert Scan(s, t[..n]) == Inside(words, current + t[..n], '"') by {
        if n == 2 {
          assert t[..n] == [t[0], t[1]] && t[1] in t;
          ScanTwo(s, t[0], t[1]);
          assert current + ['\\', t[1]] == current + t[..n];
        } else {
          assert t[..n] == [t[0]] && t[0] in t;
          ScanOne(s, t[0]);
        }
      }
      forall i | 0 <= i < |t[n..]| && t[n..][i] == '\\' ensures i + 1 < |t[n..]| && t[n..][i + 1] != '\\' {
        assert t[n + i] == '\\';
      }
      ScanPath(words, current + t[..n], t[n..]);
      assert current + t[..n] + t[n..] == current + t;
    }
  }

  lemma ScanQuoted(words: seq<string>, current: Option<string>, quote: char, body: string, text: string)
    requires IsQuote(quote)
    requires Scan(Inside(words, TextOf(current), quote), body) == Inside(words, TextOf(current) + text, quote)
    ensures Scan(Outside(words, current), [quote] + body + [quote]) == Outside(words, Some(TextOf(current) + text))
  {
    var s := Outside(words, current);
    ScanAppend(s, [quote] + body, [quote]);
    ScanAppend(s, [quote], body);
  }

  lemma ScanSegment(words: seq<string>, current: Option<string>, g: Segment)
    requires ValidSegment(g)
    ensures Scan(Outside(words, current), PrintSegment(g))
         == Outside(words, if Begins(g) then Some(TextOf(current) + g.text) else current)
  {
    match g
    case Bare(t) => ScanBare(words, current, t);
    case Single(t) =>
      ScanSingle(words, TextOf(current), t);
      ScanQuoted(words, current, '\'', t, t);
    case Double(t) =>
      ScanDouble(words, TextOf(current), t);
      ScanQuoted(words, current, '"', Escaped(t), t);
    case Path(t) =>
      ScanPath(words, TextOf(current), t);
      ScanQuoted(words, current, '"', t, t);
  }

  /** The word under construction after the segments of `w`. */
  function Built(current: Option<string>, w: Word): Option<string>
    decreases |w|
  {
    if w == [] then current
    else Built(if Begins(w[0]) then Some(TextOf(current) + w[0].text) else current, w[1..])
  }

  lemma JoinText(current: string, t: string, rest: string)
    ensures current + (t + rest) == current + t + rest
    ensures t == [] ==> t + rest == rest && current + t == current
    ensures rest == [] ==> t + rest == t
  {
  }

  lemma {:induction false} BuiltIsMeaning(current: Option<string>, w: Word)
    ensures Built(current, w) == if IsWord(w) then Some(TextOf(current) + Meaning(w)) else current
    ensures !IsWord(w) ==> Meaning(w) == []
    decreases |w|
  {
    if w != [] {
      var t := w[0].text;
      var next := if Begins(w[0]) then Some(TextOf(current) + t) else current;
      BuiltIsMeaning(next, w[1..]);
      JoinText(TextOf(current), t, Meaning(w[1..]));
    }
  }

  lemma {:induction false} ScanWord(words: seq<string>, current: Option<string>, w: Word)
    requires forall i | 0 <= i < |w| :: ValidSegment(w[i])
    ensures Scan(Outside(words, current), PrintWord(w)) == Outside(words, Built(current, w))
    decreases |w|
  {
    if w != [] {
      var next := if Begins(w[0]) then Some(TextOf(current) + w[0].text) else current;
      ScanAppend(Outside(words, current), PrintSegment(w[0]), PrintWord(w[1..]));
      ScanSegment(words, current, w[0]);
      ScanWord(words, next, w[1..]);
    }
  }

  lemma {:induction false} ScanGap(words: seq<string>, current: Option<string>, gap: string)
    requires forall c | c in gap :: IsSpace(c)
    ensures Scan(Outside(words, current), gap)
         == if gap == [] then Outside(words, current) else Outside(Pushed(words, current), None)
    decreases |gap|
  {
    if gap != [] {
      ScanGap(Pushed(words, current), None, gap[1..]);
    }
  }

  lemma {:induction false} ScanLine(words: seq<string>, current: Option<string>, ws: seq<Word>, gaps: seq<string>)
    requires |gaps| == |ws| + 1 && ValidGaps(gaps) && (forall i | 0 <= i < |ws| :: ValidWord(ws[i]))
    requires current.None? || gaps[0] != [] || ws == []
    ensures Finish(Scan(Outside(words, current), PrintLine(ws, gaps))) == Pushed(words, current) + Meanings(ws)
    decreases |ws|
  {
    if ws == [] {
      ScanGap(words, current, gaps[0]);
      assert gaps[0] + [] == gaps[0];
    } else {
      var after, m := Pushed(words, current), Meaning(ws[0]);
      var rest := PrintLine(ws[1..], gaps[1..]);
      GapsTail(gaps);
      assert Finish(Scan(Outside(after, Some(m)), rest)) == after + [m] + Meanings(ws[1..]) by {
        ScanLine(after, Some(m), ws[1..], gaps[1..]);
      }
      assert Scan(Outside(words, current), PrintLine(ws, gaps)) == Scan(Outside(after, Some(m)), rest) by {
        assert ValidWord(ws[0]);
        ScanGapWord(words, current, gaps[0], ws[0], rest);
      }
      MeaningsCons(after, ws);
    }
  }

  lemma MeaningsCons(words: seq<string>, ws: seq<Word>)
    requires ws != []
    ensures words + [Meaning(ws[0])] + Meanings(ws[1..]) == words + Meanings(ws)
  {
  }

  lemma GapsTail(gaps: seq<string>)
    requires |gaps| >= 2 && ValidGaps(gaps)
    ensures ValidGaps(gaps[1..]) && (|gaps| > 2 ==> gaps[1..][0] != [])
  {
  }

  lemma ScanGapWord(words: seq<string>, current: Option<string>, gap: string, w: Word, rest: string)
    requires (forall c | c in gap :: IsSpace(c)) && (current.None? || gap != []) && ValidWord(w)
    ensures Scan(Outside(words, current), gap + (PrintWord(w) + rest))
         == Scan(Outside(Pushed(words, current), Some(Meaning(w))), rest)
  {
    var after := Pushed(words, current);
    ScanGap(words, current, gap);
    ScanAppend(Outside(words, current), gap, PrintWord(w) + rest);
    ScanAppend(Outside(after, None), PrintWord(w), rest);
    ScanWord(after, None, w);
    BuiltIsMeaning(None, w);
    assert [] + Meaning(w) == Meaning(w);
  }

  /**
   * Reading undoes quoting: any words, each printed as adjacent bare, single-quoted or
   * double-quoted segments and separated by whitespace, read back exactly.
   */
  lemma ReadsBack(ws: seq<Word>, gaps: seq<string>)
    requires |gaps| == |ws| + 1 && ValidGaps(gaps) && forall i | 0 <= i < |ws| :: ValidWord(ws[i])
    ensures Words(PrintLine(ws, gaps)) == Meanings(ws)
  {
    ScanLine([], None, ws, gaps);
  }

  /** Every list of strings whatsoever can be printed so that it reads back. */
  lemma EveryListIsPrintable(strings: seq<string>) returns (ws: seq<Word>, gaps: seq<string>)
    ensures |gaps| == |ws| + 1
    ensures Words(PrintLine(ws, gaps)) == strings
  {
    ws := Map((t: string) => [Double(t)], strings);
    gaps := seq(|strings| + 1, _ => " ");
    ReadsBack(ws, gaps);
    forall i | 0 <= i < |strings| ensures Meaning(ws[i]) == strings[i] {
      assert ws[i][1..] == [] && Meaning([]) == [];
      assert strings[i] + [] == strings[i];
    }
    assert Meanings(ws) == strings;
  }

  // ----- what is left open

  /** A single quote that is never closed takes everything after it, as a part of the last word. */
  lemma OpenSingleQuote(a: string, t: string)
    requires Scan(START, a).quote.None? && '\'' !in t
    ensures Words(a + ['\''] + t) == Scan(START, a).words + [TextOf(Scan(START, a).current) + t]
  {
    var s := Scan(START, a);
    ScanReachable(START, a);
    ScanAppend(START, a + ['\''], t);
    ScanAppend(START, a, ['\'']);
    ScanOne(s, '\'');
    ScanSingle(s.words, TextOf(s.current), t);
  }

  /** So does a double quote; a backslash at the very end stays a backslash. */
  lemma OpenDoubleQuote(a: string, t: string)
    requires Scan(START, a).quote.None?
    ensures Words(a + ['"'] + Escaped(t)) == Scan(START, a).words + [TextOf(Scan(START, a).current) + t]
    ensures Words(a + ['"'] + Escaped(t) + ['\\']) == Scan(START, a).words + [TextOf(Scan(START, a).current) + t + ['\\']]
  {
    var s := Scan(START, a);
    ScanReachable(START, a);
    ScanAppend(START, a + ['"'], Escaped(t));
    ScanAppend(START, a, ['"']);
    ScanOne(s, '"');
    ScanDouble(s.words, TextOf(s.current), t);
    ScanAppend(START, a + ['"'] + Escaped(t), ['\\']);
    ScanOne(Scan(START, a + ['"'] + Escaped(t)), '\\');
  }

  /** Words are pushed only by whitespace outside quotes, or by the end. */
  lemma QuotesExact(c: char)
    ensures Step(START, c).quote.Some? <==> c == '"' || c == '\''
    ensures Step(START, c).current == if c == '"' || c == '\'' then Some("") else if IsSpace(c) then None else Some([c])
  {
    assert "" + [c] == [c];
  }
}
