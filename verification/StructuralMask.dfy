/**
 * The lexer mask of test/fixture-runtime-guard.mjs and the brace matcher and comma splitter
 * that read it.  The mask is true at the characters outside any string or comment.
 */
module StructuralMask {
  import opened Collections
  import opened Whitespace

  /**
   * What the lexer is inside of.  `Escaped` and `Closing` are the second characters of the pairs
   * it consumes at once: a backslash in a string and its follower, and the end of a block comment.
   */
  datatype State = Code | Quoted(quote: char) | Escaped(quote: char) | LineComment | BlockComment | Closing

  predicate IsQuote(c: char) { c == '"' || c == '\'' || c == '`' }

  function Peek(t: string, i: nat): Option<char> { if i < |t| then Some(t[i]) else None }

  /** What a character opens when it is read as code. */
  function Opened(c: char, next: Option<char>): State
  {
    if IsQuote(c) then Quoted(c)
    else if c == '/' && next == Some('/') then LineComment
    else if c == '/' && next == Some('*') then BlockComment
    else Code
  }

  function Next(s: State, c: char, next: Option<char>): State
  {
    match s
    case Code => Opened(c, next)
    case Quoted(q) => if c == '\\' then Escaped(q) else if c == q then Code else s
    case Escaped(q) => Quoted(q)
    case LineComment => if c == '\n' then Code else s
    case BlockComment => if c == '*' && next == Some('/') then Closing else s
    case Closing => Code
  }

  /** The lexer's state before character `i`. */
  function StateAt(t: string, i: nat): State
    requires i <= |t|
  {
    if i == 0 then Code else Next(StateAt(t, i - 1), t[i - 1], Peek(t, i))
  }

  /** Whether character `i` is outside every string and comment. */
  predicate Visible(t: string, i: nat)
    requires i < |t|
  {
    StateAt(t, i).Code? && Opened(t[i], Peek(t, i + 1)).Code?
  }

  /** The mask; a backslash that ends the text inside a string writes one entry past its end. */
  function Mask(t: string): (mask: seq<bool>)
    ensures |mask| == |t| + if StateAt(t, |t|).Escaped? then 1 else 0
    ensures forall i | 0 <= i < |t| :: mask[i] == Visible(t, i)
  {
    seq(|t|, i requires 0 <= i < |t| => Visible(t, i)) + if StateAt(t, |t|).Escaped? then [false] else []
  }

  /** Array assignment one past the end extends the array. */
  function Assign(mask: seq<bool>, i: nat, v: bool): seq<bool>
    requires i <= |mask|
  {
    if i < |mask| then mask[i := v] else mask + [v]
  }

  method ComputeMask(text: string) returns (mask: seq<bool>)
    ensures mask == Mask(text)
  {
    mask := seq(|text|, _ => true);
    var state := Code;
    var index: nat := 0;
    while index < |text|
      invariant |mask| == if index > |text| then index else |text|
      invariant index <= |text| ==> state == StateAt(text, index) && !state.Escaped? && !state.Closing?
      invariant index > |text| ==> index == |text| + 1 && !mask[|text|] && StateAt(text, |text|).Escaped?
      invariant forall i | 0 <= i < index && i < |text| :: mask[i] == Visible(text, i)
      invariant forall i | index <= i < |mask| :: mask[i]
      decreases |text| - index
    {
      var c := text[index];
      var next := Peek(text, index + 1);
      if state.Quoted? {
        mask := mask[index := false];
        if c == '\\' {
          assert StateAt(text, index + 1) == Escaped(state.quote);
          mask := Assign(mask, index + 1, false);
          index := index + 2;
          continue;
        }
        if c == state.quote {
          state := Code;
        }
        index := index + 1;
        continue;
      }
      if state == LineComment {
        mask := mask[index := false];
        if c == '\n' {
          state := Code;
        }
        index := index + 1;
        continue;
      }
      if state == BlockComment {
        mask := mask[index := false];
        if c == '*' && next == Some('/') {
          assert StateAt(text, index + 1) == Closing;
          mask := mask[index + 1 := false];
          state := Code;
          index := index + 2;
          continue;
        }
        index := index + 1;
        continue;
      }
      if IsQuote(c) {
        state := Quoted(c);
        mask := mask[index := false];
        index := index + 1;
        continue;
      }
      if c == '/' && next == Some('/') {
        state := LineComment;
        mask := mask[index := false];
        index := index + 1;
        continue;
      }
      if c == '/' && next == Some('*') {
        state := BlockComment;
        mask := mask[index := false];
        index := index + 1;
        continue;
      }
      index := index + 1;
    }
  }

  // ----- the length of the mask

  function TrailingBackslashes(t: string): (k: nat)
    ensures k <= |t| && (k < |t| ==> t[|t| - k - 1] != '\\')
    ensures forall i | |t| - k <= i < |t| :: t[i] == '\\'
  {
    if t == [] || t[|t| - 1] != '\\' then 0 else TrailingBackslashes(t[..|t| - 1]) + 1
  }

  lemma {:induction false} StateOverBackslashes(t: string, base: nat, i: nat)
    requires base <= i <= |t| && !StateAt(t, base).Escaped?
    requires forall j | base <= j < i :: t[j] == '\\'
    ensures StateAt(t, i).Escaped? <==> StateAt(t, base).Quoted? && (i - base) % 2 == 1
    ensures StateAt(t, base).Quoted? && !StateAt(t, i).Escaped? ==> StateAt(t, i).Quoted?
    ensures !StateAt(t, base).Quoted? ==> !StateAt(t, i).Quoted?
    decreases i
  {
    if i > base {
      StateOverBackslashes(t, base, i - 1);
      assert t[i - 1] == '\\';
    }
  }

  /**
   * The mask has the length of the text if and only if the text does not end, inside an open
   * string, in an odd run of backslashes.
   */
  lemma MaskLength(t: string)
    ensures var k := TrailingBackslashes(t);
      |Mask(t)| == |t| <==> !(StateAt(t, |t| - k).Quoted? && k % 2 == 1)
  {
    var base := |t| - TrailingBackslashes(t);
    assert !StateAt(t, base).Escaped?;
    StateOverBackslashes(t, base, |t|);
  }

  lemma MaskMayOverrun()
    ensures |Mask(['"', '\\'])| == 3
  {
    var t := ['"', '\\'];
    assert StateAt(t, 0) == Code;
    assert StateAt(t, 1) == Quoted('"');
    assert StateAt(t, 2) == Escaped('"');
  }

  // ----- the mask marks exactly the characters outside literals

  datatype Token = Plain(text: string) | Literal(quote: char, text: string) | Line(text: string) | Block(text: string)

  function PrintToken(k: Token): string
  {
    match k
    case Plain(t) => t
    case Literal(q, t) => [q] + t + [q]
    case Line(t) => ['/', '/'] + t + ['\n']
    case Block(t) => ['/', '*'] + t + ['*', '/']
  }

  /** Every backslash escapes its follower, and the quote occurs only escaped. */
  predicate ValidLiteral(q: char, t: string)
  {
    t == [] || (if t[0] == '\\' then |t| >= 2 && ValidLiteral(q, t[2..]) else t[0] != q && ValidLiteral(q, t[1..]))
  }

  predicate ClosesNowhere(t: string)
  {
    forall i | 0 <= i < |t| - 1 :: !(t[i] == '*' && t[i + 1] == '/')
  }

  predicate OpensNothing(t: string, i: nat)
    requires i < |t|
  {
    !IsQuote(t[i]) && (t[i] == '/' ==> i + 1 < |t| && t[i + 1] != '/' && t[i + 1] != '*')
  }

  /** Code opens nothing; a block comment does not begin with a slash, which the lexer would take for its end. */
  predicate ValidToken(k: Token)
  {
    match k
    case Plain(t) => forall i | 0 <= i < |t| :: OpensNothing(t, i)
    case Literal(q, t) => IsQuote(q) && ValidLiteral(q, t)
    case Line(t) => '\n' !in t
    case Block(t) => ClosesNowhere(['*'] + t)
  }

  ghost predicate AllVisible(text: string, p: nat, q: nat, v: bool)
    requires p <= q <= |text|
  {
    forall i | p <= i < q :: Visible(text, i) == v
  }

  lemma {:induction false} LexPlain(text: string, p: nat, t: string, n: nat)
    requires Occurs(text, p, t) && ValidToken(Plain(t)) && StateAt(text, p) == Code && n <= |t|
    ensures StateAt(text, p + n) == Code && AllVisible(text, p, p + n, true)
  {
    if n > 0 {
      var i := n - 1;
      LexPlain(text, p, t, i);
      assert text[p + i] == t[i] && OpensNothing(t, i);
      if t[i] == '/' {
        assert text[p + n] == t[n];
      }
    }
  }

  lemma {:induction false} LexLiteral(text: string, p: nat, q: char, t: string)
    requires Occurs(text, p, t) && ValidLiteral(q, t) && StateAt(text, p) == Quoted(q)
    ensures StateAt(text, p + |t|) == Quoted(q) && AllVisible(text, p, p + |t|, false)
    decreases |t|
  {
    if t != [] {
      assert text[p] == t[0];
      var n := if t[0] == '\\' then 2 else 1;
      assert StateAt(text, p + 1) == if n == 2 then Escaped(q) else Quoted(q);
      assert StateAt(text, p + n) == Quoted(q);
      assert Occurs(text, p + n, t[n..]) by {
        forall i | 0 <= i < |t| - n ensures text[p + n + i] == t[n..][i] {
          assert text[p + (n + i)] == t[n + i];
        }
      }
      LexLiteral(text, p + n, q, t[n..]);
    }
  }

  lemma {:induction false} LexLine(text: string, p: nat, t: string, n: nat)
    requires Occurs(text, p, t) && '\n' !in t && StateAt(text, p) == LineComment && n <= |t|
    ensures StateAt(text, p + n) == LineComment && AllVisible(text, p, p + n, false)
  {
    if n > 0 {
      LexLine(text, p, t, n - 1);
      assert text[p + (n - 1)] == t[n - 1];
    }
  }

  lemma {:induction false} LexBlock(text: string, p: nat, t: string, n: nat)
    requires Occurs(text, p, t + ['*', '/']) && ClosesNowhere(t) && StateAt(text, p) == BlockComment && n <= |t|
    ensures StateAt(text, p + n) == BlockComment && AllVisible(text, p, p + n, false)
  {
    if n > 0 {
      LexBlock(text, p, t, n - 1);
      var u := t + ['*', '/'];
      assert text[p + (n - 1)] == u[n - 1] && text[p + n] == u[n];
    }
  }

  lemma LexLiteralToken(text: string, p: nat, q: char, t: string)
    requires Occurs(text, p, PrintToken(Literal(q, t))) && ValidToken(Literal(q, t)) && StateAt(text, p) == Code
    ensures StateAt(text, p + |t| + 2) == Code && AllVisible(text, p, p + |t| + 2, false)
  {
    var printed := PrintToken(Literal(q, t));
    assert text[p + 0] == printed[0] == q;
    assert StateAt(text, p + 1) == Quoted(q);
    OccursPart(text, p, printed, 1, t);
    LexLiteral(text, p + 1, q, t);
    assert text[p + (1 + |t|)] == printed[1 + |t|] == q;
    SplitVisible(text, p, p + 1, p + 1 + |t|, p + 2 + |t|, false);
  }

  lemma LexLineToken(text: string, p: nat, t: string)
    requires Occurs(text, p, PrintToken(Line(t))) && ValidToken(Line(t)) && StateAt(text, p) == Code
    ensures StateAt(text, p + |t| + 3) == Code && AllVisible(text, p, p + |t| + 3, false)
  {
    var printed := PrintToken(Line(t));
    assert text[p + 0] == printed[0] == '/' && text[p + 1] == printed[1] == '/';
    assert StateAt(text, p + 1) == LineComment;
    assert StateAt(text, p + 2) == LineComment;
    OccursPart(text, p, printed, 2, t);
    LexLine(text, p + 2, t, |t|);
    assert text[p + (2 + |t|)] == printed[2 + |t|] == '\n';
    SplitVisible(text, p, p + 2, p + 2 + |t|, p + 3 + |t|, false);
  }

  lemma LexBlockToken(text: string, p: nat, t: string)
    requires Occurs(text, p, PrintToken(Block(t))) && ValidToken(Block(t)) && StateAt(text, p) == Code
    ensures StateAt(text, p + |t| + 4) == Code && AllVisible(text, p, p + |t| + 4, false)
  {
    var printed, u := PrintToken(Block(t)), ['*'] + t;
    assert text[p + 0] == printed[0] == '/' && text[p + 1] == printed[1] == '*';
    assert StateAt(text, p + 1) == BlockComment;
    OccursPart(text, p, printed, 1, u + ['*', '/']);
    LexBlock(text, p + 1, u, |u|);
    var e := 2 + |t|;
    assert text[p + e] == printed[e] == '*' && text[p + (e + 1)] == printed[e + 1] == '/';
    assert StateAt(text, p + e + 1) == Closing;
    SplitVisible(text, p, p + 1, p + e, p + e + 2, false);
  }

  /** A slash after the opening of a block comment ends it: the lexer takes the opening's star for the closing one. */
  lemma SlashEndsBlock(text: string, p: nat, t: string)
    requires Occurs(text, p, PrintToken(Block(t))) && t != [] && t[0] == '/' && StateAt(text, p) == Code
    ensures StateAt(text, p + 3) == Code && AllVisible(text, p, p + 3, false)
  {
    var printed := PrintToken(Block(t));
    assert text[p + 0] == printed[0] == '/' && text[p + 1] == printed[1] == '*' && text[p + 2] == printed[2] == '/';
    assert StateAt(text, p + 1) == BlockComment;
    assert StateAt(text, p + 2) == Closing;
  }

  lemma {:induction false} BlockGoesOn(text: string, p: nat, t: string, n: nat)
    requires Occurs(text, p, PrintToken(Block(t))) && ValidToken(Block(t)) && StateAt(text, p) == Code && 0 < n < |t| + 4
    ensures StateAt(text, p + n) != Code
  {
    var printed, u := PrintToken(Block(t)), ['*'] + t;
    assert text[p + 0] == printed[0] == '/' && text[p + 1] == printed[1] == '*';
    assert StateAt(text, p + 1) == BlockComment;
    OccursPart(text, p, printed, 1, u + ['*', '/']);
    if n <= |t| + 2 {
      LexBlock(text, p + 1, u, n - 1);
    } else {
      LexBlock(text, p + 1, u, |u|);
      var e := 2 + |t|;
      assert text[p + e] == printed[e] == '*' && text[p + (e + 1)] == printed[e + 1] == '/';
      assert StateAt(text, p + e + 1) == Closing;
    }
  }

  /**
   * A block comment that closes nowhere inside is read as one comment, to its end, if and only if
   * its body does not begin with a slash.
   */
  lemma OneCommentExact(text: string, p: nat, t: string)
    requires Occurs(text, p, PrintToken(Block(t))) && ClosesNowhere(t) && StateAt(text, p) == Code
    ensures (forall i | p < i < p + |t| + 4 :: StateAt(text, i) != Code) <==> t == [] || t[0] != '/'
  {
    if t != [] && t[0] == '/' {
      SlashEndsBlock(text, p, t);
    } else {
      forall i | 0 <= i < |t| ensures !((['*'] + t)[i] == '*' && (['*'] + t)[i + 1] == '/') {
        assert i == 0 || ((['*'] + t)[i] == t[i - 1] && (['*'] + t)[i + 1] == t[i]);
      }
      forall i | p < i < p + |t| + 4 ensures StateAt(text, i) != Code {
        BlockGoesOn(text, p, t, i - p);
      }
    }
  }

  /** Read as two comments, a block may still be wholly hidden; and it may show code. */
  lemma SlashBlocks()
    ensures var hidden := PrintToken(Block(['/', '/'])); |Mask(hidden)| == 6 && forall i | 0 <= i < 6 :: !Mask(hidden)[i]
    ensures var shown := PrintToken(Block(['/'])); |Mask(shown)| == 5 && Mask(shown)[3]
  {
    var hidden, shown := PrintToken(Block(['/', '/'])), PrintToken(Block(['/']));
    assert hidden == ['/', '*', '/', '/', '*', '/'] && shown == ['/', '*', '/', '*', '/'];
    SlashEndsBlock(hidden, 0, ['/', '/']);
    assert StateAt(hidden, 4) == BlockComment;
    assert StateAt(hidden, 5) == Closing;
    assert StateAt(hidden, 6) == Code;
    SlashEndsBlock(shown, 0, ['/']);
    assert StateAt(shown, 4) == Code;
    assert StateAt(shown, 5) == Code;
  }

  lemma LexToken(text: string, p: nat, k: Token)
    requires Occurs(text, p, PrintToken(k)) && ValidToken(k) && StateAt(text, p) == Code
    ensures StateAt(text, p + |PrintToken(k)|) == Code
    ensures AllVisible(text, p, p + |PrintToken(k)|, k.Plain?)
  {
    match k
    case Plain(t) => LexPlain(text, p, t, |t|);
    case Literal(q, t) => LexLiteralToken(text, p, q, t);
    case Line(t) => LexLineToken(text, p, t);
    case Block(t) => LexBlockToken(text, p, t);
  }

  /** What opens a literal. */
  lemma QuotesExact(c: char)
    ensures Opened(c, None).Quoted? <==> c in {'"', '\'', '`'}
    ensures Opened(c, None).Quoted? ==> Opened(c, None).quote == c
  {
  }

  lemma SplitVisible(text: string, a: nat, b: nat, c: nat, d: nat, v: bool)
    requires a <= b <= c <= d <= |text|
    requires AllVisible(text, a, b, v) && AllVisible(text, b, c, v) && AllVisible(text, c, d, v)
    ensures AllVisible(text, a, d, v)
  {
  }

  function Concat(parts: seq<string>): string
  {
    if parts == [] then [] else Concat(parts[..|parts| - 1]) + parts[|parts| - 1]
  }

  /** Where part `k` begins in the concatenation. */
  function PartStart(parts: seq<string>, k: nat): nat
    requires k <= |parts|
  {
    |Concat(parts[..k])|
  }

  lemma {:induction false} PartOccurs(text: string, parts: seq<string>, k: nat)
    requires k < |parts| && Occurs(text, 0, Concat(parts))
    ensures Occurs(text, PartStart(parts, k), parts[k])
    ensures PartStart(parts, k + 1) == PartStart(parts, k) + |parts[k]|
    decreases |parts|
  {
    var n := |parts| - 1;
    OccursConcat(text, 0, Concat(parts[..n]), parts[n]);
    assert parts[..k + 1][..k] == parts[..k];
    if k < n {
      PartOccurs(text, parts[..n], k);
      assert parts[..n][..k] == parts[..k];
    }
  }

  function Printed(ks: seq<Token>): seq<string> { Map(PrintToken, ks) }

  ghost predicate AllValid(ks: seq<Token>) { forall i | 0 <= i < |ks| :: ValidToken(ks[i]) }

  /** Before every token of a printed sequence the lexer is in code. */
  lemma {:induction false} CodeBeforeToken(text: string, ks: seq<Token>, k: nat)
    requires k <= |ks| && Occurs(text, 0, Concat(Printed(ks))) && AllValid(ks)
    ensures PartStart(Printed(ks), k) <= |text| && StateAt(text, PartStart(Printed(ks), k)) == Code
  {
    if k > 0 {
      CodeBeforeToken(text, ks, k - 1);
      PartOccurs(text, Printed(ks), k - 1);
      LexToken(text, PartStart(Printed(ks), k - 1), ks[k - 1]);
    }
  }

  /**
   * In any sequence of code, string literals and comments, the mask is true on every character
   * of code and false on every character of a literal or comment.
   */
  lemma MaskMarksCode(ks: seq<Token>, k: nat, j: nat)
    requires AllValid(ks) && k < |ks| && j < |PrintToken(ks[k])|
    ensures var i := PartStart(Printed(ks), k) + j;
      i < |Concat(Printed(ks))| && Mask(Concat(Printed(ks)))[i] == ks[k].Plain?
  {
    var text := Concat(Printed(ks));
    CodeBeforeToken(text, ks, k);
    PartOccurs(text, Printed(ks), k);
    LexToken(text, PartStart(Printed(ks), k), ks[k]);
    assert Visible(text, PartStart(Printed(ks), k) + j) == ks[k].Plain?;
  }

  // ----- cutting a text at visible characters

  lemma {:induction false} StateInBlock(text: string, open: nat, close: nat, i: nat)
    requires open < close < |text| && Visible(text, open) && i < close - open
    requires i < close - open - 1 || i == 0
    ensures StateAt(text[open + 1..close], i) == StateAt(text, open + 1 + i)
  {
    if i > 0 {
      StateInBlock(text, open, close, i - 1);
      assert text[open + 1..close][i - 1] == text[open + i];
      assert Peek(text[open + 1..close], i) == Peek(text, open + 1 + i);
    }
  }

  /**
   * Reusing the mask is sound: between two visible characters the slice of the whole-file mask
   * is the mask of the enclosed text lexed afresh.
   */
  lemma SliceIsFresh(text: string, open: nat, close: nat)
    requires open < close < |text| && Visible(text, open) && Visible(text, close)
    ensures Mask(text)[open + 1..close] == Mask(text[open + 1..close])
  {
    var block := text[open + 1..close];
    var n := |block|;
    forall i | 0 <= i < n ensures Visible(block, i) == Visible(text, open + 1 + i) {
      StateInBlock(text, open, close, i);
      assert i + 1 < n ==> Peek(block, i + 1) == Peek(text, open + 2 + i);
    }
    if n > 0 {
      StateInBlock(text, open, close, n - 1);
      assert StateAt(text, close) == Code;
      assert !StateAt(block, n).Escaped?;
    }
  }

  // ----- the brace matcher

  /** Visible opening minus closing braces from `open` up to `end`. */
  function Depth(text: string, mask: seq<bool>, open: nat, end: nat): int
    requires open <= end <= |text| <= |mask|
  {
    if open == end then 0 else
    Depth(text, mask, open, end - 1)
    + if !mask[end - 1] then 0 else if text[end - 1] == '{' then 1 else if text[end - 1] == '}' then -1 else 0
  }

  /** The depth just after character `i`. */
  function DepthAfter(text: string, mask: seq<bool>, open: nat, i: nat): int
    requires open <= i < |text| <= |mask|
  {
    Depth(text, mask, open, i + 1)
  }

  /** A visible closing brace at which the depth is back to zero. */
  predicate Closes(text: string, mask: seq<bool>, open: nat, i: nat)
    requires open <= i < |text| <= |mask|
  {
    mask[i] && text[i] == '}' && DepthAfter(text, mask, open, i) == 0
  }

  method FindMatchingBrace(text: string, openIndex: nat, mask: seq<bool>) returns (close: int)
    requires |text| <= |mask|
    ensures close == -1 || openIndex <= close < |text|
    ensures close >= 0 ==> Closes(text, mask, openIndex, close)
    ensures forall i | openIndex <= i < (if close >= 0 then close else |text|) :: !Closes(text, mask, openIndex, i)
  {
    var depth := 0;
    var index := openIndex;
    while index < |text|
      invariant openIndex <= index && (index <= |text| || index == openIndex)
      invariant index <= |text| ==> depth == Depth(text, mask, openIndex, index)
      invariant forall i | openIndex <= i < index && i < |text| :: !Closes(text, mask, openIndex, i)
    {
      if mask[index] {
        if text[index] == '{' {
          depth := depth + 1;
        } else if text[index] == '}' {
          depth := depth - 1;
          if depth == 0 {
            return index;
          }
        }
      }
      index := index + 1;
    }
    close := -1;
  }

  /**
   * From a visible opening brace, an index closes and none before it does exactly when the depth
   * returns to zero there for the first time.
   */
  lemma {:induction false} FirstReturnToZero(text: string, mask: seq<bool>, open: nat, i: nat)
    requires open < i < |text| <= |mask| && mask[open] && text[open] == '{'
    ensures (Closes(text, mask, open, i) && forall j | open <= j < i :: !Closes(text, mask, open, j))
       <==> (DepthAfter(text, mask, open, i) == 0 && forall j | open <= j < i :: DepthAfter(text, mask, open, j) != 0)
    ensures (forall j | open <= j <= i :: !Closes(text, mask, open, j)) <==> (forall j | open <= j <= i :: DepthAfter(text, mask, open, j) > 0)
    decreases i
  {
    assert Depth(text, mask, open, open) == 0 && DepthAfter(text, mask, open, open) == 1;
    if i > open + 1 {
      FirstReturnToZero(text, mask, open, i - 1);
    }
    assert DepthAfter(text, mask, open, i) >= DepthAfter(text, mask, open, i - 1) - 1;
  }

  /** The block the guard reads: the mask slice between matching braces is the block's own mask. */
  method BlockOf(source: string, openIndex: nat) returns (block: Option<(string, seq<bool>)>)
    requires openIndex < |source| && source[openIndex] == '{'
    ensures block.Some? ==> block.value.1 == Mask(block.value.0)
    ensures block.Some? ==> exists close: nat ::
      && openIndex < close < |source| && Closes(source, Mask(source), openIndex, close)
      && block.value.0 == source[openIndex + 1..close]
      && forall i | openIndex <= i < close :: !Closes(source, Mask(source), openIndex, i)
    ensures block.None? <==> (!Visible(source, openIndex) || forall i | openIndex <= i < |source| :: !Closes(source, Mask(source), openIndex, i))
  {
    var sourceMask := ComputeMask(source);
    if !sourceMask[openIndex] {
      return None;
    }
    var close := FindMatchingBrace(source, openIndex, sourceMask);
    if close == -1 {
      return None;
    }
    SliceIsFresh(source, openIndex, close);
    block := Some((source[openIndex + 1..close], sourceMask[openIndex + 1..close]));
  }

  // ----- the comma splitter

  predicate Opens(c: char) { c == '{' || c == '[' || c == '(' }
  predicate Shuts(c: char) { c == '}' || c == ']' || c == ')' }

  /** Visible opening minus closing brackets before `i`. */
  function Nesting(text: string, mask: seq<bool>, i: nat): int
    requires i <= |text| <= |mask|
  {
    if i == 0 then 0 else
    Nesting(text, mask, i - 1) + if !mask[i - 1] then 0 else if Opens(text[i - 1]) then 1 else if Shuts(text[i - 1]) then -1 else 0
  }

  /** A visible comma outside every bracket. */
  predicate IsCut(text: string, mask: seq<bool>, i: nat)
    requires i < |text| <= |mask|
  {
    mask[i] && text[i] == ',' && Nesting(text, mask, i) == 0
  }

  /** Where the piece that is open before `n` starts: after the last cut. */
  function Start(text: string, mask: seq<bool>, n: nat): (start: nat)
    requires n <= |text| <= |mask|
    ensures start <= n
  {
    if n == 0 then 0 else if IsCut(text, mask, n - 1) then n else Start(text, mask, n - 1)
  }

  /** The pieces closed before `n`. */
  function Closed(text: string, mask: seq<bool>, n: nat): seq<string>
    requires n <= |text| <= |mask|
  {
    if n == 0 then []
    else if IsCut(text, mask, n - 1) then Closed(text, mask, n - 1) + [text[Start(text, mask, n - 1)..n - 1]]
    else Closed(text, mask, n - 1)
  }

  function Pieces(text: string, mask: seq<bool>): seq<string>
    requires |text| <= |mask|
  {
    Closed(text, mask, |text|) + [text[Start(text, mask, |text|)..]]
  }

  predicate NotEmpty(s: string) { s != [] }

  /** Top-level entries: trimmed, with the empty ones dropped. */
  function Entries(text: string, mask: seq<bool>): seq<string>
    requires |text| <= |mask|
  {
    Filter(NotEmpty, Map(Trim, Pieces(text, mask)))
  }

  method SplitTopLevelEntries(text: string, mask: seq<bool>) returns (r: seq<string>)
    requires |text| <= |mask|
    ensures r == Entries(text, mask)
  {
    var entries: seq<string> := [];
    var depth, start := 0, 0;
    for index := 0 to |text|
      invariant depth == Nesting(text, mask, index)
      invariant start == Start(text, mask, index)
      invariant entries == Closed(text, mask, index)
    {
      if mask[index] {
        var c := text[index];
        if c == '{' || c == '[' || c == '(' {
          depth := depth + 1;
        } else if c == '}' || c == ']' || c == ')' {
          depth := depth - 1;
        } else if c == ',' && depth == 0 {
          entries := entries + [text[start..index]];
          start := index + 1;
        }
      }
    }
    entries := entries + [text[start..]];
    r := Filter(NotEmpty, Map(Trim, entries));
  }

  predicate HasText(piece: string) { Trim(piece) != "" }

  /** The entries are the trimmed pieces that hold more than whitespace, each piece giving one. */
  lemma EntriesExact(text: string, mask: seq<bool>, entry: string)
    requires |text| <= |mask|
    ensures entry in Entries(text, mask) <==> entry != "" && exists piece :: piece in Pieces(text, mask) && Trim(piece) == entry
    ensures |Entries(text, mask)| == |Places(HasText, Pieces(text, mask))|
  {
    var pieces := Pieces(text, mask);
    var trimmed := Map(Trim, pieces);
    if piece :| piece in pieces && Trim(piece) == entry {
      var i :| 0 <= i < |pieces| && pieces[i] == piece;
      assert trimmed[i] == entry;
    }
    FilterMap(NotEmpty, HasText, Trim, pieces);
    FilterPlaces(HasText, pieces);
  }

  /** Joining with commas, the inverse of cutting at commas. */
  function Join(pieces: seq<string>): string
  {
    if pieces == [] then [] else if |pieces| == 1 then pieces[0]
    else Join(pieces[..|pieces| - 1]) + [','] + pieces[|pieces| - 1]
  }

  lemma JoinSnoc(pieces: seq<string>, p: string)
    ensures Join(pieces + [p]) == if pieces == [] then p else Join(pieces) + [','] + p
  {
    assert (pieces + [p])[..|pieces|] == pieces;
  }

  lemma JoinGrows(pieces: seq<string>, p: string, q: string)
    ensures Join(pieces + [p + q]) == Join(pieces + [p]) + q
  {
    JoinSnoc(pieces, p);
    JoinSnoc(pieces, p + q);
    assert Join(pieces) + [','] + (p + q) == Join(pieces) + [','] + p + q;
  }

  lemma {:induction false} JoinUpTo(text: string, mask: seq<bool>, n: nat)
    requires n <= |text| <= |mask|
    ensures Join(Closed(text, mask, n) + [text[Start(text, mask, n)..n]]) == text[..n]
  {
    if n == 0 {
      assert Join([[]]) == [];
    } else {
      var m := n - 1;
      var start, closed := Start(text, mask, m), Closed(text, mask, m);
      JoinUpTo(text, mask, m);
      assert text[..n] == text[..m] + [text[m]];
      if IsCut(text, mask, m) {
        assert text[n..n] == [];
        JoinSnoc(closed + [text[start..m]], []);
        assert text[..m] + [','] + [] == text[..n];
      } else {
        JoinGrows(closed, text[start..m], [text[m]]);
        assert text[start..n] == text[start..m] + [text[m]];
      }
    }
  }

  /** A piece starts at the beginning or right after a cut, and holds none. */
  lemma {:induction false} StartAfterLastCut(text: string, mask: seq<bool>, n: nat)
    requires n <= |text| <= |mask|
    ensures var start := Start(text, mask, n);
      && (start > 0 ==> IsCut(text, mask, start - 1))
      && forall i | start <= i < n :: !IsCut(text, mask, i)
  {
    if n > 0 {
      StartAfterLastCut(text, mask, n - 1);
    }
  }

  /** Splitting loses nothing: the raw pieces rejoined with commas give back the text. */
  lemma PiecesRejoin(text: string, mask: seq<bool>)
    requires |text| <= |mask|
    ensures Join(Pieces(text, mask)) == text
  {
    JoinUpTo(text, mask, |text|);
    assert text[..|text|] == text;
  }

  function CutsBefore(text: string, mask: seq<bool>, n: nat): nat
    requires n <= |text| <= |mask|
  {
    if n == 0 then 0 else CutsBefore(text, mask, n - 1) + if IsCut(text, mask, n - 1) then 1 else 0
  }

  /**
   * The text is cut at exactly the visible commas outside every bracket: the k-th such comma ends
   * the k-th piece, which runs from the comma before it, and there is one piece more than commas.
   */
  lemma {:induction false} PieceEndsAtCut(text: string, mask: seq<bool>, i: nat, n: nat)
    requires i <= n <= |text| <= |mask|
    ensures |Closed(text, mask, n)| == CutsBefore(text, mask, n) >= CutsBefore(text, mask, i)
    ensures i < n && IsCut(text, mask, i) ==>
      && CutsBefore(text, mask, i) < CutsBefore(text, mask, n)
      && Closed(text, mask, n)[CutsBefore(text, mask, i)] == text[Start(text, mask, i)..i]
    ensures |Pieces(text, mask)| == CutsBefore(text, mask, |text|) + 1
    decreases |text| - i, n
  {
    if i < n {
      PieceEndsAtCut(text, mask, i, n - 1);
    } else if n > 0 {
      assert |Closed(text, mask, n)| == CutsBefore(text, mask, n) by { CountClosed(text, mask, n); }
    }
    CountClosed(text, mask, |text|);
  }

  lemma {:induction false} CountClosed(text: string, mask: seq<bool>, n: nat)
    requires n <= |text| <= |mask|
    ensures |Closed(text, mask, n)| == CutsBefore(text, mask, n)
  {
    if n > 0 {
      CountClosed(text, mask, n - 1);
    }
  }
}
