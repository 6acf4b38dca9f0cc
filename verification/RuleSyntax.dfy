/**
 The web editor's tokenizer for the same language: lossless on every text, and in
 step with the scanner on every source the scanner accepts.
 */
module RuleSyntax {
  import opened RuleText
  import opened RuleErrors
  import opened RuleLexer

  datatype HighlightKind = Keyword | AggregationWord | MetricWord
    | NumberPart | UnitWord | Operator | Punctuation | Plain

  datatype Highlight = Highlight(kind: HighlightKind, text: string)

  /** White space as regular expressions see it. */
  predicate IsBlank(c: char) {
    IsSpace(c) || c in {'\U{000B}', '\U{000C}', '\U{00A0}', '\U{1680}', '\U{2028}', '\U{2029}',
      '\U{202F}', '\U{205F}', '\U{3000}', '\U{FEFF}'}
    || '\U{2000}' <= c <= '\U{200A}'
  }

  predicate IsOperatorChar(c: char) {
    c == '<' || c == '>' || c == '=' || c == '!'
  }

  function WordKind(word: string): HighlightKind {
    var lower := Lower(word);
    if lower in {"for", "on", "contract", "network"} then Keyword
    else if lower in {"avg", "max", "min", "sum", "rate", "count"} then AggregationWord
    else if lower in {"xlm", "stroops", "instructions", "bytes", "ledgers", "%"} then UnitWord
    else MetricWord
  }

  /** The highlighting tokens at i, one or two, and the position after them. */
  datatype Block = Block(tokens: seq<Highlight>, next: nat)

  function NumberBlock(src: string, i: nat): Block
    requires i < |src|
  {
    var j := NumberEnd(src, i);
    if j < |src| && IsLetter(src[j]) then
      var k := RunEnd(src, j, IsLetter);
      Block([Highlight(NumberPart, src[i..j]), Highlight(NumberPart, src[j..k])], k)
    else Block([Highlight(NumberPart, src[i..j])], j)
  }

  function BlockAt(src: string, i: nat): Block
    requires i < |src|
  {
    var c := src[i];
    if IsBlank(c) then
      var j := RunEnd(src, i, IsBlank);
      Block([Highlight(Plain, src[i..j])], j)
    else if c == '"' || c == '\'' then
      var j := QuoteEnd(src, i + 1, c);
      var k := if j < |src| then j + 1 else j;
      Block([Highlight(Plain, src[i..k])], k)
    else if IsDigit(c) || c == '.' then NumberBlock(src, i)
    else if IsIdentStart(c) then
      var j := RunEnd(src, i, IsIdentPart);
      Block([Highlight(WordKind(src[i..j]), src[i..j])], j)
    else if c == '%' then Block([Highlight(UnitWord, "%")], i + 1)
    else if IsOperatorChar(c) then
      var j := if PeekAt(src, i + 1) == '=' then i + 2 else i + 1;
      Block([Highlight(Operator, src[i..j])], j)
    else if c == '(' || c == ')' then Block([Highlight(Punctuation, [c])], i + 1)
    else Block([Highlight(Plain, [c])], i + 1)
  }

  function Joined(hs: seq<Highlight>): string {
    if hs == [] then "" else hs[0].text + Joined(hs[1..])
  }

  lemma JoinedOne(h: Highlight)
    ensures Joined([h]) == h.text
  {
    assert [h][1..] == [];
  }

  lemma JoinedTwo(g: Highlight, h: Highlight)
    ensures Joined([g, h]) == g.text + h.text
  {
    assert [g, h][1..] == [h];
    JoinedOne(h);
  }

  lemma {:induction false} JoinedAppend(a: seq<Highlight>, b: seq<Highlight>)
    ensures Joined(a + b) == Joined(a) + Joined(b)
  {
    if a == [] {
      assert a + b == b;
    } else {
      assert (a + b)[1..] == a[1..] + b;
      JoinedAppend(a[1..], b);
    }
  }

  lemma NumberIsLonger(src: string, i: nat)
    requires i < |src| && IsNumberPart(src[i])
    ensures NumberEnd(src, i) > i
  {
    assert RunEnd(src, i, IsNumberPart) > i;
  }

  /** A block spells exactly the characters it consumes, and consumes at least one. */
  lemma BlockSpells(src: string, i: nat)
    requires i < |src|
    ensures var b := BlockAt(src, i);
      i < b.next <= |src| && Joined(b.tokens) == src[i..b.next] && 1 <= |b.tokens| <= 2
  {
    if IsNumberPart(src[i]) {
      NumberBlockSpells(src, i);
    } else {
      OtherBlockSpells(src, i);
    }
  }

  lemma NumberBlockSpells(src: string, i: nat)
    requires i < |src| && IsNumberPart(src[i])
    ensures BlockAt(src, i) == NumberBlock(src, i)
    ensures var b := NumberBlock(src, i);
      i < b.next <= |src| && Joined(b.tokens) == src[i..b.next] && 1 <= |b.tokens| <= 2
  {
    NumberIsLonger(src, i);
    var b := NumberBlock(src, i);
    if |b.tokens| == 1 {
      JoinedOne(b.tokens[0]);
    } else {
      JoinedTwo(b.tokens[0], b.tokens[1]);
    }
  }

  lemma OtherBlockSpells(src: string, i: nat)
    requires i < |src| && !IsNumberPart(src[i])
    ensures var b := BlockAt(src, i);
      i < b.next <= |src| && Joined(b.tokens) == src[i..b.next] && |b.tokens| == 1
  {
    JoinedOne(BlockAt(src, i).tokens[0]);
    if IsIdentStart(src[i]) {
      assert RunEnd(src, i, IsIdentPart) > i;
    }
    if IsBlank(src[i]) {
      assert RunEnd(src, i, IsBlank) > i;
    }
  }

  function HighlightFrom(src: string, i: nat): seq<Highlight>
    requires i <= |src|
    decreases |src| - i
  {
    if i == |src| then []
    else
      BlockSpells(src, i);
      BlockAt(src, i).tokens + HighlightFrom(src, BlockAt(src, i).next)
  }

  /** Nothing is lost: the token texts put together are the source. */
  lemma {:induction false} Lossless(src: string, i: nat)
    requires i <= |src|
    ensures Joined(HighlightFrom(src, i)) == src[i..]
    decreases |src| - i
  {
    if i < |src| {
      BlockSpells(src, i);
      var b := BlockAt(src, i);
      Lossless(src, b.next);
      JoinedStep(HighlightFrom(src, i), b.tokens, HighlightFrom(src, b.next), src, i, b.next);
    }
  }

  lemma JoinedStep(hs: seq<Highlight>, a: seq<Highlight>, b: seq<Highlight>, src: string, i: nat, next: nat)
    requires hs == a + b && i <= next <= |src|
    requires Joined(a) == src[i..next] && Joined(b) == src[next..]
    ensures Joined(hs) == src[i..]
  {
    JoinedAppend(a, b);
    assert src[i..next] + src[next..] == src[i..];
  }

  // ----- the tokenizer's loops -----

  method ScanRun(src: string, start: nat, p: char -> bool) returns (j: nat)
    requires start <= |src|
    ensures j == RunEnd(src, start, p)
  {
    j := start;
    while j < |src| && p(src[j])
      invariant j <= |src|
      invariant RunEnd(src, j, p) == RunEnd(src, start, p)
    {
      j := j + 1;
    }
  }

  method ScanQuoted(src: string, i: nat) returns (j: nat)
    requires i < |src|
    ensures j == var e := QuoteEnd(src, i + 1, src[i]); if e < |src| then e + 1 else e
  {
    j := i + 1;
    while j < |src| && src[j] != src[i]
      invariant j <= |src|
      invariant QuoteEnd(src, j, src[i]) == QuoteEnd(src, i + 1, src[i])
    {
      j := j + 1;
    }
    if j < |src| {
      j := j + 1;
    }
  }

  method ScanNumber(src: string, i: nat) returns (j: nat)
    requires i < |src|
    ensures j == NumberEnd(src, i)
  {
    j := ScanRun(src, i, IsNumberPart);
    if j < |src| && IsExponentMark(src[j]) {
      var next := PeekAt(src, j + 1);
      if IsDigit(next) || (IsSign(next) && IsDigit(PeekAt(src, j + 2))) {
        j := j + 1;
        if IsSign(src[j]) {
          j := j + 1;
        }
        j := ScanRun(src, j, IsDigit);
      }
    }
  }

  /** One turn of the loop: the tokens it pushes, and where it goes on. */
  method PushTokens(source: string, i: nat) returns (pushed: seq<Highlight>, j: nat)
    requires i < |source|
    ensures Block(pushed, j) == BlockAt(source, i)
  {
    var ch := source[i];
    if IsBlank(ch) {
      j := ScanRun(source, i, IsBlank);
      pushed := [Highlight(Plain, source[i..j])];
    } else if ch == '"' || ch == '\'' {
      j := ScanQuoted(source, i);
      pushed := [Highlight(Plain, source[i..j])];
    } else if IsDigit(ch) || ch == '.' {
      j := ScanNumber(source, i);
      pushed := [Highlight(NumberPart, source[i..j])];
      if j < |source| && IsLetter(source[j]) {
        var k := ScanRun(source, j, IsLetter);
        pushed := pushed + [Highlight(NumberPart, source[j..k])];
        j := k;
      }
    } else if IsIdentStart(ch) {
      j := ScanRun(source, i, IsIdentPart);
      pushed := [Highlight(WordKind(source[i..j]), source[i..j])];
    } else if ch == '%' {
      j := i + 1;
      pushed := [Highlight(UnitWord, "%")];
    } else if IsOperatorChar(ch) {
      j := if PeekAt(source, i + 1) == '=' then i + 2 else i + 1;
      pushed := [Highlight(Operator, source[i..j])];
    } else {
      j := i + 1;
      pushed := [Highlight(if ch == '(' || ch == ')' then Punctuation else Plain, [ch])];
    }
  }

  method TokenizeRule(source: string) returns (tokens: seq<Highlight>)
    ensures tokens == HighlightFrom(source, 0)
  {
    tokens := [];
    var i := 0;
    while i < |source|
      invariant i <= |source|
      invariant tokens + HighlightFrom(source, i) == HighlightFrom(source, 0)
      decreases |source| - i
    {
      ghost var before := tokens;
      BlockSpells(source, i);
      var pushed, j := PushTokens(source, i);
      assert before + (pushed + HighlightFrom(source, j)) == before + pushed + HighlightFrom(source, j);
      tokens := tokens + pushed;
      i := j;
    }
  }

  // ----- in step with the scanner -----

  /** A piece of the source and where it starts. */
  datatype Span = Span(at: nat, text: string)

  predicate AllBlank(s: string) {
    forall k :: 0 <= k < |s| ==> IsBlank(s[k])
  }

  /** The tokens that are not white space, with their positions. */
  function Visible(hs: seq<Highlight>, at: nat): seq<Span> {
    if hs == [] then []
    else
      var rest := Visible(hs[1..], at + |hs[0].text|);
      if AllBlank(hs[0].text) then rest else [Span(at, hs[0].text)] + rest
  }

  /** A percentage or a duration: a number with something glued to it. */
  predicate HasSuffix(tok: Token) {
    tok.kind == Duration || (tok.kind == Number && tok.text != "" && tok.text[|tok.text| - 1] == '%')
  }

  /** The characters a lexeme occupies: a quoted string counts its quotes. */
  function Extent(tok: Token): nat {
    |tok.text| + (if tok.kind == Str then 2 else 0)
  }

  predicate Inside(src: string, tok: Token) {
    tok.pos < tok.pos + Extent(tok) <= |src| && NumberEnd(src, tok.pos) <= |src|
    && (HasSuffix(tok) ==> NumberEnd(src, tok.pos) <= tok.pos + Extent(tok))
  }

  /** One span per lexeme; two when a percent sign or a unit is glued to a number. */
  function Pieces(src: string, tok: Token): seq<Span>
    requires Inside(src, tok)
  {
    var i, e := tok.pos, tok.pos + Extent(tok);
    if HasSuffix(tok) then
      var j := NumberEnd(src, i);
      [Span(i, src[i..j]), Span(j, src[j..e])]
    else [Span(i, src[i..e])]
  }

  function AllPieces(src: string, toks: seq<Token>): seq<Span>
    requires forall k :: 0 <= k < |toks| && toks[k].kind != EOF ==> Inside(src, toks[k])
  {
    if toks == [] || toks[0].kind == EOF then [] else Pieces(src, toks[0]) + AllPieces(src, toks[1..])
  }

  lemma NumberLexeme(src: string, i: nat)
    requires i < |src| && IsNumberPart(src[i])
    ensures var j := NumberEnd(src, i); i < j && src[i..j][|src[i..j]| - 1] != '%'
  {
    var j := RunEnd(src, i, IsNumberPart);
    assert j > i && IsNumberPart(src[j - 1]);
    if ExponentAt(src, j) {
      var k := if IsSign(src[j + 1]) then j + 2 else j + 1;
      assert IsDigit(src[k]);
      var e := RunEnd(src, k, IsDigit);
      assert e > k && IsDigit(src[e - 1]);
    }
  }

  /** What the scanner makes of a number, in terms of where its digits end. */
  predicate NumberFacts(src: string, i: nat, tok: Token, next: nat)
    requires i < |src|
  {
    var j := NumberEnd(src, i);
    && tok.pos == i < j <= next <= |src| && next == i + Extent(tok)
    && HasSuffix(tok) == (next != j)
    && (if tok.kind == Duration then j < next && IsLetter(src[j]) && next == RunEnd(src, j, IsLetter)
        else !(j < |src| && IsLetter(src[j])) && (next == j || (next == j + 1 && src[j] == '%')))
  }

  lemma NumberStep(src: string, i: nat)
    requires i < |src| && IsNumberPart(src[i]) && LexOne(src, i).Step?
    ensures NumberFacts(src, i, LexOne(src, i).tok, LexOne(src, i).next)
  {
    NumberLexeme(src, i);
    assert LexOne(src, i) == LexNumberAt(src, i);
    var j := NumberEnd(src, i);
    if j < |src| && IsLetter(src[j]) {
      assert RunEnd(src, j, IsLetter) > j;
    }
  }

  /** Every other lexeme is one block of one token with the same text. */
  predicate OtherFacts(src: string, i: nat, tok: Token, next: nat)
    requires i < |src|
  {
    && tok.pos == i < next <= |src| && next == i + Extent(tok) && !HasSuffix(tok) && !IsBlank(src[i])
    && exists kind :: BlockAt(src, i) == Block([Highlight(kind, src[i..next])], next)
  }

  lemma {:induction false} OtherStep(src: string, i: nat)
    requires i < |src| && !IsSpace(src[i]) && !IsNumberPart(src[i]) && LexOne(src, i).Step?
    ensures OtherFacts(src, i, LexOne(src, i).tok, LexOne(src, i).next)
  {
    LexOneProgress(src, i);
    var next := LexOne(src, i).next;
    OtherBlock(src, i, next);
    assert BlockAt(src, i) == Block([Highlight(BlockAt(src, i).tokens[0].kind, src[i..next])], next);
  }

  lemma {:induction false} OtherBlock(src: string, i: nat, next: nat)
    requires i < next <= |src| && !IsSpace(src[i]) && !IsNumberPart(src[i])
    requires LexOne(src, i).Step? && LexOne(src, i).next == next
    ensures BlockAt(src, i).tokens != []
    ensures BlockAt(src, i) == Block([Highlight(BlockAt(src, i).tokens[0].kind, src[i..next])], next)
  {
    if IsIdentStart(src[i]) {
      assert LexOne(src, i) == LexIdentAt(src, i);
    } else if src[i] == '"' || src[i] == '\'' {
      assert LexOne(src, i) == LexStringAt(src, i);
    }
    assert |BlockAt(src, i).tokens| == 1 && BlockAt(src, i).tokens[0].text == src[i..next];
  }

  lemma {:induction false} VisibleAppend(a: seq<Highlight>, b: seq<Highlight>, at: nat)
    ensures Visible(a + b, at) == Visible(a, at) + Visible(b, at + |Joined(a)|)
  {
    if a == [] {
      assert a + b == b;
    } else {
      assert (a + b)[1..] == a[1..] + b;
      VisibleAppend(a[1..], b, at + |a[0].text|);
    }
  }

  lemma VisibleOne(h: Highlight, at: nat)
    requires h.text != "" && !IsBlank(h.text[0])
    ensures Visible([h], at) == [Span(at, h.text)]
  {
    assert [h][1..] == [];
  }

  lemma {:induction false} HighlightStep(src: string, i: nat, tokens: seq<Highlight>, next: nat)
    requires i < |src| && BlockAt(src, i) == Block(tokens, next)
    ensures i < next <= |src| && HighlightFrom(src, i) == tokens + HighlightFrom(src, next)
  {
    BlockSpells(src, i);
  }

  /** One block of one visible token. */
  lemma {:induction false} OneVisible(src: string, i: nat, kind: HighlightKind, n: nat)
    requires i < n <= |src| && BlockAt(src, i) == Block([Highlight(kind, src[i..n])], n) && !IsBlank(src[i])
    ensures Visible(HighlightFrom(src, i), i) == [Span(i, src[i..n])] + Visible(HighlightFrom(src, n), n)
  {
    HighlightStep(src, i, [Highlight(kind, src[i..n])], n);
    VisibleFirst(HighlightFrom(src, i), Highlight(kind, src[i..n]), HighlightFrom(src, n), i, n);
  }

  lemma {:induction false} VisibleFirst(hs: seq<Highlight>, h: Highlight, rest: seq<Highlight>, at: nat, end: nat)
    requires hs == [h] + rest && h.text != "" && !IsBlank(h.text[0]) && end == at + |h.text|
    ensures Visible(hs, at) == [Span(at, h.text)] + Visible(rest, end)
  {
    VisibleInFront(h, rest, at);
  }

  lemma VisibleInFront(h: Highlight, rest: seq<Highlight>, at: nat)
    requires h.text != "" && !IsBlank(h.text[0])
    ensures Visible([h] + rest, at) == [Span(at, h.text)] + Visible(rest, at + |h.text|)
  {
    JoinedOne(h);
    VisibleAppend([h], rest, at);
    VisibleOne(h, at);
  }

  lemma {:induction false} TwoSpans(g: Highlight, h: Highlight, rest: seq<Highlight>, at: nat)
    requires g.text != "" && !IsBlank(g.text[0]) && h.text != "" && !IsBlank(h.text[0])
    ensures Visible([g, h] + rest, at)
      == [Span(at, g.text), Span(at + |g.text|, h.text)] + Visible(rest, at + |g.text| + |h.text|)
  {
    assert [g, h] + rest == [g] + ([h] + rest);
    JoinedOne(g);
    JoinedOne(h);
    VisibleAppend([g], [h] + rest, at);
    VisibleAppend([h], rest, at + |g.text|);
    VisibleOne(g, at);
    VisibleOne(h, at + |g.text|);
  }

  lemma DurationBlock(src: string, i: nat, j: nat, n: nat)
    requires i < j < n <= |src| && IsNumberPart(src[i]) && IsLetter(src[j])
    requires j == NumberEnd(src, i) && n == RunEnd(src, j, IsLetter)
    ensures BlockAt(src, i) == Block([Highlight(NumberPart, src[i..j]), Highlight(NumberPart, src[j..n])], n)
  {
  }

  lemma NumberOnlyBlock(src: string, i: nat, j: nat)
    requires i < j <= |src| && IsNumberPart(src[i]) && j == NumberEnd(src, i) && !(j < |src| && IsLetter(src[j]))
    ensures BlockAt(src, i) == Block([Highlight(NumberPart, src[i..j])], j)
  {
  }

  /** A duration is one block of two visible tokens. */
  lemma {:induction false} DurationVisible(src: string, i: nat, j: nat, n: nat)
    requires i < j < n <= |src| && IsNumberPart(src[i]) && IsLetter(src[j])
    requires j == NumberEnd(src, i) && n == RunEnd(src, j, IsLetter)
    ensures Visible(HighlightFrom(src, i), i)
      == [Span(i, src[i..j]), Span(j, src[j..n])] + Visible(HighlightFrom(src, n), n)
  {
    DurationSplit(src, i, j, n);
    VisiblePair(src, i, j, n, HighlightFrom(src, i), HighlightFrom(src, n));
  }

  lemma {:induction false} VisiblePair(src: string, i: nat, j: nat, n: nat, hs: seq<Highlight>, rest: seq<Highlight>)
    requires i < j < n <= |src| && !IsBlank(src[i]) && !IsBlank(src[j])
    requires hs == [Highlight(NumberPart, src[i..j]), Highlight(NumberPart, src[j..n])] + rest
    ensures Visible(hs, i) == [Span(i, src[i..j]), Span(j, src[j..n])] + Visible(rest, n)
  {
    TwoSpans(Highlight(NumberPart, src[i..j]), Highlight(NumberPart, src[j..n]), rest, i);
  }

  lemma {:induction false} DurationSplit(src: string, i: nat, j: nat, n: nat)
    requires i < j < n <= |src| && IsNumberPart(src[i]) && IsLetter(src[j])
    requires j == NumberEnd(src, i) && n == RunEnd(src, j, IsLetter)
    ensures HighlightFrom(src, i)
      == [Highlight(NumberPart, src[i..j]), Highlight(NumberPart, src[j..n])] + HighlightFrom(src, n)
    ensures !IsBlank(src[i]) && !IsBlank(src[j])
  {
    DurationBlock(src, i, j, n);
    HighlightStep(src, i, [Highlight(NumberPart, src[i..j]), Highlight(NumberPart, src[j..n])], n);
  }

  /** A percentage is two blocks of one visible token. */
  lemma {:induction false} PercentVisible(src: string, i: nat, j: nat, n: nat)
    requires i < j < |src| && IsNumberPart(src[i]) && j == NumberEnd(src, i) && src[j] == '%' && n == j + 1
    ensures Visible(HighlightFrom(src, i), i)
      == [Span(i, src[i..j]), Span(j, src[j..n])] + Visible(HighlightFrom(src, n), n)
  {
    NumberOnlyBlock(src, i, j);
    PercentBlock(src, j);
    OneVisible(src, i, NumberPart, j);
    OneVisible(src, j, UnitWord, n);
    TwoInFront(Span(i, src[i..j]), Span(j, src[j..n]), Visible(HighlightFrom(src, n), n));
  }

  lemma PercentBlock(src: string, j: nat)
    requires j < |src| && src[j] == '%'
    ensures BlockAt(src, j) == Block([Highlight(UnitWord, src[j..j + 1])], j + 1)
  {
    assert src[j..j + 1] == "%";
  }

  lemma TwoInFront(a: Span, b: Span, rest: seq<Span>)
    ensures [a] + ([b] + rest) == [a, b] + rest
  {
  }

  lemma PlainPieces(src: string, i: nat, tok: Token, next: nat)
    requires i < |src| && tok.pos == i < next <= |src| && next == i + Extent(tok) && !HasSuffix(tok)
    ensures Inside(src, tok) && Pieces(src, tok) == [Span(i, src[i..next])]
  {
  }

  lemma SplitPieces(src: string, i: nat, tok: Token, next: nat, j: nat)
    requires i < |src| && tok.pos == i < j <= next <= |src| && next == i + Extent(tok) && HasSuffix(tok)
    requires j == NumberEnd(src, i)
    ensures Inside(src, tok) && Pieces(src, tok) == [Span(i, src[i..j]), Span(j, src[j..next])]
  {
  }

  /** The lexeme's pieces are the next visible tokens. */
  predicate PiecesFirst(src: string, i: nat, tok: Token, next: nat) {
    Inside(src, tok) && tok.pos == i < next <= |src|
    && Visible(HighlightFrom(src, i), i) == Pieces(src, tok) + Visible(HighlightFrom(src, next), next)
  }

  lemma {:induction false} NumberPieces(src: string, i: nat, tok: Token, next: nat)
    requires i < |src| && IsNumberPart(src[i]) && NumberFacts(src, i, tok, next)
    ensures PiecesFirst(src, i, tok, next)
  {
    if tok.kind == Duration {
      DurationPieces(src, i, tok, next);
    } else if next == NumberEnd(src, i) {
      PlainNumberPieces(src, i, tok, next);
    } else {
      PercentPieces(src, i, tok, next);
    }
  }

  lemma {:induction false} DurationPieces(src: string, i: nat, tok: Token, next: nat)
    requires i < |src| && IsNumberPart(src[i]) && NumberFacts(src, i, tok, next) && tok.kind == Duration
    ensures PiecesFirst(src, i, tok, next)
  {
    SplitPieces(src, i, tok, next, NumberEnd(src, i));
    DurationVisible(src, i, NumberEnd(src, i), next);
  }

  lemma {:induction false} PlainNumberPieces(src: string, i: nat, tok: Token, next: nat)
    requires i < |src| && IsNumberPart(src[i]) && NumberFacts(src, i, tok, next) && next == NumberEnd(src, i)
    ensures PiecesFirst(src, i, tok, next)
  {
    PlainPieces(src, i, tok, next);
    NumberOnlyBlock(src, i, next);
    OneVisible(src, i, NumberPart, next);
  }

  lemma {:induction false} PercentPieces(src: string, i: nat, tok: Token, next: nat)
    requires i < |src| && IsNumberPart(src[i]) && NumberFacts(src, i, tok, next)
    requires tok.kind != Duration && next != NumberEnd(src, i)
    ensures PiecesFirst(src, i, tok, next)
  {
    SplitPieces(src, i, tok, next, NumberEnd(src, i));
    PercentVisible(src, i, NumberEnd(src, i), next);
  }

  lemma {:induction false} OtherPieces(src: string, i: nat, tok: Token, next: nat)
    requires i < |src| && OtherFacts(src, i, tok, next)
    ensures PiecesFirst(src, i, tok, next)
  {
    PlainPieces(src, i, tok, next);
    var kind :| BlockAt(src, i) == Block([Highlight(kind, src[i..next])], next);
    OneVisible(src, i, kind, next);
  }

  /** A run of white space that the scanner accepts is skipped by both. */
  lemma {:induction false} BlanksSkipped(src: string, i: nat, j: nat)
    requires i <= j <= |src| && (forall k :: i <= k < j ==> IsBlank(src[k])) && LexFrom(src, i).Ok?
    ensures LexFrom(src, i) == LexFrom(src, j)
    decreases j - i
  {
    if i < j {
      assert IsBlank(src[i]);
      ForeignBlank(src, i);
      BlanksSkipped(src, i + 1, j);
    }
  }

  /** White space the scanner does not know is an error. */
  lemma ForeignBlank(src: string, i: nat)
    requires i < |src| && IsBlank(src[i]) && LexFrom(src, i).Ok?
    ensures IsSpace(src[i]) && LexFrom(src, i + 1).Ok?
  {
  }

  lemma BlankBlock(src: string, i: nat)
    requires i < |src| && IsBlank(src[i])
    ensures var j := RunEnd(src, i, IsBlank); BlockAt(src, i) == Block([Highlight(Plain, src[i..j])], j)
  {
  }

  lemma {:induction false} BlankSplit(src: string, i: nat, j: nat)
    requires i < |src| && IsBlank(src[i]) && j == RunEnd(src, i, IsBlank)
    ensures i < j && HighlightFrom(src, i) == [Highlight(Plain, src[i..j])] + HighlightFrom(src, j)
  {
    BlankBlock(src, i);
    HighlightStep(src, i, [Highlight(Plain, src[i..j])], j);
  }

  lemma InvisibleOne(hs: seq<Highlight>, h: Highlight, rest: seq<Highlight>, at: nat, end: nat)
    requires hs == [h] + rest && AllBlank(h.text) && end == at + |h.text|
    ensures Visible(hs, at) == Visible(rest, end)
  {
    assert ([h] + rest)[1..] == rest;
  }

  lemma {:induction false} BlankInvisible(src: string, i: nat)
    requires i < |src| && IsBlank(src[i])
    ensures var j := RunEnd(src, i, IsBlank);
      i < j && Visible(HighlightFrom(src, i), i) == Visible(HighlightFrom(src, j), j)
  {
    var j := RunEnd(src, i, IsBlank);
    BlankSplit(src, i, j);
    InvisibleOne(HighlightFrom(src, i), Highlight(Plain, src[i..j]), HighlightFrom(src, j), i, j);
  }

  predicate AllInside(src: string, toks: seq<Token>) {
    forall k :: 0 <= k < |toks| && toks[k].kind != EOF ==> Inside(src, toks[k])
  }

  /**
   On every source the scanner accepts, each of its tokens is exactly one visible
   highlighting token, or two when a percent sign or a unit is glued to a number.
   */
  lemma {:induction false} LexersAgree(src: string, i: nat)
    requires i <= |src| && LexFrom(src, i).Ok?
    ensures AllInside(src, LexFrom(src, i).value)
    ensures Visible(HighlightFrom(src, i), i) == AllPieces(src, LexFrom(src, i).value)
    decreases |src| - i
  {
    if i < |src| {
      if IsBlank(src[i]) {
        BlankInvisible(src, i);
        var j := RunEnd(src, i, IsBlank);
        BlanksSkipped(src, i, j);
        LexersAgree(src, j);
      } else {
        var tok, next, rest := FirstLexeme(src, i);
        if IsNumberPart(src[i]) {
          NumberStep(src, i);
          NumberPieces(src, i, tok, next);
        } else {
          OtherStep(src, i);
          OtherPieces(src, i, tok, next);
        }
        LexersAgree(src, next);
        PiecesOfRest(src, tok, rest);
      }
    }
  }

  lemma FirstLexeme(src: string, i: nat) returns (tok: Token, next: nat, rest: seq<Token>)
    requires i < |src| && !IsSpace(src[i]) && LexFrom(src, i).Ok?
    ensures LexOne(src, i) == Step(tok, next) && tok.kind != EOF && i < next <= |src|
    ensures LexFrom(src, next) == Ok(rest) && LexFrom(src, i) == Ok([tok] + rest)
  {
    LexOneProgress(src, i);
    tok, next := LexOne(src, i).tok, LexOne(src, i).next;
    rest := LexFrom(src, next).value;
  }

  lemma PiecesOfRest(src: string, tok: Token, rest: seq<Token>)
    requires tok.kind != EOF && Inside(src, tok) && AllInside(src, rest)
    ensures AllInside(src, [tok] + rest)
    ensures AllPieces(src, [tok] + rest) == Pieces(src, tok) + AllPieces(src, rest)
  {
    assert ([tok] + rest)[1..] == rest;
  }
}
