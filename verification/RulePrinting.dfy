/**
 The printed rule as a row of lexemes, and the proof that the scanner finds
 exactly those lexemes again.
 */
module RulePrinting {
  import opened RuleText
  import opened RuleErrors
  import opened RuleCatalog
  import opened RuleLexer
  import opened RuleAst
  import opened Decimal

  /** A lexeme as it is printed, with or without a blank before it. */
  datatype Chunk = Chunk(kind: TokenKind, text: string, spaced: bool)

  function Blank(spaced: bool): string {
    if spaced then " " else ""
  }

  function Render(cs: seq<Chunk>): string {
    if cs == [] then "" else Blank(cs[0].spaced) + cs[0].text + Render(cs[1..])
  }

  function NumberChunks(value: Dec, unit: Unit, spaced: bool): seq<Chunk> {
    if unit == Ratio then [Chunk(Number, Print(Mul100(value)) + "%", spaced)]
    else if unit == NoUnit then [Chunk(Number, Print(value), spaced)]
    else [Chunk(Number, Print(value), spaced), Chunk(Ident, UnitName(unit), true)]
  }

  function NodeChunks(n: Node, spaced: bool): (cs: seq<Chunk>)
    ensures cs != [] && cs[0].spaced == spaced
  {
    match n
    case NumberLiteral(_, value, unit, _) => NumberChunks(value, unit, spaced)
    case MetricRef(_, name) => [Chunk(Ident, name, spaced)]
    case Aggregation(_, fn, _, metric) =>
      [Chunk(Ident, fn, spaced), Chunk(LParen, "(", false), Chunk(Ident, metric, false), Chunk(RParen, ")", false)]
    case Comparison(_, op, _, left, right) =>
      NodeChunks(left, spaced) + [Chunk(OpKind(op), OpText(op), true)] + NodeChunks(right, true)
    case Grouping(_, inner) =>
      [Chunk(LParen, "(", spaced)] + NodeChunks(inner, false) + [Chunk(RParen, ")", false)]
  }

  function Word(text: string): Chunk {
    Chunk(Ident, text, true)
  }

  function WindowChunks(window: nat): seq<Chunk> {
    if window > 0 then [Word("for"), Chunk(Duration, FormatDuration(window), true)] else []
  }

  function ContractChunks(contractID: string): seq<Chunk> {
    if contractID != "" then [Word("on"), Word("contract"), Word(contractID)] else []
  }

  function NetworkChunks(network: string): seq<Chunk> {
    if network != "" then [Word("on"), Word("network"), Word(network)] else []
  }

  function RuleChunks(r: Rule): seq<Chunk> {
    NodeChunks(r.expr, false) + (WindowChunks(r.window) + (ContractChunks(r.contractID) + NetworkChunks(r.network)))
  }

  // ----- the chunks spell the printed text -----

  lemma {:induction false} RenderAppend(a: seq<Chunk>, b: seq<Chunk>)
    ensures Render(a + b) == Render(a) + Render(b)
  {
    if a == [] {
      assert a + b == b;
    } else {
      assert (a + b)[1..] == a[1..] + b;
      RenderAppend(a[1..], b);
    }
  }

  lemma RenderOne(c: Chunk)
    ensures Render([c]) == Blank(c.spaced) + c.text
  {
    assert [c][1..] == [];
  }

  lemma RenderTwo(a: Chunk, b: Chunk)
    ensures Render([a, b]) == Blank(a.spaced) + a.text + (Blank(b.spaced) + b.text)
  {
    assert [a, b] == [a] + [b];
    RenderAppend([a], [b]);
    RenderOne(a);
    RenderOne(b);
  }

  lemma RenderNumber(value: Dec, unit: Unit, spaced: bool)
    ensures Render(NumberChunks(value, unit, spaced)) == Blank(spaced) + FormatNumber(value, unit)
  {
    if unit == Ratio {
      RenderOne(Chunk(Number, Print(Mul100(value)) + "%", spaced));
    } else if unit == NoUnit {
      RenderOne(Chunk(Number, Print(value), spaced));
    } else {
      RenderTwo(Chunk(Number, Print(value), spaced), Word(UnitName(unit)));
    }
  }

  lemma RenderAggregation(n: Node, spaced: bool)
    requires n.Aggregation?
    ensures Render(NodeChunks(n, spaced)) == Blank(spaced) + FormatNode(n)
  {
    var cs := NodeChunks(n, spaced);
    assert cs == [cs[0], cs[1]] + [cs[2], cs[3]];
    RenderAppend([cs[0], cs[1]], [cs[2], cs[3]]);
    RenderTwo(cs[0], cs[1]);
    RenderTwo(cs[2], cs[3]);
  }

  lemma RenderAround(a: seq<Chunk>, c: Chunk, b: seq<Chunk>)
    ensures Render(a + [c] + b) == Render(a) + Blank(c.spaced) + c.text + Render(b)
  {
    RenderAppend(a + [c], b);
    RenderAppend(a, [c]);
    RenderOne(c);
  }

  lemma RenderGroup(open: Chunk, cs: seq<Chunk>, close: Chunk)
    ensures Render([open] + cs + [close])
      == Blank(open.spaced) + open.text + Render(cs) + (Blank(close.spaced) + close.text)
  {
    RenderAppend([open] + cs, [close]);
    RenderAppend([open], cs);
    RenderOne(open);
    RenderOne(close);
  }

  lemma RenderComparison(n: Node, spaced: bool)
    requires n.Comparison?
    ensures Render(NodeChunks(n, spaced))
      == Render(NodeChunks(n.left, spaced)) + " " + OpText(n.op) + Render(NodeChunks(n.right, true))
  {
    RenderAround(NodeChunks(n.left, spaced), Chunk(OpKind(n.op), OpText(n.op), true), NodeChunks(n.right, true));
  }

  lemma Reassociate(blank: string, left: string, op: string, right: string)
    ensures blank + left + " " + op + (" " + right) == blank + (left + " " + op + " " + right)
  {
  }

  lemma RenderGrouping(n: Node, spaced: bool)
    requires n.Grouping?
    ensures Render(NodeChunks(n, spaced)) == Blank(spaced) + ("(" + Render(NodeChunks(n.inner, false)) + ")")
  {
    var inner := Render(NodeChunks(n.inner, false));
    RenderGroup(Chunk(LParen, "(", spaced), NodeChunks(n.inner, false), Chunk(RParen, ")", false));
    Enclose(Blank(spaced), "(", "" + inner, "" + ")");
    assert "" + inner == inner;
  }

  lemma Enclose(blank: string, open: string, inner: string, close: string)
    ensures blank + open + inner + close == blank + (open + inner + close)
  {
  }

  lemma {:induction false} RenderNode(n: Node, spaced: bool)
    ensures Render(NodeChunks(n, spaced)) == Blank(spaced) + FormatNode(n)
  {
    match n
    case NumberLiteral(_, value, unit, _) =>
      RenderNumber(value, unit, spaced);
    case MetricRef(_, name) =>
      RenderOne(Chunk(Ident, name, spaced));
    case Aggregation(_, _, _, _) =>
      RenderAggregation(n, spaced);
    case Comparison(_, op, _, left, right) =>
      RenderNode(left, spaced);
      RenderNode(right, true);
      RenderComparison(n, spaced);
      Reassociate(Blank(spaced), FormatNode(left), OpText(op), FormatNode(right));
    case Grouping(_, inner) =>
      RenderNode(inner, false);
      RenderGrouping(n, spaced);
      FirstIsUnspaced(FormatNode(inner));
  }

  lemma RenderClause(keyword: string, word: string, chunk: Chunk)
    ensures Render([Word(keyword), Word(word), chunk])
      == " " + keyword + (" " + word) + (Blank(chunk.spaced) + chunk.text)
  {
    assert [Word(keyword), Word(word), chunk] == [Word(keyword), Word(word)] + [chunk];
    RenderAppend([Word(keyword), Word(word)], [chunk]);
    RenderTwo(Word(keyword), Word(word));
    RenderOne(chunk);
  }

  lemma RenderWindow(window: nat)
    ensures Render(WindowChunks(window)) == FormatWindow(window)
  {
    if window > 0 {
      RenderTwo(Word("for"), Chunk(Duration, FormatDuration(window), true));
    }
  }

  lemma RenderScope(contractID: string, network: string)
    ensures Render(ContractChunks(contractID) + NetworkChunks(network)) == FormatScope(contractID, network)
  {
    RenderAppend(ContractChunks(contractID), NetworkChunks(network));
    if contractID != "" {
      RenderClause("on", "contract", Word(contractID));
      assert " " + "on" + (" " + "contract") + (" " + contractID) == " on contract " + contractID;
    }
    if network != "" {
      RenderClause("on", "network", Word(network));
      assert " " + "on" + (" " + "network") + (" " + network) == " on network " + network;
    }
  }

  lemma RenderRule(r: Rule)
    ensures Render(RuleChunks(r)) == Format(r)
  {
    var scope := ContractChunks(r.contractID) + NetworkChunks(r.network);
    RenderNode(r.expr, false);
    RenderWindow(r.window);
    RenderScope(r.contractID, r.network);
    RenderThree(NodeChunks(r.expr, false), WindowChunks(r.window), scope);
    FirstIsUnspaced(FormatNode(r.expr));
  }

  lemma RenderThree(a: seq<Chunk>, b: seq<Chunk>, c: seq<Chunk>)
    ensures Render(a + (b + c)) == Render(a) + Render(b) + Render(c)
  {
    RenderAppend(a, b + c);
    RenderAppend(b, c);
    Concatenate(Render(a), Render(b), Render(c));
  }

  lemma Concatenate(a: string, b: string, c: string)
    ensures a + (b + c) == a + b + c
  {
  }

  lemma FirstIsUnspaced(text: string)
    ensures Blank(false) + text == text
  {
  }

  // ----- the scanner finds the chunks -----

  predicate IsParen(c: Chunk) {
    c.kind == LParen || c.kind == RParen
  }

  predicate NumberText(t: string) {
    t != "" && IsDigit(t[0]) &&
    var body := if t[|t| - 1] == '%' then t[..|t| - 1] else t;
    AllOf(body, IsNumberPart)
  }

  predicate DurationText(t: string) {
    |t| >= 2 && IsDigit(t[0]) && AllOf(t[..|t| - 1], IsNumberPart) &&
      IsDurationUnit([t[|t| - 1]]) && IsLetter(t[|t| - 1])
  }

  predicate OperatorText(kind: TokenKind, t: string) {
    (kind == GT && t == ">") || (kind == GE && t == ">=") || (kind == LT && t == "<")
    || (kind == LE && t == "<=") || (kind == EQ && t == "==") || (kind == NE && t == "!=")
  }

  predicate ChunkOk(c: Chunk) {
    match c.kind
    case Ident => IsIdentText(c.text)
    case Number => NumberText(c.text)
    case Duration => DurationText(c.text)
    case LParen => c.text == "("
    case RParen => c.text == ")"
    case _ => OperatorText(c.kind, c.text)
  }

  /** Neighbouring chunks are kept apart by a blank or a parenthesis. */
  predicate Spaced(cs: seq<Chunk>) {
    forall k :: 0 < k < |cs| ==> cs[k].spaced || IsParen(cs[k]) || IsParen(cs[k - 1])
  }

  predicate EndsAt(src: string, j: nat) {
    j < |src| ==> src[j] == ' ' || src[j] == '(' || src[j] == ')'
  }

  predicate TextAt(src: string, i: nat, text: string) {
    i + |text| <= |src| && src[i..i + |text|] == text
  }

  lemma ScanIdent(src: string, i: nat, text: string)
    requires TextAt(src, i, text) && IsIdentText(text) && EndsAt(src, i + |text|)
    ensures !IsSpace(src[i]) && LexOne(src, i) == Step(Token(Ident, text, i), i + |text|)
  {
    assert src[i] == text[0];
    forall k | i <= k < i + |text|
      ensures IsIdentPart(src[k])
    {
      assert src[k] == text[k - i];
    }
    RunEndIs(src, i, IsIdentPart, i + |text|);
  }

  lemma NumberRun(src: string, i: nat, body: string)
    requires TextAt(src, i, body) && body != "" && IsDigit(body[0]) && AllOf(body, IsNumberPart)
    requires var j := i + |body|; j < |src| ==> !IsNumberPart(src[j]) && !IsExponentMark(src[j])
    ensures !IsSpace(src[i]) && (IsDigit(src[i])) && NumberEnd(src, i) == i + |body|
  {
    assert src[i] == body[0];
    forall k | i <= k < i + |body|
      ensures IsNumberPart(src[k])
    {
      assert src[k] == body[k - i];
    }
    RunEndIs(src, i, IsNumberPart, i + |body|);
  }

  lemma DispatchNumber(src: string, i: nat)
    requires i < |src| && IsDigit(src[i])
    ensures !IsSpace(src[i]) && LexOne(src, i) == LexNumberAt(src, i)
  {
  }

  lemma ScanNumber(src: string, i: nat, text: string)
    requires TextAt(src, i, text) && NumberText(text) && EndsAt(src, i + |text|)
    ensures !IsSpace(src[i]) && LexOne(src, i) == Step(Token(Number, text, i), i + |text|)
  {
    if text[|text| - 1] == '%' {
      ScanPercent(src, i, text[..|text| - 1]);
      assert text[..|text| - 1] + "%" == text;
    } else {
      NumberRun(src, i, text);
    }
    DispatchNumber(src, i);
  }

  lemma ScanPercent(src: string, i: nat, body: string)
    requires TextAt(src, i, body + "%") && body != "" && IsDigit(body[0]) && AllOf(body, IsNumberPart)
    ensures !IsSpace(src[i]) && IsDigit(src[i])
    ensures LexNumberAt(src, i) == Step(Token(Number, body + "%", i), i + |body| + 1)
  {
    var n := |body|;
    assert src[i..i + n + 1][..n] == src[i..i + n];
    assert src[i..i + n] == body && src[i + n] == '%';
    NumberRun(src, i, body);
  }

  lemma ScanDuration(src: string, i: nat, text: string)
    requires TextAt(src, i, text) && DurationText(text) && EndsAt(src, i + |text|)
    ensures !IsSpace(src[i]) && LexOne(src, i) == Step(Token(Duration, text, i), i + |text|)
  {
    var n := |text| - 1;
    var body := text[..n];
    assert src[i..i + n] == body && src[i + n] == text[n];
    assert body[0] == text[0];
    NumberRun(src, i, body);
    DispatchNumber(src, i);
    RunEndIs(src, i + n, IsLetter, i + n + 1);
    assert src[i + n..i + n + 1] == [text[n]];
    assert body + [text[n]] == text;
  }

  lemma ScanSymbol(src: string, i: nat, c: Chunk)
    requires TextAt(src, i, c.text) && (IsParen(c) || EndsAt(src, i + |c.text|))
    requires ChunkOk(c) && c.kind != Ident && c.kind != Number && c.kind != Duration
    ensures !IsSpace(src[i]) && LexOne(src, i) == Step(Token(c.kind, c.text, i), i + |c.text|)
  {
    assert src[i] == c.text[0];
    if |c.text| > 1 {
      assert src[i + 1] == c.text[1];
    }
  }

  lemma ScanChunk(src: string, i: nat, c: Chunk)
    requires TextAt(src, i, c.text) && ChunkOk(c) && (IsParen(c) || EndsAt(src, i + |c.text|))
    ensures i < |src| && !IsSpace(src[i]) && LexOne(src, i) == Step(Token(c.kind, c.text, i), i + |c.text|)
  {
    match c.kind
    case Ident =>
      ScanIdent(src, i, c.text);
    case Number =>
      ScanNumber(src, i, c.text);
    case Duration =>
      ScanDuration(src, i, c.text);
    case _ =>
      ScanSymbol(src, i, c);
  }

  /** The tokens from i on have the chunks' kinds and texts. */
  predicate Shape(toks: seq<Token>, i: nat, cs: seq<Chunk>) {
    i + |cs| <= |toks| && forall k :: 0 <= k < |cs| ==> toks[i + k].kind == cs[k].kind && toks[i + k].text == cs[k].text
  }

  /** Cutting a suffix of src that is spelled b, t, r. */
  lemma CutSuffix(src: string, i: nat, b: string, t: string, r: string)
    requires i <= |src| && src[i..] == b + t + r
    ensures var j := i + |b|;
      j + |t| <= |src| && src[i..j] == b && src[j..j + |t|] == t && src[j + |t|..] == r
  {
    var rest := src[i..];
    assert rest[..|b|] == b;
    assert rest[|b|..|b| + |t|] == t;
    assert rest[|b| + |t|..] == r;
  }

  lemma RenderedStart(cs: seq<Chunk>)
    requires cs != [] && (cs[0].spaced || IsParen(cs[0])) && ChunkOk(cs[0])
    ensures Render(cs) != "" && (Render(cs)[0] == ' ' || Render(cs)[0] == '(' || Render(cs)[0] == ')')
  {
  }

  /** May stand right after the chunk c: set off by a blank, or one of the two is a parenthesis. */
  predicate MayFollow(c: Chunk, rest: seq<Chunk>) {
    rest != [] ==> (rest[0].spaced || IsParen(rest[0]) || IsParen(c)) && ChunkOk(rest[0])
  }

  /** The chunk's blank, if any, stands at i, its text at j, and its end can be told. */
  predicate StandsAt(src: string, i: nat, j: nat, c: Chunk) {
    TextAt(src, j, c.text) && (c.spaced ==> i < |src| && src[i] == ' ') && (IsParen(c) || EndsAt(src, j + |c.text|))
  }

  lemma RenderedParts(src: string, i: nat, c: Chunk, rest: seq<Chunk>)
    requires i <= |src| && src[i..] == Blank(c.spaced) + c.text + Render(rest) && MayFollow(c, rest)
    ensures var j := i + |Blank(c.spaced)|; StandsAt(src, i, j, c) && src[j + |c.text|..] == Render(rest)
  {
    CutSuffix(src, i, Blank(c.spaced), c.text, Render(rest));
    if c.spaced {
      assert src[i..i + 1][0] == ' ';
    }
    if !IsParen(c) {
      RenderedEnd(src, i + |Blank(c.spaced)| + |c.text|, rest);
    }
  }

  /** What follows a chunk that is no parenthesis starts with a blank or a parenthesis. */
  lemma RenderedEnd(src: string, e: nat, rest: seq<Chunk>)
    requires e <= |src| && src[e..] == Render(rest)
    requires rest != [] ==> (rest[0].spaced || IsParen(rest[0])) && ChunkOk(rest[0])
    ensures EndsAt(src, e)
  {
    if rest != [] {
      RenderedStart(rest);
      assert src[e] == Render(rest)[0];
    } else {
      assert |src[e..]| == 0;
    }
  }

  lemma SpacedTail(cs: seq<Chunk>)
    requires cs != [] && Spaced(cs) && forall k :: 0 <= k < |cs| ==> ChunkOk(cs[k])
    ensures Spaced(cs[1..]) && forall k :: 0 <= k < |cs[1..]| ==> ChunkOk(cs[1..][k])
  {
    var rest := cs[1..];
    forall k | 0 < k < |rest|
      ensures rest[k].spaced || IsParen(rest[k]) || IsParen(rest[k - 1])
    {
      assert rest[k] == cs[k + 1] && rest[k - 1] == cs[k];
    }
  }

  /** The scanned tokens are the ones of cs, and EOF. */
  predicate Spells(scanned: Result<seq<Token>>, cs: seq<Chunk>) {
    scanned.Ok? && |scanned.value| == |cs| + 1 && Shape(scanned.value, 0, cs)
  }

  /** One lexeme in front of what is scanned already. */
  lemma {:induction false} SpellsToken(src: string, j: nat, e: nat, cs: seq<Chunk>)
    requires cs != [] && j < |src| && !IsSpace(src[j]) && e <= |src|
    requires LexOne(src, j) == Step(Token(cs[0].kind, cs[0].text, j), e) && Spells(LexFrom(src, e), cs[1..])
    ensures Spells(LexFrom(src, j), cs)
  {
    TakeToken(src, j, Token(cs[0].kind, cs[0].text, j), e);
  }

  /** A blank, if any, and one lexeme in front of what is scanned already. */
  lemma {:induction false} SpellsFront(src: string, i: nat, j: nat, cs: seq<Chunk>)
    requires cs != [] && ChunkOk(cs[0]) && j == i + |Blank(cs[0].spaced)| && StandsAt(src, i, j, cs[0])
    requires Spells(LexFrom(src, j + |cs[0].text|), cs[1..])
    ensures Spells(LexFrom(src, i), cs)
  {
    ScanChunk(src, j, cs[0]);
    SpellsToken(src, j, j + |cs[0].text|, cs);
    SkipBlank(src, i, cs[0].spaced);
  }

  /** Scanning printed chunks gives back their lexemes, and EOF. */
  lemma {:induction false} ScanRendered(src: string, i: nat, cs: seq<Chunk>)
    requires i <= |src| && src[i..] == Render(cs)
    requires Spaced(cs) && forall k :: 0 <= k < |cs| ==> ChunkOk(cs[k])
    ensures Spells(LexFrom(src, i), cs)
    decreases |cs|
  {
    if cs != [] {
      var j := i + |Blank(cs[0].spaced)|;
      NextMayFollow(cs);
      RenderedParts(src, i, cs[0], cs[1..]);
      SpacedTail(cs);
      ScanRendered(src, j + |cs[0].text|, cs[1..]);
      SpellsFront(src, i, j, cs);
    }
  }

  lemma NextMayFollow(cs: seq<Chunk>)
    requires cs != [] && Spaced(cs) && forall k :: 0 <= k < |cs| ==> ChunkOk(cs[k])
    ensures MayFollow(cs[0], cs[1..])
  {
    assert |cs| > 1 ==> cs[1..][0] == cs[1];
  }

  lemma SkipBlank(src: string, i: nat, spaced: bool)
    requires i + |Blank(spaced)| <= |src| && (spaced ==> src[i] == ' ')
    ensures LexFrom(src, i) == LexFrom(src, i + |Blank(spaced)|)
  {
  }

  lemma TakeToken(src: string, j: nat, tok: Token, e: nat)
    requires j < |src| && !IsSpace(src[j]) && LexOne(src, j) == Step(tok, e) && e <= |src|
    requires LexFrom(src, e).Ok?
    ensures LexFrom(src, j) == Ok([tok] + LexFrom(src, e).value)
  {
  }
}
