/** The parser reads a printed rule back, up to source positions and the window's fraction of a second. */
module RuleReading {
  import opened RuleText
  import opened RuleErrors
  import opened RuleCatalog
  import opened RuleLexer
  import opened RuleAst
  import opened RuleParser
  import opened RulePrinting
  import opened Decimal
  import opened Wrappers

  // ----- printed chunks are well formed -----

  lemma PrintedNumber(d: Dec)
    ensures var s := Print(d); s[|s| - 1] != '%' && NumberText(s) && NumberText(s + "%")
  {
    var s := Print(d);
    assert IsNumberPart(s[|s| - 1]);
    assert (s + "%")[..|s|] == s;
  }

  lemma PrintedNumberChunks(value: Dec, unit: Unit, spaced: bool)
    requires unit == NoUnit || LiteralUnit(unit)
    ensures var cs := NumberChunks(value, unit, spaced); Spaced(cs) && forall k :: 0 <= k < |cs| ==> ChunkOk(cs[k])
  {
    PrintedNumber(value);
    PrintedNumber(Mul100(value));
    if unit != NoUnit && unit != Ratio {
      UnitNameReadsBack(unit);
    }
  }

  predicate WellFormed(cs: seq<Chunk>) {
    Spaced(cs) && forall k :: 0 <= k < |cs| ==> ChunkOk(cs[k])
  }

  lemma WellFormedAppend(a: seq<Chunk>, b: seq<Chunk>)
    requires WellFormed(a) && WellFormed(b)
    requires a != [] && b != [] ==> b[0].spaced || IsParen(b[0]) || IsParen(a[|a| - 1])
    ensures WellFormed(a + b)
  {
    var c := a + b;
    forall k | 0 < k < |c|
      ensures c[k].spaced || IsParen(c[k]) || IsParen(c[k - 1])
    {
      if k < |a| {
        assert c[k] == a[k] && c[k - 1] == a[k - 1];
      } else if k > |a| {
        assert c[k] == b[k - |a|] && c[k - 1] == b[k - |a| - 1];
      }
    }
  }

  lemma {:induction false} NodeChunksWellFormed(n: Node, spaced: bool)
    requires Printable(n)
    ensures WellFormed(NodeChunks(n, spaced))
  {
    match n
    case NumberLiteral(_, value, unit, _) =>
      PrintedNumberChunks(value, unit, spaced);
    case MetricRef(_, _) =>
    case Aggregation(_, fn, _, _) =>
      FunctionNameIsPlain(fn);
    case Comparison(_, op, _, left, right) =>
      NodeChunksWellFormed(left, spaced);
      NodeChunksWellFormed(right, true);
      var opChunk := Chunk(OpKind(op), OpText(op), true);
      assert WellFormed([opChunk]);
      WellFormedAppend(NodeChunks(left, spaced), [opChunk]);
      WellFormedAppend(NodeChunks(left, spaced) + [opChunk], NodeChunks(right, true));
    case Grouping(_, inner) =>
      NodeChunksWellFormed(inner, false);
      var open, close := Chunk(LParen, "(", spaced), Chunk(RParen, ")", false);
      assert WellFormed([open]) && WellFormed([close]);
      WellFormedAppend([open], NodeChunks(inner, false));
      WellFormedAppend([open] + NodeChunks(inner, false), [close]);
  }

  lemma PrintedDuration(d: nat)
    ensures DurationText(FormatDuration(d))
  {
    var q := if d % DAY == 0 then d / DAY else if d % HOUR == 0 then d / HOUR
             else if d % MINUTE == 0 then d / MINUTE else d / SECOND;
    var s := FormatDuration(d);
    assert s[..|s| - 1] == Digits(q);
  }

  lemma KeywordTexts()
    ensures IsIdentText("for") && IsIdentText("on") && IsIdentText("contract") && IsIdentText("network")
  {
  }

  lemma RuleChunksWellFormed(r: Rule)
    requires PrintableRule(r)
    ensures WellFormed(RuleChunks(r))
  {
    NodeChunksWellFormed(r.expr, false);
    var window, contract, network := WindowChunks(r.window), ContractChunks(r.contractID), NetworkChunks(r.network);
    ClausesWellFormed(r);
    WellFormedAppend(contract, network);
    WellFormedAppend(window, contract + network);
    WellFormedAppend(NodeChunks(r.expr, false), window + (contract + network));
  }

  lemma ClausesWellFormed(r: Rule)
    requires PrintableRule(r)
    ensures WellFormed(WindowChunks(r.window)) && WellFormed(ContractChunks(r.contractID)) &&
      WellFormed(NetworkChunks(r.network))
  {
    KeywordTexts();
    PrintedDuration(r.window);
  }

  // ----- reading chunks back -----

  lemma ShapeSplit(toks: seq<Token>, i: nat, a: seq<Chunk>, b: seq<Chunk>)
    requires Shape(toks, i, a + b)
    ensures Shape(toks, i, a) && Shape(toks, i + |a|, b)
  {
    forall k | 0 <= k < |a|
      ensures toks[i + k].kind == a[k].kind && toks[i + k].text == a[k].text
    {
      assert (a + b)[k] == a[k];
    }
    forall k | 0 <= k < |b|
      ensures toks[i + |a| + k].kind == b[k].kind && toks[i + |a| + k].text == b[k].text
    {
      assert (a + b)[|a| + k] == b[k];
    }
  }

  lemma ShapeAt(toks: seq<Token>, i: nat, cs: seq<Chunk>, k: nat)
    requires Shape(toks, i, cs) && k < |cs|
    ensures toks[i + k].kind == cs[k].kind && toks[i + k].text == cs[k].text
  {
  }

  /** a, then the one chunk c, then b. */
  lemma ShapeAround(toks: seq<Token>, i: nat, a: seq<Chunk>, c: Chunk, b: seq<Chunk>)
    requires Shape(toks, i, a + [c] + b)
    ensures Shape(toks, i, a) && Shape(toks, i + |a| + 1, b)
    ensures toks[i + |a|].kind == c.kind && toks[i + |a|].text == c.text
    ensures i + |a| + 1 + |b| == i + |a + [c] + b| <= |toks|
  {
    ShapeSplit(toks, i, a + [c], b);
    ShapeSplit(toks, i, a, [c]);
    ShapeAt(toks, i + |a|, [c], 0);
  }

  /** What may stand after a term: anything but a word that could be taken for its unit. */
  predicate Follows(toks: seq<Token>, j: nat) {
    j < |toks| && (toks[j].kind == Ident ==> IsClauseKeyword(toks[j]))
  }

  predicate ReadsAs(r: Result<Parsed>, n: Node, next: nat) {
    r.Ok? && r.value.next == next && Erase(r.value.node) == Erase(n)
  }

  lemma ReadNumber(value: Dec, unit: Unit, spaced: bool, toks: seq<Token>, i: nat)
    requires EndsInEOF(toks) && (unit == NoUnit || LiteralUnit(unit))
    requires Shape(toks, i, NumberChunks(value, unit, spaced))
    requires Follows(toks, i + |NumberChunks(value, unit, spaced)|)
    ensures ReadsAs(ParseTerm(toks, i), NumberLiteral(0, value, unit, 0), i + |NumberChunks(value, unit, spaced)|)
  {
    var cs := NumberChunks(value, unit, spaced);
    ShapeAt(toks, i, cs, 0);
    if unit == Ratio {
      ReadRatio(toks[i], value);
      LoneNumber(toks, i, value, unit);
    } else {
      ReadPlainNumber(toks[i], value);
      if unit == NoUnit {
        LoneNumber(toks, i, value, unit);
      } else {
        ShapeAt(toks, i, cs, 1);
        NumberAndUnit(toks, i, value, unit);
      }
    }
  }

  /** A number with no word for a unit behind it. */
  lemma LoneNumber(toks: seq<Token>, i: nat, value: Dec, unit: Unit)
    requires EndsInEOF(toks) && i + 1 < |toks| && toks[i].kind == Number && Follows(toks, i + 1)
    requires ParseNumber(toks[i]).Ok? && Erase(ParseNumber(toks[i]).value) == NumberLiteral(0, value, unit, 0)
    ensures ReadsAs(ParseTerm(toks, i), NumberLiteral(0, value, unit, 0), i + 1)
  {
  }

  lemma NumberAndUnit(toks: seq<Token>, i: nat, value: Dec, unit: Unit)
    requires EndsInEOF(toks) && i + 2 < |toks| && toks[i].kind == Number && LiteralUnit(unit) && unit != Ratio
    requires ParseNumber(toks[i]) == Ok(NumberLiteral(toks[i].pos, value, NoUnit, -1))
    requires toks[i + 1].kind == Ident && toks[i + 1].text == UnitName(unit)
    ensures ReadsAs(ParseTerm(toks, i), NumberLiteral(0, value, unit, 0), i + 2)
  {
    UnitNameReadsBack(unit);
  }

  lemma ReadRatio(t: Token, value: Dec)
    requires t.text == Print(Mul100(value)) + "%"
    ensures ParseNumber(t).Ok? && Erase(ParseNumber(t).value) == NumberLiteral(0, value, Ratio, 0)
  {
    ReadPercent(t, Mul100(value));
    Div100OfMul100(value);
  }

  lemma ReadPercent(t: Token, v: Dec)
    requires t.text == Print(v) + "%"
    ensures ParseNumber(t) == Ok(NumberLiteral(t.pos, Div100(v), Ratio, t.pos + |t.text| - 1))
  {
    assert t.text[..|t.text| - 1] == Print(v);
    ParseOfPrint(v);
  }

  lemma ReadPlainNumber(t: Token, v: Dec)
    requires t.text == Print(v)
    ensures ParseNumber(t) == Ok(NumberLiteral(t.pos, v, NoUnit, -1))
  {
    PrintedNumber(v);
    ParseOfPrint(v);
  }

  lemma ReadAggregation(n: Node, spaced: bool, toks: seq<Token>, i: nat)
    requires EndsInEOF(toks) && n.Aggregation? && Printable(n)
    requires Shape(toks, i, NodeChunks(n, spaced)) && i + 4 < |toks|
    ensures ReadsAs(ParseTerm(toks, i), n, i + 4)
  {
    var cs := NodeChunks(n, spaced);
    FunctionNameIsPlain(n.fn);
    FunctionNamesAreNotKeywords(n.fn);
    assert toks[i + 0].text == cs[0].text && toks[i + 1].kind == cs[1].kind;
    assert toks[i + 2].text == cs[2].text && toks[i + 3].kind == cs[3].kind;
  }

  lemma FunctionNamesAreNotKeywords(s: string)
    requires IsFunctionName(s)
    ensures !ClauseKeyword(s)
  {
    FunctionNameIsPlain(s);
    assert Lower("for") == "for" && Lower("on") == "on";
  }

  lemma ReadMetric(name: string, toks: seq<Token>, i: nat)
    requires EndsInEOF(toks) && i + 1 < |toks| && toks[i].kind == Ident && toks[i].text == name
    requires Printable(MetricRef(0, name))
    ensures ReadsAs(ParseTerm(toks, i), MetricRef(0, name), i + 1)
  {
  }

  lemma JoinGrouping(inner: Node, toks: seq<Token>, i: nat, j: nat)
    requires EndsInEOF(toks) && i + 1 < |toks| && j + 1 < |toks|
    requires toks[i].kind == LParen && toks[j].kind == RParen
    requires ReadsAs(ParseComparison(toks, i + 1, false), inner, j)
    ensures ReadsAs(ParseTerm(toks, i), Grouping(0, inner), j + 1)
  {
  }

  lemma {:induction false} JoinComparison(n: Node, toks: seq<Token>, i: nat, j: nat, k: nat, requireOp: bool)
    requires EndsInEOF(toks) && n.Comparison? && i < |toks| && j + 1 < |toks|
    requires toks[j].kind == OpKind(n.op) && toks[j].text == OpText(n.op)
    requires ReadsAs(ParseTerm(toks, i), n.left, j) && ReadsAs(ParseTerm(toks, j + 1), n.right, k)
    ensures ReadsAs(ParseComparison(toks, i, requireOp), n, k)
  {
    OperatorReadsBack(n.op);
    assert toks[j].text != "=";
  }

  lemma OperatorReadsBack(op: Op)
    ensures IsComparisonOp(OpKind(op)) && OpOf(OpKind(op)) == op && OpText(op) != "="
  {
  }

  lemma LoneTerm(n: Node, toks: seq<Token>, i: nat, j: nat)
    requires EndsInEOF(toks) && i < |toks| && j < |toks| && !IsComparisonOp(toks[j].kind)
    requires ReadsAs(ParseTerm(toks, i), n, j)
    ensures ReadsAs(ParseComparison(toks, i, false), n, j)
  {
  }

  lemma GroupingChunks(inner: Node, spaced: bool)
    ensures NodeChunks(Grouping(0, inner), spaced)
      == [] + [Chunk(LParen, "(", spaced)] + (NodeChunks(inner, false) + [Chunk(RParen, ")", false)] + [])
  {
  }

  lemma GroupingParts(inner: Node, spaced: bool, toks: seq<Token>, i: nat, next: nat)
    requires Shape(toks, i, NodeChunks(Grouping(0, inner), spaced))
    requires next == i + |NodeChunks(Grouping(0, inner), spaced)|
    ensures i + 1 + |NodeChunks(inner, false)| + 1 == next <= |toks|
    ensures toks[i].kind == LParen && toks[next - 1].kind == RParen && Shape(toks, i + 1, NodeChunks(inner, false))
  {
    GroupingChunks(inner, spaced);
    var body, close := NodeChunks(inner, false), Chunk(RParen, ")", false);
    ShapeAround(toks, i, [], Chunk(LParen, "(", spaced), body + [close] + []);
    ShapeAround(toks, i + 1, body, close, []);
  }

  lemma {:induction false} ComparisonParts(n: Node, spaced: bool, toks: seq<Token>, i: nat, j: nat, next: nat)
    requires n.Comparison? && Shape(toks, i, NodeChunks(n, spaced))
    requires next == i + |NodeChunks(n, spaced)| && j == i + |NodeChunks(n.left, spaced)|
    ensures j + 1 + |NodeChunks(n.right, true)| == next <= |toks|
    ensures toks[j].kind == OpKind(n.op) && toks[j].text == OpText(n.op)
    ensures Shape(toks, i, NodeChunks(n.left, spaced)) && Shape(toks, j + 1, NodeChunks(n.right, true))
  {
    var left, right := NodeChunks(n.left, spaced), NodeChunks(n.right, true);
    ShapeAround(toks, i, left, Chunk(OpKind(n.op), OpText(n.op), true), right);
  }

  /** A printed term is read back, whatever may follow a term. */
  lemma {:induction false} ReadTerm(n: Node, spaced: bool, toks: seq<Token>, i: nat, next: nat)
    requires EndsInEOF(toks) && Printable(n) && !n.Comparison?
    requires Shape(toks, i, NodeChunks(n, spaced)) && next == i + |NodeChunks(n, spaced)| && Follows(toks, next)
    ensures ReadsAs(ParseTerm(toks, i), n, next)
    decreases n, 0
  {
    if n.Grouping? {
      GroupingParts(n.inner, spaced, toks, i, next);
      ReadComparison(n.inner, false, toks, i + 1, next - 1, false);
      JoinGrouping(n.inner, toks, i, next - 1);
    } else {
      ReadLeaf(n, spaced, toks, i, next);
    }
  }

  lemma ReadLeaf(n: Node, spaced: bool, toks: seq<Token>, i: nat, next: nat)
    requires EndsInEOF(toks) && Printable(n) && (n.NumberLiteral? || n.MetricRef? || n.Aggregation?)
    requires Shape(toks, i, NodeChunks(n, spaced)) && next == i + |NodeChunks(n, spaced)| && Follows(toks, next)
    ensures ReadsAs(ParseTerm(toks, i), n, next)
  {
    match n
    case NumberLiteral(_, value, unit, _) =>
      ReadNumber(value, unit, spaced, toks, i);
    case MetricRef(_, name) =>
      ShapeAt(toks, i, NodeChunks(n, spaced), 0);
      ReadMetric(name, toks, i);
    case _ =>
      ReadAggregation(n, spaced, toks, i);
  }

  /** A printed condition is read back when no operator follows it. */
  lemma {:induction false} ReadComparison(n: Node, spaced: bool, toks: seq<Token>, i: nat, next: nat, requireOp: bool)
    requires EndsInEOF(toks) && Printable(n) && (requireOp ==> n.Comparison?)
    requires Shape(toks, i, NodeChunks(n, spaced)) && next == i + |NodeChunks(n, spaced)| && Follows(toks, next)
    requires !IsComparisonOp(toks[next].kind)
    ensures ReadsAs(ParseComparison(toks, i, requireOp), n, next)
    decreases n, 1
  {
    if n.Comparison? {
      var j := i + |NodeChunks(n.left, spaced)|;
      ComparisonParts(n, spaced, toks, i, j, next);
      ReadTerm(n.left, spaced, toks, i, j);
      ReadTerm(n.right, true, toks, j + 1, next);
      JoinComparison(n, toks, i, j, next, requireOp);
    } else {
      ReadTerm(n, spaced, toks, i, next);
      LoneTerm(n, toks, i, next);
    }
  }

  // ----- clauses -----

  lemma Keywords()
    ensures Lower("for") == "for" && Lower("on") == "on" && Lower("contract") == "contract" &&
      Lower("network") == "network"
  {
  }

  lemma ReadFor(toks: seq<Token>, i: nat, r: Rule, d: nat)
    requires EndsInEOF(toks) && i + 2 < |toks|
    requires IsKeyword(toks[i], "for") && toks[i + 1].kind == Duration && ParseDuration(toks[i + 1].text) == Some(d)
    ensures ParseClauses(toks, i, r) == ParseClauses(toks, i + 2, r.(window := d))
  {
    assert ParseClause(toks, i, r) == Ok(Clause(r.(window := d), i + 2));
  }

  lemma ReadContract(contractID: string, toks: seq<Token>, i: nat, r: Rule)
    requires EndsInEOF(toks) && contractID != ""
    requires Shape(toks, i, ContractChunks(contractID)) && i + 3 < |toks|
    ensures ParseClauses(toks, i, r) == ParseClauses(toks, i + 3, r.(contractID := contractID))
  {
    ShapeAt(toks, i, ContractChunks(contractID), 0);
    ShapeAt(toks, i, ContractChunks(contractID), 1);
    ShapeAt(toks, i, ContractChunks(contractID), 2);
    Keywords();
    assert ParseClause(toks, i, r) == Ok(Clause(r.(contractID := contractID), i + 3));
  }

  lemma ReadNetwork(network: string, toks: seq<Token>, i: nat, r: Rule)
    requires EndsInEOF(toks) && network != ""
    requires Shape(toks, i, NetworkChunks(network)) && i + 3 < |toks|
    ensures ParseClauses(toks, i, r) == ParseClauses(toks, i + 3, r.(network := network))
  {
    ShapeAt(toks, i, NetworkChunks(network), 0);
    ShapeAt(toks, i, NetworkChunks(network), 1);
    ShapeAt(toks, i, NetworkChunks(network), 2);
    Keywords();
    assert ParseClause(toks, i, r) == Ok(Clause(r.(network := network), i + 3));
  }

  lemma {:induction false} ReadScope(contractID: string, network: string, toks: seq<Token>,
    i: nat, expr: Node, window: nat)
    requires EndsInEOF(toks)
    requires Shape(toks, i, ContractChunks(contractID) + NetworkChunks(network))
    requires i + |ContractChunks(contractID) + NetworkChunks(network)| + 1 == |toks|
    ensures ParseClauses(toks, i, Rule(expr, window, "", "")) == Ok(Rule(expr, window, contractID, network))
  {
    ShapeSplit(toks, i, ContractChunks(contractID), NetworkChunks(network));
    if contractID == "" {
      ReadLastClause(network, toks, i, Rule(expr, window, "", ""));
    } else {
      ReadContract(contractID, toks, i, Rule(expr, window, "", ""));
      ReadLastClause(network, toks, i + 3, Rule(expr, window, contractID, ""));
    }
  }

  /** The network clause, if any, is the last one. */
  lemma {:induction false} ReadLastClause(network: string, toks: seq<Token>, i: nat, r: Rule)
    requires EndsInEOF(toks) && r.network == ""
    requires Shape(toks, i, NetworkChunks(network)) && i + |NetworkChunks(network)| + 1 == |toks|
    ensures ParseClauses(toks, i, r) == Ok(r.(network := network))
  {
    if network != "" {
      ReadNetwork(network, toks, i, r);
    }
  }

  lemma ClausesFollow(r: Rule, toks: seq<Token>, i: nat)
    requires EndsInEOF(toks)
    requires var cs := WindowChunks(r.window) + (ContractChunks(r.contractID) + NetworkChunks(r.network));
      Shape(toks, i, cs) && i + |cs| + 1 == |toks|
    ensures Follows(toks, i) && !IsComparisonOp(toks[i].kind)
  {
    var cs := WindowChunks(r.window) + (ContractChunks(r.contractID) + NetworkChunks(r.network));
    if cs != [] {
      ShapeAt(toks, i, cs, 0);
    }
  }

  /** The clauses after the window, from the rule read so far. */
  predicate ScopeReads(r: Rule, toks: seq<Token>, i: nat, expr: Node, window: nat)
    requires EndsInEOF(toks)
  {
    i < |toks| &&
    ParseClauses(toks, i, Rule(expr, window, "", "")) == Ok(Rule(expr, window, r.contractID, r.network))
  }

  lemma ReadWindow(r: Rule, toks: seq<Token>, i: nat, expr: Node, whole: nat)
    requires EndsInEOF(toks) && r.window > 0 && i + 2 < |toks|
    requires Shape(toks, i, [Word("for"), Chunk(Duration, FormatDuration(r.window), true)])
    requires ParseDuration(FormatDuration(r.window)) == Some(whole)
    requires ScopeReads(r, toks, i + 2, expr, whole)
    ensures ParseClauses(toks, i, Rule(expr, 0, "", "")) == Ok(Rule(expr, whole, r.contractID, r.network))
  {
    ShapeAt(toks, i, [Word("for"), Chunk(Duration, FormatDuration(r.window), true)], 0);
    ShapeAt(toks, i, [Word("for"), Chunk(Duration, FormatDuration(r.window), true)], 1);
    Keywords();
    ReadFor(toks, i, Rule(expr, 0, "", ""), whole);
  }

  lemma {:induction false} ReadClauses(r: Rule, toks: seq<Token>, i: nat, expr: Node)
    requires EndsInEOF(toks) && (r.window == 0 || r.window >= SECOND)
    requires var cs := WindowChunks(r.window) + (ContractChunks(r.contractID) + NetworkChunks(r.network));
      Shape(toks, i, cs) && i + |cs| + 1 == |toks|
    ensures ParseClauses(toks, i, Rule(expr, 0, "", "")) ==
      Ok(Rule(expr, WholeSeconds(r.window), r.contractID, r.network))
  {
    var window, scope := WindowChunks(r.window), ContractChunks(r.contractID) + NetworkChunks(r.network);
    ShapeSplit(toks, i, window, scope);
    if r.window == 0 {
      ReadScope(r.contractID, r.network, toks, i, expr, 0);
      assert WholeSeconds(0) == 0;
    } else {
      ReadScope(r.contractID, r.network, toks, i + 2, expr, WholeSeconds(r.window));
      ReadPrintedWindow(r, toks, i, expr);
    }
  }

  lemma {:induction false} ReadPrintedWindow(r: Rule, toks: seq<Token>, i: nat, expr: Node)
    requires EndsInEOF(toks) && r.window >= SECOND && i + 2 < |toks|
    requires Shape(toks, i, WindowChunks(r.window))
    requires ScopeReads(r, toks, i + 2, expr, WholeSeconds(r.window))
    ensures ParseClauses(toks, i, Rule(expr, 0, "", ""))
      == Ok(Rule(expr, WholeSeconds(r.window), r.contractID, r.network))
  {
    ParseOfFormatDuration(r.window);
    ReadWindow(r, toks, i, expr, WholeSeconds(r.window));
  }

  /** Tokens shaped like a printed rule parse to that rule. */
  lemma {:induction false} ReadRuleTokens(r: Rule, toks: seq<Token>)
    requires EndsInEOF(toks) && PrintableRule(r)
    requires Shape(toks, 0, RuleChunks(r)) && |toks| == |RuleChunks(r)| + 1
    ensures ParseTokens(toks).Ok?
    ensures EraseRule(ParseTokens(toks).value) == EraseRule(r.(window := WholeSeconds(r.window)))
  {
    var body := NodeChunks(r.expr, false);
    ShapeSplit(toks, 0, body, WindowChunks(r.window) + (ContractChunks(r.contractID) + NetworkChunks(r.network)));
    assert ReadsAs(ParseComparison(toks, 0, true), r.expr, |body|) by {
      ClausesFollow(r, toks, |body|);
      ReadComparison(r.expr, false, toks, 0, |body|, true);
    }
    ReadClauses(r, toks, |body|, ParseComparison(toks, 0, true).value.node);
    RuleFromParts(toks, ParseComparison(toks, 0, true).value);
  }

  lemma {:induction false} RuleFromParts(toks: seq<Token>, p: Parsed)
    requires EndsInEOF(toks) && ParseComparison(toks, 0, true) == Ok(p)
    ensures ParseTokens(toks) == ParseClauses(toks, p.next, Rule(p.node, 0, "", ""))
  {
  }

  /**
   Parsing the printed form of a rule succeeds and gives back the rule, up to
   source positions; only the window's fraction of a second is lost.
   */
  lemma ParseOfFormat(r: Rule)
    requires PrintableRule(r)
    ensures ParseSource(Format(r)).Ok?
    ensures EraseRule(ParseSource(Format(r)).value) == EraseRule(r.(window := WholeSeconds(r.window)))
  {
    var src := Format(r);
    RenderRule(r);
    RuleChunksWellFormed(r);
    assert src[0..] == src;
    ScanRendered(src, 0, RuleChunks(r));
    TokensEndInEOF(src, 0);
    ReadRuleTokens(r, LexFrom(src, 0).value);
  }
}
