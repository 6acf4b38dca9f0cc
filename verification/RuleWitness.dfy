/**
 A checked rule that printing does not give back: a window of 60.5 seconds prints as
 "60s", and the rule read from that prints as "1m".
 */
module RuleWitness {
  import opened RuleText
  import opened RuleErrors
  import opened RuleCatalog
  import opened RuleLexer
  import opened RuleAst
  import opened RuleParser
  import opened RulePrinting
  import opened RuleReading
  import opened RuleValidate
  import opened RuleRoundTrip
  import opened Decimal
  import opened Wrappers

  lemma ReadWindowClause(toks: seq<Token>, i: nat, expr: Node, text: string, window: nat)
    requires EndsInEOF(toks) && i + 3 == |toks| && Shape(toks, i, [Word("for"), Chunk(Duration, text, true)])
    requires ParseDuration(text) == Some(window)
    ensures ParseClauses(toks, i, Rule(expr, 0, "", "")) == Ok(Rule(expr, window, "", ""))
    ensures Follows(toks, i) && !IsComparisonOp(toks[i].kind)
  {
    var clause := [Word("for"), Chunk(Duration, text, true)];
    ShapeAt(toks, i, clause, 0);
    ShapeAt(toks, i, clause, 1);
    ReadFor(toks, i, Rule(expr, 0, "", ""), window);
  }

  lemma ReadTokens(toks: seq<Token>, expr: Node, text: string, window: nat)
    requires EndsInEOF(toks) && expr.Comparison? && Printable(expr) && ParseDuration(text) == Some(window)
    requires var n := |NodeChunks(expr, false)|;
      n + 3 == |toks| && Shape(toks, 0, NodeChunks(expr, false)) &&
        Shape(toks, n, [Word("for"), Chunk(Duration, text, true)])
    ensures ParseTokens(toks).Ok? && EraseRule(ParseTokens(toks).value) == Rule(Erase(expr), window, "", "")
  {
    var n := |NodeChunks(expr, false)|;
    ReadWindowClause(toks, n, expr, text, window);
    ReadComparison(expr, false, toks, 0, n, true);
    ReadWindowClause(toks, n, ParseComparison(toks, 0, true).value.node, text, window);
  }

  /** A printed condition with any readable window text behind it is read as that condition and window. */
  lemma ReadConditionAndWindow(src: string, expr: Node, text: string, window: nat)
    requires expr.Comparison? && Printable(expr) && DurationText(text) && ParseDuration(text) == Some(window)
    requires src == FormatNode(expr) + " for " + text
    ensures ParseSource(src).Ok?
    ensures EraseRule(ParseSource(src).value) == Rule(Erase(expr), window, "", "")
  {
    RenderCondition(expr, text);
    ConditionWellFormed(expr, text);
    ScanChunks(src, NodeChunks(expr, false), [Word("for"), Chunk(Duration, text, true)]);
    ReadTokens(Tokens(src).value, expr, text, window);
  }

  lemma ScanChunks(src: string, a: seq<Chunk>, b: seq<Chunk>)
    requires src == Render(a + b) && WellFormed(a + b)
    ensures Tokens(src).Ok? && EndsInEOF(Tokens(src).value) && |Tokens(src).value| == |a| + |b| + 1
    ensures Shape(Tokens(src).value, 0, a) && Shape(Tokens(src).value, |a|, b)
  {
    assert src[0..] == src;
    ScanRendered(src, 0, a + b);
    TokensEndInEOF(src, 0);
    ShapeSplit(Tokens(src).value, 0, a, b);
  }

  lemma RenderCondition(expr: Node, text: string)
    ensures Render(NodeChunks(expr, false) + [Word("for"), Chunk(Duration, text, true)])
      == FormatNode(expr) + " for " + text
  {
    RenderAppend(NodeChunks(expr, false), [Word("for"), Chunk(Duration, text, true)]);
    RenderNode(expr, false);
    FirstIsUnspaced(FormatNode(expr));
    RenderFor(text);
    Concatenate(FormatNode(expr), " for ", text);
  }

  lemma RenderFor(text: string)
    ensures Render([Word("for"), Chunk(Duration, text, true)]) == " for " + text
  {
    RenderTwo(Word("for"), Chunk(Duration, text, true));
    Concatenate(" " + "for", " ", text);
    assert " " + "for" + " " == " for ";
  }

  lemma ConditionWellFormed(expr: Node, text: string)
    requires Printable(expr) && DurationText(text)
    ensures WellFormed(NodeChunks(expr, false) + [Word("for"), Chunk(Duration, text, true)])
  {
    KeywordTexts();
    NodeChunksWellFormed(expr, false);
    WellFormedAppend(NodeChunks(expr, false), [Word("for"), Chunk(Duration, text, true)]);
  }

  /** events > 1 */
  const CONDITION: Node := Comparison(0, Greater, 0, MetricRef(0, "events"), NumberLiteral(0, Raw(1, 0), NoUnit, 0))

  lemma ConditionIsSound()
    ensures Printable(CONDITION) && HasComparison(CONDITION) && ValidateNode(CONDITION).Ok?
    ensures FormatNode(CONDITION) == "events > 1"
  {
    assert Lower("for")[0] == 'f' && Lower("on")[0] == 'o';
    assert Lower("events")[0] == 'e';
    assert Digits(1) == "1";
  }

  lemma SixtyAndAHalfSeconds()
    ensures DurationText("60.5s") && ParseDuration("60.5s") == Some(60_500_000_000)
  {
    var d: Dec := Raw(605, 1);
    assert Print(d) == "60.5" by {
      assert Digits(605) == "605";
    }
    ParseOfPrint(d);
    assert "60.5s"[..4] == "60.5";
    assert 605 * SECOND / Pow10(1) == 60_500_000_000;
  }

  lemma ConditionAccepted(src: string, text: string, window: nat)
    requires DurationText(text) && ParseDuration(text) == Some(window) && ValidateWindow(window).Ok?
    requires src == FormatNode(CONDITION) + " for " + text
    ensures Validate(src).Ok? && Validate(src).value.window == window
  {
    ConditionIsSound();
    ReadConditionAndWindow(src, CONDITION, text, window);
    CheckAgain(Rule(CONDITION, window, "", ""), ParseSource(src).value);
  }

  lemma HalfSecondOverAMinute(window: nat)
    requires window == 60_500_000_000
    ensures window % SECOND != 0 && WholeSeconds(window) % MINUTE == 0
  {
  }

  /** The rule is accepted, but neither it nor its printed text survives printing and checking again. */
  lemma FractionalWindowIsLost(src: string)
    requires src == "events > 1" + " for " + "60.5s"
    ensures Validate(src).Ok? && Validate(src).value.window == 60_500_000_000
    ensures var r := Validate(src).value;
      !ReadsBackAs(Validate(Format(r)), r) && !PrintsAs(Validate(Format(r)), Format(r))
  {
    ConditionIsSound();
    SixtyAndAHalfSeconds();
    ConditionAccepted(src, "60.5s", 60_500_000_000);
    HalfSecondOverAMinute(Validate(src).value.window);
    SameRuleIffWholeSeconds(src);
    FormatStable(src);
  }
}
