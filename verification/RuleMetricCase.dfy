/**
 The checker looks a metric up without regard to case; an aggregation reads it from the
 samples as it was written. Samples are keyed in lower case.
 */
module RuleMetricCase {
  import opened RuleText
  import opened RuleCatalog
  import opened RuleAst
  import opened RuleValidate
  import opened RuleRoundTrip
  import opened RuleEval
  import opened Decimal
  import RuleReading
  import RuleVerdict

  predicate LowerKeyed(samples: seq<Sample>) {
    forall i, key :: 0 <= i < |samples| && key in samples[i].values ==> Lower(key) == key
  }

  /** One bucket that reports the metric, under its catalog name. */
  function OneReport(metric: string, value: real): seq<Sample> {
    [Sample(0, map[Lower(metric) := value])]
  }

  lemma OneReportObserved(metric: string, value: real, name: string)
    ensures LowerKeyed(OneReport(metric, value))
    ensures Observed(OneReport(metric, value), name) == if name == Lower(metric) then [value] else []
  {
    LowerIdempotent(metric);
    assert OneReport(metric, value)[..0] == [];
    assert Observed([], name) == [];
  }

  /** An aggregation reads the metric the checker looked up exactly if it was written in lower case. */
  lemma ReadsWhatWasLookedUp(metric: string)
    ensures (forall samples :: LowerKeyed(samples) ==> Observed(samples, metric) == Observed(samples, Lower(metric)))
      <==> Lower(metric) == metric
  {
    if Lower(metric) != metric {
      OneReportObserved(metric, 1.0, metric);
      OneReportObserved(metric, 1.0, Lower(metric));
      assert LowerKeyed(OneReport(metric, 1.0));
    }
  }

  // ----- a rule that never fires -----

  /** sum(metric) > 1 */
  function SumRule(metric: string): Rule {
    Rule(
      Comparison(0, Greater, 0, Aggregation(0, "sum", 0, metric), NumberLiteral(0, Raw(1, 0), NoUnit, 0)), 0, "", "")
  }

  /** A metric of the catalog, spelled in any case. */
  predicate KnownMetric(metric: string) {
    IsIdentText(metric) && LookupMetric(metric).Some?
  }

  /** The checker accepts the rule for every such spelling, as that very rule. */
  lemma SumRuleAccepted(metric: string)
    requires KnownMetric(metric)
    ensures ReadsBackAs(Validate(Format(SumRule(metric))), SumRule(metric))
  {
    var r := SumRule(metric);
    RuleReading.ParseOfFormat(r);
    SumRuleIsValid(metric);
    CheckAgain(r, RuleParser.ParseSource(Format(r)).value);
  }

  lemma SumRuleIsValid(metric: string)
    requires KnownMetric(metric)
    ensures var r := SumRule(metric);
      PrintableRule(r) && HasComparison(r.expr) && ValidateNode(r.expr).Ok? && ValidateWindow(r.window).Ok?
  {
    FunctionNameIsPlain("sum");
    var n := SumRule(metric).expr;
    assert ValidateNode(n.left).Ok? && ValidateNode(n.right).Ok? && CheckUnits(n).Ok?;
  }

  /** The rule's verdict on one bucket. */
  lemma SumRuleFires(metric: string, w: Window)
    requires KnownMetric(metric)
    ensures Validate(Format(SumRule(metric))).Ok?
    ensures var verdict := Evaluated(Validate(Format(SumRule(metric))).value, w);
      && verdict == Evaluated(SumRule(metric), w) && verdict.Ok?
      && (verdict.value.fired <==> Total(Observed(Selected(w, 0), metric)) > 1.0)
  {
    SumRuleAccepted(metric);
    RuleVerdict.SameRuleSameVerdict(SumRule(metric), Validate(Format(SumRule(metric))).value, w);
    SumVerdict(metric, w);
  }

  lemma SumVerdict(metric: string, w: Window)
    ensures var verdict := Evaluated(SumRule(metric), w);
      verdict.Ok? && (verdict.value.fired <==> Total(Observed(Selected(w, 0), metric)) > 1.0)
  {
    assert Value(Raw(1, 0)) == 1.0;
  }

  lemma LatestIsLowerKeyed(w: Window)
    requires LowerKeyed(w.samples)
    ensures LowerKeyed(Selected(w, 0))
  {
  }

  /** With a capital in it the accepted rule never fires. */
  lemma CapitalizedNeverFires(metric: string, w: Window)
    requires KnownMetric(metric) && Lower(metric) != metric && LowerKeyed(w.samples)
    ensures Validate(Format(SumRule(metric))).Ok?
    ensures var verdict := Evaluated(Validate(Format(SumRule(metric))).value, w); verdict.Ok? && !verdict.value.fired
  {
    SumRuleFires(metric, w);
    LatestIsLowerKeyed(w);
    RuleVerdict.CapitalizedMetricUnobserved(Selected(w, 0), metric);
  }

  /** The catalog's spelling of the same rule is accepted too and fires where the metric is above one. */
  lemma LowerCaseFires(metric: string)
    requires KnownMetric(metric)
    ensures Validate(Format(SumRule(Lower(metric)))).Ok?
    ensures var w := Window(0, 0, OneReport(metric, 2.0));
      && LowerKeyed(w.samples)
      && var verdict := Evaluated(Validate(Format(SumRule(Lower(metric)))).value, w); verdict.Ok? && verdict.value.fired
  {
    LowerIdempotent(metric);
    var w := Window(0, 0, OneReport(metric, 2.0));
    SumRuleFires(Lower(metric), w);
    OneReportObserved(metric, 2.0, Lower(metric));
    assert Selected(w, 0) == OneReport(metric, 2.0);
    assert [2.0][..0] == [] && Total([2.0]) == 2.0;
  }

  /**
   Two accepted spellings of a rule agree on all lower-keyed windows exactly if the metric was
   written in lower case to begin with.
   */
  lemma CaseChangesVerdict(metric: string)
    requires KnownMetric(metric)
    ensures (forall w: Window :: LowerKeyed(w.samples) ==>
        Evaluated(SumRule(metric), w) == Evaluated(SumRule(Lower(metric)), w)) <==> Lower(metric) == metric
  {
    if Lower(metric) != metric {
      var w := Window(0, 0, OneReport(metric, 2.0));
      LowerCaseFires(metric);
      CapitalizedNeverFires(metric, w);
      LowerIdempotent(metric);
      SumRuleFires(metric, w);
      SumRuleFires(Lower(metric), w);
      assert LowerKeyed(w.samples);
    }
  }

  // ----- a source -----

  lemma SumText(metric: string)
    ensures Format(SumRule(metric)) == "sum(" + metric + ") > 1"
  {
    assert Digits(1) == "1";
    var n := SumRule(metric).expr;
    assert FormatNode(n.left) == "sum" + "(" + metric + ")";
    assert FormatNode(n.right) == "1";
    assert FormatNode(n) == "sum" + "(" + metric + ")" + " " + ">" + " " + "1";
    assert "sum" + "(" == "sum(";
    Brackets("sum(", metric, ")", " > 1");
  }

  lemma Brackets(a: string, b: string, c: string, d: string)
    ensures a + b + c + d == a + b + (c + d)
  {
  }

  lemma EventsInCapitals()
    ensures Lower("EVENTS") == "events"
  {
  }

  lemma EventsAreKnown(metric: string)
    requires IsIdentText(metric) && Lower(metric) == "events"
    ensures KnownMetric(metric)
  {
  }

  /** sum(EVENTS) > 1 is accepted and never fires; sum(events) > 1 is accepted and fires on two events. */
  lemma SumOfEvents(capitals: string, plain: string)
    requires capitals == "sum(" + "EVENTS" + ") > 1" && plain == "sum(" + "events" + ") > 1"
    ensures Validate(capitals).Ok? && Validate(plain).Ok?
    ensures forall w: Window :: LowerKeyed(w.samples) ==>
      Evaluated(Validate(capitals).value, w).Ok? && !Evaluated(Validate(capitals).value, w).value.fired
    ensures var w := Window(0, 0, OneReport("EVENTS", 2.0));
      && LowerKeyed(w.samples)
      && Evaluated(Validate(plain).value, w).Ok? && Evaluated(Validate(plain).value, w).value.fired
  {
    EventsInCapitals();
    EventsAreKnown("EVENTS");
    SumText("EVENTS");
    SumText("events");
    LowerCaseFires("EVENTS");
    SumRuleAccepted("EVENTS");
    forall w: Window | LowerKeyed(w.samples)
      ensures Evaluated(Validate(capitals).value, w).Ok? && !Evaluated(Validate(capitals).value, w).value.fired
    {
      CapitalizedNeverFires("EVENTS", w);
    }
  }
}
