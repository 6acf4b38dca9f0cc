/** What the evaluator's verdicts mean. */
module RuleVerdict {
  import opened RuleText
  import opened RuleCatalog
  import opened RuleAst
  import opened RuleValidate
  import opened RuleEval
  import RuleRoundTrip

  // ----- a checked rule never gets stuck -----

  /** Neither "unsupported expression" nor "unknown aggregation". */
  lemma {:induction false} SoundTermResolves(n: Node, samples: seq<Sample>, span: int)
    requires SoundTerm(n)
    ensures ResolvedTerm(n, samples, span).Got? || ResolvedTerm(n, samples, span).NoData?
  {
    match n
    case MetricRef(_, name) =>
      LatestIsKnown(samples, name);
    case Grouping(_, inner) =>
      SoundTermResolves(inner, samples, span);
    case _ =>
  }

  lemma {:induction false} LatestIsKnown(samples: seq<Sample>, metric: string)
    ensures Latest(samples, metric).Got? || Latest(samples, metric).NoData?
  {
    if samples != [] && metric !in samples[|samples| - 1].values {
      LatestIsKnown(samples[..|samples| - 1], metric);
    }
  }

  /** Every rule the checker accepts is evaluated without error on every window. */
  lemma CheckedRuleEvaluates(src: string, w: Window, samples: seq<Sample>, span: int)
    requires Validate(src).Ok?
    ensures var r := Validate(src).value;
      && Evaluated(r, w).Ok?
      && r.expr.Comparison?
      && (ResolvedTerm(r.expr.left, samples, span).Got? || ResolvedTerm(r.expr.left, samples, span).NoData?)
      && (ResolvedTerm(r.expr.right, samples, span).Got? || ResolvedTerm(r.expr.right, samples, span).NoData?)
  {
    CheckerIsSound(src);
    var n := Validate(src).value.expr;
    SoundTermResolves(n.left, samples, span);
    SoundTermResolves(n.right, samples, span);
  }

  // ----- positions do not matter -----

  lemma {:induction false} ResolveIgnoresPositions(n: Node, samples: seq<Sample>, span: int)
    ensures ResolvedTerm(Erase(n), samples, span) == ResolvedTerm(n, samples, span)
    ensures ContainsAggregation(Erase(n)) == ContainsAggregation(n)
  {
    match n
    case Grouping(_, inner) =>
      ResolveIgnoresPositions(inner, samples, span);
    case _ =>
  }

  predicate SameTerm(m: Node, n: Node) {
    Erase(m) == Erase(n)
  }

  lemma SameTermResolves(m: Node, n: Node, samples: seq<Sample>, span: int)
    requires SameTerm(m, n)
    ensures ResolvedTerm(m, samples, span) == ResolvedTerm(n, samples, span)
    ensures ContainsAggregation(m) == ContainsAggregation(n)
  {
    ResolveIgnoresPositions(m, samples, span);
    ResolveIgnoresPositions(n, samples, span);
  }

  lemma SameBuckets(c: Node, d: Node, samples: seq<Sample>, span: int)
    requires c.Comparison? && d.Comparison? && SameTerm(c, d)
    ensures SustainedPoints(c, samples) == SustainedPoints(d, samples)
    ensures PreviewPoints(c, samples, span) == PreviewPoints(d, samples, span)
    ensures HoldsThroughout(c, samples) == HoldsThroughout(d, samples)
  {
    forall k | 0 <= k < |samples|
      ensures SustainedPoint(c, samples[k]) == SustainedPoint(d, samples[k])
      ensures PreviewPoint(c, samples[k], span) == PreviewPoint(d, samples[k], span)
    {
      SameTermResolves(c.left, d.left, [samples[k]], MINUTE);
      SameTermResolves(c.right, d.right, [samples[k]], MINUTE);
      SameTermResolves(c.left, d.left, [samples[k]], span);
      SameTermResolves(c.right, d.right, [samples[k]], span);
    }
  }

  lemma {:induction false} SameLastReported(c: Node, d: Node, samples: seq<Sample>)
    requires c.Comparison? && d.Comparison? && SameTerm(c, d)
    ensures LastReported(c, samples) == LastReported(d, samples)
  {
    if samples != [] {
      var s := samples[|samples| - 1];
      SameTermResolves(c.left, d.left, [s], MINUTE);
      SameTermResolves(c.right, d.right, [s], MINUTE);
      SameLastReported(c, d, samples[..|samples| - 1]);
    }
  }

  lemma SameComparison(c: Node, d: Node, samples: seq<Sample>, span: int, window: nat)
    requires c.Comparison? && d.Comparison? && SameTerm(c, d)
    ensures IsSustained(c, window) == IsSustained(d, window)
    ensures Sustained(c, samples) == Sustained(d, samples)
    ensures OneComparison(c, samples, span) == OneComparison(d, samples, span)
  {
    SameTermResolves(c.left, d.left, samples, span);
    SameTermResolves(c.right, d.right, samples, span);
    SameBuckets(c, d, samples, span);
    SameLastReported(c, d, samples);
  }

  lemma SameCondition(m: Node, n: Node)
    requires SameTerm(m, n) && Condition(m).Some?
    ensures Condition(n).Some? && SameTerm(Condition(m).value, Condition(n).value)
  {
    if m.Grouping? {
      assert SameTerm(m.inner, n.inner);
    }
  }

  /** Rules equal up to positions give the same verdict. */
  lemma SameRuleSameVerdict(r: Rule, again: Rule, w: Window)
    requires EraseRule(again) == EraseRule(r) && Condition(r.expr).Some?
    ensures Evaluated(again, w) == Evaluated(r, w)
  {
    SameCondition(r.expr, again.expr);
    var selected := Selected(w, r.window);
    SameComparison(Condition(r.expr).value, Condition(again.expr).value, selected,
      WindowSpan(selected, r.window), r.window);
  }

  /** A whole-second rule gives the same verdict on every window after it was printed and checked again. */
  lemma PrintingKeepsVerdict(src: string, w: Window)
    requires Validate(src).Ok? && Validate(src).value.window % SECOND == 0
    ensures var r := Validate(src).value;
      var again := Validate(Format(r));
      again.Ok? && Evaluated(again.value, w) == Evaluated(r, w)
  {
    RuleRoundTrip.SameRuleIffWholeSeconds(src);
    CheckerIsSound(src);
    var r := Validate(src).value;
    SameRuleSameVerdict(r, Validate(Format(r)).value, w);
  }

  // ----- sustained rules -----

  /** Without an aggregation the length of the window does not enter a term's value. */
  lemma {:induction false} SpanIrrelevant(n: Node, samples: seq<Sample>, span: int, other: int)
    requires !ContainsAggregation(n)
    ensures ResolvedTerm(n, samples, span) == ResolvedTerm(n, samples, other)
  {
    match n
    case Grouping(_, inner) =>
      SpanIrrelevant(inner, samples, span, other);
    case _ =>
  }

  lemma HoldingIsReported(cmp: Node, samples: seq<Sample>)
    requires cmp.Comparison? && HoldsThroughout(cmp, samples)
    ensures LastReported(cmp, samples).Some?
  {
    assert SustainedPoint(cmp, samples[|samples| - 1]).fired;
  }

  /** A rule without aggregations fires over a window exactly when its condition holds in every selected bucket. */
  lemma SustainedFires(rule: Rule, w: Window)
    requires Condition(rule.expr).Some? && IsSustained(Condition(rule.expr).value, rule.window)
    ensures Evaluated(rule, w).Ok?
    ensures Evaluated(rule, w).value.fired <==> HoldsThroughout(Condition(rule.expr).value, Selected(w, rule.window))
  {
    var cmp, selected := Condition(rule.expr).value, Selected(w, rule.window);
    if HoldsThroughout(cmp, selected) {
      HoldingIsReported(cmp, selected);
    }
  }

  /** Without a window it looks at the latest bucket alone. */
  lemma MomentaryFires(rule: Rule, w: Window)
    requires Condition(rule.expr).Some? && rule.window == 0 && w.samples != []
    requires var cmp := Condition(rule.expr).value; !ContainsAggregation(cmp.left) && !ContainsAggregation(cmp.right)
    ensures Evaluated(rule, w).Ok?
    ensures Evaluated(rule, w).value.fired <==> HoldsThroughout(Condition(rule.expr).value, LatestBucket(w.samples))
  {
    var cmp, last := Condition(rule.expr).value, LatestBucket(w.samples);
    var span := WindowSpan(last, 0);
    assert last == [last[0]];
    SpanIrrelevant(cmp.left, last, span, MINUTE);
    SpanIrrelevant(cmp.right, last, span, MINUTE);
  }

  predicate OldestFirst(samples: seq<Sample>) {
    forall i, j :: 0 <= i <= j < |samples| ==> samples[i].at <= samples[j].at
  }

  /** If even the newest sample is before the cutoff, no older one is inside. */
  lemma NoneInside(before: seq<Sample>, last: Sample, cutoff: int, k: nat)
    requires last.at < cutoff && k <= |before|
    requires forall i :: 0 <= i < |before| ==> before[i].at <= last.at
    requires forall i :: 0 <= i < |before| ==> (before[i].at >= cutoff <==> k <= i)
    ensures k == |before|
  {
    if k < |before| {
      FirstInside(before, cutoff, k);
    }
  }

  lemma FirstInside(samples: seq<Sample>, cutoff: int, k: nat)
    requires k < |samples|
    requires forall i :: 0 <= i < |samples| ==> (samples[i].at >= cutoff <==> k <= i)
    ensures samples[k].at >= cutoff
  {
  }

  lemma LaterCutoff(samples: seq<Sample>, early: int, late: int, i: nat, j: nat)
    requires early <= late && i <= |samples| && j <= |samples|
    requires forall k :: 0 <= k < |samples| ==> (samples[k].at >= early <==> i <= k)
    requires forall k :: 0 <= k < |samples| ==> (samples[k].at >= late <==> j <= k)
    ensures i <= j
  {
    if j < |samples| {
      var s := samples[j];
    }
  }

  lemma OneMoreInside(samples: seq<Sample>, k: nat)
    requires k < |samples|
    ensures samples[..|samples| - 1][k..] + [samples[|samples| - 1]] == samples[k..]
  {
  }

  /** On time-sorted samples the selection by cutoff is a suffix. */
  lemma {:induction false} NotBeforeIsSuffix(samples: seq<Sample>, cutoff: int) returns (k: nat)
    requires OldestFirst(samples)
    ensures k <= |samples| && NotBefore(samples, cutoff) == samples[k..]
    ensures forall i :: 0 <= i < |samples| ==> (samples[i].at >= cutoff <==> k <= i)
  {
    if samples == [] {
      k := 0;
    } else {
      var n := |samples| - 1;
      k := NotBeforeIsSuffix(samples[..n], cutoff);
      if samples[n].at >= cutoff {
        OneMoreInside(samples, k);
      } else {
        NoneInside(samples[..n], samples[n], cutoff, k);
        k := n + 1;
      }
    }
  }

  /** A shorter window selects a non-empty suffix of what a longer one selects. */
  lemma ShorterSelection(w: Window, longer: nat, shorter: nat) returns (k: nat)
    requires OldestFirst(w.samples) && w.samples != [] && shorter <= longer
    ensures k < |Selected(w, longer)| && Selected(w, shorter) == Selected(w, longer)[k..]
  {
    var n := |w.samples|;
    if longer == 0 {
      k := 0;
    } else {
      var i := NotBeforeIsSuffix(w.samples, w.to - longer);
      var first := if i == n then n - 1 else i;
      assert Selected(w, longer) == w.samples[first..];
      var second := n - 1;
      if shorter > 0 {
        var j := NotBeforeIsSuffix(w.samples, w.to - shorter);
        LaterCutoff(w.samples, w.to - longer, w.to - shorter, i, j);
        second := if j == n then n - 1 else j;
      }
      assert Selected(w, shorter) == w.samples[second..];
      k := second - first;
      assert w.samples[first..][k..] == w.samples[second..];
    }
  }

  /**
   A rule without aggregations that fires over a window also fires over every
   shorter one, and over none.
   */
  lemma ShorterWindowFires(rule: Rule, shorter: nat, w: Window)
    requires OldestFirst(w.samples) && shorter <= rule.window && 0 < rule.window
    requires Condition(rule.expr).Some? && IsSustained(Condition(rule.expr).value, rule.window)
    requires Evaluated(rule, w).Ok? && Evaluated(rule, w).value.fired
    ensures Evaluated(rule.(window := shorter), w).Ok? && Evaluated(rule.(window := shorter), w).value.fired
  {
    var cmp := Condition(rule.expr).value;
    SustainedFires(rule, w);
    var longer, less := Selected(w, rule.window), Selected(w, shorter);
    var k := ShorterSelection(w, rule.window, shorter);
    forall i | 0 <= i < |less|
      ensures SustainedPoint(cmp, less[i]).fired
    {
      assert less[i] == longer[k + i];
    }
    assert HoldsThroughout(cmp, less);
    if shorter > 0 {
      SustainedFires(rule.(window := shorter), w);
    } else {
      MomentaryFires(rule.(window := 0), w);
    }
  }

  // ----- aggregations look a metric up as it was written -----

  /**
   The checker looks an aggregation's metric up in lower case but the evaluator
   does not: with samples keyed in lower case, a name written with a capital has
   no observations at all.
   */
  lemma {:induction false} CapitalizedMetricUnobserved(samples: seq<Sample>, metric: string)
    requires Lower(metric) != metric
    requires forall i, key :: 0 <= i < |samples| && key in samples[i].values ==> Lower(key) == key
    ensures Observed(samples, metric) == []
  {
    if samples != [] {
      CapitalizedMetricUnobserved(samples[..|samples| - 1], metric);
    }
  }
}
