/**
 The evaluator. Values are reals and times integer nanoseconds; the reason text of
 a verdict is left out.
 */
module RuleEval {
  import opened RuleCatalog
  import opened RuleAst
  import opened RuleErrors
  import Decimal
  import opened Wrappers

  datatype Sample = Sample(at: int, values: map<string, real>)

  datatype Window = Window(from: int, to: int, samples: seq<Sample>)

  datatype Point = Point(at: int, value: real, hasValue: bool, fired: bool)

  datatype Verdict = Verdict(fired: bool, value: real, hasValue: bool, threshold: real, op: Op, points: seq<Point>)

  /** A term's value; or no observation; or a term the evaluator does not know. */
  datatype Resolved = Got(value: real) | NoData | Unsupported | UnknownFunction

  function Compare(op: Op, a: real, b: real): bool {
    match op
    case Greater => a > b
    case GreaterEq => a >= b
    case Less => a < b
    case LessEq => a <= b
    case Equal => a == b
    case NotEqual => a != b
  }

  predicate ContainsAggregation(n: Node) {
    match n
    case Aggregation(_, _, _, _) => true
    case Grouping(_, inner) => ContainsAggregation(inner)
    case _ => false
  }

  // ----- what the scans compute -----

  function Latest(samples: seq<Sample>, metric: string): Resolved {
    if samples == [] then NoData
    else
      var last := samples[|samples| - 1];
      if metric in last.values then Got(last.values[metric]) else Latest(samples[..|samples| - 1], metric)
  }

  function Observed(samples: seq<Sample>, metric: string): seq<real> {
    if samples == [] then []
    else
      var before, last := Observed(samples[..|samples| - 1], metric), samples[|samples| - 1];
      if metric in last.values then before + [last.values[metric]] else before
  }

  function Total(values: seq<real>): real {
    if values == [] then 0.0 else Total(values[..|values| - 1]) + values[|values| - 1]
  }

  function Largest(values: seq<real>): (m: real)
    requires values != []
    ensures m in values && forall v :: v in values ==> v <= m
  {
    if |values| == 1 then values[0]
    else
      var m, v := Largest(values[..|values| - 1]), values[|values| - 1];
      assert values == values[..|values| - 1] + [v];
      if v > m then v else m
  }

  function Smallest(values: seq<real>): (m: real)
    requires values != []
    ensures m in values && forall v :: v in values ==> m <= v
  {
    if |values| == 1 then values[0]
    else
      var m, v := Smallest(values[..|values| - 1]), values[|values| - 1];
      assert values == values[..|values| - 1] + [v];
      if v < m then v else m
  }

  /** The window's length in seconds, at least one. */
  function SpanSeconds(span: int): (r: real)
    ensures r >= 1.0
  {
    var secs := span as real / SECOND as real;
    if secs > 1.0 then secs else 1.0
  }

  function Aggregated(fn: string, values: seq<real>, span: int): Resolved {
    if fn == "count" then Got(|values| as real)
    else if fn == "sum" then Got(Total(values))
    else if fn == "rate" then Got(Total(values) / SpanSeconds(span))
    else if values == [] then NoData
    else if fn == "avg" then Got(Total(values) / |values| as real)
    else if fn == "max" then Got(Largest(values))
    else if fn == "min" then Got(Smallest(values))
    else UnknownFunction
  }

  function ResolvedTerm(n: Node, samples: seq<Sample>, span: int): Resolved {
    match n
    case NumberLiteral(_, value, _, _) => Got(Decimal.Value(value))
    case MetricRef(_, name) => Latest(samples, name)
    case Aggregation(_, fn, _, metric) => Aggregated(fn, Observed(samples, metric), span)
    case Grouping(_, inner) => ResolvedTerm(inner, samples, span)
    case Comparison(_, _, _, _, _) => Unsupported
  }

  /** The samples at or after the cutoff, in order. */
  function NotBefore(samples: seq<Sample>, cutoff: int): seq<Sample> {
    if samples == [] then []
    else
      var before, last := NotBefore(samples[..|samples| - 1], cutoff), samples[|samples| - 1];
      if last.at >= cutoff then before + [last] else before
  }

  function LatestBucket(samples: seq<Sample>): seq<Sample>
    requires samples != []
  {
    samples[|samples| - 1..]
  }

  /** The buckets a rule looks at: its window, or failing that the latest bucket. */
  function Selected(w: Window, window: int): seq<Sample> {
    if w.samples == [] then []
    else if window <= 0 then LatestBucket(w.samples)
    else
      var inside := NotBefore(w.samples, w.to - window);
      if inside == [] then LatestBucket(w.samples) else inside
  }

  function WindowSpan(samples: seq<Sample>, fallback: int): int {
    if |samples| >= 2 && samples[|samples| - 1].at - samples[0].at > 0 then samples[|samples| - 1].at - samples[0].at
    else if fallback > 0 then fallback
    else MINUTE
  }

  /** One bucket of a sustained condition: both sides reported, and the operator applied. */
  function SustainedPoint(cmp: Node, s: Sample): Point
    requires cmp.Comparison?
  {
    var l, r := ResolvedTerm(cmp.left, [s], MINUTE), ResolvedTerm(cmp.right, [s], MINUTE);
    if l.Got? && r.Got? then Point(s.at, l.value, true, Compare(cmp.op, l.value, r.value))
    else Point(s.at, 0.0, false, false)
  }

  /** The value and threshold of the last bucket that reports both sides. */
  function LastReported(cmp: Node, samples: seq<Sample>): Option<(real, real)>
    requires cmp.Comparison?
  {
    if samples == [] then None
    else
      var s := samples[|samples| - 1];
      var l, r := ResolvedTerm(cmp.left, [s], MINUTE), ResolvedTerm(cmp.right, [s], MINUTE);
      if l.Got? && r.Got? then Some((l.value, r.value)) else LastReported(cmp, samples[..|samples| - 1])
  }

  function SustainedPoints(cmp: Node, samples: seq<Sample>): (points: seq<Point>)
    requires cmp.Comparison?
    ensures |points| == |samples|
  {
    seq(|samples|, k requires 0 <= k < |samples| => SustainedPoint(cmp, samples[k]))
  }

  /** Every bucket of a non-empty selection reports both sides and satisfies the operator. */
  predicate HoldsThroughout(cmp: Node, samples: seq<Sample>)
    requires cmp.Comparison?
  {
    samples != [] && forall k :: 0 <= k < |samples| ==> SustainedPoint(cmp, samples[k]).fired
  }

  function Sustained(cmp: Node, samples: seq<Sample>): Verdict
    requires cmp.Comparison?
  {
    var points := SustainedPoints(cmp, samples);
    match LastReported(cmp, samples)
    case None => Verdict(false, 0.0, false, 0.0, cmp.op, points)
    case Some(v) => Verdict(HoldsThroughout(cmp, samples), v.0, true, v.1, cmp.op, points)
  }

  function PreviewPoint(cmp: Node, s: Sample, span: int): Point
    requires cmp.Comparison?
  {
    var l, r := ResolvedTerm(cmp.left, [s], span), ResolvedTerm(cmp.right, [s], span);
    if l.Got? then Point(s.at, l.value, true, r.Got? && Compare(cmp.op, l.value, r.value))
    else Point(s.at, 0.0, false, false)
  }

  function PreviewPoints(cmp: Node, samples: seq<Sample>, span: int): (points: seq<Point>)
    requires cmp.Comparison?
    ensures |points| == |samples|
  {
    seq(|samples|, k requires 0 <= k < |samples| => PreviewPoint(cmp, samples[k], span))
  }

  /** The condition of a rule: a comparison, perhaps in one pair of parentheses. */
  function Condition(n: Node): (c: Option<Node>)
    ensures c.Some? ==> c.value.Comparison?
  {
    if n.Comparison? then Some(n)
    else if n.Grouping? && n.inner.Comparison? then Some(n.inner)
    else None
  }

  predicate IsSustained(cmp: Node, window: nat)
    requires cmp.Comparison?
  {
    window > 0 && !ContainsAggregation(cmp.left) && !ContainsAggregation(cmp.right)
  }

  function OneComparison(cmp: Node, samples: seq<Sample>, span: int): Verdict
    requires cmp.Comparison?
  {
    var l, r := ResolvedTerm(cmp.left, samples, span), ResolvedTerm(cmp.right, samples, span);
    var threshold := if r.Got? then r.value else 0.0;
    if !l.Got? || !r.Got? then Verdict(false, 0.0, false, threshold, cmp.op, [])
    else Verdict(Compare(cmp.op, l.value, r.value), l.value, true, threshold, cmp.op, PreviewPoints(cmp, samples, span))
  }

  function Evaluated(rule: Rule, w: Window): Result<Verdict> {
    match Condition(rule.expr)
    case None => Err(RuleError(rule.expr.pos, NoComparison))
    case Some(cmp) =>
      var selected := Selected(w, rule.window);
      if IsSustained(cmp, rule.window) then Ok(Sustained(cmp, selected))
      else Ok(OneComparison(cmp, selected, WindowSpan(selected, rule.window)))
  }

  // ----- the loops -----

  method SumUp(values: seq<real>) returns (total: real)
    ensures total == Total(values)
  {
    total := 0.0;
    for k := 0 to |values|
      invariant total == Total(values[..k])
    {
      assert values[..k + 1][..k] == values[..k];
      total := total + values[k];
    }
    assert values[..|values|] == values;
  }

  method FindLargest(values: seq<real>) returns (m: real)
    requires values != []
    ensures m == Largest(values)
  {
    m := values[0];
    for k := 0 to |values|
      invariant k > 0 ==> m == Largest(values[..k])
      invariant k == 0 ==> m == values[0]
    {
      assert k > 0 ==> values[..k + 1][..k] == values[..k];
      if values[k] > m {
        m := values[k];
      }
    }
    assert values[..|values|] == values;
  }

  method FindSmallest(values: seq<real>) returns (m: real)
    requires values != []
    ensures m == Smallest(values)
  {
    m := values[0];
    for k := 0 to |values|
      invariant k > 0 ==> m == Smallest(values[..k])
      invariant k == 0 ==> m == values[0]
    {
      assert k > 0 ==> values[..k + 1][..k] == values[..k];
      if values[k] < m {
        m := values[k];
      }
    }
    assert values[..|values|] == values;
  }

  method Aggregate(fn: string, values: seq<real>, span: int) returns (r: Resolved)
    ensures r == Aggregated(fn, values, span)
  {
    if fn == "count" {
      return Got(|values| as real);
    } else if fn == "sum" {
      var total := SumUp(values);
      return Got(total);
    } else if fn == "rate" {
      if |values| == 0 {
        return Got(0.0);
      }
      var total := SumUp(values);
      return Got(total / SpanSeconds(span));
    }
    if |values| == 0 {
      return NoData;
    }
    if fn == "avg" {
      var total := SumUp(values);
      return Got(total / |values| as real);
    } else if fn == "max" {
      var m := FindLargest(values);
      return Got(m);
    } else if fn == "min" {
      var m := FindSmallest(values);
      return Got(m);
    }
    return UnknownFunction;
  }

  method Resolve(n: Node, samples: seq<Sample>, span: int) returns (r: Resolved)
    ensures r == ResolvedTerm(n, samples, span)
    decreases n
  {
    match n
    case NumberLiteral(_, value, _, _) =>
      return Got(Decimal.Value(value));
    case MetricRef(_, name) =>
      var i := |samples|;
      assert samples[..i] == samples;
      while i > 0
        invariant 0 <= i <= |samples|
        invariant Latest(samples, name) == Latest(samples[..i], name)
      {
        i := i - 1;
        if name in samples[i].values {
          return Got(samples[i].values[name]);
        }
        assert samples[..i + 1][..i] == samples[..i];
      }
      return NoData;
    case Aggregation(_, fn, _, metric) =>
      var values: seq<real> := [];
      for k := 0 to |samples|
        invariant values == Observed(samples[..k], metric)
      {
        assert samples[..k + 1][..k] == samples[..k];
        if metric in samples[k].values {
          values := values + [samples[k].values[metric]];
        }
      }
      assert samples[..|samples|] == samples;
      r := Aggregate(fn, values, span);
    case Grouping(_, inner) =>
      r := Resolve(inner, samples, span);
    case Comparison(_, _, _, _, _) =>
      return Unsupported;
  }

  method SelectSamples(w: Window, window: int) returns (out: seq<Sample>)
    ensures out == Selected(w, window)
  {
    if |w.samples| == 0 {
      return [];
    }
    if window <= 0 {
      return w.samples[|w.samples| - 1..];
    }
    var cutoff := w.to - window;
    out := [];
    for k := 0 to |w.samples|
      invariant out == NotBefore(w.samples[..k], cutoff)
    {
      assert w.samples[..k + 1][..k] == w.samples[..k];
      if w.samples[k].at >= cutoff {
        out := out + [w.samples[k]];
      }
    }
    assert w.samples[..|w.samples|] == w.samples;
    if |out| == 0 {
      return w.samples[|w.samples| - 1..];
    }
  }

  method EvaluateSustained(cmp: Node, samples: seq<Sample>) returns (res: Verdict)
    requires cmp.Comparison?
    ensures res == Sustained(cmp, samples)
  {
    res := Verdict(false, 0.0, false, 0.0, cmp.op, []);
    var present, allFired := 0, true;
    for k := 0 to |samples|
      invariant 0 <= present <= k && (present > 0 <==> LastReported(cmp, samples[..k]).Some?)
      invariant res.op == cmp.op && res.points == SustainedPoints(cmp, samples[..k])
      invariant LastReported(cmp, samples[..k]).None? ==> res.value == 0.0 && res.threshold == 0.0
      invariant LastReported(cmp, samples[..k]).Some? ==>
        LastReported(cmp, samples[..k]).value == (res.value, res.threshold)
      invariant res.hasValue == (present > 0)
      invariant allFired <==> forall j :: 0 <= j < k ==> SustainedPoint(cmp, samples[j]).fired
    {
      var s := samples[k];
      assert samples[..k + 1][..k] == samples[..k];
      var l := Resolve(cmp.left, [s], MINUTE);
      var r := Resolve(cmp.right, [s], MINUTE);
      var p := Point(s.at, 0.0, false, false);
      if l.Got? && r.Got? {
        p := Point(s.at, l.value, true, Compare(cmp.op, l.value, r.value));
        present := present + 1;
        res := res.(value := l.value, threshold := r.value, hasValue := true);
        if !p.fired {
          allFired := false;
        }
      } else {
        allFired := false;
      }
      res := res.(points := res.points + [p]);
    }
    assert samples[..|samples|] == samples;
    if present == 0 {
      return res.(fired := false, hasValue := false);
    }
    res := res.(fired := allFired);
  }

  method PointsFor(cmp: Node, samples: seq<Sample>, span: int) returns (pts: seq<Point>)
    requires cmp.Comparison?
    ensures pts == PreviewPoints(cmp, samples, span)
  {
    pts := [];
    for k := 0 to |samples|
      invariant pts == PreviewPoints(cmp, samples[..k], span)
    {
      var s := samples[k];
      var l := Resolve(cmp.left, [s], span);
      var p := Point(s.at, 0.0, l.Got?, false);
      if l.Got? {
        var r := Resolve(cmp.right, [s], span);
        p := Point(s.at, l.value, true, r.Got? && Compare(cmp.op, l.value, r.value));
      }
      pts := pts + [p];
    }
    assert samples[..|samples|] == samples;
  }

  method Evaluate(rule: Rule, w: Window) returns (res: Result<Verdict>)
    ensures res == Evaluated(rule, w)
  {
    var cmp := rule.expr;
    if !cmp.Comparison? && cmp.Grouping? {
      cmp := cmp.inner;
    }
    if !cmp.Comparison? {
      return Err(RuleError(rule.expr.pos, NoComparison));
    }
    var selected := SelectSamples(w, rule.window);
    var span := WindowSpan(selected, rule.window);
    if rule.window > 0 && !ContainsAggregation(cmp.left) && !ContainsAggregation(cmp.right) {
      var sustained := EvaluateSustained(cmp, selected);
      return Ok(sustained);
    }
    var l := Resolve(cmp.left, selected, span);
    var r := Resolve(cmp.right, selected, span);
    var verdict := Verdict(false, 0.0, false, if r.Got? then r.value else 0.0, cmp.op, []);
    if !l.Got? || !r.Got? {
      return Ok(verdict);
    }
    var points := PointsFor(cmp, selected, span);
    var fired := Compare(cmp.op, l.value, r.value);
    return Ok(verdict.(value := l.value, hasValue := true, fired := fired, points := points));
  }
}
