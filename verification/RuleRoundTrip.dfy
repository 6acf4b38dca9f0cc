/**
 The promise on Format: print a checked rule, check the text again, and the same
 rule comes back. It holds exactly for whole-second windows.
 */
module RuleRoundTrip {
  import opened RuleText
  import opened RuleErrors
  import opened RuleCatalog
  import opened RuleAst
  import opened RuleParser
  import opened RuleValidate
  import RuleReading
  import StrKey

  // ----- positions do not matter -----

  lemma {:induction false} FormatIgnoresPositions(n: Node)
    ensures FormatNode(Erase(n)) == FormatNode(n)
  {
    match n
    case Comparison(_, _, _, left, right) =>
      FormatIgnoresPositions(left);
      FormatIgnoresPositions(right);
    case Grouping(_, inner) =>
      FormatIgnoresPositions(inner);
    case _ =>
  }

  lemma {:induction false} ShapeIgnoresPositions(n: Node)
    ensures HasComparison(Erase(n)) == HasComparison(n) && SideIsBoolean(Erase(n)) == SideIsBoolean(n)
    ensures SideUnitOf(Erase(n)).unit == SideUnitOf(n).unit
    ensures SideUnitOf(Erase(n)).literal.Some? == SideUnitOf(n).literal.Some?
    ensures SideUnitOf(n).literal.Some? ==> SideUnitOf(Erase(n)).literal.value.unit == SideUnitOf(n).literal.value.unit
  {
    match n
    case Grouping(_, inner) =>
      ShapeIgnoresPositions(inner);
    case _ =>
  }

  lemma {:induction false} ValidityIgnoresPositions(n: Node)
    ensures ValidateNode(Erase(n)).Ok? == ValidateNode(n).Ok?
  {
    match n
    case Comparison(_, _, _, left, right) =>
      ShapeIgnoresPositions(left);
      ShapeIgnoresPositions(right);
      ValidityIgnoresPositions(left);
      ValidityIgnoresPositions(right);
    case Grouping(_, inner) =>
      ValidityIgnoresPositions(inner);
    case _ =>
  }

  // ----- a checked rule can be printed -----

  lemma NetworkIsPlain(name: string)
    requires name in VALID_NETWORKS
    ensures IsIdentText(name) && ValidateNetwork(name) == Ok(name)
  {
    NetworkSpellings();
    var k :| 0 <= k < 4 && VALID_NETWORKS[k] == name;
    var found := FindNetwork(name, VALID_NETWORKS);
    assert EqualFold(name, VALID_NETWORKS[k]);
    assert found.Some? && Lower(found.value) == found.value && Lower(name) == name;
  }

  lemma NetworkSpellings()
    ensures |VALID_NETWORKS| == 4
    ensures forall k :: 0 <= k < 4 ==> IsIdentText(VALID_NETWORKS[k]) && Lower(VALID_NETWORKS[k]) == VALID_NETWORKS[k]
  {
  }

  lemma CheckedRuleIsPrintable(src: string)
    requires Validate(src).Ok?
    ensures PrintableRule(Validate(src).value)
  {
    ParsedExprIsPrintable(src);
    CheckerIsSound(src);
    var r := Validate(src).value;
    ValidatedParts(ParseSource(src).value);
    if r.network != "" {
      NetworkIsPlain(r.network);
    }
  }

  /** Rules that agree up to positions pass the checker together. */
  lemma CheckAgain(r: Rule, again: Rule)
    requires HasComparison(r.expr) && ValidateNode(r.expr).Ok? && ValidateWindow(r.window).Ok?
    requires r.network == "" || r.network in VALID_NETWORKS
    requires r.contractID == "" || StrKey.IsContractId(r.contractID)
    requires EraseRule(again) == EraseRule(r)
    ensures ValidateRule(again) == Ok(again)
  {
    ShapeIgnoresPositions(r.expr);
    ShapeIgnoresPositions(again.expr);
    ValidityIgnoresPositions(r.expr);
    ValidityIgnoresPositions(again.expr);
    if r.network != "" {
      NetworkIsPlain(r.network);
    }
  }

  lemma WholeWindowIsValid(window: nat)
    requires ValidateWindow(window).Ok?
    ensures ValidateWindow(WholeSeconds(window)).Ok?
  {
  }

  /** The text was accepted, as the given rule up to positions. */
  predicate ReadsBackAs(checked: Result<Rule>, r: Rule) {
    checked.Ok? && EraseRule(checked.value) == EraseRule(r)
  }

  predicate PrintsAs(checked: Result<Rule>, text: string) {
    checked.Ok? && Format(checked.value) == text
  }

  /**
   For every source the checker accepts, the printed rule is accepted again and is
   the same rule up to positions, its window cut to whole seconds.
   */
  lemma ValidateOfFormat(src: string)
    requires Validate(src).Ok?
    ensures var r := Validate(src).value;
      ReadsBackAs(Validate(Format(r)), r.(window := WholeSeconds(r.window)))
  {
    var r := Validate(src).value;
    CheckedRuleIsPrintable(src);
    RuleReading.ParseOfFormat(r);
    ValidatedParts(ParseSource(src).value);
    CheckerIsSound(src);
    WholeWindowIsValid(r.window);
    CheckAgain(r.(window := WholeSeconds(r.window)), ParseSource(Format(r)).value);
  }

  /** The very same rule comes back exactly when the window is a whole number of seconds. */
  lemma SameRuleIffWholeSeconds(src: string)
    requires Validate(src).Ok?
    ensures var r := Validate(src).value;
      ReadsBackAs(Validate(Format(r)), r) <==> r.window % SECOND == 0
  {
    ValidateOfFormat(src);
  }

  lemma FormatFromParts(r: Rule, again: Rule)
    requires EraseRule(again) == EraseRule(r.(window := again.window)) && (r.window == 0 <==> again.window == 0)
    ensures Format(again) == Format(r) <==> r.window == 0 || FormatDuration(again.window) == FormatDuration(r.window)
  {
    FormatIgnoresPositions(r.expr);
    FormatIgnoresPositions(again.expr);
    var body, scope := FormatNode(r.expr), FormatScope(r.contractID, r.network);
    SameMiddle(body, FormatWindow(again.window), FormatWindow(r.window), scope);
    if r.window > 0 {
      SameMiddle(" for ", FormatDuration(again.window), FormatDuration(r.window), "");
      assert FormatWindow(again.window) == " for " + FormatDuration(again.window) + "";
      assert FormatWindow(r.window) == " for " + FormatDuration(r.window) + "";
    }
  }

  lemma SameMiddle(a: string, b: string, c: string, d: string)
    ensures a + b + d == a + c + d <==> b == c
  {
    var s, t := a + b + d, a + c + d;
    if s == t {
      assert |b| == |c|;
      assert b == s[|a|..|a| + |b|] && c == t[|a|..|a| + |c|];
    }
  }

  /**
   Printing, checking and printing again is byte-stable, except when cutting the
   fraction of a second leaves a whole number of minutes.
   */
  lemma FormatStable(src: string)
    requires Validate(src).Ok?
    ensures var r := Validate(src).value;
      PrintsAs(Validate(Format(r)), Format(r)) <==> r.window % SECOND == 0 || WholeSeconds(r.window) % MINUTE != 0
  {
    var r := Validate(src).value;
    ValidateOfFormat(src);
    CheckerIsSound(src);
    var again := Validate(Format(r)).value;
    assert again.window == WholeSeconds(r.window);
    FormatFromParts(r, again);
    FormatDurationStable(r.window);
  }
}
