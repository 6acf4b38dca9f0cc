/** The static checker. */
module RuleValidate {
  import opened RuleText
  import opened RuleErrors
  import opened RuleCatalog
  import opened RuleLexer
  import opened RuleAst
  import opened RuleParser
  import StrKey
  import opened Wrappers

  predicate HasComparison(n: Node) {
    match n
    case Comparison(_, _, _, _, _) => true
    case Grouping(_, inner) => HasComparison(inner)
    case _ => false
  }

  predicate SideIsBoolean(n: Node) {
    match n
    case Comparison(_, _, _, _, _) => true
    case Grouping(_, inner) => SideIsBoolean(inner)
    case _ => false
  }

  function CheckMetric(pos: int, name: string): Result<()> {
    if LookupMetric(name).Some? then Ok(()) else Err(RuleError(pos, UnknownMetric))
  }

  /** The unit of one side, and the literal when that side is one. */
  datatype SideUnit = SideUnit(unit: Unit, literal: Option<Node>)

  function MetricSide(name: string): SideUnit {
    var unit := LookupMetric(name);
    SideUnit(if unit.Some? then unit.value else NoUnit, None)
  }

  function SideUnitOf(n: Node): (s: SideUnit)
    ensures s.literal.Some? ==> s.literal.value.NumberLiteral?
  {
    match n
    case MetricRef(_, name) => MetricSide(name)
    case Aggregation(_, _, _, metric) => MetricSide(metric)
    case NumberLiteral(_, _, unit, _) => SideUnit(unit, Some(n))
    case Grouping(_, inner) => SideUnitOf(inner)
    case Comparison(_, _, _, _, _) => SideUnit(NoUnit, None)
  }

  function LiteralPos(n: Node): int
    requires n.NumberLiteral?
  {
    if n.unitAt >= 0 then n.unitAt else n.pos
  }

  function CheckUnits(c: Node): Result<()>
    requires c.Comparison?
  {
    var l, r := SideUnitOf(c.left), SideUnitOf(c.right);
    if l.literal.Some? && r.unit != NoUnit then
      if UnitCompatible(l.literal.value.unit, r.unit) then Ok(())
      else Err(RuleError(LiteralPos(l.literal.value), UnitMismatch))
    else if r.literal.Some? && l.unit != NoUnit then
      if UnitCompatible(r.literal.value.unit, l.unit) then Ok(())
      else Err(RuleError(LiteralPos(r.literal.value), UnitMismatch))
    else if l.unit != NoUnit && r.unit != NoUnit && l.unit != r.unit then
      Err(RuleError(c.opPos, IncomparableMetrics))
    else Ok(())
  }

  function ValidateSide(n: Node): Result<()>
    decreases n, 1
  {
    if SideIsBoolean(n) then Err(RuleError(n.pos, NestedComparison)) else ValidateNode(n)
  }

  function ValidateNode(n: Node): Result<()>
    decreases n, 0
  {
    match n
    case NumberLiteral(_, _, _, _) => Ok(())
    case MetricRef(pos, name) => CheckMetric(pos, name)
    case Aggregation(pos, fn, metricPos, metric) =>
      if !IsAggregation(fn) then Err(RuleError(pos, UnknownAggregation)) else CheckMetric(metricPos, metric)
    case Grouping(_, inner) => ValidateNode(inner)
    case Comparison(_, _, _, left, right) =>
      var _ :- ValidateSide(left);
      var _ :- ValidateSide(right);
      CheckUnits(n)
  }

  function ValidateWindow(window: nat): Result<()> {
    if window == 0 then Ok(())
    else if window < MIN_WINDOW then Err(RuleError(0, WindowTooShort))
    else if window > MAX_WINDOW then Err(RuleError(0, WindowTooLong))
    else Ok(())
  }

  /** The first network of the list that equals name up to case. */
  function FindNetwork(name: string, networks: seq<string>): (r: Option<string>)
    ensures r.Some? ==> r.value in networks && EqualFold(name, r.value)
    ensures r.None? ==> forall k :: 0 <= k < |networks| ==> !EqualFold(name, networks[k])
  {
    if networks == [] then None
    else if EqualFold(name, networks[0]) then Some(networks[0])
    else FindNetwork(name, networks[1..])
  }

  function ValidateNetwork(name: string): Result<string> {
    if name == "" then Ok("")
    else
      var found := FindNetwork(name, VALID_NETWORKS);
      if found.Some? then Ok(found.value) else Err(RuleError(0, UnknownNetwork))
  }

  /** The checked rule, its network written in canonical form. */
  function ValidateRule(r: Rule): Result<Rule> {
    if !HasComparison(r.expr) then Err(RuleError(r.expr.pos, NoComparison))
    else
      var _ :- ValidateNode(r.expr);
      var _ :- ValidateWindow(r.window);
      var network :- ValidateNetwork(r.network);
      if r.contractID != "" && !StrKey.IsContractId(r.contractID) then Err(RuleError(0, InvalidContractId))
      else Ok(r.(network := network))
  }

  function Validate(src: string): Result<Rule> {
    var r :- ParseSource(src);
    ValidateRule(r)
  }

  // ----- the checker's loop -----

  method CanonicalNetwork(name: string) returns (r: Option<string>)
    ensures r == FindNetwork(name, VALID_NETWORKS)
  {
    for k := 0 to |VALID_NETWORKS|
      invariant FindNetwork(name, VALID_NETWORKS) == FindNetwork(name, VALID_NETWORKS[k..])
    {
      assert VALID_NETWORKS[k..][1..] == VALID_NETWORKS[k + 1..];
      if EqualFold(name, VALID_NETWORKS[k]) {
        return Some(VALID_NETWORKS[k]);
      }
    }
    return None;
  }

  method CheckRule(r: Rule) returns (checked: Result<Rule>)
    ensures checked == ValidateRule(r)
  {
    if !HasComparison(r.expr) {
      return Err(RuleError(r.expr.pos, NoComparison));
    }
    var nodes := ValidateNode(r.expr);
    if nodes.Err? {
      return Err(nodes.error);
    }
    var rule := r;
    if r.window != 0 {
      if r.window < MIN_WINDOW {
        return Err(RuleError(0, WindowTooShort));
      }
      if r.window > MAX_WINDOW {
        return Err(RuleError(0, WindowTooLong));
      }
    }
    if r.network != "" {
      var found := CanonicalNetwork(r.network);
      if found.None? {
        return Err(RuleError(0, UnknownNetwork));
      }
      rule := rule.(network := found.value);
    }
    if r.contractID != "" {
      var ok := StrKey.ValidContractID(r.contractID);
      if !ok {
        return Err(RuleError(0, InvalidContractId));
      }
    }
    return Ok(rule);
  }

  method ValidateText(src: string) returns (r: Result<Rule>)
    ensures r == Validate(src)
  {
    var parsed :- ParseText(src);
    r := CheckRule(parsed);
  }

  // ----- soundness of the checker -----

  /** No comparison anywhere in the term, and every name in it is known. */
  predicate SoundTerm(n: Node) {
    match n
    case NumberLiteral(_, _, _, _) => true
    case MetricRef(_, name) => LookupMetric(name).Some?
    case Aggregation(_, fn, _, metric) => IsFunctionName(fn) && LookupMetric(metric).Some?
    case Grouping(_, inner) => SoundTerm(inner)
    case Comparison(_, _, _, _, _) => false
  }

  /** An expression the evaluator can always work with. */
  predicate SoundExpr(n: Node) {
    n.Comparison? && SoundTerm(n.left) && SoundTerm(n.right)
  }

  lemma {:induction false} ValidSideIsSound(n: Node)
    requires Printable(n) && !SideIsBoolean(n) && ValidateNode(n).Ok?
    ensures SoundTerm(n)
  {
    match n
    case Grouping(_, inner) =>
      ValidSideIsSound(inner);
    case _ =>
  }

  // ----- what the parser produces -----

  predicate PlainIdents(toks: seq<Token>) {
    forall k :: 0 <= k < |toks| && toks[k].kind == Ident ==> IsIdentText(toks[k].text)
  }

  lemma IdentLexeme(src: string, i: nat)
    requires i < |src| && !IsSpace(src[i])
    ensures var s := LexOne(src, i); s.Step? && s.tok.kind == Ident ==> IsIdentText(s.tok.text)
  {
    if IsIdentStart(src[i]) {
      var j := RunEnd(src, i, IsIdentPart);
      assert IsIdentPart(src[i]) && j > i;
      assert src[i..j][0] == src[i];
    }
  }

  lemma {:induction false} TokensArePlain(src: string, i: nat)
    requires i <= |src| && LexFrom(src, i).Ok?
    ensures PlainIdents(LexFrom(src, i).value)
    decreases |src| - i
  {
    if i < |src| {
      if IsSpace(src[i]) {
        TokensArePlain(src, i + 1);
      } else {
        LexOneProgress(src, i);
        IdentLexeme(src, i);
        TokensArePlain(src, LexOne(src, i).next);
      }
    }
  }

  lemma LowerOfIdent(s: string)
    requires IsIdentText(s)
    ensures IsIdentText(Lower(s)) && Lower(Lower(s)) == Lower(s)
    ensures ClauseKeyword(Lower(s)) == ClauseKeyword(s) && IsAggregation(Lower(s)) == IsAggregation(s)
  {
    LowerIdempotent(s);
    forall i | 0 <= i < |s|
      ensures IsIdentPart(Lower(s)[i])
    {
      assert IsIdentPart(s[i]);
    }
  }

  lemma {:induction false} PrimaryIsPrintable(toks: seq<Token>, i: nat)
    requires EndsInEOF(toks) && PlainIdents(toks) && i < |toks| && ParsePrimary(toks, i).Ok?
    ensures var n := ParsePrimary(toks, i).value.node; Printable(n) && !n.Comparison?
    decreases |toks| - i, 0
  {
    match toks[i].kind
    case Ident =>
      LowerOfIdent(toks[i].text);
    case LParen =>
      ComparisonIsPrintable(toks, i + 1, false);
    case _ =>
  }

  lemma {:induction false} TermIsPrintable(toks: seq<Token>, i: nat)
    requires EndsInEOF(toks) && PlainIdents(toks) && i < |toks| && ParseTerm(toks, i).Ok?
    ensures var n := ParseTerm(toks, i).value.node; Printable(n) && !n.Comparison?
    decreases |toks| - i, 1
  {
    PrimaryIsPrintable(toks, i);
    var p := ParsePrimary(toks, i).value;
    AliasesAreLiteralUnits(toks[p.next].text);
  }

  lemma {:induction false} ComparisonIsPrintable(toks: seq<Token>, i: nat, requireOp: bool)
    requires EndsInEOF(toks) && PlainIdents(toks) && i < |toks| && ParseComparison(toks, i, requireOp).Ok?
    ensures Printable(ParseComparison(toks, i, requireOp).value.node)
    decreases |toks| - i, 2
  {
    TermIsPrintable(toks, i);
    var left := ParseTerm(toks, i).value;
    if IsComparisonOp(toks[left.next].kind) {
      TermIsPrintable(toks, left.next + 1);
    }
  }

  lemma {:induction false} ClausesKeepExpr(toks: seq<Token>, i: nat, r: Rule)
    requires EndsInEOF(toks) && i < |toks| && ParseClauses(toks, i, r).Ok?
    ensures ParseClauses(toks, i, r).value.expr == r.expr
    decreases |toks| - i
  {
    if toks[i].kind != EOF {
      var c := ParseClause(toks, i, r).value;
      ClausesKeepExpr(toks, c.next, c.rule);
    }
  }

  lemma ParsedExprIsPrintable(src: string)
    requires ParseSource(src).Ok?
    ensures var n := ParseSource(src).value.expr; n.Comparison? && Printable(n)
  {
    TokensEndInEOF(src, 0);
    TokensArePlain(src, 0);
    var toks := Tokens(src).value;
    ComparisonIsPrintable(toks, 0, true);
    var expr := ParseComparison(toks, 0, true).value;
    ClausesKeepExpr(toks, expr.next, Rule(expr.node, 0, "", ""));
  }

  lemma ValidExprIsSound(n: Node)
    requires n.Comparison? && Printable(n) && ValidateNode(n).Ok?
    ensures SoundExpr(n)
  {
    ValidSideIsSound(n.left);
    ValidSideIsSound(n.right);
  }

  lemma ValidatedParts(r: Rule)
    requires ValidateRule(r).Ok?
    ensures ValidateNode(r.expr).Ok? && ValidateWindow(r.window).Ok? && ValidateNetwork(r.network).Ok?
    ensures ValidateRule(r).value == r.(network := ValidateNetwork(r.network).value)
    ensures r.contractID == "" || StrKey.IsContractId(r.contractID)
  {
  }

  /**
   A rule that passes the checker is a single comparison of two terms without
   comparisons; every metric and function in it is known; its window is absent or
   within bounds, its network canonical and its contract id well formed.
   */
  lemma CheckerIsSound(src: string)
    requires Validate(src).Ok?
    ensures var r := Validate(src).value;
      && SoundExpr(r.expr)
      && (r.window == 0 || MIN_WINDOW <= r.window <= MAX_WINDOW)
      && (r.network == "" || r.network in VALID_NETWORKS)
      && (r.contractID == "" || StrKey.IsContractId(r.contractID))
  {
    ParsedExprIsPrintable(src);
    var parsed := ParseSource(src).value;
    ValidatedParts(parsed);
    ValidExprIsSound(parsed.expr);
  }
}
