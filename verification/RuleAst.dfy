/** Parsed rules and the printer. */
module RuleAst {
  import opened RuleText
  import opened RuleCatalog
  import opened Decimal
  import opened RuleLexer

  datatype Op = Greater | GreaterEq | Less | LessEq | Equal | NotEqual

  datatype Node =
    | NumberLiteral(pos: int, value: Dec, unit: Unit, unitAt: int)
    | MetricRef(pos: int, name: string)
    | Aggregation(pos: int, fn: string, metricPos: int, metric: string)
    | Comparison(pos: int, op: Op, opPos: int, left: Node, right: Node)
    | Grouping(pos: int, inner: Node)

  /** A rule: the condition, the window in nanoseconds, and the optional scope. */
  datatype Rule = Rule(expr: Node, window: nat, contractID: string, network: string)

  /** The node without source positions. */
  function Erase(n: Node): Node {
    match n
    case NumberLiteral(_, value, unit, _) => NumberLiteral(0, value, unit, 0)
    case MetricRef(_, name) => MetricRef(0, name)
    case Aggregation(_, fn, _, metric) => Aggregation(0, fn, 0, metric)
    case Comparison(_, op, _, left, right) => Comparison(0, op, 0, Erase(left), Erase(right))
    case Grouping(_, inner) => Grouping(0, Erase(inner))
  }

  function EraseRule(r: Rule): Rule {
    r.(expr := Erase(r.expr))
  }

  function OpText(op: Op): string {
    match op
    case Greater => ">"
    case GreaterEq => ">="
    case Less => "<"
    case LessEq => "<="
    case Equal => "=="
    case NotEqual => "!="
  }

  function OpKind(op: Op): TokenKind {
    match op
    case Greater => GT
    case GreaterEq => GE
    case Less => LT
    case LessEq => LE
    case Equal => EQ
    case NotEqual => NE
  }

  // ----- the printer -----

  function FormatNumber(value: Dec, unit: Unit): string {
    if unit == Ratio then Print(Mul100(value)) + "%"
    else if unit == NoUnit then Print(value)
    else Print(value) + " " + UnitName(unit)
  }

  function FormatNode(n: Node): string {
    match n
    case NumberLiteral(_, value, unit, _) => FormatNumber(value, unit)
    case MetricRef(_, name) => name
    case Aggregation(_, fn, _, metric) => fn + "(" + metric + ")"
    case Comparison(_, op, _, left, right) => FormatNode(left) + " " + OpText(op) + " " + FormatNode(right)
    case Grouping(_, inner) => "(" + FormatNode(inner) + ")"
  }

  function FormatWindow(window: nat): string {
    if window > 0 then " for " + FormatDuration(window) else ""
  }

  function FormatScope(contractID: string, network: string): string {
    (if contractID != "" then " on contract " + contractID else "")
    + (if network != "" then " on network " + network else "")
  }

  function Format(r: Rule): string {
    FormatNode(r.expr) + FormatWindow(r.window) + FormatScope(r.contractID, r.network)
  }

  // ----- what the parser can produce -----

  predicate ClauseKeyword(text: string) {
    EqualFold(text, "for") || EqualFold(text, "on")
  }

  /** A term as the parser builds it, up to positions. */
  predicate Printable(n: Node) {
    match n
    case NumberLiteral(_, _, unit, _) => unit == NoUnit || LiteralUnit(unit)
    case MetricRef(_, name) => IsIdentText(name) && Lower(name) == name && !ClauseKeyword(name) && !IsAggregation(name)
    case Aggregation(_, fn, _, metric) => IsFunctionName(fn) && IsIdentText(metric)
    case Comparison(_, _, _, left, right) =>
      !left.Comparison? && !right.Comparison? && Printable(left) && Printable(right)
    case Grouping(_, inner) => Printable(inner)
  }

  predicate PrintableRule(r: Rule) {
    r.expr.Comparison? && Printable(r.expr) && (r.window == 0 || r.window >= SECOND)
    && (r.contractID == "" || IsIdentText(r.contractID)) && (r.network == "" || IsIdentText(r.network))
  }
}
