/**
 The recursive-descent parser. The functions say what is parsed from a token
 position; the Parser object, which moves a cursor over the tokens, is proved to
 do just that.
 */
module RuleParser {
  import opened RuleText
  import opened RuleErrors
  import opened RuleCatalog
  import opened RuleLexer
  import opened RuleAst
  import Decimal

  /** A node and the position after it. */
  datatype Parsed = Parsed(node: Node, next: nat)

  predicate IsKeyword(t: Token, kw: string) {
    t.kind == Ident && EqualFold(t.text, kw)
  }

  predicate IsClauseKeyword(t: Token) {
    IsKeyword(t, "for") || IsKeyword(t, "on")
  }

  predicate IsComparisonOp(k: TokenKind) {
    k in {GT, GE, LT, LE, EQ, NE}
  }

  function OpOf(k: TokenKind): (op: Op)
    requires IsComparisonOp(k)
    ensures OpKind(op) == k
  {
    match k
    case GT => Greater
    case GE => GreaterEq
    case LT => Less
    case LE => LessEq
    case EQ => Equal
    case NE => NotEqual
  }

  // ----- what is parsed -----

  /** A numeric token; a trailing percent sign makes it a ratio. */
  function ParseNumber(t: Token): Result<Node> {
    var percent := t.text != "" && t.text[|t.text| - 1] == '%';
    var text := if percent then t.text[..|t.text| - 1] else t.text;
    var v := Decimal.Parse(text);
    if v.None? then Err(RuleError(t.pos, InvalidNumber))
    else if percent then Ok(NumberLiteral(t.pos, Decimal.Div100(v.value), Ratio, t.pos + |t.text| - 1))
    else Ok(NumberLiteral(t.pos, v.value, NoUnit, -1))
  }

  function ParseAggregation(toks: seq<Token>, i: nat): (r: Result<Parsed>)
    requires EndsInEOF(toks) && i < |toks| && toks[i].kind == Ident
    ensures r.Ok? ==> i < r.value.next < |toks|
  {
    var t := toks[i];
    if toks[i + 1].kind != LParen then Err(RuleError(t.pos, AggregationNeedsParentheses))
    else
      var mt := toks[i + 2];
      if mt.kind != Ident then Err(RuleError(mt.pos, ExpectedMetricName))
      else if toks[i + 3].kind != RParen then Err(RuleError(toks[i + 3].pos, ExpectedCloseParen))
      else Ok(Parsed(Aggregation(t.pos, Lower(t.text), mt.pos, mt.text), i + 4))
  }

  function ParsePrimary(toks: seq<Token>, i: nat): (r: Result<Parsed>)
    requires EndsInEOF(toks) && i < |toks|
    ensures r.Ok? ==> i < r.value.next < |toks|
    decreases |toks| - i, 0
  {
    var t := toks[i];
    match t.kind
    case Number =>
      var n :- ParseNumber(t);
      Ok(Parsed(n, i + 1))
    case Ident =>
      if IsClauseKeyword(t) then Err(RuleError(t.pos, MisplacedClause))
      else if IsAggregation(t.text) then ParseAggregation(toks, i)
      else Ok(Parsed(MetricRef(t.pos, Lower(t.text)), i + 1))
    case LParen =>
      var inner :- ParseComparison(toks, i + 1, false);
      if toks[inner.next].kind != RParen then Err(RuleError(toks[inner.next].pos, ExpectedCloseParen))
      else Ok(Parsed(Grouping(t.pos, inner.node), inner.next + 1))
    case Duration => Err(RuleError(t.pos, MisplacedDuration))
    case _ => Err(RuleError(t.pos, ExpectedExpression))
  }

  /** A primary, and the unit word that may follow a bare number. */
  function ParseTerm(toks: seq<Token>, i: nat): (r: Result<Parsed>)
    requires EndsInEOF(toks) && i < |toks|
    ensures r.Ok? ==> i < r.value.next < |toks|
    decreases |toks| - i, 1
  {
    var p :- ParsePrimary(toks, i);
    var word := toks[p.next];
    if !p.node.NumberLiteral? || p.node.unit != NoUnit || word.kind != Ident || IsClauseKeyword(word) then Ok(p)
    else
      var unit := CanonicalUnit(word.text);
      if unit.None? then Err(RuleError(word.pos, UnknownUnit))
      else
        var value := if unit.value == Ratio then Decimal.Div100(p.node.value) else p.node.value;
        Ok(Parsed(p.node.(value := value, unit := unit.value, unitAt := word.pos), p.next + 1))
  }

  function ParseComparison(toks: seq<Token>, i: nat, requireOp: bool): (r: Result<Parsed>)
    requires EndsInEOF(toks) && i < |toks|
    ensures r.Ok? ==> i < r.value.next < |toks|
    ensures r.Ok? && requireOp ==> r.value.node.Comparison?
    decreases |toks| - i, 2
  {
    var left :- ParseTerm(toks, i);
    var opTok := toks[left.next];
    if !IsComparisonOp(opTok.kind) then
      if requireOp then Err(RuleError(opTok.pos, ExpectedOperator)) else Ok(left)
    else if opTok.kind == EQ && opTok.text == "=" then Err(RuleError(opTok.pos, SingleEquals))
    else
      var right :- ParseTerm(toks, left.next + 1);
      Ok(Parsed(Comparison(left.node.pos, OpOf(opTok.kind), opTok.pos, left.node, right.node), right.next))
  }

  /** One clause: the updated rule and the position after it. */
  datatype Clause = Clause(rule: Rule, next: nat)

  function ParseFor(toks: seq<Token>, i: nat, r: Rule): (c: Result<Clause>)
    requires EndsInEOF(toks) && i < |toks| && toks[i].kind == Ident
    ensures c.Ok? ==> i < c.value.next < |toks|
  {
    var t := toks[i + 1];
    if t.kind != Duration then Err(RuleError(t.pos, ExpectedDuration))
    else
      var d := ParseDuration(t.text);
      if d.None? then Err(RuleError(toks[i].pos, InvalidDuration))
      else Ok(Clause(r.(window := d.value), i + 2))
  }

  function ParseOn(toks: seq<Token>, i: nat, r: Rule): (c: Result<Clause>)
    requires EndsInEOF(toks) && i < |toks| && toks[i].kind == Ident
    ensures c.Ok? ==> i < c.value.next < |toks|
  {
    var t := toks[i + 1];
    if IsKeyword(t, "contract") then
      var id := toks[i + 2];
      if id.kind != Ident && id.kind != Str then Err(RuleError(id.pos, ExpectedContractId))
      else Ok(Clause(r.(contractID := id.text), i + 3))
    else if IsKeyword(t, "network") then
      var name := toks[i + 2];
      if name.kind != Ident && name.kind != Str then Err(RuleError(name.pos, ExpectedNetworkName))
      else Ok(Clause(r.(network := name.text), i + 3))
    else Err(RuleError(t.pos, ExpectedClauseKind))
  }

  function ParseClause(toks: seq<Token>, i: nat, r: Rule): (c: Result<Clause>)
    requires EndsInEOF(toks) && i < |toks| && toks[i].kind != EOF
    ensures c.Ok? ==> i < c.value.next < |toks|
  {
    if IsKeyword(toks[i], "for") then ParseFor(toks, i, r)
    else if IsKeyword(toks[i], "on") then ParseOn(toks, i, r)
    else Err(RuleError(toks[i].pos, UnexpectedToken))
  }

  function ParseClauses(toks: seq<Token>, i: nat, r: Rule): Result<Rule>
    requires EndsInEOF(toks) && i < |toks|
    decreases |toks| - i
  {
    if toks[i].kind == EOF then Ok(r)
    else
      var c :- ParseClause(toks, i, r);
      ParseClauses(toks, c.next, c.rule)
  }

  function ParseTokens(toks: seq<Token>): Result<Rule>
    requires EndsInEOF(toks)
  {
    var expr :- ParseComparison(toks, 0, true);
    ParseClauses(toks, expr.next, Rule(expr.node, 0, "", ""))
  }

  function ParseSource(src: string): Result<Rule> {
    var toks :- Tokens(src);
    TokensEndInEOF(src, 0);
    ParseTokens(toks)
  }

  // ----- the parser object -----

  class Parser {
    const toks: seq<Token>
    var i: nat

    constructor (toks: seq<Token>)
      requires EndsInEOF(toks)
      ensures this.toks == toks && i == 0
    {
      this.toks := toks;
      i := 0;
    }

    /** The cursor is on a token; the last one, EOF, is never passed. */
    predicate Valid()
      reads this
    {
      EndsInEOF(toks) && i < |toks|
    }

    function Cur(): Token
      requires Valid()
      reads this
    {
      toks[i]
    }

    method Next() returns (t: Token)
      requires Valid() && Cur().kind != EOF
      modifies this
      ensures Valid() && t == old(Cur()) && i == old(i) + 1
    {
      t := toks[i];
      i := i + 1;
    }

    /** A parse gave its value with the cursor behind it, or its error. */
    predicate Reads(spec: Result<Parsed>, r: Result<Node>)
      reads this
    {
      match spec
      case Ok(p) => r == Ok(p.node) && i == p.next
      case Err(e) => r == Err(e)
    }

    method ParsePrimaryHere() returns (r: Result<Node>)
      requires Valid()
      modifies this
      ensures Valid()
      ensures Reads(ParsePrimary(toks, old(i)), r)
      decreases |toks| - i, 0
    {
      var t := Cur();
      match t.kind
      case Number =>
        var _ := Next();
        r := ParseNumber(t);
      case Ident =>
        if IsClauseKeyword(t) {
          return Err(RuleError(t.pos, MisplacedClause));
        }
        if IsAggregation(t.text) {
          if toks[i + 1].kind != LParen {
            return Err(RuleError(t.pos, AggregationNeedsParentheses));
          }
          var _ := Next();
          var _ := Next();
          var mt := Cur();
          if mt.kind != Ident {
            return Err(RuleError(mt.pos, ExpectedMetricName));
          }
          var _ := Next();
          if Cur().kind != RParen {
            return Err(RuleError(Cur().pos, ExpectedCloseParen));
          }
          var _ := Next();
          return Ok(Aggregation(t.pos, Lower(t.text), mt.pos, mt.text));
        }
        var _ := Next();
        r := Ok(MetricRef(t.pos, Lower(t.text)));
      case LParen =>
        var _ := Next();
        var inner :- ParseComparisonHere(false);
        if Cur().kind != RParen {
          return Err(RuleError(Cur().pos, ExpectedCloseParen));
        }
        var _ := Next();
        r := Ok(Grouping(t.pos, inner));
      case Duration =>
        r := Err(RuleError(t.pos, MisplacedDuration));
      case _ =>
        r := Err(RuleError(t.pos, ExpectedExpression));
    }

    method ParseTermHere() returns (r: Result<Node>)
      requires Valid()
      modifies this
      ensures Valid()
      ensures Reads(ParseTerm(toks, old(i)), r)
      decreases |toks| - i, 1
    {
      var term :- ParsePrimaryHere();
      if !term.NumberLiteral? || term.unit != NoUnit {
        return Ok(term);
      }
      if Cur().kind != Ident || IsClauseKeyword(Cur()) {
        return Ok(term);
      }
      var word := Cur();
      var unit := CanonicalUnit(word.text);
      if unit.Some? {
        term := term.(unit := unit.value, unitAt := word.pos);
        if unit.value == Ratio {
          term := term.(value := Decimal.Div100(term.value));
        }
        var _ := Next();
        return Ok(term);
      }
      return Err(RuleError(word.pos, UnknownUnit));
    }

    method ParseComparisonHere(requireOp: bool) returns (r: Result<Node>)
      requires Valid()
      modifies this
      ensures Valid()
      ensures Reads(ParseComparison(toks, old(i), requireOp), r)
      decreases |toks| - i, 2
    {
      var left :- ParseTermHere();
      var opTok := Cur();
      if !IsComparisonOp(opTok.kind) {
        if requireOp {
          return Err(RuleError(opTok.pos, ExpectedOperator));
        }
        return Ok(left);
      }
      var _ := Next();
      if opTok.kind == EQ && opTok.text == "=" {
        return Err(RuleError(opTok.pos, SingleEquals));
      }
      var right :- ParseTermHere();
      return Ok(Comparison(left.pos, OpOf(opTok.kind), opTok.pos, left, right));
    }

    /** The clause read from position start: the updated rule, and the cursor behind the clause. */
    predicate ReadsClause(spec: Result<Clause>, r: Result<Rule>)
      reads this
    {
      match spec
      case Ok(c) => r == Ok(c.rule) && i == c.next
      case Err(e) => r == Err(e)
    }

    method ParseForHere(rule: Rule) returns (r: Result<Rule>)
      requires Valid() && Cur().kind == Ident
      modifies this
      ensures Valid()
      ensures ReadsClause(ParseFor(toks, old(i), rule), r)
    {
      var forTok := Next();
      if Cur().kind != Duration {
        return Err(RuleError(Cur().pos, ExpectedDuration));
      }
      var d := ParseDuration(Cur().text);
      if d.None? {
        return Err(RuleError(forTok.pos, InvalidDuration));
      }
      var _ := Next();
      return Ok(rule.(window := d.value));
    }

    method ParseOnHere(rule: Rule) returns (r: Result<Rule>)
      requires Valid() && Cur().kind == Ident
      modifies this
      ensures Valid()
      ensures ReadsClause(ParseOn(toks, old(i), rule), r)
    {
      var _ := Next();
      if IsKeyword(Cur(), "contract") {
        var _ := Next();
        var t := Cur();
        if t.kind != Ident && t.kind != Str {
          return Err(RuleError(t.pos, ExpectedContractId));
        }
        var _ := Next();
        return Ok(rule.(contractID := t.text));
      } else if IsKeyword(Cur(), "network") {
        var _ := Next();
        var t := Cur();
        if t.kind != Ident && t.kind != Str {
          return Err(RuleError(t.pos, ExpectedNetworkName));
        }
        var _ := Next();
        return Ok(rule.(network := t.text));
      } else {
        return Err(RuleError(Cur().pos, ExpectedClauseKind));
      }
    }

    method ParseRule() returns (r: Result<Rule>)
      requires Valid() && i == 0
      modifies this
      ensures r == ParseTokens(toks)
    {
      var expr :- ParseComparisonHere(true);
      var rule := Rule(expr, 0, "", "");
      while Cur().kind != EOF
        invariant Valid()
        invariant ParseClauses(toks, i, rule) == ParseTokens(toks)
        decreases |toks| - i
      {
        var updated: Result<Rule>;
        if IsKeyword(Cur(), "for") {
          updated := ParseForHere(rule);
        } else if IsKeyword(Cur(), "on") {
          updated := ParseOnHere(rule);
        } else {
          updated := Err(RuleError(Cur().pos, UnexpectedToken));
        }
        if updated.Err? {
          return Err(updated.error);
        }
        rule := updated.value;
      }
      return Ok(rule);
    }
  }

  method ParseText(src: string) returns (r: Result<Rule>)
    ensures r == ParseSource(src)
  {
    var toks :- Lex(src);
    TokensEndInEOF(src, 0);
    var p := new Parser(toks);
    r := p.ParseRule();
  }
}
