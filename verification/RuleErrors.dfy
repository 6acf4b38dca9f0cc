/** Failures of the rule language: where in the source, and which one. The English is left out. */
module RuleErrors {

  datatype ErrorKind =
    | UnexpectedCharacter
    | UnterminatedString
    | UnknownDurationUnit
    | ExpectedDuration
    | InvalidDuration
    | ExpectedContractId
    | ExpectedNetworkName
    | ExpectedClauseKind
    | UnexpectedToken
    | ExpectedOperator
    | SingleEquals
    | UnknownUnit
    | InvalidNumber
    | MisplacedClause
    | AggregationNeedsParentheses
    | ExpectedMetricName
    | ExpectedCloseParen
    | MisplacedDuration
    | ExpectedExpression
    | NoComparison
    | UnknownAggregation
    | UnknownMetric
    | NestedComparison
    | UnitMismatch
    | IncomparableMetrics
    | WindowTooShort
    | WindowTooLong
    | UnknownNetwork
    | InvalidContractId

  datatype RuleError = RuleError(pos: int, kind: ErrorKind)

  datatype Result<+T> = Ok(value: T) | Err(error: RuleError) {
    predicate IsFailure() {
      Err?
    }

    function PropagateFailure<U>(): Result<U>
      requires Err?
    {
      Err(error)
    }

    function Extract(): T
      requires Ok?
    {
      value
    }
  }
}
