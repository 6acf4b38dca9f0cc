/** The closed sets the language refers to: units, metrics, aggregations, networks; and durations. */
module RuleCatalog {
  import opened RuleText
  import opened Decimal
  import opened Wrappers

  // ----- units -----

  datatype Unit = NoUnit | Count | Ratio | XLM | Stroops | Instructions | Bytes | Ledgers | Score

  function UnitName(u: Unit): string {
    match u
    case NoUnit => ""
    case Count => "count"
    case Ratio => "ratio"
    case XLM => "XLM"
    case Stroops => "stroops"
    case Instructions => "instructions"
    case Bytes => "bytes"
    case Ledgers => "ledgers"
    case Score => "score"
  }

  function UnitAlias(lower: string): Option<Unit> {
    match lower
    case "xlm" => Some(XLM)
    case "stroop" => Some(Stroops)
    case "stroops" => Some(Stroops)
    case "instruction" => Some(Instructions)
    case "instructions" => Some(Instructions)
    case "byte" => Some(Bytes)
    case "bytes" => Some(Bytes)
    case "b" => Some(Bytes)
    case "ledger" => Some(Ledgers)
    case "ledgers" => Some(Ledgers)
    case "%" => Some(Ratio)
    case "percent" => Some(Ratio)
    case _ => None
  }

  function CanonicalUnit(word: string): Option<Unit> {
    UnitAlias(Lower(word))
  }

  predicate UnitCompatible(literal: Unit, metric: Unit) {
    literal == NoUnit || metric == NoUnit ||
    match metric
    case Ratio => literal == Ratio
    case Count => literal == Count
    case Score => literal == Count
    case _ => literal == metric
  }

  /** Units a literal can carry: those some alias denotes. */
  predicate LiteralUnit(u: Unit) {
    u in {Ratio, XLM, Stroops, Instructions, Bytes, Ledgers}
  }

  lemma AliasesAreLiteralUnits(word: string)
    ensures CanonicalUnit(word).Some? ==> LiteralUnit(CanonicalUnit(word).value)
  {
  }

  predicate IsIdentText(s: string) {
    s != "" && IsIdentStart(s[0]) && AllOf(s, IsIdentPart)
  }

  /** A canonical unit name reads back as its unit, and is one identifier that is not a clause keyword. */
  lemma UnitNameReadsBack(u: Unit)
    requires LiteralUnit(u) && u != Ratio
    ensures CanonicalUnit(UnitName(u)) == Some(u)
    ensures IsIdentText(UnitName(u))
    ensures !EqualFold(UnitName(u), "for") && !EqualFold(UnitName(u), "on")
  {
    match u
    case XLM =>
      assert Lower("XLM") == "xlm";
    case Stroops =>
      assert Lower("stroops") == "stroops";
    case Instructions =>
      assert Lower("instructions") == "instructions";
    case Bytes =>
      assert Lower("bytes") == "bytes";
    case Ledgers =>
      assert Lower("ledgers") == "ledgers";
  }

  // ----- metrics and aggregations -----

  function CatalogUnit(name: string): Option<Unit> {
    match name
    case "invocations" => Some(Count)
    case "events" => Some(Count)
    case "failed_invocations" => Some(Count)
    case "error_rate" => Some(Ratio)
    case "uptime" => Some(Ratio)
    case "fee_per_invocation" => Some(XLM)
    case "total_fee" => Some(XLM)
    case "fee_per_invocation_stroops" => Some(Stroops)
    case "cpu_insn_per_invocation" => Some(Instructions)
    case "cpu_insn_total" => Some(Instructions)
    case "mem_byte_per_invocation" => Some(Bytes)
    case "ledger_read_bytes" => Some(Bytes)
    case "ledger_write_bytes" => Some(Bytes)
    case "storage_entries" => Some(Count)
    case "expiring_storage_entries" => Some(Count)
    case "min_storage_ttl_ledgers" => Some(Ledgers)
    case "health_score" => Some(Score)
    case _ => None
  }

  function LookupMetric(name: string): Option<Unit> {
    CatalogUnit(Lower(name))
  }

  predicate IsFunctionName(s: string) {
    s == "avg" || s == "max" || s == "min" || s == "sum" || s == "rate" || s == "count"
  }

  predicate IsAggregation(name: string) {
    IsFunctionName(Lower(name))
  }

  lemma FunctionNameIsPlain(s: string)
    requires IsFunctionName(s)
    ensures IsIdentText(s) && Lower(s) == s && IsAggregation(s)
  {
  }

  const VALID_NETWORKS: seq<string> := ["testnet", "mainnet", "futurenet", "standalone"]

  // ----- durations, in nanoseconds -----

  const SECOND: nat := 1_000_000_000
  const MINUTE: nat := 60 * SECOND
  const HOUR: nat := 3600 * SECOND
  const DAY: nat := 86_400 * SECOND
  const WEEK: nat := 604_800 * SECOND
  const MIN_WINDOW: nat := 5 * SECOND
  const MAX_WINDOW: nat := WEEK

  function DurationUnit(c: char): Option<nat> {
    match LowerChar(c)
    case 's' => Some(SECOND)
    case 'm' => Some(MINUTE)
    case 'h' => Some(HOUR)
    case 'd' => Some(DAY)
    case 'w' => Some(WEEK)
    case _ => None
  }

  /** A number times a unit, cut to whole nanoseconds. */
  function ParseDuration(text: string): Option<nat> {
    if |text| < 2 then None
    else
      var num := Parse(text[..|text| - 1]);
      var unit := DurationUnit(text[|text| - 1]);
      if num.None? || num.value.mantissa == 0 || unit.None? then None
      else Some(WholeNanoseconds(num.value, unit.value))
  }

  function WholeNanoseconds(num: Dec, unit: nat): nat {
    num.mantissa * unit / Pow10(num.scale)
  }

  function FormatDuration(d: nat): string {
    if d % DAY == 0 then Digits(d / DAY) + "d"
    else if d % HOUR == 0 then Digits(d / HOUR) + "h"
    else if d % MINUTE == 0 then Digits(d / MINUTE) + "m"
    else Digits(d / SECOND) + "s"
  }

  /** The window without its fraction of a second. */
  function WholeSeconds(d: nat): nat {
    d / SECOND * SECOND
  }

  lemma ParseOfCount(q: nat, unit: char)
    requires q > 0 && DurationUnit(unit).Some?
    ensures ParseDuration(Digits(q) + [unit]) == Some(q * DurationUnit(unit).value)
  {
    var text := Digits(q) + [unit];
    assert text[..|text| - 1] == Digits(q);
    ParseOfPrint(Raw(q, 0));
  }

  lemma QuotientUnique(x: nat, y: nat, q: nat, r: nat)
    requires r < y && x == q * y + r
    ensures x / y == q && x % y == r
  {
    var q', r' := x / y, x % y;
    assert x == q' * y + r' && 0 <= r' < y;
    assert (q - q') * y == q * y - q' * y == r' - r;
    if q > q' {
      AtLeastOnce(q - q', y);
    } else if q < q' {
      AtLeastOnce(q' - q, y);
    }
  }

  lemma AtLeastOnce(a: int, y: nat)
    requires a >= 1
    ensures a * y >= y
  {
  }

  lemma BelowProduct(b: nat, k: nat, f: nat, m: nat)
    requires b < k && f < m
    ensures b * m + f < k * m
  {
    assert (b + 1) * m <= k * m;
  }

  /** Splitting a window into k-second units goes through its whole seconds. */
  lemma CoarseUnit(d: nat, k: nat)
    requires k > 0
    ensures d / (k * SECOND) == d / SECOND / k
    ensures d % (k * SECOND) == 0 <==> d % SECOND == 0 && d / SECOND % k == 0
  {
    var s, f := d / SECOND, d % SECOND;
    var a, b := s / k, s % k;
    BelowProduct(b, k, f, SECOND);
    assert s == a * k + b;
    assert a * (k * SECOND) == (a * k) * SECOND;
    QuotientUnique(d, k * SECOND, a, b * SECOND + f);
  }

  lemma WholeCount(d: nat, k: nat)
    requires k > 0 && d % (k * SECOND) == 0
    ensures d / (k * SECOND) * (k * SECOND) == d == WholeSeconds(d)
    ensures d > 0 ==> d / (k * SECOND) > 0
  {
    CoarseUnit(d, k);
  }

  /** Printing a window and reading it back loses exactly its fraction of a second. */
  lemma ParseOfFormatDuration(d: nat)
    requires d >= SECOND
    ensures ParseDuration(FormatDuration(d)) == Some(WholeSeconds(d))
  {
    if d % DAY == 0 {
      WholeCount(d, 86_400);
      ParseOfCount(d / DAY, 'd');
    } else if d % HOUR == 0 {
      WholeCount(d, 3600);
      ParseOfCount(d / HOUR, 'h');
    } else if d % MINUTE == 0 {
      WholeCount(d, 60);
      ParseOfCount(d / MINUTE, 'm');
    } else {
      ParseOfCount(d / SECOND, 's');
    }
  }

  function LastChar(s: string): char
    requires s != ""
  {
    s[|s| - 1]
  }

  /** The printed unit says what divides the window. */
  lemma PrintedUnit(d: nat)
    ensures FormatDuration(d) != ""
    ensures LastChar(FormatDuration(d)) == 's' <==> d % MINUTE != 0
    ensures d % MINUTE != 0 ==> FormatDuration(d) == Digits(d / SECOND) + "s"
  {
    CoarseUnit(d, 60);
    CoarseUnit(d, 3600);
    CoarseUnit(d, 86_400);
    SixtyDivides(d / SECOND);
  }

  lemma SixtyDivides(s: nat)
    ensures s % 3600 == 0 ==> s % 60 == 0
    ensures s % 86_400 == 0 ==> s % 60 == 0
  {
    if s % 3600 == 0 {
      QuotientUnique(s, 60, 60 * (s / 3600), 0);
    }
    if s % 86_400 == 0 {
      QuotientUnique(s, 60, 1440 * (s / 86_400), 0);
    }
  }

  /** The printed window is stable unless dropping a fraction uncovers a coarser unit. */
  lemma FormatDurationStable(d: nat)
    ensures FormatDuration(WholeSeconds(d)) == FormatDuration(d) <==> d % SECOND == 0 || WholeSeconds(d) % MINUTE != 0
  {
    var w := WholeSeconds(d);
    PrintedUnit(d);
    PrintedUnit(w);
    CoarseUnit(d, 60);
    assert w / SECOND == d / SECOND;
  }
}
