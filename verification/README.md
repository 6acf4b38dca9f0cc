# SoroLens: verified models

This project models four parts of SoroLens, a monitoring service for Soroban contracts, and proves
what they promise.

**The alert-rule language** (`apps/api/rulelang`, `apps/web/lib/ruleSyntax.ts`). A rule such as
`avg(error_rate) > 5% for 10m on network testnet` is scanned, parsed, checked, printed and evaluated.
The scanner and the recursive-descent parser are classes that move a cursor; each is proved equal to a
function on the source, and the theorems are about those functions: printing undoes parsing, the
checker keeps the evaluator from getting stuck, and a rule with a window fires exactly when its
condition holds in every bucket. The web editor's highlighter is a second scanner for the same
language and is proved to cut every accepted source at the same places. Spelling suggestions rest on
the two-row Levenshtein program, proved to give the length of a shortest edit script.

**StrKey contract ids** (`apps/api/rulelang/strkey.go`, `cli/cmd/watchdog/strkey.go`; SEP-0023,
RFC 4648 section 6). The API's hand-written base32 accumulator and CRC16-XModem, and the command
line's codec. The checksum is shown to be linear over bit streams, to notice bursts and to keep parity; from
that follow statements about which typing errors are always rejected.

**The on-chain watchdog** (`contracts/watchdog/src/lib.rs`). `WatchdogState` gives each entry point as
a function on storage, lifetimes (TTLs) included; `WatchdogContract` has the entry points as methods
that change storage in place, with the host's rollback on a panic, and proves them equal to those
functions. The theorems are about runs: any sequence of calls on a newly deployed contract, with a
clock and a ledger sequence number that never go back.

**Streams and pages.** The sharded worker's filtered pager (`services/indexer/scope.go`), the CSV
reader (`apps/web/components/ImportContractsCsv.tsx`), the early-stopping activity charts
(`apps/web/lib/activitySeries.ts`) and the search for contract ids in a page
(`extension/src/shared/contract-id.js`) are each proved equal to a simple specification.

Characters of the rule language are ASCII. Numbers are exact decimals in the language and reals in the
evaluator; durations are whole nanoseconds. Bits are sequences of booleans, most significant first;
machine words are natural numbers below their bound, with shifts and masks written as multiplication,
division and remainder.

## Where the code differs from what is written about it

- `apps/api/rulelang/ast.go:100-101` says the printed form is byte-stable. That fails for windows with
  a fraction of a second: `RuleRoundTrip.FormatStable` says exactly when it holds, and
  `RuleWitness.FractionalWindowIsLost` exhibits `events > 1 for 60.5s`, printed first as `60s` and then
  as `1m`.
- The checker searches the catalog without regard to case, but an aggregation reads its metric from the
  samples as written. `RuleMetricCase.ReadsWhatWasLookedUp` says when the two are the same metric,
  `RuleMetricCase.CaseChangesVerdict` when the verdict is, and `RuleMetricCase.SumOfEvents` exhibits
  `sum(EVENTS) > 1`, which is accepted and never fires.
- `cli/cmd/watchdog/strkey.go:58-60` says lower-case spellings are rejected; the code upper-cases
  before decoding. `StrKeyCli.ValidatorsAgreeIff` says on which strings the command line and the API
  agree, and `StrKeyCli.LowerCaseSpelling` exhibits one on which they do not for every payload.
- `contracts/watchdog/src/lib.rs:173-187` says a contract read once a day never lets its state archive.
  An alert list is renewed only by reading it or adding to it: `WatchdogLifetimes.UnreadAlertsExpire`
  for any use of the contract, and `WatchdogExpiry.DailyListingLosesAlerts` for a run that lists every
  day and loses an alert list.
- `contracts/watchdog/src/lib.rs:421-424` says every state-changing call but pause and unpause fails
  while paused. The three hand-off calls do not look at the flag: `WatchdogAdmin.PausedCallsThatSucceed`
  lists exactly what succeeds, and `WatchdogAdmin.PausedNominationSucceeds` is a run in which a
  nomination does.
- `register_contract` accepts a zero check interval, which the batch call skips:
  `WatchdogBatch.BatchOfOne` and `WatchdogBatch.ZeroIntervalRegisters`.
- `get_monitored_page` adds `start + limit` on 32 bits. The release profile has no overflow checks, so
  the sum wraps; `WatchdogBatch.PageExact` says when one page is right, and
  `WatchdogBatch.PagesCoverRegistry` when all of them together are, as for every registry of at most
  2^31 ids (`WatchdogBatch.SmallRegistryIsCovered`). `WatchdogBatch.LargestPageIsEmpty` exhibits a call
  on two registered ids that goes wrong: the page of 4294967295 entries from index 1 is empty.

## Model

| member | source | states |
|---|---|---|
| Decimal.NormalizeKeepsValue | apps/api/rulelang/parser.go:159-176 | lowest terms keep a literal's numeric value |
| Decimal.Div100OfMul100 | apps/api/rulelang/ast.go:116-127 | a percentage survives being stored as a ratio and printed as a percentage |
| Decimal.ParseOfPrint | apps/api/rulelang/catalog.go:153-155 | every number reads back from its printed form |
| RuleLexer.LexOneProgress | apps/api/rulelang/lexer.go:76-133 | every lexeme starts where it is reported, consumes at least one character, stays inside the source and is not EOF; an error is reported at that position |
| RuleLexer.TokensEndInEOF | apps/api/rulelang/lexer.go:76-133 | EOF is the last token and only the last, which keeps the parser's look-ahead in range |
| RuleLexer.Lexer.LexString | apps/api/rulelang/lexer.go:149-163 | the quoted lexeme and new position, or the unterminated-string error, of the specification |
| RuleLexer.Lexer.LexNumber | apps/api/rulelang/lexer.go:168-206 | a number, percentage or duration as the specification splits them |
| RuleLexer.Lexer.LexIdent | apps/api/rulelang/lexer.go:210-216 | the longest identifier at the cursor is emitted |
| RuleLexer.Lex | apps/api/rulelang/lexer.go:76-133 | the scanning loop yields exactly the specified token sequence or error |
| RuleParser.Parser.ParsePrimaryHere | apps/api/rulelang/parser.go:156-223 | the cursor version returns the specified node and leaves the cursor behind it; index safety included |
| RuleParser.Parser.ParseTermHere | apps/api/rulelang/parser.go:129-154 | same, with the unit word attached to a literal |
| RuleParser.Parser.ParseComparisonHere | apps/api/rulelang/parser.go:102-125 | same for one comparison; mutual recursion terminates on tokens remaining |
| RuleParser.Parser.ParseForHere | apps/api/rulelang/parser.go:42-97 | the for clause sets the window or gives its error |
| RuleParser.Parser.ParseOnHere | apps/api/rulelang/parser.go:42-97 | the on clause sets contract or network or gives its error |
| RuleParser.Parser.ParseRule | apps/api/rulelang/parser.go:42-97 | the clause loop returns the specified rule |
| RuleParser.ParseText | apps/api/rulelang/parser.go:20-27 | scanning and parsing together meet the specification |
| RuleCatalog.ParseOfFormatDuration | apps/api/rulelang/catalog.go:139-150 | a printed window reads back, losing exactly its fraction of a second |
| RuleCatalog.FormatDurationStable | apps/api/rulelang/catalog.go:139-150 | printing the cut window gives the same text if and only if no fraction was cut or the cut does not leave whole minutes |
| RuleCatalog.UnitNameReadsBack | apps/api/rulelang/catalog.go:116-119 | every canonical unit name is an identifier that is read as that unit |
| RulePrinting.RenderRule | apps/api/rulelang/ast.go:102-139 | the printed rule is the concatenation of its lexemes |
| RulePrinting.ScanRendered | apps/api/rulelang/lexer.go:76-216 | scanning printed lexemes gives back exactly those lexemes and EOF |
| RuleReading.ReadTerm | apps/api/rulelang/parser.go:129-223 | every printed term is parsed back, whatever may follow a term |
| RuleReading.ReadComparison | apps/api/rulelang/parser.go:102-125 | every printed condition is parsed back, nested groupings included |
| RuleReading.ParseOfFormat | apps/api/rulelang/ast.go:102-139 | parsing the printed form of a rule succeeds and gives the rule up to positions and the window's fraction |
| RuleValidate.CanonicalNetwork | apps/api/rulelang/validate.go:34-77 | the loop finds the canonical spelling of a network, or reports the unknown one |
| RuleValidate.CheckRule | apps/api/rulelang/validate.go:34-77 | the checker's steps in order give the specified rule or first error |
| RuleValidate.ValidateText | apps/api/rulelang/validate.go:21-30 | parse and check together meet the specification |
| RuleValidate.ParsedExprIsPrintable | apps/api/rulelang/parser.go:102-223 | every parsed condition is a comparison of terms whose names and units the printer can write |
| RuleValidate.CheckerIsSound | apps/api/rulelang/validate.go:34-157 | an accepted rule compares two terms without comparisons, all metrics and functions known, window within bounds, network canonical, contract id well formed |
| RuleRoundTrip.ValidateOfFormat | apps/api/rulelang/ast.go:100-139 | for every accepted source, the printed rule is accepted again as the same rule, window cut to whole seconds |
| RuleRoundTrip.SameRuleIffWholeSeconds | apps/api/rulelang/ast.go:100-139 | the very same rule comes back if and only if the window is a whole number of seconds |
| RuleRoundTrip.FormatStable | apps/api/rulelang/ast.go:100-114 | print, check, print again is byte-stable if and only if the window is whole or its cut is not whole minutes |
| RuleWitness.ReadConditionAndWindow | apps/api/rulelang/parser.go:254-279 | a printed condition with any readable window text behind it is read as that condition and window |
| RuleWitness.FractionalWindowIsLost | apps/api/rulelang/ast.go:100-114 | a concrete accepted source that does not survive printing, as a rule or as text |
| RuleEval.SumUp | apps/api/rulelang/eval.go:264-314 | the accumulating loop gives the total |
| RuleEval.Aggregate | apps/api/rulelang/eval.go:264-314 | each aggregation of the observed values, no data, or the unknown-function error |
| RuleEval.Resolve | apps/api/rulelang/eval.go:238-261 | the backward scan and aggregation resolve a term as specified |
| RuleEval.SelectSamples | apps/api/rulelang/eval.go:202-222 | the samples no older than the window, or the latest bucket without one |
| RuleEval.EvaluateSustained | apps/api/rulelang/eval.go:118-153 | the loop's verdict, points and last values meet the every-bucket specification |
| RuleEval.PointsFor | apps/api/rulelang/eval.go:318-331 | one preview point for each sample |
| RuleEval.Evaluate | apps/api/rulelang/eval.go:72-114 | the branches on aggregation and window give the specified verdict or error |
| RuleVerdict.CheckedRuleEvaluates | apps/api/rulelang/eval.go:72-114 | an accepted rule evaluates without error on every window; neither side is an unsupported expression or unknown function |
| RuleVerdict.SameRuleSameVerdict | apps/api/rulelang/eval.go:72-153 | rules equal up to positions give equal verdicts on every window |
| RuleVerdict.PrintingKeepsVerdict | apps/api/rulelang/eval.go:72-114 | after printing and checking again a whole-second rule gives the same verdict on every window |
| RuleVerdict.SpanIrrelevant | apps/api/rulelang/eval.go:238-261 | without an aggregation the window's length does not enter a term's value |
| RuleVerdict.SustainedFires | apps/api/rulelang/eval.go:83-153 | a windowed rule without aggregation fires if and only if some bucket is selected and every selected one reports both sides and satisfies the operator |
| RuleVerdict.MomentaryFires | apps/api/rulelang/eval.go:72-114 | without a window the same holds of the latest bucket alone |
| RuleVerdict.ShorterWindowFires | apps/api/rulelang/eval.go:202-222 | on time-ordered samples a rule that fires over a window fires over every shorter one, none included |
| RuleVerdict.CapitalizedMetricUnobserved | apps/api/rulelang/parser.go:184-207 | a metric written with capitals inside an aggregation is never observed in samples keyed in lower case |
| RuleMetricCase.ReadsWhatWasLookedUp | apps/api/rulelang/eval.go:245-253 | an aggregation reads the metric the checker looked up, on all lower-keyed samples, if and only if it was written in lower case |
| RuleMetricCase.CaseChangesVerdict | apps/api/rulelang/validate.go:124-133 | for a known metric in any spelling, the sum rule and its lower-case spelling agree on all lower-keyed windows if and only if the spelling was lower case |
| RuleMetricCase.SumOfEvents | apps/api/rulelang/parser.go:184-207 | sum(EVENTS) > 1 is accepted and never fires, while sum(events) > 1 is accepted and fires |
| EditDistance.NoShorterScript | apps/api/rulelang/errors.go:81-108 | every edit script from a to b is at least as long as the computed distance |
| EditDistance.ShortestScript | apps/api/rulelang/errors.go:81-108 | and a script of that length exists |
| EditDistance.ZeroOnlyOnEqual | apps/api/rulelang/errors.go:81-108 | the distance is zero exactly on equal strings |
| EditDistance.Symmetric | apps/api/rulelang/errors.go:81-108 | the distance is symmetric |
| EditDistance.Triangle | apps/api/rulelang/errors.go:81-108 | the distance obeys the triangle inequality |
| EditDistance.Levenshtein | apps/api/rulelang/errors.go:81-108 | two swapped row buffers compute the distance |
| EditDistance.Suggest | apps/api/rulelang/errors.go:61-78 | the earliest candidate at minimum distance, offered exactly when that is at most half the length plus one |
| RuleSyntax.Lossless | apps/web/lib/ruleSyntax.ts:87-189 | the highlighter's token texts concatenate to the source, for every string |
| RuleSyntax.TokenizeRule | apps/web/lib/ruleSyntax.ts:87-189 | the loop produces exactly the specified highlighting tokens |
| RuleSyntax.LexersAgree | apps/web/lib/ruleSyntax.ts:83-189 | on every source the scanner accepts, each of its tokens is exactly one visible highlighting token, or two when a percent sign or unit is glued to a number |
| Base32.AlphabetSearch | apps/api/rulelang/strkey.go:13-34 | searching the alphabet string gives a symbol's 5-bit value, and -1 for every other character |
| Base32.SymbolBitsInjective | apps/api/rulelang/strkey.go:13-34 | different symbol strings spell different bit streams |
| Base32.SymbolBitsOfEncode | cli/cmd/watchdog/strkey.go:140-149 | encoding whole groups spells exactly the given bits |
| Base32.OctetsOfByteBits | apps/api/rulelang/strkey.go:18-34 | regrouping a byte string's bits gives back the bytes |
| Crc16.CrcLinear | apps/api/rulelang/strkey.go:51-64 | the checksum of a bitwise difference is the difference of the checksums |
| Crc16.BurstNoticed | apps/api/rulelang/strkey.go:51-64 | a nonzero error within 16 consecutive bits always changes the checksum |
| Crc16.FoldStep | apps/api/rulelang/strkey.go:51-64 | one shift-and-fold on the word is one shift of the register |
| Crc16.Crc16XModem | apps/api/rulelang/strkey.go:51-64 | the byte loop computes the CRC of the bit stream |
| StrKey.PushSymbol | apps/api/rulelang/strkey.go:18-34 | one turn of the accumulator keeps emitted bytes plus pending bits equal to the stream read so far |
| StrKey.DecodeSymbols | apps/api/rulelang/strkey.go:13-34 | the loop yields the whole octets of the symbols' bits, and fails exactly on a foreign character |
| StrKey.ValidContractID | apps/api/rulelang/strkey.go:13-48 | accepts exactly 56 symbols starting with C whose 35 bytes carry the version byte and a correct checksum |
| StrKeyErrors.ResidueLinear | apps/api/rulelang/strkey.go:35-48 | payload check and stored checksum together are linear in the 280 bits |
| StrKeyErrors.ChecksumIsResidue | apps/api/rulelang/strkey.go:35-48 | the stored checksum of 56 symbols is the computed one if and only if their residue is zero |
| StrKeyErrors.ErrorNoticed | apps/api/rulelang/strkey.go:13-64 | a nonzero error in a noticed window, the straddle of payload and checksum included, leaves a residue |
| Crc16.CrcParity | apps/api/rulelang/strkey.go:51-64 | the checksum of any message has an odd number of one bits if and only if the message has |
| StrKeyErrors.AcceptedIsEven | apps/api/rulelang/strkey.go:13-64 | every accepted id has an even number of one bits |
| StrKeyErrors.OddErrorRejected | apps/api/rulelang/strkey.go:13-64 | an error in an odd number of bits of an accepted id is rejected, wherever in the id they are |
| StrKeyErrors.ReplacedCharacterRejected | apps/api/rulelang/strkey.go:13-48 | replacing any single character of an accepted id by any other is rejected, at every position |
| StrKeyErrors.NeighbouringCharactersRejected | apps/api/rulelang/strkey.go:13-48 | so is any change within two neighbouring characters |
| StrKeyErrors.BlindNeighbour | apps/api/rulelang/strkey.go:13-48 | at positions 50 and 52 every accepted id has an accepted neighbour differing in three characters |
| StrKeyErrors.ThreeNeighbouringCharacters | apps/api/rulelang/strkey.go:13-48 | a change within three neighbouring characters can be accepted if and only if it starts at 50 or 52 |
| StrKeyCli.DecodedBits | cli/cmd/watchdog/strkey.go:61-75 | the decoded bytes are as many octets as the symbols hold, and their bits are the front of the symbols' bits |
| StrKeyCli.ChecksumBytes | cli/cmd/watchdog/strkey.go:140-149 | the two appended bytes, low first, denote the CRC |
| StrKeyCli.DecodeUndoesEncode | cli/cmd/watchdog/strkey.go:41-56 | decoding an encoding gives back version and payload exactly for 32-byte payloads, and the length error for shorter ones |
| StrKeyCli.ValidatorsAgree | cli/cmd/watchdog/strkey.go:79-91 | on every ASCII string the command line accepts exactly what the API accepts after upper-casing |
| StrKeyCli.ValidatorsAgreeOnUpperCase | cli/cmd/watchdog/strkey.go:79-91 | without lower-case letters the two validators agree |
| StrKeyCli.ValidatorsAgreeIff | cli/cmd/watchdog/strkey.go:58-91 | the two validators agree on a string if and only if it is its own upper-casing or its upper-casing is no id |
| StrKeyCli.LowerCaseSpelling | cli/cmd/watchdog/strkey.go:58-75 | the id of any payload with its first letter in lower case passes the command line and not the API |
| StrKeyCli.ContractIdsAreEncodings | apps/api/rulelang/strkey.go:13-48 | accepted ids are exactly the encodings of 32-byte payloads under the contract version |
| StrKeyCli.DerivedAddressIsAccount | cli/cmd/watchdog/strkey.go:128-137 | an address is derived exactly for valid seeds, is a valid account id, and carries the seed's payload |
| WatchdogInvariant.CallConsistent | contracts/watchdog/src/lib.rs:193-721 | every call, successful or panicking, keeps registry, records, alerts, lifetimes and nominee consistent |
| WatchdogInvariant.WithoutCutsOut | contracts/watchdog/src/lib.rs:284-321 | deregistration removes one entry and keeps the order of the rest |
| WatchdogInvariant.QueryKeepsData | contracts/watchdog/src/lib.rs:522-654 | a query changes nothing but lifetimes |
| WatchdogHistory.ReachableConsistent | contracts/watchdog/src/lib.rs:193-362 | in every reachable storage the registry has no duplicates and is exactly the keys of records and alerts, each record names its key and was checked between registration and now |
| WatchdogHistory.StoredIsRecentHistory | contracts/watchdog/src/lib.rs:366-417 | a registered contract's stored alerts are the last hundred successfully reported since its registration |
| WatchdogHistory.HistoryInOrder | contracts/watchdog/src/lib.rs:366-417 | that history is in timestamp order and not from the future |
| WatchdogHistory.AlertsSinceIsFilter | contracts/watchdog/src/lib.rs:594-619 | in every reachable storage get_alerts_since returns exactly the stored alerts newer than the time |
| WatchdogHistory.PollReadsTheRest | contracts/watchdog/src/lib.rs:594-619 | one poll reads exactly the rest of the history if and only if at most a hundred alerts are new and the first is later than the last seen |
| WatchdogHistory.PollerReadsHistoryOnce | contracts/watchdog/src/lib.rs:594-619 | a poller passing its last-seen time reads the whole history exactly once if and only if it always keeps that pace |
| WatchdogBatch.BatchRefinesSingles | contracts/watchdog/src/lib.rs:247-281 | a batch leaves what single registrations of just the admitted entries would, in order |
| WatchdogBatch.ResultsAlign | contracts/watchdog/src/lib.rs:260-280 | the i-th result tells whether the i-th entry was admitted, and why not |
| WatchdogBatch.SuccessesAreGrowth | contracts/watchdog/src/lib.rs:260-280 | as many successes as the registry grew by |
| WatchdogBatch.RecordsComplete | contracts/watchdog/src/lib.rs:564-579 | listing yields every id's record, in order, when all have one |
| WatchdogBatch.PageExact | contracts/watchdog/src/lib.rs:537-562 | a page starting inside the registry is its slice if and only if start + limit fits in 32 bits, and is empty otherwise |
| WatchdogBatch.PageByPageReaches | contracts/watchdog/src/lib.rs:537-562 | the records of successive pages are those of the registry up to the end, or up to the last page when its end wraps |
| WatchdogBatch.PagesCoverRegistry | contracts/watchdog/src/lib.rs:537-579 | calling get_monitored_page page after page collects what get_all_monitored returns if and only if the last page's start + limit fits in 32 bits |
| WatchdogBatch.SmallRegistryIsCovered | contracts/watchdog/src/lib.rs:537-579 | so pages of any size collect every registry of at most 2^31 ids |
| WatchdogBatch.LargestPageIsEmpty | contracts/watchdog/src/lib.rs:537-562 | with two ids registered, the largest page from index 1 is empty, and a page one smaller holds the second record |
| WatchdogBatch.RegisterSucceeds | contracts/watchdog/src/lib.rs:205-233 | register_contract succeeds exactly on an unpaused, initialized contract for a signed caller and a new id, and the caller owns the record |
| WatchdogBatch.BatchOfOne | contracts/watchdog/src/lib.rs:207-281 | where the single call succeeds, a batch of that entry leaves the same storage if and only if the interval is positive |
| WatchdogBatch.ZeroIntervalRegisters | contracts/watchdog/src/lib.rs:207-281 | a zero interval the single call registers on a newly initialized contract and the batch skips |
| WatchdogAdmin.AdminChangesByHandOff | contracts/watchdog/src/lib.rs:454-498 | the administrator changes from a to b only when b, who signed, accepts a's own latest untouched nomination |
| WatchdogAdmin.PendingWasNominated | contracts/watchdog/src/lib.rs:454-520 | whatever is pending was nominated by the present administrator, and differs from it |
| WatchdogAdmin.NomineeCanAccept | contracts/watchdog/src/lib.rs:480-498 | a standing nomination can always be accepted by its nominee alone |
| WatchdogAdmin.PausedSegment | contracts/watchdog/src/lib.rs:425-439 | registry, records and alerts are identical at both ends of a run segment that stays paused |
| WatchdogAdmin.PauseChangesByAdmin | contracts/watchdog/src/lib.rs:425-439 | the pause flag changes only by the administrator's own signed call |
| WatchdogAdmin.PausedCallsThatSucceed | contracts/watchdog/src/lib.rs:421-520 | while paused exactly the signed administrator's pause, unpause, nomination and withdrawal and the nominee's acceptance succeed, queries aside |
| WatchdogAdmin.PausedNominationSucceeds | contracts/watchdog/src/lib.rs:421-476 | a run from deployment in which a paused contract accepts a nomination |
| WatchdogLifetimes.CallLives | contracts/watchdog/src/lib.rs:656-721 | no call shortens a lifetime; listing renews every record, reading alerts renews them, registration starts renewed |
| WatchdogLifetimes.NothingExpires | contracts/watchdog/src/lib.rs:178-187 | if the contract was listed and each alert list read at most the threshold ago, every entry is live |
| WatchdogLifetimes.RegularUseNeverArchives | contracts/watchdog/src/lib.rs:178-187 | in a run so used at every call, expiry as a step of its own changes nothing |
| WatchdogLifetimes.ListingIsComplete | contracts/watchdog/src/lib.rs:564-579 | then get_all_monitored returns one record for each registry entry, in registry order |
| WatchdogLifetimes.UnreadAlertsExpire | contracts/watchdog/src/lib.rs:173-187 | through any calls that neither read the alerts of a, report one nor deregister a, its alert list is live at a ledger if and only if it was bound to be before them |
| WatchdogExpiry.DailyListingLosesAlerts | contracts/watchdog/src/lib.rs:173-187 | a run that lists every threshold of ledgers keeps instance and records and loses an alert list the registry still names |
| WatchdogExpiry.OneLedgerLate | contracts/watchdog/src/lib.rs:178-187 | the threshold is exact: one ledger more without a listing loses the record and the instance, renewal taking place strictly below the threshold as the comment there says |
| WatchdogContract.Contract.InitializeAdmin | contracts/watchdog/src/lib.rs:193-203 | storage and panics of initialize as specified |
| WatchdogContract.Contract.RegisterContract | contracts/watchdog/src/lib.rs:207-233 | storage and panics of register_contract as specified |
| WatchdogContract.Contract.RegisterContractsBatch | contracts/watchdog/src/lib.rs:247-281 | storage, results and panics of the batch call as specified |
| WatchdogContract.Contract.DeregisterContract | contracts/watchdog/src/lib.rs:284-321 | storage and panics of deregister_contract as specified, its filter loop included |
| WatchdogContract.Contract.PushStatus | contracts/watchdog/src/lib.rs:327-362 | storage and panics of report_status as specified |
| WatchdogContract.Contract.PushAlert | contracts/watchdog/src/lib.rs:366-417 | storage and panics of report_alert as specified |
| WatchdogContract.Contract.AppendAlert | contracts/watchdog/src/lib.rs:396-404 | pushing and dropping from the front keeps the last hundred |
| WatchdogContract.Contract.Collect | contracts/watchdog/src/lib.rs:564-579 | the listing loop returns the records in order and renews exactly those |
| WatchdogContract.Contract.ReadPage | contracts/watchdog/src/lib.rs:537-562 | page, total and lifetimes of get_monitored_page as specified |
| WatchdogContract.Contract.WalkBack | contracts/watchdog/src/lib.rs:610-618 | the backward loop stops at the first alert that is not newer |
| WatchdogContract.Contract.ReadAlertsSince | contracts/watchdog/src/lib.rs:601-619 | alerts and lifetimes of get_alerts_since as specified |
| WatchdogContract.Contract.Invoke | contracts/watchdog/src/lib.rs:193-654 | one transaction on the fields is one step of the specification, a panic leaving everything as it was |
| ScopedPager.ScopedStore.SetScope | services/indexer/scope.go:35-47 | the scope becomes exactly the non-blank ids given |
| ScopedPager.ScopedStore.InScope | services/indexer/scope.go:50-58 | membership in the scope; nothing is in an empty one |
| ScopedPager.ScopedStore.ListContracts | services/indexer/scope.go:72-118 | over any sound keyset store exactly one page of the filtered table; otherwise that page, the store's own failure, or, when an empty page claims a successor, the rows selected so far with the store's cursor |
| ScopedPager.FollowYieldsScope | services/indexer/scope.go:66-118 | following the cursors terminates and yields the filtered rows above the cursor on pages within the limit |
| ScopedPager.FollowFromStart | services/indexer/scope.go:66-118 | from the start: every contract in scope once, nothing else, in ascending id order |
| Csv.ParseCsv | apps/web/components/ImportContractsCsv.tsx:41-91 | the character loop is the reader's state machine |
| Csv.ParseOfWrite | apps/web/components/ImportContractsCsv.tsx:41-91 | exactly what is read back from any file of bare and quoted fields, with either line ending |
| Csv.RoundTrip | apps/web/components/ImportContractsCsv.tsx:34-91 | the written records come back if and only if no bare byte order mark starts the file and it ends with a line ending or its last record is not one empty field |
| Activity.AggregateActivity | apps/web/lib/activitySeries.ts:79-122 | the counting loops give each bucket's count and highest ledger |
| Activity.BoundedChart | apps/web/lib/activitySeries.ts:42-122 | one point for each bucket, oldest first; counts add up to the rows between the window's start and the end of the current bucket |
| Activity.UnboundedChart | apps/web/lib/activitySeries.ts:79-122 | for "all", only buckets with data, oldest first, counting every row with a readable date |
| Activity.FetchPages | apps/web/lib/activitySeries.ts:124-142 | the paging loop returns the specified prefix and whether it ended before the cap |
| Activity.FetchedIsPrefix | apps/web/lib/activitySeries.ts:124-142 | fetched rows begin the history; after an early end what follows is older than the window |
| Activity.SameChart | apps/web/lib/activitySeries.ts:79-142 | dropping rows leaves a bounded chart unchanged if and only if none of them belongs on it |
| Activity.EarlyStopLosesNothing | apps/web/lib/activitySeries.ts:124-142 | over newest-first rows, paging that ended before the cap gives a bounded window's chart of the whole history |
| Activity.UnboundedEarlyStopLosesNothing | apps/web/lib/activitySeries.ts:124-142 | and for "all", in any order of rows, the chart of the whole history |
| ContractIds.IsContractId | extension/src/shared/contract-id.js:23-36 | 56 base32 characters, the first one C |
| ContractIds.FindContractIds | extension/src/shared/contract-id.js:65-87 | the scan that skips 56 characters after every match equals looking at every position |
| ContractIds.IdsAreTheWholeRuns | extension/src/shared/contract-id.js:55-87 | the ids found are exactly the maximal base32 runs of length 56 starting with C, each once |
| ContractIds.IdsInFirstAppearanceOrder | extension/src/shared/contract-id.js:55-87 | in order of first appearance |

## Left out

- Rounding and range of Go's binary64: literals are exact decimals, so 7% prints as 7%, where the
  program's multiplication by a hundred can print a trailing fraction.
- Overflow of 64-bit durations: windows are unbounded naturals until the checker bounds them.
- Characters above 127 in rule sources, where Go works on bytes; Unicode case folding.
- Texts of error messages, hints and verdict reasons; errors are modelled by kind and position.
- `LineCol`, `Metrics`, `Catalog` and other small listing helpers of the rule language.
- Rules that were parsed but not checked may hold quoted ids with blanks; the round trip is stated for
  checked rules.
- Go's base32 decoder is not part of this model; it is taken as documented (line breaks ignored,
  without padding a last group keeps its whole octets).
- The command line's own copy of `crc16XModem` is the same loop as the API's and is not modelled twice.
- RuleVerdict.ShorterWindowFires: asks for samples in time order, as the backward selection does.
- WatchdogLifetimes.NothingExpires: `extend_ttl` renews below the threshold, as the contract's comment
  says; the network's maximum lifetime does not cut the renewal.
- WatchdogExpiry.OneLedgerLate: rests on the same comment, read as strictly below the threshold. The
  host's own comparison is not in the contract and is not part of this model.
- Restoring archived entries, Soroban's authorisation trees, events and fees. Authorisation is the set
  of accounts that signed a call.
- The mutex of the scoped store; the inner store is a function that meets the keyset promise.
- Dates as ISO strings: a bucket is the whole number of hours or days since the epoch; failing page
  requests.
- The rest of the extension's file (normalising input, explorer URLs) and everything that talks to the
  network, the database or the screen.
