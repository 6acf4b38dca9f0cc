/**
 Two runs in which entries do expire: a contract that is listed every day but whose
 alerts nobody reads, and one whose daily listing comes a single ledger late.
 */
module WatchdogExpiry {
  import opened WatchdogState
  import opened WatchdogInvariant
  import opened WatchdogHistory
  import opened WatchdogLifetimes
  import opened Wrappers

  const ADMIN: Address := "admin"
  const ID: Address := "id"
  const MIN_TTL: nat := 4_096
  const REGISTRATION := Registration(ID, "name", 60)

  function EnvAt(sequence: nat): Env {
    Env(5 * sequence, sequence, MIN_TTL, {ADMIN})
  }

  /** The ledger of the n-th listing, counted from zero. */
  function Day(n: nat): nat {
    n * TTL_THRESHOLD
  }

  /** Initialize and register at ledger 0, then list n times, every TTL_THRESHOLD ledgers from ledger 0 on. */
  function DailyListing(n: nat): (run: seq<Event>)
    ensures |run| == n + 2
  {
    if n == 0 then [Event(EnvAt(0), CallInitialize(ADMIN)), Event(EnvAt(0), CallRegister(ADMIN, REGISTRATION))]
    else DailyListing(n - 1) + [Event(EnvAt(Day(n - 1)), CallGetAll)]
  }

  lemma {:induction false} DailyListingAt(n: nat, i: nat)
    requires i < n + 2
    ensures DailyListing(n)[i] == if i < 2 then DailyListing(0)[i] else Event(EnvAt(Day(i - 2)), CallGetAll)
  {
    if n > 0 && i < n + 1 {
      DailyListingAt(n - 1, i);
    }
  }

  lemma DailyListingInClockOrder(n: nat)
    ensures ClockOrder(DailyListing(n))
  {
    var run := DailyListing(n);
    forall i, j | 0 <= i <= j < |run|
      ensures run[i].env.timestamp <= run[j].env.timestamp && run[i].env.sequence <= run[j].env.sequence
    {
      DailyListingAt(n, i);
      DailyListingAt(n, j);
    }
  }

  // ----- the storage those calls leave -----

  /** Thirty thresholds of life; the listing that finds none of it left renews it. */
  function ListedUntil(n: nat): nat {
    if n <= 30 then Day(30) else Day(60)
  }

  function Listed(n: nat): Storage {
    Storage(
      Instance(Some(ADMIN), [ID], false, None),
      map[ID := NewRecord(EnvAt(0), ADMIN, REGISTRATION)],
      map[ID := []],
      Lifetimes(ListedUntil(n), map[ID := ListedUntil(n)], map[ID := Day(30)]))
  }

  lemma StartsListed()
    ensures Step(Deployed(MIN_TTL), EnvAt(0), CallInitialize(ADMIN)).until.instance == Day(30)
    ensures Expire(Deployed(MIN_TTL), 0) == Deployed(MIN_TTL)
    ensures var s := Step(Deployed(MIN_TTL), EnvAt(0), CallInitialize(ADMIN));
      Expire(s, 0) == s && Step(s, EnvAt(0), CallRegister(ADMIN, REGISTRATION)) == Listed(0)
  {
  }

  lemma ListingStep(n: nat)
    requires n < 31
    ensures Step(Listed(n), EnvAt(Day(n)), CallGetAll) == Listed(n + 1)
  {
    var s := BumpInstance(Listed(n), EnvAt(Day(n)));
    assert [ID][..0] == [];
    assert BumpEach(s, EnvAt(Day(n)), [ID]) == BumpHealth(s, ID, EnvAt(Day(n)));
  }

  lemma StaysLive(n: nat, sequence: nat)
    requires sequence <= Day(30)
    ensures Live(Listed(n), sequence) && Expire(Listed(n), sequence) == Listed(n)
  {
    LiveMeansUnchanged(Listed(n), sequence);
  }

  /** Up to the thirty-first listing nothing has expired, and this is the storage. */
  lemma {:induction false} AfterListings(total: nat, n: nat)
    requires n <= total && n <= 31
    ensures After(MIN_TTL, DailyListing(total), n + 2) == AfterExpiry(MIN_TTL, DailyListing(total), n + 2) == Listed(n)
  {
    var run := DailyListing(total);
    DailyListingAt(total, n + 1);
    if n == 0 {
      DailyListingAt(total, 0);
      StartsListed();
      FirstCalls(run);
    } else {
      AfterListings(total, n - 1);
      StaysLive(n - 1, Day(n - 1));
      ListingStep(n - 1);
    }
  }

  lemma FirstCalls(run: seq<Event>)
    requires |run| >= 2 && run[0] == DailyListing(0)[0] && run[1] == DailyListing(0)[1]
    requires var s := Step(Deployed(MIN_TTL), EnvAt(0), CallInitialize(ADMIN));
      && Expire(Deployed(MIN_TTL), 0) == Deployed(MIN_TTL) && Expire(s, 0) == s
      && Step(s, EnvAt(0), CallRegister(ADMIN, REGISTRATION)) == Listed(0)
    ensures After(MIN_TTL, run, 2) == AfterExpiry(MIN_TTL, run, 2) == Listed(0)
  {
    assert After(MIN_TTL, run, 1) == AfterExpiry(MIN_TTL, run, 1)
      == Step(Deployed(MIN_TTL), EnvAt(0), CallInitialize(ADMIN));
  }

  /** From the third call on: a listing every TTL_THRESHOLD ledgers. */
  predicate ListedDaily(run: seq<Event>) {
    forall i :: 2 <= i < |run| ==> run[i].call.CallGetAll? && run[i].env.sequence == Day(i - 2)
  }

  lemma DailyListingIsDaily(n: nat)
    ensures ListedDaily(DailyListing(n))
  {
    forall i | 2 <= i < n + 2
      ensures DailyListing(n)[i] == Event(EnvAt(Day(i - 2)), CallGetAll)
    {
      DailyListingAt(n, i);
    }
  }

  /** Regular use as far as the instance and the record of ID go, when the next listing is due. */
  ghost predicate ListedInTime(run: seq<Event>, k: nat) {
    k >= 2 && ListedLately(MIN_TTL, run, k, Day(k - 2)) && RecordLately(MIN_TTL, run, k, Day(k - 2), ID)
  }

  lemma DailyIsInTime(run: seq<Event>, k: nat)
    requires ListedDaily(run) && 2 < k <= |run|
    ensures ListedInTime(run, k)
  {
    assert Recent(run, k - 1, k, Day(k - 2)) && run[k - 1].call.CallGetAll?;
  }

  /**
   A contract that is listed every TTL_THRESHOLD ledgers keeps its instance and its records, and still
   loses an alert list nobody reads: the registry lists an id whose alerts are gone.
   */
  lemma DailyListingLosesAlerts()
    ensures var run := DailyListing(31);
      && ClockOrder(run) && ListedDaily(run)
      && (forall k :: 2 < k <= |run| ==> ListedInTime(run, k))
      && var s := AfterExpiry(MIN_TTL, run, |run|);
      && s == After(MIN_TTL, run, |run|) && ID in s.alerts
      && var t := Expire(s, Day(31));
      && t.instance == s.instance && t.instance.registry == [ID] && t.health == s.health
      && ID !in t.alerts
  {
    var run := DailyListing(31);
    DailyListingInClockOrder(31);
    DailyListingIsDaily(31);
    forall k | 2 < k <= |run|
      ensures ListedInTime(run, k)
    {
      DailyIsInTime(run, k);
    }
    AfterListings(31, 31);
    AlertsRunOut();
  }

  lemma AlertsRunOut()
    ensures var s := Listed(31); var t := Expire(s, Day(31));
      t.instance == s.instance && t.health == s.health && ID !in t.alerts
  {
  }

  /**
   The threshold is exact: with the last of thirty daily listings TTL_THRESHOLD ledgers ago, on Day(30),
   nothing is lost, and one ledger later the record and the instance are gone.
   */
  lemma OneLedgerLate()
    ensures var run := DailyListing(30);
      && ClockOrder(run) && ListedDaily(run)
      && var s := AfterExpiry(MIN_TTL, run, |run|);
      && s == After(MIN_TTL, run, |run|) && ID in s.health
      && Expire(s, Day(30)) == s
      && LosesEverything(s, Day(30) + 1)
  {
    DailyListingInClockOrder(30);
    DailyListingIsDaily(30);
    AfterListings(30, 30);
    StaysLive(30, Day(30));
    EverythingRunsOut();
  }

  /** The record of ID and the instance have expired. */
  predicate LosesEverything(s: Storage, sequence: nat) {
    var t := Expire(s, sequence);
    ID !in t.health && t.instance == Instance(None, [], false, None)
  }

  lemma EverythingRunsOut()
    ensures ID in Listed(30).health && LosesEverything(Listed(30), Day(30) + 1)
  {
  }
}
