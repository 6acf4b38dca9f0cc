/** Lifetimes: under regular reading no entry is ever archived, and which reads are enough. */
module WatchdogLifetimes {
  import opened WatchdogState
  import opened WatchdogInvariant
  import opened WatchdogHistory
  import WatchdogBatch
  import opened Wrappers

  /** Every entry is live at the given ledger. */
  ghost predicate Live(s: Storage, sequence: nat) {
    sequence <= s.until.instance
    && (forall a :: a in s.until.health ==> sequence <= s.until.health[a])
    && (forall a :: a in s.until.alerts ==> sequence <= s.until.alerts[a])
  }

  function LiveIds(lives: map<Address, nat>, sequence: nat): set<Address> {
    set a | a in lives && sequence <= lives[a]
  }

  /** Time passing: what has run out can no longer be read. */
  function Expire(s: Storage, sequence: nat): Storage {
    var health := LiveIds(s.until.health, sequence);
    var alerts := LiveIds(s.until.alerts, sequence);
    Storage(
      if sequence <= s.until.instance then s.instance else Instance(None, [], false, None),
      map a | a in s.health && a in health :: s.health[a],
      map a | a in s.alerts && a in alerts :: s.alerts[a],
      Lifetimes(
        s.until.instance,
        map a | a in health :: s.until.health[a],
        map a | a in alerts :: s.until.alerts[a]))
  }

  lemma LiveMeansUnchanged(s: Storage, sequence: nat)
    requires RegistryOk(s) && Live(s, sequence)
    ensures Expire(s, sequence) == s
  {
    assert LiveIds(s.until.health, sequence) == s.until.health.Keys;
    assert LiveIds(s.until.alerts, sequence) == s.until.alerts.Keys;
    var t := Expire(s, sequence);
    assert t.health == s.health;
    assert t.alerts == s.alerts;
    assert t.until.health == s.until.health;
    assert t.until.alerts == s.until.alerts;
  }

  // ----- what one call does to a lifetime -----

  /** The call gives the entry of a at least the threshold's ledgers to live, and never shortens a life. */
  predicate Lengthened(before: map<Address, nat>, after: map<Address, nat>, a: Address, renewed: bool, sequence: nat) {
    a in after ==>
      && (a in before ==> after[a] >= before[a])
      && (renewed || a !in before ==> after[a] >= sequence + TTL_THRESHOLD)
  }

  lemma {:induction false} BumpEachLives(s: Storage, env: Env, ids: seq<Address>, a: Address)
    requires s.until.health.Keys == s.health.Keys
    ensures var t := BumpEach(s, env, ids);
      && t.until.instance == s.until.instance && t.until.alerts == s.until.alerts
      && t.until.health.Keys == s.health.Keys
      && Lengthened(s.until.health, t.until.health, a, a in ids, env.sequence)
  {
    if ids != [] {
      BumpEachLives(s, env, ids[..|ids| - 1], a);
    }
  }

  /** The lifetimes one call leaves, for one id. */
  ghost predicate LivesOk(s: Storage, t: Storage, a: Address, listed: bool, read: bool, sequence: nat) {
    && Lengthened(s.until.health, t.until.health, a, listed, sequence)
    && Lengthened(s.until.alerts, t.until.alerts, a, read, sequence)
    && t.until.instance >= s.until.instance
  }

  lemma {:induction false} RegisterEachLives(s: Storage, env: Env, caller: Address, rs: seq<Registration>, a: Address)
    requires s.until.health.Keys == s.health.Keys == s.until.alerts.Keys
    ensures var t := RegisterEach(s, env, caller, rs).0;
      && t.until.health.Keys == t.health.Keys == t.until.alerts.Keys && s.health.Keys <= t.health.Keys
      && LivesOk(s, t, a, false, false, env.sequence)
  {
    if rs != [] {
      var before, r := rs[..|rs| - 1], rs[|rs| - 1];
      RegisterEachLives(s, env, caller, before, a);
      var s1 := RegisterEach(s, env, caller, before).0;
      if BatchVerdict(s1, r) == Success {
        StoredData(s1, env, caller, r);
      }
    }
  }

  lemma RegistrationLives(s: Storage, e: Event, a: Address)
    requires RegistryOk(s) && Succeeds(s, e.env, e.call) && (e.call.CallRegister? || e.call.CallBatch?)
    ensures LivesOk(s, Step(s, e.env, e.call), a, false, false, e.env.sequence)
  {
    var s1 := BumpInstance(s, e.env);
    if e.call.CallBatch? {
      RegisterEachLives(s1, e.env, e.call.caller, e.call.registrations, a);
    }
  }

  lemma DeregisterLives(s: Storage, e: Event, a: Address)
    requires RegistryOk(s) && Succeeds(s, e.env, e.call) && e.call.CallDeregister?
    ensures LivesOk(s, Step(s, e.env, e.call), a, false, false, e.env.sequence)
  {
  }

  lemma ReportAlertLives(s: Storage, e: Event, a: Address)
    requires RegistryOk(s) && Succeeds(s, e.env, e.call) && e.call.CallReportAlert?
    ensures LivesOk(s, Step(s, e.env, e.call), a, false, false, e.env.sequence)
  {
  }

  lemma AdminLives(s: Storage, e: Event, a: Address)
    requires e.call.CallInitialize? || e.call.CallSetPaused? || e.call.CallPropose?
      || e.call.CallAccept? || e.call.CallCancel?
    ensures LivesOk(s, Step(s, e.env, e.call), a, false, false, e.env.sequence) || !Succeeds(s, e.env, e.call)
    ensures Step(s, e.env, e.call).until.health == s.until.health
      && Step(s, e.env, e.call).until.alerts == s.until.alerts
    ensures Step(s, e.env, e.call).until.instance >= s.until.instance
  {
  }

  lemma ListingLives(s: Storage, e: Event, a: Address)
    requires RegistryOk(s) && (e.call.CallGetAll? || e.call.CallGetPage?)
    ensures var t := Step(s, e.env, e.call);
      LivesOk(s, t, a, e.call.CallGetAll?, false, e.env.sequence) && t.until.alerts == s.until.alerts
  {
    var ids := if e.call.CallGetAll? then s.instance.registry
      else PageIds(s.instance.registry, e.call.start, e.call.limit);
    ListingShape(s, e.env, e.call);
    ListedLives(s, e.env, ids, a);
  }

  lemma ListingShape(s: Storage, env: Env, c: Call)
    requires c.CallGetAll? || c.CallGetPage?
    ensures var ids := if c.CallGetAll? then s.instance.registry else PageIds(s.instance.registry, c.start, c.limit);
      Step(s, env, c) == BumpEach(BumpInstance(s, env), env, ids)
  {
  }

  /** Listing renews the listed ids' records and the instance, and no alerts. */
  lemma ListedLives(s: Storage, env: Env, ids: seq<Address>, a: Address)
    requires RegistryOk(s)
    ensures var t := BumpEach(BumpInstance(s, env), env, ids);
      && Lengthened(s.until.health, t.until.health, a, a in ids || a !in s.health, env.sequence)
      && t.until.alerts == s.until.alerts && t.until.instance >= s.until.instance
      && t.until.health.Keys == s.health.Keys
  {
    BumpEachLives(BumpInstance(s, env), env, ids, a);
  }

  lemma ReadLives(s: Storage, e: Event, a: Address)
    requires RegistryOk(s) && IsQuery(e.call) && !e.call.CallGetAll? && !e.call.CallGetPage?
    ensures LivesOk(s, Step(s, e.env, e.call), a, false, ReadsAlertsOf(e.call, a), e.env.sequence)
  {
    if e.call.CallGetAlerts? || e.call.CallGetAlertsSince? {
      AlertReadShape(s, e.env, e.call);
      AlertReadLives(s, e.env, e.call.id, a);
    } else {
      OtherReadLives(s, e.env, e.call, a);
    }
  }

  lemma AlertReadShape(s: Storage, env: Env, c: Call)
    requires c.CallGetAlerts? || c.CallGetAlertsSince?
    ensures Step(s, env, c) == BumpAlerts(BumpInstance(s, env), c.id, env)
  {
  }

  lemma OtherReadLives(s: Storage, env: Env, c: Call, a: Address)
    requires RegistryOk(s) && (c.CallGetStatus? || c.CallReadAdmin? || c.CallReadInstance?)
    ensures LivesOk(s, Step(s, env, c), a, false, false, env.sequence)
  {
  }

  lemma AlertReadLives(s: Storage, env: Env, id: Address, a: Address)
    ensures var t := BumpAlerts(BumpInstance(s, env), id, env);
      && t.until.health == s.until.health && t.until.instance >= s.until.instance
      && Lengthened(s.until.alerts, t.until.alerts, a, id == a, env.sequence)
  {
  }

  predicate ReadsAlertsOf(c: Call, a: Address) {
    (c.CallGetAlerts? || c.CallGetAlertsSince?) && c.id == a
  }

  /**
   No call shortens a life. get_all_monitored renews every record, reading the alerts of
   a renews them, and a new registration starts with a renewed record and alert list.
   */
  lemma CallLives(s: Storage, e: Event, a: Address)
    requires RegistryOk(s)
    ensures LivesOk(s, Step(s, e.env, e.call), a, e.call.CallGetAll?, ReadsAlertsOf(e.call, a), e.env.sequence)
    ensures e.call.CallGetAll? ==> Step(s, e.env, e.call).until.instance >= e.env.sequence + TTL_THRESHOLD
  {
    if e.call.CallGetAll? || e.call.CallGetPage? {
      ListingLives(s, e, a);
      if e.call.CallGetAll? {
        BumpEachLives(BumpInstance(s, e.env), e.env, s.instance.registry, a);
      }
    } else if IsQuery(e.call) {
      ReadLives(s, e, a);
    } else if Succeeds(s, e.env, e.call) {
      if e.call.CallRegister? || e.call.CallBatch? {
        RegistrationLives(s, e, a);
      } else if e.call.CallDeregister? {
        DeregisterLives(s, e, a);
      } else if e.call.CallReportAlert? {
        ReportAlertLives(s, e, a);
      } else if !e.call.CallReportStatus? {
        AdminLives(s, e, a);
      }
    }
  }

  // ----- runs -----

  lemma ReachableRegistry(until: nat, run: seq<Event>, k: nat)
    requires ClockOrder(run) && k <= |run|
    ensures RegistryOk(After(until, run, k))
  {
    ReachableConsistent(until, run, k, Now(run, k));
  }

  /** The call registers a. */
  predicate RegistersIn(s: Storage, e: Event, a: Address) {
    a !in s.health && a in Step(s, e.env, e.call).health
  }

  /** The j-th call registers a. */
  predicate Registers(until: nat, run: seq<Event>, j: nat, a: Address)
    requires j < |run|
  {
    RegistersIn(After(until, run, j), run[j], a)
  }

  lemma HealthRenewed(s: Storage, e: Event, a: Address)
    requires RegistryOk(s) && a in Step(s, e.env, e.call).until.health
    requires e.call.CallGetAll? || RegistersIn(s, e, a)
    ensures Step(s, e.env, e.call).until.health[a] >= e.env.sequence + TTL_THRESHOLD
  {
    CallLives(s, e, a);
  }

  /** The record of a, if any, can be read until the given ledger. */
  predicate HealthLasts(s: Storage, a: Address, floor: nat) {
    a in s.until.health ==> s.until.health[a] >= floor
  }

  lemma HealthKept(s: Storage, e: Event, a: Address, floor: nat)
    requires RegistryOk(s) && HealthLasts(s, a, floor) && floor <= e.env.sequence + TTL_THRESHOLD
    ensures HealthLasts(Step(s, e.env, e.call), a, floor)
  {
    CallLives(s, e, a);
  }

  /** Since a listing, every registered contract's record has the threshold to live. */
  lemma {:induction false} HealthFloor(until: nat, run: seq<Event>, j: nat, k: nat, a: Address)
    requires ClockOrder(run) && j < k <= |run| && a in After(until, run, k).until.health
    requires run[j].call.CallGetAll? || Registers(until, run, j, a)
    ensures After(until, run, k).until.health[a] >= run[j].env.sequence + TTL_THRESHOLD
  {
    HealthRenewedAt(until, run, j, a);
    HealthStays(until, run, j + 1, k, a, run[j].env.sequence + TTL_THRESHOLD);
  }

  lemma {:induction false} HealthRenewedAt(until: nat, run: seq<Event>, j: nat, a: Address)
    requires ClockOrder(run) && j < |run| && (run[j].call.CallGetAll? || Registers(until, run, j, a))
    ensures HealthLasts(After(until, run, j + 1), a, run[j].env.sequence + TTL_THRESHOLD)
  {
    ReachableRegistry(until, run, j);
    if a in After(until, run, j + 1).until.health {
      HealthRenewed(After(until, run, j), run[j], a);
    }
  }

  /** A record that has so long to live, or is registered later, still has. */
  lemma {:induction false} HealthStays(until: nat, run: seq<Event>, i: nat, k: nat, a: Address, floor: nat)
    requires ClockOrder(run) && i <= k <= |run| && HealthLasts(After(until, run, i), a, floor)
    requires i < |run| ==> floor <= run[i].env.sequence + TTL_THRESHOLD
    ensures HealthLasts(After(until, run, k), a, floor)
    decreases k
  {
    if i < k {
      HealthStays(until, run, i, k - 1, a, floor);
      ReachableRegistry(until, run, k - 1);
      HealthKept(After(until, run, k - 1), run[k - 1], a, floor);
    }
  }

  lemma AlertsRenewed(s: Storage, e: Event, a: Address)
    requires RegistryOk(s) && a in Step(s, e.env, e.call).until.alerts
    requires ReadsAlertsOf(e.call, a) || RegistersIn(s, e, a)
    ensures Step(s, e.env, e.call).until.alerts[a] >= e.env.sequence + TTL_THRESHOLD
  {
    CallLives(s, e, a);
  }

  /** The alert list of a, if any, can be read until the given ledger. */
  predicate AlertsLast(s: Storage, a: Address, floor: nat) {
    a in s.until.alerts ==> s.until.alerts[a] >= floor
  }

  lemma AlertsKept(s: Storage, e: Event, a: Address, floor: nat)
    requires RegistryOk(s) && AlertsLast(s, a, floor) && floor <= e.env.sequence + TTL_THRESHOLD
    ensures AlertsLast(Step(s, e.env, e.call), a, floor)
  {
    CallLives(s, e, a);
  }

  /** Since its alerts were read, a registered contract's alert list has the threshold to live. */
  lemma {:induction false} AlertsFloor(until: nat, run: seq<Event>, j: nat, k: nat, a: Address)
    requires ClockOrder(run) && j < k <= |run| && a in After(until, run, k).until.alerts
    requires ReadsAlertsOf(run[j].call, a) || Registers(until, run, j, a)
    ensures After(until, run, k).until.alerts[a] >= run[j].env.sequence + TTL_THRESHOLD
  {
    AlertsRenewedAt(until, run, j, a);
    AlertsStay(until, run, j + 1, k, a, run[j].env.sequence + TTL_THRESHOLD);
  }

  lemma {:induction false} AlertsRenewedAt(until: nat, run: seq<Event>, j: nat, a: Address)
    requires ClockOrder(run) && j < |run| && (ReadsAlertsOf(run[j].call, a) || Registers(until, run, j, a))
    ensures AlertsLast(After(until, run, j + 1), a, run[j].env.sequence + TTL_THRESHOLD)
  {
    ReachableRegistry(until, run, j);
    if a in After(until, run, j + 1).until.alerts {
      AlertsRenewed(After(until, run, j), run[j], a);
    }
  }

  lemma {:induction false} AlertsStay(until: nat, run: seq<Event>, i: nat, k: nat, a: Address, floor: nat)
    requires ClockOrder(run) && i <= k <= |run| && AlertsLast(After(until, run, i), a, floor)
    requires i < |run| ==> floor <= run[i].env.sequence + TTL_THRESHOLD
    ensures AlertsLast(After(until, run, k), a, floor)
    decreases k
  {
    if i < k {
      AlertsStay(until, run, i, k - 1, a, floor);
      ReachableRegistry(until, run, k - 1);
      AlertsKept(After(until, run, k - 1), run[k - 1], a, floor);
    }
  }

  lemma {:induction false} InstanceFloor(until: nat, run: seq<Event>, j: nat, k: nat)
    requires ClockOrder(run) && j < k <= |run| && run[j].call.CallGetAll?
    ensures After(until, run, k).until.instance >= run[j].env.sequence + TTL_THRESHOLD
  {
    var s, e := After(until, run, k - 1), run[k - 1];
    ReachableConsistent(until, run, k - 1, e.env.timestamp);
    CallLives(s, e, "");
    if j < k - 1 {
      InstanceFloor(until, run, j, k - 1);
    }
  }

  lemma {:induction false} DeploymentFloor(until: nat, run: seq<Event>, k: nat)
    requires ClockOrder(run) && k <= |run|
    ensures After(until, run, k).until.instance >= until
  {
    if k > 0 {
      var s, e := After(until, run, k - 1), run[k - 1];
      ReachableConsistent(until, run, k - 1, e.env.timestamp);
      CallLives(s, e, "");
      DeploymentFloor(until, run, k - 1);
    }
  }

  /** One of the first k calls, at most the threshold before the given ledger. */
  predicate Recent(run: seq<Event>, j: nat, k: nat, sequence: nat) {
    j < k <= |run| && sequence <= run[j].env.sequence + TTL_THRESHOLD
  }

  /** get_all_monitored was called, or the contract deployed, at most the threshold ago. */
  ghost predicate ListedLately(until: nat, run: seq<Event>, k: nat, sequence: nat) {
    sequence <= until || exists j: nat :: Recent(run, j, k, sequence) && run[j].call.CallGetAll?
  }

  /** And so was every registered contract listed, its alerts read, or it was registered. */
  ghost predicate RecordLately(until: nat, run: seq<Event>, k: nat, sequence: nat, a: Address) {
    exists j: nat :: Recent(run, j, k, sequence) && (run[j].call.CallGetAll? || Registers(until, run, j, a))
  }

  ghost predicate AlertsLately(until: nat, run: seq<Event>, k: nat, sequence: nat, a: Address) {
    exists j: nat :: Recent(run, j, k, sequence) && (ReadsAlertsOf(run[j].call, a) || Registers(until, run, j, a))
  }

  /** Regular use, seen at a ledger after the first k calls. */
  ghost predicate RegularlyUsed(until: nat, run: seq<Event>, k: nat, sequence: nat)
    requires k <= |run|
  {
    && ListedLately(until, run, k, sequence)
    && forall a :: a in After(until, run, k).health ==>
      RecordLately(until, run, k, sequence, a) && AlertsLately(until, run, k, sequence, a)
  }

  lemma InstanceLive(until: nat, run: seq<Event>, k: nat, sequence: nat)
    requires ClockOrder(run) && k <= |run| && ListedLately(until, run, k, sequence)
    ensures sequence <= After(until, run, k).until.instance
  {
    DeploymentFloor(until, run, k);
    if sequence > until {
      var j: nat :| Recent(run, j, k, sequence) && run[j].call.CallGetAll?;
      InstanceFloor(until, run, j, k);
    }
  }

  lemma RecordLive(until: nat, run: seq<Event>, k: nat, sequence: nat, a: Address)
    requires ClockOrder(run) && k <= |run| && RecordLately(until, run, k, sequence, a)
    requires a in After(until, run, k).until.health
    ensures sequence <= After(until, run, k).until.health[a]
  {
    var j: nat :| Recent(run, j, k, sequence) && (run[j].call.CallGetAll? || Registers(until, run, j, a));
    HealthFloor(until, run, j, k, a);
  }

  lemma AlertsLive(until: nat, run: seq<Event>, k: nat, sequence: nat, a: Address)
    requires ClockOrder(run) && k <= |run| && AlertsLately(until, run, k, sequence, a)
    requires a in After(until, run, k).until.alerts
    ensures sequence <= After(until, run, k).until.alerts[a]
  {
    var j: nat :| Recent(run, j, k, sequence) && (ReadsAlertsOf(run[j].call, a) || Registers(until, run, j, a));
    AlertsFloor(until, run, j, k, a);
  }

  /** Under regular use every entry is live. */
  lemma NothingExpires(until: nat, run: seq<Event>, k: nat, sequence: nat)
    requires ClockOrder(run) && k <= |run| && RegularlyUsed(until, run, k, sequence)
    ensures Live(After(until, run, k), sequence)
  {
    var s := After(until, run, k);
    ReachableRegistry(until, run, k);
    InstanceLive(until, run, k, sequence);
    forall a | a in s.until.health
      ensures sequence <= s.until.health[a]
    {
      assert a in s.health;
      RecordLive(until, run, k, sequence, a);
    }
    forall a | a in s.until.alerts
      ensures sequence <= s.until.alerts[a]
    {
      assert a in s.health;
      AlertsLive(until, run, k, sequence, a);
    }
  }

  lemma ExpiryIsIdle(until: nat, run: seq<Event>, k: nat, sequence: nat)
    requires ClockOrder(run) && k <= |run| && RegularlyUsed(until, run, k, sequence)
    ensures Expire(After(until, run, k), sequence) == After(until, run, k)
  {
    NothingExpires(until, run, k, sequence);
    ReachableRegistry(until, run, k);
    LiveMeansUnchanged(After(until, run, k), sequence);
  }

  /** The same run with expiry as a step of its own before every call. */
  function AfterExpiry(until: nat, run: seq<Event>, k: nat): Storage
    requires k <= |run|
  {
    if k == 0 then Deployed(until)
    else
      var e := run[k - 1];
      Step(Expire(AfterExpiry(until, run, k - 1), e.env.sequence), e.env, e.call)
  }

  /** Regular use at every one of the first k calls. */
  ghost predicate AlwaysUsed(until: nat, run: seq<Event>, k: nat)
    requires k <= |run|
  {
    k > 0 ==> AlwaysUsed(until, run, k - 1) && RegularlyUsed(until, run, k - 1, run[k - 1].env.sequence)
  }

  /** In a run that is regularly used at every call, expiry changes nothing: state never archives. */
  lemma {:induction false} RegularUseNeverArchives(until: nat, run: seq<Event>, k: nat)
    requires ClockOrder(run) && k <= |run|
    requires AlwaysUsed(until, run, k)
    ensures AfterExpiry(until, run, k) == After(until, run, k)
  {
    if k > 0 {
      RegularUseNeverArchives(until, run, k - 1);
      ExpiryIsIdle(until, run, k - 1, run[k - 1].env.sequence);
    }
  }

  /** Then get_all_monitored returns one record for every registry entry, in registry order. */
  lemma ListingIsComplete(until: nat, run: seq<Event>, k: nat, env: Env)
    requires ClockOrder(run) && k <= |run| && RegularlyUsed(until, run, k, env.sequence)
    requires AlwaysUsed(until, run, k)
    ensures var s := Expire(AfterExpiry(until, run, k), env.sequence);
      var records := GetAllMonitored(s, env).1;
      && s == After(until, run, k)
      && |records| == |s.instance.registry|
      && forall i :: 0 <= i < |records| ==> records[i].contractId == s.instance.registry[i]
  {
    RegularUseNeverArchives(until, run, k);
    ExpiryIsIdle(until, run, k, env.sequence);
    ReachableConsistent(until, run, k, Now(run, k));
    var s := After(until, run, k);
    WatchdogBatch.RecordsComplete(BumpInstance(s, env), s.instance.registry);
    var records := GetAllMonitored(s, env).1;
    forall i | 0 <= i < |records|
      ensures records[i].contractId == s.instance.registry[i]
    {
      assert s.instance.registry[i] in s.health;
      assert RecordOk(s.instance.registry[i], s.health[s.instance.registry[i]], Now(run, k));
    }
  }

  // ----- what renews an alert list -----

  /** Neither reads the alerts of a, nor reports one, nor deregisters a. */
  predicate LeavesAlerts(c: Call, a: Address) {
    !ReadsAlertsOf(c, a) && !((c.CallReportAlert? || c.CallDeregister?) && c.id == a)
  }

  predicate SameAlertLife(s: Storage, t: Storage, a: Address)
    requires a in s.until.alerts
  {
    a in t.until.alerts && t.until.alerts[a] == s.until.alerts[a]
  }

  lemma {:induction false} BatchKeepsAlertLife(s: Storage, env: Env, caller: Address, rs: seq<Registration>, a: Address)
    requires a in s.health && a in s.until.alerts
    ensures var t := RegisterEach(s, env, caller, rs).0; a in t.health && SameAlertLife(s, t, a)
  {
    if rs != [] {
      BatchKeepsAlertLife(s, env, caller, rs[..|rs| - 1], a);
    }
  }

  /** Everything else, successful or not, leaves the list's life as it was. */
  lemma OtherCallKeepsAlertLife(s: Storage, e: Event, a: Address)
    requires RegistryOk(s) && LeavesAlerts(e.call, a) && a in s.until.alerts
    ensures SameAlertLife(s, Step(s, e.env, e.call), a)
  {
    if e.call.CallGetAll? || e.call.CallGetPage? {
      ListingLives(s, e, a);
    } else if e.call.CallBatch? {
      BatchKeepsAlertLife(BumpInstance(s, e.env), e.env, e.call.caller, e.call.registrations, a);
    } else if IsQuery(e.call) {
      PlainReadKeepsAlertLife(s, e, a);
    } else if e.call.CallRegister? || e.call.CallReportStatus? {
      RegistrationKeepsAlertLife(s, e, a);
    } else if e.call.CallDeregister? || e.call.CallReportAlert? {
      ReportKeepsAlertLife(s, e, a);
    } else {
      AdminLives(s, e, a);
    }
  }

  lemma PlainReadKeepsAlertLife(s: Storage, e: Event, a: Address)
    requires LeavesAlerts(e.call, a) && a in s.until.alerts
    requires IsQuery(e.call) && !e.call.CallGetAll? && !e.call.CallGetPage?
    ensures SameAlertLife(s, Step(s, e.env, e.call), a)
  {
  }

  lemma RegistrationKeepsAlertLife(s: Storage, e: Event, a: Address)
    requires RegistryOk(s) && a in s.until.alerts && (e.call.CallRegister? || e.call.CallReportStatus?)
    ensures SameAlertLife(s, Step(s, e.env, e.call), a)
  {
  }

  lemma ReportKeepsAlertLife(s: Storage, e: Event, a: Address)
    requires LeavesAlerts(e.call, a) && a in s.until.alerts && (e.call.CallDeregister? || e.call.CallReportAlert?)
    ensures SameAlertLife(s, Step(s, e.env, e.call), a)
  {
  }

  /**
   However much the contract is used otherwise, an alert list that is neither read nor
   added to runs out on schedule: it is live at a ledger exactly if it was bound to be.
   */
  lemma UnreadAlertsExpire(until: nat, run: seq<Event>, j: nat, k: nat, a: Address, sequence: nat)
    requires ClockOrder(run) && j <= k <= |run| && a in After(until, run, j).until.alerts
    requires forall i :: j <= i < k ==> LeavesAlerts(run[i].call, a)
    ensures a in After(until, run, k).until.alerts
    ensures sequence <= After(until, run, k).until.alerts[a] <==> sequence <= After(until, run, j).until.alerts[a]
  {
    AlertLifeStands(until, run, j, k, a);
  }

  lemma {:induction false} AlertLifeStands(until: nat, run: seq<Event>, j: nat, k: nat, a: Address)
    requires ClockOrder(run) && j <= k <= |run| && a in After(until, run, j).until.alerts
    requires forall i :: j <= i < k ==> LeavesAlerts(run[i].call, a)
    ensures SameAlertLife(After(until, run, j), After(until, run, k), a)
    decreases k
  {
    if j < k {
      AlertLifeStands(until, run, j, k - 1, a);
      ReachableRegistry(until, run, k - 1);
      OtherCallKeepsAlertLife(After(until, run, k - 1), run[k - 1], a);
    }
  }
}
