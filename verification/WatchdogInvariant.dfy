/** What every call keeps: the registry, the health records and the alert lists tell one story. */
module WatchdogInvariant {
  import opened WatchdogState
  import opened Wrappers

  predicate NoDuplicates(xs: seq<Address>) {
    forall i, j :: 0 <= i < j < |xs| ==> xs[i] != xs[j]
  }

  predicate InTimeOrder(alerts: seq<Alert>) {
    forall i, j :: 0 <= i <= j < |alerts| ==> alerts[i].timestamp <= alerts[j].timestamp
  }

  /** A record tells which contract it is for, and was last checked between registration and now. */
  predicate RecordOk(id: Address, h: Health, now: nat) {
    h.contractId == id && h.registeredAt <= h.lastCheck <= now
  }

  predicate AlertsOk(id: Address, alerts: seq<Alert>, now: nat) {
    |alerts| <= MAX_ALERTS && InTimeOrder(alerts)
    && forall k :: 0 <= k < |alerts| ==> alerts[k].contractId == id && alerts[k].timestamp <= now
  }

  /** The registry lists, once each, exactly the ids that have a record and an alert list. */
  ghost predicate RegistryOk(s: Storage) {
    NoDuplicates(s.instance.registry)
    && (forall a :: a in s.health <==> a in s.instance.registry)
    && s.alerts.Keys == s.health.Keys
    && s.until.health.Keys == s.health.Keys
    && s.until.alerts.Keys == s.health.Keys
  }

  predicate EntriesOk(s: Storage, now: nat) {
    (forall a :: a in s.health ==> RecordOk(a, s.health[a], now))
    && (forall a :: a in s.alerts ==> AlertsOk(a, s.alerts[a], now))
  }

  /** Before initialization there is nothing; a nominee is never the admin. */
  predicate AdminOk(i: Instance) {
    (i.admin.None? ==> i.registry == [] && i.pending.None? && !i.paused)
    && (i.pending.Some? ==> i.pending != i.admin)
  }

  ghost predicate Consistent(s: Storage, now: nat) {
    RegistryOk(s) && EntriesOk(s, now) && AdminOk(s.instance)
  }

  /** The storage right after deployment. */
  function Deployed(until: nat): Storage {
    Storage(Instance(None, [], false, None), map[], map[], Lifetimes(until, map[], map[]))
  }

  lemma LaterIsConsistent(s: Storage, now: nat, later: nat)
    requires Consistent(s, now) && now <= later
    ensures Consistent(s, later)
  {
  }

  /** Two storages that differ in lifetimes only. */
  predicate SameData(s: Storage, t: Storage) {
    s.instance == t.instance && s.health == t.health && s.alerts == t.alerts
    && s.until.health.Keys == t.until.health.Keys && s.until.alerts.Keys == t.until.alerts.Keys
  }

  lemma SameDataConsistent(s: Storage, t: Storage, now: nat)
    requires Consistent(s, now) && SameData(s, t)
    ensures Consistent(t, now)
  {
  }

  lemma {:induction false} BumpEachSameData(s: Storage, env: Env, ids: seq<Address>)
    ensures SameData(s, BumpEach(s, env, ids))
  {
    if ids != [] {
      BumpEachSameData(s, env, ids[..|ids| - 1]);
    }
  }

  // ----- registration -----

  lemma StoredData(s: Storage, env: Env, caller: Address, r: Registration)
    ensures var t := StoreRegistration(s, env, caller, r);
      && t.instance == s.instance.(registry := s.instance.registry + [r.contractId])
      && t.health == s.health[r.contractId := NewRecord(env, caller, r)]
      && t.alerts == s.alerts[r.contractId := []]
      && t.until.health.Keys == s.until.health.Keys + {r.contractId}
      && t.until.alerts.Keys == s.until.alerts.Keys + {r.contractId}
  {
  }

  lemma StoreRegistrationRegistry(s: Storage, t: Storage, env: Env, caller: Address, r: Registration)
    requires RegistryOk(s) && r.contractId !in s.health && t == StoreRegistration(s, env, caller, r)
    ensures RegistryOk(t)
  {
    StoredData(s, env, caller, r);
    assert r.contractId !in s.instance.registry;
    assert t.alerts.Keys == s.alerts.Keys + {r.contractId} && t.health.Keys == s.health.Keys + {r.contractId};
  }

  lemma StoreRegistrationConsistent(s: Storage, env: Env, caller: Address, r: Registration)
    requires Consistent(s, env.timestamp) && s.instance.admin.Some? && r.contractId !in s.health
    ensures Consistent(StoreRegistration(s, env, caller, r), env.timestamp)
  {
    var t := StoreRegistration(s, env, caller, r);
    StoredData(s, env, caller, r);
    StoreRegistrationRegistry(s, t, env, caller, r);
    forall a | a in t.health
      ensures RecordOk(a, t.health[a], env.timestamp)
    {
      if a != r.contractId {
        assert a in s.health;
      }
    }
    forall a | a in t.alerts
      ensures AlertsOk(a, t.alerts[a], env.timestamp)
    {
      if a != r.contractId {
        assert a in s.alerts;
      }
    }
  }

  lemma {:induction false} RegisterEachConsistent(s: Storage, env: Env, caller: Address, rs: seq<Registration>)
    requires Consistent(s, env.timestamp) && s.instance.admin.Some?
    ensures Consistent(RegisterEach(s, env, caller, rs).0, env.timestamp)
    ensures RegisterEach(s, env, caller, rs).0.instance.admin.Some?
  {
    if rs != [] {
      var before := rs[..|rs| - 1];
      RegisterEachConsistent(s, env, caller, before);
      var s1 := RegisterEach(s, env, caller, before).0;
      if BatchVerdict(s1, rs[|rs| - 1]) == Success {
        StoreRegistrationConsistent(s1, env, caller, rs[|rs| - 1]);
      }
    }
  }

  // ----- removal -----

  lemma {:induction false} WithoutNoDuplicates(xs: seq<Address>, id: Address)
    requires NoDuplicates(xs)
    ensures NoDuplicates(Without(xs, id))
  {
    if xs != [] {
      var before, last := xs[..|xs| - 1], xs[|xs| - 1];
      WithoutNoDuplicates(before, id);
      assert last !in before;
    }
  }

  /** Removing an id that occurs once cuts it out; the others keep their order. */
  lemma {:induction false} WithoutCutsOut(xs: seq<Address>, k: nat)
    requires NoDuplicates(xs) && k < |xs|
    ensures Without(xs, xs[k]) == xs[..k] + xs[k + 1..]
  {
    var n := |xs| - 1;
    if k == n {
      WithoutAbsent(xs[..n], xs[n]);
      assert xs[..n] + xs[n + 1..] == xs[..n];
    } else {
      WithoutCutsOut(xs[..n], k);
      assert xs[..n][..k] + xs[..n][k + 1..] + [xs[n]] == xs[..k] + xs[k + 1..];
    }
  }

  lemma {:induction false} WithoutAbsent(xs: seq<Address>, id: Address)
    requires id !in xs
    ensures Without(xs, id) == xs
  {
    if xs != [] {
      WithoutAbsent(xs[..|xs| - 1], id);
      assert xs[..|xs| - 1] + [xs[|xs| - 1]] == xs;
    }
  }

  lemma RemovalConsistent(s: Storage, id: Address, now: nat)
    requires Consistent(s, now) && s.instance.admin.Some?
    ensures Consistent(RemoveContract(s, id), now)
  {
    WithoutNoDuplicates(s.instance.registry, id);
  }

  // ----- reporting -----

  lemma StatusConsistent(s: Storage, env: Env, id: Address, status: HealthStatus)
    requires Consistent(s, env.timestamp) && id in s.health
    ensures var record := s.health[id].(status := status, lastCheck := env.timestamp);
      Consistent(SetHealth(s, id, record, env), env.timestamp)
  {
  }

  lemma LastNInOrder(alerts: seq<Alert>, n: nat)
    requires InTimeOrder(alerts)
    ensures InTimeOrder(LastN(alerts, n))
  {
  }

  lemma AlertConsistent(s: Storage, env: Env, alert: Alert)
    requires Consistent(s, env.timestamp) && alert.contractId in s.health && alert.timestamp == env.timestamp
    ensures var kept := LastN(StoredAlerts(s, alert.contractId) + [alert], MAX_ALERTS);
      Consistent(SetAlerts(s, alert.contractId, kept, env), env.timestamp)
  {
    var id := alert.contractId;
    assert AlertsOk(id, s.alerts[id], env.timestamp);
    var longer := s.alerts[id] + [alert];
    assert InTimeOrder(longer);
    LastNInOrder(longer, MAX_ALERTS);
    assert AlertsOk(id, LastN(longer, MAX_ALERTS), env.timestamp);
  }

  // ----- every call -----

  lemma RegisterConsistent(s: Storage, env: Env, caller: Address, r: Registration)
    requires Consistent(s, env.timestamp) && Register(s, env, caller, r).Done?
    ensures Consistent(Register(s, env, caller, r).value, env.timestamp)
  {
    SameDataConsistent(s, BumpInstance(s, env), env.timestamp);
    StoreRegistrationConsistent(BumpInstance(s, env), env, caller, r);
  }

  lemma BatchConsistent(s: Storage, env: Env, caller: Address, rs: seq<Registration>)
    requires Consistent(s, env.timestamp) && RegisterBatch(s, env, caller, rs).Done?
    ensures Consistent(RegisterBatch(s, env, caller, rs).value.0, env.timestamp)
  {
    SameDataConsistent(s, BumpInstance(s, env), env.timestamp);
    RegisterEachConsistent(BumpInstance(s, env), env, caller, rs);
  }

  lemma RegisteredMeansInitialized(s: Storage, id: Address)
    requires AdminOk(s.instance) && RegistryOk(s) && id in s.health
    ensures s.instance.admin.Some?
  {
  }

  lemma DeregisterConsistent(s: Storage, env: Env, caller: Address, id: Address)
    requires Consistent(s, env.timestamp) && Deregister(s, env, caller, id).Done?
    ensures Consistent(Deregister(s, env, caller, id).value, env.timestamp)
  {
    var s1 := BumpInstance(s, env);
    DeregisterShape(s, env, caller, id);
    RegisteredMeansInitialized(s, id);
    BumpConsistent(s, env, env.timestamp);
    RemovalConsistent(s1, id, env.timestamp);
    BumpConsistent(RemoveContract(s1, id), env, env.timestamp);
  }

  lemma DeregisterShape(s: Storage, env: Env, caller: Address, id: Address)
    requires Deregister(s, env, caller, id).Done?
    ensures id in s.health
    ensures Deregister(s, env, caller, id).value == BumpInstance(RemoveContract(BumpInstance(s, env), id), env)
  {
  }

  lemma BumpConsistent(s: Storage, env: Env, now: nat)
    requires Consistent(s, now)
    ensures Consistent(BumpInstance(s, env), now)
  {
    SameDataConsistent(s, BumpInstance(s, env), now);
  }

  lemma ReportStatusConsistent(s: Storage, env: Env, caller: Address, id: Address, status: HealthStatus)
    requires Consistent(s, env.timestamp) && ReportStatus(s, env, caller, id, status).Done?
    ensures Consistent(ReportStatus(s, env, caller, id, status).value, env.timestamp)
  {
    var s1 := BumpInstance(s, env);
    SameDataConsistent(s, s1, env.timestamp);
    StatusConsistent(s1, env, id, status);
    SameDataConsistent(SetHealth(s1, id, s1.health[id].(status := status, lastCheck := env.timestamp), env),
                       ReportStatus(s, env, caller, id, status).value, env.timestamp);
  }

  lemma ReportAlertConsistent(s: Storage, env: Env, caller: Address, id: Address, severity: Severity, message: string)
    requires Consistent(s, env.timestamp) && ReportAlert(s, env, caller, id, severity, message).Done?
    ensures Consistent(ReportAlert(s, env, caller, id, severity, message).value, env.timestamp)
  {
    var s1 := BumpInstance(s, env);
    var alert := Alert(id, severity, message, env.timestamp);
    SameDataConsistent(s, s1, env.timestamp);
    AlertConsistent(s1, env, alert);
    SameDataConsistent(SetAlerts(s1, id, LastN(StoredAlerts(s1, id) + [alert], MAX_ALERTS), env),
                       ReportAlert(s, env, caller, id, severity, message).value, env.timestamp);
  }

  predicate IsQuery(c: Call) {
    c.CallGetStatus? || c.CallGetPage? || c.CallGetAll? || c.CallGetAlerts? || c.CallGetAlertsSince?
    || c.CallReadAdmin? || c.CallReadInstance?
  }

  /** A query changes nothing but lifetimes. */
  lemma QueryKeepsData(s: Storage, env: Env, c: Call)
    requires IsQuery(c)
    ensures SameData(s, Step(s, env, c))
  {
    var s1 := BumpInstance(s, env);
    match c
    case CallGetPage(start, limit) =>
      BumpEachSameData(s1, env, PageIds(s1.instance.registry, start, limit));
    case CallGetAll =>
      BumpEachSameData(s1, env, s1.instance.registry);
    case _ =>
  }

  /** Every call, whether it succeeds or panics, keeps the storage consistent. */
  lemma CallConsistent(s: Storage, env: Env, c: Call)
    requires Consistent(s, env.timestamp)
    ensures Consistent(Step(s, env, c), env.timestamp)
  {
    if IsQuery(c) {
      QueryKeepsData(s, env, c);
      SameDataConsistent(s, Step(s, env, c), env.timestamp);
    } else if Succeeds(s, env, c) {
      match c
      case CallRegister(caller, r) =>
        RegisterConsistent(s, env, caller, r);
      case CallBatch(caller, rs) =>
        BatchConsistent(s, env, caller, rs);
      case CallDeregister(caller, id) =>
        DeregisterConsistent(s, env, caller, id);
      case CallReportStatus(caller, id, status) =>
        ReportStatusConsistent(s, env, caller, id, status);
      case CallReportAlert(caller, id, severity, message) =>
        ReportAlertConsistent(s, env, caller, id, severity, message);
      case _ =>
        AdminCallConsistent(s, env, c);
    }
  }

  lemma AdminCallConsistent(s: Storage, env: Env, c: Call)
    requires Consistent(s, env.timestamp) && Succeeds(s, env, c)
    requires c.CallInitialize? || c.CallSetPaused? || c.CallPropose? || c.CallAccept? || c.CallCancel?
    ensures Consistent(Step(s, env, c), env.timestamp)
  {
    AdminCallShape(s, env, c);
  }

  lemma AdminCallShape(s: Storage, env: Env, c: Call)
    requires Consistent(s, env.timestamp) && Succeeds(s, env, c)
    requires c.CallInitialize? || c.CallSetPaused? || c.CallPropose? || c.CallAccept? || c.CallCancel?
    ensures var t := Step(s, env, c);
      && AdminOk(t.instance) && t.instance.registry == s.instance.registry
      && t.health == s.health && t.alerts == s.alerts
      && t.until.health == s.until.health && t.until.alerts == s.until.alerts
  {
  }
}
