/**
 The contract itself: entry points that read and write storage in place. Each is
 proved to leave exactly the storage, and return exactly the value, that its
 specification in WatchdogState gives; the host's rollback on a panic makes one
 invocation one Step.
 */
module WatchdogContract {
  import opened WatchdogState
  import WatchdogInvariant
  import opened Wrappers

  /** An entry point that returns nothing: the storage it must leave, or the panic it must raise. */
  predicate Meets(out: Outcome<()>, now: Storage, spec: Outcome<Storage>) {
    match spec
    case Done(s) => out == Done(()) && now == s
    case Panicked(reason) => out == Panicked(reason)
  }

  function OwnedRecord(s: Storage, caller: Address, id: Address): Outcome<Health> {
    var record :- Record(s, id);
    var _ :- RequireOwnerOrAdmin(s, caller, record);
    Done(record)
  }

  lemma PrefixGrows<T>(xs: seq<T>, i: nat)
    requires i < |xs|
    ensures xs[..i + 1] == xs[..i] + [xs[i]]
    ensures xs[..i + 1][..i] == xs[..i] && xs[..i + 1][i] == xs[i]
  {
  }

  class Contract {
    var admin: Option<Address>
    var registry: seq<Address>
    var paused: bool
    var pending: Option<Address>
    var health: map<Address, Health>
    var alerts: map<Address, seq<Alert>>
    var instanceUntil: nat
    var healthUntil: map<Address, nat>
    var alertsUntil: map<Address, nat>

    /** The storage the fields hold. */
    function State(): Storage
      reads this
    {
      Storage(Instance(admin, registry, paused, pending), health, alerts,
        Lifetimes(instanceUntil, healthUntil, alertsUntil))
    }

    constructor (until: nat)
      ensures State() == WatchdogInvariant.Deployed(until)
    {
      admin, registry, paused, pending := None, [], false, None;
      health, alerts := map[], map[];
      instanceUntil, healthUntil, alertsUntil := until, map[], map[];
    }

    // ----- storage -----

    method BumpInstanceTtl(env: Env)
      modifies this`instanceUntil
      ensures State() == BumpInstance(old(State()), env)
    {
      if instanceUntil - env.sequence < TTL_THRESHOLD {
        instanceUntil := env.sequence + TTL_EXTEND_TO;
      }
    }

    method BumpHealthTtl(env: Env, id: Address)
      modifies this`healthUntil
      ensures State() == BumpHealth(old(State()), id, env)
    {
      if id in healthUntil && healthUntil[id] - env.sequence < TTL_THRESHOLD {
        healthUntil := healthUntil[id := env.sequence + TTL_EXTEND_TO];
      }
    }

    method BumpAlertsTtl(env: Env, id: Address)
      modifies this`alertsUntil
      ensures State() == BumpAlerts(old(State()), id, env)
    {
      if id in alertsUntil && alertsUntil[id] - env.sequence < TTL_THRESHOLD {
        alertsUntil := alertsUntil[id := env.sequence + TTL_EXTEND_TO];
      }
    }

    method WriteHealth(env: Env, id: Address, record: Health)
      modifies this`health, this`healthUntil
      ensures State() == SetHealth(old(State()), id, record, env)
    {
      health := health[id := record];
      if id !in healthUntil {
        healthUntil := healthUntil[id := env.sequence + env.minTtl];
      }
    }

    method WriteAlerts(env: Env, id: Address, list: seq<Alert>)
      modifies this`alerts, this`alertsUntil
      ensures State() == SetAlerts(old(State()), id, list, env)
    {
      alerts := alerts[id := list];
      if id !in alertsUntil {
        alertsUntil := alertsUntil[id := env.sequence + env.minTtl];
      }
    }

    // ----- guards -----

    method RequireNotPaused(env: Env) returns (out: Outcome<()>)
      modifies this`instanceUntil
      ensures Meets(out, State(), EnsureNotPaused(old(State()), env))
    {
      BumpInstanceTtl(env);
      out := if paused then Panicked(ContractPaused) else Done(());
    }

    method CheckAdmin(caller: Address) returns (out: Outcome<()>)
      ensures out == RequireAdminOnly(State(), caller)
    {
      if admin.None? {
        out := Panicked(NotInitialized);
      } else if caller != admin.value {
        out := Panicked(NotAdmin);
      } else {
        out := Done(());
      }
    }

    /** The record of id, if the caller owns it or is the administrator. */
    method OwnRecord(caller: Address, id: Address) returns (out: Outcome<Health>)
      ensures out == OwnedRecord(State(), caller, id)
    {
      if id !in health {
        return Panicked(NotRegistered);
      }
      var record := health[id];
      if caller != record.owner {
        var _ :- CheckAdmin(caller);
      }
      out := Done(record);
    }

    // ----- registration -----

    method InitializeAdmin(env: Env, newAdmin: Address) returns (out: Outcome<()>)
      modifies this
      ensures Meets(out, State(), Initialize(old(State()), env, newAdmin))
    {
      if admin.Some? {
        return Panicked(AlreadyInitialized);
      }
      var _ :- RequireAuth(env, newAdmin);
      admin := Some(newAdmin);
      registry := [];
      BumpInstanceTtl(env);
      out := Done(());
    }

    method StoreOne(env: Env, caller: Address, r: Registration)
      modifies this
      ensures State() == StoreRegistration(old(State()), env, caller, r)
    {
      var record := Health(r.contractId, r.name, caller, Healthy, env.timestamp, r.checkInterval, env.timestamp);
      WriteHealth(env, r.contractId, record);
      WriteAlerts(env, r.contractId, []);
      registry := registry + [r.contractId];
      BumpInstanceTtl(env);
      BumpHealthTtl(env, r.contractId);
      BumpAlertsTtl(env, r.contractId);
    }

    method RegisterContract(env: Env, caller: Address, r: Registration) returns (out: Outcome<()>)
      modifies this
      ensures Meets(out, State(), Register(old(State()), env, caller, r))
    {
      var _ :- RequireNotPaused(env);
      var _ :- RequireAuth(env, caller);
      if admin.None? {
        return Panicked(NotInitialized);
      }
      if r.contractId in health {
        return Panicked(AlreadyRegistered);
      }
      StoreOne(env, caller, r);
      out := Done(());
    }

    /** The loop of the batch call, on a contract that accepts registrations. */
    method StoreBatch(env: Env, caller: Address, rs: seq<Registration>) returns (results: seq<BatchResult>)
      modifies this
      ensures (State(), results) == RegisterEach(old(State()), env, caller, rs)
    {
      results := [];
      var i := 0;
      while i < |rs|
        invariant i <= |rs|
        invariant (State(), results) == RegisterEach(old(State()), env, caller, rs[..i])
      {
        var r := rs[i];
        PrefixGrows(rs, i);
        i := i + 1;
        if r.checkInterval == 0 {
          results := results + [SkippedZeroInterval];
          continue;
        }
        if r.contractId in health {
          results := results + [SkippedRegistered];
          continue;
        }
        StoreOne(env, caller, r);
        results := results + [Success];
      }
      assert rs[..i] == rs;
    }

    method RegisterContractsBatch(env: Env, caller: Address, rs: seq<Registration>)
      returns (out: Outcome<seq<BatchResult>>)
      modifies this
      ensures match RegisterBatch(old(State()), env, caller, rs)
              case Done((s, results)) => out == Done(results) && State() == s
              case Panicked(reason) => out == Panicked(reason)
    {
      var _ :- RequireNotPaused(env);
      var _ :- RequireAuth(env, caller);
      if admin.None? {
        return Panicked(NotInitialized);
      }
      if |rs| > MAX_BATCH {
        return Panicked(BatchTooLarge);
      }
      var results := StoreBatch(env, caller, rs);
      out := Done(results);
    }

    /** Rebuild the registry without id. */
    method DropFromRegistry(id: Address)
      modifies this`registry
      ensures registry == Without(old(registry), id)
    {
      var updated: seq<Address> := [];
      var i := 0;
      while i < |registry|
        invariant i <= |registry| && registry == old(registry)
        invariant updated == Without(registry[..i], id)
      {
        PrefixGrows(registry, i);
        if registry[i] != id {
          updated := updated + [registry[i]];
        }
        i := i + 1;
      }
      assert registry[..i] == registry;
      registry := updated;
    }

    method DeregisterContract(env: Env, caller: Address, id: Address) returns (out: Outcome<()>)
      modifies this
      ensures Meets(out, State(), Deregister(old(State()), env, caller, id))
    {
      var _ :- RequireNotPaused(env);
      var _ :- RequireAuth(env, caller);
      var _ :- OwnRecord(caller, id);
      health, healthUntil := health - {id}, healthUntil - {id};
      alerts, alertsUntil := alerts - {id}, alertsUntil - {id};
      DropFromRegistry(id);
      BumpInstanceTtl(env);
      out := Done(());
    }

    // ----- reporting -----

    method PushStatus(env: Env, caller: Address, id: Address, status: HealthStatus) returns (out: Outcome<()>)
      modifies this
      ensures Meets(out, State(), ReportStatus(old(State()), env, caller, id, status))
    {
      var _ :- RequireNotPaused(env);
      var _ :- RequireAuth(env, caller);
      var record :- OwnRecord(caller, id);
      WriteHealth(env, id, record.(status := status, lastCheck := env.timestamp));
      BumpHealthTtl(env, id);
      BumpInstanceTtl(env);
      out := Done(());
    }

    /** Append, then drop from the front until at most the maximum is left. */
    method AppendAlert(list: seq<Alert>, alert: Alert) returns (kept: seq<Alert>)
      ensures kept == LastN(list + [alert], MAX_ALERTS)
    {
      kept := list + [alert];
      ghost var dropped := 0;
      while |kept| > MAX_ALERTS
        invariant dropped <= |list + [alert]| && kept == (list + [alert])[dropped..]
        invariant dropped > 0 ==> |kept| >= MAX_ALERTS
      {
        kept := kept[1..];
        dropped := dropped + 1;
      }
    }

    method PushAlert(env: Env, caller: Address, id: Address, severity: Severity, message: string)
      returns (out: Outcome<()>)
      modifies this
      ensures Meets(out, State(), ReportAlert(old(State()), env, caller, id, severity, message))
    {
      var _ :- RequireNotPaused(env);
      var _ :- RequireAuth(env, caller);
      var _ :- OwnRecord(caller, id);
      var list := if id in alerts then alerts[id] else [];
      list := AppendAlert(list, Alert(id, severity, message, env.timestamp));
      WriteAlerts(env, id, list);
      BumpAlertsTtl(env, id);
      BumpHealthTtl(env, id);
      BumpInstanceTtl(env);
      out := Done(());
    }

    // ----- admin -----

    method Pause(env: Env, caller: Address) returns (out: Outcome<()>)
      modifies this
      ensures Meets(out, State(), SetPaused(old(State()), env, caller, true))
    {
      var _ :- RequireAuth(env, caller);
      var _ :- CheckAdmin(caller);
      paused := true;
      BumpInstanceTtl(env);
      out := Done(());
    }

    method Unpause(env: Env, caller: Address) returns (out: Outcome<()>)
      modifies this
      ensures Meets(out, State(), SetPaused(old(State()), env, caller, false))
    {
      var _ :- RequireAuth(env, caller);
      var _ :- CheckAdmin(caller);
      paused := false;
      BumpInstanceTtl(env);
      out := Done(());
    }

    method Propose(env: Env, current: Address, nominee: Address) returns (out: Outcome<()>)
      modifies this
      ensures Meets(out, State(), ProposeAdmin(old(State()), env, current, nominee))
    {
      var _ :- RequireAuth(env, current);
      var _ :- CheckAdmin(current);
      if nominee == current {
        return Panicked(SameAdmin);
      }
      pending := Some(nominee);
      BumpInstanceTtl(env);
      out := Done(());
    }

    method Accept(env: Env, nominee: Address) returns (out: Outcome<()>)
      modifies this
      ensures Meets(out, State(), AcceptAdmin(old(State()), env, nominee))
    {
      var _ :- RequireAuth(env, nominee);
      if pending.None? {
        return Panicked(NothingProposed);
      }
      if nominee != pending.value {
        return Panicked(NotPending);
      }
      admin := pending;
      pending := None;
      BumpInstanceTtl(env);
      out := Done(());
    }

    method Cancel(env: Env, current: Address) returns (out: Outcome<()>)
      modifies this
      ensures Meets(out, State(), CancelProposal(old(State()), env, current))
    {
      var _ :- RequireAuth(env, current);
      var _ :- CheckAdmin(current);
      if pending.None? {
        return Panicked(NothingProposed);
      }
      pending := None;
      BumpInstanceTtl(env);
      out := Done(());
    }

    // ----- queries -----

    method ReadStatus(env: Env, id: Address) returns (out: Outcome<Health>)
      modifies this
      ensures match GetStatus(old(State()), env, id)
              case Done((s, record)) => out == Done(record) && State() == s
              case Panicked(reason) => out == Panicked(reason)
    {
      if id !in health {
        return Panicked(NotRegistered);
      }
      var record := health[id];
      BumpHealthTtl(env, id);
      BumpInstanceTtl(env);
      out := Done(record);
    }

    /** Collect the records of the listed ids, renewing each. */
    method Collect(env: Env, ids: seq<Address>) returns (out: seq<Health>)
      modifies this`healthUntil
      ensures State() == BumpEach(old(State()), env, ids)
      ensures out == Records(old(State()), ids)
    {
      out := [];
      var i := 0;
      while i < |ids|
        invariant i <= |ids|
        invariant State() == BumpEach(old(State()), env, ids[..i])
        invariant out == Records(old(State()), ids[..i])
      {
        PrefixGrows(ids, i);
        if ids[i] in health {
          out := out + [health[ids[i]]];
          BumpHealthTtl(env, ids[i]);
        }
        i := i + 1;
      }
      assert ids[..i] == ids;
    }

    method ReadPage(env: Env, start: nat, limit: nat) returns (page: seq<Health>, total: nat)
      modifies this
      ensures (State(), page, total) == GetMonitoredPage(old(State()), env, start, limit)
    {
      BumpInstanceTtl(env);
      total := |registry|;
      var end := Sum32(start, limit);
      if total < end {
        end := total;
      }
      var ids := if start < end then registry[start..end] else [];
      page := Collect(env, ids);
    }

    method ReadAll(env: Env) returns (out: seq<Health>)
      modifies this
      ensures (State(), out) == GetAllMonitored(old(State()), env)
    {
      BumpInstanceTtl(env);
      out := Collect(env, registry);
    }

    method ReadAlerts(env: Env, id: Address) returns (list: seq<Alert>)
      modifies this
      ensures (State(), list) == GetAlerts(old(State()), env, id)
    {
      BumpInstanceTtl(env);
      list := if id in alerts then alerts[id] else [];
      BumpAlertsTtl(env, id);
    }

    /** Walk back from the newest alert and stop at the first that is not newer. */
    method WalkBack(list: seq<Alert>, since: nat) returns (newer: seq<Alert>)
      ensures newer == NewerAlerts(list, since)
    {
      var firstNew: nat := |list|;
      while firstNew > 0 && list[firstNew - 1].timestamp > since
        invariant firstNew <= |list|
        invariant FirstNew(list, since, |list|) == FirstNew(list, since, firstNew)
      {
        firstNew := firstNew - 1;
      }
      newer := list[firstNew..];
    }

    method ReadAlertsSince(env: Env, id: Address, since: nat) returns (newer: seq<Alert>)
      modifies this
      ensures (State(), newer) == GetAlertsSince(old(State()), env, id, since)
    {
      var list := ReadAlerts(env, id);
      newer := WalkBack(list, since);
    }

    method ReadAdmin(env: Env) returns (out: Outcome<Address>)
      modifies this
      ensures match old(State()).instance.admin
              case Some(a) => out == Done(a) && State() == BumpInstance(old(State()), env)
              case None => out == Panicked(NotInitialized)
    {
      BumpInstanceTtl(env);
      out := if admin.Some? then Done(admin.value) else Panicked(NotInitialized);
    }

    // ----- the host -----

    method Restore(s: Storage)
      modifies this
      ensures State() == s
    {
      admin, registry, paused, pending := s.instance.admin, s.instance.registry, s.instance.paused, s.instance.pending;
      health, alerts := s.health, s.alerts;
      instanceUntil, healthUntil, alertsUntil := s.until.instance, s.until.health, s.until.alerts;
    }

    method RunWrite(env: Env, c: Call) returns (out: Outcome<()>)
      requires c.CallInitialize? || c.CallRegister? || c.CallBatch? || c.CallDeregister?
        || c.CallReportStatus? || c.CallReportAlert?
      modifies this
      ensures Meets(out, State(), Apply(old(State()), env, c))
    {
      match c
      case CallInitialize(a) => out := InitializeAdmin(env, a);
      case CallRegister(caller, r) => out := RegisterContract(env, caller, r);
      case CallBatch(caller, rs) =>
        var _ :- RegisterContractsBatch(env, caller, rs);
        out := Done(());
      case CallDeregister(caller, id) => out := DeregisterContract(env, caller, id);
      case CallReportStatus(caller, id, status) => out := PushStatus(env, caller, id, status);
      case CallReportAlert(caller, id, severity, message) => out := PushAlert(env, caller, id, severity, message);
    }

    method RunAdmin(env: Env, c: Call) returns (out: Outcome<()>)
      requires c.CallSetPaused? || c.CallPropose? || c.CallAccept? || c.CallCancel?
      modifies this
      ensures Meets(out, State(), Apply(old(State()), env, c))
    {
      match c
      case CallSetPaused(a, value) =>
        if value {
          out := Pause(env, a);
        } else {
          out := Unpause(env, a);
        }
      case CallPropose(current, nominee) => out := Propose(env, current, nominee);
      case CallAccept(nominee) => out := Accept(env, nominee);
      case CallCancel(current) => out := Cancel(env, current);
    }

    method RunQuery(env: Env, c: Call) returns (out: Outcome<()>)
      requires c.CallGetStatus? || c.CallGetPage? || c.CallGetAll? || c.CallGetAlerts? || c.CallGetAlertsSince?
               || c.CallReadAdmin? || c.CallReadInstance?
      modifies this
      ensures Meets(out, State(), Apply(old(State()), env, c))
    {
      out := Done(());
      match c
      case CallGetStatus(id) => var _ :- ReadStatus(env, id);
      case CallGetPage(start, limit) => var _, _ := ReadPage(env, start, limit);
      case CallGetAll => var _ := ReadAll(env);
      case CallGetAlerts(id) => var _ := ReadAlerts(env, id);
      case CallGetAlertsSince(id, since) => var _ := ReadAlertsSince(env, id, since);
      case CallReadAdmin => var _ :- ReadAdmin(env);
      case CallReadInstance => BumpInstanceTtl(env);
    }

    /** One transaction: run the entry point, and roll everything back if it panics. */
    method Invoke(env: Env, c: Call) returns (out: Outcome<()>)
      modifies this
      ensures State() == Step(old(State()), env, c)
      ensures out.Done? <==> Succeeds(old(State()), env, c)
    {
      var before := State();
      if c.CallSetPaused? || c.CallPropose? || c.CallAccept? || c.CallCancel? {
        out := RunAdmin(env, c);
      } else if c.CallInitialize? || c.CallRegister? || c.CallBatch? || c.CallDeregister?
        || c.CallReportStatus? || c.CallReportAlert? {
        out := RunWrite(env, c);
      } else {
        out := RunQuery(env, c);
      }
      if out.IsFailure() {
        Restore(before);
      }
    }
  }
}
