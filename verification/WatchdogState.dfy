/**
 The watchdog contract's storage and what each entry point does to it.

 A call either succeeds or panics; on a panic the host rolls everything back.
 The ledger's clock and sequence number, the set of accounts that authorised the
 call, and the network's minimum lifetime for a new entry are inputs. Lifetimes
 (TTLs) are kept as the last ledger on which an entry is live.
 */
module WatchdogState {
  import opened Wrappers

  type Address = string

  datatype HealthStatus = Healthy | Degraded | Unresponsive | Custom(text: string)

  datatype Severity = Info | Warning | Critical

  datatype Health = Health(
    contractId: Address, name: string, owner: Address, status: HealthStatus,
    lastCheck: nat, checkInterval: nat, registeredAt: nat)

  datatype Alert = Alert(contractId: Address, severity: Severity, message: string, timestamp: nat)

  datatype Registration = Registration(contractId: Address, name: string, checkInterval: nat)

  datatype BatchResult = Success | SkippedZeroInterval | SkippedRegistered

  datatype Env = Env(timestamp: nat, sequence: nat, minTtl: nat, signers: set<Address>)

  /** Everything in the contract's one instance entry. */
  datatype Instance = Instance(admin: Option<Address>, registry: seq<Address>, paused: bool, pending: Option<Address>)

  /** Last live ledger of the instance entry and of the persistent entries. */
  datatype Lifetimes = Lifetimes(instance: nat, health: map<Address, nat>, alerts: map<Address, nat>)

  datatype Storage = Storage(
    instance: Instance, health: map<Address, Health>, alerts: map<Address, seq<Alert>>, until: Lifetimes)

  datatype Panic =
    | ContractPaused | AlreadyInitialized | NotInitialized | NotAuthorized | AlreadyRegistered | NotRegistered
    | NotAdmin | BatchTooLarge | SameAdmin | NothingProposed | NotPending

  datatype Outcome<+T> = Done(value: T) | Panicked(reason: Panic) {
    predicate IsFailure() {
      Panicked?
    }

    function PropagateFailure<U>(): Outcome<U>
      requires Panicked?
    {
      Panicked(reason)
    }

    function Extract(): T
      requires Done?
    {
      value
    }
  }

  const MAX_ALERTS := 100
  const MAX_BATCH := 20
  const TTL_THRESHOLD: nat := 17_280
  const TTL_EXTEND_TO: nat := 518_400
  const U32: nat := 0x1_0000_0000

  // ----- lifetimes -----

  /** extend_ttl: renewed when fewer than the threshold's ledgers are left. */
  function Extend(until: nat, sequence: nat): nat {
    if until - sequence < TTL_THRESHOLD then sequence + TTL_EXTEND_TO else until
  }

  function BumpInstance(s: Storage, env: Env): Storage {
    s.(until := s.until.(instance := Extend(s.until.instance, env.sequence)))
  }

  function BumpEntry(lives: map<Address, nat>, key: Address, env: Env): map<Address, nat> {
    if key in lives then lives[key := Extend(lives[key], env.sequence)] else lives
  }

  function BumpHealth(s: Storage, key: Address, env: Env): Storage {
    s.(until := s.until.(health := BumpEntry(s.until.health, key, env)))
  }

  function BumpAlerts(s: Storage, key: Address, env: Env): Storage {
    s.(until := s.until.(alerts := BumpEntry(s.until.alerts, key, env)))
  }

  /** Writing an entry keeps its lifetime; a new entry gets the network's minimum. */
  function Written(lives: map<Address, nat>, key: Address, env: Env): map<Address, nat> {
    if key in lives then lives else lives[key := env.sequence + env.minTtl]
  }

  function SetHealth(s: Storage, key: Address, record: Health, env: Env): Storage {
    s.(health := s.health[key := record], until := s.until.(health := Written(s.until.health, key, env)))
  }

  function SetAlerts(s: Storage, key: Address, alerts: seq<Alert>, env: Env): Storage {
    s.(alerts := s.alerts[key := alerts], until := s.until.(alerts := Written(s.until.alerts, key, env)))
  }

  function RemoveHealth(s: Storage, key: Address): Storage {
    s.(health := s.health - {key}, until := s.until.(health := s.until.health - {key}))
  }

  function RemoveAlerts(s: Storage, key: Address): Storage {
    s.(alerts := s.alerts - {key}, until := s.until.(alerts := s.until.alerts - {key}))
  }

  // ----- guards -----

  function RequireAuth(env: Env, who: Address): Outcome<()> {
    if who in env.signers then Done(()) else Panicked(NotAuthorized)
  }

  function RequireAdminOnly(s: Storage, caller: Address): Outcome<()> {
    if s.instance.admin.None? then Panicked(NotInitialized)
    else if caller != s.instance.admin.value then Panicked(NotAdmin)
    else Done(())
  }

  function RequireInitialized(s: Storage): Outcome<()> {
    if s.instance.admin.None? then Panicked(NotInitialized) else Done(())
  }

  /** Reading the pause flag tops up the instance. */
  function EnsureNotPaused(s: Storage, env: Env): Outcome<Storage> {
    if s.instance.paused then Panicked(ContractPaused) else Done(BumpInstance(s, env))
  }

  function Record(s: Storage, id: Address): Outcome<Health> {
    if id in s.health then Done(s.health[id]) else Panicked(NotRegistered)
  }

  /** The record's owner, or else the admin. */
  function RequireOwnerOrAdmin(s: Storage, caller: Address, record: Health): Outcome<()> {
    if caller == record.owner then Done(()) else RequireAdminOnly(s, caller)
  }

  // ----- registration -----

  function Initialize(s: Storage, env: Env, admin: Address): Outcome<Storage> {
    if s.instance.admin.Some? then Panicked(AlreadyInitialized)
    else
      var _ :- RequireAuth(env, admin);
      Done(BumpInstance(s.(instance := s.instance.(admin := Some(admin), registry := [])), env))
  }

  function NewRecord(env: Env, owner: Address, r: Registration): Health {
    Health(r.contractId, r.name, owner, Healthy, env.timestamp, r.checkInterval, env.timestamp)
  }

  function StoreRegistration(s: Storage, env: Env, caller: Address, r: Registration): Storage {
    var s1 := SetHealth(s, r.contractId, NewRecord(env, caller, r), env);
    var s2 := SetAlerts(s1, r.contractId, [], env);
    var s3 := s2.(instance := s2.instance.(registry := s2.instance.registry + [r.contractId]));
    BumpAlerts(BumpHealth(BumpInstance(s3, env), r.contractId, env), r.contractId, env)
  }

  function Register(s: Storage, env: Env, caller: Address, r: Registration): Outcome<Storage> {
    var s1 :- EnsureNotPaused(s, env);
    var _ :- RequireAuth(env, caller);
    var _ :- RequireInitialized(s1);
    if r.contractId in s1.health then Panicked(AlreadyRegistered)
    else Done(StoreRegistration(s1, env, caller, r))
  }

  function BatchVerdict(s: Storage, r: Registration): BatchResult {
    if r.checkInterval == 0 then SkippedZeroInterval
    else if r.contractId in s.health then SkippedRegistered
    else Success
  }

  /** The batch's entries in order, each on the storage the earlier ones left. */
  function RegisterEach(s: Storage, env: Env, caller: Address, rs: seq<Registration>)
    : (out: (Storage, seq<BatchResult>))
    ensures |out.1| == |rs|
  {
    if rs == [] then (s, [])
    else
      var r := rs[|rs| - 1];
      var (s1, results) := RegisterEach(s, env, caller, rs[..|rs| - 1]);
      var verdict := BatchVerdict(s1, r);
      (if verdict == Success then StoreRegistration(s1, env, caller, r) else s1, results + [verdict])
  }

  function RegisterBatch(s: Storage, env: Env, caller: Address, rs: seq<Registration>)
    : Outcome<(Storage, seq<BatchResult>)>
  {
    var s1 :- EnsureNotPaused(s, env);
    var _ :- RequireAuth(env, caller);
    var _ :- RequireInitialized(s1);
    if |rs| > MAX_BATCH then Panicked(BatchTooLarge)
    else Done(RegisterEach(s1, env, caller, rs))
  }

  /** The entries other than id, in order. */
  function Without(entries: seq<Address>, id: Address): (r: seq<Address>)
    ensures forall a :: a in r <==> a in entries && a != id
  {
    if entries == [] then []
    else
      var rest, last := Without(entries[..|entries| - 1], id), entries[|entries| - 1];
      if last != id then rest + [last] else rest
  }

  function RemoveContract(s: Storage, id: Address): Storage {
    RemoveAlerts(RemoveHealth(s, id), id).(instance := s.instance.(registry := Without(s.instance.registry, id)))
  }

  function Deregister(s: Storage, env: Env, caller: Address, id: Address): Outcome<Storage> {
    var s1 :- EnsureNotPaused(s, env);
    var _ :- RequireAuth(env, caller);
    var record :- Record(s1, id);
    var _ :- RequireOwnerOrAdmin(s1, caller, record);
    Done(BumpInstance(RemoveContract(s1, id), env))
  }

  // ----- reporting -----

  function ReportStatus(s: Storage, env: Env, caller: Address, id: Address, status: HealthStatus): Outcome<Storage> {
    var s1 :- EnsureNotPaused(s, env);
    var _ :- RequireAuth(env, caller);
    var record :- Record(s1, id);
    var _ :- RequireOwnerOrAdmin(s1, caller, record);
    var s2 := SetHealth(s1, id, record.(status := status, lastCheck := env.timestamp), env);
    Done(BumpInstance(BumpHealth(s2, id, env), env))
  }

  /** The last n elements. */
  function LastN<T>(xs: seq<T>, n: nat): seq<T> {
    if |xs| > n then xs[|xs| - n..] else xs
  }

  function StoredAlerts(s: Storage, id: Address): seq<Alert> {
    if id in s.alerts then s.alerts[id] else []
  }

  function ReportAlert(s: Storage, env: Env, caller: Address, id: Address, severity: Severity, message: string)
    : Outcome<Storage>
  {
    var s1 :- EnsureNotPaused(s, env);
    var _ :- RequireAuth(env, caller);
    var record :- Record(s1, id);
    var _ :- RequireOwnerOrAdmin(s1, caller, record);
    var alerts := LastN(StoredAlerts(s1, id) + [Alert(id, severity, message, env.timestamp)], MAX_ALERTS);
    Done(BumpInstance(BumpHealth(BumpAlerts(SetAlerts(s1, id, alerts, env), id, env), id, env), env))
  }

  // ----- admin -----

  function SetPaused(s: Storage, env: Env, admin: Address, paused: bool): Outcome<Storage> {
    var _ :- RequireAuth(env, admin);
    var _ :- RequireAdminOnly(s, admin);
    Done(BumpInstance(s.(instance := s.instance.(paused := paused)), env))
  }

  function ProposeAdmin(s: Storage, env: Env, current: Address, nominee: Address): Outcome<Storage> {
    var _ :- RequireAuth(env, current);
    var _ :- RequireAdminOnly(s, current);
    if nominee == current then Panicked(SameAdmin)
    else Done(BumpInstance(s.(instance := s.instance.(pending := Some(nominee))), env))
  }

  function AcceptAdmin(s: Storage, env: Env, nominee: Address): Outcome<Storage> {
    var _ :- RequireAuth(env, nominee);
    if s.instance.pending.None? then Panicked(NothingProposed)
    else if nominee != s.instance.pending.value then Panicked(NotPending)
    else Done(BumpInstance(s.(instance := s.instance.(admin := s.instance.pending, pending := None)), env))
  }

  function CancelProposal(s: Storage, env: Env, current: Address): Outcome<Storage> {
    var _ :- RequireAuth(env, current);
    var _ :- RequireAdminOnly(s, current);
    if s.instance.pending.None? then Panicked(NothingProposed)
    else Done(BumpInstance(s.(instance := s.instance.(pending := None)), env))
  }

  // ----- queries: a value, and lifetimes topped up -----

  function GetStatus(s: Storage, env: Env, id: Address): Outcome<(Storage, Health)> {
    var record :- Record(s, id);
    Done((BumpInstance(BumpHealth(s, id, env), env), record))
  }

  /** The records of the listed ids that exist, in order. */
  function Records(s: Storage, ids: seq<Address>): seq<Health> {
    if ids == [] then []
    else
      var rest, last := Records(s, ids[..|ids| - 1]), ids[|ids| - 1];
      if last in s.health then rest + [s.health[last]] else rest
  }

  function BumpEach(s: Storage, env: Env, ids: seq<Address>): Storage {
    if ids == [] then s
    else
      var before, last := BumpEach(s, env, ids[..|ids| - 1]), ids[|ids| - 1];
      if last in s.health then BumpHealth(before, last, env) else before
  }

  function GetAllMonitored(s: Storage, env: Env): (Storage, seq<Health>) {
    var s1 := BumpInstance(s, env);
    (BumpEach(s1, env, s1.instance.registry), Records(s1, s1.instance.registry))
  }

  /** The sum of two 32-bit numbers: without overflow checks it wraps around. */
  function Sum32(a: nat, b: nat): nat {
    if a + b < U32 then a + b else a + b - U32
  }

  function PageEnd(start: nat, limit: nat, total: nat): nat {
    var end := Sum32(start, limit);
    if end < total then end else total
  }

  function PageIds(registry: seq<Address>, start: nat, limit: nat): seq<Address> {
    var end := PageEnd(start, limit, |registry|);
    if start < end then registry[start..end] else []
  }

  function GetMonitoredPage(s: Storage, env: Env, start: nat, limit: nat): (Storage, seq<Health>, nat) {
    var s1 := BumpInstance(s, env);
    var ids := PageIds(s1.instance.registry, start, limit);
    (BumpEach(s1, env, ids), Records(s1, ids), |s1.instance.registry|)
  }

  function GetAlerts(s: Storage, env: Env, id: Address): (Storage, seq<Alert>) {
    (BumpAlerts(BumpInstance(s, env), id, env), StoredAlerts(s, id))
  }

  /** Where the longest run of newer alerts at the end starts. */
  function FirstNew(alerts: seq<Alert>, since: nat, n: nat): (k: nat)
    requires n <= |alerts|
    ensures k <= n
    ensures forall i :: k <= i < n ==> alerts[i].timestamp > since
    ensures k > 0 ==> alerts[k - 1].timestamp <= since
  {
    if n > 0 && alerts[n - 1].timestamp > since then FirstNew(alerts, since, n - 1) else n
  }

  function NewerAlerts(alerts: seq<Alert>, since: nat): seq<Alert> {
    alerts[FirstNew(alerts, since, |alerts|)..]
  }

  function GetAlertsSince(s: Storage, env: Env, id: Address, since: nat): (Storage, seq<Alert>) {
    (BumpAlerts(BumpInstance(s, env), id, env), NewerAlerts(StoredAlerts(s, id), since))
  }

  // ----- calls -----

  datatype Call =
    | CallInitialize(admin: Address)
    | CallRegister(caller: Address, registration: Registration)
    | CallBatch(caller: Address, registrations: seq<Registration>)
    | CallDeregister(caller: Address, id: Address)
    | CallReportStatus(caller: Address, id: Address, status: HealthStatus)
    | CallReportAlert(caller: Address, id: Address, severity: Severity, message: string)
    | CallSetPaused(admin: Address, paused: bool)
    | CallPropose(current: Address, nominee: Address)
    | CallAccept(nominee: Address)
    | CallCancel(current: Address)
    | CallGetStatus(id: Address)
    | CallGetPage(start: nat, limit: nat)
    | CallGetAll
    | CallGetAlerts(id: Address)
    | CallGetAlertsSince(id: Address, since: nat)
    | CallReadAdmin
    | CallReadInstance

  /** The storage a call leaves, or its panic. CallReadInstance stands for is_paused, pending_admin and the count. */
  function Apply(s: Storage, env: Env, c: Call): Outcome<Storage> {
    match c
    case CallInitialize(admin) => Initialize(s, env, admin)
    case CallRegister(caller, r) => Register(s, env, caller, r)
    case CallBatch(caller, rs) => (var out :- RegisterBatch(s, env, caller, rs); Done(out.0))
    case CallDeregister(caller, id) => Deregister(s, env, caller, id)
    case CallReportStatus(caller, id, status) => ReportStatus(s, env, caller, id, status)
    case CallReportAlert(caller, id, severity, message) => ReportAlert(s, env, caller, id, severity, message)
    case CallSetPaused(admin, paused) => SetPaused(s, env, admin, paused)
    case CallPropose(current, nominee) => ProposeAdmin(s, env, current, nominee)
    case CallAccept(nominee) => AcceptAdmin(s, env, nominee)
    case CallCancel(current) => CancelProposal(s, env, current)
    case CallGetStatus(id) => (var out :- GetStatus(s, env, id); Done(out.0))
    case CallGetPage(start, limit) => Done(GetMonitoredPage(s, env, start, limit).0)
    case CallGetAll => Done(GetAllMonitored(s, env).0)
    case CallGetAlerts(id) => Done(GetAlerts(s, env, id).0)
    case CallGetAlertsSince(id, since) => Done(GetAlertsSince(s, env, id, since).0)
    case CallReadAdmin => (var _ :- RequireInitialized(s); Done(BumpInstance(s, env)))
    case CallReadInstance => Done(BumpInstance(s, env))
  }

  predicate Succeeds(s: Storage, env: Env, c: Call) {
    Apply(s, env, c).Done?
  }

  /** A panic leaves the storage as it was. */
  function Step(s: Storage, env: Env, c: Call): Storage {
    var out := Apply(s, env, c);
    if out.Done? then out.value else s
  }
}
