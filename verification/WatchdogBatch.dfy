/** Batch registration against single registrations, and paging against the whole list. */
module WatchdogBatch {
  import opened WatchdogState
  import opened WatchdogInvariant

  function Ids(rs: seq<Registration>): set<Address> {
    set r | r in rs :: r.contractId
  }

  /** The entries a batch lets in: positive interval, not registered before, and not let in earlier. */
  function Admitted(registered: set<Address>, rs: seq<Registration>): seq<Registration> {
    if rs == [] then []
    else
      var before, r := Admitted(registered, rs[..|rs| - 1]), rs[|rs| - 1];
      if r.checkInterval > 0 && r.contractId !in registered && r.contractId !in Ids(before)
        then before + [r] else before
  }

  /** One call to register_contract for each entry, in order; the first panic ends it. */
  function RegisterInTurn(s: Storage, env: Env, caller: Address, rs: seq<Registration>): Outcome<Storage> {
    if rs == [] then Done(s)
    else
      var before :- RegisterInTurn(s, env, caller, rs[..|rs| - 1]);
      Register(before, env, caller, rs[|rs| - 1])
  }

  function Successes(results: seq<BatchResult>): nat {
    if results == [] then 0
    else Successes(results[..|results| - 1]) + (if results[|results| - 1] == Success then 1 else 0)
  }

  /** A batch registers, besides what was there, exactly the admitted ids. */
  lemma {:induction false} BatchHealth(s: Storage, env: Env, caller: Address, rs: seq<Registration>)
    ensures var (t, _) := RegisterEach(s, env, caller, rs);
      && t.health.Keys == s.health.Keys + Ids(Admitted(s.health.Keys, rs))
      && t.instance == s.instance.(registry := t.instance.registry)
  {
    if rs != [] {
      var before, r := rs[..|rs| - 1], rs[|rs| - 1];
      BatchHealth(s, env, caller, before);
      var s1 := RegisterEach(s, env, caller, before).0;
      if BatchVerdict(s1, r) == Success {
        StoredData(s1, env, caller, r);
      }
    }
  }

  predicate MayRegister(s: Storage, env: Env, caller: Address) {
    !s.instance.paused && s.instance.admin.Some? && caller in env.signers
  }

  /** Register the admitted entries one call at a time and top up the instance: that is what the batch leaves. */
  lemma {:induction false} EachRefinesSingles(s: Storage, env: Env, caller: Address, rs: seq<Registration>)
    requires MayRegister(s, env, caller)
    ensures var singles := RegisterInTurn(s, env, caller, Admitted(s.health.Keys, rs));
      && singles.Done?
      && BumpInstance(singles.value, env) == RegisterEach(BumpInstance(s, env), env, caller, rs).0
      && MayRegister(singles.value, env, caller)
  {
    var s1 := BumpInstance(s, env);
    if rs != [] {
      var before, r := rs[..|rs| - 1], rs[|rs| - 1];
      EachRefinesSingles(s, env, caller, before);
      BatchHealth(s1, env, caller, before);
      var admitted := Admitted(s.health.Keys, before);
      var b := RegisterEach(s1, env, caller, before).0;
      var single := RegisterInTurn(s, env, caller, admitted).value;
      if BatchVerdict(b, r) == Success {
        assert (admitted + [r])[..|admitted|] == admitted;
        StoredData(b, env, caller, r);
      }
    }
  }

  /**
   A batch leaves what calling register_contract in order would, on just the entries
   with a positive interval that are neither registered nor let in earlier.
   */
  lemma BatchRefinesSingles(s: Storage, env: Env, caller: Address, rs: seq<Registration>)
    requires RegisterBatch(s, env, caller, rs).Done?
    ensures var singles := RegisterInTurn(s, env, caller, Admitted(s.health.Keys, rs));
      singles.Done? && BumpInstance(singles.value, env) == RegisterBatch(s, env, caller, rs).value.0
  {
    EachRefinesSingles(s, env, caller, rs);
  }

  /** Results align by index: an entry succeeds exactly when it is admitted after the ones before it. */
  lemma {:induction false} ResultsAlign(s: Storage, env: Env, caller: Address, rs: seq<Registration>, i: nat)
    requires i < |rs|
    ensures RegisterEach(s, env, caller, rs).1[i] ==
      if rs[i].checkInterval == 0 then SkippedZeroInterval
      else if rs[i].contractId in s.health.Keys + Ids(Admitted(s.health.Keys, rs[..i])) then SkippedRegistered
      else Success
  {
    var n := |rs| - 1;
    if i == n {
      BatchHealth(s, env, caller, rs[..n]);
    } else {
      ResultsAlign(s, env, caller, rs[..n], i);
      assert rs[..n][..i] == rs[..i];
    }
  }

  /** As many successes as the registry grew by. */
  lemma {:induction false} SuccessesAreGrowth(s: Storage, env: Env, caller: Address, rs: seq<Registration>)
    ensures var (t, results) := RegisterEach(s, env, caller, rs);
      |t.instance.registry| == |s.instance.registry| + Successes(results)
  {
    if rs != [] {
      var before, r := rs[..|rs| - 1], rs[|rs| - 1];
      SuccessesAreGrowth(s, env, caller, before);
      var (s1, results) := RegisterEach(s, env, caller, before);
      StoredData(s1, env, caller, r);
      assert (results + [BatchVerdict(s1, r)])[..|results|] == results;
    }
  }

  // ----- listing -----

  /** Every listed id that has a record yields it, in order. */
  lemma {:induction false} RecordsComplete(s: Storage, ids: seq<Address>)
    requires forall a :: a in ids ==> a in s.health
    ensures |Records(s, ids)| == |ids|
    ensures forall k :: 0 <= k < |ids| ==> Records(s, ids)[k] == s.health[ids[k]]
  {
    if ids != [] {
      var before := ids[..|ids| - 1];
      RecordsComplete(s, before);
    }
  }

  function PlainEnd(start: nat, limit: nat, total: nat): nat {
    if start + limit < total then start + limit else total
  }

  /**
   A page that starts inside the registry is the slice it should be exactly when
   start + limit fits in 32 bits; otherwise the sum wraps and the page is empty.
   */
  lemma PageExact(registry: seq<Address>, start: nat, limit: nat)
    requires start < |registry| < U32 && limit < U32
    ensures PageIds(registry, start, limit) == registry[start..PlainEnd(start, limit, |registry|)]
      <==> start + limit < U32
    ensures start + limit >= U32 ==> PageIds(registry, start, limit) == []
  {
    if start + limit >= U32 {
      assert PlainEnd(start, limit, |registry|) == |registry|;
    }
  }

  /** Where the last of successive pages starts. */
  function LastStart(total: nat, start: nat, limit: nat): (last: nat)
    requires start < total && limit > 0
    ensures start <= last < total <= last + limit
    decreases total - start
  {
    if start + limit >= total then start else LastStart(total, start + limit, limit)
  }

  /** How far the pages reach: to the end, unless the last page's end wraps around on 32 bits. */
  function Reached(total: nat, start: nat, limit: nat): (end: nat)
    requires start < total && limit > 0
    ensures start <= end <= total
    ensures end == total <==> LastStart(total, start, limit) + limit < U32
  {
    var last := LastStart(total, start, limit);
    if last + limit < U32 then total else last
  }

  // ----- the entry point, page after page -----

  lemma PageKeepsData(s: Storage, env: Env, start: nat, limit: nat)
    ensures SameData(s, GetMonitoredPage(s, env, start, limit).0)
  {
    var s1 := BumpInstance(s, env);
    BumpEachSameData(s1, env, PageIds(s1.instance.registry, start, limit));
  }

  /** The records a caller collects page by page from start on, each call made on what the last one left. */
  function PageByPage(s: Storage, envs: nat -> Env, start: nat, limit: nat): seq<Health>
    requires limit > 0
    decreases |s.instance.registry| - start
  {
    if start >= |s.instance.registry| then []
    else
      PageKeepsData(s, envs(start), start, limit);
      var (t, page, _) := GetMonitoredPage(s, envs(start), start, limit);
      page + PageByPage(t, envs, start + limit, limit)
  }

  predicate Registered(health: map<Address, Health>, ids: seq<Address>) {
    forall i :: 0 <= i < |ids| ==> ids[i] in health
  }

  /** The records of registered ids. */
  function HealthOf(health: map<Address, Health>, ids: seq<Address>): seq<Health>
    requires Registered(health, ids)
  {
    seq(|ids|, i requires 0 <= i < |ids| => health[ids[i]])
  }

  lemma RecordsOfRegistered(s: Storage, ids: seq<Address>)
    requires Registered(s.health, ids)
    ensures Records(s, ids) == HealthOf(s.health, ids)
  {
    RecordsComplete(s, ids);
  }

  /** One page, and the storage the next ones are read from. */
  lemma OnePage(s: Storage, env: Env, start: nat, limit: nat) returns (t: Storage, page: seq<Health>)
    requires Registered(s.health, s.instance.registry) && 0 < limit < U32 && start < |s.instance.registry| < U32
    ensures var registry := s.instance.registry;
      && GetMonitoredPage(s, env, start, limit) == (t, page, |registry|)
      && t.health == s.health && t.instance == s.instance
      && page ==
        if start + limit < U32 then HealthOf(s.health, registry[start..PlainEnd(start, limit, |registry|)]) else []
  {
    var s1, ids := BumpInstance(s, env), PageIds(s.instance.registry, start, limit);
    PageExact(s.instance.registry, start, limit);
    PageKeepsData(s, env, start, limit);
    t, page := GetMonitoredPage(s, env, start, limit).0, GetMonitoredPage(s, env, start, limit).1;
    RecordsOfRegistered(s1, ids);
  }

  lemma ReachedOnward(total: nat, start: nat, limit: nat)
    requires limit > 0 && start + limit < total
    ensures Reached(total, start, limit) == Reached(total, start + limit, limit)
  {
  }

  /** The records of the registry's ids from one position to another. */
  function Slice(s: Storage, from: nat, to: nat): seq<Health>
    requires Registered(s.health, s.instance.registry) && from <= to <= |s.instance.registry|
  {
    HealthOf(s.health, s.instance.registry[from..to])
  }

  lemma JoinSlices(s: Storage, t: Storage, i: nat, j: nat, k: nat)
    requires Registered(s.health, s.instance.registry) && i <= j <= k <= |s.instance.registry|
    requires t.health == s.health && t.instance == s.instance
    ensures Slice(s, i, j) + Slice(t, j, k) == Slice(s, i, k)
  {
  }

  lemma {:induction false} PageByPageReaches(s: Storage, envs: nat -> Env, start: nat, limit: nat, end: nat)
    requires Registered(s.health, s.instance.registry) && 0 < limit < U32 && start < |s.instance.registry| < U32
    requires end == Reached(|s.instance.registry|, start, limit)
    ensures PageByPage(s, envs, start, limit) == Slice(s, start, end)
    decreases |s.instance.registry| - start
  {
    if start + limit < |s.instance.registry| {
      var t := FullPage(s, envs, start, limit);
      ReachedOnward(|s.instance.registry|, start, limit);
      PageByPageReaches(t, envs, start + limit, limit, end);
      JoinSlices(s, t, start, start + limit, end);
    } else {
      LastPage(s, envs, start, limit);
    }
  }

  lemma FullPage(s: Storage, envs: nat -> Env, start: nat, limit: nat) returns (t: Storage)
    requires Registered(s.health, s.instance.registry) && 0 < limit && start + limit < |s.instance.registry| < U32
    ensures t.health == s.health && t.instance == s.instance
    ensures PageByPage(s, envs, start, limit)
      == Slice(s, start, start + limit) + PageByPage(t, envs, start + limit, limit)
  {
    var page;
    t, page := OnePage(s, envs(start), start, limit);
  }

  lemma LastPage(s: Storage, envs: nat -> Env, start: nat, limit: nat)
    requires Registered(s.health, s.instance.registry) && 0 < limit < U32
    requires start < |s.instance.registry| < U32 && |s.instance.registry| <= start + limit
    ensures var registry := s.instance.registry;
      PageByPage(s, envs, start, limit) == HealthOf(s.health, registry[start..Reached(|registry|, start, limit)])
  {
    var t, page := OnePage(s, envs(start), start, limit);
    assert PageByPage(t, envs, start + limit, limit) == [];
  }

  /**
   In every reachable storage, successive pages from the start put together are what get_all_monitored
   returns, if and only if the last page's start + limit fits in 32 bits.
   */
  lemma PagesCoverRegistry(s: Storage, envs: nat -> Env, env: Env, limit: nat)
    requires RegistryOk(s) && 0 < limit < U32 && 0 < |s.instance.registry| < U32
    ensures PageByPage(s, envs, 0, limit) == GetAllMonitored(s, env).1
      <==> LastStart(|s.instance.registry|, 0, limit) + limit < U32
  {
    var registry := s.instance.registry;
    var end := Reached(|registry|, 0, limit);
    assert Registered(s.health, registry);
    PageByPageReaches(s, envs, 0, limit, end);
    RecordsOfRegistered(BumpInstance(s, env), registry);
    assert |HealthOf(s.health, registry[0..end])| == end;
    if end == |registry| {
      assert registry[0..end] == registry;
    }
  }

  lemma {:induction false} LaterStartIsFar(total: nat, start: nat, limit: nat)
    requires start < total && limit > 0
    ensures LastStart(total, start, limit) == start || LastStart(total, start, limit) >= start + limit
    decreases total - start
  {
    if start + limit < total {
      LaterStartIsFar(total, start + limit, limit);
    }
  }

  /** So every registry of at most 2^31 ids is collected, whatever the page size. */
  lemma SmallRegistryIsCovered(s: Storage, envs: nat -> Env, env: Env, limit: nat)
    requires RegistryOk(s) && 0 < limit < U32 && |s.instance.registry| <= 0x8000_0000
    ensures PageByPage(s, envs, 0, limit) == GetAllMonitored(s, env).1
  {
    if s.instance.registry != [] {
      LaterStartIsFar(|s.instance.registry|, 0, limit);
      PagesCoverRegistry(s, envs, env, limit);
    }
  }

  /** A storage with two ids, registered in turn on a newly initialized contract. */
  function TwoRegistered(until: nat, env: Env, admin: Address): Storage {
    var s := Step(Deployed(until), env, CallInitialize(admin));
    var t := Step(s, env, CallRegister(admin, Registration("x", "first", 60)));
    Step(t, env, CallRegister(admin, Registration("y", "second", 60)))
  }

  /** On two registered ids, the largest page from the second one on is empty; one smaller, it has that record. */
  lemma LargestPageIsEmpty(until: nat, env: Env, admin: Address)
    requires admin in env.signers
    ensures var s := TwoRegistered(until, env, admin);
      && s.instance.registry == ["x", "y"] && "y" in s.health
      && GetMonitoredPage(s, env, 1, U32 - 1).1 == []
      && GetMonitoredPage(s, env, 1, U32 - 2).1 == [s.health["y"]]
  {
    var s := TwoRegistered(until, env, admin);
    assert PageIds(s.instance.registry, 1, U32 - 1) == [];
    assert PageIds(s.instance.registry, 1, U32 - 2) == ["y"];
    RecordsOfRegistered(BumpInstance(s, env), ["y"]);
  }

  // ----- single registration -----

  /**
   register_contract asks for an unpaused, initialized contract, the caller's signature and
   a new id; for nothing else.
   */
  lemma RegisterSucceeds(s: Storage, env: Env, caller: Address, r: Registration)
    ensures Succeeds(s, env, CallRegister(caller, r)) <==> MayRegister(s, env, caller) && r.contractId !in s.health
    ensures Succeeds(s, env, CallRegister(caller, r)) ==>
      var t := Step(s, env, CallRegister(caller, r));
      r.contractId in t.health && t.health[r.contractId].owner == caller
  {
    StoredData(BumpInstance(s, env), env, caller, r);
  }

  /**
   Where the single call succeeds, a batch of that one entry leaves the same storage
   exactly if the interval is positive.
   */
  lemma BatchOfOne(s: Storage, env: Env, caller: Address, r: Registration)
    requires Succeeds(s, env, CallRegister(caller, r))
    ensures var batch := RegisterBatch(s, env, caller, [r]);
      && batch.Done?
      && (batch.value.0 == Step(s, env, CallRegister(caller, r)) <==> r.checkInterval > 0)
      && batch.value.1 == [if r.checkInterval > 0 then Success else SkippedZeroInterval]
  {
    var s1 := BumpInstance(s, env);
    assert [r][..0] == [];
    assert RegisterEach(s1, env, caller, []) == (s1, []);
    StoredData(s1, env, caller, r);
  }

  /** A zero interval, registered alone on a newly initialized contract. */
  lemma ZeroIntervalRegisters(until: nat, env: Env, admin: Address, id: Address)
    requires admin in env.signers
    ensures var s := Step(Deployed(until), env, CallInitialize(admin));
      var r := Registration(id, "name", 0);
      && Succeeds(s, env, CallRegister(admin, r))
      && Step(s, env, CallRegister(admin, r)).instance.registry == [id]
      && RegisterBatch(s, env, admin, [r]).Done?
      && RegisterBatch(s, env, admin, [r]).value.0.instance.registry == []
  {
    var s := Step(Deployed(until), env, CallInitialize(admin));
    var r := Registration(id, "name", 0);
    assert [r][..0] == [];
    assert RegisterEach(BumpInstance(s, env), env, admin, []) == (BumpInstance(s, env), []);
  }
}
