/** Over whole runs: who may become the administrator, and what a pause protects. */
module WatchdogAdmin {
  import opened WatchdogState
  import opened WatchdogInvariant
  import opened WatchdogHistory
  import opened Wrappers

  predicate IsRegistration(c: Call) {
    c.CallRegister? || c.CallBatch?
  }

  /** A successful accept, propose, cancel or initialize. */
  predicate TouchesNomination(s: Storage, e: Event) {
    Succeeds(s, e.env, e.call) &&
      (e.call.CallInitialize? || e.call.CallPropose? || e.call.CallAccept? || e.call.CallCancel?)
  }

  predicate SameAdminState(i: Instance, j: Instance) {
    i.admin == j.admin && i.pending == j.pending
  }

  lemma {:induction false} RegisterEachAdminState(s: Storage, env: Env, caller: Address, rs: seq<Registration>)
    ensures var t := RegisterEach(s, env, caller, rs).0.instance;
      SameAdminState(s.instance, t) && t.paused == s.instance.paused
  {
    if rs != [] {
      RegisterEachAdminState(s, env, caller, rs[..|rs| - 1]);
    }
  }

  lemma RegistrationAdminState(s: Storage, e: Event)
    requires IsRegistration(e.call)
    ensures SameAdminState(s.instance, Step(s, e.env, e.call).instance)
  {
    if e.call.CallBatch? {
      RegisterEachAdminState(BumpInstance(s, e.env), e.env, e.call.caller, e.call.registrations);
    }
  }

  /** Only those four calls touch the administrator or the nominee. */
  lemma Untouched(s: Storage, e: Event)
    requires !TouchesNomination(s, e)
    ensures SameAdminState(s.instance, Step(s, e.env, e.call).instance)
  {
    if IsQuery(e.call) {
      QueryKeepsData(s, e.env, e.call);
    } else if IsRegistration(e.call) {
      RegistrationAdminState(s, e);
    }
  }

  /** The call is a's own successful nomination of b, made while a is administrator. */
  predicate Nominates(s: Storage, e: Event, a: Address, b: Address) {
    s.instance.admin == Some(a) && e.call == CallPropose(a, b) && a in e.env.signers && Succeeds(s, e.env, e.call)
  }

  /**
   A nomination standing after k calls: call j is a's own nomination of b, no later call
   touched it, and a has been administrator ever since.
   */
  predicate Nominated(until: nat, run: seq<Event>, j: nat, k: nat, a: Address, b: Address)
    requires k <= |run|
    decreases k
  {
    && j < k && After(until, run, k).instance.admin == Some(a)
    && if j + 1 == k then Nominates(After(until, run, j), run[j], a, b)
       else Nominated(until, run, j, k - 1, a, b) && !TouchesNomination(After(until, run, k - 1), run[k - 1])
  }

  lemma NominationLasts(until: nat, run: seq<Event>, j: nat, k: nat, a: Address, b: Address)
    requires k < |run| && Nominated(until, run, j, k, a, b)
    requires !TouchesNomination(After(until, run, k), run[k])
    ensures Nominated(until, run, j, k + 1, a, b)
  {
    Untouched(After(until, run, k), run[k]);
  }

  /** Whatever is pending after k calls was nominated by the administrator of that moment. */
  lemma {:induction false} PendingWasNominated(until: nat, run: seq<Event>, k: nat) returns (j: nat)
    requires ClockOrder(run) && k <= |run| && After(until, run, k).instance.pending.Some?
    ensures var i := After(until, run, k).instance;
      i.admin.Some? && i.pending != i.admin && Nominated(until, run, j, k, i.admin.value, i.pending.value)
  {
    j := 0;
    if k > 0 {
      var s, e := After(until, run, k - 1), run[k - 1];
      ReachableConsistent(until, run, k - 1, e.env.timestamp);
      PendingComesFrom(s, e);
      if TouchesNomination(s, e) {
        j := k - 1;
      } else {
        j := PendingWasNominated(until, run, k - 1);
        NominationLasts(until, run, j, k - 1, s.instance.admin.value, s.instance.pending.value);
      }
    }
  }

  /** What is pending after a call was proposed by that call or pending before, under the same administrator. */
  lemma PendingComesFrom(s: Storage, e: Event)
    requires AdminOk(s.instance) && Step(s, e.env, e.call).instance.pending.Some?
    ensures if TouchesNomination(s, e) then e.call.CallPropose? && PendingIs(s, e)
            else SameAdminState(s.instance, Step(s, e.env, e.call).instance)
  {
    if !TouchesNomination(s, e) {
      Untouched(s, e);
    }
  }

  predicate PendingIs(s: Storage, e: Event)
    requires e.call.CallPropose?
  {
    var t := Step(s, e.env, e.call).instance;
    t.admin == Some(e.call.current) && t.pending == Some(e.call.nominee)
  }

  /**
   The administrator changes from a to b only when b, who signed, accepts a nomination
   that a itself made while administrator and that nothing has touched since.
   */
  lemma AdminChangesByHandOff(until: nat, run: seq<Event>, k: nat, a: Address) returns (j: nat)
    requires ClockOrder(run) && k < |run|
    requires After(until, run, k).instance.admin == Some(a) && After(until, run, k + 1).instance.admin != Some(a)
    ensures run[k].call.CallAccept? && run[k].call.nominee in run[k].env.signers
    ensures var b := run[k].call.nominee;
      && b != a && After(until, run, k + 1).instance.admin == Some(b)
      && Nominated(until, run, j, k, a, b)
  {
    var s, e := After(until, run, k), run[k];
    ReachableConsistent(until, run, k, e.env.timestamp);
    if TouchesNomination(s, e) {
      j := PendingWasNominated(until, run, k);
    } else {
      Untouched(s, e);
    }
  }

  /** A standing nomination can always be accepted by its nominee: nobody else is needed. */
  lemma NomineeCanAccept(until: nat, run: seq<Event>, j: nat, k: nat, a: Address, b: Address, env: Env)
    requires k <= |run| && Nominated(until, run, j, k, a, b) && b in env.signers
    ensures var s := After(until, run, k);
      Succeeds(s, env, CallAccept(b)) && Step(s, env, CallAccept(b)).instance.admin == Some(b)
  {
    NominationStands(until, run, j, k, a, b);
  }

  lemma {:induction false} NominationStands(until: nat, run: seq<Event>, j: nat, k: nat, a: Address, b: Address)
    requires k <= |run| && Nominated(until, run, j, k, a, b)
    ensures After(until, run, k).instance.pending == Some(b)
    decreases k
  {
    if j + 1 < k {
      NominationStands(until, run, j, k - 1, a, b);
      Untouched(After(until, run, k - 1), run[k - 1]);
    }
  }

  // ----- the pause -----

  /** What a pause protects. */
  predicate SameBooks(s: Storage, t: Storage) {
    s.instance.registry == t.instance.registry && s.health == t.health && s.alerts == t.alerts
  }

  lemma PausedCall(s: Storage, e: Event)
    requires s.instance.paused && RegistryOk(s) && AdminOk(s.instance)
    ensures SameBooks(s, Step(s, e.env, e.call))
  {
    if IsQuery(e.call) {
      QueryKeepsData(s, e.env, e.call);
    }
  }

  /** While the contract stays paused, registry, records and alerts do not change. */
  lemma {:induction false} PausedSegment(until: nat, run: seq<Event>, i: nat, j: nat)
    requires ClockOrder(run) && i <= j <= |run|
    requires forall k :: i <= k < j ==> After(until, run, k).instance.paused
    ensures SameBooks(After(until, run, i), After(until, run, j))
    decreases j
  {
    if i < j {
      PausedSegment(until, run, i, j - 1);
      ReachableConsistent(until, run, j - 1, run[j - 1].env.timestamp);
      PausedCall(After(until, run, j - 1), run[j - 1]);
    }
  }

  /** The pause flag changes only by the administrator's own signed call. */
  lemma PauseChangesByAdmin(s: Storage, e: Event)
    requires Step(s, e.env, e.call).instance.paused != s.instance.paused
    ensures e.call.CallSetPaused? && e.call.paused == !s.instance.paused
    ensures s.instance.admin == Some(e.call.admin) && e.call.admin in e.env.signers
  {
    if IsQuery(e.call) {
      QueryKeepsData(s, e.env, e.call);
    } else if e.call.CallBatch? {
      RegisterEachAdminState(BumpInstance(s, e.env), e.env, e.call.caller, e.call.registrations);
    }
  }

  /** What a paused contract still lets through, besides queries. */
  predicate PassesPause(i: Instance, env: Env, c: Call) {
    match c
    case CallSetPaused(admin, _) => admin in env.signers && i.admin == Some(admin)
    case CallPropose(current, nominee) => current in env.signers && i.admin == Some(current) && nominee != current
    case CallCancel(current) => current in env.signers && i.admin == Some(current) && i.pending != None
    case CallAccept(nominee) => nominee in env.signers && i.pending == Some(nominee)
    case _ => false
  }

  /**
   While paused, exactly the signed administrator's pause, unpause, nomination and withdrawal, and the
   nominee's acceptance, succeed; initialize and everything that keeps books panic.
   */
  lemma PausedCallsThatSucceed(s: Storage, env: Env, c: Call)
    requires s.instance.paused && AdminOk(s.instance) && !IsQuery(c)
    ensures Succeeds(s, env, c) <==> PassesPause(s.instance, env, c)
  {
  }

  /** A first call initializes, a second pauses; the third nominates although the contract is paused. */
  function NominationWhilePaused(admin: Address, nominee: Address, env: Env): seq<Event> {
    [Event(env, CallInitialize(admin)), Event(env, CallSetPaused(admin, true)), Event(env, CallPropose(admin, nominee))]
  }

  lemma PausedNominationSucceeds(until: nat, admin: Address, nominee: Address, env: Env)
    requires admin in env.signers && nominee != admin
    ensures var run := NominationWhilePaused(admin, nominee, env);
      && ClockOrder(run)
      && After(until, run, 2).instance.paused && Succeeds(After(until, run, 2), env, CallPropose(admin, nominee))
      && After(until, run, 3).instance == Instance(Some(admin), [], true, Some(nominee))
  {
    var run := NominationWhilePaused(admin, nominee, env);
    assert After(until, run, 1).instance == Instance(Some(admin), [], false, None);
    assert After(until, run, 2).instance == Instance(Some(admin), [], true, None);
  }
}
