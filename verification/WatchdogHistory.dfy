/** Whole runs: reachable storages, and the alert history a polling reader sees. */
module WatchdogHistory {
  import opened WatchdogState
  import opened WatchdogInvariant

  datatype Event = Event(env: Env, call: Call)

  /** The ledger's clock and sequence number never go back. */
  predicate ClockOrder(run: seq<Event>) {
    forall i, j :: 0 <= i <= j < |run| ==>
      run[i].env.timestamp <= run[j].env.timestamp && run[i].env.sequence <= run[j].env.sequence
  }

  /** The storage after the first k calls of a run on a newly deployed contract. */
  function After(until: nat, run: seq<Event>, k: nat): Storage
    requires k <= |run|
  {
    if k == 0 then Deployed(until) else Step(After(until, run, k - 1), run[k - 1].env, run[k - 1].call)
  }

  /** The time of the last of the first k calls. */
  function Now(run: seq<Event>, k: nat): nat
    requires k <= |run|
  {
    if k == 0 then 0 else run[k - 1].env.timestamp
  }

  /** Every reachable storage is consistent, seen from any later time. */
  lemma {:induction false} ReachableConsistent(until: nat, run: seq<Event>, k: nat, now: nat)
    requires ClockOrder(run) && k <= |run| && Now(run, k) <= now
    ensures Consistent(After(until, run, k), now)
  {
    if k > 0 {
      var e := run[k - 1];
      ReachableConsistent(until, run, k - 1, e.env.timestamp);
      CallConsistent(After(until, run, k - 1), e.env, e.call);
      LaterIsConsistent(After(until, run, k), e.env.timestamp, now);
    }
  }

  // ----- what one call does to one alert list -----

  predicate ReportsOn(s: Storage, e: Event, a: Address) {
    e.call.CallReportAlert? && e.call.id == a && Succeeds(s, e.env, e.call)
  }

  function ReportedAlert(e: Event): Alert
    requires e.call.CallReportAlert?
  {
    Alert(e.call.id, e.call.severity, e.call.message, e.env.timestamp)
  }

  lemma {:induction false} RegisterEachAlerts(s: Storage, env: Env, caller: Address, rs: seq<Registration>, a: Address)
    requires s.alerts.Keys == s.health.Keys
    ensures var t := RegisterEach(s, env, caller, rs).0;
      && t.alerts.Keys == t.health.Keys && s.health.Keys <= t.health.Keys
      && (a in t.health ==> t.alerts[a] == if a in s.health then s.alerts[a] else [])
  {
    if rs != [] {
      var before, r := rs[..|rs| - 1], rs[|rs| - 1];
      RegisterEachAlerts(s, env, caller, before, a);
      var s1 := RegisterEach(s, env, caller, before).0;
      StoredData(s1, env, caller, r);
    }
  }

  /** Registration starts an empty list, a successful report appends, and nothing else touches it. */
  lemma CallAlerts(s: Storage, e: Event, a: Address)
    requires RegistryOk(s) && a in Step(s, e.env, e.call).health
    ensures var t := Step(s, e.env, e.call);
      a in t.alerts && t.alerts[a] ==
        if a !in s.health then []
        else if ReportsOn(s, e, a) then LastN(s.alerts[a] + [ReportedAlert(e)], MAX_ALERTS)
        else s.alerts[a]
  {
    if IsQuery(e.call) {
      QueryKeepsData(s, e.env, e.call);
    } else if Succeeds(s, e.env, e.call) {
      WriteAlerts(s, e, a);
    }
  }

  /** The alert list of a after the call. */
  predicate AlertsBecome(s: Storage, t: Storage, a: Address, alerts: seq<Alert>) {
    a in t.health ==> a in t.alerts && t.alerts[a] == if a in s.health then alerts else []
  }

  lemma RegisterAlerts(s: Storage, e: Event, a: Address)
    requires RegistryOk(s) && Succeeds(s, e.env, e.call) && (e.call.CallRegister? || e.call.CallBatch?)
    ensures AlertsBecome(s, Step(s, e.env, e.call), a, StoredAlerts(s, a))
  {
    var s1 := BumpInstance(s, e.env);
    if e.call.CallRegister? {
      StoredData(s1, e.env, e.call.caller, e.call.registration);
    } else {
      RegisterEachAlerts(s1, e.env, e.call.caller, e.call.registrations, a);
    }
  }

  lemma AdminAlerts(s: Storage, e: Event)
    requires e.call.CallInitialize? || e.call.CallSetPaused? || e.call.CallPropose?
      || e.call.CallAccept? || e.call.CallCancel?
    ensures Step(s, e.env, e.call).alerts == s.alerts && Step(s, e.env, e.call).health == s.health
  {
  }

  lemma WriteAlerts(s: Storage, e: Event, a: Address)
    requires RegistryOk(s) && !IsQuery(e.call) && Succeeds(s, e.env, e.call)
    ensures AlertsBecome(s, Step(s, e.env, e.call), a,
      if ReportsOn(s, e, a) then LastN(StoredAlerts(s, a) + [ReportedAlert(e)], MAX_ALERTS) else StoredAlerts(s, a))
  {
    if e.call.CallRegister? || e.call.CallBatch? {
      RegisterAlerts(s, e, a);
    } else if !e.call.CallDeregister? && !e.call.CallReportStatus? && !e.call.CallReportAlert? {
      AdminAlerts(s, e);
    }
  }

  // ----- the history since registration -----

  /** The alerts successfully reported for a, in order, since its latest registration. */
  function History(until: nat, run: seq<Event>, k: nat, a: Address): seq<Alert>
    requires k <= |run|
  {
    if k == 0 then []
    else
      var before, e := After(until, run, k - 1), run[k - 1];
      if a !in before.health then []
      else if ReportsOn(before, e, a) then History(until, run, k - 1, a) + [ReportedAlert(e)]
      else History(until, run, k - 1, a)
  }

  lemma LastNOfLonger<T>(xs: seq<T>, x: T, n: nat)
    requires n > 0
    ensures LastN(LastN(xs, n) + [x], n) == LastN(xs + [x], n)
  {
  }

  /** The stored alerts of a registered contract are the last hundred reported since its registration. */
  lemma {:induction false} StoredIsRecentHistory(until: nat, run: seq<Event>, k: nat, a: Address)
    requires ClockOrder(run) && k <= |run| && a in After(until, run, k).health
    ensures a in After(until, run, k).alerts
    ensures After(until, run, k).alerts[a] == LastN(History(until, run, k, a), MAX_ALERTS)
  {
    if k > 0 {
      var before, e := After(until, run, k - 1), run[k - 1];
      ReachableConsistent(until, run, k - 1, e.env.timestamp);
      CallAlerts(before, e, a);
      if a in before.health {
        StoredIsRecentHistory(until, run, k - 1, a);
        if ReportsOn(before, e, a) {
          LastNOfLonger(History(until, run, k - 1, a), ReportedAlert(e), MAX_ALERTS);
        }
      }
    }
  }

  /** The history is in time order and not from the future. */
  lemma {:induction false} HistoryInOrder(until: nat, run: seq<Event>, k: nat, a: Address, now: nat)
    requires ClockOrder(run) && k <= |run| && Now(run, k) <= now
    ensures InTimeOrder(History(until, run, k, a))
    ensures forall i :: 0 <= i < |History(until, run, k, a)| ==> History(until, run, k, a)[i].timestamp <= now
  {
    if k > 0 {
      HistoryInOrder(until, run, k - 1, a, run[k - 1].env.timestamp);
    }
  }

  // ----- get_alerts_since -----

  /** Exactly the alerts newer than since, in order: the plain filter. */
  function Newer(alerts: seq<Alert>, since: nat): seq<Alert> {
    if alerts == [] then []
    else
      var rest, last := Newer(alerts[..|alerts| - 1], since), alerts[|alerts| - 1];
      if last.timestamp > since then rest + [last] else rest
  }

  lemma {:induction false} NewerOfOld(alerts: seq<Alert>, since: nat)
    requires forall i :: 0 <= i < |alerts| ==> alerts[i].timestamp <= since
    ensures Newer(alerts, since) == []
  {
    if alerts != [] {
      NewerOfOld(alerts[..|alerts| - 1], since);
    }
  }

  lemma {:induction false} NewerOfSplit(alerts: seq<Alert>, since: nat, k: nat)
    requires k <= |alerts|
    requires forall i :: 0 <= i < k ==> alerts[i].timestamp <= since
    requires forall i :: k <= i < |alerts| ==> alerts[i].timestamp > since
    ensures Newer(alerts, since) == alerts[k..]
    decreases |alerts|
  {
    if k == |alerts| {
      NewerOfOld(alerts, since);
    } else {
      var n := |alerts| - 1;
      NewerOfSplit(alerts[..n], since, k);
      assert alerts[..n][k..] + [alerts[n]] == alerts[k..];
    }
  }

  /** On a list in time order, walking back from the newest alert finds all newer ones. */
  lemma WalkBackIsFilter(alerts: seq<Alert>, since: nat)
    requires InTimeOrder(alerts)
    ensures NewerAlerts(alerts, since) == Newer(alerts, since)
  {
    var k := SplitAt(alerts, since);
    assert FirstNew(alerts, since, |alerts|) == k;
  }

  /** In every reachable storage get_alerts_since returns exactly the stored alerts newer than the given time. */
  lemma AlertsSinceIsFilter(until: nat, run: seq<Event>, k: nat, a: Address, env: Env, since: nat)
    requires ClockOrder(run) && k <= |run|
    ensures var s := After(until, run, k);
      GetAlertsSince(s, env, a, since).1 == Newer(StoredAlerts(s, a), since)
  {
    var s := After(until, run, k);
    ReachableConsistent(until, run, k, Now(run, k));
    if a in s.alerts {
      assert AlertsOk(a, s.alerts[a], Now(run, k));
    }
    WalkBackIsFilter(StoredAlerts(s, a), since);
  }

  // ----- the polling reader -----

  /** The time of the last alert, zero before the first. */
  function LastSeen(alerts: seq<Alert>): nat {
    if alerts == [] then 0 else alerts[|alerts| - 1].timestamp
  }

  /**
   One poll. The reader has seen the first n alerts of the history h and asks for
   those newer than the last it saw. It receives exactly the rest, if and only if at
   most a hundred are new and the first of them is later than the last seen.
   */
  lemma PollReadsTheRest(h: seq<Alert>, n: nat)
    requires InTimeOrder(h) && n <= |h|
    ensures Newer(LastN(h, MAX_ALERTS), LastSeen(h[..n])) == h[n..]
      <==> |h| - n <= MAX_ALERTS && (n < |h| ==> h[n].timestamp > LastSeen(h[..n]))
  {
    var stored, since := LastN(h, MAX_ALERTS), LastSeen(h[..n]);
    var k := SplitAt(stored, since);
    var dropped := |h| - |stored|;
    assert stored == h[dropped..];
    SuffixOfSuffix(h, dropped, k);
    PollStart(h, n, dropped, k);
  }

  lemma SuffixOfSuffix<T>(xs: seq<T>, i: nat, k: nat)
    requires i + k <= |xs|
    ensures xs[i..][k..] == xs[i + k..]
  {
  }

  /**
   The newer part of the stored suffix starts at n exactly when nothing new was dropped
   and the next alert is newer.
   */
  lemma PollStart(h: seq<Alert>, n: nat, dropped: nat, k: nat)
    requires n <= |h| && dropped + k <= |h| && dropped == |h| - |LastN(h, MAX_ALERTS)|
    requires forall i :: dropped <= i < |h| ==> (h[i].timestamp > LastSeen(h[..n]) <==> dropped + k <= i)
    ensures dropped + k == n <==> |h| - n <= MAX_ALERTS && (n < |h| ==> h[n].timestamp > LastSeen(h[..n]))
  {
    if dropped <= n {
      if n < |h| {
        assert h[n].timestamp > LastSeen(h[..n]) <==> dropped + k <= n;
      }
      if n > dropped {
        assert LastSeen(h[..n]) == h[n - 1].timestamp;
      }
    }
  }

  /** Where the newer alerts start. */
  lemma SplitAt(alerts: seq<Alert>, since: nat) returns (k: nat)
    requires InTimeOrder(alerts)
    ensures k <= |alerts| && Newer(alerts, since) == alerts[k..]
    ensures forall i :: 0 <= i < |alerts| ==> (alerts[i].timestamp > since <==> k <= i)
  {
    k := FirstNew(alerts, since, |alerts|);
    forall i | 0 <= i < k
      ensures alerts[i].timestamp <= since
    {
      assert alerts[i].timestamp <= alerts[k - 1].timestamp;
    }
    NewerOfSplit(alerts, since, k);
  }

  // ----- a whole run of polls -----

  /**
   What the reader has received after its first m polls, each asking for what is newer
   than the last alert received.
   */
  function Received(until: nat, run: seq<Event>, polls: seq<nat>, m: nat, a: Address): seq<Alert>
    requires m <= |polls| && forall i :: 0 <= i < |polls| ==> polls[i] <= |run|
  {
    if m == 0 then []
    else
      var before := Received(until, run, polls, m - 1, a);
      var s := After(until, run, polls[m - 1]);
      before + NewerAlerts(StoredAlerts(s, a), LastSeen(before))
  }

  /** The history at the m-th poll; empty before the first. */
  function HistoryAtPoll(until: nat, run: seq<Event>, polls: seq<nat>, m: nat, a: Address): seq<Alert>
    requires m <= |polls| && forall i :: 0 <= i < |polls| ==> polls[i] <= |run|
  {
    if m == 0 then [] else History(until, run, polls[m - 1], a)
  }

  /** The polls are made one after the other while a stays registered. */
  predicate PollsWhileRegistered(until: nat, run: seq<Event>, polls: seq<nat>, a: Address) {
    (forall i :: 0 <= i < |polls| ==> polls[i] <= |run|)
    && (forall i, j :: 0 <= i <= j < |polls| ==> polls[i] <= polls[j])
    && (polls != [] ==> forall k :: polls[0] <= k <= polls[|polls| - 1] ==> a in After(until, run, k).health)
  }

  /** Between two polls at most a hundred alerts arrive, the first of them later than the last seen. */
  predicate PaceKept(before: seq<Alert>, now: seq<Alert>) {
    |before| <= |now| && |now| - |before| <= MAX_ALERTS
    && (|before| < |now| ==> now[|before|].timestamp > LastSeen(before))
  }

  lemma {:induction false} HistoryGrows(until: nat, run: seq<Event>, i: nat, j: nat, a: Address)
    requires i <= j <= |run| && forall k :: i <= k <= j ==> a in After(until, run, k).health
    ensures History(until, run, i, a) <= History(until, run, j, a)
    decreases j
  {
    if i < j {
      assert a in After(until, run, j - 1).health;
      HistoryGrows(until, run, i, j - 1, a);
    }
  }

  lemma OnePoll(until: nat, run: seq<Event>, polls: seq<nat>, m: nat, a: Address)
    requires ClockOrder(run) && PollsWhileRegistered(until, run, polls, a) && 0 < m <= |polls|
    requires Received(until, run, polls, m - 1, a) == HistoryAtPoll(until, run, polls, m - 1, a)
    ensures Received(until, run, polls, m, a) == HistoryAtPoll(until, run, polls, m, a)
      <==> PaceKept(HistoryAtPoll(until, run, polls, m - 1, a), HistoryAtPoll(until, run, polls, m, a))
  {
    var k := polls[m - 1];
    var before, h := HistoryAtPoll(until, run, polls, m - 1, a), History(until, run, k, a);
    var n := |before|;
    if m > 1 {
      HistoryGrows(until, run, polls[m - 2], k, a);
    }
    assert before == h[..n];
    HistoryInOrder(until, run, k, a, Now(run, k));
    StoredIsRecentHistory(until, run, k, a);
    LastNInOrder(h, MAX_ALERTS);
    WalkBackIsFilter(LastN(h, MAX_ALERTS), LastSeen(before));
    PollReadsTheRest(h, n);
    SameRest(h, n, Newer(LastN(h, MAX_ALERTS), LastSeen(before)));
  }

  lemma SameRest<T>(xs: seq<T>, n: nat, rest: seq<T>)
    requires n <= |xs|
    ensures xs[..n] + rest == xs <==> rest == xs[n..]
  {
    if xs[..n] + rest == xs {
      assert rest == (xs[..n] + rest)[n..];
    }
  }

  /** After every one of the first m polls the reader has the whole history, each alert once. */
  predicate ReadsEverything(until: nat, run: seq<Event>, polls: seq<nat>, m: nat, a: Address)
    requires m <= |polls| && forall i :: 0 <= i < |polls| ==> polls[i] <= |run|
  {
    m > 0 ==>
      ReadsEverything(until, run, polls, m - 1, a)
      && Received(until, run, polls, m, a) == HistoryAtPoll(until, run, polls, m, a)
  }

  predicate AlwaysKeepsPace(until: nat, run: seq<Event>, polls: seq<nat>, m: nat, a: Address)
    requires m <= |polls| && forall i :: 0 <= i < |polls| ==> polls[i] <= |run|
  {
    m > 0 ==>
      AlwaysKeepsPace(until, run, polls, m - 1, a)
      && PaceKept(HistoryAtPoll(until, run, polls, m - 1, a), HistoryAtPoll(until, run, polls, m, a))
  }

  /**
   A reader that keeps asking for what is newer than the last alert it received
   reads the whole history since registration exactly once, if and only if it always
   keeps pace.
   */
  lemma {:induction false} PollerReadsHistoryOnce(until: nat, run: seq<Event>, polls: seq<nat>, m: nat, a: Address)
    requires ClockOrder(run) && PollsWhileRegistered(until, run, polls, a) && m <= |polls|
    ensures ReadsEverything(until, run, polls, m, a) <==> AlwaysKeepsPace(until, run, polls, m, a)
  {
    if m > 0 {
      PollerReadsHistoryOnce(until, run, polls, m - 1, a);
      if ReadsEverything(until, run, polls, m - 1, a) {
        OnePoll(until, run, polls, m, a);
      }
    }
  }
}
