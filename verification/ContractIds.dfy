/** Finding contract ids in a text: a scan that skips ahead must equal a look at every position. */
module ContractIds {
  import opened Base32

  const LENGTH: nat := 56
  const PREFIX: char := 'C'

  // ----- shape of an id -----

  predicate AllBase32(s: string) {
    forall i :: 0 <= i < |s| ==> IsSymbol(s[i])
  }

  predicate IsId(s: string) {
    |s| == LENGTH && s[0] == PREFIX && AllBase32(s)
  }

  method IsContractId(value: string) returns (r: bool)
    ensures r <==> IsId(value)
  {
    if |value| != LENGTH || value[0] != PREFIX {
      return false;
    }
    for i := 1 to |value|
      invariant forall k :: 0 <= k < i ==> IsSymbol(value[k])
    {
      if !IsSymbol(value[i]) {
        return false;
      }
    }
    r := true;
  }

  // ----- the specification -----

  /** An id stands at i, and the characters around it are not base32: it is a whole run. */
  predicate WholeRun(text: string, i: nat) {
    i + LENGTH <= |text| && IsId(text[i..i + LENGTH])
    && (i > 0 ==> !IsSymbol(text[i - 1]))
    && (i + LENGTH < |text| ==> !IsSymbol(text[i + LENGTH]))
  }

  /** The distinct ids among the whole runs starting before n, in order of first appearance. */
  function IdsBefore(text: string, n: nat): seq<string> {
    if n == 0 then []
    else
      var before := IdsBefore(text, n - 1);
      if WholeRun(text, n - 1) && text[n - 1..n - 1 + LENGTH] !in before
      then before + [text[n - 1..n - 1 + LENGTH]] else before
  }

  // ----- the scan -----

  predicate MatchAt(text: string, i: nat) {
    i + LENGTH <= |text| && IsId(text[i..i + LENGTH])
  }

  /** The pattern's leftmost match at or after low. */
  method FindMatch(text: string, low: nat) returns (found: bool, start: nat)
    ensures found ==> low <= start && MatchAt(text, start) && forall i :: low <= i < start ==> !MatchAt(text, i)
    ensures !found ==> forall i :: low <= i ==> !MatchAt(text, i)
  {
    start := low;
    while start + LENGTH <= |text|
      invariant low <= start
      invariant forall i :: low <= i < start ==> !MatchAt(text, i)
      decreases |text| - start
    {
      var matches := IsContractId(text[start..start + LENGTH]);
      if matches {
        return true, start;
      }
      start := start + 1;
    }
    found := false;
  }

  /** Positions at which no whole run starts add nothing. */
  lemma {:induction false} NothingBetween(text: string, low: nat, high: nat)
    requires low <= high && forall i :: low <= i < high ==> !WholeRun(text, i)
    ensures IdsBefore(text, high) == IdsBefore(text, low)
    decreases high
  {
    if low < high {
      NothingBetween(text, low, high - 1);
    }
  }

  lemma NoMatchBetween(text: string, low: nat, high: nat)
    requires low <= high && forall i :: low <= i < high ==> !MatchAt(text, i)
    ensures IdsBefore(text, high) == IdsBefore(text, low)
  {
    forall i | low <= i < high
      ensures !WholeRun(text, i)
    {
      assert !MatchAt(text, i);
    }
    NothingBetween(text, low, high);
  }

  /** No whole run starts inside a match, so skipping all 56 characters misses none. */
  lemma SkipMissesNothing(text: string, start: nat)
    requires MatchAt(text, start)
    ensures forall i :: start < i < start + LENGTH ==> !WholeRun(text, i)
  {
    forall i | start < i < start + LENGTH
      ensures !WholeRun(text, i)
    {
      assert text[i - 1] == text[start..start + LENGTH][i - 1 - start];
    }
  }

  /** A match decides its own position and settles all up to its end. */
  lemma AfterMatch(text: string, start: nat)
    requires MatchAt(text, start)
    ensures IdsBefore(text, start + LENGTH) == IdsBefore(text, start + 1)
  {
    SkipMissesNothing(text, start);
    NothingBetween(text, start + 1, start + LENGTH);
  }

  method FindContractIds(text: string) returns (found: seq<string>)
    ensures found == IdsBefore(text, |text|)
  {
    found := [];
    if |text| < LENGTH {
      NoMatchBetween(text, 0, |text|);
      return;
    }
    var lastIndex: nat := 0;
    var matched, start := FindMatch(text, 0);
    while matched
      invariant lastIndex <= |text| && found == IdsBefore(text, lastIndex)
      invariant matched ==> lastIndex <= start && MatchAt(text, start)
      invariant matched ==> forall i :: lastIndex <= i < start ==> !MatchAt(text, i)
      invariant !matched ==> forall i :: lastIndex <= i ==> !MatchAt(text, i)
      decreases |text| - lastIndex, matched
    {
      var end := start + LENGTH;
      var beforeIsBase32 := start > 0 && IsSymbol(text[start - 1]);
      var afterIsBase32 := end < |text| && IsSymbol(text[end]);
      NoMatchBetween(text, lastIndex, start);
      if !beforeIsBase32 && !afterIsBase32 && text[start..end] !in found {
        found := found + [text[start..end]];
      }
      AfterMatch(text, start);
      lastIndex := end;
      matched, start := FindMatch(text, lastIndex);
    }
    NoMatchBetween(text, lastIndex, |text|);
  }

  // ----- what the specification says -----

  /** Whole runs, each listed once, and every listed id is one. */
  lemma {:induction false} IdsAreTheWholeRuns(text: string, n: nat)
    ensures forall id :: id in IdsBefore(text, n) <==>
      exists i :: 0 <= i < n && WholeRun(text, i) && text[i..i + LENGTH] == id
    ensures forall j, k :: 0 <= j < k < |IdsBefore(text, n)| ==> IdsBefore(text, n)[j] != IdsBefore(text, n)[k]
  {
    if n > 0 {
      IdsAreTheWholeRuns(text, n - 1);
      var before := IdsBefore(text, n - 1);
      forall id {:trigger id in before}
        ensures id in IdsBefore(text, n) <==> exists i :: 0 <= i < n && WholeRun(text, i) && text[i..i + LENGTH] == id
      {
        assert id in before ==> id in IdsBefore(text, n);
      }
    }
  }

  /** Where an id first stands as a whole run. */
  function FirstAt(text: string, id: string, i: nat): (r: nat)
    requires i <= |text|
    ensures i <= r <= |text|
    decreases |text| - i
  {
    if i == |text| || (WholeRun(text, i) && text[i..i + LENGTH] == id) then i else FirstAt(text, id, i + 1)
  }

  lemma {:induction false} FirstAtBelow(text: string, id: string, i: nat, n: nat)
    requires i <= n < |text| && WholeRun(text, n) && text[n..n + LENGTH] == id
    ensures FirstAt(text, id, i) <= n
    decreases n - i
  {
    if i < n {
      FirstAtBelow(text, id, i + 1, n);
    }
  }

  lemma {:induction false} FirstAtIsNot(text: string, id: string, i: nat, n: nat)
    requires i <= n <= |text| && forall k :: i <= k < n ==> !(WholeRun(text, k) && text[k..k + LENGTH] == id)
    ensures FirstAt(text, id, i) >= n
    decreases n - i
  {
    if i < n {
      FirstAtIsNot(text, id, i + 1, n);
    }
  }

  predicate InOrder(text: string, ids: seq<string>, n: nat) {
    (forall j :: 0 <= j < |ids| ==> FirstAt(text, ids[j], 0) < n)
    && forall j, k :: 0 <= j < k < |ids| ==> FirstAt(text, ids[j], 0) < FirstAt(text, ids[k], 0)
  }

  /** They come in the order in which they first appear. */
  lemma {:induction false} IdsInFirstAppearanceOrder(text: string, n: nat)
    requires n <= |text|
    ensures InOrder(text, IdsBefore(text, n), n)
  {
    if n > 0 {
      IdsInFirstAppearanceOrder(text, n - 1);
      var before := IdsBefore(text, n - 1);
      assert InOrder(text, before, n);
      if IdsBefore(text, n) != before {
        NewIdFirstAt(text, n);
        assert InOrder(text, before + [text[n - 1..n - 1 + LENGTH]], n);
      }
    }
  }

  lemma NewIdFirstAt(text: string, n: nat)
    requires 0 < n <= |text| && IdsBefore(text, n) != IdsBefore(text, n - 1)
    ensures WholeRun(text, n - 1) && IdsBefore(text, n) == IdsBefore(text, n - 1) + [text[n - 1..n - 1 + LENGTH]]
    ensures FirstAt(text, text[n - 1..n - 1 + LENGTH], 0) == n - 1
  {
    var id := text[n - 1..n - 1 + LENGTH];
    IdsAreTheWholeRuns(text, n - 1);
    FirstAtIsNot(text, id, 0, n - 1);
    FirstAtBelow(text, id, 0, n - 1);
  }
}
