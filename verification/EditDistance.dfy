/** Edit distance behind the "did you mean" hints, and the choice of the hint. */
module EditDistance {
  import opened RuleText

  // ----- the table -----

  function Min3(a: nat, b: nat, c: nat): nat {
    if b < a then (if c < b then c else b) else (if c < a then c else a)
  }

  /** A row's first n + 1 entries, from the row before it and the character x it stands for. */
  function NextRow(prev: seq<nat>, x: char, b: string, n: nat): (row: seq<nat>)
    requires |prev| == |b| + 1 && n <= |b|
    ensures |row| == n + 1
  {
    if n == 0 then [prev[0] + 1]
    else
      var row := NextRow(prev, x, b, n - 1);
      row + [Min3(prev[n] + 1, row[n - 1] + 1, prev[n - 1] + (if x == b[n - 1] then 0 else 1))]
  }

  /** The row for the first i characters of a. */
  function TableRow(a: string, b: string, i: nat): (row: seq<nat>)
    requires i <= |a|
    ensures |row| == |b| + 1
  {
    if i == 0 then seq(|b| + 1, j => j) else NextRow(TableRow(a, b, i - 1), a[i - 1], b, |b|)
  }

  /** The table's entry for the first i characters of a and the first j of b. */
  function Entry(a: string, b: string, i: nat, j: nat): nat
    requires i <= |a| && j <= |b|
  {
    TableRow(a, b, i)[j]
  }

  lemma {:induction false} NextRowAt(prev: seq<nat>, x: char, b: string, n: nat, j: nat)
    requires |prev| == |b| + 1 && j <= n <= |b|
    ensures NextRow(prev, x, b, n)[j] == if j == 0 then prev[0] + 1
      else Min3(prev[j] + 1, NextRow(prev, x, b, n)[j - 1] + 1, prev[j - 1] + (if x == b[j - 1] then 0 else 1))
  {
    if j < n {
      NextRowAt(prev, x, b, n - 1, j);
    }
  }

  lemma {:induction false} Edges(a: string, b: string, i: nat, j: nat)
    requires i <= |a| && j <= |b|
    ensures Entry(a, b, i, 0) == i && Entry(a, b, 0, j) == j
  {
    if i > 0 {
      Edges(a, b, i - 1, j);
      NextRowAt(TableRow(a, b, i - 1), a[i - 1], b, |b|, 0);
    }
  }

  lemma Recurrence(a: string, b: string, i: nat, j: nat)
    requires 0 < i <= |a| && 0 < j <= |b|
    ensures Entry(a, b, i, j) ==
      Min3(Entry(a, b, i - 1, j) + 1, Entry(a, b, i, j - 1) + 1,
           Entry(a, b, i - 1, j - 1) + (if a[i - 1] == b[j - 1] then 0 else 1))
  {
    NextRowAt(TableRow(a, b, i - 1), a[i - 1], b, |b|, j);
  }

  function Distance(a: string, b: string): nat {
    Entry(a, b, |a|, |b|)
  }

  // ----- what an edit is -----

  datatype Edit = Insert(at: nat, c: char) | Delete(at: nat) | Replace(at: nat, c: char)

  predicate Fits(e: Edit, s: string) {
    if e.Insert? then e.at <= |s| else e.at < |s|
  }

  function Inserted(s: string, at: nat, c: char): (r: string)
    requires at <= |s|
    ensures |r| == |s| + 1 && r[at] == c
    ensures forall k :: 0 <= k < at ==> r[k] == s[k]
    ensures forall k :: at < k < |r| ==> r[k] == s[k - 1]
  {
    s[..at] + [c] + s[at..]
  }

  function Deleted(s: string, at: nat): (r: string)
    requires at < |s|
    ensures |r| == |s| - 1
    ensures forall k :: 0 <= k < at ==> r[k] == s[k]
    ensures forall k :: at <= k < |r| ==> r[k] == s[k + 1]
  {
    s[..at] + s[at + 1..]
  }

  function Apply(e: Edit, s: string): string
    requires Fits(e, s)
  {
    match e
    case Insert(at, c) => Inserted(s, at, c)
    case Delete(at) => Deleted(s, at)
    case Replace(at, c) => s[at := c]
  }

  /** Edits, applied one after the other. */
  datatype Script = Done | Then(first: Edit, rest: Script)

  function Length(es: Script): nat {
    match es
    case Done => 0
    case Then(_, rest) => 1 + Length(rest)
  }

  function Join(es: Script, fs: Script): (r: Script)
    ensures Length(r) == Length(es) + Length(fs)
  {
    match es
    case Done => fs
    case Then(e, rest) => Then(e, Join(rest, fs))
  }

  predicate Turns(es: Script, a: string, b: string) {
    match es
    case Done => a == b
    case Then(e, rest) => Fits(e, a) && Turns(rest, Apply(e, a), b)
  }

  // ----- no shorter script -----

  lemma {:induction false} DistanceSelf(a: string, i: nat)
    requires i <= |a|
    ensures Entry(a, a, i, i) == 0
  {
    Edges(a, a, i, i);
    if i != 0 {
      DistanceSelf(a, i - 1);
      Recurrence(a, a, i, i);
    }
  }

  lemma {:induction false} SamePrefix(a: string, a': string, x: string, i: nat, j: nat)
    requires i <= |a| && i <= |a'| && j <= |x| && forall k :: 0 <= k < i ==> a[k] == a'[k]
    ensures Entry(a, x, i, j) == Entry(a', x, i, j)
    decreases i + j
  {
    Edges(a, x, i, j);
    Edges(a', x, i, j);
    if i != 0 && j != 0 {
      SamePrefix(a, a', x, i - 1, j);
      SamePrefix(a, a', x, i, j - 1);
      SamePrefix(a, a', x, i - 1, j - 1);
      Recurrence(a, x, i, j);
      Recurrence(a', x, i, j);
    }
  }

  /** A row grows by at most one per column. */
  lemma GrowRight(a: string, x: string, i: nat, j: nat)
    requires i <= |a| && 0 < j <= |x|
    ensures Entry(a, x, i, j) <= Entry(a, x, i, j - 1) + 1
  {
    if i == 0 {
      Edges(a, x, i, j);
      Edges(a, x, i, j - 1);
    } else {
      Recurrence(a, x, i, j);
    }
  }

  /** One inserted character moves every later entry by at most one. */
  lemma {:induction false} InsertedOne(a: string, at: nat, c: char, x: string, i: nat, j: nat)
    requires at <= i <= |a| && j <= |x|
    ensures Entry(Inserted(a, at, c), x, i + 1, j) <= Entry(a, x, i, j) + 1
    ensures Entry(a, x, i, j) <= Entry(Inserted(a, at, c), x, i + 1, j) + 1
    decreases i + j
  {
    var a' := Inserted(a, at, c);
    if j == 0 {
      Edges(a, x, i, j);
      Edges(a', x, i + 1, j);
    } else {
      InsertedOne(a, at, c, x, i, j - 1);
      Recurrence(a', x, i + 1, j);
      if i == at {
        SamePrefix(a, a', x, at, j);
        SamePrefix(a, a', x, at, j - 1);
        GrowRight(a, x, i, j);
      } else {
        InsertedOne(a, at, c, x, i - 1, j);
        InsertedOne(a, at, c, x, i - 1, j - 1);
        Recurrence(a, x, i, j);
      }
    }
  }

  lemma {:induction false} ReplacedOne(a: string, at: nat, c: char, x: string, i: nat, j: nat)
    requires at < |a| && i <= |a| && j <= |x|
    ensures Entry(a, x, i, j) <= Entry(a[at := c], x, i, j) + 1
    decreases i + j
  {
    var a' := a[at := c];
    if i <= at {
      SamePrefix(a, a', x, i, j);
    } else if j == 0 {
      Edges(a, x, i, j);
      Edges(a', x, i, j);
    } else {
      ReplacedOne(a, at, c, x, i, j - 1);
      ReplacedOne(a, at, c, x, i - 1, j);
      Recurrence(a, x, i, j);
      Recurrence(a', x, i, j);
      if i == at + 1 {
        SamePrefix(a, a', x, at, j);
        SamePrefix(a, a', x, at, j - 1);
      } else {
        ReplacedOne(a, at, c, x, i - 1, j - 1);
      }
    }
  }

  lemma {:induction false} DeletedOne(a: string, at: nat, x: string)
    requires at < |a|
    ensures Distance(a, x) <= Distance(Deleted(a, at), x) + 1
  {
    var shorter := Deleted(a, at);
    assert Inserted(shorter, at, a[at]) == a;
    InsertedOne(shorter, at, a[at], x, |shorter|, |x|);
  }

  lemma {:induction false} OneEdit(e: Edit, a: string, x: string)
    requires Fits(e, a)
    ensures Distance(a, x) <= Distance(Apply(e, a), x) + 1
  {
    match e
    case Insert(at, c) =>
      InsertedOne(a, at, c, x, |a|, |x|);
    case Delete(at) =>
      DeletedOne(a, at, x);
    case Replace(at, c) =>
      ReplacedOne(a, at, c, x, |a|, |x|);
  }

  /** Every script that turns a into b is at least as long as the distance. */
  lemma {:induction false} NoShorterScript(es: Script, a: string, b: string)
    requires Turns(es, a, b)
    ensures Distance(a, b) <= Length(es)
  {
    match es
    case Done =>
      DistanceSelf(a, |a|);
    case Then(e, rest) =>
      OneEdit(e, a, b);
      NoShorterScript(rest, Apply(e, a), b);
  }

  // ----- a script of that length -----

  lemma {:induction false} TurnsJoined(es: Script, fs: Script, a: string, b: string, c: string)
    requires Turns(es, a, b) && Turns(fs, b, c)
    ensures Turns(Join(es, fs), a, c)
  {
    match es
    case Done =>
    case Then(e, rest) =>
      TurnsJoined(rest, fs, Apply(e, a), b, c);
  }

  lemma ApplyBefore(e: Edit, a: string, x: char)
    requires Fits(e, a)
    ensures Fits(e, a + [x]) && Apply(e, a + [x]) == Apply(e, a) + [x]
  {
  }

  /** A script does not touch what stands behind its string. */
  lemma {:induction false} TurnsBefore(es: Script, a: string, b: string, x: char)
    requires Turns(es, a, b)
    ensures Turns(es, a + [x], b + [x])
  {
    match es
    case Done =>
    case Then(e, rest) =>
      ApplyBefore(e, a, x);
      TurnsBefore(rest, Apply(e, a), b, x);
  }

  /** Every entry but the first comes from one of its neighbours. */
  lemma EntryComesFrom(a: string, b: string, i: nat, j: nat)
    requires i <= |a| && j <= |b| && (i != 0 || j != 0)
    ensures (i != 0 && Entry(a, b, i, j) == Entry(a, b, i - 1, j) + 1)
      || (j != 0 && Entry(a, b, i, j) == Entry(a, b, i, j - 1) + 1)
      || (i != 0 && j != 0 && Entry(a, b, i, j) == Entry(a, b, i - 1, j - 1) + (if a[i - 1] == b[j - 1] then 0 else 1))
  {
    Edges(a, b, i, j);
    if i == 0 {
      Edges(a, b, 0, j - 1);
    } else if j == 0 {
      Edges(a, b, i - 1, 0);
    } else {
      Recurrence(a, b, i, j);
    }
  }

  /** The distance is attained, prefix by prefix. */
  lemma {:induction false} PrefixScript(a: string, b: string, i: nat, j: nat) returns (es: Script)
    requires i <= |a| && j <= |b|
    ensures Turns(es, a[..i], b[..j]) && Length(es) == Entry(a, b, i, j)
    decreases i + j
  {
    if i == 0 && j == 0 {
      Edges(a, b, 0, 0);
      es := Done;
    } else {
      EntryComesFrom(a, b, i, j);
      if i != 0 && Entry(a, b, i, j) == Entry(a, b, i - 1, j) + 1 {
        var rest := PrefixScript(a, b, i - 1, j);
        es := DeleteLast(a, i, rest, b[..j]);
      } else if j != 0 && Entry(a, b, i, j) == Entry(a, b, i, j - 1) + 1 {
        var rest := PrefixScript(a, b, i, j - 1);
        es := InsertLast(b, j, rest, a[..i]);
      } else {
        var rest := PrefixScript(a, b, i - 1, j - 1);
        es := MatchLast(a, b, i, j, rest);
      }
    }
  }

  lemma DeleteLast(a: string, i: nat, rest: Script, b: string) returns (es: Script)
    requires 0 < i <= |a| && Turns(rest, a[..i - 1], b)
    ensures Turns(es, a[..i], b) && Length(es) == Length(rest) + 1
  {
    assert Deleted(a[..i], i - 1) == a[..i - 1];
    es := Then(Delete(i - 1), rest);
  }

  lemma AddLast(rest: Script, e: Edit, a: string, b: string, c: string) returns (es: Script)
    requires Turns(rest, a, b) && Fits(e, b) && Apply(e, b) == c
    ensures Turns(es, a, c) && Length(es) == Length(rest) + 1
  {
    assert Turns(Then(e, Done), b, c) && Length(Then(e, Done)) == 1;
    TurnsJoined(rest, Then(e, Done), a, b, c);
    es := Join(rest, Then(e, Done));
  }

  lemma InsertLast(b: string, j: nat, rest: Script, a: string) returns (es: Script)
    requires 0 < j <= |b| && Turns(rest, a, b[..j - 1])
    ensures Turns(es, a, b[..j]) && Length(es) == Length(rest) + 1
  {
    var e := Insert(j - 1, b[j - 1]);
    assert Apply(e, b[..j - 1]) == b[..j];
    es := AddLast(rest, e, a, b[..j - 1], b[..j]);
  }

  lemma MatchLast(a: string, b: string, i: nat, j: nat, rest: Script) returns (es: Script)
    requires 0 < i <= |a| && 0 < j <= |b| && Turns(rest, a[..i - 1], b[..j - 1])
    ensures Turns(es, a[..i], b[..j])
    ensures Length(es) == Length(rest) + (if a[i - 1] == b[j - 1] then 0 else 1)
  {
    var x, y := a[i - 1], b[j - 1];
    var mixed, e := b[..j - 1] + [x], Replace(j - 1, y);
    TurnsBefore(rest, a[..i - 1], b[..j - 1], x);
    AddedBack(a, i);
    AddedBack(b, j);
    if x == y {
      es := rest;
    } else {
      LastReplaced(b[..j - 1], x, y);
      es := AddLast(rest, e, a[..i], mixed, b[..j]);
    }
  }

  lemma AddedBack(a: string, i: nat)
    requires 0 < i <= |a|
    ensures a[..i - 1] + [a[i - 1]] == a[..i]
  {
  }

  lemma LastReplaced(before: string, x: char, y: char)
    ensures Fits(Replace(|before|, y), before + [x]) && Apply(Replace(|before|, y), before + [x]) == before + [y]
  {
  }

  lemma ShortestScript(a: string, b: string) returns (es: Script)
    ensures Turns(es, a, b) && Length(es) == Distance(a, b)
  {
    es := PrefixScript(a, b, |a|, |b|);
    assert a[..|a|] == a && b[..|b|] == b;
  }

  // ----- a metric -----

  lemma ZeroOnlyOnEqual(a: string, b: string)
    ensures Distance(a, b) == 0 <==> a == b
  {
    if a == b {
      DistanceSelf(a, |a|);
    } else {
      var es := ShortestScript(a, b);
      assert es.Done? || Length(es) > 0;
    }
  }

  lemma {:induction false} EntrySymmetric(a: string, b: string, i: nat, j: nat)
    requires i <= |a| && j <= |b|
    ensures Entry(a, b, i, j) == Entry(b, a, j, i)
    decreases i + j
  {
    Edges(a, b, i, j);
    Edges(b, a, j, i);
    if i != 0 && j != 0 {
      EntrySymmetric(a, b, i - 1, j);
      EntrySymmetric(a, b, i, j - 1);
      EntrySymmetric(a, b, i - 1, j - 1);
      Recurrence(a, b, i, j);
      Recurrence(b, a, j, i);
    }
  }

  lemma Symmetric(a: string, b: string)
    ensures Distance(a, b) == Distance(b, a)
  {
    EntrySymmetric(a, b, |a|, |b|);
  }

  lemma Triangle(a: string, b: string, c: string)
    ensures Distance(a, c) <= Distance(a, b) + Distance(b, c)
  {
    var es := ShortestScript(a, b);
    var fs := ShortestScript(b, c);
    TurnsJoined(es, fs, a, b, c);
    NoShorterScript(Join(es, fs), a, c);
  }

  // ----- the two rows -----

  /** row holds the first n entries of the table's i-th row. */
  ghost predicate Row(row: array<nat>, a: string, b: string, i: nat, n: nat)
    reads row
  {
    row.Length == |b| + 1 && n <= row.Length && i <= |a|
    && forall j :: 0 <= j < n ==> row[j] == Entry(a, b, i, j)
  }

  method Levenshtein(a: string, b: string) returns (d: nat)
    ensures d == Distance(a, b)
  {
    if a == b {
      DistanceSelf(a, |a|);
      return 0;
    }
    Edges(a, b, |a|, |b|);
    if |a| == 0 {
      return |b|;
    }
    if |b| == 0 {
      return |a|;
    }
    var prev := new nat[|b| + 1];
    var curr := new nat[|b| + 1];
    for j := 0 to |b| + 1
      invariant Row(prev, a, b, 0, j)
    {
      prev[j] := j;
    }
    for i := 1 to |a| + 1
      invariant fresh(prev) && fresh(curr) && prev != curr && curr.Length == |b| + 1
      invariant Row(prev, a, b, i - 1, |b| + 1)
    {
      curr[0] := i;
      Edges(a, b, i, 0);
      for j := 1 to |b| + 1
        invariant Row(prev, a, b, i - 1, |b| + 1)
        invariant Row(curr, a, b, i, j)
      {
        Recurrence(a, b, i, j);
        var cost := if a[i - 1] == b[j - 1] then 0 else 1;
        curr[j] := Min3(prev[j] + 1, curr[j - 1] + 1, prev[j - 1] + cost);
      }
      prev, curr := curr, prev;
    }
    return prev[|b|];
  }

  // ----- the hint -----

  function Score(want: string, candidate: string): nat {
    Distance(Lower(want), Lower(candidate))
  }

  /**
   The earliest candidate at the least distance, when that distance is within half
   the word's length plus one.
   */
  method Suggest(want: string, candidates: seq<string>) returns (hint: string, ghost at: nat)
    ensures candidates == [] ==> hint == ""
    ensures candidates != [] ==>
      && at < |candidates|
      && (forall k :: 0 <= k < |candidates| ==> Score(want, candidates[at]) <= Score(want, candidates[k]))
      && (forall k :: 0 <= k < at ==> Score(want, candidates[at]) < Score(want, candidates[k]))
      && hint == if Score(want, candidates[at]) <= |want| / 2 + 1 then candidates[at] else ""
  {
    var best, bestDist := "", -1;
    var lower := Lower(want);
    at := 0;
    for i := 0 to |candidates|
      invariant i == 0 ==> at == 0 && bestDist == -1 && best == ""
      invariant i > 0 ==> at < i && best == candidates[at] && bestDist == Score(want, best)
      invariant forall k :: 0 <= k < i ==> bestDist <= Score(want, candidates[k])
      invariant forall k :: 0 <= k < at ==> bestDist < Score(want, candidates[k])
    {
      var d := Levenshtein(lower, Lower(candidates[i]));
      if bestDist == -1 || d < bestDist {
        bestDist, best := d, candidates[i];
        at := i;
      }
    }
    var limit := |want| / 2 + 1;
    if bestDist >= 0 && bestDist <= limit {
      return best, at;
    }
    return "", at;
  }
}
