/**
 The activity charts: rows are fetched newest first until one falls out of the window,
 then counted per hour or day. Times are milliseconds; None is an unreadable date.
 */
module Activity {
  import opened Wrappers

  datatype Row = Row(ledger: nat, at: Option<int>)

  datatype Window = All | Last24Hours | Last7Days | Last30Days

  /** Inclusive lower bound, bucket width, and how many buckets to show. */
  datatype Spec = Spec(since: Option<int>, step: int, buckets: Option<nat>)

  datatype Point = Point(bucket: int, ledger: nat, count: nat)

  const HOUR_MS: int := 3_600_000
  const DAY_MS: int := 86_400_000
  const MAX_PAGES: nat := 10

  function Step(window: Window): (step: int)
    ensures step > 0
  {
    if window == Last24Hours then HOUR_MS else DAY_MS
  }

  function Buckets(window: Window): (n: nat)
    ensures n > 0
  {
    match window
    case Last24Hours => 24
    case Last7Days => 7
    case _ => 30
  }

  /** Rounded down to a bucket start, before the epoch as well. */
  function Floor(at: int, step: int): int
    requires step > 0
  {
    at / step * step
  }

  function ActivityWindow(window: Window, now: int): Spec {
    if window == All then Spec(None, DAY_MS, None)
    else
      var step, n := Step(window), Buckets(window);
      Spec(Some(Floor(now, step) - (n - 1) * step), step, Some(n))
  }

  // ----- the specification: count rows per bucket -----

  predicate Counted(row: Row, spec: Spec) {
    row.at.Some? && (spec.since.Some? ==> row.at.value >= spec.since.value)
  }

  predicate InBucket(row: Row, spec: Spec, b: int)
    requires spec.step > 0
  {
    Counted(row, spec) && row.at.value / spec.step == b
  }

  function Max(a: nat, b: nat): nat {
    if a < b then b else a
  }

  function Count(rows: seq<Row>, spec: Spec, b: int): nat
    requires spec.step > 0
  {
    if rows == [] then 0
    else Count(rows[..|rows| - 1], spec, b) + if InBucket(rows[|rows| - 1], spec, b) then 1 else 0
  }

  function LastLedger(rows: seq<Row>, spec: Spec, b: int): nat
    requires spec.step > 0
  {
    if rows == [] then 0
    else
      var before, last := LastLedger(rows[..|rows| - 1], spec, b), rows[|rows| - 1];
      if InBucket(last, spec, b) then Max(before, last.ledger) else before
  }

  function PointOf(rows: seq<Row>, spec: Spec, b: int): Point
    requires spec.step > 0
  {
    Point(b, LastLedger(rows, spec, b), Count(rows, spec, b))
  }

  function Occupied(rows: seq<Row>, spec: Spec): set<int>
    requires spec.step > 0
  {
    set r | r in rows && Counted(r, spec) :: r.at.value / spec.step
  }

  lemma NoElements(s: set<int>)
    requires forall e :: e !in s
    ensures s == {}
  {
    assert forall e :: e in s <==> e in {};
  }

  lemma {:induction false} HasLeast(s: set<int>)
    requires s != {}
    ensures exists m :: m in s && forall x :: x in s ==> m <= x
  {
    assert exists e :: e in s by {
      if forall e :: e !in s {
        NoElements(s);
      }
    }
    var e :| e in s;
    if s != {e} {
      var rest := s - {e};
      assert s == rest + {e};
      HasLeast(rest);
      var m :| m in rest && forall x :: x in rest ==> m <= x;
      var least := if m < e then m else e;
      assert least in s && forall x :: x in s ==> least <= x;
    }
  }

  /** A set of bucket numbers in ascending order. */
  function Ascending(s: set<int>): (r: seq<int>)
    ensures forall i, j :: 0 <= i < j < |r| ==> r[i] < r[j]
    ensures forall x :: x in r <==> x in s
  {
    if s == {} then []
    else
      HasLeast(s);
      var m :| m in s && forall x :: x in s ==> m <= x;
      var rest := Ascending(s - {m});
      assert forall i :: 0 <= i < |rest| ==> rest[i] in rest;
      [m] + rest
  }

  /** The buckets shown: the whole bounded window, or for "all" those with data, oldest first. */
  function Keys(rows: seq<Row>, window: Window, now: int): seq<int> {
    if window == All then Ascending(Occupied(rows, ActivityWindow(window, now)))
    else
      var n := Buckets(window);
      seq(n, k requires 0 <= k < n => now / Step(window) - (n - 1) + k)
  }

  function Series(rows: seq<Row>, window: Window, now: int): seq<Point> {
    var keys := Keys(rows, window, now);
    seq(|keys|, k requires 0 <= k < |keys| => PointOf(rows, ActivityWindow(window, now), keys[k]))
  }

  // ----- the code -----

  lemma CountNext(rows: seq<Row>, spec: Spec, b: int, i: nat)
    requires spec.step > 0 && i < |rows|
    ensures Count(rows[..i + 1], spec, b) == Count(rows[..i], spec, b) + if InBucket(rows[i], spec, b) then 1 else 0
    ensures LastLedger(rows[..i + 1], spec, b)
      == if InBucket(rows[i], spec, b)
        then Max(LastLedger(rows[..i], spec, b), rows[i].ledger) else LastLedger(rows[..i], spec, b)
  {
    assert rows[..i + 1][..i] == rows[..i];
  }

  predicate Tallied(counts: map<int, (nat, nat)>, rows: seq<Row>, spec: Spec, b: int)
    requires spec.step > 0
  {
    (if b in counts then counts[b] else (0, 0)) == (Count(rows, spec, b), LastLedger(rows, spec, b))
  }

  method TallyRows(rows: seq<Row>, spec: Spec) returns (counts: map<int, (nat, nat)>)
    requires spec.step > 0
    ensures forall b :: Tallied(counts, rows, spec, b)
    ensures counts.Keys == Occupied(rows, spec)
  {
    counts := map[];
    for i := 0 to |rows|
      invariant forall b :: Tallied(counts, rows[..i], spec, b)
      invariant counts.Keys == Occupied(rows[..i], spec)
    {
      var row, before := rows[i], counts;
      ghost var sofar := rows[..i + 1];
      assert sofar == rows[..i] + [row];
      if Counted(row, spec) {
        var key := row.at.value / spec.step;
        var (count, ledger) := if key in counts then counts[key] else (0, 0);
        counts := counts[key := (count + 1, Max(ledger, row.ledger))];
        OccupiedNext(rows[..i], row, spec);
        assert Tallied(before, rows[..i], spec, key);
      }
      forall b
        ensures Tallied(counts, sofar, spec, b)
      {
        assert Tallied(before, rows[..i], spec, b);
        CountNext(rows, spec, b, i);
      }
      assert counts.Keys == Occupied(sofar, spec);
    }
    assert rows[..|rows|] == rows;
  }

  lemma OccupiedNext(rows: seq<Row>, row: Row, spec: Spec)
    requires spec.step > 0 && Counted(row, spec)
    ensures Occupied(rows + [row], spec) == Occupied(rows, spec) + {row.at.value / spec.step}
  {
  }

  lemma ShiftedBucket(window: Window, now: int, i: int)
    ensures (Floor(now, Step(window)) - i * Step(window)) / Step(window) == now / Step(window) - i
  {
    if Step(window) == HOUR_MS {
      assert (now / HOUR_MS * HOUR_MS - i * HOUR_MS) / HOUR_MS == now / HOUR_MS - i;
    } else {
      assert (now / DAY_MS * DAY_MS - i * DAY_MS) / DAY_MS == now / DAY_MS - i;
    }
  }

  method WindowKeys(window: Window, now: int) returns (keys: seq<int>)
    requires window != All
    ensures keys == Keys([], window, now)
  {
    var step, n := Step(window), Buckets(window);
    var end := now / step * step;
    keys := [];
    var i := n - 1;
    while i >= 0
      invariant -1 <= i < n && |keys| == n - 1 - i
      invariant forall k :: 0 <= k < |keys| ==> keys[k] == now / step - (n - 1) + k
    {
      ShiftedBucket(window, now, i);
      keys := keys + [(end - i * step) / step];
      i := i - 1;
    }
  }

  method AggregateActivity(rows: seq<Row>, window: Window, now: int) returns (points: seq<Point>)
    ensures points == Series(rows, window, now)
  {
    var spec := ActivityWindow(window, now);
    var counts := TallyRows(rows, spec);
    var keys: seq<int>;
    if window == All {
      keys := Ascending(counts.Keys);
    } else {
      keys := WindowKeys(window, now);
    }
    points := [];
    for k := 0 to |keys|
      invariant points == Series(rows, window, now)[..k]
    {
      assert Tallied(counts, rows, spec, keys[k]);
      var (count, ledger) := if keys[k] in counts then counts[keys[k]] else (0, 0);
      points := points + [Point(keys[k], ledger, count)];
    }
  }

  // ----- counts add up -----

  function SumCounts(points: seq<Point>): nat {
    if points == [] then 0 else SumCounts(points[..|points| - 1]) + points[|points| - 1].count
  }

  predicate Distinct(keys: seq<int>) {
    forall i, j :: 0 <= i < j < |keys| ==> keys[i] != keys[j]
  }

  function CountsOver(rows: seq<Row>, spec: Spec, keys: seq<int>): nat
    requires spec.step > 0
  {
    if keys == [] then 0
    else CountsOver(rows, spec, keys[..|keys| - 1]) + Count(rows, spec, keys[|keys| - 1])
  }

  /** How many rows fall in one of the buckets. */
  function CountIn(rows: seq<Row>, spec: Spec, keys: seq<int>): nat
    requires spec.step > 0
  {
    if rows == [] then 0
    else
      var last := rows[|rows| - 1];
      CountIn(rows[..|rows| - 1], spec, keys) +
        if Counted(last, spec) && last.at.value / spec.step in keys then 1 else 0
  }

  lemma {:induction false} CountsOverNext(rows: seq<Row>, row: Row, spec: Spec, keys: seq<int>)
    requires spec.step > 0 && Distinct(keys)
    ensures CountsOver(rows + [row], spec, keys)
      == CountsOver(rows, spec, keys) + if Counted(row, spec) && row.at.value / spec.step in keys then 1 else 0
  {
    if keys != [] {
      var before, last := keys[..|keys| - 1], keys[|keys| - 1];
      CountsOverNext(rows, row, spec, before);
      assert (rows + [row])[..|rows|] == rows;
      assert keys == before + [last];
      assert last !in before;
    }
  }

  lemma {:induction false} NothingOver(spec: Spec, keys: seq<int>)
    requires spec.step > 0
    ensures CountsOver([], spec, keys) == 0
  {
    if keys != [] {
      NothingOver(spec, keys[..|keys| - 1]);
    }
  }

  lemma {:induction false} CountsAddUp(rows: seq<Row>, spec: Spec, keys: seq<int>)
    requires spec.step > 0 && Distinct(keys)
    ensures CountsOver(rows, spec, keys) == CountIn(rows, spec, keys)
  {
    if rows == [] {
      NothingOver(spec, keys);
    } else {
      var before, last := rows[..|rows| - 1], rows[|rows| - 1];
      CountsAddUp(before, spec, keys);
      CountsOverNext(before, last, spec, keys);
      assert before + [last] == rows;
    }
  }

  lemma {:induction false} SumIsCountsOver(rows: seq<Row>, spec: Spec, keys: seq<int>, points: seq<Point>)
    requires spec.step > 0 && |points| == |keys| &&
      forall k :: 0 <= k < |keys| ==> points[k] == PointOf(rows, spec, keys[k])
    ensures SumCounts(points) == CountsOver(rows, spec, keys)
  {
    if keys != [] {
      SumIsCountsOver(rows, spec, keys[..|keys| - 1], points[..|keys| - 1]);
    }
  }

  /** Rows with a readable date from low on and before high. */
  function RowsWithin(rows: seq<Row>, low: int, high: int): nat {
    if rows == [] then 0
    else
      var last := rows[|rows| - 1];
      RowsWithin(rows[..|rows| - 1], low, high) + if last.at.Some? && low <= last.at.value < high then 1 else 0
  }

  lemma QuotientRange(at: int, window: Window, lo: int, hi: int)
    ensures lo <= at / Step(window) < hi <==> lo * Step(window) <= at < hi * Step(window)
  {
    if Step(window) == HOUR_MS {
      assert lo <= at / HOUR_MS < hi <==> lo * HOUR_MS <= at < hi * HOUR_MS;
    } else {
      assert lo <= at / DAY_MS < hi <==> lo * DAY_MS <= at < hi * DAY_MS;
    }
  }

  /** When the window opens, and when its last bucket ends. */
  function Opens(window: Window, now: int): int {
    Floor(now, Step(window)) - (Buckets(window) - 1) * Step(window)
  }

  function Closes(window: Window, now: int): int {
    Floor(now, Step(window)) + Step(window)
  }

  lemma ShownBuckets(rows: seq<Row>, window: Window, now: int, row: Row)
    requires window != All
    ensures Counted(row, ActivityWindow(window, now)) && row.at.value / Step(window) in Keys(rows, window, now)
      <==> row.at.Some? && Opens(window, now) <= row.at.value < Closes(window, now)
  {
    var step, n, q := Step(window), Buckets(window), now / Step(window);
    var keys := Keys(rows, window, now);
    if row.at.Some? {
      var b := row.at.value / step;
      QuotientRange(row.at.value, window, q - (n - 1), q + 1);
      assert (q - (n - 1)) * step == Opens(window, now) && (q + 1) * step == Closes(window, now) by {
        assert (q - (n - 1)) * step == q * step - (n - 1) * step;
        assert (q + 1) * step == q * step + step;
      }
      if q - (n - 1) <= b < q + 1 {
        assert keys[b - (q - (n - 1))] == b;
      }
    }
  }

  lemma {:induction false} CountInIsRowsWithin(rows: seq<Row>, window: Window, now: int)
    requires window != All
    ensures CountIn(rows, ActivityWindow(window, now), Keys([], window, now))
      == RowsWithin(rows, Opens(window, now), Closes(window, now))
  {
    if rows != [] {
      CountInIsRowsWithin(rows[..|rows| - 1], window, now);
      ShownBuckets([], window, now, rows[|rows| - 1]);
    }
  }

  /**
   A bounded chart has one point for each bucket of the window, oldest first, and its counts
   add up to the rows between the window's start and the end of the current bucket.
   */
  lemma BoundedChart(rows: seq<Row>, window: Window, now: int)
    requires window != All
    ensures var points := Series(rows, window, now);
      && |points| == Buckets(window)
      && (forall k :: 0 <= k < |points| ==> points[k].bucket == now / Step(window) - (Buckets(window) - 1) + k)
      && SumCounts(points) == RowsWithin(rows, Opens(window, now), Closes(window, now))
  {
    var spec, keys := ActivityWindow(window, now), Keys([], window, now);
    SumIsCountsOver(rows, spec, keys, Series(rows, window, now));
    CountsAddUp(rows, spec, keys);
    CountInIsRowsWithin(rows, window, now);
  }

  lemma {:induction false} CountInOccupied(rows: seq<Row>, spec: Spec, keys: seq<int>)
    requires spec.step > 0 && forall b :: b in Occupied(rows, spec) ==> b in keys
    ensures CountIn(rows, spec, keys) == |Readable(rows, spec)|
  {
    if rows != [] {
      var before, last := rows[..|rows| - 1], rows[|rows| - 1];
      assert forall b :: b in Occupied(before, spec) ==> b in Occupied(rows, spec);
      CountInOccupied(before, spec, keys);
      if Counted(last, spec) {
        assert last.at.value / spec.step in Occupied(rows, spec);
      }
    }
  }

  function Readable(rows: seq<Row>, spec: Spec): seq<Row> {
    if rows == [] then []
    else
      var before, last := Readable(rows[..|rows| - 1], spec), rows[|rows| - 1];
      if Counted(last, spec) then before + [last] else before
  }

  lemma {:induction false} OccupiedHasCount(rows: seq<Row>, spec: Spec, b: int)
    requires spec.step > 0 && b in Occupied(rows, spec)
    ensures Count(rows, spec, b) > 0
  {
    var before, last := rows[..|rows| - 1], rows[|rows| - 1];
    if !InBucket(last, spec, b) {
      assert b in Occupied(before, spec);
      OccupiedHasCount(before, spec, b);
    }
  }

  /** The unbounded chart shows only buckets with data, oldest first, and counts every row with a readable date. */
  lemma UnboundedChart(rows: seq<Row>, now: int)
    ensures var points := Series(rows, All, now);
      && (forall i, j :: 0 <= i < j < |points| ==> points[i].bucket < points[j].bucket)
      && (forall k :: 0 <= k < |points| ==> points[k].count > 0)
      && SumCounts(points) == |Readable(rows, ActivityWindow(All, now))|
  {
    var spec, keys := ActivityWindow(All, now), Keys(rows, All, now);
    forall k | 0 <= k < |keys|
      ensures Count(rows, spec, keys[k]) > 0
    {
      assert keys[k] in keys;
      OccupiedHasCount(rows, spec, keys[k]);
    }
    SumIsCountsOver(rows, spec, keys, Series(rows, All, now));
    CountsAddUp(rows, spec, keys);
    CountInOccupied(rows, spec, keys);
  }

  // ----- fetching pages -----

  datatype Reply = Reply(items: seq<Row>, next: Option<string>)

  /** The paged endpoint: no cursor asks for the newest rows. */
  type Endpoint = Option<string> -> Reply

  predicate NoMore(next: Option<string>) {
    next == None || next == Some("")
  }

  /** The page's last row is readable and older than the window. */
  predicate ReachesBack(items: seq<Row>, since: Option<int>) {
    since.Some? && items != [] && items[|items| - 1].at.Some? && items[|items| - 1].at.value < since.value
  }

  /** The rows of at most left pages, and whether the paging ended before that cap. */
  function FetchFrom(fetch: Endpoint, cursor: Option<string>, since: Option<int>, left: nat): (seq<Row>, bool)
    decreases left
  {
    if left == 0 then ([], false)
    else
      var reply := fetch(cursor);
      if ReachesBack(reply.items, since) || NoMore(reply.next) then (reply.items, true)
      else
        var (rows, ended) := FetchFrom(fetch, reply.next, since, left - 1);
        (reply.items + rows, ended)
  }

  method FetchUpTo(fetch: Endpoint, since: Option<int>, cap: nat) returns (rows: seq<Row>, ghost ended: bool)
    ensures rows == FetchFrom(fetch, None, since, cap).0
    ensures ended == FetchFrom(fetch, None, since, cap).1
  {
    rows := [];
    ended := false;
    var cursor: Option<string> := None;
    ghost var (all, stops) := FetchFrom(fetch, None, since, cap);
    ghost var rest := all;
    assert rows + rest == all;
    for page := 0 to cap
      invariant !ended
      invariant FetchFrom(fetch, cursor, since, cap - page) == (rest, stops) && all == rows + rest
    {
      var reply := fetch(cursor);
      if ReachesBack(reply.items, since) || NoMore(reply.next) {
        rows := rows + reply.items;
        ended := true;
        return;
      }
      rest := FetchFrom(fetch, reply.next, since, cap - page - 1).0;
      assert rows + (reply.items + rest) == rows + reply.items + rest;
      rows := rows + reply.items;
      cursor := reply.next;
    }
    assert rows + [] == rows;
  }

  method FetchPages(fetch: Endpoint, since: Option<int>) returns (rows: seq<Row>, ghost ended: bool)
    ensures rows == FetchFrom(fetch, None, since, MAX_PAGES).0
    ensures ended == FetchFrom(fetch, None, since, MAX_PAGES).1
  {
    rows, ended := FetchUpTo(fetch, since, MAX_PAGES);
  }

  /** All rows behind a cursor, if following the cursors ends within n pages. */
  function History(fetch: Endpoint, cursor: Option<string>, n: nat): Option<seq<Row>>
    decreases n
  {
    if n == 0 then None
    else
      var reply := fetch(cursor);
      if NoMore(reply.next) then Some(reply.items)
      else
        var rest := History(fetch, reply.next, n - 1);
        if rest == None then None else Some(reply.items + rest.value)
  }

  predicate NewestFirst(rows: seq<Row>) {
    forall i, j :: 0 <= i < j < |rows| && rows[i].at.Some? && rows[j].at.Some? ==> rows[i].at.value >= rows[j].at.value
  }

  predicate AllOld(rows: seq<Row>, since: Option<int>) {
    forall i :: 0 <= i < |rows| ==> rows[i].at.Some? ==> since.Some? && rows[i].at.value < since.value
  }

  lemma OldBehind(items: seq<Row>, rest: seq<Row>, since: Option<int>)
    requires NewestFirst(items + rest) && ReachesBack(items, since)
    ensures AllOld(rest, since)
  {
    var n := |items|;
    forall i | 0 <= i < |rest| && rest[i].at.Some?
      ensures since.Some? && rest[i].at.value < since.value
    {
      assert (items + rest)[n - 1] == items[n - 1] && (items + rest)[n + i] == rest[i];
    }
  }

  lemma NewestFirstTail(items: seq<Row>, rest: seq<Row>)
    requires NewestFirst(items + rest)
    ensures NewestFirst(rest)
  {
    forall i, j | 0 <= i < j < |rest| && rest[i].at.Some? && rest[j].at.Some?
      ensures rest[i].at.value >= rest[j].at.value
    {
      assert (items + rest)[|items| + i] == rest[i] && (items + rest)[|items| + j] == rest[j];
    }
  }

  /** The fetched rows begin the history; if paging ended by itself, what follows is older than the window. */
  lemma {:induction false} FetchedIsPrefix(fetch: Endpoint, cursor: Option<string>, since: Option<int>,
    left: nat, n: nat)
    returns (dropped: seq<Row>)
    requires History(fetch, cursor, n).Some? && NewestFirst(History(fetch, cursor, n).value)
    ensures var (rows, ended) := FetchFrom(fetch, cursor, since, left);
      History(fetch, cursor, n).value == rows + dropped && (ended ==> AllOld(dropped, since))
    decreases left
  {
    var history := History(fetch, cursor, n).value;
    if left == 0 {
      dropped := history;
    } else {
      var reply := fetch(cursor);
      if NoMore(reply.next) {
        dropped := [];
      } else {
        var rest := History(fetch, reply.next, n - 1).value;
        if ReachesBack(reply.items, since) {
          dropped := rest;
          OldBehind(reply.items, rest, since);
        } else {
          NewestFirstTail(reply.items, rest);
          dropped := FetchedIsPrefix(fetch, reply.next, since, left - 1, n - 1);
          assert reply.items + (FetchFrom(fetch, reply.next, since, left - 1).0 + dropped)
            == reply.items + FetchFrom(fetch, reply.next, since, left - 1).0 + dropped;
        }
      }
    }
  }

  // ----- what dropping rows does to the chart -----

  /** No row the chart would show. */
  predicate NoneShown(rows: seq<Row>, window: Window, now: int)
    requires window != All
  {
    forall i :: 0 <= i < |rows| ==>
      !(rows[i].at.Some? && Opens(window, now) <= rows[i].at.value < Closes(window, now))
  }

  lemma {:induction false} CountAppend(rows: seq<Row>, more: seq<Row>, spec: Spec, b: int)
    requires spec.step > 0
    ensures Count(rows + more, spec, b) == Count(rows, spec, b) + Count(more, spec, b)
    ensures Count(more, spec, b) == 0 ==> LastLedger(rows + more, spec, b) == LastLedger(rows, spec, b)
  {
    if more == [] {
      assert rows + more == rows;
    } else {
      var before, last := more[..|more| - 1], more[|more| - 1];
      CountAppend(rows, before, spec, b);
      assert (rows + more)[..|rows + more| - 1] == rows + before;
    }
  }

  lemma {:induction false} CountZero(rows: seq<Row>, spec: Spec, b: int)
    requires spec.step > 0
    ensures Count(rows, spec, b) == 0 <==> forall i :: 0 <= i < |rows| ==> !InBucket(rows[i], spec, b)
  {
    if rows != [] {
      var before, last := rows[..|rows| - 1], rows[|rows| - 1];
      CountZero(before, spec, b);
      assert rows == before + [last];
      if Count(rows, spec, b) == 0 {
        forall i | 0 <= i < |rows|
          ensures !InBucket(rows[i], spec, b)
        {
          assert i < |before| ==> rows[i] == before[i];
        }
      }
    }
  }

  /**
   A bounded chart of the fetched rows is the chart of the whole history exactly
   when no dropped row belongs on it.
   */
  lemma SameChart(rows: seq<Row>, dropped: seq<Row>, window: Window, now: int)
    requires window != All
    ensures Series(rows, window, now) == Series(rows + dropped, window, now) <==> NoneShown(dropped, window, now)
  {
    var spec, keys := ActivityWindow(window, now), Keys([], window, now);
    if NoneShown(dropped, window, now) {
      forall k | 0 <= k < |keys|
        ensures PointOf(rows, spec, keys[k]) == PointOf(rows + dropped, spec, keys[k])
      {
        forall i | 0 <= i < |dropped|
          ensures !InBucket(dropped[i], spec, keys[k])
        {
          assert keys[k] in keys;
          ShownBuckets([], window, now, dropped[i]);
        }
        CountZero(dropped, spec, keys[k]);
        CountAppend(rows, dropped, spec, keys[k]);
      }
    }
    if Series(rows, window, now) == Series(rows + dropped, window, now) {
      SameChartShowsAll(rows, dropped, window, now);
    }
  }

  lemma SameChartShowsAll(rows: seq<Row>, dropped: seq<Row>, window: Window, now: int)
    requires window != All && Series(rows, window, now) == Series(rows + dropped, window, now)
    ensures NoneShown(dropped, window, now)
  {
    var spec, keys := ActivityWindow(window, now), Keys([], window, now);
    forall i | 0 <= i < |dropped|
      ensures !(dropped[i].at.Some? && Opens(window, now) <= dropped[i].at.value < Closes(window, now))
    {
      ShownBuckets([], window, now, dropped[i]);
      if Counted(dropped[i], spec) && dropped[i].at.value / spec.step in keys {
        var k :| 0 <= k < |keys| && keys[k] == dropped[i].at.value / spec.step;
        assert Series(rows, window, now)[k] == Series(rows + dropped, window, now)[k];
        CountAppend(rows, dropped, spec, keys[k]);
        CountZero(dropped, spec, keys[k]);
      }
    }
  }

  /**
   Early stopping loses nothing: over a history listed newest first, a bounded chart of rows
   whose paging ended before the page cap equals the chart of the whole history.
   */
  lemma EarlyStopLosesNothing(fetch: Endpoint, window: Window, now: int, n: nat)
    requires window != All
    requires History(fetch, None, n).Some? && NewestFirst(History(fetch, None, n).value)
    requires FetchFrom(fetch, None, ActivityWindow(window, now).since, MAX_PAGES).1
    ensures Series(FetchFrom(fetch, None, ActivityWindow(window, now).since, MAX_PAGES).0, window, now)
      == Series(History(fetch, None, n).value, window, now)
  {
    var since := ActivityWindow(window, now).since;
    var dropped := FetchedIsPrefix(fetch, None, since, MAX_PAGES, n);
    assert NoneShown(dropped, window, now);
    SameChart(FetchFrom(fetch, None, since, MAX_PAGES).0, dropped, window, now);
  }

  /** Without a lower bound only the end of the history ends the paging early, and then every row was fetched. */
  lemma {:induction false} UnboundedFetchIsWhole(fetch: Endpoint, cursor: Option<string>, left: nat, n: nat)
    requires History(fetch, cursor, n).Some? && FetchFrom(fetch, cursor, None, left).1
    ensures FetchFrom(fetch, cursor, None, left).0 == History(fetch, cursor, n).value
    decreases left
  {
    if !NoMore(fetch(cursor).next) {
      UnboundedFetchIsWhole(fetch, fetch(cursor).next, left - 1, n - 1);
    }
  }

  /** For the unbounded chart too, paging that ended before the page cap gives the chart of the whole history. */
  lemma UnboundedEarlyStopLosesNothing(fetch: Endpoint, now: int, n: nat)
    requires History(fetch, None, n).Some?
    requires FetchFrom(fetch, None, ActivityWindow(All, now).since, MAX_PAGES).1
    ensures Series(FetchFrom(fetch, None, ActivityWindow(All, now).since, MAX_PAGES).0, All, now)
      == Series(History(fetch, None, n).value, All, now)
  {
    UnboundedFetchIsWhole(fetch, None, MAX_PAGES, n);
  }
}
