/** The sharded worker's pager: filtering a paged store must equal paging the filtered table. */
module ScopedPager {

  datatype Contract = Contract(id: string, network: string)

  datatype Reply = Page(rows: seq<Contract>, next: string) | Failed(error: string)

  type Store = (string, nat) -> Reply

  const DEFAULT_LIMIT: nat := 50

  function Limit(requested: int): nat {
    if requested <= 0 then DEFAULT_LIMIT else requested
  }

  // ----- id order -----

  predicate Less(a: string, b: string) {
    |b| > 0 && (|a| == 0 || a[0] < b[0] || (a[0] == b[0] && Less(a[1..], b[1..])))
  }

  lemma {:induction false} LessAsymmetric(a: string, b: string)
    requires Less(a, b)
    ensures !Less(b, a)
  {
    if |a| > 0 && a[0] == b[0] {
      LessAsymmetric(a[1..], b[1..]);
    }
  }

  lemma {:induction false} LessIrreflexive(a: string)
    ensures !Less(a, a)
  {
    if |a| > 0 {
      LessIrreflexive(a[1..]);
    }
  }

  /** Rows in strictly ascending id order; no id is empty. */
  predicate Table(rows: seq<Contract>) {
    (forall i :: 0 <= i < |rows| ==> rows[i].id != "")
    && forall i, j :: 0 <= i < j < |rows| ==> Less(rows[i].id, rows[j].id)
  }

  /** Where the rows with an id above the cursor start. */
  function Start(table: seq<Contract>, cursor: string): (k: nat)
    ensures k <= |table|
    ensures k < |table| ==> Less(cursor, table[k].id)
    ensures forall i :: 0 <= i < k ==> !Less(cursor, table[i].id)
  {
    StartFrom(table, cursor, 0)
  }

  function StartFrom(table: seq<Contract>, cursor: string, k: nat): (r: nat)
    requires k <= |table|
    ensures k <= r <= |table|
    ensures r < |table| ==> Less(cursor, table[r].id)
    ensures forall i :: k <= i < r ==> !Less(cursor, table[i].id)
    decreases |table| - k
  {
    if k == |table| || Less(cursor, table[k].id) then k else StartFrom(table, cursor, k + 1)
  }

  lemma StartAfter(table: seq<Contract>, k: nat)
    requires Table(table) && k < |table|
    ensures Start(table, table[k].id) == k + 1
  {
    forall j | 0 <= j < |table|
      ensures Less(table[k].id, table[j].id) <==> k < j
    {
      if j < k {
        LessAsymmetric(table[j].id, table[k].id);
      } else if j == k {
        LessIrreflexive(table[k].id);
      }
    }
    assert k + 1 < |table| ==> Less(table[k].id, table[k + 1].id);
  }

  // ----- the inner store's promise -----

  /**
   One inner page: the next rows above the cursor, at most limit of them; an empty
   cursor only when nothing is left, and otherwise the last row's id. It may claim a
   successor when nothing is left.
   */
  predicate KeysetPage(table: seq<Contract>, cursor: string, limit: nat, page: Reply) {
    page.Page? ==>
      var p, n := Start(table, cursor), |page.rows|;
      && n <= limit && p + n <= |table| && page.rows == table[p..p + n]
      && (page.next == "" ==> p + n == |table|)
      && (page.next != "" && n > 0 ==> page.next == page.rows[n - 1].id)
  }

  /** A page with a successor is followed by the rows right behind it. */
  lemma SuccessorStart(table: seq<Contract>, cursor: string, limit: nat, page: Reply)
    requires Table(table) && KeysetPage(table, cursor, limit, page) && page.Page? && page.rows != [] && page.next != ""
    ensures Start(table, page.next) == Start(table, cursor) + |page.rows|
  {
    StartAfter(table, Start(table, cursor) + |page.rows| - 1);
  }

  ghost predicate Keyset(store: Store, table: seq<Contract>, limit: nat) {
    forall cursor :: KeysetPage(table, cursor, limit, store(cursor, limit))
  }

  /** Neither fails nor claims a successor to an empty page. */
  predicate SoundPage(page: Reply) {
    page.Page? && (page.rows == [] ==> page.next == "")
  }

  ghost predicate Sound(store: Store, limit: nat) {
    forall cursor :: SoundPage(store(cursor, limit))
  }

  // ----- what a page of the scoped table should be -----

  /**
   The page handed back when the store claims a successor to an empty page: the rows selected up to
   there, fewer than limit, and the store's own cursor.
   */
  predicate EndsEarly(store: Store, table: seq<Contract>, scope: set<string>, cursor: string, limit: nat,
                      inner: string, page: Reply) {
    var p, q := Start(table, cursor), Start(table, inner);
    && page.Page? && page.next != "" && store(inner, limit) == Page([], page.next)
    && p <= q && page.rows == Filter(table[p..q], scope) && |page.rows| < limit
  }

  function Filter(rows: seq<Contract>, scope: set<string>): (r: seq<Contract>)
    ensures |r| <= |rows|
  {
    if rows == [] then []
    else
      var before, last := Filter(rows[..|rows| - 1], scope), rows[|rows| - 1];
      if last.id in scope then before + [last] else before
  }

  /** The first limit rows of the filtered table above the cursor, and the cursor to go on with. */
  function PageOf(table: seq<Contract>, scope: set<string>, cursor: string, limit: nat): Reply
    requires limit > 0
  {
    var selected := Filter(table[Start(table, cursor)..], scope);
    if |selected| >= limit then Page(selected[..limit], selected[limit - 1].id) else Page(selected, "")
  }

  /**
   Over a store that neither fails nor claims a successor to an empty page, exactly one page of the
   filtered table; otherwise that, the store's own failure, or an early end.
   */
  ghost predicate Outcome(store: Store, table: seq<Contract>, scope: set<string>, cursor: string, limit: nat, r: Reply)
    requires limit > 0
  {
    && (Sound(store, limit) ==> r == PageOf(table, scope, cursor, limit))
    && (r == PageOf(table, scope, cursor, limit)
        || (r.Failed? && exists inner :: store(inner, limit) == r)
        || exists inner :: EndsEarly(store, table, scope, cursor, limit, inner, r))
  }

  lemma InnerFailure(store: Store, table: seq<Contract>, scope: set<string>, cursor: string, limit: nat,
                     inner: string, r: Reply)
    requires limit > 0 && r.Failed? && store(inner, limit) == r
    ensures Outcome(store, table, scope, cursor, limit, r)
  {
    assert !SoundPage(store(inner, limit));
  }

  lemma EmptySuccessor(store: Store, table: seq<Contract>, scope: set<string>, cursor: string, limit: nat,
                       inner: string, r: Reply)
    requires limit > 0 && EndsEarly(store, table, scope, cursor, limit, inner, r)
    ensures Outcome(store, table, scope, cursor, limit, r)
  {
    assert !SoundPage(store(inner, limit));
  }

  lemma {:induction false} FilterAppend(a: seq<Contract>, b: seq<Contract>, scope: set<string>)
    ensures Filter(a + b, scope) == Filter(a, scope) + Filter(b, scope)
  {
    if b == [] {
      assert a + b == a;
    } else {
      var before, last := b[..|b| - 1], b[|b| - 1];
      FilterAppend(a, before, scope);
      AppendOneMore(a, before, last, scope);
      assert b == before + [last];
    }
  }

  lemma AppendOneMore(a: seq<Contract>, before: seq<Contract>, last: Contract, scope: set<string>)
    requires Filter(a + before, scope) == Filter(a, scope) + Filter(before, scope)
    ensures Filter(a + (before + [last]), scope) == Filter(a, scope) + Filter(before + [last], scope)
  {
    Regroup(a, before, [last]);
    Regroup(Filter(a, scope), Filter(before, scope), if last.id in scope then [last] else []);
  }

  lemma Regroup(a: seq<Contract>, b: seq<Contract>, c: seq<Contract>)
    ensures a + (b + c) == a + b + c
  {
  }

  lemma FilterNext(table: seq<Contract>, scope: set<string>, p: nat, q: nat)
    requires p <= q < |table|
    ensures Filter(table[p..q + 1], scope)
      == Filter(table[p..q], scope) + if table[q].id in scope then [table[q]] else []
  {
    assert table[p..q + 1][..q - p] == table[p..q];
  }

  /** Selecting the limit-th row ends the page there. */
  lemma FullPage(table: seq<Contract>, scope: set<string>, cursor: string, limit: nat, q: nat)
    requires limit > 0 && Start(table, cursor) <= q <= |table|
    requires |Filter(table[Start(table, cursor)..q], scope)| == limit
    ensures var out := Filter(table[Start(table, cursor)..q], scope);
      PageOf(table, scope, cursor, limit) == Page(out, out[limit - 1].id)
  {
    var p := Start(table, cursor);
    var out := Filter(table[p..q], scope);
    assert table[p..] == table[p..q] + table[q..];
    FilterAppend(table[p..q], table[q..], scope);
    assert (out + Filter(table[q..], scope))[..limit] == out;
  }

  lemma LastPage(table: seq<Contract>, scope: set<string>, cursor: string, limit: nat)
    requires limit > 0 && |Filter(table[Start(table, cursor)..|table|], scope)| < limit
    ensures PageOf(table, scope, cursor, limit) == Page(Filter(table[Start(table, cursor)..|table|], scope), "")
  {
    assert table[Start(table, cursor)..|table|] == table[Start(table, cursor)..];
  }

  lemma EmptyScope(rows: seq<Contract>)
    ensures Filter(rows, {}) == []
  {
  }

  class ScopedStore {
    const store: Store
    var scope: set<string>

    constructor (inner: Store)
      ensures store == inner && scope == {}
    {
      store := inner;
      scope := {};
    }

    /** Replace the assigned contracts; blank ids are dropped. */
    method SetScope(contractIds: seq<string>)
      modifies this
      ensures forall id :: id in scope <==> id in contractIds && id != ""
    {
      var next: set<string> := {};
      for i := 0 to |contractIds|
        invariant forall id :: id in next <==> id in contractIds[..i] && id != ""
      {
        if contractIds[i] == "" {
          continue;
        }
        next := next + {contractIds[i]};
      }
      assert contractIds[..|contractIds|] == contractIds;
      scope := next;
    }

    method InScope(contractId: string) returns (r: bool)
      ensures r <==> contractId in scope
    {
      if |scope| == 0 {
        return false;
      }
      r := contractId in scope;
    }

    /** Take the in-scope rows of one inner page until limit rows are selected. */
    method TakeFrom(batch: seq<Contract>, limit: nat, chosen: set<string>, before: seq<Contract>,
                    ghost table: seq<Contract>, ghost p: nat, ghost q: nat)
      returns (out: seq<Contract>, full: bool, ghost end: nat)
      requires p <= q && q + |batch| <= |table| && batch == table[q..q + |batch|]
      requires before == Filter(table[p..q], chosen) && |before| < limit
      ensures q <= end <= q + |batch| && out == Filter(table[p..end], chosen)
      ensures full ==> |out| == limit && out != [] && end > q && out[limit - 1] == table[end - 1]
      ensures !full ==> |out| < limit && end == q + |batch|
    {
      out, full := before, false;
      end := q;
      for i := 0 to |batch|
        invariant end == q + i && out == Filter(table[p..end], chosen) && |out| < limit
      {
        FilterNext(table, chosen, p, end);
        end := end + 1;
        if batch[i].id !in chosen {
          continue;
        }
        out := out + [batch[i]];
        if |out| == limit {
          full := true;
          return;
        }
      }
    }

    /** One page of the filtered table, or else the store's own failure or early end. */
    method ListContracts(cursor: string, requested: int, ghost table: seq<Contract>) returns (r: Reply)
      requires Table(table) && Keyset(store, table, Limit(requested))
      ensures Outcome(store, table, scope, cursor, Limit(requested), r)
    {
      if |scope| == 0 {
        EmptyScope(table[Start(table, cursor)..]);
        return Page([], "");
      }
      r := Scan(cursor, Limit(requested), table);
    }

    method Scan(cursor: string, limit: nat, ghost table: seq<Contract>) returns (r: Reply)
      requires limit > 0 && Table(table) && Keyset(store, table, limit)
      ensures Outcome(store, table, scope, cursor, limit, r)
    {
      var out: seq<Contract> := [];
      var inner := cursor;
      ghost var p := Start(table, cursor);
      ghost var q := p;
      while true
        invariant p <= q == Start(table, inner) && out == Filter(table[p..q], scope) && |out| < limit
        decreases |table| - q
      {
        var reply := store(inner, limit);
        assert KeysetPage(table, inner, limit, store(inner, limit));
        if reply.Failed? {
          InnerFailure(store, table, scope, cursor, limit, inner, reply);
          return reply;
        }
        var full: bool;
        ghost var end: nat;
        out, full, end := TakeFrom(reply.rows, limit, scope, out, table, p, q);
        if full {
          FullPage(table, scope, cursor, limit, end);
          return Page(out, out[limit - 1].id);
        }
        if reply.next == "" {
          assert end == |table|;
          LastPage(table, scope, cursor, limit);
          return Page(out, "");
        }
        if |reply.rows| == 0 {
          EmptySuccessor(store, table, scope, cursor, limit, inner, Page(out, reply.next));
          return Page(out, reply.next);
        }
        SuccessorStart(table, inner, limit, reply);
        inner := reply.next;
        q := end;
      }
    }
  }

  // ----- following the cursors -----

  lemma {:induction false} FilterHas(rows: seq<Contract>, scope: set<string>, k: nat) returns (i: nat)
    requires k < |Filter(rows, scope)|
    ensures i < |rows| && rows[i] == Filter(rows, scope)[k] && rows[i].id in scope
    ensures Filter(rows[..i + 1], scope) == Filter(rows, scope)[..k + 1]
  {
    var n := |rows| - 1;
    var before := Filter(rows[..n], scope);
    if k < |before| {
      i := FilterHas(rows[..n], scope, k);
      assert rows[..n][..i + 1] == rows[..i + 1];
    } else {
      i := n;
      assert rows[..i + 1] == rows;
    }
  }

  lemma FullPageHasNext(table: seq<Contract>, scope: set<string>, cursor: string, limit: nat)
    requires Table(table) && limit > 0 && |Filter(table[Start(table, cursor)..], scope)| >= limit
    ensures PageOf(table, scope, cursor, limit).next != ""
  {
    var i := FilterHas(table[Start(table, cursor)..], scope, limit - 1);
    assert table[Start(table, cursor) + i].id != "";
  }

  /** A full page's cursor continues right behind the page's last row. */
  lemma NextPage(table: seq<Contract>, scope: set<string>, cursor: string, limit: nat)
    requires Table(table) && limit > 0 && PageOf(table, scope, cursor, limit).next != ""
    ensures var page := PageOf(table, scope, cursor, limit);
      && Start(table, cursor) < Start(table, page.next)
      && Filter(table[Start(table, cursor)..], scope)
         == page.rows + Filter(table[Start(table, page.next)..], scope)
  {
    var p := Start(table, cursor);
    var q := CutAfter(table, scope, p, limit);
    StartAfter(table, q - 1);
  }

  /** Where the limit-th selected row from p on stands. */
  lemma CutAfter(table: seq<Contract>, scope: set<string>, p: nat, limit: nat) returns (q: nat)
    requires p <= |table| && limit > 0 && |Filter(table[p..], scope)| >= limit
    ensures p < q <= |table| && table[q - 1] == Filter(table[p..], scope)[limit - 1]
    ensures Filter(table[p..], scope) == Filter(table[p..], scope)[..limit] + Filter(table[q..], scope)
  {
    var i := FilterHas(table[p..], scope, limit - 1);
    FilterSplit(table[p..], scope, i + 1);
    q := p + i + 1;
    assert table[p..][i + 1..] == table[q..];
  }

  lemma FilterSplit(rows: seq<Contract>, scope: set<string>, n: nat)
    requires n <= |rows|
    ensures Filter(rows, scope) == Filter(rows[..n], scope) + Filter(rows[n..], scope)
  {
    assert rows == rows[..n] + rows[n..];
    FilterAppend(rows[..n], rows[n..], scope);
  }

  /** A caller that follows the cursors until one is empty. */
  function Follow(table: seq<Contract>, scope: set<string>, cursor: string, limit: nat): seq<seq<Contract>>
    requires Table(table) && limit > 0
    decreases |table| - Start(table, cursor)
  {
    var page := PageOf(table, scope, cursor, limit);
    if page.next == "" then [page.rows]
    else
      NextPage(table, scope, cursor, limit);
      [page.rows] + Follow(table, scope, page.next, limit)
  }

  function Concat(pages: seq<seq<Contract>>): seq<Contract> {
    if pages == [] then [] else pages[0] + Concat(pages[1..])
  }

  /**
   Following terminates and yields the rows in scope above the cursor, each once, in id order,
   on pages within the limit.
   */
  lemma {:induction false} FollowYieldsScope(table: seq<Contract>, scope: set<string>, cursor: string, limit: nat)
    requires Table(table) && limit > 0
    ensures var pages := Follow(table, scope, cursor, limit);
      && Concat(pages) == Filter(table[Start(table, cursor)..], scope)
      && forall k :: 0 <= k < |pages| ==> |pages[k]| <= limit
    decreases |table| - Start(table, cursor)
  {
    var page := PageOf(table, scope, cursor, limit);
    if page.next != "" {
      NextPage(table, scope, cursor, limit);
      FollowYieldsScope(table, scope, page.next, limit);
      var rest := Follow(table, scope, page.next, limit);
      assert ([page.rows] + rest)[1..] == rest;
    } else {
      if |Filter(table[Start(table, cursor)..], scope)| >= limit {
        FullPageHasNext(table, scope, cursor, limit);
      }
      assert [page.rows][1..] == [];
    }
  }

  /** From the empty cursor: every contract in scope once, and nothing else, in ascending order. */
  lemma FollowFromStart(table: seq<Contract>, scope: set<string>, limit: nat)
    requires Table(table) && limit > 0
    ensures var all := Concat(Follow(table, scope, "", limit));
      && Table(all)
      && forall c :: c in all <==> c in table && c.id in scope
  {
    FollowYieldsScope(table, scope, "", limit);
    assert table[0..] == table;
    FilterKeepsOrder(table, scope);
    forall c {:trigger c in table}
      ensures c in Filter(table, scope) <==> c in table && c.id in scope
    {
      FilterMember(table, scope, c);
    }
  }

  lemma {:induction false} FilterMember(rows: seq<Contract>, scope: set<string>, c: Contract)
    ensures c in Filter(rows, scope) <==> c in rows && c.id in scope
  {
    if rows != [] {
      var before, last := rows[..|rows| - 1], rows[|rows| - 1];
      FilterMember(before, scope, c);
      assert rows == before + [last];
    }
  }

  lemma {:induction false} FilterKeepsOrder(table: seq<Contract>, scope: set<string>)
    requires Table(table)
    ensures Table(Filter(table, scope))
  {
    if table != [] {
      var before, last := table[..|table| - 1], table[|table| - 1];
      FilterKeepsOrder(before, scope);
      var filtered := Filter(before, scope);
      forall i | 0 <= i < |filtered|
        ensures Less(filtered[i].id, last.id)
      {
        FilterMember(before, scope, filtered[i]);
        var k :| 0 <= k < |before| && before[k] == filtered[i];
        assert table[k] == before[k];
      }
    }
  }
}
