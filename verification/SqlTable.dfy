/**
 The meaning of the SQL statements that the two dialects generate for one topic table.

 Row ids are positions in the table: rows are only ever appended, and the statements use an id
 only to find its row and to compare it with other ids.
 */
module SqlTable {
  import opened Options
  import opened Messages

  datatype Dialect = SQLite | Postgres

  datatype Row = Row(
    content: Message,
    group: string,
    claimedAt: Option<int>,
    ackedAt: Option<int>,
    deliveryCount: nat,
    nextDeliveryAt: int)

  // ---- the updating statements -------------------------------------------------------------

  function FreshRow(content: Message, group: string, now: int): Row {
    Row(content, group, None, None, 0, now)
  }

  function Claimed(row: Row, now: int, deadline: nat): Row {
    row.(claimedAt := Some(now),
         nextDeliveryAt := now + deadline,
         deliveryCount := row.deliveryCount + 1)
  }

  function Acked(row: Row, now: int): Row {
    row.(ackedAt := Some(now))
  }

  function Nacked(row: Row, now: int): Row {
    row.(nextDeliveryAt := now, claimedAt := None)
  }

  // ---- select_pending ----------------------------------------------------------------------

  /** The WHERE clause. Only SQLite also asks for `claimed_at IS NULL`. */
  predicate Eligible(d: Dialect, row: Row, group: string, now: int) {
    && row.group == group
    && row.nextDeliveryAt <= now
    && row.ackedAt.None?
    && (d.SQLite? ==> row.claimedAt.None?)
  }

  /** The ORDER BY clause: by due time, then by id. */
  predicate Ahead(rows: seq<Row>, i: nat, j: nat)
    requires i < |rows| && j < |rows|
  {
    || rows[i].nextDeliveryAt < rows[j].nextDeliveryAt
    || (rows[i].nextDeliveryAt == rows[j].nextDeliveryAt && i < j)
  }

  ghost predicate InTable(rows: seq<Row>, ids: seq<nat>) {
    forall k :: 0 <= k < |ids| ==> ids[k] < |rows|
  }

  ghost predicate Ordered(rows: seq<Row>, ids: seq<nat>)
    requires InTable(rows, ids)
  {
    forall a, b :: 0 <= a < b < |ids| ==> Ahead(rows, ids[a], ids[b])
  }

  /** Puts `id` at its place in an ordered list of ids. */
  function Place(rows: seq<Row>, id: nat, ids: seq<nat>): (r: seq<nat>)
    requires id < |rows| && forall k :: 0 <= k < |ids| ==> ids[k] < |rows|
    ensures InTable(rows, r)
    ensures forall x :: x in r <==> x == id || x in ids
    ensures Ordered(rows, ids) && id !in ids ==> Ordered(rows, r)
  {
    if ids == [] then [id]
    else if Ahead(rows, id, ids[0]) then [id] + ids
    else
      var rest := Place(rows, id, ids[1..]);
      assert ids == [ids[0]] + ids[1..];
      assert forall k :: 0 <= k < |rest| ==> rest[k] in rest;
      [ids[0]] + rest
  }

  /** The eligible ids among the first `n` rows, ordered. */
  function Ranked(d: Dialect, rows: seq<Row>, group: string, now: int, n: nat): (ids: seq<nat>)
    requires n <= |rows|
    ensures forall x: nat :: x in ids <==> x < n && Eligible(d, rows[x], group, now)
    ensures InTable(rows, ids) && Ordered(rows, ids)
  {
    if n == 0 then []
    else
      var ids := Ranked(d, rows, group, now, n - 1);
      if Eligible(d, rows[n - 1], group, now) then Place(rows, n - 1, ids) else ids
  }

  function SelectPending(d: Dialect, rows: seq<Row>, group: string, now: int, limit: nat): seq<nat> {
    var ids := Ranked(d, rows, group, now, |rows|);
    if |ids| <= limit then ids else ids[..limit]
  }

  /**
   What the statement promises: eligible rows only, in order, and a row is left out only when the
   limit is used up by rows that are all ahead of it.
   */
  lemma SelectPendingIsTopOfOrder(d: Dialect, rows: seq<Row>, group: string, now: int, limit: nat)
    ensures var ids := SelectPending(d, rows, group, now, limit);
            && |ids| <= limit
            && InTable(rows, ids) && Ordered(rows, ids)
            && (forall x :: x in ids ==> x < |rows| && Eligible(d, rows[x], group, now))
            && (forall x: nat :: x < |rows| && Eligible(d, rows[x], group, now) && x !in ids ==>
                  |ids| == limit && forall y :: y in ids ==> Ahead(rows, y, x))
  {
  }

  /** The due time and the id that the rows are ordered by, smaller ones first. */
  ghost predicate DueBefore(rows: seq<Row>, i: nat, j: nat)
    requires i < |rows| && j < |rows|
  {
    rows[i].nextDeliveryAt <= rows[j].nextDeliveryAt && (rows[i].nextDeliveryAt == rows[j].nextDeliveryAt ==> i < j)
  }

  /** The row is unacked, due, of the group and, in SQLite, unclaimed. */
  ghost predicate Pending(d: Dialect, row: Row, group: string, now: int) {
    && row.group == group && row.ackedAt == None && now - row.nextDeliveryAt >= 0
    && !(d == SQLite && row.claimedAt != None)
  }

  /** These are the rows that the statement asks for, in their order. */
  ghost predicate IsTop(d: Dialect, rows: seq<Row>, group: string, now: int, limit: nat, ids: seq<nat>) {
    && |ids| <= limit
    && (forall k :: 0 <= k < |ids| ==> ids[k] < |rows| && Pending(d, rows[ids[k]], group, now))
    && (forall a, b :: 0 <= a < b < |ids| ==> DueBefore(rows, ids[a], ids[b]) && ids[a] != ids[b])
    && (forall x: nat :: x < |rows| && Pending(d, rows[x], group, now) && x !in ids ==>
          |ids| == limit && forall k :: 0 <= k < |ids| ==> DueBefore(rows, ids[k], x))
  }

  /** Two such lists that begin alike go on alike. */
  lemma TopsGoOnAlike(
    d: Dialect, rows: seq<Row>, group: string, now: int, limit: nat, a: seq<nat>, b: seq<nat>, k: nat)
    requires IsTop(d, rows, group, now, limit, a) && IsTop(d, rows, group, now, limit, b)
    requires k < |a| && k <= |b| && a[..k] == b[..k]
    ensures k < |b| && (a[k] == b[k] || DueBefore(rows, b[k], a[k]))
  {
    assert forall j :: 0 <= j < k ==> a[..k][j] == a[j] && b[..k][j] == b[j];
    if a[k] in b {
      var j :| 0 <= j < |b| && b[j] == a[k];
      assert j >= k;
    }
  }

  lemma {:induction false} TopsAlike(
    d: Dialect, rows: seq<Row>, group: string, now: int, limit: nat, a: seq<nat>, b: seq<nat>, k: nat)
    requires IsTop(d, rows, group, now, limit, a) && IsTop(d, rows, group, now, limit, b)
    requires k <= |a|
    ensures k <= |b| && a[..k] == b[..k]
  {
    if k > 0 {
      TopsAlike(d, rows, group, now, limit, a, b, k - 1);
      TopsGoOnAlike(d, rows, group, now, limit, a, b, k - 1);
      TopsGoOnAlike(d, rows, group, now, limit, b, a, k - 1);
      assert a[..k] == a[..k - 1] + [a[k - 1]] && b[..k] == b[..k - 1] + [b[k - 1]];
    }
  }

  lemma ResultIsTop(d: Dialect, rows: seq<Row>, group: string, now: int, limit: nat)
    ensures IsTop(d, rows, group, now, limit, SelectPending(d, rows, group, now, limit))
  {
    var ids := SelectPending(d, rows, group, now, limit);
    SelectPendingIsTopOfOrder(d, rows, group, now, limit);
    forall k | 0 <= k < |ids| ensures ids[k] < |rows| && Pending(d, rows[ids[k]], group, now) {
      assert ids[k] in ids && Eligible(d, rows[ids[k]], group, now);
    }
    forall x: nat | x < |rows| && Pending(d, rows[x], group, now) && x !in ids
      ensures |ids| == limit && forall k :: 0 <= k < |ids| ==> DueBefore(rows, ids[k], x)
    {
      assert Eligible(d, rows[x], group, now);
      forall k | 0 <= k < |ids| ensures DueBefore(rows, ids[k], x) { assert Ahead(rows, ids[k], x); }
    }
  }

  /** In the columns of the table, and of any list of ids: it is the result exactly if the statement asks for it. */
  lemma SelectPendingIff(d: Dialect, rows: seq<Row>, group: string, now: int, limit: nat, ids: seq<nat>)
    ensures ids == SelectPending(d, rows, group, now, limit) <==> IsTop(d, rows, group, now, limit, ids)
  {
    var result := SelectPending(d, rows, group, now, limit);
    ResultIsTop(d, rows, group, now, limit);
    if IsTop(d, rows, group, now, limit, ids) {
      TopsAlike(d, rows, group, now, limit, ids, result, |ids|);
      TopsAlike(d, rows, group, now, limit, result, ids, |result|);
      assert ids[..|ids|] == ids && result[..|result|] == result;
    }
  }
}
