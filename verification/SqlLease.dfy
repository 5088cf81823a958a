/**
 Visibility timeouts. `next_delivery_at` is a lease end while a row is claimed and lies in the past
 otherwise; from this follow who is eligible, when a row can be delivered twice, and when the two
 dialects behave alike.
 */
module SqlLease {
  import opened Options
  import opened SqlTable
  import opened SqlQueue
  import SqlExclusive
  import Messages

  ghost predicate TimedRow(c: Config, row: Row, now: int) {
    match row.claimedAt
    case Some(at) => at <= now && row.nextDeliveryAt == at + c.ackDeadline(row.group)
    case None => row.nextDeliveryAt <= now
  }

  ghost predicate Timed(c: Config, s: State) {
    forall r: nat :: r < |s.rows| ==> TimedRow(c, s.rows[r], s.now)
  }

  lemma TimedKept(c: Config, s: State, e: Event)
    requires s.WellFormed() && Timed(c, s)
    ensures Timed(c, Step(c, s, e))
  {
  }

  lemma {:induction false} Reachable(c: Config, ss: seq<State>, es: seq<Event>, k: nat)
    requires Run(c, ss, es) && ss[0] == INITIAL && k <= |es|
    ensures ss[k].WellFormed() && Timed(c, ss[k])
  {
    RunStaysWellFormed(c, ss, es, k);
    if k > 0 {
      Reachable(c, ss, es, k - 1);
      assert StepAt(c, ss, es, k - 1);
      TimedKept(c, ss[k - 1], es[k - 1]);
    }
  }

  ghost predicate LeaseEnded(c: Config, row: Row, now: int) {
    row.claimedAt.Some? && row.claimedAt.value + c.ackDeadline(row.group) <= now
  }

  /**
   Who is eligible, in every reachable state: in SQLite the unacked rows that nobody has claimed; in
   Postgres also those whose lease has ended. An abandoned claim thus comes back in Postgres exactly
   at its lease end, and never in SQLite.
   */
  lemma WhoIsEligible(c: Config, ss: seq<State>, es: seq<Event>, k: nat, r: nat)
    requires Run(c, ss, es) && ss[0] == INITIAL && k <= |es| && r < |ss[k].rows|
    ensures var row := ss[k].rows[r];
            Eligible(c.dialect, row, row.group, ss[k].now) <==>
            row.ackedAt.None? &&
            (row.claimedAt.None? || (c.dialect.Postgres? && LeaseEnded(c, row, ss[k].now)))
  {
    Reachable(c, ss, es, k);
    assert TimedRow(c, ss[k].rows[r], ss[k].now);
  }

  // ---- redelivery only after the lease or a nack -----------------------------------------------

  /** A poll at event p fetched row r, a whole lease after event i. */
  ghost predicate PolledLate(c: Config, ss: seq<State>, es: seq<Event>, r: nat, i: nat, p: nat)
    requires |ss| == |es| + 1 && i < |ss|
  {
    && p < |es| && r < |ss[p].rows|
    && Polls(ss[p], es[p], ss[p].rows[r].group)
    && r in ss[p + 1].Batch(ss[p].rows[r].group)
    && ss[i].now + c.ackDeadline(ss[p].rows[r].group) <= ss[p].now
  }

  ghost predicate LeaseHolds(c: Config, s: State, r: nat, since: int) {
    && r < |s.rows|
    && s.rows[r].claimedAt.Some?
    && since <= s.rows[r].claimedAt.value
  }

  lemma LeaseStarts(c: Config, s: State, e: Event, r: nat)
    requires s.WellFormed() && Claims(s, e, r)
    ensures LeaseHolds(c, Step(c, s, e), r, s.now)
    ensures r !in Step(c, s, e).Batch(s.rows[r].group)
  {
  }

  lemma LeaseKept(c: Config, s: State, e: Event, r: nat, since: int)
    requires s.WellFormed() && Timed(c, s) && LeaseHolds(c, s, r, since) && since <= s.now
    requires !Nacks(s, e, r)
    ensures var t := Step(c, s, e);
      && LeaseHolds(c, t, r, since) && since <= t.now
      && t.rows[r].group == s.rows[r].group
  {
  }

  /** Only a poll after the lease end fetches the row. */
  lemma FetchedAfterLease(c: Config, s: State, e: Event, r: nat, since: int)
    requires s.WellFormed() && Timed(c, s) && LeaseHolds(c, s, r, since)
    requires var g := s.rows[r].group; r in Step(c, s, e).Batch(g) && r !in s.Batch(g)
    ensures Polls(s, e, s.rows[r].group) && since + c.ackDeadline(s.rows[r].group) <= s.now
  {
  }

  lemma {:induction false} LeaseLasts(c: Config, ss: seq<State>, es: seq<Event>, r: nat, i: nat, k: nat)
    requires Run(c, ss, es) && ss[0] == INITIAL && i < k <= |es|
    requires Claims(ss[i], es[i], r)
    requires forall n :: i < n < k ==> !Nacks(ss[n], es[n], r)
    ensures LeaseHolds(c, ss[k], r, ss[i].now) && ss[i].now <= ss[k].now
    ensures r in ss[k].Batch(ss[k].rows[r].group) ==> exists p :: i < p < k && PolledLate(c, ss, es, r, i, p)
  {
    Reachable(c, ss, es, k - 1);
    assert StepAt(c, ss, es, k - 1);
    if k == i + 1 {
      LeaseStarts(c, ss[i], es[i], r);
    } else {
      LeaseLasts(c, ss, es, r, i, k - 1);
      LeaseKept(c, ss[k - 1], es[k - 1], r, ss[i].now);
      if r in ss[k].Batch(ss[k].rows[r].group) && r !in ss[k - 1].Batch(ss[k].rows[r].group) {
        FetchedAfterLease(c, ss[k - 1], es[k - 1], r, ss[i].now);
        assert PolledLate(c, ss, es, r, i, k - 1);
      }
    }
  }

  /**
   Between two claims of a row, either one of its messages was nacked, or a poll fetched the row no
   earlier than `ack_deadline` after the first claim. This holds in both dialects.
   */
  lemma LeaseRespected(c: Config, ss: seq<State>, es: seq<Event>, r: nat, i: nat, j: nat)
    requires Run(c, ss, es) && ss[0] == INITIAL && i < j < |es|
    requires Claims(ss[i], es[i], r) && Claims(ss[j], es[j], r)
    ensures (exists n :: i < n < j && Nacks(ss[n], es[n], r))
            || (exists p :: i < p < j && PolledLate(c, ss, es, r, i, p))
  {
    if forall n :: i < n < j ==> !Nacks(ss[n], es[n], r) {
      LeaseLasts(c, ss, es, r, i, j);
      RunStaysWellFormed(c, ss, es, j);
      assert r in ss[j].Batch(es[j].g);
    }
  }

  // ---- after an ack -----------------------------------------------------------------------------

  /** How often row r is claimed by the events from i up to k. */
  ghost function ClaimsOf(ss: seq<State>, es: seq<Event>, r: nat, i: nat, k: nat): nat
    requires |ss| == |es| + 1 && i <= k <= |es|
  {
    if i == k then 0
    else ClaimsOf(ss, es, r, i, k - 1) + if Claims(ss[k - 1], es[k - 1], r) then 1 else 0
  }

  ghost function InBatch(s: State, r: nat): nat
    requires r < |s.rows|
  {
    if r in s.Batch(s.rows[r].group) then 1 else 0
  }

  lemma AckedIsNotFetched(c: Config, s: State, g: string, r: nat)
    requires r < |s.rows| && s.rows[r].ackedAt.Some?
    ensures r !in SelectPending(c.dialect, s.rows, g, s.now, c.batchSize(g))
  {
    SelectPendingIsTopOfOrder(c.dialect, s.rows, g, s.now, c.batchSize(g));
  }

  lemma AckedOnlyLeavesBatches(c: Config, s: State, e: Event, r: nat)
    requires s.WellFormed() && r < |s.rows| && s.rows[r].ackedAt.Some?
    ensures var t, g := Step(c, s, e), s.rows[r].group;
      && r < |t.rows| && t.rows[r].ackedAt.Some? && t.rows[r].group == g
      && (r in t.Batch(g) ==> r in s.Batch(g) && !Claims(s, e, r))
      && (Claims(s, e, r) ==> r in s.Batch(g))
  {
    if e.Poll? { AckedIsNotFetched(c, s, e.g, r); }
  }

  lemma AckedOnlyLeavesAt(c: Config, ss: seq<State>, es: seq<Event>, r: nat, k: nat)
    requires Run(c, ss, es) && k < |es| && r < |ss[k].rows| && ss[k].rows[r].ackedAt.Some?
    ensures r < |ss[k + 1].rows| && ss[k + 1].rows[r].ackedAt.Some?
    ensures (if Claims(ss[k], es[k], r) then 1 else 0) + InBatch(ss[k + 1], r) <= InBatch(ss[k], r)
  {
    assert StepAt(c, ss, es, k);
    AckedOnlyLeavesBatches(c, ss[k], es[k], r);
  }

  /**
   An acked row is claimed at most once more, and only when a subscription had already fetched it
   when the ack ran.
   */
  lemma {:induction false} AtMostOneAfterAck(c: Config, ss: seq<State>, es: seq<Event>, r: nat, i: nat, k: nat)
    requires Run(c, ss, es) && i <= k <= |es|
    requires r < |ss[i].rows| && ss[i].rows[r].ackedAt.Some?
    ensures r < |ss[k].rows| && ss[k].rows[r].ackedAt.Some?
    ensures ClaimsOf(ss, es, r, i, k) + InBatch(ss[k], r) <= InBatch(ss[i], r)
  {
    if i < k {
      AtMostOneAfterAck(c, ss, es, r, i, k - 1);
      AckedOnlyLeavesAt(c, ss, es, r, k - 1);
    }
  }

  /** The event runs the ack statement of a message of row r. */
  ghost predicate Acks(s: State, e: Event, r: nat) {
    Settles(s, e, r) && s.handles[e.h].flags.acked
  }

  ghost predicate AckedInBatch(s: State, r: nat) {
    r < |s.rows| && s.rows[r].ackedAt.Some? && r in s.Batch(s.rows[r].group)
  }

  ghost predicate AckedWhileFetched(s: State, e: Event, r: nat) {
    r < |s.rows| && Acks(s, e, r) && r in s.Batch(s.rows[r].group)
  }

  lemma StaleByAck(c: Config, s: State, e: Event, r: nat)
    requires s.WellFormed() && AckedInBatch(Step(c, s, e), r)
    ensures AckedInBatch(s, r) || AckedWhileFetched(s, e, r)
  {
    if r < |s.rows| && s.rows[r].ackedAt.Some? { AckedOnlyLeavesBatches(c, s, e, r); }
  }

  lemma StaleAt(c: Config, ss: seq<State>, es: seq<Event>, r: nat, k: nat)
    requires Run(c, ss, es) && k < |es| && AckedInBatch(ss[k + 1], r)
    ensures AckedInBatch(ss[k], r) || AckedWhileFetched(ss[k], es[k], r)
  {
    assert StepAt(c, ss, es, k);
    StaleByAck(c, ss[k], es[k], r);
  }

  lemma {:induction false} AckedInBatchWasStale(c: Config, ss: seq<State>, es: seq<Event>, r: nat, k: nat)
    requires Run(c, ss, es) && ss[0] == INITIAL && k <= |es| && AckedInBatch(ss[k], r)
    ensures exists j :: 0 <= j < k && AckedWhileFetched(ss[j], es[j], r)
  {
    if k > 0 {
      StaleAt(c, ss, es, r, k - 1);
      if AckedInBatch(ss[k - 1], r) { AckedInBatchWasStale(c, ss, es, r, k - 1); }
    }
  }

  lemma AckRanAt(c: Config, ss: seq<State>, es: seq<Event>, r: nat, j: nat)
    requires Run(c, ss, es) && j < |es| && AckedWhileFetched(ss[j], es[j], r)
    ensures r < |ss[j + 1].rows| && ss[j + 1].rows[r].ackedAt.Some?
  {
    assert StepAt(c, ss, es, j);
  }

  /** A claim is of an acked row exactly if an ack of the row ran while a batch held it. */
  lemma AckedClaimIff(c: Config, ss: seq<State>, es: seq<Event>, r: nat, k: nat)
    requires Run(c, ss, es) && ss[0] == INITIAL && k < |es| && Claims(ss[k], es[k], r)
    ensures r < |ss[k].rows|
    ensures ss[k].rows[r].ackedAt.Some? <==> exists j :: 0 <= j < k && AckedWhileFetched(ss[j], es[j], r)
  {
    RunStaysWellFormed(c, ss, es, k);
    if ss[k].rows[r].ackedAt.Some? {
      assert AckedInBatch(ss[k], r);
      AckedInBatchWasStale(c, ss, es, r, k);
    }
    if exists j :: 0 <= j < k && AckedWhileFetched(ss[j], es[j], r) {
      var j :| 0 <= j < k && AckedWhileFetched(ss[j], es[j], r);
      AckRanAt(c, ss, es, r, j);
      SqlExclusive.AckedStays(c, ss, es, r, j + 1, k);
    }
  }

  /** So a late ack does not keep a row from being yielded again that its group has already fetched again. */
  lemma LateAckIsTooLate(c: Config, s: State, g: string, h: nat)
    requires s.WellFormed() && s.Batch(g) != [] && h < |s.handles|
    requires s.handles[h] == Handle(s.Batch(g)[0], Messages.UNSETTLED, false)
    ensures var t, r := Step(c, Step(c, s, CallAck(h)), Settle(h)), s.Batch(g)[0];
      r < |t.rows| && t.rows[r].ackedAt.Some? && Yields(t, Claim(g, true), r)
  {
  }

  // ---- and that this happens in Postgres -----------------------------------------------------------

  lemma OnlyRowIsFetched(c: Config, s: State, g: string)
    requires s.WellFormed() && s.Batch(g) == [] && c.batchSize(g) >= 1
    requires |s.rows| == 1 && Eligible(c.dialect, s.rows[0], g, s.now)
    ensures var t := Step(c, s, Poll(g));
      t.Batch(g) == [0] && t.rows == s.rows && t.now == s.now && t.handles == s.handles
  {
    var ids := SelectPending(c.dialect, s.rows, g, s.now, c.batchSize(g));
    SelectPendingIsTopOfOrder(c.dialect, s.rows, g, s.now, c.batchSize(g));
    assert 0 in ids;
    forall k | 0 <= k < |ids| ensures ids[k] == 0 { assert ids[k] in ids; }
  }

  lemma OnlyRowIsClaimed(c: Config, s: State, g: string)
    requires s.WellFormed() && |s.rows| == 1 && s.Batch(g) == [0]
    ensures var t := Step(c, s, Claim(g, true));
      && t.Batch(g) == [] && t.rows == [Claimed(s.rows[0], s.now, c.ackDeadline(g))] && t.now == s.now
      && t.handles == s.handles + [Handle(0, Messages.UNSETTLED, false)]
  {
    assert s.Batch(g)[1..] == [];
  }

  lemma Inserted(c: Config, message: Messages.Message, g: string) returns (ss: seq<State>)
    ensures Run(c, ss, [Insert(message, g)]) && ss[0] == INITIAL && ss[1].WellFormed()
    ensures ss[1].rows == [FreshRow(message, g, 0)] && ss[1].now == 0 && ss[1].Batch(g) == [] && ss[1].handles == []
  {
    assert Run(c, [INITIAL], []);
    ss := OneMore(c, [INITIAL], [], Insert(message, g));
    assert [] + [Insert(message, g)] == [Insert(message, g)];
  }

  lemma Fetched(c: Config, message: Messages.Message, g: string) returns (ss: seq<State>)
    requires c.batchSize(g) >= 1
    ensures Run(c, ss, [Insert(message, g), Poll(g)]) && ss[0] == INITIAL && ss[2].WellFormed()
    ensures ss[2].rows == [FreshRow(message, g, 0)] && ss[2].now == 0 && ss[2].Batch(g) == [0] && ss[2].handles == []
  {
    ss := Inserted(c, message, g);
    OnlyRowIsFetched(c, ss[1], g);
    ss := OneMore(c, ss, [Insert(message, g)], Poll(g));
    assert [Insert(message, g)] + [Poll(g)] == [Insert(message, g), Poll(g)];
  }

  /** One row is inserted, fetched and yielded. */
  lemma FirstDelivery(c: Config, message: Messages.Message, g: string) returns (ss: seq<State>, es: seq<Event>)
    requires c.batchSize(g) >= 1
    ensures es == [Insert(message, g), Poll(g)] + [Claim(g, true)]
    ensures Run(c, ss, es) && ss[0] == INITIAL && ss[3].WellFormed()
    ensures ss[3].rows == [Claimed(FreshRow(message, g, 0), 0, c.ackDeadline(g))] && ss[3].now == 0
    ensures ss[3].Batch(g) == [] && ss[3].handles == [Handle(0, Messages.UNSETTLED, false)]
  {
    ss := Fetched(c, message, g);
    es := [Insert(message, g), Poll(g)] + [Claim(g, true)];
    OnlyRowIsClaimed(c, ss[2], g);
    ss := OneMore(c, ss, [Insert(message, g), Poll(g)], Claim(g, true));
  }

  /** In Postgres it is fetched again when its lease has ended, while its message is open. */
  lemma SecondFetch(c: Config, message: Messages.Message, g: string) returns (ss: seq<State>, es: seq<Event>)
    requires c.dialect.Postgres? && c.batchSize(g) >= 1
    ensures es == [Insert(message, g), Poll(g)] + [Claim(g, true)] + [Tick(c.ackDeadline(g))] + [Poll(g)]
    ensures Run(c, ss, es) && ss[0] == INITIAL && ss[5].WellFormed()
    ensures |ss[5].rows| == 1 && ss[5].Batch(g) == [0] && ss[5].handles == [Handle(0, Messages.UNSETTLED, false)]
  {
    ss, es := FirstDelivery(c, message, g);
    ss := OneMore(c, ss, es, Tick(c.ackDeadline(g)));
    es := es + [Tick(c.ackDeadline(g))];
    OnlyRowIsFetched(c, ss[4], g);
    ss := OneMore(c, ss, es, Poll(g));
    es := es + [Poll(g)];
  }

  /** Its late ack then does not keep it from being yielded again, whatever the deadline. */
  lemma AckedCanComeBack(c: Config, message: Messages.Message, g: string) returns (ss: seq<State>, es: seq<Event>)
    requires c.dialect.Postgres? && c.batchSize(g) >= 1
    ensures Run(c, ss, es) && ss[0] == INITIAL && |es| == 7
    ensures |ss[7].rows| == 1 && ss[7].rows[0].ackedAt.Some? && Yields(ss[7], Claim(g, true), 0)
  {
    ss, es := SecondFetch(c, message, g);
    LateAckIsTooLate(c, ss[5], g, 0);
    ss := OneMore(c, ss, es, CallAck(0));
    es := es + [CallAck(0)];
    ss := OneMore(c, ss, es, Settle(0));
    es := es + [Settle(0)];
  }
}
