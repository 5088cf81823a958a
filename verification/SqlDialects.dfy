/** When SQLite and Postgres make the same polls, and when whole runs are the same. */
module SqlDialects {
  import opened Options
  import opened SqlTable
  import opened SqlQueue
  import SqlLease

  /** No message of group g is overdue: every claim was acked, was nacked, or is within its lease. */
  ghost predicate LeasesKept(c: Config, s: State, g: string) {
    forall r :: 0 <= r < |s.rows| && s.rows[r].group == g && s.rows[r].ackedAt.None? ==>
      !SqlLease.LeaseEnded(c, s.rows[r], s.now)
  }

  ghost predicate SameEligible(s: State, g: string) {
    forall r :: 0 <= r < |s.rows| ==>
      (Eligible(SQLite, s.rows[r], g, s.now) <==> Eligible(Postgres, s.rows[r], g, s.now))
  }

  /** The dialects see the same eligible rows exactly when no lease of the group has run out. */
  lemma SameEligibleIff(c: Config, ss: seq<State>, es: seq<Event>, k: nat, g: string)
    requires Run(c, ss, es) && ss[0] == INITIAL && k <= |es|
    ensures SameEligible(ss[k], g) <==> LeasesKept(c, ss[k], g)
  {
    SqlLease.Reachable(c, ss, es, k);
    var s := ss[k];
    forall r: nat | r < |s.rows| && s.rows[r].group == g
      ensures (Eligible(SQLite, s.rows[r], g, s.now) <==> Eligible(Postgres, s.rows[r], g, s.now)) <==>
              (s.rows[r].ackedAt.None? ==> !SqlLease.LeaseEnded(c, s.rows[r], s.now))
    {
      assert SqlLease.TimedRow(c, s.rows[r], s.now);
    }
  }

  lemma {:induction false} SameRanking(s: State, g: string, n: nat)
    requires SameEligible(s, g) && n <= |s.rows|
    ensures Ranked(SQLite, s.rows, g, s.now, n) == Ranked(Postgres, s.rows, g, s.now, n)
  {
    if n > 0 { SameRanking(s, g, n - 1); }
  }

  /** Equal eligible rows are ranked and cut alike, so the poll fetches the same batch. */
  lemma SamePoll(s: State, g: string, limit: nat)
    requires SameEligible(s, g)
    ensures SelectPending(SQLite, s.rows, g, s.now, limit) == SelectPending(Postgres, s.rows, g, s.now, limit)
  {
    SameRanking(s, g, |s.rows|);
  }

  ghost predicate TimelyPolls(c: Config, ss: seq<State>, es: seq<Event>)
    requires |ss| == |es| + 1
  {
    forall k :: 0 <= k < |es| && es[k].Poll? ==> LeasesKept(c, ss[k], es[k].g)
  }

  lemma SameStep(c: Config, s: State, e: Event, d: Dialect)
    requires s.WellFormed()
    requires e.Poll? ==> SameEligible(s, e.g)
    ensures Step(c, s, e) == Step(c.(dialect := d), s, e)
  {
    if e.Poll? {
      SamePoll(s, e.g, c.batchSize(e.g));
      assert c.dialect == SQLite || c.dialect == Postgres;
      assert d == SQLite || d == Postgres;
    }
  }

  /** The k-th step of a run of one dialect is also a step of the other. */
  lemma SameStepAt(c: Config, ss: seq<State>, es: seq<Event>, d: Dialect, k: nat)
    requires Run(c, ss, es) && ss[0] == INITIAL && TimelyPolls(c, ss, es) && k < |es|
    ensures StepAt(c.(dialect := d), ss, es, k)
  {
    assert StepAt(c, ss, es, k);
    if es[k].Poll? { SameEligibleIff(c, ss, es, k, es[k].g); }
    SameStep(c, ss[k], es[k], d);
  }

  lemma SameRun(c: Config, ss: seq<State>, es: seq<Event>, d: Dialect)
    requires Run(c, ss, es) && ss[0] == INITIAL && TimelyPolls(c, ss, es)
    ensures Run(c.(dialect := d), ss, es)
  {
    forall k | 0 <= k < |es| ensures StepAt(c.(dialect := d), ss, es, k) { SameStepAt(c, ss, es, d, k); }
  }

  /**
   On every run in which each poll of a group finds its claimed rows settled or within their lease,
   the two dialects are indistinguishable: the same events lead through the same states, so every
   poll, every yield and every count agree.
   */
  lemma DialectsAgree(c: Config, ss: seq<State>, es: seq<Event>)
    requires |ss| == |es| + 1 && ss[0] == INITIAL && TimelyPolls(c, ss, es)
    ensures Run(c.(dialect := SQLite), ss, es) <==> Run(c.(dialect := Postgres), ss, es)
  {
    var lite, post := c.(dialect := SQLite), c.(dialect := Postgres);
    assert forall s: State, g :: LeasesKept(c, s, g) == LeasesKept(lite, s, g) == LeasesKept(post, s, g);
    if Run(lite, ss, es) { SameRun(lite, ss, es, Postgres); }
    if Run(post, ss, es) { SameRun(post, ss, es, SQLite); }
  }

  // ---- settling in time is enough ------------------------------------------------------------------

  /** No claim is cancelled before its message is yielded. */
  ghost predicate AllDelivered(es: seq<Event>) {
    forall k :: 0 <= k < |es| && es[k].Claim? ==> es[k].delivered
  }

  /** If event i yields a message a whole lease before its group polls at k, its ack or nack has run by then. */
  ghost predicate SettledBy(c: Config, ss: seq<State>, es: seq<Event>, i: nat, k: nat)
    requires |ss| == |es| + 1 && i < k < |es|
  {
    && es[i].Claim? && ss[i].Batch(es[i].g) != []
    && es[k] == Poll(es[i].g) && ss[i].now + c.ackDeadline(es[i].g) <= ss[k].now ==>
      |ss[i].handles| < |ss[k].handles| && ss[k].handles[|ss[i].handles|].applied
  }

  ghost predicate SettledInTime(c: Config, ss: seq<State>, es: seq<Event>)
    requires |ss| == |es| + 1
  {
    forall i, k :: 0 <= i < k < |es| ==> SettledBy(c, ss, es, i, k)
  }

  ghost predicate ClaimedUnacked(s: State, r: nat) {
    r < |s.rows| && s.rows[r].claimedAt.Some? && s.rows[r].ackedAt.None?
  }

  /** Message h is one of row r whose ack or nack has not run. */
  ghost predicate OpenFor(s: State, h: nat, r: nat) {
    h < |s.handles| && s.handles[h].row == r && !s.handles[h].applied
  }

  lemma ClaimStays(c: Config, s: State, e: Event, r: nat)
    requires s.WellFormed() && ClaimedUnacked(Step(c, s, e), r) && !Claims(s, e, r)
    ensures ClaimedUnacked(s, r) && Step(c, s, e).rows[r].claimedAt == s.rows[r].claimedAt
    ensures Step(c, s, e).rows[r].group == s.rows[r].group
    ensures forall h :: OpenFor(s, h, r) ==> OpenFor(Step(c, s, e), h, r)
  {
  }

  lemma ClaimOpens(c: Config, s: State, e: Event, r: nat)
    requires s.WellFormed() && Claims(s, e, r) && e.delivered
    ensures var t := Step(c, s, e);
      r < |t.rows| && t.rows[r].group == e.g && t.rows[r].claimedAt == Some(s.now) && OpenFor(t, |s.handles|, r)
  {
  }

  /** Event i made the current claim of row r, and its message is not settled. */
  ghost predicate OpenSince(ss: seq<State>, es: seq<Event>, i: nat, k: nat, r: nat)
    requires |ss| == |es| + 1 && i < k <= |es|
  {
    && r < |ss[k].rows| && es[i].Claim? && ss[i].Batch(es[i].g) != []
    && ss[k].rows[r].group == es[i].g && ss[k].rows[r].claimedAt == Some(ss[i].now)
    && OpenFor(ss[k], |ss[i].handles|, r)
  }

  lemma {:induction false} ClaimIsOpen(c: Config, ss: seq<State>, es: seq<Event>, k: nat, r: nat)
    requires Run(c, ss, es) && ss[0] == INITIAL && AllDelivered(es) && k <= |es| && ClaimedUnacked(ss[k], r)
    ensures exists i :: 0 <= i < k && OpenSince(ss, es, i, k, r)
  {
    if k > 0 {
      var s, e := ss[k - 1], es[k - 1];
      assert StepAt(c, ss, es, k - 1);
      if Claims(s, e, r) {
        ClaimOpens(c, s, e, r);
        assert OpenSince(ss, es, k - 1, k, r);
      } else {
        ClaimStays(c, s, e, r);
        ClaimIsOpen(c, ss, es, k - 1, r);
        var i :| 0 <= i < k - 1 && OpenSince(ss, es, i, k - 1, r);
        assert OpenSince(ss, es, i, k, r);
      }
    }
  }

  lemma SettledIsTimely(c: Config, ss: seq<State>, es: seq<Event>)
    requires Run(c, ss, es) && ss[0] == INITIAL && AllDelivered(es) && SettledInTime(c, ss, es)
    ensures TimelyPolls(c, ss, es)
  {
    forall k, r: nat | 0 <= k < |es| && es[k].Poll? && ClaimedUnacked(ss[k], r) && ss[k].rows[r].group == es[k].g
      ensures !SqlLease.LeaseEnded(c, ss[k].rows[r], ss[k].now)
    {
      ClaimIsOpen(c, ss, es, k, r);
      var i :| 0 <= i < k && OpenSince(ss, es, i, k, r);
      assert SettledBy(c, ss, es, i, k);
    }
  }

  /**
   When every message is settled before its deadline, as polls can tell, the two dialects have the same
   runs: the same polls, the same yields and the same counts.
   */
  lemma DialectsAgreeWhenSettled(c: Config, ss: seq<State>, es: seq<Event>)
    requires |ss| == |es| + 1 && ss[0] == INITIAL && AllDelivered(es) && SettledInTime(c, ss, es)
    ensures Run(c.(dialect := SQLite), ss, es) <==> Run(c.(dialect := Postgres), ss, es)
  {
    forall d: Dialect | Run(c.(dialect := d), ss, es) ensures TimelyPolls(c, ss, es) {
      var other := c.(dialect := d);
      assert forall i, k :: 0 <= i < k < |es| ==> SettledBy(c, ss, es, i, k) == SettledBy(other, ss, es, i, k);
      SettledIsTimely(other, ss, es);
      assert forall s: State, g :: LeasesKept(c, s, g) == LeasesKept(other, s, g);
    }
    if TimelyPolls(c, ss, es) { DialectsAgree(c, ss, es); }
  }
}
