/** What subscriptions yield is what was published, and abandoned batches are not lost, over whole runs. */
module SqlContent {
  import opened Options
  import opened SqlTable
  import opened SqlQueue
  import SqlExclusive
  import SqlLease

  // ---- rows keep what was published --------------------------------------------------------------

  /** How many rows the first k events insert. */
  ghost function Inserts(es: seq<Event>, k: nat): nat
    requires k <= |es|
  {
    if k == 0 then 0 else Inserts(es, k - 1) + if es[k - 1].Insert? then 1 else 0
  }

  /** Row r holds the message and the group of insert i, which was the r-th one. */
  ghost predicate Holds(s: State, r: nat, es: seq<Event>, i: nat) {
    && r < |s.rows| && i < |es| && es[i].Insert? && Inserts(es, i) == r
    && s.rows[r].content == es[i].content && s.rows[r].group == es[i].group
  }

  lemma RowsKeepContent(c: Config, s: State, e: Event, r: nat)
    requires s.WellFormed() && r < |s.rows|
    ensures var t := Step(c, s, e);
      r < |t.rows| && t.rows[r].content == s.rows[r].content && t.rows[r].group == s.rows[r].group
  {
  }

  lemma RowsAreCounted(c: Config, s: State, e: Event)
    requires s.WellFormed()
    ensures |Step(c, s, e).rows| == |s.rows| + if e.Insert? then 1 else 0
    ensures e.Insert? ==>
      var row := Step(c, s, e).rows[|s.rows|]; row.content == e.content && row.group == e.group
  {
  }

  /** Every insert has its row, in every later state of every run. */
  lemma {:induction false} InsertedIsHeld(c: Config, ss: seq<State>, es: seq<Event>, i: nat, k: nat)
    requires Run(c, ss, es) && ss[0] == INITIAL && i < k <= |es| && es[i].Insert?
    ensures Holds(ss[k], Inserts(es, i), es, i)
  {
    assert StepAt(c, ss, es, k - 1);
    if i == k - 1 {
      RowPerInsert(c, ss, es, i);
      RowsAreCounted(c, ss[i], es[i]);
    } else {
      InsertedIsHeld(c, ss, es, i, k - 1);
      RowsKeepContent(c, ss[k - 1], es[k - 1], Inserts(es, i));
    }
  }

  lemma {:induction false} RowPerInsert(c: Config, ss: seq<State>, es: seq<Event>, k: nat)
    requires Run(c, ss, es) && ss[0] == INITIAL && k <= |es|
    ensures |ss[k].rows| == Inserts(es, k)
  {
    if k > 0 {
      RowPerInsert(c, ss, es, k - 1);
      assert StepAt(c, ss, es, k - 1);
      RowsAreCounted(c, ss[k - 1], es[k - 1]);
    }
  }

  /** And every row is that of an insert. */
  lemma {:induction false} InsertOf(es: seq<Event>, k: nat, r: nat) returns (i: nat)
    requires k <= |es| && r < Inserts(es, k)
    ensures i < k && es[i].Insert? && Inserts(es, i) == r
  {
    if es[k - 1].Insert? && Inserts(es, k - 1) == r {
      i := k - 1;
    } else {
      i := InsertOf(es, k - 1, r);
    }
  }

  /**
   A claim, in either dialect, is of a row that an earlier insert made for the claiming group, and the
   row holds the message of that insert, whatever has happened to it since.
   */
  lemma ClaimedIsPublished(c: Config, ss: seq<State>, es: seq<Event>, k: nat, r: nat) returns (i: nat)
    requires Run(c, ss, es) && ss[0] == INITIAL && k < |es| && Claims(ss[k], es[k], r)
    ensures i < k && Holds(ss[k], r, es, i) && es[i].group == es[k].g
  {
    RunStaysWellFormed(c, ss, es, k);
    RowPerInsert(c, ss, es, k);
    i := InsertOf(es, k, r);
    InsertedIsHeld(c, ss, es, i, k);
  }

  /** No other row is touched, and this one keeps its content and its group. */
  ghost predicate OnlyRow(s: State, t: State, r: nat) {
    && r < |s.rows| == |t.rows| && t.rows == s.rows[r := t.rows[r]] && t.now == s.now
    && t.rows[r].content == s.rows[r].content && t.rows[r].group == s.rows[r].group
  }

  /**
   What the statements write: a claim leases its row until the deadline from now, for one more delivery; an ack
   sets when it was acked; a nack makes it unclaimed and due now.
   */
  lemma StatementsWrite(c: Config, ss: seq<State>, es: seq<Event>, k: nat, r: nat)
    requires Run(c, ss, es) && k < |es|
    requires Claims(ss[k], es[k], r) || Settles(ss[k], es[k], r)
    ensures OnlyRow(ss[k], ss[k + 1], r)
    ensures var was, row, now := ss[k].rows[r], ss[k + 1].rows[r], ss[k].now;
      if es[k].Claim? then
        && row.claimedAt == Some(now) && row.nextDeliveryAt - c.ackDeadline(es[k].g) == now
        && row.deliveryCount == was.deliveryCount + 1 && row.ackedAt == was.ackedAt
      else if Nacks(ss[k], es[k], r) then
        && row.claimedAt == None && row.nextDeliveryAt == now
        && row.deliveryCount == was.deliveryCount && row.ackedAt == was.ackedAt
      else
        && row.claimedAt == was.claimedAt && row.nextDeliveryAt == was.nextDeliveryAt
        && row.deliveryCount == was.deliveryCount && row.ackedAt == Some(now)
  {
    assert StepAt(c, ss, es, k);
  }

  // ---- abandoned batches ---------------------------------------------------------------------------

  /**
   When a subscription is closed with rows left in its batch, in SQLite each of them can be polled again at
   once, and the next subscription of the group does poll before it claims anything.
   */
  lemma AbandonedCanBePolled(c: Config, ss: seq<State>, es: seq<Event>, k: nat, g: string, r: nat)
    requires c.dialect.SQLite? && Run(c, ss, es) && ss[0] == INITIAL && k < |es| && es[k] == Abandon(g)
    requires r in ss[k].Batch(g)
    ensures ss[k + 1].Batch(g) == [] && Polls(ss[k + 1], Poll(g), g)
    ensures r < |ss[k].rows| && r < |ss[k + 1].rows| && ss[k + 1].rows[r] == ss[k].rows[r]
    ensures Eligible(c.dialect, ss[k + 1].rows[r], g, ss[k + 1].now)
  {
    assert StepAt(c, ss, es, k);
    SqlExclusive.Reachable(c, ss, es, k);
    SqlLease.Reachable(c, ss, es, k);
    assert SqlLease.TimedRow(c, ss[k].rows[r], ss[k].now);
  }

  // ---- messages --------------------------------------------------------------------------------------

  /** How many messages the first k events yield; a claim that is cancelled before the yield makes none. */
  ghost function YieldsIn(ss: seq<State>, es: seq<Event>, k: nat): nat
    requires |ss| == |es| + 1 && k <= |es|
  {
    if k == 0 then 0
    else YieldsIn(ss, es, k - 1) +
         if es[k - 1].Claim? && es[k - 1].delivered && ss[k - 1].Batch(es[k - 1].g) != [] then 1 else 0
  }

  lemma {:induction false} MessagesAreYields(c: Config, ss: seq<State>, es: seq<Event>, k: nat)
    requires Run(c, ss, es) && ss[0] == INITIAL && k <= |es|
    ensures |ss[k].handles| == YieldsIn(ss, es, k)
  {
    if k > 0 {
      MessagesAreYields(c, ss, es, k - 1);
      assert StepAt(c, ss, es, k - 1);
    }
  }

  lemma MessageStays(c: Config, ss: seq<State>, es: seq<Event>, h: nat, k: nat)
    requires Run(c, ss, es) && k < |es| && h < |ss[k].handles|
    ensures h < |ss[k + 1].handles| && ss[k + 1].handles[h].row == ss[k].handles[h].row
  {
    assert StepAt(c, ss, es, k);
  }

  lemma YieldMakesMessage(c: Config, ss: seq<State>, es: seq<Event>, r: nat, i: nat)
    requires Run(c, ss, es) && ss[0] == INITIAL && i < |es| && Yields(ss[i], es[i], r)
    ensures var h := YieldsIn(ss, es, i); h < |ss[i + 1].handles| && ss[i + 1].handles[h].row == r
  {
    MessagesAreYields(c, ss, es, i);
    assert StepAt(c, ss, es, i);
  }

  /** Every message is that of one yield: of the row that the yield has claimed, for good. */
  lemma {:induction false} YieldedHasMessage(c: Config, ss: seq<State>, es: seq<Event>, r: nat, i: nat, k: nat)
    requires Run(c, ss, es) && ss[0] == INITIAL && i < k <= |es| && Yields(ss[i], es[i], r)
    ensures var h := YieldsIn(ss, es, i); h < |ss[k].handles| == YieldsIn(ss, es, k) && ss[k].handles[h].row == r
  {
    MessagesAreYields(c, ss, es, k);
    if i == k - 1 {
      YieldMakesMessage(c, ss, es, r, i);
    } else {
      YieldedHasMessage(c, ss, es, r, i, k - 1);
      MessageStays(c, ss, es, YieldsIn(ss, es, i), k - 1);
    }
  }

  /** Message h is settled, in that way. */
  ghost predicate SettledAs(s: State, h: nat, acked: bool) {
    h < |s.handles| && s.handles[h].flags.acked == acked && s.handles[h].flags.nacked == !acked
  }

  lemma SettledStep(c: Config, s: State, e: Event, h: nat, acked: bool)
    requires s.WellFormed() && h < |s.handles|
    requires SettledAs(s, h, acked) || (!s.handles[h].flags.Settled() && e == if acked then CallAck(h) else CallNack(h))
    ensures SettledAs(Step(c, s, e), h, acked)
  {
  }

  /** The first ack or nack of a message settles it, for good. */
  lemma {:induction false} FirstAnswerSettles(c: Config, ss: seq<State>, es: seq<Event>, h: nat, i: nat, k: nat)
    requires Run(c, ss, es) && i < k <= |es| && h < |ss[i].handles| && !ss[i].handles[h].flags.Settled()
    requires es[i] == CallAck(h) || es[i] == CallNack(h)
    ensures SettledAs(ss[k], h, es[i].CallAck?)
  {
    if i < k - 1 { FirstAnswerSettles(c, ss, es, h, i, k - 1); }
    assert StepAt(c, ss, es, k - 1);
    SettledStep(c, ss[k - 1], es[k - 1], h, es[i].CallAck?);
  }
}
