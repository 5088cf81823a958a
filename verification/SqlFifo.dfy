/** First deliveries are in insertion order, in either dialect, whatever is redelivered in between. */
module SqlFifo {
  import opened SqlTable
  import opened SqlQueue

  /** Row r was never claimed. */
  ghost predicate Fresh(s: State, r: nat) {
    r < |s.rows| && s.rows[r].deliveryCount == 0
  }

  /** Fresh rows are as they were inserted, so they fall due in insertion order. */
  ghost predicate FreshInOrder(s: State) {
    && (forall r: nat :: Fresh(s, r) ==>
          s.rows[r].claimedAt.None? && s.rows[r].ackedAt.None? && s.rows[r].nextDeliveryAt <= s.now)
    && (forall h :: 0 <= h < |s.handles| ==> !Fresh(s, s.handles[h].row))
    && (forall i: nat, j: nat :: Fresh(s, i) && Fresh(s, j) && i < j ==>
          s.rows[i].nextDeliveryAt <= s.rows[j].nextDeliveryAt)
  }

  /** A batch that holds a fresh row holds every earlier fresh row of its group, further in front. */
  ghost predicate EarlierInFront(s: State, g: string, ids: seq<nat>) {
    forall i: nat, q: nat :: q < |ids| && Fresh(s, ids[q]) && Fresh(s, i) && i < ids[q] && s.rows[i].group == g ==>
      i in ids[..q]
  }

  ghost predicate BatchesInOrder(s: State) {
    forall g :: EarlierInFront(s, g, Lookup(s.batches, g))
  }

  lemma FreshInOrderKept(c: Config, s: State, e: Event)
    requires s.WellFormed() && FreshInOrder(s)
    ensures FreshInOrder(Step(c, s, e))
  {
    var t := Step(c, s, e);
    assert forall r: nat :: Fresh(t, r) ==> (r == |s.rows| && e.Insert?) || (Fresh(s, r) && t.rows[r] == s.rows[r]);
  }

  lemma PollInOrder(c: Config, s: State, g: string)
    requires FreshInOrder(s)
    ensures EarlierInFront(s, g, SelectPending(c.dialect, s.rows, g, s.now, c.batchSize(g)))
  {
  }

  ghost predicate FreshOnlyShrinks(s: State, t: State) {
    forall r: nat :: Fresh(t, r) ==> r == |s.rows| || (Fresh(s, r) && t.rows[r].group == s.rows[r].group)
  }

  lemma SameBatchInOrder(s: State, t: State, g: string, ids: seq<nat>)
    requires EarlierInFront(s, g, ids) && FreshOnlyShrinks(s, t)
    requires forall q :: 0 <= q < |ids| ==> ids[q] < |s.rows|
    ensures EarlierInFront(t, g, ids)
  {
  }

  /** Only the claimed row leaves a batch, and it is not fresh any more. */
  lemma TailInOrder(s: State, t: State, g: string, ids: seq<nat>)
    requires ids != [] && EarlierInFront(s, g, ids) && FreshOnlyShrinks(s, t) && !Fresh(t, ids[0])
    requires forall q :: 0 <= q < |ids| ==> ids[q] < |s.rows|
    ensures EarlierInFront(t, g, ids[1..])
  {
  }

  lemma StepsOnlyShrinkFresh(c: Config, s: State, e: Event)
    requires s.WellFormed()
    ensures FreshOnlyShrinks(s, Step(c, s, e))
  {
  }

  lemma BatchesInOrderKept(c: Config, s: State, e: Event, x: string)
    requires s.WellFormed() && FreshInOrder(s) && EarlierInFront(s, x, Lookup(s.batches, x))
    ensures EarlierInFront(Step(c, s, e), x, Lookup(Step(c, s, e).batches, x))
  {
    var t := Step(c, s, e);
    StepsOnlyShrinkFresh(c, s, e);
    if e.Claim? && s.Batch(e.g) != [] && e.g == x {
      TailInOrder(s, t, x, s.Batch(x));
    } else if Polls(s, e, x) {
      PollInOrder(c, s, x);
      SelectPendingIsTopOfOrder(c.dialect, s.rows, x, s.now, c.batchSize(x));
      SameBatchInOrder(s, t, x, t.Batch(x));
    } else if t.Batch(x) != [] {
      SameBatchInOrder(s, t, x, s.Batch(x));
    }
  }

  lemma {:induction false} Reachable(c: Config, ss: seq<State>, es: seq<Event>, k: nat)
    requires Run(c, ss, es) && ss[0] == INITIAL && k <= |es|
    ensures ss[k].WellFormed() && FreshInOrder(ss[k]) && BatchesInOrder(ss[k])
  {
    if k > 0 {
      Reachable(c, ss, es, k - 1);
      assert StepAt(c, ss, es, k - 1);
      FreshInOrderKept(c, ss[k - 1], es[k - 1]);
      forall g ensures EarlierInFront(ss[k], g, Lookup(ss[k].batches, g)) {
        assert EarlierInFront(ss[k - 1], g, Lookup(ss[k - 1].batches, g));
        BatchesInOrderKept(c, ss[k - 1], es[k - 1], g);
      }
    }
  }

  lemma ClaimedAt(c: Config, ss: seq<State>, es: seq<Event>, r: nat, i: nat)
    requires Run(c, ss, es) && i < |es| && Claims(ss[i], es[i], r) && r < |ss[i].rows|
    ensures !Fresh(ss[i + 1], r)
  {
    assert StepAt(c, ss, es, i);
  }

  lemma {:induction false} ClaimedStaysClaimed(c: Config, ss: seq<State>, es: seq<Event>, r: nat, i: nat, k: nat)
    requires Run(c, ss, es) && i < k <= |es|
    requires Claims(ss[i], es[i], r) && r < |ss[i].rows|
    ensures !Fresh(ss[k], r)
  {
    if i + 1 < k {
      ClaimedStaysClaimed(c, ss, es, r, i, k - 1);
      RowsStay(c, ss, es, r, i, k - 1);
      RowStaysAt(c, ss, es, r, k - 1);
    } else {
      ClaimedAt(c, ss, es, r, i);
    }
  }

  lemma RowStaysAt(c: Config, ss: seq<State>, es: seq<Event>, r: nat, k: nat)
    requires Run(c, ss, es) && k < |es| && r < |ss[k].rows|
    ensures r < |ss[k + 1].rows| && ss[k + 1].rows[r].group == ss[k].rows[r].group
    ensures Fresh(ss[k + 1], r) ==> Fresh(ss[k], r)
  {
    assert StepAt(c, ss, es, k);
  }

  lemma {:induction false} RowsStay(c: Config, ss: seq<State>, es: seq<Event>, r: nat, i: nat, k: nat)
    requires Run(c, ss, es) && i <= k <= |es| && r < |ss[i].rows|
    ensures r < |ss[k].rows| && ss[k].rows[r].group == ss[i].rows[r].group
  {
    if i < k {
      RowsStay(c, ss, es, r, i, k - 1);
      RowStaysAt(c, ss, es, r, k - 1);
    }
  }

  /**
   First claims within a group happen in strictly increasing id order, whatever nacks, redeliveries,
   abandoned batches and cancelled claims come in between.
   */
  lemma FirstClaimsInOrder(c: Config, ss: seq<State>, es: seq<Event>, a: nat, b: nat, i: nat, j: nat)
    requires Run(c, ss, es) && ss[0] == INITIAL && i < j < |es|
    requires Claims(ss[i], es[i], a) && Claims(ss[j], es[j], b)
    requires Fresh(ss[i], a) && Fresh(ss[j], b) && ss[i].rows[a].group == ss[j].rows[b].group
    ensures a < b
  {
    Reachable(c, ss, es, i);
    ClaimedStaysClaimed(c, ss, es, a, i, j);
    if b < a {
      RowsStay(c, ss, es, a, i, j);
      FreshBefore(c, ss, es, b, i, j, a);
    }
  }

  /** A row that is fresh later, and was inserted before row a, was fresh already. */
  lemma {:induction false} FreshBefore(c: Config, ss: seq<State>, es: seq<Event>, b: nat, i: nat, j: nat, a: nat)
    requires Run(c, ss, es) && i <= j <= |es| && b < a < |ss[i].rows| && Fresh(ss[j], b)
    ensures Fresh(ss[i], b) && ss[i].rows[b].group == ss[j].rows[b].group
  {
    if i < j {
      RowsStay(c, ss, es, a, i, j - 1);
      RowStaysAt(c, ss, es, b, j - 1);
      FreshBefore(c, ss, es, b, i, j - 1, a);
    }
  }
}
