/**
 Exclusive delivery in SQLite. Polls and claims are separate statements, so a batch can be stale
 when its rows are claimed; with one subscription per group the rows it holds are still unclaimed.
 */
module SqlExclusive {
  import opened SqlTable
  import opened SqlQueue

  /** How many of the first n messages are messages of row r whose nack statement has run. */
  ghost function Nackings(hs: seq<Handle>, r: nat, n: nat): nat
    requires n <= |hs|
  {
    if n == 0 then 0
    else Nackings(hs, r, n - 1) +
         if hs[n - 1].row == r && hs[n - 1].applied && hs[n - 1].flags.nacked then 1 else 0
  }

  /** A message whose statement is still to run holds its row, and holds it alone. */
  ghost predicate Held(s: State)
    requires s.WellFormed()
  {
    && (forall h :: 0 <= h < |s.handles| && !s.handles[h].applied ==>
          s.rows[s.handles[h].row].claimedAt.Some? && s.rows[s.handles[h].row].ackedAt.None?)
    && (forall h, i :: 0 <= h < i < |s.handles| && !s.handles[h].applied && !s.handles[i].applied ==>
          s.handles[h].row != s.handles[i].row)
  }

  /** Fetched rows are neither claimed nor acked, and an acked row stays claimed. */
  ghost predicate Untouched(s: State)
    requires s.WellFormed()
  {
    && (forall g, k :: 0 <= k < |Lookup(s.batches, g)| ==>
          s.rows[Lookup(s.batches, g)[k]].claimedAt.None? && s.rows[Lookup(s.batches, g)[k]].ackedAt.None?)
    && (forall r :: 0 <= r < |s.rows| && s.rows[r].ackedAt.Some? ==> s.rows[r].claimedAt.Some?)
  }

  lemma HeldByClaiming(c: Config, s: State, g: string, delivered: bool)
    requires s.WellFormed() && Held(s) && Untouched(s) && s.Batch(g) != []
    ensures Held(ClaimNext(c, s, g, delivered))
  {
  }

  lemma HeldBySettling(s: State, h: nat)
    requires s.WellFormed() && Held(s)
    requires h < |s.handles| && s.handles[h].flags.Settled() && !s.handles[h].applied
    ensures Held(ApplySettlement(s, h))
  {
  }

  lemma HeldKept(c: Config, s: State, e: Event)
    requires s.WellFormed() && Held(s) && Untouched(s)
    ensures Held(Step(c, s, e))
  {
    if e.Claim? && s.Batch(e.g) != [] { HeldByClaiming(c, s, e.g, e.delivered); }
    else if e.Settle? && Step(c, s, e) != s { HeldBySettling(s, e.h); }
  }

  lemma UntouchedByPolling(c: Config, s: State, g: string)
    requires c.dialect.SQLite? && s.WellFormed() && Untouched(s)
    ensures Untouched(Fetch(c, s, g))
  {
  }

  lemma UntouchedByClaiming(c: Config, s: State, g: string, delivered: bool)
    requires s.WellFormed() && Untouched(s) && s.Batch(g) != []
    ensures Untouched(ClaimNext(c, s, g, delivered))
  {
  }

  lemma UntouchedBySettling(s: State, h: nat)
    requires s.WellFormed() && Held(s) && Untouched(s)
    requires h < |s.handles| && s.handles[h].flags.Settled() && !s.handles[h].applied
    ensures Untouched(ApplySettlement(s, h))
  {
  }

  lemma UntouchedKept(c: Config, s: State, e: Event)
    requires c.dialect.SQLite? && s.WellFormed() && Held(s) && Untouched(s)
    ensures Untouched(Step(c, s, e))
  {
    match e
    case Poll(g) => if s.Batch(g) == [] { UntouchedByPolling(c, s, g); }
    case Claim(g, delivered) => if s.Batch(g) != [] { UntouchedByClaiming(c, s, g, delivered); }
    case Settle(h) => if Step(c, s, e) != s { UntouchedBySettling(s, h); }
    case _ =>
  }

  /** Every delivery is accounted for: it was nacked, or it is the current claim. */
  ghost predicate Accounted(s: State)
    requires s.WellFormed()
  {
    forall r: nat :: r < |s.rows| ==> AccountedRow(s, r)
  }

  lemma {:induction false} NackingsOfPrefix(hs: seq<Handle>, ms: seq<Handle>, r: nat, n: nat)
    requires n <= |hs| && n <= |ms| && hs[..n] == ms[..n]
    ensures Nackings(hs, r, n) == Nackings(ms, r, n)
  {
    if n > 0 {
      assert hs[n - 1] == hs[..n][n - 1] == ms[..n][n - 1] == ms[n - 1];
      assert hs[..n - 1] == hs[..n][..n - 1] == ms[..n][..n - 1] == ms[..n - 1];
      NackingsOfPrefix(hs, ms, r, n - 1);
    }
  }

  lemma {:induction false} NackingsOfNone(hs: seq<Handle>, r: nat, n: nat)
    requires n <= |hs| && forall h :: 0 <= h < n ==> hs[h].row < r
    ensures Nackings(hs, r, n) == 0
  {
    if n > 0 { NackingsOfNone(hs, r, n - 1); }
  }

  /** Replacing a message whose statement has not run yet. */
  lemma {:induction false} NackingsOfUpdate(hs: seq<Handle>, h: nat, m: Handle, r: nat, n: nat)
    requires h < |hs| && n <= |hs| && !hs[h].applied && m.row == hs[h].row
    ensures Nackings(hs[h := m], r, n) ==
            Nackings(hs, r, n) + if h < n && m.row == r && m.applied && m.flags.nacked then 1 else 0
  {
    if n > 0 { NackingsOfUpdate(hs, h, m, r, n - 1); }
  }

  ghost predicate AccountedRow(s: State, r: nat)
    requires r < |s.rows|
  {
    s.rows[r].deliveryCount == Nackings(s.handles, r, |s.handles|) + if s.rows[r].claimedAt.Some? then 1 else 0
  }

  lemma AccountedBySettling(s: State, h: nat, r: nat)
    requires s.WellFormed() && r < |s.rows| && AccountedRow(s, r)
    requires h < |s.handles| && s.handles[h].flags.Settled() && !s.handles[h].applied
    requires s.rows[s.handles[h].row].claimedAt.Some?
    ensures AccountedRow(ApplySettlement(s, h), r)
  {
    NackingsOfUpdate(s.handles, h, ApplySettlement(s, h).handles[h], r, |s.handles|);
  }

  lemma AccountedByClaiming(c: Config, s: State, g: string, delivered: bool, r: nat)
    requires s.WellFormed() && r < |s.rows| && AccountedRow(s, r)
    requires s.Batch(g) != [] && s.rows[s.Batch(g)[0]].claimedAt.None?
    ensures AccountedRow(ClaimNext(c, s, g, delivered), r)
  {
    NackingsOfPrefix(s.handles, ClaimNext(c, s, g, delivered).handles, r, |s.handles|);
  }

  lemma AccountedByCalling(s: State, h: nat, m: Handle, r: nat)
    requires r < |s.rows| && AccountedRow(s, r)
    requires h < |s.handles| && !s.handles[h].applied && !m.applied && m.row == s.handles[h].row
    ensures AccountedRow(s.(handles := s.handles[h := m]), r)
  {
    NackingsOfUpdate(s.handles, h, m, r, |s.handles|);
  }

  lemma AccountedKept(c: Config, s: State, e: Event, r: nat)
    requires c.dialect.SQLite? && s.WellFormed() && Held(s) && Untouched(s) && Accounted(s)
    requires r < |Step(c, s, e).rows|
    ensures AccountedRow(Step(c, s, e), r)
  {
    if r == |s.rows| {
      NackingsOfNone(s.handles, r, |s.handles|);
    } else {
      assert AccountedRow(s, r);
      match e
      case Claim(g, delivered) => if s.Batch(g) != [] { AccountedByClaiming(c, s, g, delivered, r); }
      case CallAck(h) => if Step(c, s, e) != s { AccountedByCalling(s, h, Step(c, s, e).handles[h], r); }
      case CallNack(h) => if Step(c, s, e) != s { AccountedByCalling(s, h, Step(c, s, e).handles[h], r); }
      case Settle(h) => if Step(c, s, e) != s { AccountedBySettling(s, h, r); }
      case _ =>
    }
  }

  ghost predicate Sound(s: State) {
    s.WellFormed() && Held(s) && Untouched(s) && Accounted(s)
  }

  lemma SoundKept(c: Config, s: State, e: Event)
    requires c.dialect.SQLite? && Sound(s)
    ensures Sound(Step(c, s, e))
  {
    HeldKept(c, s, e);
    UntouchedKept(c, s, e);
    forall r: nat | r < |Step(c, s, e).rows| ensures AccountedRow(Step(c, s, e), r) { AccountedKept(c, s, e, r); }
  }

  lemma SoundAt(c: Config, ss: seq<State>, es: seq<Event>, k: nat)
    requires c.dialect.SQLite? && Run(c, ss, es) && k < |es| && Sound(ss[k])
    ensures Sound(ss[k + 1])
  {
    assert StepAt(c, ss, es, k);
    SoundKept(c, ss[k], es[k]);
  }

  /** The invariants hold in every state of every run from the empty table. */
  lemma {:induction false} Reachable(c: Config, ss: seq<State>, es: seq<Event>, k: nat)
    requires c.dialect.SQLite? && Run(c, ss, es) && ss[0] == INITIAL && k <= |es|
    ensures Sound(ss[k])
  {
    if k > 0 {
      Reachable(c, ss, es, k - 1);
      SoundAt(c, ss, es, k - 1);
    }
  }

  /**
   In every reachable state a row has at most one unsettled message; a row that is still to be
   claimed has none and is neither claimed nor acked; `delivery_count` is the number of nacks that
   have run plus the current claim.
   */
  lemma ExclusiveDelivery(c: Config, ss: seq<State>, es: seq<Event>, k: nat)
    requires c.dialect.SQLite? && Run(c, ss, es) && ss[0] == INITIAL && k <= |es|
    ensures ss[k].WellFormed()
    ensures forall h, i :: 0 <= h < i < |ss[k].handles| && ss[k].handles[h].row == ss[k].handles[i].row ==>
              ss[k].handles[h].flags.Settled() || ss[k].handles[i].flags.Settled()
    ensures forall g, r :: r in ss[k].Batch(g) ==>
              && ss[k].rows[r].claimedAt.None? && ss[k].rows[r].ackedAt.None?
              && forall h :: 0 <= h < |ss[k].handles| && ss[k].handles[h].row == r ==> ss[k].handles[h].flags.Settled()
    ensures forall r: nat :: r < |ss[k].rows| ==>
              ss[k].rows[r].deliveryCount ==
              Nackings(ss[k].handles, r, |ss[k].handles|) + if ss[k].rows[r].claimedAt.Some? then 1 else 0
  {
    Reachable(c, ss, es, k);
    forall r: nat | r < |ss[k].rows|
      ensures ss[k].rows[r].deliveryCount ==
              Nackings(ss[k].handles, r, |ss[k].handles|) + if ss[k].rows[r].claimedAt.Some? then 1 else 0
    {
      assert AccountedRow(ss[k], r);
    }
  }

  lemma AckedKept(c: Config, s: State, e: Event, r: nat)
    requires s.WellFormed() && r < |s.rows| && s.rows[r].ackedAt.Some?
    ensures r < |Step(c, s, e).rows| && Step(c, s, e).rows[r].ackedAt.Some?
  {
  }

  /** Once acked, acked: no event clears `acked_at`, in either dialect. */
  lemma {:induction false} AckedStays(c: Config, ss: seq<State>, es: seq<Event>, r: nat, i: nat, k: nat)
    requires Run(c, ss, es) && i <= k <= |es|
    requires r < |ss[i].rows| && ss[i].rows[r].ackedAt.Some?
    ensures r < |ss[k].rows| && ss[k].rows[r].ackedAt.Some?
  {
    if i < k {
      AckedStays(c, ss, es, r, i, k - 1);
      assert StepAt(c, ss, es, k - 1);
      AckedKept(c, ss[k - 1], es[k - 1], r);
    }
  }

  /** An acked row is never claimed again, so it is never yielded again. */
  lemma AckedIsFinal(c: Config, ss: seq<State>, es: seq<Event>, r: nat, i: nat, k: nat)
    requires c.dialect.SQLite? && Run(c, ss, es) && ss[0] == INITIAL && i <= k < |es|
    requires r < |ss[i].rows| && ss[i].rows[r].ackedAt.Some?
    ensures !Claims(ss[k], es[k], r)
  {
    AckedStays(c, ss, es, r, i, k);
    Reachable(c, ss, es, k);
  }

  /** In SQLite a nack lies between any two claims of a row: an abandoned claim never comes back. */
  lemma NackBetweenClaims(c: Config, ss: seq<State>, es: seq<Event>, r: nat, i: nat, j: nat)
    requires c.dialect.SQLite? && Run(c, ss, es) && ss[0] == INITIAL && i < j < |es|
    requires Claims(ss[i], es[i], r) && Claims(ss[j], es[j], r)
    ensures exists n :: i < n < j && Nacks(ss[n], es[n], r)
  {
    if forall n :: i < n < j ==> !Nacks(ss[n], es[n], r) {
      ClaimedUntilNack(c, ss, es, r, i, j);
      Reachable(c, ss, es, j);
    }
  }

  ghost predicate IsClaimed(s: State, r: nat) {
    r < |s.rows| && s.rows[r].claimedAt.Some?
  }

  lemma ClaimedKept(c: Config, ss: seq<State>, es: seq<Event>, r: nat, k: nat)
    requires Run(c, ss, es) && k < |es|
    requires Claims(ss[k], es[k], r) || (IsClaimed(ss[k], r) && !Nacks(ss[k], es[k], r))
    ensures IsClaimed(ss[k + 1], r)
  {
    assert StepAt(c, ss, es, k);
  }

  lemma {:induction false} ClaimedUntilNack(c: Config, ss: seq<State>, es: seq<Event>, r: nat, i: nat, k: nat)
    requires Run(c, ss, es) && i < k <= |es| && Claims(ss[i], es[i], r)
    requires forall n :: i < n < k ==> !Nacks(ss[n], es[n], r)
    ensures IsClaimed(ss[k], r)
  {
    if i + 1 < k { ClaimedUntilNack(c, ss, es, r, i, k - 1); }
    ClaimedKept(c, ss, es, r, k - 1);
  }
}
