/**
 A Kafka consumer group member over any number of partitions, with failures, closes, crashes and
 restarts: driven by the router, or by any other consumer, such as a bus that handles several records at
 once or a plain `async for`. One member owns all partitions; the reset policy is "earliest".
 */
module KafkaGroup {
  import opened Sequences

  datatype Record = Record(tp: nat, offset: nat)

  /**
   The router asks for a record when the last one is settled, and stops when a handler or an ack raises.
   A free consumer asks whenever it likes, and goes on until the member ends.
   */
  datatype Driver = Router | Free

  /**
   `positions` and `batch` live in the consumer: where it fetches next, and what it has fetched and
   not yet yielded. `open` holds the yielded records that are not settled yet.
   */
  datatype Member =
    | Stopped
    | Running(positions: seq<nat>, batch: seq<Record>, open: multiset<Record>)

  /**
   `ends` and `committed` live in the broker, one entry per partition. `acked` and `nacked` hold the
   records for which the calls were ever made, `left` those that were open when a member ended.
   */
  datatype State = State(
    ends: seq<nat>,
    committed: seq<nat>,
    acked: set<Record>,
    nacked: set<Record>,
    left: multiset<Record>,
    member: Member)

  datatype Event =
    | Append(tp: nat)
    | StartMember
    | Fetch(counts: seq<Fetched>)
    | Deliver
    | Succeed(r: Record, stored: bool, ok: bool) // ack(): the commit may be stored, and may raise, independently
    | Fail(r: Record)                            // nack()
    | SettleLate(r: Record, acks: bool)          // ack() or nack() after its member has ended
    | Crash                                      // the member ends, in whatever way

  /** What getmany returns for one partition: its next `count` records. */
  datatype Fetched = Fetched(tp: nat, count: nat)

  function Records(tp: nat, start: nat, count: nat): seq<Record> {
    seq(count, i requires 0 <= i < count => Record(tp, start + i))
  }

  /** The partitions of one getmany, one after the other. */
  ghost function FetchAll(ends: seq<nat>, r: Member, counts: seq<Fetched>): (t: Member)
    requires r.Running?
    ensures t.Running? && t.open == r.open && |t.positions| == |r.positions|
    decreases |counts|
  {
    if counts == [] then r
    else
      var f := counts[0];
      var t :=
        if f.tp < |r.positions| && f.tp < |ends| && r.positions[f.tp] + f.count <= ends[f.tp]
        then r.(batch := r.batch + Records(f.tp, r.positions[f.tp], f.count),
                positions := r.positions[f.tp := r.positions[f.tp] + f.count])
        else r;
      FetchAll(ends, t, counts[1..])
  }

  /** The consumer asks the running member for another record. */
  ghost predicate Asks(d: Driver, m: Member) {
    m.Running? && (d.Free? || m.open == multiset{})
  }

  ghost predicate HasOpen(m: Member, r: Record) {
    m.Running? && r in m.open
  }

  ghost function Ended(s: State): State {
    if s.member.Stopped? then s else s.(left := s.left + s.member.open, member := Stopped)
  }

  ghost function Step(d: Driver, s: State, e: Event): State {
    match e
    case Append(tp) =>
      if tp < |s.ends| then s.(ends := s.ends[tp := s.ends[tp] + 1]) else s
    case StartMember =>
      if s.member.Stopped? then s.(member := Running(s.committed, [], multiset{})) else s
    case Fetch(counts) =>
      if Asks(d, s.member) && s.member.batch == [] then s.(member := FetchAll(s.ends, s.member, counts)) else s
    case Deliver =>
      if Asks(d, s.member) && s.member.batch != []
      then s.(member := s.member.(batch := s.member.batch[1..], open := s.member.open + multiset{s.member.batch[0]}))
      else s
    case Succeed(r, stored, ok) =>
      if !HasOpen(s.member, r) then s
      else
        var t := s.(acked := s.acked + {r},
                    committed := if stored && r.tp < |s.committed| then s.committed[r.tp := r.offset + 1]
                                 else s.committed,
                    member := s.member.(open := s.member.open - multiset{r}));
        if ok || d.Free? then t else Ended(t)
    case Fail(r) =>
      if !HasOpen(s.member, r) then s
      else
        // nack() seeks back to the record
        var t := s.(nacked := s.nacked + {r},
                    member := s.member.(open := s.member.open - multiset{r},
                                        positions := if r.tp < |s.member.positions|
                                                     then s.member.positions[r.tp := r.offset]
                                                     else s.member.positions));
        if d.Free? then t else Ended(t)
    case SettleLate(r, acks) =>
      if r !in s.left then s
      else if acks then s.(left := s.left - multiset{r}, acked := s.acked + {r})
      else s.(left := s.left - multiset{r}, nacked := s.nacked + {r})
    case Crash => Ended(s)
  }

  ghost predicate StepAt(d: Driver, ss: seq<State>, es: seq<Event>, k: nat)
    requires k < |es| && |ss| == |es| + 1
  {
    ss[k + 1] == Step(d, ss[k], es[k])
  }

  ghost function Start(partitions: nat): State {
    State(seq(partitions, _ => 0), seq(partitions, _ => 0), {}, {}, multiset{}, Stopped)
  }

  ghost predicate Run(d: Driver, partitions: nat, ss: seq<State>, es: seq<Event>) {
    && |ss| == |es| + 1
    && ss[0] == Start(partitions)
    && forall k :: 0 <= k < |es| ==> StepAt(d, ss, es, k)
  }

  lemma OneMore(d: Driver, partitions: nat, ss: seq<State>, es: seq<Event>, e: Event)
    requires Run(d, partitions, ss, es)
    ensures Run(d, partitions, ss + [Step(d, ss[|es|], e)], es + [e])
  {
    var tt := ss + [Step(d, ss[|es|], e)];
    forall k | 0 <= k < |es| + 1 ensures StepAt(d, tt, es + [e], k) {
      if k < |es| { assert StepAt(d, ss, es, k); }
    }
  }

  // ---- what a member holds comes after known records ------------------------------------------------

  /** Every record of the partition below the bound is known, or is in front of it. */
  ghost predicate Behind(known: set<Record>, front: seq<Record>, tp: nat, bound: nat) {
    forall o: nat :: o < bound ==> Record(tp, o) in known || Record(tp, o) in front
  }

  /** The records of the batch, and those before the positions, come after known ones only. */
  ghost predicate BatchInOrder(known: set<Record>, batch: seq<Record>, positions: seq<nat>) {
    && (forall q :: 0 <= q < |batch| ==>
          batch[q].tp < |positions| && Behind(known, batch[..q], batch[q].tp, batch[q].offset))
    && (forall tp :: 0 <= tp < |positions| ==> Behind(known, batch, tp, positions[tp]))
  }

  ghost predicate OpenInOrder(known: set<Record>, open: multiset<Record>, partitions: nat) {
    forall r :: r in open ==> r.tp < partitions && Behind(known, [], r.tp, r.offset)
  }

  lemma NewInOrder(known: set<Record>, batch: seq<Record>, tp: nat, start: nat, n: nat)
    requires Behind(known, batch, tp, start)
    ensures Behind(known, batch + Records(tp, start, n), tp, start + n)
  {
    forall o: nat | start <= o < start + n ensures Record(tp, o) in Records(tp, start, n) {
      assert Records(tp, start, n)[o - start] == Record(tp, o);
    }
  }

  lemma FetchOneInOrder(known: set<Record>, batch: seq<Record>, positions: seq<nat>, tp: nat, count: nat)
    requires BatchInOrder(known, batch, positions) && tp < |positions|
    ensures BatchInOrder(known, batch + Records(tp, positions[tp], count), positions[tp := positions[tp] + count])
  {
    var start, now := positions[tp], positions[tp := positions[tp] + count];
    var all := batch + Records(tp, start, count);
    forall q | 0 <= q < |all| ensures Behind(known, all[..q], all[q].tp, all[q].offset) {
      if q < |batch| {
        assert all[..q] == batch[..q];
      } else {
        NewInOrder(known, batch, tp, start, q - |batch|);
        assert all[..q] == batch + Records(tp, start, q - |batch|);
      }
    }
    forall p | 0 <= p < |now| ensures Behind(known, all, p, now[p]) {
      assert Behind(known, batch, p, positions[p]);
      if p == tp { NewInOrder(known, batch, tp, start, count); }
    }
  }

  lemma {:induction false} FetchInOrder(known: set<Record>, ends: seq<nat>, r: Member, counts: seq<Fetched>)
    requires r.Running? && BatchInOrder(known, r.batch, r.positions)
    ensures var t := FetchAll(ends, r, counts); BatchInOrder(known, t.batch, t.positions)
    decreases |counts|
  {
    if counts != [] {
      var f := counts[0];
      if f.tp < |r.positions| && f.tp < |ends| && r.positions[f.tp] + f.count <= ends[f.tp] {
        FetchOneInOrder(known, r.batch, r.positions, f.tp, f.count);
        var t := r.(batch := r.batch + Records(f.tp, r.positions[f.tp], f.count),
                    positions := r.positions[f.tp := r.positions[f.tp] + f.count]);
        FetchInOrder(known, ends, t, counts[1..]);
      } else {
        FetchInOrder(known, ends, r, counts[1..]);
      }
    }
  }

  /** The first record of the batch becomes known. */
  lemma DeliverInOrder(known: set<Record>, batch: seq<Record>, positions: seq<nat>)
    requires batch != [] && BatchInOrder(known, batch, positions)
    ensures BatchInOrder(known + {batch[0]}, batch[1..], positions)
    ensures batch[0].tp < |positions| && Behind(known, [], batch[0].tp, batch[0].offset)
  {
    var r, rest := batch[0], batch[1..];
    assert batch == [r] + rest;
    forall q | 0 <= q < |rest| ensures Behind(known + {r}, rest[..q], rest[q].tp, rest[q].offset) {
      assert batch[q + 1] == rest[q] && batch[..q + 1] == [r] + rest[..q];
      assert Behind(known, batch[..q + 1], rest[q].tp, rest[q].offset);
    }
    assert Behind(known, batch[..0], r.tp, r.offset);
  }

  lemma KnownGrows(known: set<Record>, more: set<Record>, m: Member)
    requires m.Running? && known <= more && BatchInOrder(known, m.batch, m.positions)
    requires OpenInOrder(known, m.open, |m.positions|)
    ensures BatchInOrder(more, m.batch, m.positions) && OpenInOrder(more, m.open, |m.positions|)
  {
    forall q | 0 <= q < |m.batch| ensures Behind(more, m.batch[..q], m.batch[q].tp, m.batch[q].offset) {
      assert Behind(known, m.batch[..q], m.batch[q].tp, m.batch[q].offset);
    }
    forall r | r in m.open ensures Behind(more, [], r.tp, r.offset) { assert Behind(known, [], r.tp, r.offset); }
  }

  /** After a seek back to an open record everything is still in order. */
  lemma SeekInOrder(known: set<Record>, batch: seq<Record>, positions: seq<nat>, r: Record)
    requires BatchInOrder(known, batch, positions) && r.tp < |positions| && Behind(known, [], r.tp, r.offset)
    ensures BatchInOrder(known, batch, positions[r.tp := r.offset])
  {
  }

  // ---- the invariant -------------------------------------------------------------------------------

  ghost predicate AckedBelow(acked: set<Record>, tp: nat, bound: nat) {
    forall o: nat :: o < bound ==> Record(tp, o) in acked
  }

  /** Every record below a committed offset was acked. */
  ghost predicate PrefixAcked(s: State) {
    forall tp: nat :: tp < |s.committed| ==> AckedBelow(s.acked, tp, s.committed[tp])
  }

  /** The records that were settled, or are open; under the router a nacked record is not passed. */
  ghost function Known(d: Driver, s: State): set<Record> {
    s.acked + (if d.Free? then s.nacked else {}) + if s.member.Running? then (set r | r in s.member.open) else {}
  }

  ghost predicate Orderly(d: Driver, s: State) {
    && |s.ends| == |s.committed| && PrefixAcked(s)
    && (s.member.Running? ==>
          && |s.member.positions| == |s.ends|
          && BatchInOrder(Known(d, s), s.member.batch, s.member.positions)
          && OpenInOrder(Known(d, s), s.member.open, |s.ends|))
  }

  /** The event commits the offset after record r. */
  ghost predicate Commits(s: State, e: Event, r: Record) {
    e.Succeed? && e.stored && e.r == r && HasOpen(s.member, r)
  }

  /** No earlier record of the partition is still to be acked that was nacked or is open. */
  ghost predicate NoneLeftBefore(s: State, r: Record) {
    forall o: nat :: o < r.offset && (Record(r.tp, o) in s.nacked || HasOpen(s.member, Record(r.tp, o))) ==>
      Record(r.tp, o) in s.acked
  }

  /** The commit keeps the acked prefix exactly if it does not go past a nacked or open record. */
  lemma CommitKeepsPrefixIff(d: Driver, s: State, e: Event, r: Record)
    requires Orderly(d, s) && Commits(s, e, r)
    ensures PrefixAcked(Step(d, s, e)) <==> NoneLeftBefore(s, r)
  {
    var t := Step(d, s, e);
    assert Behind(Known(d, s), [], r.tp, r.offset);
    assert t.committed == s.committed[r.tp := r.offset + 1] && t.acked == s.acked + {r};
    if PrefixAcked(t) {
      forall o: nat | o < r.offset ensures Record(r.tp, o) in s.acked {
        assert AckedBelow(t.acked, r.tp, t.committed[r.tp]);
      }
    }
    if NoneLeftBefore(s, r) { AckedMore(s, t, r); }
  }

  lemma AckedMore(s: State, t: State, r: Record)
    requires PrefixAcked(s) && r.tp < |s.committed| && AckedBelow(s.acked, r.tp, r.offset)
    requires t.acked == s.acked + {r} && t.committed == s.committed[r.tp := r.offset + 1]
    ensures PrefixAcked(t)
  {
    forall tp: nat | tp < |t.committed| ensures AckedBelow(t.acked, tp, t.committed[tp]) {
      assert AckedBelow(s.acked, tp, s.committed[tp]);
    }
  }

  lemma OthersKeepPrefix(d: Driver, s: State, e: Event)
    requires PrefixAcked(s) && (e.Succeed? ==> !Commits(s, e, e.r))
    ensures PrefixAcked(Step(d, s, e))
  {
    forall tp: nat | tp < |s.committed| ensures AckedBelow(Step(d, s, e).acked, tp, s.committed[tp]) {
      assert AckedBelow(s.acked, tp, s.committed[tp]);
    }
  }

  lemma DeliverKeeps(d: Driver, s: State)
    requires Orderly(d, s)
    ensures Orderly(d, Step(d, s, Deliver))
  {
    var t := Step(d, s, Deliver);
    if t != s {
      var r, known := s.member.batch[0], Known(d, s);
      DeliverInOrder(known, s.member.batch, s.member.positions);
      assert Known(d, t) == known + {r};
      forall p | p in t.member.open ensures p.tp < |s.ends| && Behind(Known(d, t), [], p.tp, p.offset) {
        assert p == r || p in s.member.open;
        assert Behind(known, [], p.tp, p.offset);
      }
    }
  }

  lemma FailKeeps(d: Driver, s: State, r: Record)
    requires Orderly(d, s)
    ensures Orderly(d, Step(d, s, Fail(r)))
  {
    var t := Step(d, s, Fail(r));
    if t.member.Running? && t != s {
      assert Behind(Known(d, s), [], r.tp, r.offset);
      SeekInOrder(Known(d, s), s.member.batch, s.member.positions, r);
      var m := s.member.(positions := t.member.positions);
      assert Known(d, s) <= Known(d, t);
      KnownGrows(Known(d, s), Known(d, t), m);
    }
    OthersKeepPrefix(d, s, Fail(r));
  }

  lemma SucceedKeeps(d: Driver, s: State, e: Event)
    requires e.Succeed? && Orderly(d, s) && PrefixAcked(Step(d, s, e))
    ensures Orderly(d, Step(d, s, e))
  {
    var t := Step(d, s, e);
    if t.member.Running? && t != s {
      assert Known(d, s) <= Known(d, t);
      KnownGrows(Known(d, s), Known(d, t), s.member);
    }
  }

  lemma OrderlyKept(d: Driver, s: State, e: Event)
    requires Orderly(d, s) && PrefixAcked(Step(d, s, e))
    ensures Orderly(d, Step(d, s, e))
  {
    var t := Step(d, s, e);
    match e
    case Deliver => DeliverKeeps(d, s);
    case Fail(r) => FailKeeps(d, s, r);
    case Succeed(_, _, _) => SucceedKeeps(d, s, e);
    case Fetch(counts) =>
      if t != s { FetchInOrder(Known(d, s), s.ends, s.member, counts); }
    case StartMember => StartKeeps(d, s);
    case SettleLate(_, _) =>
      if s.member.Running? { KnownGrows(Known(d, s), Known(d, t), s.member); }
    case _ =>
  }

  lemma StartKeeps(d: Driver, s: State)
    requires Orderly(d, s)
    ensures Orderly(d, Step(d, s, StartMember))
  {
    var t := Step(d, s, StartMember);
    if t != s {
      forall tp | 0 <= tp < |s.committed| ensures Behind(Known(d, t), [], tp, s.committed[tp]) {
        assert AckedBelow(s.acked, tp, s.committed[tp]);
      }
    }
  }

  // ---- any consumer ----------------------------------------------------------------------------------

  ghost predicate CommitsInOrder(ss: seq<State>, es: seq<Event>, k: nat)
    requires |ss| == |es| + 1 && k <= |es|
  {
    forall n :: 0 <= n < k && es[n].Succeed? && Commits(ss[n], es[n], es[n].r) ==> NoneLeftBefore(ss[n], es[n].r)
  }

  ghost predicate PrefixesAcked(ss: seq<State>, k: nat)
    requires k < |ss|
  {
    forall n :: 0 <= n <= k ==> PrefixAcked(ss[n])
  }

  lemma {:induction false} OrderlyRun(d: Driver, partitions: nat, ss: seq<State>, es: seq<Event>, k: nat)
    requires Run(d, partitions, ss, es) && k <= |es| && PrefixesAcked(ss, k)
    ensures Orderly(d, ss[k]) && |ss[k].committed| == partitions
  {
    if k > 0 {
      OrderlyRun(d, partitions, ss, es, k - 1);
      assert StepAt(d, ss, es, k - 1);
      OrderlyKept(d, ss[k - 1], es[k - 1]);
    }
  }

  lemma PrefixStepIff(d: Driver, ss: seq<State>, es: seq<Event>, k: nat)
    requires |ss| == |es| + 1 && k < |es| && StepAt(d, ss, es, k) && Orderly(d, ss[k])
    ensures PrefixAcked(ss[k + 1]) <==>
            (es[k].Succeed? && Commits(ss[k], es[k], es[k].r) ==> NoneLeftBefore(ss[k], es[k].r))
  {
    if es[k].Succeed? && Commits(ss[k], es[k], es[k].r) {
      CommitKeepsPrefixIff(d, ss[k], es[k], es[k].r);
    } else {
      OthersKeepPrefix(d, ss[k], es[k]);
    }
  }

  /**
   Whatever the consumer does, one record at a time or many, stopping or going on after failures:
   committed offsets only ever cover acked records exactly if no commit goes past a record of its
   partition that is still to be acked and was nacked or is open.
   */
  lemma {:induction false} PrefixAckedIff(d: Driver, partitions: nat, ss: seq<State>, es: seq<Event>, k: nat)
    requires Run(d, partitions, ss, es) && k <= |es|
    ensures PrefixesAcked(ss, k) <==> CommitsInOrder(ss, es, k)
  {
    if k > 0 {
      PrefixAckedIff(d, partitions, ss, es, k - 1);
      if PrefixesAcked(ss, k - 1) {
        OrderlyRun(d, partitions, ss, es, k - 1);
        assert StepAt(d, ss, es, k - 1);
        PrefixStepIff(d, ss, es, k - 1);
      }
    }
  }

  // ---- under the router ------------------------------------------------------------------------------

  ghost predicate OneOpen(s: State) {
    s.member.Running? ==> forall r :: r in s.member.open ==> s.member.open == multiset{r}
  }

  /** The open record comes after acked ones only. */
  lemma OpenIsNext(s: State, r: Record)
    requires Orderly(Router, s) && OneOpen(s) && HasOpen(s.member, r)
    ensures r.tp < |s.committed| && AckedBelow(s.acked, r.tp, r.offset)
  {
    forall o: nat | o < r.offset ensures Record(r.tp, o) in s.acked {
      assert Behind(Known(Router, s), [], r.tp, r.offset);
    }
  }

  lemma RouterKeepsPrefix(s: State, e: Event)
    requires Orderly(Router, s) && OneOpen(s)
    ensures PrefixAcked(Step(Router, s, e))
  {
    if e.Succeed? && Commits(s, e, e.r) {
      OpenIsNext(s, e.r);
      CommitKeepsPrefixIff(Router, s, e, e.r);
    } else {
      OthersKeepPrefix(Router, s, e);
    }
  }

  lemma OneOpenDelivered(s: State)
    ensures OneOpen(s) ==> OneOpen(Step(Router, s, Deliver))
  {
    var t := Step(Router, s, Deliver);
    if t != s { assert t.member.open == multiset{s.member.batch[0]}; }
  }

  lemma NoneOpenAfter(s: State, e: Event)
    requires OneOpen(s) && e.Succeed? && HasOpen(s.member, e.r)
    ensures var t := Step(Router, s, e); t.member.Running? ==> t.member.open == multiset{}
  {
    assert s.member.open == multiset{e.r};
  }

  lemma OneOpenKept(s: State, e: Event)
    requires OneOpen(s)
    ensures OneOpen(Step(Router, s, e))
  {
    if e.Deliver? {
      OneOpenDelivered(s);
    } else if e.Succeed? && HasOpen(s.member, e.r) {
      NoneOpenAfter(s, e);
    }
  }

  /** All that a member holds lies at or after the committed offsets, in increasing order. */
  ghost predicate Forward(committed: seq<nat>, m: Member)
    requires m.Running?
  {
    && |m.positions| == |committed|
    && (forall tp :: 0 <= tp < |committed| ==> committed[tp] <= m.positions[tp])
    && (forall q :: 0 <= q < |m.batch| ==> Within(committed, m.positions, m.batch[q]))
    && (forall p, q :: 0 <= p < q < |m.batch| ==> Precedes(m.batch[p], m.batch[q]))
    && (forall r :: r in m.open ==> Within(committed, m.positions, r))
    && (forall r, q :: r in m.open && 0 <= q < |m.batch| ==> Precedes(r, m.batch[q]))
  }

  ghost predicate Within(committed: seq<nat>, positions: seq<nat>, r: Record) {
    r.tp < |committed| && r.tp < |positions| && committed[r.tp] <= r.offset < positions[r.tp]
  }

  /** In their partition, if it is the same one. */
  ghost predicate Precedes(p: Record, q: Record) {
    p.tp == q.tp ==> p.offset < q.offset
  }

  lemma FetchOneForward(committed: seq<nat>, m: Member, tp: nat, count: nat)
    requires m.Running? && Forward(committed, m) && tp < |committed|
    ensures Forward(committed, m.(batch := m.batch + Records(tp, m.positions[tp], count),
                                  positions := m.positions[tp := m.positions[tp] + count]))
  {
    var t := m.(batch := m.batch + Records(tp, m.positions[tp], count),
                positions := m.positions[tp := m.positions[tp] + count]);
    forall q | 0 <= q < |t.batch| ensures Within(committed, t.positions, t.batch[q]) {
      if q < |m.batch| { assert Within(committed, m.positions, m.batch[q]); }
    }
    forall p, q | 0 <= p < q < |t.batch| ensures Precedes(t.batch[p], t.batch[q]) {
      if q < |m.batch| { assert Precedes(m.batch[p], m.batch[q]); }
      else if p < |m.batch| { assert Within(committed, m.positions, m.batch[p]); }
    }
    forall r | r in t.open ensures Within(committed, t.positions, r) {
      assert Within(committed, m.positions, r);
    }
    forall r, q | r in t.open && 0 <= q < |t.batch| ensures Precedes(r, t.batch[q]) {
      if q < |m.batch| { assert Precedes(r, m.batch[q]); } else { assert Within(committed, m.positions, r); }
    }
  }

  lemma {:induction false} FetchForward(committed: seq<nat>, ends: seq<nat>, m: Member, counts: seq<Fetched>)
    requires m.Running? && Forward(committed, m)
    ensures Forward(committed, FetchAll(ends, m, counts))
    decreases |counts|
  {
    if counts != [] {
      var f := counts[0];
      if f.tp < |m.positions| && f.tp < |ends| && m.positions[f.tp] + f.count <= ends[f.tp] {
        FetchOneForward(committed, m, f.tp, f.count);
        FetchForward(committed, ends, m.(batch := m.batch + Records(f.tp, m.positions[f.tp], f.count),
                                         positions := m.positions[f.tp := m.positions[f.tp] + f.count]), counts[1..]);
      } else {
        FetchForward(committed, ends, m, counts[1..]);
      }
    }
  }

  ghost predicate MovesForward(s: State) {
    s.member.Running? ==> Forward(s.committed, s.member)
  }

  lemma DeliverForward(s: State)
    requires OneOpen(s) && MovesForward(s)
    ensures MovesForward(Step(Router, s, Deliver))
  {
    var t := Step(Router, s, Deliver);
    if t != s {
      var r := s.member.batch[0];
      assert t.member.open == multiset{r};
      forall q | 0 <= q < |t.member.batch| ensures Precedes(r, t.member.batch[q]) {
        assert Precedes(s.member.batch[0], s.member.batch[q + 1]);
      }
    }
  }

  lemma SucceedForward(s: State, e: Event)
    requires e.Succeed? && OneOpen(s) && MovesForward(s)
    ensures MovesForward(Step(Router, s, e))
    ensures HasOpen(s.member, e.r) ==> e.r.tp < |s.committed| && s.committed[e.r.tp] <= e.r.offset
  {
    var t := Step(Router, s, e);
    if HasOpen(s.member, e.r) {
      assert Within(s.committed, s.member.positions, e.r);
      NoneOpenAfter(s, e);
      if t.member.Running? {
        forall q | 0 <= q < |t.member.batch| ensures Within(t.committed, t.member.positions, t.member.batch[q]) {
          assert Within(s.committed, s.member.positions, s.member.batch[q]) && Precedes(e.r, s.member.batch[q]);
        }
      }
    }
  }

  lemma ForwardKept(s: State, e: Event)
    requires OneOpen(s) && MovesForward(s) && |s.ends| == |s.committed|
    ensures MovesForward(Step(Router, s, e))
  {
    match e
    case Deliver => DeliverForward(s);
    case Succeed(_, _, _) => SucceedForward(s, e);
    case Fetch(counts) => if s.member.Running? { FetchForward(s.committed, s.ends, s.member, counts); }
    case _ =>
  }

  ghost predicate RouterSound(s: State) {
    Orderly(Router, s) && OneOpen(s) && MovesForward(s)
  }

  lemma RouterSoundKept(s: State, e: Event)
    requires RouterSound(s)
    ensures RouterSound(Step(Router, s, e))
  {
    RouterKeepsPrefix(s, e);
    OrderlyKept(Router, s, e);
    OneOpenKept(s, e);
    ForwardKept(s, e);
  }

  lemma CommitsForward(s: State, e: Event)
    requires MovesForward(s) && OneOpen(s)
    ensures |Step(Router, s, e).committed| == |s.committed|
    ensures forall tp :: 0 <= tp < |s.committed| ==> s.committed[tp] <= Step(Router, s, e).committed[tp]
  {
    if e.Succeed? { SucceedForward(s, e); }
  }

  lemma RouterStepAt(partitions: nat, ss: seq<State>, es: seq<Event>, k: nat)
    requires Run(Router, partitions, ss, es) && k < |es| && RouterSound(ss[k])
    ensures RouterSound(ss[k + 1]) && |ss[k + 1].committed| == |ss[k].committed|
    ensures forall tp :: 0 <= tp < |ss[k].committed| ==> ss[k].committed[tp] <= ss[k + 1].committed[tp]
  {
    assert StepAt(Router, ss, es, k);
    RouterSoundKept(ss[k], es[k]);
    CommitsForward(ss[k], es[k]);
  }

  lemma {:induction false} RouterReaches(partitions: nat, ss: seq<State>, es: seq<Event>, k: nat)
    requires Run(Router, partitions, ss, es) && k <= |es|
    ensures RouterSound(ss[k]) && |ss[k].committed| == partitions
  {
    if k > 0 {
      RouterReaches(partitions, ss, es, k - 1);
      RouterStepAt(partitions, ss, es, k - 1);
    }
  }

  /** Every record below a partition's committed offset was acked: a crash can lose none of them. */
  lemma AckedPrefix(partitions: nat, ss: seq<State>, es: seq<Event>, k: nat, tp: nat, o: nat)
    requires Run(Router, partitions, ss, es) && k <= |es| && tp < partitions
    ensures |ss[k].committed| == partitions
    ensures o < ss[k].committed[tp] ==> Record(tp, o) in ss[k].acked
  {
    RouterReaches(partitions, ss, es, k);
    assert AckedBelow(ss[k].acked, tp, ss[k].committed[tp]);
  }

  /** No record is skipped: when one is yielded, all earlier ones of its partition were acked. */
  lemma NoneSkipped(partitions: nat, ss: seq<State>, es: seq<Event>, k: nat, r: Record, o: nat)
    requires Run(Router, partitions, ss, es) && k <= |es| && HasOpen(ss[k].member, r) && o < r.offset
    ensures Record(r.tp, o) in ss[k].acked
  {
    RouterReaches(partitions, ss, es, k);
    OpenIsNext(ss[k], r);
  }

  /** Committed offsets never fall, in spite of restarts. */
  lemma {:induction false} CommittedNeverFalls(
    partitions: nat, ss: seq<State>, es: seq<Event>, i: nat, k: nat, tp: nat)
    requires Run(Router, partitions, ss, es) && i <= k <= |es| && tp < partitions
    ensures |ss[i].committed| == |ss[k].committed| == partitions
    ensures ss[i].committed[tp] <= ss[k].committed[tp]
  {
    RouterReaches(partitions, ss, es, k);
    if i < k {
      CommittedNeverFalls(partitions, ss, es, i, k - 1, tp);
      RouterReaches(partitions, ss, es, k - 1);
      RouterStepAt(partitions, ss, es, k - 1);
    }
  }

  // ---- and without it ----------------------------------------------------------------------------------

  lemma FetchTwo(r: Member)
    requires r == Running([0], [], multiset{})
    ensures FetchAll([2], r, [Fetched(0, 2)]) == Running([2], [Record(0, 0), Record(0, 1)], multiset{})
  {
    assert Records(0, 0, 2) == [Record(0, 0), Record(0, 1)];
    assert [Fetched(0, 2)][1..] == [];
  }

  /** Two records are appended and fetched. */
  lemma TwoFetched() returns (ss: seq<State>, es: seq<Event>)
    ensures es == [Append(0), Append(0), StartMember, Fetch([Fetched(0, 2)])] && Run(Free, 1, ss, es)
    ensures ss[4] == State([2], [0], {}, {}, multiset{}, Running([2], [Record(0, 0), Record(0, 1)], multiset{}))
  {
    var s1, s2 := State([1], [0], {}, {}, multiset{}, Stopped), State([2], [0], {}, {}, multiset{}, Stopped);
    var s3 := State([2], [0], {}, {}, multiset{}, Running([0], [], multiset{}));
    es := [Append(0), Append(0), StartMember, Fetch([Fetched(0, 2)])];
    ss := [Start(1), s1, s2, s3, Step(Free, s3, es[3])];
    assert s1 == Step(Free, Start(1), Append(0));
    assert s2 == Step(Free, s1, Append(0));
    assert s3 == Step(Free, s2, StartMember);
    FetchTwo(s3.member);
  }

  /** A consumer with several records open, as a bus is, yields both and acks the second one first. */
  lemma SecondAckedFirst() returns (ss: seq<State>, es: seq<Event>)
    ensures Run(Free, 1, ss, es) && |es| == 7
    ensures var r := Record(0, 1);
            ss[7] == State([2], [2], {r}, {}, multiset{}, Running([2], [], multiset{Record(0, 0)}))
  {
    ss, es := TwoFetched();
    var first, second := Record(0, 0), Record(0, 1);
    OneMore(Free, 1, ss, es, Deliver);
    ss, es := ss + [Step(Free, ss[4], Deliver)], es + [Deliver];
    assert ss[5].member == Running([2], [second], multiset{first});
    OneMore(Free, 1, ss, es, Deliver);
    ss, es := ss + [Step(Free, ss[5], Deliver)], es + [Deliver];
    assert ss[6].member == Running([2], [], multiset{first, second});
    var ack := Succeed(second, true, true);
    OneMore(Free, 1, ss, es, ack);
    ss, es := ss + [Step(Free, ss[6], ack)], es + [ack];
    assert ss[7].member == Running([2], [], multiset{first});
  }

  /** When the member then ends, the first record is lost without any nack. */
  lemma ManyOpenLoseRecords() returns (ss: seq<State>, es: seq<Event>)
    ensures Run(Free, 1, ss, es) && |es| == 8
    ensures ss[8].member.Stopped? && ss[8].committed == [2] && ss[8].acked == {Record(0, 1)} && ss[8].nacked == {}
  {
    ss, es := SecondAckedFirst();
    OneMore(Free, 1, ss, es, Crash);
    ss, es := ss + [Step(Free, ss[7], Crash)], es + [Crash];
  }

  /** When the first record is acked after all, the committed offset falls. */
  lemma ManyOpenFallBack() returns (ss: seq<State>, es: seq<Event>)
    ensures Run(Free, 1, ss, es) && |es| == 8 && ss[7].committed == [2] && ss[8].committed == [1]
  {
    ss, es := SecondAckedFirst();
    var ack := Succeed(Record(0, 0), true, true);
    OneMore(Free, 1, ss, es, ack);
    ss, es := ss + [Step(Free, ss[7], ack)], es + [ack];
  }

  /** So can one that goes on with its batch after a nack, as a plain `async for` does. */
  lemma GoingOnLosesRecords() returns (ss: seq<State>, es: seq<Event>)
    ensures Run(Free, 1, ss, es) && |es| == 8
    ensures ss[8].committed == [2] && ss[8].nacked == {Record(0, 0)} && ss[8].acked == {Record(0, 1)}
  {
    ss, es := TwoFetched();
    var first, second := Record(0, 0), Record(0, 1);
    OneMore(Free, 1, ss, es, Deliver);
    ss, es := ss + [Step(Free, ss[4], Deliver)], es + [Deliver];
    assert ss[5].member == Running([2], [second], multiset{first});
    OneMore(Free, 1, ss, es, Fail(first));
    ss, es := ss + [Step(Free, ss[5], Fail(first))], es + [Fail(first)];
    assert ss[6].member == Running([0], [second], multiset{});
    OneMore(Free, 1, ss, es, Deliver);
    ss, es := ss + [Step(Free, ss[6], Deliver)], es + [Deliver];
    assert ss[7].member == Running([0], [], multiset{second});
    var ack := Succeed(second, true, true);
    OneMore(Free, 1, ss, es, ack);
    ss, es := ss + [Step(Free, ss[7], ack)], es + [ack];
  }
}
