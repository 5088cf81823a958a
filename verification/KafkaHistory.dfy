/** When a Kafka member runs, what it reads, also after a nack, and what becomes of it, over whole runs. */
module KafkaHistory {
  import opened KafkaGroup

  // ---- only records that were appended -------------------------------------------------------------

  ghost predicate Exists(ends: seq<nat>, r: Record) {
    r.tp < |ends| && r.offset < ends[r.tp]
  }

  ghost predicate MemberInLog(ends: seq<nat>, m: Member)
    requires m.Running?
  {
    && |m.positions| == |ends| && (forall tp :: 0 <= tp < |ends| ==> m.positions[tp] <= ends[tp])
    && (forall q :: 0 <= q < |m.batch| ==> Exists(ends, m.batch[q]))
    && (forall r :: r in m.open ==> Exists(ends, r))
  }

  ghost predicate InLog(s: State) {
    && |s.committed| == |s.ends| && (forall tp :: 0 <= tp < |s.ends| ==> s.committed[tp] <= s.ends[tp])
    && (s.member.Running? ==> MemberInLog(s.ends, s.member))
    && (forall r :: r in s.acked || r in s.nacked || r in s.left ==> Exists(s.ends, r))
  }

  lemma {:induction false} FetchInLog(ends: seq<nat>, m: Member, counts: seq<Fetched>)
    requires m.Running? && MemberInLog(ends, m)
    ensures MemberInLog(ends, FetchAll(ends, m, counts))
    decreases |counts|
  {
    if counts != [] {
      var f := counts[0];
      if f.tp < |m.positions| && f.tp < |ends| && m.positions[f.tp] + f.count <= ends[f.tp] {
        FetchInLog(ends, m.(batch := m.batch + Records(f.tp, m.positions[f.tp], f.count),
                            positions := m.positions[f.tp := m.positions[f.tp] + f.count]), counts[1..]);
      } else {
        FetchInLog(ends, m, counts[1..]);
      }
    }
  }

  lemma AppendInLog(d: Driver, s: State, tp: nat)
    requires InLog(s)
    ensures InLog(Step(d, s, Append(tp)))
  {
    var t := Step(d, s, Append(tp));
    assert forall r :: Exists(s.ends, r) ==> Exists(t.ends, r);
  }

  lemma SucceedInLog(d: Driver, s: State, e: Event)
    requires InLog(s) && e.Succeed?
    ensures InLog(Step(d, s, e))
  {
  }

  lemma FailInLog(d: Driver, s: State, e: Event)
    requires InLog(s) && e.Fail?
    ensures InLog(Step(d, s, e))
  {
  }

  lemma LateInLog(d: Driver, s: State, e: Event)
    requires InLog(s) && e.SettleLate?
    ensures InLog(Step(d, s, e))
  {
  }

  lemma InLogKept(d: Driver, s: State, e: Event)
    requires InLog(s)
    ensures InLog(Step(d, s, e))
  {
    match e
    case Append(tp) => AppendInLog(d, s, tp);
    case Fetch(counts) => if s.member.Running? { FetchInLog(s.ends, s.member, counts); }
    case Succeed(_, _, _) => SucceedInLog(d, s, e);
    case Fail(_) => FailInLog(d, s, e);
    case SettleLate(_, _) => LateInLog(d, s, e);
    case _ =>
  }

  /** Every record that a member yields was appended before, and nothing past the end of a log is committed. */
  lemma {:induction false} OnlyAppended(d: Driver, partitions: nat, ss: seq<State>, es: seq<Event>, k: nat)
    requires Run(d, partitions, ss, es) && k <= |es|
    ensures InLog(ss[k])
    ensures forall r :: HasOpen(ss[k].member, r) ==> Exists(ss[k].ends, r)
  {
    if k > 0 {
      OnlyAppended(d, partitions, ss, es, k - 1);
      assert StepAt(d, ss, es, k - 1);
      InLogKept(d, ss[k - 1], es[k - 1]);
    }
  }

  // ---- after a nack ----------------------------------------------------------------------------------

  /** The first record of that partition in the batch, if there is one, is this one. */
  ghost predicate BeginsWith(batch: seq<Record>, r: Record) {
    forall q :: 0 <= q < |batch| && batch[q].tp == r.tp && (forall p :: 0 <= p < q ==> batch[p].tp != r.tp) ==>
      batch[q] == r
  }

  ghost predicate NoneOf(batch: seq<Record>, tp: nat) {
    forall q :: 0 <= q < |batch| ==> batch[q].tp != tp
  }

  /** The consumer fetches from r on, or has just done so. */
  ghost predicate FromOn(m: Member, r: Record)
    requires m.Running?
  {
    if r.tp < |m.positions| && NoneOf(m.batch, r.tp) then m.positions[r.tp] == r.offset else BeginsWith(m.batch, r)
  }

  lemma FetchOneFrom(m: Member, f: Fetched, r: Record)
    requires m.Running? && f.tp < |m.positions| && FromOn(m, r)
    ensures FromOn(m.(batch := m.batch + Records(f.tp, m.positions[f.tp], f.count),
                      positions := m.positions[f.tp := m.positions[f.tp] + f.count]), r)
  {
    var more := Records(f.tp, m.positions[f.tp], f.count);
    var all := m.batch + more;
    if f.tp == r.tp && NoneOf(m.batch, r.tp) {
      if f.count > 0 {
        assert all[|m.batch|] == more[0] == r && !NoneOf(all, r.tp);
      } else {
        assert all == m.batch;
      }
    } else if NoneOf(m.batch, r.tp) {
      assert NoneOf(all, r.tp);
    } else {
      var q :| 0 <= q < |m.batch| && m.batch[q].tp == r.tp;
      assert all[q] == m.batch[q];
      forall b | 0 <= b < |all| && all[b].tp == r.tp && (forall p :: 0 <= p < b ==> all[p].tp != r.tp)
        ensures all[b] == r
      {
        assert b <= q && m.batch[b] == all[b];
        assert forall p :: 0 <= p < b ==> m.batch[p] == all[p];
      }
    }
  }

  lemma {:induction false} FetchFrom(ends: seq<nat>, m: Member, counts: seq<Fetched>, r: Record)
    requires m.Running? && FromOn(m, r)
    ensures FromOn(FetchAll(ends, m, counts), r)
    decreases |counts|
  {
    if counts != [] {
      var f := counts[0];
      if f.tp < |m.positions| && f.tp < |ends| && m.positions[f.tp] + f.count <= ends[f.tp] {
        FetchOneFrom(m, f, r);
        FetchFrom(ends, m.(batch := m.batch + Records(f.tp, m.positions[f.tp], f.count),
                           positions := m.positions[f.tp := m.positions[f.tp] + f.count]), counts[1..], r);
      } else {
        FetchFrom(ends, m, counts[1..], r);
      }
    }
  }

  /** The event moves the position of the partition, or ends the member. */
  ghost predicate Repositions(s: State, e: Event, tp: nat) {
    e.Crash? || (e.Fail? && e.r.tp == tp) || (e.Fetch? && s.member.Running? && s.member.batch == [])
  }

  lemma SeeksAt(partitions: nat, ss: seq<State>, es: seq<Event>, r: Record, i: nat)
    requires Run(Free, partitions, ss, es) && i < |es| && es[i] == Fail(r) && HasOpen(ss[i].member, r)
    ensures ss[i + 1].member.Running?
    ensures r.tp < |ss[i + 1].member.positions| && ss[i + 1].member.positions[r.tp] == r.offset
  {
    assert StepAt(Free, ss, es, i);
    OnlyAppended(Free, partitions, ss, es, i);
  }

  lemma {:induction false} StaysThere(partitions: nat, ss: seq<State>, es: seq<Event>, r: Record, i: nat, k: nat)
    requires Run(Free, partitions, ss, es) && i < k <= |es| && es[i] == Fail(r) && HasOpen(ss[i].member, r)
    requires forall n :: i < n < k ==> !Repositions(ss[n], es[n], r.tp)
    ensures ss[k].member.Running?
    ensures r.tp < |ss[k].member.positions| && ss[k].member.positions[r.tp] == r.offset
  {
    if i + 1 == k {
      SeeksAt(partitions, ss, es, r, i);
    } else {
      StaysThere(partitions, ss, es, r, i, k - 1);
      assert StepAt(Free, ss, es, k - 1);
    }
  }

  /**
   For a consumer that goes on after a nack: the next fetch reads the partition from the nacked record on
   again, unless another nack of the partition or the end of the member comes between.
   */
  lemma NackedComesBack(partitions: nat, ss: seq<State>, es: seq<Event>, r: Record, i: nat, k: nat)
    requires Run(Free, partitions, ss, es) && i < k < |es| && es[i] == Fail(r) && HasOpen(ss[i].member, r)
    requires forall n :: i < n < k ==> !Repositions(ss[n], es[n], r.tp)
    requires es[k].Fetch? && ss[k].member.Running? && ss[k].member.batch == []
    ensures ss[k + 1].member.Running? && BeginsWith(ss[k + 1].member.batch, r)
    ensures NoneOf(ss[k + 1].member.batch, r.tp) ==>
              r.tp < |ss[k + 1].member.positions| && ss[k + 1].member.positions[r.tp] == r.offset
  {
    StaysThere(partitions, ss, es, r, i, k);
    assert StepAt(Free, ss, es, k);
    FetchFrom(ss[k].ends, ss[k].member, es[k].counts, r);
  }

  // ---- each yielded record is settled once ------------------------------------------------------------

  ghost predicate YieldsRecord(d: Driver, s: State, e: Event, r: Record) {
    && e.Deliver? && s.member.Running? && s.member.batch != [] && s.member.batch[0] == r
    && (d == Free || s.member.open == multiset{})
  }

  /** The ack or nack of a yielded record, of a running member or later. */
  ghost predicate SettlesRecord(s: State, e: Event, r: Record) {
    || ((e.Succeed? || e.Fail?) && e.r == r && s.member.Running? && r in s.member.open)
    || (e.SettleLate? && e.r == r && r in s.left)
  }

  ghost function YieldsOf(d: Driver, ss: seq<State>, es: seq<Event>, r: Record, k: nat): nat
    requires |ss| == |es| + 1 && k <= |es|
  {
    if k == 0 then 0 else YieldsOf(d, ss, es, r, k - 1) + if YieldsRecord(d, ss[k - 1], es[k - 1], r) then 1 else 0
  }

  ghost function SettlesOf(ss: seq<State>, es: seq<Event>, r: Record, k: nat): nat
    requires |ss| == |es| + 1 && k <= |es|
  {
    if k == 0 then 0 else SettlesOf(ss, es, r, k - 1) + if SettlesRecord(ss[k - 1], es[k - 1], r) then 1 else 0
  }

  /** How many yielded messages of the record are not settled. */
  ghost function Unsettled(s: State, r: Record): nat {
    s.left[r] + if s.member.Running? then s.member.open[r] else 0
  }

  /** The balance of one event. */
  ghost predicate Balanced(d: Driver, s: State, e: Event, r: Record) {
    Unsettled(Step(d, s, e), r) ==
    Unsettled(s, r) + (if YieldsRecord(d, s, e, r) then 1 else 0) - if SettlesRecord(s, e, r) then 1 else 0
  }

  lemma SucceedBalances(d: Driver, s: State, e: Event, r: Record)
    requires e.Succeed?
    ensures Balanced(d, s, e, r)
  {
  }

  lemma FailBalances(d: Driver, s: State, e: Event, r: Record)
    requires e.Fail?
    ensures Balanced(d, s, e, r)
  {
  }

  lemma DeliverBalances(d: Driver, s: State, r: Record)
    ensures Balanced(d, s, Deliver, r)
  {
  }

  lemma EndBalances(d: Driver, s: State, e: Event, r: Record)
    requires e.Crash? || e.StartMember? || e.SettleLate?
    ensures Balanced(d, s, e, r)
  {
  }

  lemma UnsettledStep(d: Driver, s: State, e: Event, r: Record)
    ensures Balanced(d, s, e, r)
  {
    match e
    case Succeed(_, _, _) => SucceedBalances(d, s, e, r);
    case Fail(_) => FailBalances(d, s, e, r);
    case Deliver => DeliverBalances(d, s, r);
    case Crash => EndBalances(d, s, e, r);
    case StartMember => EndBalances(d, s, e, r);
    case SettleLate(_, _) => EndBalances(d, s, e, r);
    case _ =>
  }

  /**
   Every time a record is yielded it is settled at most once, and until then it is open, or left over by a member
   that has ended: yields are settlements plus what is unsettled.
   */
  lemma {:induction false} YieldsAreSettledOnce(
    d: Driver, partitions: nat, ss: seq<State>, es: seq<Event>, r: Record, k: nat)
    requires Run(d, partitions, ss, es) && k <= |es|
    ensures YieldsOf(d, ss, es, r, k) == SettlesOf(ss, es, r, k) + Unsettled(ss[k], r)
  {
    if k > 0 {
      YieldsAreSettledOnce(d, partitions, ss, es, r, k - 1);
      assert StepAt(d, ss, es, k - 1);
      UnsettledStep(d, ss[k - 1], es[k - 1], r);
    }
  }

  // ---- what was settled --------------------------------------------------------------------------------

  ghost predicate AcksRecord(s: State, e: Event, r: Record) {
    SettlesRecord(s, e, r) && (e.Succeed? || (e.SettleLate? && e.acks))
  }

  ghost predicate NacksRecord(s: State, e: Event, r: Record) {
    SettlesRecord(s, e, r) && (e.Fail? || (e.SettleLate? && !e.acks))
  }

  lemma OthersSettleNothing(d: Driver, s: State, e: Event)
    requires !e.Succeed? && !e.Fail? && !e.SettleLate?
    ensures Step(d, s, e).acked == s.acked && Step(d, s, e).nacked == s.nacked
  {
  }

  lemma AckedStep(d: Driver, s: State, e: Event, r: Record)
    ensures r in Step(d, s, e).acked <==> r in s.acked || AcksRecord(s, e, r)
    ensures r in Step(d, s, e).nacked <==> r in s.nacked || NacksRecord(s, e, r)
  {
    if !e.Succeed? && !e.Fail? && !e.SettleLate? { OthersSettleNothing(d, s, e); }
  }

  lemma AckedAt(d: Driver, partitions: nat, ss: seq<State>, es: seq<Event>, r: Record, j: nat)
    requires Run(d, partitions, ss, es) && j < |es|
    ensures r in ss[j + 1].acked <==> r in ss[j].acked || AcksRecord(ss[j], es[j], r)
    ensures r in ss[j + 1].nacked <==> r in ss[j].nacked || NacksRecord(ss[j], es[j], r)
  {
    assert StepAt(d, ss, es, j);
    AckedStep(d, ss[j], es[j], r);
  }

  /** A record counts as acked, or nacked, exactly if one of its messages was, by then or after its member ended. */
  lemma {:induction false} SettledIff(
    d: Driver, partitions: nat, ss: seq<State>, es: seq<Event>, r: Record, k: nat)
    requires Run(d, partitions, ss, es) && k <= |es|
    ensures r in ss[k].acked <==> exists j: nat :: j < k && AcksRecord(ss[j], es[j], r)
    ensures r in ss[k].nacked <==> exists j: nat :: j < k && NacksRecord(ss[j], es[j], r)
  {
    if k > 0 {
      SettledIff(d, partitions, ss, es, r, k - 1);
      AckedAt(d, partitions, ss, es, r, k - 1);
    }
  }

  // ---- when the member runs ----------------------------------------------------------------------------

  /** The member ends: somehow, or because the router stops after a nack or an ack that raised. */
  ghost predicate EndsMember(d: Driver, s: State, e: Event) {
    || e.Crash?
    || (d == Router && (e.Fail? || (e.Succeed? && !e.ok)) && s.member.Running? && e.r in s.member.open)
  }

  ghost predicate StartedSince(d: Driver, ss: seq<State>, es: seq<Event>, k: nat)
    requires |ss| == |es| + 1 && k <= |es|
  {
    exists c: nat :: c < k && es[c] == StartMember && forall j: nat :: c < j < k ==> !EndsMember(d, ss[j], es[j])
  }

  lemma StartedStep(d: Driver, ss: seq<State>, es: seq<Event>, k: nat)
    requires |ss| == |es| + 1 && 0 < k <= |es|
    ensures StartedSince(d, ss, es, k) <==>
            es[k - 1] == StartMember || (StartedSince(d, ss, es, k - 1) && !EndsMember(d, ss[k - 1], es[k - 1]))
  {
    if StartedSince(d, ss, es, k) {
      var c: nat :| c < k && es[c] == StartMember && forall j: nat :: c < j < k ==> !EndsMember(d, ss[j], es[j]);
    }
  }

  lemma RunningStep(d: Driver, s: State, e: Event)
    ensures Step(d, s, e).member.Running? <==> e == StartMember || (s.member.Running? && !EndsMember(d, s, e))
  {
  }

  /** A member runs exactly if it was started and nothing has ended it since. */
  lemma {:induction false} RunningIff(d: Driver, partitions: nat, ss: seq<State>, es: seq<Event>, k: nat)
    requires Run(d, partitions, ss, es) && k <= |es|
    ensures ss[k].member.Running? <==> StartedSince(d, ss, es, k)
  {
    if k > 0 {
      RunningIff(d, partitions, ss, es, k - 1);
      assert StepAt(d, ss, es, k - 1);
      StartedStep(d, ss, es, k);
      RunningStep(d, ss[k - 1], es[k - 1]);
    }
  }
}
