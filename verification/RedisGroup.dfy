/**
 A Redis stream with one consumer group as a state machine: the entries, the group's last delivered
 entry, the pending lists, and the generators of its consumers. Events interleave freely.
 */
module RedisGroup {
  import Messages
  import opened Sequences

  /** A yielded message; `applied` says that its callback has run. */
  datatype Handle = Handle(id: nat, consumer: string, flags: Messages.Settlement, applied: bool)

  /** Which of its two reads a generator makes next. */
  datatype Phase = History | New

  /** A generator between two awaits: what it has read and not yet yielded, and what it reads next. */
  datatype Reader = Reader(batch: seq<nat>, next: Phase)

  const IDLE := Reader([], History)

  function Get<T>(m: map<string, T>, c: string, otherwise: T): T {
    if c in m then m[c] else otherwise
  }

  /** Entries are numbered in stream order; those below `delivered` were given to a consumer. */
  datatype State = State(
    entries: nat,
    delivered: nat,
    pending: map<string, seq<nat>>,
    acked: set<nat>,
    readers: map<string, Reader>,
    handles: seq<Handle>)
  {
    /** The pending list of consumer c, in stream order. */
    function Pending(c: string): seq<nat> { Get(pending, c, []) }

    function ReaderOf(c: string): Reader { Get(readers, c, IDLE) }
  }

  datatype Event =
    | Add
    | ReadHistory(c: string)     // XREADGROUP from "0"
    | ReadNew(c: string)         // XREADGROUP from ">"
    | Yield(c: string)
    | Restart(c: string)         // the generator is closed or its process dies; a new one may start
    | CallAck(h: nat)
    | CallNack(h: nat)
    | Settle(h: nat)             // the callback: XACK for an ack, nothing for a nack

  function Min(a: nat, b: nat): nat { if a < b then a else b }

  function Range(first: nat, end: nat): (ids: seq<nat>)
    requires first <= end
    ensures |ids| == end - first && forall i :: 0 <= i < |ids| ==> ids[i] == first + i
  {
    seq(end - first, i requires 0 <= i => first + i)
  }

  function Without(ids: seq<nat>, id: nat): (rest: seq<nat>)
    ensures forall x :: x in rest <==> x in ids && x != id
  {
    if ids == [] then []
    else if ids[0] == id then Without(ids[1..], id)
    else [ids[0]] + Without(ids[1..], id)
  }

  /** XACK takes the entry off whichever pending list holds it. */
  function Acknowledge(pending: map<string, seq<nat>>, id: nat): map<string, seq<nat>> {
    map c | c in pending :: Without(pending[c], id)
  }

  /** Each consumer reads at most `count(c)` entries at once. */
  ghost function Step(count: string -> nat, s: State, e: Event): State {
    match e
    case Add => s.(entries := s.entries + 1)
    case ReadHistory(c) =>
      if s.ReaderOf(c) != IDLE then s
      else s.(readers := s.readers[c := Reader(s.Pending(c)[..Min(count(c), |s.Pending(c)|)], New)])
    case ReadNew(c) =>
      if s.ReaderOf(c) != Reader([], New) || s.delivered > s.entries then s
      else
        var end := s.delivered + Min(count(c), s.entries - s.delivered);
        s.(delivered := end,
           pending := s.pending[c := s.Pending(c) + Range(s.delivered, end)],
           readers := s.readers[c := Reader(Range(s.delivered, end), History)])
    case Yield(c) =>
      var r := s.ReaderOf(c);
      if r.batch == [] then s
      else s.(readers := s.readers[c := r.(batch := r.batch[1..])],
              handles := s.handles + [Handle(r.batch[0], c, Messages.UNSETTLED, false)])
    case Restart(c) => s.(readers := s.readers[c := IDLE])
    case CallAck(h) =>
      if h >= |s.handles| then s
      else s.(handles := s.handles[h := s.handles[h].(flags := Messages.Ack(s.handles[h].flags).0)])
    case CallNack(h) =>
      if h >= |s.handles| then s
      else s.(handles := s.handles[h := s.handles[h].(flags := Messages.Nack(s.handles[h].flags).0)])
    case Settle(h) =>
      if !(h < |s.handles| && s.handles[h].flags.Settled() && !s.handles[h].applied) then s
      else
        var m := s.handles[h];
        var t := s.(handles := s.handles[h := m.(applied := true)]);
        if m.flags.acked then t.(acked := s.acked + {m.id}, pending := Acknowledge(s.pending, m.id)) else t
  }

  // ---- runs --------------------------------------------------------------------------------------

  const EMPTY := State(0, 0, map[], {}, map[], [])

  ghost predicate StepAt(count: string -> nat, ss: seq<State>, es: seq<Event>, k: nat)
    requires k < |es| && |ss| == |es| + 1
  {
    ss[k + 1] == Step(count, ss[k], es[k])
  }

  ghost predicate Run(count: string -> nat, ss: seq<State>, es: seq<Event>) {
    && |ss| == |es| + 1
    && ss[0] == EMPTY
    && forall k :: 0 <= k < |es| ==> StepAt(count, ss, es, k)
  }

  /** The event runs XACK for this entry. */
  ghost predicate Acks(s: State, e: Event, id: nat) {
    && e.Settle? && e.h < |s.handles| && s.handles[e.h].flags.acked && !s.handles[e.h].applied
    && s.handles[e.h].id == id
  }

  ghost predicate Yields(s: State, e: Event, c: string, id: nat) {
    e == Yield(c) && s.ReaderOf(c).batch != [] && s.ReaderOf(c).batch[0] == id
  }

  // ---- invariants --------------------------------------------------------------------------------

  /** The pending lists are in stream order, and with the acked entries they make up the delivered ones. */
  ghost predicate Partition(s: State) {
    && s.delivered <= s.entries
    && (forall c :: Increasing(s.Pending(c)))
    && (forall c, id: nat :: id in s.Pending(c) ==> id < s.delivered)
    && (forall c, id: nat :: id in s.Pending(c) ==> id !in s.acked)
    && (forall id: nat :: id in s.acked ==> id < s.delivered)
    && (forall id: nat :: id < s.delivered && id !in s.acked ==> exists c :: id in s.Pending(c))
    && (forall c, d, id: nat :: id in s.Pending(c) && id in s.Pending(d) ==> c == d)
  }

  ghost predicate HandleFor(s: State, h: int, c: string, id: nat) {
    0 <= h < |s.handles| && s.handles[h].id == id && s.handles[h].consumer == c
  }

  /** Consumer c has the entry in its pending list, in its batch or in a message. */
  ghost predicate Has(s: State, c: string, id: nat) {
    || id in s.Pending(c)
    || id in s.ReaderOf(c).batch
    || exists h :: HandleFor(s, h, c, id)
  }

  ghost predicate OneOwner(s: State) {
    && (forall c, id: nat :: Has(s, c, id) ==> id < s.delivered)
    && (forall c, d, id: nat :: Has(s, c, id) && Has(s, d, id) ==> c == d)
  }

  ghost predicate BatchesIncrease(s: State) {
    forall c :: Increasing(s.ReaderOf(c).batch)
  }

  /** The acked entries are those whose XACK has run for some message. */
  ghost predicate AckedByMessage(s: State) {
    forall id: nat :: id in s.acked <==> exists h :: AckRan(s, h, id)
  }

  ghost predicate AppliedIsSettled(s: State) {
    forall h :: 0 <= h < |s.handles| && s.handles[h].applied ==> s.handles[h].flags.Settled()
  }

  lemma {:induction false} WithoutIncreasing(ids: seq<nat>, id: nat)
    requires Increasing(ids)
    ensures Increasing(Without(ids, id))
  {
    if ids != [] {
      WithoutIncreasing(ids[1..], id);
      if ids[0] != id {
        var rest := Without(ids[1..], id);
        forall b | 0 <= b < |rest| ensures ids[0] < rest[b] { assert rest[b] in ids[1..]; }
      }
    }
  }

  // What an event does to the lists: nothing, a read of new entries, or an acknowledgement.

  ghost predicate SameLists(s: State, t: State) {
    t.delivered == s.delivered && s.entries <= t.entries && t.pending == s.pending && t.acked == s.acked
  }

  ghost predicate TakesNew(s: State, t: State, c: string) {
    && s.delivered <= t.delivered <= t.entries && t.acked == s.acked
    && t.pending == s.pending[c := s.Pending(c) + Range(s.delivered, t.delivered)]
  }

  ghost predicate TakesOff(s: State, t: State, id: nat) {
    && t.delivered == s.delivered && t.entries == s.entries
    && t.pending == Acknowledge(s.pending, id) && t.acked == s.acked + {id}
  }

  lemma ListsChange(count: string -> nat, s: State, e: Event)
    requires s.delivered <= s.entries
    ensures var t := Step(count, s, e);
      || SameLists(s, t)
      || (e.ReadNew? && TakesNew(s, t, e.c))
      || (e.Settle? && e.h < |s.handles| && Acks(s, e, s.handles[e.h].id) && TakesOff(s, t, s.handles[e.h].id))
  {
  }

  lemma TakesOffKeeps(s: State, t: State, id: nat)
    requires Partition(s) && id < s.delivered && TakesOff(s, t, id)
    ensures Partition(t)
  {
    forall c ensures t.Pending(c) == Without(s.Pending(c), id) && Increasing(t.Pending(c)) {
      WithoutIncreasing(s.Pending(c), id);
    }
    forall x: nat | x < t.delivered && x !in t.acked ensures exists c :: x in t.Pending(c) {
      var c :| x in s.Pending(c);
      assert x in t.Pending(c);
    }
  }

  lemma PendingAfterNew(s: State, t: State, c: string, d: string, id: nat)
    requires TakesNew(s, t, c)
    ensures id in t.Pending(d) <==> id in s.Pending(d) || (d == c && s.delivered <= id < t.delivered)
  {
    if d == c && s.delivered <= id < t.delivered {
      assert Range(s.delivered, t.delivered)[id - s.delivered] == id;
    }
  }

  lemma NewHasOneOwner(s: State, t: State, c: string, d: string, f: string, id: nat)
    requires Partition(s) && TakesNew(s, t, c) && id in t.Pending(d)
    ensures id < t.delivered && id !in t.acked
    ensures id in t.Pending(f) ==> d == f
  {
    PendingAfterNew(s, t, c, d, id);
    PendingAfterNew(s, t, c, f, id);
  }

  lemma NewIsCovered(s: State, t: State, c: string, id: nat)
    requires Partition(s) && TakesNew(s, t, c) && id < t.delivered && id !in t.acked
    ensures exists d :: id in t.Pending(d)
  {
    if id < s.delivered {
      var d :| id in s.Pending(d);
      PendingAfterNew(s, t, c, d, id);
    } else {
      PendingAfterNew(s, t, c, c, id);
    }
  }

  lemma TakesNewKeeps(s: State, t: State, c: string)
    requires Partition(s) && TakesNew(s, t, c)
    ensures Partition(t)
  {
    NewIncreasing(s, t, c);
    forall id: nat | id < t.delivered && id !in t.acked ensures exists d :: id in t.Pending(d) {
      NewIsCovered(s, t, c, id);
    }
    forall d, id: nat | id in t.Pending(d) ensures id < t.delivered { NewHasOneOwner(s, t, c, d, d, id); }
    forall d, id: nat | id in t.Pending(d) ensures id !in t.acked { NewHasOneOwner(s, t, c, d, d, id); }
    forall d, f, id: nat | id in t.Pending(d) && id in t.Pending(f) ensures d == f {
      NewHasOneOwner(s, t, c, d, f, id);
    }
  }

  lemma JoinIncreasing(low: seq<nat>, high: seq<nat>, bound: nat)
    requires Increasing(low) && Increasing(high)
    requires (forall x :: x in low ==> x < bound) && forall x :: x in high ==> bound <= x
    ensures Increasing(low + high)
  {
    forall a, b | 0 <= a < b < |low + high| ensures (low + high)[a] < (low + high)[b] {
      if a < |low| <= b { assert low[a] in low && high[b - |low|] in high; }
    }
  }

  lemma NewIncreasing(s: State, t: State, c: string)
    requires Partition(s) && TakesNew(s, t, c)
    ensures forall d :: Increasing(t.Pending(d))
  {
    var was, more := s.Pending(c), Range(s.delivered, t.delivered);
    assert Increasing(was) && forall x :: x in was ==> x < s.delivered;
    JoinIncreasing(was, more, s.delivered);
    forall d ensures Increasing(t.Pending(d)) {
      assert t.Pending(d) == if d == c then was + more else s.Pending(d);
      assert Increasing(s.Pending(d));
    }
  }

  lemma PartitionKept(count: string -> nat, s: State, e: Event)
    requires Partition(s) && OneOwner(s)
    ensures Partition(Step(count, s, e))
  {
    var t := Step(count, s, e);
    ListsChange(count, s, e);
    if SameLists(s, t) {
      SameListsKeep(s, t);
    } else if e.ReadNew? {
      TakesNewKeeps(s, t, e.c);
    } else {
      var m := s.handles[e.h];
      assert HandleFor(s, e.h, m.consumer, m.id) && Has(s, m.consumer, m.id);
      TakesOffKeeps(s, t, m.id);
    }
  }

  lemma SameListsKeep(s: State, t: State)
    requires Partition(s) && SameLists(s, t)
    ensures Partition(t)
  {
    assert forall c :: t.Pending(c) == s.Pending(c);
  }

  /** Only a read of new entries gives a consumer an entry that it did not have. */
  lemma HasOnlyByReading(count: string -> nat, s: State, e: Event, c: string, id: nat)
    requires s.delivered <= s.entries && Has(Step(count, s, e), c, id)
    ensures Has(s, c, id) || (e == ReadNew(c) && s.delivered <= id < Step(count, s, e).delivered)
  {
    var t := Step(count, s, e);
    if id in t.Pending(c) {
      ListsChange(count, s, e);
      if e.ReadNew? && TakesNew(s, t, e.c) { PendingAfterNew(s, t, e.c, c, id); }
    } else if id in t.ReaderOf(c).batch {
      BatchChange(count, s, e, c);
    } else {
      var h :| HandleFor(t, h, c, id);
      HandleBefore(count, s, e, h);
    }
  }

  lemma HandleBefore(count: string -> nat, s: State, e: Event, h: nat)
    requires h < |Step(count, s, e).handles|
    ensures var m := Step(count, s, e).handles[h];
            HandleFor(s, h, m.consumer, m.id) ||
            (&& |s.handles| == h && Yields(s, e, m.consumer, m.id)
             && m == Handle(m.id, m.consumer, Messages.UNSETTLED, false))
  {
  }

  lemma OneOwnerKept(count: string -> nat, s: State, e: Event)
    requires Partition(s) && OneOwner(s)
    ensures OneOwner(Step(count, s, e))
  {
    var t := Step(count, s, e);
    ListsChange(count, s, e);
    forall c, id: nat | Has(t, c, id) ensures id < t.delivered { HasOnlyByReading(count, s, e, c, id); }
    forall c, d, id: nat | Has(t, c, id) && Has(t, d, id) ensures c == d {
      HasOnlyByReading(count, s, e, c, id);
      HasOnlyByReading(count, s, e, d, id);
    }
  }

  lemma BatchesIncreaseKept(count: string -> nat, s: State, e: Event)
    requires Partition(s) && BatchesIncrease(s)
    ensures BatchesIncrease(Step(count, s, e))
  {
    var t := Step(count, s, e);
    forall c ensures Increasing(t.ReaderOf(c).batch) {
      BatchChange(count, s, e, c);
      assert Increasing(s.Pending(c)) && Increasing(s.ReaderOf(c).batch);
    }
  }

  /** A batch loses its first entry or all of them, or is read from the pending list or anew. */
  lemma BatchChange(count: string -> nat, s: State, e: Event, c: string)
    ensures var t := Step(count, s, e);
            var was, now := s.ReaderOf(c).batch, t.ReaderOf(c).batch;
      || now == was || now == []
      || (e == Yield(c) && was != [] && now == was[1..])
      || (e == ReadHistory(c) && now <= s.Pending(c))
      || (e == ReadNew(c) && s.delivered <= t.delivered && now == Range(s.delivered, t.delivered))
  {
  }

  lemma HandleAfter(count: string -> nat, s: State, e: Event, h: nat)
    requires AppliedIsSettled(s) && h < |s.handles|
    ensures h < |Step(count, s, e).handles|
    ensures var m, n := s.handles[h], Step(count, s, e).handles[h];
      && n.id == m.id && n.consumer == m.consumer
      && (m.applied ==> n == m)
      && (n.applied ==> n.flags.Settled())
      && (n.applied && n.flags.acked ==> (m.applied && m.flags.acked) || (e.Settle? && e.h == h && Acks(s, e, m.id)))
  {
  }

  ghost predicate AckRan(s: State, h: int, id: nat) {
    0 <= h < |s.handles| && s.handles[h].id == id && s.handles[h].flags.acked && s.handles[h].applied
  }

  lemma AckedGrows(count: string -> nat, s: State, e: Event, id: nat)
    ensures id in Step(count, s, e).acked <==> id in s.acked || Acks(s, e, id)
    ensures Acks(s, e, id) ==> AckRan(Step(count, s, e), e.h, id)
  {
  }

  lemma AckedByMessageKept(count: string -> nat, s: State, e: Event)
    requires AckedByMessage(s) && AppliedIsSettled(s)
    ensures AckedByMessage(Step(count, s, e)) && AppliedIsSettled(Step(count, s, e))
  {
    var t := Step(count, s, e);
    forall h | 0 <= h < |t.handles|
      ensures t.handles[h].applied ==> t.handles[h].flags.Settled()
      ensures forall id :: AckRan(t, h, id) ==> id in t.acked
    {
      AckedGrows(count, s, e, t.handles[h].id);
      if h < |s.handles| {
        HandleAfter(count, s, e, h);
        assert AckRan(s, h, s.handles[h].id) ==> s.handles[h].id in s.acked;
      } else {
        HandleBefore(count, s, e, h);
        assert t.handles[h].flags == Messages.UNSETTLED && !t.handles[h].applied;
      }
    }
    forall id: nat | id in t.acked ensures exists h :: AckRan(t, h, id) {
      AckedGrows(count, s, e, id);
      if id in s.acked {
        var h :| AckRan(s, h, id);
        HandleAfter(count, s, e, h);
        assert AckRan(t, h, id);
      }
    }
  }

  ghost predicate Inv(s: State) {
    Partition(s) && OneOwner(s) && BatchesIncrease(s) && AckedByMessage(s) && AppliedIsSettled(s)
  }

  lemma {:induction false} Reachable(count: string -> nat, ss: seq<State>, es: seq<Event>, k: nat)
    requires Run(count, ss, es) && k <= |es|
    ensures Inv(ss[k])
  {
    if k > 0 {
      Reachable(count, ss, es, k - 1);
      assert StepAt(count, ss, es, k - 1);
      PartitionKept(count, ss[k - 1], es[k - 1]);
      OneOwnerKept(count, ss[k - 1], es[k - 1]);
      BatchesIncreaseKept(count, ss[k - 1], es[k - 1]);
      AckedByMessageKept(count, ss[k - 1], es[k - 1]);
    }
  }

  // ---- the theorems ------------------------------------------------------------------------------

  /**
   Every entry is exactly one of undelivered, pending at exactly one consumer, or acked; it is acked
   exactly if the XACK of one of its messages has run. So nothing is lost, whatever readers do.
   */
  lemma Conservation(count: string -> nat, ss: seq<State>, es: seq<Event>, k: nat, id: nat)
    requires Run(count, ss, es) && k <= |es| && id < ss[k].entries
    ensures var s := ss[k];
            var isPending := exists c :: id in s.Pending(c);
      && (id >= s.delivered <==> !isPending && id !in s.acked)
      && !(isPending && id in s.acked)
      && (forall c, d :: id in s.Pending(c) && id in s.Pending(d) ==> c == d)
      && (forall c, a, b :: 0 <= a < b < |s.Pending(c)| ==> s.Pending(c)[a] < s.Pending(c)[b])
      && (id in s.acked <==> exists h :: AckRan(s, h, id))
  {
    Reachable(count, ss, es, k);
  }

  /** All the messages ever made of one entry belong to one consumer. */
  lemma OneConsumerPerEntry(count: string -> nat, ss: seq<State>, es: seq<Event>, i: nat, k: nat,
                            c: string, d: string, id: nat)
    requires Run(count, ss, es) && i <= k < |es|
    requires Yields(ss[i], es[i], c, id) && Yields(ss[k], es[k], d, id)
    ensures c == d
  {
    assert StepAt(count, ss, es, i);
    if i < k {
      assert ss[i + 1].handles[|ss[i].handles|] == Handle(id, c, Messages.UNSETTLED, false);
      HandlesStay(count, ss, es, i + 1, k, |ss[i].handles|);
    }
    Reachable(count, ss, es, k);
    assert i < k ==> HandleFor(ss[k], |ss[i].handles|, c, id);
    assert Has(ss[k], c, id) && Has(ss[k], d, id);
  }

  lemma {:induction false} HandlesStay(count: string -> nat, ss: seq<State>, es: seq<Event>, i: nat, k: nat, h: nat)
    requires Run(count, ss, es) && i <= k <= |es| && h < |ss[i].handles|
    ensures h < |ss[k].handles|
    ensures ss[k].handles[h].id == ss[i].handles[h].id && ss[k].handles[h].consumer == ss[i].handles[h].consumer
  {
    if i < k {
      HandlesStay(count, ss, es, i, k - 1, h);
      assert StepAt(count, ss, es, k - 1);
    }
  }

  // ---- redelivery --------------------------------------------------------------------------------

  /** The entries that are pending at c and come before id. */
  ghost function Before(s: State, c: string, id: nat): set<nat> {
    set x: nat | x in s.Pending(c) && x < id
  }

  lemma SmallerAreBefore(ids: seq<nat>, p: nat)
    requires Increasing(ids) && p < |ids|
    ensures (set x: nat | x in ids && x < ids[p]) == Elements(ids[..p])
  {
  }

  /**
   A pending entry is in the next history read of its owner exactly if fewer than `count` entries are
   pending there before it. Entries that are never acked can so hide later ones for good.
   */
  lemma ReadAgainIff(count: string -> nat, ss: seq<State>, es: seq<Event>, k: nat, c: string, id: nat)
    requires Run(count, ss, es) && k < |es| && es[k] == ReadHistory(c) && ss[k].ReaderOf(c) == IDLE
    requires id in ss[k].Pending(c)
    ensures id in ss[k + 1].ReaderOf(c).batch <==> |Before(ss[k], c, id)| < count(c)
  {
    Reachable(count, ss, es, k);
    assert StepAt(count, ss, es, k);
    var ids := ss[k].Pending(c);
    var p :| 0 <= p < |ids| && ids[p] == id;
    SmallerAreBefore(ids, p);
    DistinctCount(ids[..p]);
    assert Before(ss[k], c, id) == Elements(ids[..p]);
    var batch := ss[k + 1].ReaderOf(c).batch;
    assert batch == ids[..Min(count(c), |ids|)];
    if p < count(c) { assert batch[p] == id; }
  }

  /**
   A generator that is closed or dies loses nothing: whatever it held, the next one of its consumer starts with
   the history, and the entry is in that exactly if fewer than `count` entries are pending before it.
   */
  lemma RestartRecovers(count: string -> nat, ss: seq<State>, es: seq<Event>, k: nat, c: string, id: nat)
    requires Run(count, ss, es) && k + 1 < |es| && es[k] == Restart(c) && es[k + 1] == ReadHistory(c)
    requires id in ss[k].Pending(c)
    ensures id in ss[k + 2].ReaderOf(c).batch <==> |Before(ss[k], c, id)| < count(c)
  {
    assert StepAt(count, ss, es, k);
    assert ss[k + 1].Pending(c) == ss[k].Pending(c);
    assert Before(ss[k + 1], c, id) == Before(ss[k], c, id);
    ReadAgainIff(count, ss, es, k + 1, c, id);
  }

  lemma OneMore(count: string -> nat, ss: seq<State>, es: seq<Event>, e: Event) returns (tt: seq<State>)
    requires Run(count, ss, es)
    ensures tt == ss + [Step(count, ss[|es|], e)] && Run(count, tt, es + [e])
  {
    tt := ss + [Step(count, ss[|es|], e)];
    forall k | 0 <= k < |es| + 1 ensures StepAt(count, tt, es + [e], k) {
      if k < |es| { assert StepAt(count, ss, es, k); }
    }
  }

  /** Two entries are added, and a consumer that reads one at a time reads and yields the first. */
  lemma FirstRead(c: string) returns (ss: seq<State>, es: seq<Event>)
    ensures |es| == 5 && Run(_ => 1, ss, es)
    ensures ss[5] == State(2, 1, map[c := [0]], {}, map[c := IDLE], [Handle(0, c, Messages.UNSETTLED, false)])
  {
    ss, es := [EMPTY], [];
    ss := OneMore(_ => 1, ss, es, Add);
    es := es + [Add];
    ss := OneMore(_ => 1, ss, es, Add);
    es := es + [Add];
    ss := OneMore(_ => 1, ss, es, ReadHistory(c));
    es := es + [ReadHistory(c)];
    assert ss[3] == State(2, 0, map[], {}, map[c := Reader([], New)], []);
    ss := OneMore(_ => 1, ss, es, ReadNew(c));
    es := es + [ReadNew(c)];
    assert Range(0, 1) == [0] && ss[3].Pending(c) + Range(0, 1) == [0];
    assert ss[4].readers == map[c := Reader([0], History)] && ss[4].pending == map[c := [0]];
    assert ss[4] == State(2, 1, map[c := [0]], {}, map[c := Reader([0], History)], []);
    ss := OneMore(_ => 1, ss, es, Yield(c));
    es := es + [Yield(c)];
    assert [0][1..] == [] && ss[5].readers == map[c := IDLE];
    assert [] + [Handle(0, c, Messages.UNSETTLED, false)] == [Handle(0, c, Messages.UNSETTLED, false)];
  }

  /** It reads and yields the first again, and reads the second. */
  lemma SecondRead(c: string) returns (ss: seq<State>, es: seq<Event>)
    ensures |es| == 8 && Run(_ => 1, ss, es)
    ensures var h := Handle(0, c, Messages.UNSETTLED, false);
            ss[8] == State(2, 2, map[c := [0, 1]], {}, map[c := Reader([1], History)], [h, h])
  {
    ss, es := FirstRead(c);
    var h := Handle(0, c, Messages.UNSETTLED, false);
    ss := OneMore(_ => 1, ss, es, ReadHistory(c));
    es := es + [ReadHistory(c)];
    assert [0][..1] == [0] && ss[6].readers == map[c := Reader([0], New)];
    assert ss[6] == State(2, 1, map[c := [0]], {}, map[c := Reader([0], New)], [h]);
    ss := OneMore(_ => 1, ss, es, Yield(c));
    es := es + [Yield(c)];
    assert [0][1..] == [] && [h] + [h] == [h, h] && ss[7].readers == map[c := Reader([], New)];
    assert ss[7] == State(2, 1, map[c := [0]], {}, map[c := Reader([], New)], [h, h]);
    ss := OneMore(_ => 1, ss, es, ReadNew(c));
    es := es + [ReadNew(c)];
    assert Range(1, 2) == [1] && [0] + [1] == [0, 1];
    assert ss[8].readers == map[c := Reader([1], History)] && ss[8].pending == map[c := [0, 1]];
  }

  /** While the first entry is not acked, the second, once yielded, is hidden from further history reads. */
  lemma HiddenEntry(c: string) returns (ss: seq<State>, es: seq<Event>)
    ensures |es| == 10 && Run(_ => 1, ss, es) && es[9] == ReadHistory(c) && ss[9].ReaderOf(c) == IDLE
    ensures ss[9].Pending(c) == [0, 1] && ss[10].ReaderOf(c).batch == [0]
  {
    ss, es := SecondRead(c);
    ss := OneMore(_ => 1, ss, es, Yield(c));
    es := es + [Yield(c)];
    ss := OneMore(_ => 1, ss, es, ReadHistory(c));
    es := es + [ReadHistory(c)];
  }

  lemma ListStays(count: string -> nat, s: State, e: Event, c: string, id: nat)
    requires Partition(s) && id < s.delivered
    ensures Before(Step(count, s, e), c, id) == Before(s, c, id) - Step(count, s, e).acked
    ensures id in Step(count, s, e).Pending(c) <==> id in s.Pending(c) && id !in Step(count, s, e).acked
  {
    var t := Step(count, s, e);
    ListsChange(count, s, e);
    if e.ReadNew? && TakesNew(s, t, e.c) {
      forall x: nat ensures x in t.Pending(c) <==> x in s.Pending(c) || (c == e.c && s.delivered <= x < t.delivered) {
        PendingAfterNew(s, t, e.c, c, x);
      }
    }
  }

  /** What is pending before an entry only ever leaves, and only by acks. */
  lemma {:induction false} NothingComesBefore(
    count: string -> nat, ss: seq<State>, es: seq<Event>, i: nat, k: nat, c: string, id: nat)
    requires Run(count, ss, es) && i <= k <= |es|
    requires id in ss[i].Pending(c)
    ensures Before(ss[k], c, id) == Before(ss[i], c, id) - ss[k].acked
    ensures id in ss[k].Pending(c) <==> id !in ss[k].acked
  {
    Reachable(count, ss, es, k);
    if i < k {
      NothingComesBefore(count, ss, es, i, k - 1, c, id);
      Reachable(count, ss, es, k - 1);
      assert StepAt(count, ss, es, k - 1);
      ListStays(count, ss[k - 1], es[k - 1], c, id);
    }
  }

  // ---- no redelivery of acked entries --------------------------------------------------------------

  lemma {:induction false} AckedInBatchWasStale(
    count: string -> nat, ss: seq<State>, es: seq<Event>, k: nat, c: string, id: nat)
    requires Run(count, ss, es) && k <= |es|
    requires id in ss[k].ReaderOf(c).batch && id in ss[k].acked
    ensures exists j :: 0 <= j < k && Acks(ss[j], es[j], id) && id in ss[j].ReaderOf(c).batch
  {
    Reachable(count, ss, es, k);
    if k > 0 {
      var s, e := ss[k - 1], es[k - 1];
      assert StepAt(count, ss, es, k - 1);
      Reachable(count, ss, es, k - 1);
      BatchChange(count, s, e, c);
      if id in s.ReaderOf(c).batch {
        if id in s.acked { AckedInBatchWasStale(count, ss, es, k - 1, c, id); } else { assert Acks(s, e, id); }
      }
    }
  }

  lemma {:induction false} AckedStays(count: string -> nat, ss: seq<State>, es: seq<Event>, i: nat, k: nat, id: nat)
    requires Run(count, ss, es) && i <= k <= |es| && id in ss[i].acked
    ensures id in ss[k].acked
  {
    if i < k {
      AckedStays(count, ss, es, i, k - 1, id);
      assert StepAt(count, ss, es, k - 1);
      AckedGrows(count, ss[k - 1], es[k - 1], id);
    }
  }

  /** An acked entry is yielded again exactly if its XACK ran while the generator held it in its batch. */
  lemma AckedYieldIff(count: string -> nat, ss: seq<State>, es: seq<Event>, k: nat, c: string, id: nat)
    requires Run(count, ss, es) && k < |es| && Yields(ss[k], es[k], c, id)
    ensures id in ss[k].acked <==>
            exists j :: 0 <= j < k && Acks(ss[j], es[j], id) && id in ss[j].ReaderOf(c).batch
  {
    if id in ss[k].acked {
      AckedInBatchWasStale(count, ss, es, k, c, id);
    }
    if exists j :: 0 <= j < k && Acks(ss[j], es[j], id) && id in ss[j].ReaderOf(c).batch {
      var j :| 0 <= j < k && Acks(ss[j], es[j], id) && id in ss[j].ReaderOf(c).batch;
      assert StepAt(count, ss, es, j);
      AckedGrows(count, ss[j], es[j], id);
      AckedStays(count, ss, es, j + 1, k, id);
    }
  }

  /** The events of consumer c's generator. */
  ghost predicate Reads(e: Event, c: string) {
    e == ReadHistory(c) || e == ReadNew(c) || e == Yield(c) || e == Restart(c)
  }

  /** The callback at j is of a message whose generator has not moved since it yielded it at y. */
  ghost predicate SettledAtOnce(ss: seq<State>, es: seq<Event>, y: nat, j: nat)
    requires |ss| == |es| + 1 && y < j < |es| && es[j].Settle?
  {
    && es[y].Yield? && ss[y].ReaderOf(es[y].c).batch != [] && es[j].h == |ss[y].handles|
    && forall n :: y < n < j ==> !Reads(es[n], es[y].c)
  }

  /** Every message is settled before the next one is asked for, as a router loop does. */
  ghost predicate OneAtATime(ss: seq<State>, es: seq<Event>)
    requires |ss| == |es| + 1
  {
    forall j :: 0 <= j < |es| && es[j].Settle? ==> exists y :: 0 <= y < j && SettledAtOnce(ss, es, y, j)
  }

  lemma {:induction false} ReaderStays(count: string -> nat, ss: seq<State>, es: seq<Event>, i: nat, k: nat, c: string)
    requires Run(count, ss, es) && i <= k <= |es|
    requires forall n :: i <= n < k ==> !Reads(es[n], c)
    ensures ss[k].ReaderOf(c) == ss[i].ReaderOf(c)
  {
    if i < k {
      ReaderStays(count, ss, es, i, k - 1, c);
      assert StepAt(count, ss, es, k - 1);
    }
  }

  lemma AtOnceIsNotStale(count: string -> nat, ss: seq<State>, es: seq<Event>, y: nat, j: nat, c: string, id: nat)
    requires Run(count, ss, es) && y < j < |es| && es[j].Settle? && SettledAtOnce(ss, es, y, j)
    requires Acks(ss[j], es[j], id)
    ensures id !in ss[j].ReaderOf(c).batch
  {
    var owner, h := es[y].c, |ss[y].handles|;
    assert StepAt(count, ss, es, y);
    Reachable(count, ss, es, y);
    HandlesStay(count, ss, es, y + 1, j, h);
    ReaderStays(count, ss, es, y + 1, j, owner);
    Reachable(count, ss, es, j);
    assert HandleFor(ss[j], h, owner, id) && Has(ss[j], owner, id);
    if id in ss[j].ReaderOf(c).batch { assert Has(ss[j], c, id); }
  }

  /** Consumers that settle each message before they ask for the next one never see an acked entry again. */
  lemma NoneAfterAck(count: string -> nat, ss: seq<State>, es: seq<Event>, k: nat, c: string, id: nat)
    requires Run(count, ss, es) && k < |es| && OneAtATime(ss, es)
    requires Yields(ss[k], es[k], c, id)
    ensures id !in ss[k].acked
  {
    if id in ss[k].acked {
      AckedYieldIff(count, ss, es, k, c, id);
      var j :| 0 <= j < k && Acks(ss[j], es[j], id) && id in ss[j].ReaderOf(c).batch;
      var y :| 0 <= y < j && SettledAtOnce(ss, es, y, j);
      AtOnceIsNotStale(count, ss, es, y, j, c, id);
    }
  }

  // ---- several open messages of one entry ------------------------------------------------------------

  /** Message h is one of the entry, and neither acked nor nacked. */
  ghost predicate OpenFor(s: State, h: int, id: nat) {
    0 <= h < |s.handles| && s.handles[h].id == id && !s.handles[h].flags.Settled()
  }

  /** At event j the generator of c read the entry from the history, and has held it in its batch since. */
  ghost predicate ReadFromHistory(ss: seq<State>, es: seq<Event>, j: nat, k: nat, c: string, id: nat)
    requires |ss| == |es| + 1 && j < k <= |es|
  {
    && es[j] == ReadHistory(c) && ss[j].ReaderOf(c) == IDLE
    && forall n :: j < n <= k ==> id in ss[n].ReaderOf(c).batch
  }

  /** A batch that holds an entry of which there is a message has just read it from the history, or had it. */
  lemma HeldBefore(count: string -> nat, s: State, e: Event, c: string, id: nat, h: nat)
    requires Inv(s) && Inv(Step(count, s, e))
    requires h < |Step(count, s, e).handles| && Step(count, s, e).handles[h].id == id
    requires id in Step(count, s, e).ReaderOf(c).batch
    ensures h < |s.handles| && s.handles[h].id == id
    ensures (e == ReadHistory(c) && s.ReaderOf(c) == IDLE) || id in s.ReaderOf(c).batch
  {
    var t := Step(count, s, e);
    HandleBefore(count, s, e, h);
    BatchChange(count, s, e, c);
    var owner := t.handles[h].consumer;
    assert HandleFor(t, h, owner, id) && Has(t, owner, id) && Has(t, c, id);
    if h < |s.handles| { assert HandleFor(s, h, owner, id) && Has(s, owner, id); }
  }

  lemma HeldAt(count: string -> nat, ss: seq<State>, es: seq<Event>, k: nat, c: string, id: nat, h: nat)
    requires Run(count, ss, es) && k < |es|
    requires h < |ss[k + 1].handles| && ss[k + 1].handles[h].id == id && id in ss[k + 1].ReaderOf(c).batch
    ensures h < |ss[k].handles| && ss[k].handles[h].id == id
    ensures (es[k] == ReadHistory(c) && ss[k].ReaderOf(c) == IDLE) || id in ss[k].ReaderOf(c).batch
  {
    Reachable(count, ss, es, k);
    Reachable(count, ss, es, k + 1);
    assert StepAt(count, ss, es, k);
    HeldBefore(count, ss[k], es[k], c, id, h);
  }

  lemma {:induction false} WasReadBefore(
    count: string -> nat, ss: seq<State>, es: seq<Event>, k: nat, c: string, id: nat, h: nat) returns (j: nat)
    requires Run(count, ss, es) && k <= |es|
    requires h < |ss[k].handles| && ss[k].handles[h].id == id && id in ss[k].ReaderOf(c).batch
    ensures j < k && ReadFromHistory(ss, es, j, k, c, id) && h < |ss[j].handles|
  {
    HeldAt(count, ss, es, k - 1, c, id, h);
    if es[k - 1] == ReadHistory(c) && ss[k - 1].ReaderOf(c) == IDLE {
      j := k - 1;
    } else {
      j := WasReadBefore(count, ss, es, k - 1, c, id, h);
    }
  }

  /** The event calls ack() or nack() of message h. */
  ghost predicate Answers(e: Event, h: nat) {
    e == CallAck(h) || e == CallNack(h)
  }

  lemma OpenAt(count: string -> nat, ss: seq<State>, es: seq<Event>, k: nat, h: nat, id: nat)
    requires Run(count, ss, es) && k < |es| && h < |ss[k].handles|
    ensures OpenFor(ss[k + 1], h, id) <==> OpenFor(ss[k], h, id) && !Answers(es[k], h)
  {
    assert StepAt(count, ss, es, k);
  }

  ghost predicate Unanswered(es: seq<Event>, j: nat, k: nat, h: nat) {
    forall n :: j <= n < k && n < |es| ==> !Answers(es[n], h)
  }

  lemma {:induction false} OpenIff(
    count: string -> nat, ss: seq<State>, es: seq<Event>, j: nat, k: nat, h: nat, id: nat)
    requires Run(count, ss, es) && j <= k <= |es| && h < |ss[j].handles|
    ensures OpenFor(ss[k], h, id) <==> OpenFor(ss[j], h, id) && Unanswered(es, j, k, h)
  {
    if j < k {
      OpenIff(count, ss, es, j, k - 1, h, id);
      HandlesStay(count, ss, es, j, k - 1, h);
      OpenAt(count, ss, es, k - 1, h, id);
    }
  }

  /** Read from the history at j while message h was open, and nobody has answered that message since. */
  ghost predicate ReadWhileOpen(ss: seq<State>, es: seq<Event>, j: nat, k: nat, c: string, id: nat, h: nat)
    requires |ss| == |es| + 1 && j < k <= |es|
  {
    ReadFromHistory(ss, es, j, k, c, id) && OpenFor(ss[j], h, id) && Unanswered(es, j, k, h)
  }

  /**
   An entry is yielded again while another message of it is open, and so has two open messages, exactly
   if the history was read while that message was open and nobody has answered it since. A bus, which
   reads on while its handlers run, does that all the time.
   */
  lemma OpenYieldIff(count: string -> nat, ss: seq<State>, es: seq<Event>, k: nat, c: string, id: nat, h: nat)
    requires Run(count, ss, es) && k < |es| && Yields(ss[k], es[k], c, id)
    ensures OpenFor(ss[k], h, id) <==> exists j :: 0 <= j < k && ReadWhileOpen(ss, es, j, k, c, id, h)
    ensures OpenFor(ss[k], h, id) ==>
              h < |ss[k].handles| && OpenFor(ss[k + 1], h, id) && OpenFor(ss[k + 1], |ss[k].handles|, id)
  {
    assert StepAt(count, ss, es, k);
    if OpenFor(ss[k], h, id) {
      var j := WasReadBefore(count, ss, es, k, c, id, h);
      OpenIff(count, ss, es, j, k, h, id);
      assert ReadWhileOpen(ss, es, j, k, c, id, h);
    }
    if exists j :: 0 <= j < k && ReadWhileOpen(ss, es, j, k, c, id, h) {
      var j :| 0 <= j < k && ReadWhileOpen(ss, es, j, k, c, id, h);
      OpenIff(count, ss, es, j, k, h, id);
    }
  }
}
