/**
 The SQL queue as a state machine: one topic table, a clock, one live subscription per consumer
 group and the messages that subscriptions have yielded. Events interleave freely.
 */
module SqlQueue {
  import opened SqlTable
  import Messages

  /** Each consumer group reads with its own `batch_size` and `ack_deadline`. */
  datatype Config = Config(dialect: Dialect, batchSize: string -> nat, ackDeadline: string -> nat)

  /** A yielded message. `applied` says that its ack or nack statement has run. */
  datatype Handle = Handle(row: nat, flags: Messages.Settlement, applied: bool)

  /** The rows that group g has fetched and not yet claimed. */
  function Lookup(batches: map<string, seq<nat>>, g: string): seq<nat> {
    if g in batches then batches[g] else []
  }

  function Refill(batches: map<string, seq<nat>>, g: string, ids: seq<nat>): (r: map<string, seq<nat>>)
    ensures forall x :: Lookup(r, x) == if x == g then ids else Lookup(batches, x)
  {
    batches[g := ids]
  }

  /** `batches[g]` holds the rows that group g's subscription has fetched and not yet claimed. */
  datatype State = State(rows: seq<Row>, now: int, batches: map<string, seq<nat>>, handles: seq<Handle>) {
    function Batch(g: string): seq<nat> {
      Lookup(batches, g)
    }

    /** Every id that is kept anywhere is a row of the right group; no batch repeats an id. */
    ghost predicate WellFormed() {
      && (forall g, k :: 0 <= k < |Lookup(batches, g)| ==>
            Lookup(batches, g)[k] < |rows| && rows[Lookup(batches, g)[k]].group == g)
      && (forall g, a, b :: 0 <= a < b < |Lookup(batches, g)| ==> Lookup(batches, g)[a] != Lookup(batches, g)[b])
      && (forall h :: 0 <= h < |handles| ==> handles[h].row < |rows|)
      && (forall h :: 0 <= h < |handles| ==> !(handles[h].flags.acked && handles[h].flags.nacked))
      && (forall h :: 0 <= h < |handles| && handles[h].applied ==> handles[h].flags.Settled())
    }
  }

  /**
   - `Poll(g)`: the subscription of g, with its batch used up, runs select_pending.
   - `Claim(g, delivered)`: it claims the next row of its batch; `delivered` is false when it is
     cancelled before it yields the message.
   - `Abandon(g)`: it is closed with rows left in its batch; another one may start.
   - `CallAck(h)`, `CallNack(h)`: message h sets its flag, or raises when it is already settled.
   - `Settle(h)`: the ack or nack statement of message h runs.
   */
  datatype Event =
    | Insert(content: Messages.Message, group: string)
    | Tick(elapsed: nat)
    | Poll(g: string)
    | Claim(g: string, delivered: bool)
    | Abandon(g: string)
    | CallAck(h: nat)
    | CallNack(h: nat)
    | Settle(h: nat)

  ghost function Step(c: Config, s: State, e: Event): (t: State)
    requires s.WellFormed()
    ensures t.WellFormed()
  {
    match e
    case Insert(content, group) => s.(rows := s.rows + [FreshRow(content, group, s.now)])
    case Tick(elapsed) => s.(now := s.now + elapsed)
    case Poll(g) =>
      if s.Batch(g) != [] then s else Fetch(c, s, g)
    case Claim(g, delivered) =>
      if s.Batch(g) == [] then s else ClaimNext(c, s, g, delivered)
    case Abandon(g) =>
      s.(batches := Refill(s.batches, g, []))
    case CallAck(h) =>
      if h >= |s.handles| then s
      else s.(handles := s.handles[h := s.handles[h].(flags := Messages.Ack(s.handles[h].flags).0)])
    case CallNack(h) =>
      if h >= |s.handles| then s
      else s.(handles := s.handles[h := s.handles[h].(flags := Messages.Nack(s.handles[h].flags).0)])
    case Settle(h) =>
      if h < |s.handles| && s.handles[h].flags.Settled() && !s.handles[h].applied
      then ApplySettlement(s, h)
      else s
  }

  ghost function Fetch(c: Config, s: State, g: string): (t: State)
    requires s.WellFormed()
    ensures t.WellFormed()
  {
    SelectPendingIsTopOfOrder(c.dialect, s.rows, g, s.now, c.batchSize(g));
    var ids := SelectPending(c.dialect, s.rows, g, s.now, c.batchSize(g));
    assert forall k :: 0 <= k < |ids| ==> ids[k] in ids;
    s.(batches := Refill(s.batches, g, ids))
  }

  ghost function ClaimNext(c: Config, s: State, g: string, delivered: bool): (t: State)
    requires s.WellFormed() && s.Batch(g) != []
    ensures t.WellFormed()
  {
    var id := s.Batch(g)[0];
    s.(rows := s.rows[id := Claimed(s.rows[id], s.now, c.ackDeadline(g))],
       batches := Refill(s.batches, g, s.Batch(g)[1..]),
       handles := s.handles + if delivered then [Handle(id, Messages.UNSETTLED, false)] else [])
  }

  ghost function ApplySettlement(s: State, h: nat): (t: State)
    requires s.WellFormed() && h < |s.handles| && s.handles[h].flags.Settled()
    ensures t.WellFormed()
  {
    var m := s.handles[h];
    var row := s.rows[m.row];
    s.(rows := s.rows[m.row := if m.flags.acked then Acked(row, s.now) else Nacked(row, s.now)],
       handles := s.handles[h := m.(applied := true)])
  }

  // ---- runs --------------------------------------------------------------------------------

  /** The empty table, before any subscription. */
  const INITIAL := State([], 0, map[], [])

  ghost predicate StepAt(c: Config, ss: seq<State>, es: seq<Event>, k: nat)
    requires k < |es| && |ss| == |es| + 1
  {
    ss[k].WellFormed() && ss[k + 1] == Step(c, ss[k], es[k])
  }

  /** The events `es` lead through the states `ss`, from any well-formed state. */
  ghost predicate Run(c: Config, ss: seq<State>, es: seq<Event>) {
    && |ss| == |es| + 1
    && ss[0].WellFormed()
    && forall k :: 0 <= k < |es| ==> StepAt(c, ss, es, k)
  }

  lemma RunStaysWellFormed(c: Config, ss: seq<State>, es: seq<Event>, k: nat)
    requires Run(c, ss, es) && k <= |es|
    ensures ss[k].WellFormed()
  {
    if k > 0 { assert StepAt(c, ss, es, k - 1); }
  }

  lemma OneMore(c: Config, ss: seq<State>, es: seq<Event>, e: Event) returns (tt: seq<State>)
    requires Run(c, ss, es) && ss[|es|].WellFormed()
    ensures tt == ss + [Step(c, ss[|es|], e)] && Run(c, tt, es + [e]) && tt[|es| + 1].WellFormed()
  {
    tt := ss + [Step(c, ss[|es|], e)];
    forall k | 0 <= k < |es| + 1 ensures StepAt(c, tt, es + [e], k) {
      if k < |es| { assert StepAt(c, ss, es, k); }
    }
  }

  // ---- what single events do, in the terms the theorems use ---------------------------------

  ghost predicate Polls(s: State, e: Event, g: string) {
    e == Poll(g) && s.Batch(g) == []
  }

  /** The event claims row r. */
  ghost predicate Claims(s: State, e: Event, r: nat) {
    e.Claim? && s.Batch(e.g) != [] && s.Batch(e.g)[0] == r
  }

  ghost predicate Yields(s: State, e: Event, r: nat) {
    Claims(s, e, r) && e.delivered
  }

  /** The event runs the ack or nack statement of some message of row r. */
  ghost predicate Settles(s: State, e: Event, r: nat) {
    && e.Settle? && e.h < |s.handles| && s.handles[e.h].flags.Settled()
    && !s.handles[e.h].applied && s.handles[e.h].row == r
  }

  ghost predicate Nacks(s: State, e: Event, r: nat) {
    Settles(s, e, r) && !s.handles[e.h].flags.acked
  }
}
