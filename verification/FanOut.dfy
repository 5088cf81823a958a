/**
 The in-memory pub/sub as one publishing task sees it: it walks the live subscriber list by index while
 subscribers join, leave and receive, and while other tasks publish as well. The messages of the task are
 numbered in the order of its publish calls; those of other tasks are only counted in the buffers.
 */
module FanOut {
  import opened Options
  import opened Sequences

  /** A message of the task by its number, or one of another task. */
  type Item = Option<nat>

  /** The numbers among the items, in order. */
  ghost function Own(items: seq<Item>): (own: seq<nat>)
    ensures |own| <= |items|
  {
    if items == [] then [] else Numbers(items[0]) + Own(items[1..])
  }

  ghost function Numbers(item: Item): seq<nat> {
    if item.Some? then [item.value] else []
  }

  lemma OwnCons(item: Item, rest: seq<Item>)
    ensures Own([item] + rest) == Numbers(item) + Own(rest)
  {
    assert ([item] + rest)[1..] == rest;
  }

  lemma {:induction false} OwnJoin(a: seq<Item>, b: seq<Item>)
    ensures Own(a + b) == Own(a) + Own(b)
  {
    if a == [] {
      assert a + b == b;
    } else {
      var first, rest := a[0], a[1..];
      calc {
        Own(a + b);
        { assert a + b == [first] + (rest + b); }
        Own([first] + (rest + b));
        { OwnCons(first, rest + b); }
        Numbers(first) + Own(rest + b);
        { OwnJoin(rest, b); }
        Numbers(first) + (Own(rest) + Own(b));
        Numbers(first) + Own(rest) + Own(b);
      }
    }
  }

  lemma OwnOne(a: seq<Item>, item: Item)
    ensures Own(a + [item]) == Own(a) + Numbers(item)
  {
    OwnJoin(a, [item]);
    OwnCons(item, []);
    assert [item] + [] == [item];
  }

  /**
   One subscription: the messages its reader has received and those in its channel. `since` is the
   first message that it can be given: the one being published when it joined, or the next one. `open`
   is the sending side; `gone` says that the reader has left.
   */
  datatype Channel = Channel(since: nat, received: seq<Item>, buffer: seq<Item>, open: bool, gone: bool) {
    ghost function Log(): seq<nat> { Own(received + buffer) }
  }

  /**
   `Next(m, i)`: message m goes to list index i next; `Sending(m, i, to, waits)`: it is being sent to `to`,
   and waits for room there or has yet to try; `Raised(m)`: sending it raised, which ends the publish
   call. The next call begins with another message.
   */
  datatype Publisher = Next(m: nat, i: nat) | Sending(m: nat, i: nat, to: nat, waits: bool) | Raised(m: nat)

  /** `missed` records which subscriber the list iteration passed over or did not reach for which message. */
  datatype State = State(subscribers: seq<nat>, channels: seq<Channel>, publisher: Publisher, missed: set<(nat, nat)>)

  /** What fills the place of a received message: a waiting send of the task, or one of another task. */
  datatype Refill = Nothing | OwnMessage | OtherMessage

  datatype Event =
    | Join
    | Leave(j: nat)       // the reader at list index j stops: it is removed and its channel closed
    | CloseStream(x: nat) // close() closes the sending side of x, which stays in the list
    | Receive(x: nat, refill: Refill)
    | Handover            // send() gives the message to a reader that is already waiting
    | OtherSends(x: nat)  // another task puts a message into channel x
    | OtherHands(x: nat)  // another task gives a message to the waiting reader of x
    | Advance             // the publisher runs up to its next await

  ghost function PassOver(s: State, x: nat): set<(nat, nat)> {
    s.missed + {(x, s.publisher.m)}
  }

  /** The message that a subscriber which joins now can be given first. */
  function Coming(s: State): nat {
    s.publisher.m + if s.publisher.Raised? then 1 else 0
  }

  /** The subscribers that a call which raises now does not reach. */
  ghost function LeaveOut(s: State): set<(nat, nat)>
    requires s.publisher.Sending?
  {
    PassOver(s, s.publisher.to) + set p: nat | s.publisher.i <= p < |s.subscribers| :: (s.subscribers[p], s.publisher.m)
  }

  /** A send to x waits for room. */
  predicate Waits(p: Publisher, x: nat) {
    p.Sending? && p.waits && p.to == x
  }

  /** What is there to receive, with what fills up the buffer. */
  function Queue(p: Publisher, x: nat, c: Channel, refill: Refill): seq<Item> {
    c.buffer +
    if refill.OwnMessage? && Waits(p, x) then [Some(p.m)] else if refill.OtherMessage? then [None] else []
  }

  ghost function Put(s: State, x: nat, c: Channel): State
    requires x < |s.channels|
  {
    s.(channels := s.channels[x := c])
  }

  ghost function Step(capacity: nat, s: State, e: Event): State {
    match e
    case Join =>
      var x := |s.channels|;
      s.(subscribers := s.subscribers + [x],
         channels := s.channels + [Channel(Coming(s), [], [], true, false)],
         // after a removal the next index can lie behind the end of the list
         missed := if !s.publisher.Raised? && s.publisher.i > |s.subscribers| then PassOver(s, x) else s.missed)
    case Leave(j) =>
      if !(j < |s.subscribers| && s.subscribers[j] < |s.channels|) then s
      else
        var x := s.subscribers[j];
        s.(subscribers := s.subscribers[..j] + s.subscribers[j + 1..],
           channels := s.channels[x := s.channels[x].(open := false, gone := true)],
           // removing an earlier entry moves the next one under an index that is already done
           missed := if !s.publisher.Raised? && j < s.publisher.i < |s.subscribers|
                     then PassOver(s, s.subscribers[s.publisher.i]) else s.missed)
    case CloseStream(x) =>
      if x < |s.channels| then Put(s, x, s.channels[x].(open := false)) else s
    case Receive(x, refill) =>
      if x >= |s.channels| || s.channels[x].gone then s
      else
        var c, queue := s.channels[x], Queue(s.publisher, x, s.channels[x], refill);
        if queue == [] then s
        else
          Put(s, x, c.(received := c.received + [queue[0]], buffer := queue[1..]))
            .(publisher := if refill.OwnMessage? && Waits(s.publisher, x)
                           then Next(s.publisher.m, s.publisher.i) else s.publisher)
    case Handover =>
      if !(s.publisher.Sending? && !s.publisher.waits && s.publisher.to < |s.channels|) then s
      else
        var c := s.channels[s.publisher.to];
        if c.open && c.buffer == []
        then Put(s, s.publisher.to, c.(received := c.received + [Some(s.publisher.m)]))
               .(publisher := Next(s.publisher.m, s.publisher.i))
        else s
    case OtherSends(x) =>
      if x < |s.channels| && s.channels[x].open && |s.channels[x].buffer| < capacity
      then Put(s, x, s.channels[x].(buffer := s.channels[x].buffer + [None]))
      else s
    case OtherHands(x) =>
      if x < |s.channels| && s.channels[x].open && s.channels[x].buffer == []
      then Put(s, x, s.channels[x].(received := s.channels[x].received + [None]))
      else s
    case Advance =>
      match s.publisher
      case Raised(m) => s.(publisher := Next(m + 1, 0))
      case Next(m, i) =>
        if i < |s.subscribers| then s.(publisher := Sending(m, i + 1, s.subscribers[i], false))
        else s.(publisher := Next(m + 1, 0))
      case Sending(m, i, to, waits) =>
        // a send that waits is not woken when its sending side is closed, but when the reader leaves
        if to >= |s.channels| || (if waits then s.channels[to].gone else !s.channels[to].open) then
          s.(publisher := Raised(m), missed := LeaveOut(s))
        else if waits then s
        else if |s.channels[to].buffer| < capacity then
          Put(s, to, s.channels[to].(buffer := s.channels[to].buffer + [Some(m)])).(publisher := Next(m, i))
        else s.(publisher := s.publisher.(waits := true))
  }

  ghost predicate StepAt(capacity: nat, ss: seq<State>, es: seq<Event>, k: nat)
    requires k < |es| && |ss| == |es| + 1
  {
    ss[k + 1] == Step(capacity, ss[k], es[k])
  }

  const NOBODY := State([], [], Next(0, 0), {})

  ghost predicate Run(capacity: nat, ss: seq<State>, es: seq<Event>) {
    && |ss| == |es| + 1
    && ss[0] == NOBODY
    && forall k :: 0 <= k < |es| ==> StepAt(capacity, ss, es, k)
  }

  // ---- invariants --------------------------------------------------------------------------------

  /** The publisher still has message m to bring to subscriber x. */
  ghost predicate Ahead(s: State, x: nat) {
    match s.publisher
    case Next(m, i) => exists p :: i <= p < |s.subscribers| && s.subscribers[p] == x
    case Sending(m, i, to, _) => x == to || exists p :: i <= p < |s.subscribers| && s.subscribers[p] == x
    case Raised(_) => false
  }

  ghost predicate Shape(capacity: nat, s: State) {
    && (forall p :: 0 <= p < |s.subscribers| ==> s.subscribers[p] < |s.channels|)
    && (forall p, q :: 0 <= p < q < |s.subscribers| ==> s.subscribers[p] != s.subscribers[q])
    && (forall x :: 0 <= x < |s.channels| ==> |s.channels[x].buffer| <= capacity)
    && (s.publisher.Sending? ==>
          && s.publisher.to < |s.channels|
          && forall p :: s.publisher.i <= p < |s.subscribers| ==> s.subscribers[p] != s.publisher.to)
  }

  /** What subscriber x was given so far: earlier messages only, and the current one at most once. */
  ghost predicate InOrder(s: State, x: nat)
    requires x < |s.channels|
  {
    var log := s.channels[x].Log();
    && Increasing(log)
    && (forall k :: 0 <= k < |log| ==> log[k] <= s.publisher.m)
    && (Ahead(s, x) ==> s.publisher.m !in log)
  }

  lemma ShapeKept(capacity: nat, s: State, e: Event)
    requires Shape(capacity, s)
    ensures Shape(capacity, Step(capacity, s, e))
  {
    match e
    case Leave(j) => LeaveKeepsShape(capacity, s, j);
    case Receive(_, _) => ReceiveKeepsShape(capacity, s, e);
    case Advance => AdvanceKeepsShape(capacity, s);
    case _ =>
  }

  lemma ReceiveKeepsShape(capacity: nat, s: State, e: Event)
    requires Shape(capacity, s) && e.Receive?
    ensures Shape(capacity, Step(capacity, s, e))
  {
  }

  lemma AdvanceKeepsShape(capacity: nat, s: State)
    requires Shape(capacity, s)
    ensures Shape(capacity, Step(capacity, s, Advance))
  {
  }

  lemma LeaveKeepsShape(capacity: nat, s: State, j: nat)
    requires Shape(capacity, s)
    ensures Shape(capacity, Step(capacity, s, Leave(j)))
  {
  }

  /** The send of the current message to x is completed. */
  ghost predicate SentTo(s: State, t: State, x: nat) {
    s.publisher.Sending? && s.publisher.to == x && t.publisher.Next?
  }

  ghost function Given(s: State, t: State, x: nat): seq<nat> {
    if SentTo(s, t, x) then [s.publisher.m] else []
  }

  /** One event gives a subscriber nothing, or the current message. */
  lemma LogGrowsBy(capacity: nat, s: State, e: Event, x: nat)
    requires x < |s.channels|
    ensures var t := Step(capacity, s, e);
      && |s.channels| <= |t.channels| && t.channels[x].since == s.channels[x].since
      && t.channels[x].Log() == s.channels[x].Log() + Given(s, t, x)
  {
    match e
    case Receive(_, _) => ReceiveGrowsBy(capacity, s, e, x);
    case Handover => HandoverGrowsBy(capacity, s, x);
    case OtherSends(_) => OthersGrowBy(capacity, s, e, x);
    case OtherHands(_) => OthersGrowBy(capacity, s, e, x);
    case Advance => AdvanceGrowsBy(capacity, s, x);
    case _ =>
  }

  /** A completed send is of a message that the publisher was ahead with, and goes on within that message. */
  lemma SentIsPassed(capacity: nat, s: State, e: Event, x: nat)
    requires Shape(capacity, s) && SentTo(s, Step(capacity, s, e), x)
    ensures var t := Step(capacity, s, e);
      Ahead(s, x) && !Ahead(t, x) && t.publisher.m == s.publisher.m && t.missed == s.missed
  {
  }

  lemma AdvanceGrowsBy(capacity: nat, s: State, x: nat)
    requires x < |s.channels|
    ensures var t := Step(capacity, s, Advance);
      && t.channels[x].since == s.channels[x].since
      && t.channels[x].Log() == s.channels[x].Log() + Given(s, t, x)
  {
    var t, c := Step(capacity, s, Advance), s.channels[x];
    if SentTo(s, t, x) {
      assert c.received + (c.buffer + [Some(s.publisher.m)]) == c.received + c.buffer + [Some(s.publisher.m)];
      OwnOne(c.received + c.buffer, Some(s.publisher.m));
    }
  }

  lemma OthersGrowBy(capacity: nat, s: State, e: Event, x: nat)
    requires x < |s.channels| && (e.OtherSends? || e.OtherHands?)
    ensures var t := Step(capacity, s, e);
      && t.channels[x].since == s.channels[x].since && t.publisher == s.publisher
      && t.channels[x].Log() == s.channels[x].Log()
  {
    var t, c := Step(capacity, s, e), s.channels[x];
    if t.channels[x] != c {
      assert t.channels[x].received + t.channels[x].buffer == c.received + c.buffer + [None];
      OwnOne(c.received + c.buffer, None);
    }
  }

  lemma ReceiveGrowsBy(capacity: nat, s: State, e: Event, x: nat)
    requires x < |s.channels| && e.Receive?
    ensures var t := Step(capacity, s, e);
      && t.channels[x].since == s.channels[x].since
      && t.channels[x].Log() == s.channels[x].Log() + Given(s, t, x)
  {
    var t, c := Step(capacity, s, e), s.channels[x];
    if t.channels[x] != c {
      var queue := Queue(s.publisher, x, c, e.refill);
      assert c.received + [queue[0]] + queue[1..] == c.received + queue;
      if queue != c.buffer {
        var last := queue[|queue| - 1];
        assert c.received + queue == c.received + c.buffer + [last];
        OwnOne(c.received + c.buffer, last);
      }
    }
  }

  lemma HandoverGrowsBy(capacity: nat, s: State, x: nat)
    requires x < |s.channels|
    ensures var t := Step(capacity, s, Handover);
      && t.channels[x].since == s.channels[x].since
      && t.channels[x].Log() == s.channels[x].Log() + Given(s, t, x)
  {
    var t, c := Step(capacity, s, Handover), s.channels[x];
    if SentTo(s, t, x) {
      assert c.received + [Some(s.publisher.m)] + [] == c.received + c.buffer + [Some(s.publisher.m)];
      OwnOne(c.received + c.buffer, Some(s.publisher.m));
    }
  }

  /** The publisher goes on within a message and is ahead of no one else, or is through with the message. */
  ghost predicate Narrows(s: State, t: State, x: nat) {
    || (t.publisher.m == s.publisher.m && (Ahead(t, x) ==> Ahead(s, x)))
    || (t.publisher == Next(s.publisher.m + 1, 0) && t.channels == s.channels && t.subscribers == s.subscribers
        && t.missed == s.missed && !Ahead(s, x))
  }

  /** Within one message the publisher is never ahead of a subscriber again. */
  lemma AheadOnlyShrinks(capacity: nat, s: State, e: Event, x: nat)
    requires x < |s.channels|
    ensures Narrows(s, Step(capacity, s, e), x)
  {
  }

  lemma InOrderFrom(s: State, t: State, x: nat)
    requires x < |s.channels| <= |t.channels| && InOrder(s, x) && Narrows(s, t, x)
    requires t.channels[x].Log() == s.channels[x].Log() + Given(s, t, x)
    requires SentTo(s, t, x) ==> Ahead(s, x) && !Ahead(t, x) && t.publisher.m == s.publisher.m
    ensures InOrder(t, x)
  {
  }

  lemma InOrderKept(capacity: nat, s: State, e: Event, x: nat)
    requires Shape(capacity, s) && x < |s.channels| && InOrder(s, x)
    ensures InOrder(Step(capacity, s, e), x)
  {
    var t := Step(capacity, s, e);
    LogGrowsBy(capacity, s, e, x);
    AheadOnlyShrinks(capacity, s, e, x);
    if SentTo(s, t, x) { SentIsPassed(capacity, s, e, x); }
    InOrderFrom(s, t, x);
  }

  // ---- who gets what -----------------------------------------------------------------------------

  /** The publisher is through with message k as far as subscriber x is concerned. */
  ghost predicate Through(s: State, x: nat, k: nat) {
    k < s.publisher.m || (k == s.publisher.m && !Ahead(s, x))
  }

  /** Since it joined, x was given exactly the messages it was not passed over for. */
  ghost predicate Exact(s: State, x: nat)
    requires x < |s.channels|
  {
    var c := s.channels[x];
    && c.since <= Coming(s)
    && (forall k: nat :: k in c.Log() ==> c.since <= k && Through(s, x, k))
    && (forall k: nat :: (x, k) in s.missed ==> Through(s, x, k))
    && (forall k: nat :: c.since <= k && Through(s, x, k) ==> (k in c.Log() <==> (x, k) !in s.missed))
  }

  ghost predicate MissedJoined(s: State) {
    forall x: nat, k: nat :: (x, k) in s.missed ==> x < |s.channels|
  }

  lemma MissedJoinedKept(capacity: nat, s: State, e: Event)
    requires Shape(capacity, s) && MissedJoined(s)
    ensures MissedJoined(Step(capacity, s, e))
  {
  }

  ghost predicate Subscribed(s: State, x: nat) {
    exists p :: 0 <= p < |s.subscribers| && s.subscribers[p] == x
  }

  lemma JoinIsExact(capacity: nat, s: State)
    requires Shape(capacity, s) && MissedJoined(s)
    ensures Exact(Step(capacity, s, Join), |s.channels|)
  {
    var t, x := Step(capacity, s, Join), |s.channels|;
    assert !s.publisher.Raised? && s.publisher.i <= |s.subscribers| ==> t.subscribers[|s.subscribers|] == x;
    assert Ahead(t, x) <==> !s.publisher.Raised? && s.publisher.i <= |s.subscribers|;
  }

  ghost predicate SameMissed(s: State, t: State, x: nat) {
    forall k: nat :: (x, k) in t.missed <==> (x, k) in s.missed
  }

  ghost predicate MissedToo(s: State, t: State, x: nat, m: nat) {
    forall k: nat :: (x, k) in t.missed <==> (x, k) in s.missed || k == m
  }

  /** The ways in which one event can treat a subscriber that stays. */
  ghost predicate Treats(s: State, t: State, x: nat)
    requires x < |s.channels| && x < |t.channels|
  {
    var was, log, m := s.channels[x].Log(), t.channels[x].Log(), s.publisher.m;
    && t.channels[x].since == s.channels[x].since && Coming(s) <= Coming(t)
    && (|| (t.publisher.m == m && log == was && (Ahead(t, x) <==> Ahead(s, x)) && SameMissed(s, t, x))
        || (t.publisher.m == m && log == was + [m] && Ahead(s, x) && !Ahead(t, x) && SameMissed(s, t, x))
        || (t.publisher.m == m + 1 && log == was && !Ahead(s, x) && Ahead(t, x) && SameMissed(s, t, x))
        || (t.publisher.m == m && log == was && Ahead(s, x) && !Ahead(t, x) && MissedToo(s, t, x, m)))
  }

  lemma TreatsExactly(s: State, t: State, x: nat)
    requires x < |s.channels| && x < |t.channels|
    requires Exact(s, x) && Treats(s, t, x)
    ensures Exact(t, x)
  {
  }

  lemma AheadAt(capacity: nat, s: State, p: nat)
    requires Shape(capacity, s) && !s.publisher.Raised? && p < |s.subscribers|
    ensures Ahead(s, s.subscribers[p]) <==>
            p >= s.publisher.i || (s.publisher.Sending? && s.publisher.to == s.subscribers[p])
  {
  }

  /** Whether the publisher is ahead of an entry before and after another entry leaves. */
  lemma LeaveShifts(capacity: nat, s: State, j: nat, p: nat)
    requires Shape(capacity, s) && !s.publisher.Raised? && j < |s.subscribers| && p < |s.subscribers| - 1
    ensures var t, q := Step(capacity, s, Leave(j)), if p < j then p else p + 1;
      && |t.subscribers| == |s.subscribers| - 1 && t.subscribers[p] == s.subscribers[q]
      && (Ahead(s, s.subscribers[q]) <==> Ahead(t, t.subscribers[p]) || (j < s.publisher.i == q))
      && !(Ahead(t, t.subscribers[p]) && j < s.publisher.i == q)
  {
    var t, q := Step(capacity, s, Leave(j)), if p < j then p else p + 1;
    LeaveKeepsShape(capacity, s, j);
    AheadAt(capacity, s, q);
    AheadAt(capacity, t, p);
  }

  lemma LeaveKeepsOthers(capacity: nat, s: State, j: nat, x: nat)
    requires Shape(capacity, s) && j < |s.subscribers| && Subscribed(Step(capacity, s, Leave(j)), x)
    ensures var t := Step(capacity, s, Leave(j));
      && Subscribed(s, x) && x < |s.channels| == |t.channels| && t.publisher == s.publisher
      && t.channels[x] == s.channels[x]
  {
    var t := Step(capacity, s, Leave(j));
    var p :| 0 <= p < |t.subscribers| && t.subscribers[p] == x;
    assert s.subscribers[if p < j then p else p + 1] == x;
  }

  lemma LeaveTreats(capacity: nat, s: State, j: nat, x: nat)
    requires Shape(capacity, s) && j < |s.subscribers| && Subscribed(Step(capacity, s, Leave(j)), x)
    ensures Subscribed(s, x) && x < |s.channels| == |Step(capacity, s, Leave(j)).channels|
    ensures Treats(s, Step(capacity, s, Leave(j)), x)
  {
    var t := Step(capacity, s, Leave(j));
    LeaveKeepsOthers(capacity, s, j, x);
    if !s.publisher.Raised? {
      var p :| 0 <= p < |t.subscribers| && t.subscribers[p] == x;
      LeaveShifts(capacity, s, j, p);
    }
  }

  /** The publisher picks its next subscriber, or its next message or call. */
  lemma PickTreats(capacity: nat, s: State, x: nat)
    requires Shape(capacity, s) && !s.publisher.Sending? && Subscribed(s, x)
    ensures x < |s.channels| && Treats(s, Step(capacity, s, Advance), x)
  {
  }

  /** Whether the publisher is ahead of a subscriber that stays, unless it sends to it or leaves it out. */
  lemma SameAhead(capacity: nat, s: State, e: Event, x: nat)
    requires Shape(capacity, s) && !e.Leave? && Subscribed(s, x) && !SentTo(s, Step(capacity, s, e), x)
    requires e.Advance? ==> s.publisher.Sending? && !Step(capacity, s, e).publisher.Raised?
    ensures var t := Step(capacity, s, e); t.publisher.m == s.publisher.m && (Ahead(t, x) <==> Ahead(s, x))
  {
    var t := Step(capacity, s, e);
    var p :| 0 <= p < |s.subscribers| && s.subscribers[p] == x;
    assert t.subscribers[p] == x;
    ShapeKept(capacity, s, e);
    if !s.publisher.Raised? {
      AheadAt(capacity, s, p);
      AheadAt(capacity, t, p);
    }
  }

  /** The call raises. */
  lemma RaiseTreats(capacity: nat, s: State, x: nat)
    requires Shape(capacity, s) && s.publisher.Sending? && Subscribed(s, x)
    requires Step(capacity, s, Advance).publisher.Raised?
    ensures x < |s.channels| == |Step(capacity, s, Advance).channels|
    ensures Treats(s, Step(capacity, s, Advance), x)
  {
  }

  lemma MissedSame(capacity: nat, s: State, e: Event, x: nat)
    requires MissedJoined(s) && x < |s.channels| && !e.Leave?
    requires e.Advance? ==> !Step(capacity, s, e).publisher.Raised?
    ensures SameMissed(s, Step(capacity, s, e), x)
  {
  }

  lemma OthersTreat(capacity: nat, s: State, e: Event, x: nat)
    requires Shape(capacity, s) && MissedJoined(s) && !e.Leave? && Subscribed(s, x)
    requires e.Advance? ==> s.publisher.Sending? && !Step(capacity, s, e).publisher.Raised?
    ensures x < |s.channels| <= |Step(capacity, s, e).channels|
    ensures Treats(s, Step(capacity, s, e), x)
  {
    var t := Step(capacity, s, e);
    LogGrowsBy(capacity, s, e, x);
    if SentTo(s, t, x) {
      SentIsPassed(capacity, s, e, x);
    } else {
      SameAhead(capacity, s, e, x);
      MissedSame(capacity, s, e, x);
    }
  }

  lemma ExactKept(capacity: nat, s: State, e: Event, x: nat)
    requires Shape(capacity, s) && MissedJoined(s) && Subscribed(Step(capacity, s, e), x)
    requires x < |s.channels| && Subscribed(s, x) ==> Exact(s, x)
    ensures x < |Step(capacity, s, e).channels| && Exact(Step(capacity, s, e), x)
  {
    var t := Step(capacity, s, e);
    if e.Join? && x == |s.channels| {
      JoinIsExact(capacity, s);
    } else if t != s {
      if e.Leave? {
        LeaveTreats(capacity, s, e.j, x);
      } else {
        var p :| 0 <= p < |t.subscribers| && t.subscribers[p] == x;
        assert s.subscribers[p] == x;
        if e.Advance? && !s.publisher.Sending? { PickTreats(capacity, s, x); }
        else if e.Advance? && t.publisher.Raised? { RaiseTreats(capacity, s, x); }
        else { OthersTreat(capacity, s, e, x); }
      }
      TreatsExactly(s, t, x);
    }
  }

  ghost predicate Inv(capacity: nat, s: State) {
    && Shape(capacity, s)
    && MissedJoined(s)
    && (forall x: nat :: x < |s.channels| ==> InOrder(s, x))
    && (forall x: nat :: Subscribed(s, x) ==> x < |s.channels| && Exact(s, x))
  }

  lemma InvKept(capacity: nat, s: State, e: Event)
    requires Inv(capacity, s)
    ensures Inv(capacity, Step(capacity, s, e))
  {
    var t := Step(capacity, s, e);
    ShapeKept(capacity, s, e);
    MissedJoinedKept(capacity, s, e);
    forall x: nat | x < |t.channels| ensures InOrder(t, x) {
      if x < |s.channels| { InOrderKept(capacity, s, e, x); } else { assert t.channels[x].Log() == []; }
    }
    forall x: nat | Subscribed(t, x) ensures x < |t.channels| && Exact(t, x) {
      ExactKept(capacity, s, e, x);
    }
  }
}
