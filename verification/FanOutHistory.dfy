/** What the channels of the in-memory pub/sub hold, and why they are open or closed: what has happened. */
module FanOutHistory {
  import opened Options
  import opened FanOut
  import opened FanOutDelivery

  // ---- what a channel was given --------------------------------------------------------------------

  /** Another task gives a message to channel x: into its buffer, to its waiting reader, or when a message is taken. */
  ghost predicate OtherGives(capacity: nat, s: State, e: Event, x: nat) {
    && x < |s.channels|
    && (|| (e == OtherSends(x) && s.channels[x].open && |s.channels[x].buffer| < capacity)
        || (e == OtherHands(x) && s.channels[x].open && s.channels[x].buffer == [])
        || (e == Receive(x, OtherMessage) && !s.channels[x].gone))
  }

  /** The task's send of message m to channel x is completed, in one of these ways. */
  ghost predicate OwnGives(capacity: nat, s: State, e: Event, x: nat, m: nat) {
    && x < |s.channels| && s.publisher.Sending? && s.publisher.m == m && s.publisher.to == x
    && if s.publisher.waits then e == Receive(x, OwnMessage) && !s.channels[x].gone
       else
         && s.channels[x].open
         && ((e == Handover && s.channels[x].buffer == []) || (e == Advance && |s.channels[x].buffer| < capacity))
  }

  /** All that was ever put into a channel, in order. */
  ghost function Items(s: State, x: nat): seq<Item> {
    if x < |s.channels| then s.channels[x].received + s.channels[x].buffer else []
  }

  /** What one event gives to the channel. */
  ghost function Gift(capacity: nat, s: State, e: Event, x: nat): seq<Item> {
    if OtherGives(capacity, s, e, x) then [None]
    else if s.publisher.Sending? && OwnGives(capacity, s, e, x, s.publisher.m) then [Some(s.publisher.m)]
    else []
  }

  lemma TakesFirst(received: seq<Item>, buffer: seq<Item>, more: seq<Item>)
    requires buffer + more != []
    ensures (received + [(buffer + more)[0]]) + (buffer + more)[1..] == (received + buffer) + more
  {
  }

  lemma Appended(received: seq<Item>, buffer: seq<Item>, item: Item)
    ensures received + (buffer + [item]) == (received + buffer) + [item]
    ensures buffer == [] ==> (received + [item]) + buffer == (received + buffer) + [item]
  {
  }

  lemma ReceiveGives(capacity: nat, s: State, y: nat, refill: Refill, x: nat)
    ensures var e := Receive(y, refill); Items(Step(capacity, s, e), x) == Items(s, x) + Gift(capacity, s, e, x)
  {
    if x < |s.channels| && y == x && !s.channels[x].gone {
      var c, e := s.channels[x], Receive(x, refill);
      var gift := Gift(capacity, s, e, x);
      assert Queue(s.publisher, x, c, refill) == c.buffer + gift;
      if c.buffer + gift != [] { TakesFirst(c.received, c.buffer, gift); }
    }
  }

  lemma OwnSendGives(capacity: nat, s: State, e: Event, x: nat)
    requires e == Handover || e == Advance
    ensures Items(Step(capacity, s, e), x) == Items(s, x) + Gift(capacity, s, e, x)
  {
    if x < |s.channels| { Appended(s.channels[x].received, s.channels[x].buffer, Some(s.publisher.m)); }
  }

  lemma OtherSendGives(capacity: nat, s: State, e: Event, x: nat)
    requires e.OtherSends? || e.OtherHands?
    ensures Items(Step(capacity, s, e), x) == Items(s, x) + Gift(capacity, s, e, x)
  {
    if x < |s.channels| { Appended(s.channels[x].received, s.channels[x].buffer, None); }
  }

  lemma ItemsGrow(capacity: nat, s: State, e: Event, x: nat)
    ensures Items(Step(capacity, s, e), x) == Items(s, x) + Gift(capacity, s, e, x)
  {
    match e
    case Receive(y, refill) => ReceiveGives(capacity, s, y, refill, x);
    case Handover => OwnSendGives(capacity, s, e, x);
    case Advance => OwnSendGives(capacity, s, e, x);
    case OtherSends(_) => OtherSendGives(capacity, s, e, x);
    case OtherHands(_) => OtherSendGives(capacity, s, e, x);
    case _ =>
  }

  /** All gifts of the first k events, in order. */
  ghost function Gifts(capacity: nat, ss: seq<State>, es: seq<Event>, x: nat, k: nat): seq<Item>
    requires |ss| == |es| + 1 && k <= |es|
  {
    if k == 0 then [] else Gifts(capacity, ss, es, x, k - 1) + Gift(capacity, ss[k - 1], es[k - 1], x)
  }

  /**
   What a channel has passed on and still buffers is exactly what was given to it, in that order: by the sends of
   the task that were completed, and by other tasks. Nothing is lost in it, and nothing comes from elsewhere.
   */
  lemma {:induction false} ChannelIsFifo(capacity: nat, ss: seq<State>, es: seq<Event>, x: nat, k: nat)
    requires Run(capacity, ss, es) && k <= |es|
    ensures Items(ss[k], x) == Gifts(capacity, ss, es, x, k)
  {
    if k > 0 {
      ChannelIsFifo(capacity, ss, es, x, k - 1);
      assert StepAt(capacity, ss, es, k - 1);
      ItemsGrow(capacity, ss[k - 1], es[k - 1], x);
    }
  }

  // ---- who is closed ---------------------------------------------------------------------------------

  /** The reader of channel x leaves. */
  ghost predicate LeavesFrom(s: State, e: Event, x: nat) {
    e.Leave? && e.j < |s.subscribers| && s.subscribers[e.j] == x
  }

  lemma ClosedStep(capacity: nat, s: State, e: Event, x: nat)
    requires Inv(capacity, s) && x < |s.channels|
    ensures x < |Step(capacity, s, e).channels|
    ensures !Step(capacity, s, e).channels[x].open <==>
            !s.channels[x].open || e == CloseStream(x) || LeavesFrom(s, e, x)
    ensures Step(capacity, s, e).channels[x].gone <==> s.channels[x].gone || LeavesFrom(s, e, x)
  {
  }

  lemma NewIsOpen(capacity: nat, s: State, e: Event, x: nat)
    requires Inv(capacity, s) && |s.channels| <= x < |Step(capacity, s, e).channels|
    ensures Step(capacity, s, e).channels[x].open && !Step(capacity, s, e).channels[x].gone
    ensures !LeavesFrom(s, e, x) && e != CloseStream(x)
  {
  }

  /** The event is about channel x, which exists. */
  ghost predicate ClosesNow(s: State, e: Event, x: nat) {
    x < |s.channels| && (e == CloseStream(x) || LeavesFrom(s, e, x))
  }

  lemma {:induction false} NoneYet(capacity: nat, ss: seq<State>, es: seq<Event>, x: nat, k: nat)
    requires Run(capacity, ss, es) && k <= |es| && |ss[k].channels| <= x
    ensures forall j: nat :: j < k ==> !ClosesNow(ss[j], es[j], x) && !LeavesFrom(ss[j], es[j], x)
  {
    if k > 0 {
      assert StepAt(capacity, ss, es, k - 1);
      Reachable(capacity, ss, es, k - 1);
      assert |ss[k - 1].channels| <= |ss[k].channels|;
      NoneYet(capacity, ss, es, x, k - 1);
    }
  }

  /** A channel is closed for sending exactly if close() has closed it or its reader has left, and gone if that has. */
  lemma {:induction false} ClosedIff(capacity: nat, ss: seq<State>, es: seq<Event>, x: nat, k: nat)
    requires Run(capacity, ss, es) && k <= |es| && x < |ss[k].channels|
    ensures !ss[k].channels[x].open <==> exists j: nat :: j < k && ClosesNow(ss[j], es[j], x)
    ensures ss[k].channels[x].gone <==> exists j: nat :: j < k && LeavesFrom(ss[j], es[j], x)
  {
    if k > 0 {
      assert StepAt(capacity, ss, es, k - 1);
      Reachable(capacity, ss, es, k - 1);
      if x < |ss[k - 1].channels| {
        ClosedIff(capacity, ss, es, x, k - 1);
        ClosedStep(capacity, ss[k - 1], es[k - 1], x);
      } else {
        NoneYet(capacity, ss, es, x, k - 1);
        NewIsOpen(capacity, ss[k - 1], es[k - 1], x);
      }
    }
  }
}
