/**
 `InMemoryPubSub` for one topic as an object. Its methods are the events of the fan-out machine, and a
 whole publish call, with whatever other tasks do at its awaits, is a sequence of such events.
 */
module MemoryPubSub {
  import opened Options
  import opened FanOut
  import opened FanOutDelivery
  import Messages

  /** The state after the events, starting from s. */
  ghost function After(capacity: nat, s: State, es: seq<Event>): State
    decreases |es|
  {
    if es == [] then s else After(capacity, Step(capacity, s, es[0]), es[1..])
  }

  lemma {:induction false} AfterAll(capacity: nat, s: State, es: seq<Event>, more: seq<Event>)
    ensures After(capacity, After(capacity, s, es), more) == After(capacity, s, es + more)
    decreases |es|
  {
    if es == [] {
      assert es + more == more;
    } else {
      assert (es + more)[1..] == es[1..] + more;
      AfterAll(capacity, Step(capacity, s, es[0]), es[1..], more);
    }
  }

  lemma AfterOne(capacity: nat, s: State, es: seq<Event>, e: Event)
    ensures After(capacity, s, es + [e]) == Step(capacity, After(capacity, s, es), e)
  {
    AfterAll(capacity, s, es, [e]);
  }

  /** Continuing a run with more events gives a run again, so that its theorems apply to what follows. */
  lemma {:induction false} RunGoesOn(capacity: nat, ss: seq<State>, es: seq<Event>, more: seq<Event>)
    returns (tt: seq<State>)
    requires Run(capacity, ss, es)
    ensures Run(capacity, tt, es + more) && ss <= tt
    ensures tt[|tt| - 1] == After(capacity, ss[|ss| - 1], more)
    decreases |more|
  {
    if more == [] {
      tt := ss;
      assert es + more == es;
    } else {
      OneMore(capacity, ss, es, more[0]);
      tt := RunGoesOn(capacity, ss + [Step(capacity, ss[|es|], more[0])], es + [more[0]], more[1..]);
      assert es + more == es + [more[0]] + more[1..];
    }
  }

  lemma OneMore(capacity: nat, ss: seq<State>, es: seq<Event>, e: Event)
    requires Run(capacity, ss, es)
    ensures Run(capacity, ss + [Step(capacity, ss[|es|], e)], es + [e])
  {
    var tt := ss + [Step(capacity, ss[|es|], e)];
    forall k | 0 <= k < |es| + 1 ensures StepAt(capacity, tt, es + [e], k) {
      if k < |es| { assert StepAt(capacity, ss, es, k); }
    }
  }

  lemma {:induction false} AfterIsValid(capacity: nat, s: State, es: seq<Event>)
    requires Inv(capacity, s)
    ensures Inv(capacity, After(capacity, s, es))
    decreases |es|
  {
    if es != [] {
      InvKept(capacity, s, es[0]);
      AfterIsValid(capacity, Step(capacity, s, es[0]), es[1..]);
    }
  }

  /** Nobody leaves and nothing is closed. */
  predicate Calm(es: seq<Event>) {
    forall k :: 0 <= k < |es| ==> !Disturbs(es[k])
  }

  lemma ExtendsOn(s: State, t: State, u: State)
    requires Extends(s, t) && Extends(t, u)
    ensures Extends(s, u)
  {
  }

  lemma {:induction false} AfterCalm(capacity: nat, s: State, es: seq<Event>)
    requires OnList(s) && AllOpen(s) && Calm(es)
    ensures var t := After(capacity, s, es); OnList(t) && AllOpen(t) && Extends(s, t)
    decreases |es|
  {
    if es != [] {
      assert !Disturbs(es[0]);
      var t := Step(capacity, s, es[0]);
      OpenStep(capacity, s, es[0]);
      StepExtends(capacity, s, es[0]);
      AfterCalm(capacity, t, es[1..]);
      ExtendsOn(s, t, After(capacity, t, es[1..]));
    }
  }

  /** Everyone who was subscribed in s has been given all messages that were published since. */
  ghost predicate GivenAll(s: State, t: State) {
    forall x: nat, m: nat :: Subscribed(s, x) && Coming(s) <= m < t.publisher.m ==> Given(t, x, m)
  }

  ghost predicate Given(t: State, x: nat, m: nat) {
    x < |t.channels| && m in t.channels[x].Log()
  }

  lemma GivenFrom(r: State, s: State, t: State)
    requires r.subscribers == s.subscribers && Coming(r) == Coming(s) && GivenAll(s, t)
    ensures GivenAll(r, t)
  {
    forall x: nat, m: nat | Subscribed(r, x) && Coming(r) <= m < t.publisher.m ensures Given(t, x, m) {
      var p :| 0 <= p < |r.subscribers| && r.subscribers[p] == x;
      assert s.subscribers[p] == x && Subscribed(s, x);
    }
  }

  lemma CalmCallGivesAll(capacity: nat, s: State, es: seq<Event>)
    requires Inv(capacity, s) && AtStart(s) && AllOpen(s) && Calm(es)
    ensures var t := After(capacity, s, es); !t.publisher.Raised? && GivenAll(s, t)
  {
    var t := After(capacity, s, es);
    AfterIsValid(capacity, s, es);
    AfterCalm(capacity, s, es);
    forall x: nat, m: nat | Subscribed(s, x) && s.publisher.m <= m < t.publisher.m ensures Given(t, x, m) {
      StillThere(capacity, s, t, x);
      NotMissed(capacity, s, t, x, m);
    }
  }

  /** Only the publisher advances itself. */
  predicate NoneIsAdvance(es: seq<Event>) {
    forall k :: 0 <= k < |es| ==> !es[k].Advance?
  }

  /** What can have become of a message after one or more tries. */
  predicate Tried(was: FanOut.Publisher, now: FanOut.Publisher)
    requires was.Sending?
  {
    SentOn(was, now) || now == Raised(was.m) || now == was.(waits := true)
  }

  predicate NoneAdvances(others: seq<seq<Event>>) {
    forall q :: 0 <= q < |others| ==> NoneIsAdvance(others[q])
  }

  predicate AllCalm(others: seq<seq<Event>>) {
    forall q :: 0 <= q < |others| ==> Calm(others[q])
  }

  /** Nothing happens to a publisher while it awaits, except that its message is taken. */
  predicate SentOn(was: FanOut.Publisher, now: FanOut.Publisher) {
    now == was || (was.Sending? && now == Next(was.m, was.i))
  }

  /** How a publish call ended: it can also still be waiting for room. */
  datatype Ended = Returned | Rejected | BrokenChannel | StillWaiting

  class PubSub {
    const bufferSize: nat
    var subscribers: seq<nat>
    var channels: seq<Channel>
    var closed: bool
    var position: FanOut.Publisher
    ghost var missed: set<(nat, nat)>

    constructor (bufferSize: nat)
      ensures this.bufferSize == bufferSize && Now() == NOBODY && !closed && Valid()
    {
      this.bufferSize := bufferSize;
      subscribers, channels, closed, position, missed := [], [], false, Next(0, 0), {};
    }

    ghost function Now(): State
      reads this
    {
      State(subscribers, channels, position, missed)
    }

    /** What holds in every state that the machine reaches. */
    ghost predicate Valid()
      reads this
    {
      Inv(bufferSize, Now())
    }

    /** A new channel at the end of the list. */
    method Subscribe() returns (r: Messages.Reply)
      modifies this
      ensures closed == old(closed)
      ensures r == if closed then Messages.Rejected("MemoryPubSub is closed") else Messages.Accepted
      ensures Now() == if closed then old(Now()) else Step(bufferSize, old(Now()), Join)
      ensures old(Valid()) ==> Valid()
    {
      if Valid() { InvKept(bufferSize, Now(), Join); }
      if closed {
        return Messages.Rejected("MemoryPubSub is closed");
      }
      missed := Step(bufferSize, Now(), Join).missed;
      subscribers := subscribers + [|channels|];
      channels := channels + [Channel(position.m + if position.Raised? then 1 else 0, [], [], true, false)];
      return Messages.Accepted;
    }

    /** The cleanup of the generator whose channel stands at index j. */
    method Leave(j: nat)
      modifies this
      ensures closed == old(closed) && Now() == Step(bufferSize, old(Now()), FanOut.Leave(j))
      ensures old(Valid()) ==> Valid()
    {
      if Valid() { InvKept(bufferSize, Now(), FanOut.Leave(j)); }
      missed := Step(bufferSize, Now(), FanOut.Leave(j)).missed;
      if j < |subscribers| && subscribers[j] < |channels| {
        var x := subscribers[j];
        subscribers := subscribers[..j] + subscribers[j + 1..];
        channels := channels[x := channels[x].(open := false, gone := true)];
      }
    }

    /** The generator of channel x takes its next message, if there is one; a waiting send may follow. */
    method Receive(x: nat, refill: Refill) returns (got: seq<Item>)
      modifies this`channels, this`position
      ensures Now() == Step(bufferSize, old(Now()), FanOut.Receive(x, refill))
      ensures |got| <= 1
      ensures x < |old(channels)| ==> channels[x].received == old(channels)[x].received + got
      ensures SentOn(old(position), position)
      ensures old(Valid()) ==> Valid()
    {
      if Valid() { InvKept(bufferSize, Now(), FanOut.Receive(x, refill)); }
      got := [];
      if x < |channels| && !channels[x].gone {
        var c, queue := channels[x], Queue(position, x, channels[x], refill);
        if queue != [] {
          got := [queue[0]];
          channels := channels[x := c.(received := c.received + got, buffer := queue[1..])];
          if refill.OwnMessage? && Waits(position, x) {
            position := Next(position.m, position.i);
          }
        }
      }
    }

    /** Another task puts a message into channel x, or hands it to its waiting reader. */
    method SendOther(x: nat, hands: bool)
      modifies this`channels
      ensures Now() == Step(bufferSize, old(Now()), if hands then OtherHands(x) else OtherSends(x))
      ensures old(Valid()) ==> Valid()
    {
      if Valid() { InvKept(bufferSize, Now(), if hands then OtherHands(x) else OtherSends(x)); }
      if x < |channels| && channels[x].open {
        var c := channels[x];
        if hands && c.buffer == [] {
          channels := channels[x := c.(received := c.received + [None])];
        } else if !hands && |c.buffer| < bufferSize {
          channels := channels[x := c.(buffer := c.buffer + [None])];
        }
      }
    }

    method CloseChannel(x: nat)
      modifies this`channels
      ensures Now() == Step(bufferSize, old(Now()), CloseStream(x))
      ensures old(Valid()) ==> Valid()
    {
      if Valid() { InvKept(bufferSize, Now(), CloseStream(x)); }
      if x < |channels| {
        channels := channels[x := channels[x].(open := false)];
      }
    }

    /** A waiting reader takes the message that is being sent. */
    method HandOver()
      modifies this`channels, this`position
      ensures Now() == Step(bufferSize, old(Now()), Handover)
      ensures SentOn(old(position), position)
    {
      if position.Sending? && !position.waits && position.to < |channels| {
        var c := channels[position.to];
        if c.open && c.buffer == [] {
          channels := channels[position.to := c.(received := c.received + [Some(position.m)])];
          position := Next(position.m, position.i);
        }
      }
    }

    /** What another task does while the publisher awaits. */
    method Other(e: Event)
      requires !e.Advance?
      modifies this
      ensures closed == old(closed)
      ensures (closed && e.Join? && Now() == old(Now())) || Now() == Step(bufferSize, old(Now()), e)
      ensures SentOn(old(position), position)
    {
      match e
      case Join => var _ := Subscribe();
      case Leave(j) => Leave(j);
      case CloseStream(x) => CloseChannel(x);
      case Receive(x, refill) => var _ := Receive(x, refill);
      case OtherSends(x) => SendOther(x, false);
      case OtherHands(x) => SendOther(x, true);
      case Handover => HandOver();
    }

    /** One await: the given events happen. */
    method Await(others: seq<Event>, ghost start: State, ghost before: seq<Event>) returns (ghost es: seq<Event>)
      requires NoneIsAdvance(others)
      requires Now() == After(bufferSize, start, before)
      modifies this
      ensures closed == old(closed) && Now() == After(bufferSize, start, es)
      ensures SentOn(old(position), position)
      ensures others == [] ==> subscribers == old(subscribers)
      ensures Calm(before) && Calm(others) ==> Calm(es)
    {
      es := before;
      for n := 0 to |others|
        invariant closed == old(closed) && Now() == After(bufferSize, start, es)
        invariant SentOn(old(position), position)
        invariant n == 0 ==> subscribers == old(subscribers)
        invariant Calm(before) && Calm(others) ==> Calm(es)
      {
        ghost var was := Now();
        Other(others[n]);
        if Now() != was {
          AfterOne(bufferSize, start, es, others[n]);
          es := es + [others[n]];
        }
      }
    }

    /** The publisher's own progress up to its next await. */
    method Proceed(ghost start: State, ghost before: seq<Event>) returns (ghost es: seq<Event>)
      requires Now() == After(bufferSize, start, before)
      modifies this`channels, this`position, this`missed
      ensures Now() == Step(bufferSize, old(Now()), Advance) == After(bufferSize, start, es)
      ensures old(position).Sending? ==> Tried(old(position), position)
      ensures Calm(before) ==> Calm(es)
    {
      es := before + [Advance];
      AfterOne(bufferSize, start, before, Advance);
      missed := Step(bufferSize, Now(), Advance).missed;
      match position
      case Raised(m) =>
        position := Next(m + 1, 0);
      case Next(m, i) =>
        position := if i < |subscribers| then Sending(m, i + 1, subscribers[i], false) else Next(m + 1, 0);
      case Sending(m, i, target, waits) =>
        if target >= |channels| || (if waits then channels[target].gone else !channels[target].open) {
          position := Raised(m);
        } else if !waits && |channels[target].buffer| < bufferSize {
          channels := channels[target := channels[target].(buffer := channels[target].buffer + [Some(m)])];
          position := Next(m, i);
        } else {
          position := position.(waits := true);
        }
    }

    /** One try to send the message, after an await. */
    method Try(others: seq<Event>, ghost start: State, ghost before: seq<Event>) returns (ghost es: seq<Event>)
      requires NoneIsAdvance(others)
      requires position.Sending? && Now() == After(bufferSize, start, before)
      modifies this
      ensures closed == old(closed) && Now() == After(bufferSize, start, es)
      ensures Tried(old(position), position)
      ensures others == [] ==> subscribers == old(subscribers)
      ensures Calm(before) && Calm(others) ==> Calm(es)
    {
      es := Await(others, start, before);
      if position.Sending? {
        es := Proceed(start, es);
      }
    }

    /** `send` of the current message to its channel: other tasks run until there is room. */
    method Send(others: seq<seq<Event>>, ghost start: State, ghost before: seq<Event>)
      returns (rest: seq<seq<Event>>, ghost es: seq<Event>)
      requires NoneAdvances(others)
      requires position.Sending? && Now() == After(bufferSize, start, before)
      modifies this
      ensures closed == old(closed) && Now() == After(bufferSize, start, es)
      ensures |rest| <= |others| && NoneAdvances(rest)
      ensures |rest| < |others| || subscribers == old(subscribers)
      ensures Calm(before) && AllCalm(others) ==> Calm(es) && AllCalm(rest)
      ensures Tried(old(position), position) && (position.Sending? ==> rest == [])
    {
      rest, es := others, before;
      if rest == [] {
        es := Try([], start, es);
      }
      while position.Sending? && rest != []
        invariant closed == old(closed) && Now() == After(bufferSize, start, es)
        invariant |rest| <= |others| && NoneAdvances(rest)
        invariant |rest| < |others| || subscribers == old(subscribers)
        invariant Calm(before) && AllCalm(others) ==> Calm(es) && AllCalm(rest)
        invariant Tried(old(position), position)
        decreases |rest|
      {
        es := Try(rest[0], start, es);
        rest := rest[1..];
      }
    }

    /**
     One publish call: for each message, a walk over the live subscriber list by index. `others` holds
     what other tasks do at each await; the call, with that, is a sequence of events of the machine. While
     all channels are open, and nobody leaves or closes one, the call does not raise, and gives each of its
     messages to everyone who was subscribed when it began.
     */
    method Publish(messages: nat, others: seq<seq<Event>>) returns (r: Ended, ghost es: seq<Event>)
      requires Valid() && NoneAdvances(others) && BetweenCalls(Now())
      modifies this
      ensures Valid() && closed == old(closed) && Now() == After(bufferSize, old(Now()), es)
      ensures r.Rejected? <==> closed
      ensures r.Rejected? ==> es == []
      ensures r.Returned? ==> position == Next(old(Coming(Now())) + messages, 0)
      ensures r.BrokenChannel? ==> position.Raised?
      ensures r.StillWaiting? ==> position.Sending?
      ensures old(ListOpen(Now())) && AllCalm(others) ==> !r.BrokenChannel?
      ensures old(ListOpen(Now())) && AllCalm(others) && r.Returned? ==> GivenAll(old(Now()), Now())
    {
      es := [];
      if closed {
        return Rejected, es;
      }
      ghost var before := Now();
      es := Begin();
      ghost var start := Now();
      ghost var more;
      r, more := Walk(messages, others, start);
      AfterAll(bufferSize, before, es, more);
      es := es + more;
      AfterIsValid(bufferSize, start, more);
      if AllOpen(start) && AllCalm(others) {
        CalmCallGivesAll(bufferSize, start, more);
        GivenFrom(before, start, Now());
      }
    }

    /** After a call that raised, the next one begins with a message of its own. */
    method Begin() returns (ghost es: seq<Event>)
      requires Valid() && BetweenCalls(Now())
      modifies this`channels, this`position, this`missed
      ensures Valid() && Now() == After(bufferSize, old(Now()), es)
      ensures position == Next(old(Coming(Now())), 0)
      ensures channels == old(channels) && (old(ListOpen(Now())) ==> AllOpen(Now()))
    {
      es := [];
      if position.Raised? {
        InvKept(bufferSize, Now(), Advance);
        es := Proceed(Now(), es);
      }
    }

    /** The two loops of the call. */
    method Walk(messages: nat, others: seq<seq<Event>>, ghost start: State) returns (r: Ended, ghost es: seq<Event>)
      requires NoneAdvances(others) && AtStart(Now()) && start == Now()
      modifies this
      ensures closed == old(closed) && Now() == After(bufferSize, start, es)
      ensures AllCalm(others) ==> Calm(es)
      ensures !r.Rejected?
      ensures r.Returned? ==> position == Next(old(position).m + messages, 0)
      ensures r.BrokenChannel? ==> position.Raised?
      ensures r.StillWaiting? ==> position.Sending?
    {
      es := [];
      var rest := others;
      var first := position.m;
      for n := 0 to messages
        invariant closed == old(closed) && Now() == After(bufferSize, start, es)
        invariant position == Next(first + n, 0)
        invariant NoneAdvances(rest) && (AllCalm(others) ==> Calm(es) && AllCalm(rest))
      {
        while position.i < |subscribers|
          invariant closed == old(closed) && Now() == After(bufferSize, start, es)
          invariant position.Next? && position.m == first + n
          invariant NoneAdvances(rest) && (AllCalm(others) ==> Calm(es) && AllCalm(rest))
          decreases |rest|, |subscribers| - position.i
        {
          es := Proceed(start, es);
          rest, es := Send(rest, start, es);
          if !position.Next? {
            return if position.Raised? then BrokenChannel else StillWaiting, es;
          }
        }
        es := Proceed(start, es);
      }
      return Returned, es;
    }

    method Close()
      modifies this`closed
      ensures closed
    {
      closed := true;
    }
  }
}
