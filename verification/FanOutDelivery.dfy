/** Who is given what over whole runs of the in-memory pub/sub, and when nothing is lost. */
module FanOutDelivery {
  import opened Options
  import opened Sequences
  import opened FanOut

  lemma {:induction false} Reachable(capacity: nat, ss: seq<State>, es: seq<Event>, k: nat)
    requires Run(capacity, ss, es) && k <= |es|
    ensures Inv(capacity, ss[k])
  {
    if k > 0 {
      Reachable(capacity, ss, es, k - 1);
      assert StepAt(capacity, ss, es, k - 1);
      InvKept(capacity, ss[k - 1], es[k - 1]);
    }
  }

  // ---- the theorems ------------------------------------------------------------------------------

  /** Nobody gets a message twice or out of order, whoever joins, leaves or is closed meanwhile. */
  lemma AtMostOnceInOrder(capacity: nat, ss: seq<State>, es: seq<Event>, k: nat, x: nat)
    requires Run(capacity, ss, es) && k <= |es| && x < |ss[k].channels|
    ensures Increasing(Own(ss[k].channels[x].received + ss[k].channels[x].buffer))
    ensures |ss[k].channels[x].buffer| <= capacity
  {
    Reachable(capacity, ss, es, k);
    assert InOrder(ss[k], x);
  }

  /**
   A subscriber that is still subscribed when message m has been published has been given it, if it
   joined in time, exactly unless the list iteration passed it over (an earlier entry was removed while
   the subscriber was the next to be visited, or it joined behind the iteration after a removal) or the
   call raised before it got there.
   */
  lemma GivenUnlessPassedOver(capacity: nat, ss: seq<State>, es: seq<Event>, k: nat, x: nat, m: nat)
    requires Run(capacity, ss, es) && k <= |es|
    requires Subscribed(ss[k], x) && m < ss[k].publisher.m
    ensures x < |ss[k].channels|
    ensures ss[k].channels[x].since <= m ==>
              (m in ss[k].channels[x].Log() <==> (x, m) !in ss[k].missed)
  {
    Reachable(capacity, ss, es, k);
    assert Exact(ss[k], x) && Through(ss[k], x, m);
  }

  // ---- stretches in which nobody leaves and no call raises -----------------------------------------

  /** What such a stretch changes: subscribers are only added, and nobody is passed over. */
  ghost predicate Extends(s: State, t: State) {
    && s.subscribers <= t.subscribers && |s.channels| <= |t.channels|
    && (forall p :: |s.subscribers| <= p < |t.subscribers| ==> t.subscribers[p] >= |s.channels|)
    && t.missed == s.missed && s.publisher.m <= t.publisher.m
    && forall x :: 0 <= x < |s.channels| ==> t.channels[x].since == s.channels[x].since
  }

  /** The list iteration has not run past the end of the list, which only removals can make it do. */
  ghost predicate OnList(s: State) {
    !s.publisher.Raised? && s.publisher.i <= |s.subscribers|
  }

  lemma StepExtends(capacity: nat, s: State, e: Event)
    requires OnList(s) && !e.Leave? && !Step(capacity, s, e).publisher.Raised?
    ensures OnList(Step(capacity, s, e)) && Extends(s, Step(capacity, s, e))
  {
  }

  ghost predicate Quiet(ss: seq<State>, es: seq<Event>, i: nat, k: nat)
    requires |ss| == |es| + 1 && k <= |es|
  {
    && (forall n :: i <= n < k ==> !es[n].Leave?)
    && (forall n :: i <= n <= k ==> !ss[n].publisher.Raised?)
  }

  lemma {:induction false} QuietExtends(capacity: nat, ss: seq<State>, es: seq<Event>, i: nat, k: nat)
    requires Run(capacity, ss, es) && i <= k <= |es| && Quiet(ss, es, i, k) && OnList(ss[i])
    ensures OnList(ss[k]) && Extends(ss[i], ss[k])
  {
    if i < k {
      QuietExtends(capacity, ss, es, i, k - 1);
      assert StepAt(capacity, ss, es, k - 1);
      StepExtends(capacity, ss[k - 1], es[k - 1]);
    }
  }

  ghost predicate AtStart(s: State) {
    s.publisher.Next? && s.publisher.i == 0
  }

  /** No publish call is under way. */
  ghost predicate BetweenCalls(s: State) {
    AtStart(s) || s.publisher.Raised?
  }

  /** The first message that x must have been given, after a stretch that began with message m. */
  ghost function First(s: State, x: nat, m: nat): nat
    requires x < |s.channels|
  {
    if s.channels[x].since < m then m else s.channels[x].since
  }

  /** The first message that x need not have been given yet. */
  ghost function End(s: State, x: nat): nat {
    s.publisher.m + if Ahead(s, x) then 0 else 1
  }

  /** At the start of a message nobody on the list has been passed over for it or a later one. */
  lemma NoneMissedYet(capacity: nat, s: State, x: nat, m: nat)
    requires Inv(capacity, s) && AtStart(s) && s.publisher.m <= m && Subscribed(s, x)
    ensures (x, m) !in s.missed
  {
    assert Exact(s, x) && Ahead(s, x) && !Through(s, x, m);
  }

  /** So from then on, while nobody leaves and no call raises, everyone is given every message. */
  lemma NotMissed(capacity: nat, s: State, t: State, x: nat, m: nat)
    requires Inv(capacity, s) && Inv(capacity, t) && AtStart(s) && Extends(s, t)
    requires Subscribed(t, x) && First(t, x, s.publisher.m) <= m < End(t, x)
    ensures m in t.channels[x].Log()
  {
    var p :| 0 <= p < |t.subscribers| && t.subscribers[p] == x;
    assert Exact(t, x) && Through(t, x, m);
    if x < |s.channels| {
      assert p < |s.subscribers| && s.subscribers[p] == x;
      NoneMissedYet(capacity, s, x, m);
    }
  }

  /** The log ends in exactly the messages from first up to end. */
  ghost predicate EndsInRange(log: seq<nat>, first: int, end: int) {
    && 0 <= end - first <= |log|
    && forall q :: |log| - (end - first) <= q < |log| ==> log[q] == end - |log| + q
  }

  lemma {:induction false} TailIsRange(log: seq<nat>, first: nat, end: nat)
    requires Increasing(log) && first <= end
    requires forall q :: 0 <= q < |log| ==> log[q] < end
    requires forall m: nat :: first <= m < end ==> m in log
    ensures EndsInRange(log, first, end)
    decreases end - first
  {
    if first < end {
      var last: nat := end - 1;
      assert last in log;
      var most := log[..|log| - 1];
      assert log[|log| - 1] == last;
      forall m: nat | first <= m < last ensures m in most {
        assert m in log;
        var q :| 0 <= q < |log| && log[q] == m;
        assert most[q] == m;
      }
      TailIsRange(most, first, last);
    }
  }

  /**
   From the start of a message on, and while nobody leaves and no call raises, every subscriber is given
   every message it is there for: what it has received or has in its buffer ends in exactly the messages
   from the start, or from its own joining, without gaps.
   */
  lemma NoLossWithoutLeaving(capacity: nat, ss: seq<State>, es: seq<Event>, i: nat, k: nat, x: nat)
    requires Run(capacity, ss, es) && i <= k <= |es| && Quiet(ss, es, i, k)
    requires AtStart(ss[i]) && Subscribed(ss[k], x)
    ensures x < |ss[k].channels|
    ensures EndsInRange(Own(ss[k].channels[x].received + ss[k].channels[x].buffer),
                        First(ss[k], x, ss[i].publisher.m), End(ss[k], x))
  {
    Reachable(capacity, ss, es, i);
    Reachable(capacity, ss, es, k);
    QuietExtends(capacity, ss, es, i, k);
    LogEndsInRange(capacity, ss[i], ss[k], x);
  }

  lemma LogEndsInRange(capacity: nat, s: State, t: State, x: nat)
    requires Inv(capacity, s) && Inv(capacity, t) && AtStart(s) && Extends(s, t) && !t.publisher.Raised?
    requires Subscribed(t, x)
    ensures EndsInRange(t.channels[x].Log(), First(t, x, s.publisher.m), End(t, x))
  {
    assert Exact(t, x) && InOrder(t, x);
    var log, first, end := t.channels[x].Log(), First(t, x, s.publisher.m), End(t, x);
    forall m: nat | first <= m < end ensures m in log { NotMissed(capacity, s, t, x, m); }
    forall q | 0 <= q < |log| ensures log[q] < end { assert log[q] in log; }
    TailIsRange(log, first, end);
  }

  /** So a publish call gives each of its messages to every subscriber that was there when it began. */
  lemma CallGivesAll(capacity: nat, ss: seq<State>, es: seq<Event>, i: nat, k: nat, x: nat, m: nat)
    requires Run(capacity, ss, es) && i <= k <= |es| && Quiet(ss, es, i, k)
    requires AtStart(ss[i]) && Subscribed(ss[i], x) && ss[i].publisher.m <= m < ss[k].publisher.m
    ensures Subscribed(ss[k], x) && x < |ss[k].channels| && m in ss[k].channels[x].Log()
  {
    Reachable(capacity, ss, es, i);
    Reachable(capacity, ss, es, k);
    QuietExtends(capacity, ss, es, i, k);
    StillThere(capacity, ss[i], ss[k], x);
    NotMissed(capacity, ss[i], ss[k], x, m);
  }

  lemma StillThere(capacity: nat, s: State, t: State, x: nat)
    requires Inv(capacity, s) && Extends(s, t) && AtStart(s) && Subscribed(s, x)
    ensures Subscribed(t, x) && x < |s.channels| <= |t.channels| && t.channels[x].since <= s.publisher.m
  {
    var p :| 0 <= p < |s.subscribers| && s.subscribers[p] == x;
    assert t.subscribers[p] == x && Exact(s, x);
  }

  /**
   Backpressure: in such a stretch a subscriber has received every message that is more than
   `buffer_size` behind the publisher, so completed publishes are at most that far ahead of it.
   */
  lemma Backpressure(capacity: nat, ss: seq<State>, es: seq<Event>, i: nat, k: nat, x: nat, m: nat)
    requires Run(capacity, ss, es) && i <= k <= |es| && Quiet(ss, es, i, k)
    requires AtStart(ss[i]) && Subscribed(ss[k], x) && x < |ss[k].channels|
    requires First(ss[k], x, ss[i].publisher.m) <= m && m + capacity < End(ss[k], x)
    ensures m in Own(ss[k].channels[x].received)
  {
    NoLossWithoutLeaving(capacity, ss, es, i, k, x);
    AtMostOnceInOrder(capacity, ss, es, k, x);
    var c, end := ss[k].channels[x], End(ss[k], x);
    var q := |c.Log()| - (end - m);
    OwnJoin(c.received, c.buffer);
    assert c.Log()[q] == m && Own(c.received)[q] == m;
  }

  // ---- when no call raises ------------------------------------------------------------------------

  predicate IsOpen(c: Channel) {
    c.open && !c.gone
  }

  ghost predicate ListOpen(s: State) {
    forall p :: 0 <= p < |s.subscribers| ==> s.subscribers[p] < |s.channels| && IsOpen(s.channels[s.subscribers[p]])
  }

  /** Everyone on the list, and whoever is being sent to, has an open channel. */
  ghost predicate AllOpen(s: State) {
    && !s.publisher.Raised? && ListOpen(s)
    && (s.publisher.Sending? ==> s.publisher.to < |s.channels| && IsOpen(s.channels[s.publisher.to]))
  }

  predicate Disturbs(e: Event) {
    e.Leave? || e.CloseStream?
  }

  lemma OpenStep(capacity: nat, s: State, e: Event)
    requires AllOpen(s) && !Disturbs(e)
    ensures AllOpen(Step(capacity, s, e))
  {
  }

  /** No call raises while all channels are open and nobody leaves or closes one. */
  lemma {:induction false} OpenIsQuiet(capacity: nat, ss: seq<State>, es: seq<Event>, i: nat, k: nat)
    requires Run(capacity, ss, es) && i <= k <= |es| && AllOpen(ss[i])
    requires forall n :: i <= n < k ==> !Disturbs(es[n])
    ensures Quiet(ss, es, i, k) && AllOpen(ss[k])
  {
    if i < k {
      OpenIsQuiet(capacity, ss, es, i, k - 1);
      assert StepAt(capacity, ss, es, k - 1);
      OpenStep(capacity, ss[k - 1], es[k - 1]);
    }
  }

  // ---- after leaving --------------------------------------------------------------------------------

  ghost predicate HasLeft(s: State, x: nat) {
    x < |s.channels| && s.channels[x].gone && !s.channels[x].open && !Subscribed(s, x)
  }

  lemma LeavingAt(capacity: nat, ss: seq<State>, es: seq<Event>, i: nat, j: nat)
    requires Run(capacity, ss, es) && i < |es| && es[i] == Leave(j) && j < |ss[i].subscribers|
    ensures var x := ss[i].subscribers[j];
      x < |ss[i].channels| && HasLeft(ss[i + 1], x) && ss[i + 1].channels[x].received == ss[i].channels[x].received
  {
    Reachable(capacity, ss, es, i);
    assert StepAt(capacity, ss, es, i);
  }

  lemma LeftStays(capacity: nat, s: State, e: Event, x: nat)
    requires HasLeft(s, x)
    ensures HasLeft(Step(capacity, s, e), x)
    ensures Step(capacity, s, e).channels[x].received == s.channels[x].received
  {
  }

  /** A reader that has left is on no list and receives nothing any more. */
  lemma {:induction false} NothingAfterLeaving(
    capacity: nat, ss: seq<State>, es: seq<Event>, i: nat, k: nat, j: nat)
    requires Run(capacity, ss, es) && i < k <= |es| && es[i] == Leave(j) && j < |ss[i].subscribers|
    ensures var x := ss[i].subscribers[j];
      && x < |ss[i].channels| && HasLeft(ss[k], x)
      && ss[k].channels[x].received == ss[i].channels[x].received
  {
    LeavingAt(capacity, ss, es, i, j);
    if i + 1 < k {
      NothingAfterLeaving(capacity, ss, es, i, k - 1, j);
      assert StepAt(capacity, ss, es, k - 1);
      LeftStays(capacity, ss[k - 1], es[k - 1], ss[i].subscribers[j]);
    }
  }

  /**
   No publish call is ever stuck: it can go on by itself, or, while it sends, its reader can let it go on by
   receiving; if that reader leaves, it goes on by itself. After a call that raised, the next one goes on with
   another message.
   */
  lemma NeverStuck(capacity: nat, ss: seq<State>, es: seq<Event>, k: nat)
    requires Run(capacity, ss, es) && k <= |es|
    ensures var p, next := ss[k].publisher, Step(capacity, ss[k], Advance).publisher;
      && (|| next != p
          || (p.Sending? && Step(capacity, ss[k], Receive(p.to, OwnMessage)).publisher == Next(p.m, p.i)))
      && (p.Raised? ==> next == Next(p.m + 1, 0))
      && (p.Sending? ==> p.to < |ss[k].channels| && (ss[k].channels[p.to].gone ==> !next.Sending?))
  {
    Reachable(capacity, ss, es, k);
    GoneIsClosed(capacity, ss, es, k);
  }

  lemma {:induction false} GoneIsClosed(capacity: nat, ss: seq<State>, es: seq<Event>, k: nat)
    requires Run(capacity, ss, es) && k <= |es|
    ensures forall x :: 0 <= x < |ss[k].channels| && ss[k].channels[x].gone ==> !ss[k].channels[x].open
  {
    if k > 0 {
      GoneIsClosed(capacity, ss, es, k - 1);
      assert StepAt(capacity, ss, es, k - 1);
    }
  }

  // ---- leaving can take a message from another subscriber ------------------------------------------

  /** Two join, and the first message goes to the first of them. */
  lemma TwoJoinAndOneReceives(capacity: nat)
    requires capacity > 0
    ensures var s2 := Step(capacity, Step(capacity, NOBODY, Join), Join);
            var s3 := Step(capacity, s2, Advance);
            var c := Channel(0, [], [], true, false);
      && s3 == State([0, 1], [c, c], Sending(0, 1, 0, false), {})
      && Step(capacity, s3, Advance) == State([0, 1], [c.(buffer := [Some(0)]), c], Next(0, 1), {})
  {
    var c := Channel(0, [], [], true, false);
    var s2 := Step(capacity, Step(capacity, NOBODY, Join), Join);
    assert s2 == State([0, 1], [c, c], Next(0, 0), {});
    var s3 := Step(capacity, s2, Advance);
    assert s3 == State([0, 1], [c, c], Sending(0, 1, 0, false), {});
    assert s3.channels[0] == c && c.buffer + [Some(0)] == [Some(0)];
    assert [c, c][0 := c.(buffer := [Some(0)])] == [c.(buffer := [Some(0)]), c];
  }

  /** When the first then leaves, the second is passed over for good. */
  lemma LeavingCanPassOver(capacity: nat) returns (ss: seq<State>, es: seq<Event>)
    requires capacity > 0
    ensures Run(capacity, ss, es) && |ss| == 7
    ensures Subscribed(ss[6], 1) && ss[6].publisher == Next(1, 0) && |ss[6].channels| == 2
    ensures ss[6].channels[1] == Channel(0, [], [], true, false) && (1, 0) in ss[6].missed
  {
    es := [Join, Join, Advance, Advance, Leave(0), Advance];
    var s1 := Step(capacity, NOBODY, Join);
    var s2 := Step(capacity, s1, Join);
    var s3 := Step(capacity, s2, Advance);
    var s4 := Step(capacity, s3, Advance);
    var s5 := Step(capacity, s4, Leave(0));
    var s6 := Step(capacity, s5, Advance);
    ss := [NOBODY, s1, s2, s3, s4, s5, s6];
    TwoJoinAndOneReceives(capacity);
    assert s6.subscribers == [1];
  }
}
