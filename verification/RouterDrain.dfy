/**
 The handler loops of one `Router.run` and a concurrent `close`, as a state machine. Everything a
 task does between two awaits is one event.
 */
module RouterDrain {
  import Messages

  /** Where a handler loop is suspended. */
  datatype Loop =
    | Waiting            // for the next message of its subscription
    | Handling(m: nat)   // in the wrapped handler
    | Acking(m: nat)     // in the callback of ack()
    | Publishing(m: nat) // in publish() of the handler's output
    | Nacking(m: nat)    // in the callback of nack(), after the handler raised
    | Refusing(m: nat)   // in the callback of nack(), for a message pulled while closing
    | Ended              // returned, or cancelled outside the handler
    | Cut(m: nat)        // cancelled inside the handler
    | Failed             // raised
  {
    /** The loop has incremented `_in_flight` and not yet decremented it. */
    predicate Counted() { Handling? || Acking? || Publishing? || Nacking? }

    predicate Over() { Ended? || Cut? || Failed? }

    /** The message that the loop is responsible for, or -1. */
    function Mine(): int {
      if Counted() || Refusing? || Cut? then m else -1
    }
  }

  datatype Callback = Due | Ran | Raised

  datatype Pulled = Pulled(flags: Messages.Settlement, callback: Callback)

  datatype Closer = Idle | Draining | Done

  datatype State = State(
    loops: seq<Loop>,
    pulled: seq<Pulled>,
    inFlight: int,
    closing: bool,
    closer: Closer,
    cancelled: bool)

  datatype Event =
    | Pull(i: nat)                  // a message arrives
    | Exhausted(i: nat)             // the subscription ends
    | Returns(i: nat)               // the handler returns, ack() is called
    | Raises(i: nat)                // the handler raises, nack() is called
    | CallbackEnds(i: nat, ok: bool)
    | PublishEnds(i: nat, ok: bool) // also when there is nothing to publish
    | Close                         // close() sets the flag and starts to wait
    | Drained                       // close() finds nothing in flight and cancels
    | TimesOut                      // close() stops waiting and cancels
    | FailureSpreads                // the task group cancels after a loop raised
    | Cancel(i: nat)                // the cancellation reaches a loop

  ghost function Start(n: nat): State {
    State(seq(n, _ => Waiting), [], 0, false, Idle, false)
  }

  ghost function To(s: State, i: nat, l: Loop): State
    requires i < |s.loops|
  {
    s.(loops := s.loops[i := l])
  }

  ghost function Mark(s: State, m: nat, p: Pulled): State
    requires m < |s.pulled|
  {
    s.(pulled := s.pulled[m := p])
  }

  /** Every loop holds a message that was pulled. */
  ghost predicate InRange(s: State) {
    forall i :: 0 <= i < |s.loops| ==> s.loops[i].Mine() < |s.pulled|
  }

  ghost function Step(s: State, e: Event): State
    requires InRange(s)
  {
    match e
    case Pull(i) =>
      if !(i < |s.loops| && s.loops[i].Waiting?) then s
      else
        var m := |s.pulled|;
        if s.closing then
          To(s, i, Refusing(m)).(pulled := s.pulled + [Pulled(Messages.Nack(Messages.UNSETTLED).0, Due)])
        else
          To(s, i, Handling(m)).(pulled := s.pulled + [Pulled(Messages.UNSETTLED, Due)], inFlight := s.inFlight + 1)
    case Exhausted(i) =>
      if i < |s.loops| && s.loops[i].Waiting? then To(s, i, Ended) else s
    case Returns(i) =>
      if !(i < |s.loops| && s.loops[i].Handling?) then s
      else
        var m := s.loops[i].m;
        Mark(To(s, i, Acking(m)), m, s.pulled[m].(flags := Messages.Ack(s.pulled[m].flags).0))
    case Raises(i) =>
      if !(i < |s.loops| && s.loops[i].Handling?) then s
      else
        var m := s.loops[i].m;
        Mark(To(s, i, Nacking(m)), m, s.pulled[m].(flags := Messages.Nack(s.pulled[m].flags).0))
    case CallbackEnds(i, ok) =>
      if !(i < |s.loops| && (s.loops[i].Acking? || s.loops[i].Nacking? || s.loops[i].Refusing?)) then s
      else
        var m := s.loops[i].m;
        var t := Mark(s, m, s.pulled[m].(callback := if ok then Ran else Raised));
        if s.loops[i].Refusing? then To(t, i, if ok then Ended else Failed)
        else if s.loops[i].Acking? && ok then To(t, i, Publishing(m))
        // a failed ack callback runs into nack(), which raises because the message is acked
        else To(t, i, Failed).(inFlight := s.inFlight - 1)
    case PublishEnds(i, ok) =>
      if i < |s.loops| && s.loops[i].Publishing?
      then To(s, i, if ok then Waiting else Failed).(inFlight := s.inFlight - 1)
      else s
    case Close =>
      s.(closing := true, closer := Draining)
    case Drained =>
      if s.closer == Draining && s.inFlight <= 0 then s.(closer := Done, cancelled := true) else s
    case TimesOut =>
      if s.closer == Draining then s.(closer := Done, cancelled := true) else s
    case FailureSpreads =>
      if exists i :: 0 <= i < |s.loops| && s.loops[i].Failed? then s.(cancelled := true) else s
    case Cancel(i) =>
      if !(s.cancelled && i < |s.loops| && !s.loops[i].Over()) then s
      else
        To(s, i, if s.loops[i].Handling? then Cut(s.loops[i].m) else Ended)
          .(inFlight := s.inFlight - if s.loops[i].Counted() then 1 else 0)
  }

  // ---- invariants --------------------------------------------------------------------------------

  ghost function CountedLoops(loops: seq<Loop>, n: nat): nat
    requires n <= |loops|
  {
    if n == 0 then 0 else CountedLoops(loops, n - 1) + if loops[n - 1].Counted() then 1 else 0
  }

  lemma {:induction false} CountOfUpdate(loops: seq<Loop>, i: nat, l: Loop, n: nat)
    requires i < |loops| && n <= |loops|
    ensures CountedLoops(loops[i := l], n) == CountedLoops(loops, n) +
            if i < n then (if l.Counted() then 1 else 0) - (if loops[i].Counted() then 1 else 0) else 0
  {
    if n > 0 { CountOfUpdate(loops, i, l, n - 1); }
  }

  /** What the flags and the callback of a message say about the loop that holds it. */
  ghost predicate Fits(l: Loop, p: Pulled) {
    match l
    case Handling(_) => p == Pulled(Messages.UNSETTLED, Due)
    case Cut(_) => p == Pulled(Messages.UNSETTLED, Due)
    case Acking(_) => p == Pulled(Messages.ACKED, Due)
    case Publishing(_) => p == Pulled(Messages.ACKED, Ran)
    case Nacking(_) => p == Pulled(Messages.NACKED, Due)
    case Refusing(_) => p == Pulled(Messages.NACKED, Due)
    case _ => true
  }

  ghost predicate Held(s: State, m: nat) {
    exists i :: 0 <= i < |s.loops| && s.loops[i].Mine() == m
  }

  ghost predicate CountsRight(s: State) {
    s.inFlight == CountedLoops(s.loops, |s.loops|)
  }

  /** A loop agrees with its message, and no other loop holds it. */
  ghost predicate HoldersFit(s: State) {
    && InRange(s)
    && (forall i :: 0 <= i < |s.loops| && s.loops[i].Mine() >= 0 ==> Fits(s.loops[i], s.pulled[s.loops[i].Mine()]))
    && (forall i, j :: 0 <= i < j < |s.loops| && s.loops[i].Mine() >= 0 ==> s.loops[i].Mine() != s.loops[j].Mine())
    && (forall i :: 0 <= i < |s.loops| && s.loops[i].Cut? ==> s.cancelled)
  }

  /** A message that is not settled has a loop, and until a cancellation so has one with a callback to run. */
  ghost predicate NoneLost(s: State) {
    && (forall m: nat :: m < |s.pulled| && !s.pulled[m].flags.Settled() ==> Held(s, m))
    && (forall m: nat :: m < |s.pulled| && s.pulled[m].callback.Due? && !s.cancelled ==> Held(s, m))
  }

  lemma CountsRightKept(s: State, e: Event)
    requires InRange(s) && CountsRight(s)
    ensures CountsRight(Step(s, e))
  {
    var t := Step(s, e);
    if !e.Close? && !e.Drained? && !e.TimesOut? && !e.FailureSpreads? && t != s {
      CountOfUpdate(s.loops, e.i, t.loops[e.i], |s.loops|);
    }
  }

  /** One loop moves on, and touches no message but its own or a new one. */
  ghost predicate Moves(s: State, t: State, i: nat) {
    && i < |s.loops| == |t.loops| && t.loops == s.loops[i := t.loops[i]]
    && |s.pulled| <= |t.pulled|
    && t.cancelled == s.cancelled
    && (forall m :: 0 <= m < |s.pulled| && m != s.loops[i].Mine() ==> t.pulled[m] == s.pulled[m])
    && TakesUp(s, t, i)
    && LeavesSettled(s, t, i)
  }

  /** The loop keeps its message, takes the one new message, or ends up with none. */
  ghost predicate TakesUp(s: State, t: State, i: nat)
    requires i < |s.loops| && i < |t.loops|
  {
    var mine := t.loops[i].Mine();
    && (if |t.pulled| == |s.pulled| then mine == -1 || mine == s.loops[i].Mine()
        else |t.pulled| == |s.pulled| + 1 && mine == |s.pulled|)
    && (0 <= mine < |t.pulled| ==> Fits(t.loops[i], t.pulled[mine]))
    && (t.loops[i].Cut? ==> t.cancelled)
  }

  /** A message that the loop leaves behind is settled, and its callback has run unless it was cancelled. */
  ghost predicate LeavesSettled(s: State, t: State, i: nat)
    requires i < |s.loops| && i < |t.loops|
  {
    var left := s.loops[i].Mine();
    0 <= left < |t.pulled| && t.loops[i].Mine() != left ==>
      t.pulled[left].flags.Settled() && (t.pulled[left].callback.Due? ==> t.cancelled)
  }

  ghost predicate Signals(s: State, t: State) {
    t.loops == s.loops && t.pulled == s.pulled && (s.cancelled ==> t.cancelled)
  }

  lemma CallbacksMove(s: State, i: nat, ok: bool)
    requires HoldersFit(s)
    ensures var t := Step(s, CallbackEnds(i, ok)); Signals(s, t) || Moves(s, t, i)
  {
  }

  lemma CancelsMove(s: State, i: nat)
    requires HoldersFit(s)
    ensures var t := Step(s, Cancel(i)); Signals(s, t) || Moves(s, t, i)
  {
  }

  lemma PullsMove(s: State, i: nat)
    requires HoldersFit(s)
    ensures var t := Step(s, Pull(i)); Signals(s, t) || Moves(s, t, i)
  {
  }

  lemma HandlersMove(s: State, e: Event, i: nat)
    requires HoldersFit(s) && (e == Returns(i) || e == Raises(i))
    ensures var t := Step(s, e); Signals(s, t) || Moves(s, t, i)
  {
  }

  lemma EndsMove(s: State, e: Event, i: nat)
    requires HoldersFit(s) && (e == PublishEnds(i, true) || e == PublishEnds(i, false) || e == Exhausted(i))
    ensures var t := Step(s, e); Signals(s, t) || Moves(s, t, i)
  {
  }

  lemma StepsMove(s: State, e: Event)
    requires HoldersFit(s)
    ensures Signals(s, Step(s, e)) || exists i :: Moves(s, Step(s, e), i)
  {
    var t := Step(s, e);
    match e
    case CallbackEnds(i, ok) => CallbacksMove(s, i, ok);
    case Cancel(i) => CancelsMove(s, i);
    case Pull(i) => PullsMove(s, i);
    case Returns(i) => HandlersMove(s, e, i);
    case Raises(i) => HandlersMove(s, e, i);
    case PublishEnds(i, _) => EndsMove(s, e, i);
    case Exhausted(i) => EndsMove(s, e, i);
    case _ =>
  }

  lemma MovesKeepFit(s: State, t: State, i: nat)
    requires HoldersFit(s) && Moves(s, t, i)
    ensures HoldersFit(t)
  {
  }

  lemma MovesLoseNone(s: State, t: State, i: nat)
    requires HoldersFit(s) && NoneLost(s) && Moves(s, t, i)
    ensures NoneLost(t)
  {
    forall m: nat | m < |t.pulled| && (!t.pulled[m].flags.Settled() || (t.pulled[m].callback.Due? && !t.cancelled))
      ensures Held(t, m)
    {
      if m == t.loops[i].Mine() {
      } else if m < |s.pulled| && m != s.loops[i].Mine() {
        assert Held(s, m);
        var j :| 0 <= j < |s.loops| && s.loops[j].Mine() == m;
        assert t.loops[j].Mine() == m;
      }
    }
  }

  lemma SignalsKeep(s: State, t: State)
    requires HoldersFit(s) && NoneLost(s) && Signals(s, t)
    ensures HoldersFit(t) && NoneLost(t)
  {
  }

  ghost predicate Sound(s: State) {
    HoldersFit(s) && NoneLost(s) && CountsRight(s)
  }

  lemma SoundKept(s: State, e: Event)
    requires Sound(s)
    ensures Sound(Step(s, e)) && |Step(s, e).loops| == |s.loops|
  {
    var t := Step(s, e);
    StepsMove(s, e);
    CountsRightKept(s, e);
    if Signals(s, t) {
      SignalsKeep(s, t);
    } else {
      var i: nat :| Moves(s, t, i);
      MovesKeepFit(s, t, i);
      MovesLoseNone(s, t, i);
    }
  }

  // ---- runs --------------------------------------------------------------------------------------

  ghost predicate StepAt(ss: seq<State>, es: seq<Event>, k: nat)
    requires k < |es| && |ss| == |es| + 1
  {
    InRange(ss[k]) && ss[k + 1] == Step(ss[k], es[k])
  }

  /** The events of one `run` with n handlers. */
  ghost predicate Run(n: nat, ss: seq<State>, es: seq<Event>) {
    && |ss| == |es| + 1
    && ss[0] == Start(n)
    && forall k :: 0 <= k < |es| ==> StepAt(ss, es, k)
  }

  lemma {:induction false} NoneCountedAtStart(loops: seq<Loop>, n: nat)
    requires n <= |loops| && forall i :: 0 <= i < n ==> !loops[i].Counted()
    ensures CountedLoops(loops, n) == 0
  {
    if n > 0 { NoneCountedAtStart(loops, n - 1); }
  }

  lemma SoundAtStart(n: nat)
    ensures Sound(Start(n)) && |Start(n).loops| == n
  {
    NoneCountedAtStart(Start(n).loops, n);
  }

  lemma {:induction false} Reachable(n: nat, ss: seq<State>, es: seq<Event>, k: nat)
    requires Run(n, ss, es) && k <= |es|
    ensures Sound(ss[k]) && |ss[k].loops| == n
  {
    if k == 0 {
      SoundAtStart(n);
    } else {
      Reachable(n, ss, es, k - 1);
      assert StepAt(ss, es, k - 1);
      SoundKept(ss[k - 1], es[k - 1]);
    }
  }

  // ---- the theorems ------------------------------------------------------------------------------

  /** `in_flight` is the number of messages being processed, and 0 when the run is over. */
  lemma InFlightIsExact(n: nat, ss: seq<State>, es: seq<Event>, k: nat)
    requires Run(n, ss, es) && k <= |es|
    ensures |ss[k].loops| == n && ss[k].inFlight == CountedLoops(ss[k].loops, n)
    ensures (forall i :: 0 <= i < n ==> ss[k].loops[i].Over()) ==> ss[k].inFlight == 0
  {
    Reachable(n, ss, es, k);
    if forall i :: 0 <= i < n ==> ss[k].loops[i].Over() { NoneCountedAtStart(ss[k].loops, n); }
  }

  /** Once the router is closing, `in_flight` never rises again. */
  lemma {:induction false} NeverRisesWhileClosing(n: nat, ss: seq<State>, es: seq<Event>, i: nat, k: nat)
    requires Run(n, ss, es) && i <= k <= |es| && ss[i].closing
    ensures ss[k].closing && ss[k].inFlight <= ss[i].inFlight
  {
    if i < k {
      NeverRisesWhileClosing(n, ss, es, i, k - 1);
      assert StepAt(ss, es, k - 1);
    }
  }

  /** Event k ends the wait of close(). */
  ghost predicate WaitEnds(ss: seq<State>, k: nat) {
    k + 1 < |ss| && ss[k].closer == Draining && ss[k + 1].closer == Done
  }

  ghost predicate SomeFailed(s: State) {
    exists i :: 0 <= i < |s.loops| && s.loops[i].Failed?
  }

  /**
   When the wait of `close` ends without timeout, and nothing was cancelled before, nothing is in flight, and
   every message that was pulled is acked or nacked; the only callbacks still to run are those of messages
   refused because of the closing.
   */
  lemma DrainSettlesAll(n: nat, ss: seq<State>, es: seq<Event>, k: nat)
    requires Run(n, ss, es) && k < |es|
    requires es[k] == Drained && WaitEnds(ss, k) && !ss[k].cancelled
    ensures |ss[k].loops| == n && ss[k].inFlight == 0
    ensures forall m: nat :: m < |ss[k].pulled| ==>
      && ss[k].pulled[m].flags.Settled()
      && (ss[k].pulled[m].callback.Due? ==> exists i :: 0 <= i < n && ss[k].loops[i] == Refusing(m))
  {
    var s := ss[k];
    Reachable(n, ss, es, k);
    assert StepAt(ss, es, k);
    forall m: nat | m < |s.pulled| && (!s.pulled[m].flags.Settled() || s.pulled[m].callback.Due?)
      ensures s.pulled[m].flags.Settled() && exists i :: 0 <= i < n && s.loops[i] == Refusing(m)
    {
      assert Held(s, m);
      var i :| 0 <= i < |s.loops| && s.loops[i].Mine() == m;
      if s.loops[i].Counted() { CountedAtLeast(s.loops, i, n); }
      assert s.loops[i] == Refusing(m);
    }
  }

  lemma {:induction false} CountedAtLeast(loops: seq<Loop>, i: nat, n: nat)
    requires i < n <= |loops| && loops[i].Counted()
    ensures CountedLoops(loops, n) > 0
  {
    if i < n - 1 { CountedAtLeast(loops, i, n - 1); }
  }

  ghost function Unsettled(s: State): set<nat> {
    set m: nat | m < |s.pulled| && !s.pulled[m].flags.Settled()
  }

  /** The messages that the first n loops hold. */
  ghost function HeldBy(loops: seq<Loop>, n: nat): (ms: set<nat>)
    requires n <= |loops|
    ensures |ms| <= n
    ensures forall i :: 0 <= i < n && loops[i].Mine() >= 0 ==> loops[i].Mine() in ms
  {
    if n == 0 then {}
    else if loops[n - 1].Mine() < 0 then HeldBy(loops, n - 1)
    else HeldBy(loops, n - 1) + {loops[n - 1].Mine()}
  }

  /** At every moment, and so also after a timeout, at most one message per loop is unsettled. */
  lemma AtMostOnePerLoop(n: nat, ss: seq<State>, es: seq<Event>, k: nat)
    requires Run(n, ss, es) && k <= |es|
    ensures |Unsettled(ss[k])| <= n
  {
    Reachable(n, ss, es, k);
    var held := HeldBy(ss[k].loops, n);
    forall m | m in Unsettled(ss[k]) ensures m in held {
      assert Held(ss[k], m);
    }
    assert held == Unsettled(ss[k]) + (held - Unsettled(ss[k]));
  }

  // ---- after a nack ---------------------------------------------------------------------------------

  /** The loop has nacked its message, or is over. */
  ghost predicate Through(l: Loop) {
    l.Nacking? || l.Refusing? || l.Over()
  }

  lemma ThroughKept(s: State, e: Event, i: nat)
    requires InRange(s) && i < |s.loops| == |Step(s, e).loops| && Through(s.loops[i])
    ensures var l, m := s.loops[i], Step(s, e).loops[i];
      && Through(m)
      && (m != l ==> m.Over())
      && (m.Ended? ==> l.Ended? || l.Refusing? || s.cancelled)
      && (s.cancelled ==> Step(s, e).cancelled)
  {
  }

  /** A loop that has nacked a message pulls no other one. */
  lemma {:induction false} NoPullAfterNack(n: nat, ss: seq<State>, es: seq<Event>, l: nat, i: nat, k: nat)
    requires Run(n, ss, es) && i <= k <= |es| && l < n && l < |ss[i].loops| && Through(ss[i].loops[l])
    ensures l < |ss[k].loops| && Through(ss[k].loops[l])
    ensures k < |es| && es[k] == Pull(l) ==> ss[k + 1] == ss[k]
  {
    Reachable(n, ss, es, k);
    if i < k {
      NoPullAfterNack(n, ss, es, l, i, k - 1);
      Reachable(n, ss, es, k - 1);
      assert StepAt(ss, es, k - 1);
      ThroughKept(ss[k - 1], es[k - 1], l);
    }
    if k < |es| { assert StepAt(ss, es, k); }
  }

  lemma RaisesAt(n: nat, ss: seq<State>, es: seq<Event>, l: nat, i: nat)
    requires Run(n, ss, es) && i < |es| && es[i] == Raises(l) && l < |ss[i].loops| && ss[i].loops[l].Handling?
    ensures l < |ss[i + 1].loops| && ss[i + 1].loops[l].Nacking?
  {
    assert StepAt(ss, es, i);
  }

  /** A handler that raises makes its loop raise as well, unless that is cancelled first. */
  lemma {:induction false} RaisingFails(n: nat, ss: seq<State>, es: seq<Event>, l: nat, i: nat, k: nat)
    requires Run(n, ss, es) && i < k <= |es| && es[i] == Raises(l) && l < |ss[i].loops| && ss[i].loops[l].Handling?
    ensures l < |ss[k].loops|
    ensures ss[k].loops[l].Nacking? || ss[k].loops[l].Failed? || (ss[k].loops[l].Ended? && ss[k].cancelled)
  {
    RaisesAt(n, ss, es, l, i);
    if i + 1 < k {
      RaisingFails(n, ss, es, l, i, k - 1);
      Reachable(n, ss, es, k - 1);
      Reachable(n, ss, es, k);
      assert StepAt(ss, es, k - 1);
      NackingStep(ss[k - 1], es[k - 1], l);
    }
  }

  lemma NackingStep(s: State, e: Event, i: nat)
    requires InRange(s) && i < |s.loops| == |Step(s, e).loops|
    requires s.loops[i].Nacking? || s.loops[i].Failed? || (s.loops[i].Ended? && s.cancelled)
    ensures var m := Step(s, e).loops[i]; m.Nacking? || m.Failed? || (m.Ended? && Step(s, e).cancelled)
  {
  }

  /** How many of the first n loops can still pull a message. */
  ghost function Pulling(loops: seq<Loop>, n: nat): (p: nat)
    requires n <= |loops|
    ensures p <= n
  {
    if n == 0 then 0 else Pulling(loops, n - 1) + if Through(loops[n - 1]) then 0 else 1
  }

  lemma {:induction false} PullingUpdate(loops: seq<Loop>, i: nat, l: Loop, n: nat)
    requires i < |loops| && n <= |loops|
    ensures Pulling(loops[i := l], n) == Pulling(loops, n) +
            if i < n then (if Through(l) then 0 else 1) - (if Through(loops[i]) then 0 else 1) else 0
  {
    if n > 0 { PullingUpdate(loops, i, l, n - 1); }
  }

  /** Closing, a pull uses up its loop. */
  lemma PullsUsedUp(s: State, e: Event)
    requires InRange(s) && s.closing && |Step(s, e).loops| == |s.loops|
    ensures var t := Step(s, e); |t.pulled| + Pulling(t.loops, |t.loops|) <= |s.pulled| + Pulling(s.loops, |s.loops|)
    ensures Step(s, e).closing
  {
    var t := Step(s, e);
    if !e.Close? && !e.Drained? && !e.TimesOut? && !e.FailureSpreads? && t != s {
      PullingUpdate(s.loops, e.i, t.loops[e.i], |s.loops|);
    }
  }

  lemma {:induction false} PullsLeft(n: nat, ss: seq<State>, es: seq<Event>, i: nat, k: nat)
    requires Run(n, ss, es) && i <= k <= |es| && ss[i].closing && |ss[i].loops| == n
    ensures |ss[k].loops| == n && ss[k].closing
    ensures |ss[k].pulled| + Pulling(ss[k].loops, n) <= |ss[i].pulled| + Pulling(ss[i].loops, n)
  {
    if i < k {
      PullsLeft(n, ss, es, i, k - 1);
      Reachable(n, ss, es, k - 1);
      Reachable(n, ss, es, k);
      assert StepAt(ss, es, k - 1);
      PullsUsedUp(ss[k - 1], es[k - 1]);
    }
  }

  /** Once the router is closing, each loop pulls at most one more message, n of them in all. */
  lemma FewPulledWhileClosing(n: nat, ss: seq<State>, es: seq<Event>, i: nat, k: nat)
    requires Run(n, ss, es) && i <= k <= |es| && ss[i].closing
    ensures |ss[k].pulled| <= |ss[i].pulled| + n
  {
    Reachable(n, ss, es, i);
    PullsLeft(n, ss, es, i, k);
  }

  // ---- each message by its handler --------------------------------------------------------------------

  lemma SettledStaysAt(n: nat, ss: seq<State>, es: seq<Event>, m: nat, k: nat)
    requires Run(n, ss, es) && k < |es| && m < |ss[k].pulled| && ss[k].pulled[m].flags.Settled()
    ensures m < |ss[k + 1].pulled| && ss[k + 1].pulled[m].flags == ss[k].pulled[m].flags
  {
    assert StepAt(ss, es, k);
  }

  lemma {:induction false} SettledStays(n: nat, ss: seq<State>, es: seq<Event>, m: nat, i: nat, k: nat)
    requires Run(n, ss, es) && i <= k <= |es| && m < |ss[i].pulled| && ss[i].pulled[m].flags.Settled()
    ensures m < |ss[k].pulled| && ss[k].pulled[m].flags == ss[i].pulled[m].flags
  {
    if i < k {
      SettledStays(n, ss, es, m, i, k - 1);
      SettledStaysAt(n, ss, es, m, k - 1);
    }
  }

  lemma SettlesAt(n: nat, ss: seq<State>, es: seq<Event>, l: nat, m: nat, i: nat)
    requires Run(n, ss, es) && i < |es| && l < |ss[i].loops| && ss[i].loops[l] == Handling(m)
    requires es[i] == Returns(l) || es[i] == Raises(l)
    ensures m < |ss[i + 1].pulled|
    ensures ss[i + 1].pulled[m].flags == if es[i].Returns? then Messages.ACKED else Messages.NACKED
  {
    Reachable(n, ss, es, i);
    assert StepAt(ss, es, i);
  }

  /** For good, the message is acked if its handler has returned, and nacked if it has raised. */
  lemma SettledAsHandled(n: nat, ss: seq<State>, es: seq<Event>, l: nat, m: nat, i: nat, k: nat)
    requires Run(n, ss, es) && i < k <= |es| && l < |ss[i].loops| && ss[i].loops[l] == Handling(m)
    requires es[i] == Returns(l) || es[i] == Raises(l)
    ensures m < |ss[k].pulled|
    ensures ss[k].pulled[m].flags == if es[i].Returns? then Messages.ACKED else Messages.NACKED
  {
    SettlesAt(n, ss, es, l, m, i);
    SettledStays(n, ss, es, m, i + 1, k);
  }
}
