/** Why a bus is closing, waiting, failed or cancelled, and how its tasks came to where they are: what has happened. */
module BusHistory {
  import opened BusDrain

  // ---- pulls ---------------------------------------------------------------------------------------

  ghost predicate Pulls(s: State, e: Event) {
    e.Pull? && s.listening > 0
  }

  /** A loop ends: its subscription does, or it has pulled a message while closing. */
  ghost predicate LoopEnds(s: State, e: Event) {
    s.listening > 0 && (e.Exhausted? || (e.Pull? && s.closing))
  }

  ghost function PullsIn(ss: seq<State>, es: seq<Event>, k: nat): nat
    requires |ss| == |es| + 1 && k <= |es|
  {
    if k == 0 then 0 else PullsIn(ss, es, k - 1) + if Pulls(ss[k - 1], es[k - 1]) then 1 else 0
  }

  ghost function LoopEndsIn(ss: seq<State>, es: seq<Event>, k: nat): nat
    requires |ss| == |es| + 1 && k <= |es|
  {
    if k == 0 then 0 else LoopEndsIn(ss, es, k - 1) + if LoopEnds(ss[k - 1], es[k - 1]) then 1 else 0
  }

  lemma CountsStep(s: State, e: Event)
    ensures |Step(s, e).tasks| == |s.tasks| + if Pulls(s, e) then 1 else 0
    ensures Step(s, e).listening == s.listening - if LoopEnds(s, e) then 1 else 0
  {
  }

  /** Every pull adds one message, and each of the n loops ends once. */
  lemma {:induction false} PulledIsCounted(n: nat, ss: seq<State>, es: seq<Event>, k: nat)
    requires Run(n, ss, es) && k <= |es|
    ensures |ss[k].tasks| == PullsIn(ss, es, k)
    ensures ss[k].listening == n - LoopEndsIn(ss, es, k)
  {
    if k > 0 {
      PulledIsCounted(n, ss, es, k - 1);
      assert StepAt(ss, es, k - 1);
      CountsStep(ss[k - 1], es[k - 1]);
    }
  }

  // ---- tasks ---------------------------------------------------------------------------------------

  /** The task of message m begins, by itself later than it is spawned. */
  ghost predicate Begins(s: State, e: Event, m: nat) {
    e == StartTask(m) && m < |s.tasks| && s.tasks[m] == Spawned
  }

  /** It was spawned and has not begun, or its message was refused by the loop. */
  ghost predicate Unbegun(t: Task) {
    t == Spawned || t == Refusing || t == Refused
  }

  ghost predicate CallbackEndsFor(s: State, e: Event, m: nat, t: Task) {
    (e == CallbackEnds(m, true) || e == CallbackEnds(m, false)) && m < |s.tasks| && s.tasks[m] == t
  }

  /** A cancellation reaches the task in its handler, or in a callback. */
  ghost predicate Cancels(s: State, e: Event, m: nat, inHandler: bool) {
    && e == Cancel(m) && s.cancelled && m < |s.tasks|
    && if inHandler then s.tasks[m] == Handling
       else s.tasks[m] == Acking || s.tasks[m] == Nacking || s.tasks[m] == Refusing
  }

  /** The event is for task m. */
  ghost predicate IsFor(e: Event, m: nat) {
    e == StartTask(m) || e == Returns(m) || e == Raises(m) || (e.CallbackEnds? && e.m == m) || e == Cancel(m)
  }

  lemma OthersStay(s: State, e: Event, m: nat)
    requires m < |s.tasks| && !IsFor(e, m)
    ensures m < |Step(s, e).tasks| && Step(s, e).tasks[m] == s.tasks[m]
  {
    match e
    case CallbackEnds(_, _) =>
    case Cancel(_) =>
    case _ =>
  }

  lemma AfterCallback(s: State, m: nat, ok: bool)
    requires m < |s.tasks|
    ensures m < |Step(s, CallbackEnds(m, ok)).tasks|
    ensures Step(s, CallbackEnds(m, ok)).tasks[m] ==
      (if s.tasks[m] == Acking then Acked
       else if s.tasks[m] == Nacking then Nacked
       else if s.tasks[m] == Refusing then Refused
       else s.tasks[m])
  {
  }

  lemma AfterCancel(s: State, m: nat)
    requires m < |s.tasks|
    ensures m < |Step(s, Cancel(m)).tasks|
    ensures Step(s, Cancel(m)).tasks[m] ==
      (if Cancels(s, Cancel(m), m, true) then Cut
       else if Cancels(s, Cancel(m), m, false) then CutSettled
       else s.tasks[m])
  {
  }

  lemma AfterHandler(s: State, e: Event, m: nat)
    requires m < |s.tasks| && (e == StartTask(m) || e == Returns(m) || e == Raises(m))
    ensures m < |Step(s, e).tasks|
    ensures Step(s, e).tasks[m] ==
      (if e == StartTask(m) && s.tasks[m] == Spawned then Handling
       else if e == Returns(m) && s.tasks[m] == Handling then Acking
       else if e == Raises(m) && s.tasks[m] == Handling then Nacking
       else s.tasks[m])
  {
  }

  /** What one event does to the task. */
  ghost predicate Goes(s: State, e: Event, m: nat, now: Task)
    requires m < |s.tasks|
  {
    var was := s.tasks[m];
    && (now == Acked <==> was == Acked || CallbackEndsFor(s, e, m, Acking))
    && (now == Nacked <==> was == Nacked || CallbackEndsFor(s, e, m, Nacking))
    && (now == Refused <==> was == Refused || CallbackEndsFor(s, e, m, Refusing))
    && (now == Cut <==> was == Cut || Cancels(s, e, m, true))
    && (now == CutSettled <==> was == CutSettled || Cancels(s, e, m, false))
    && (now == CutSettled || (!Unbegun(now) <==> !Unbegun(was) || Begins(s, e, m)))
  }

  lemma TaskGoes(s: State, e: Event, m: nat)
    requires m < |s.tasks|
    ensures m < |Step(s, e).tasks| && Goes(s, e, m, Step(s, e).tasks[m])
  {
    if !IsFor(e, m) {
      OthersStay(s, e, m);
    } else if e.CallbackEnds? {
      AfterCallback(s, m, e.ok);
    } else if e.Cancel? {
      AfterCancel(s, m);
    } else {
      AfterHandler(s, e, m);
    }
  }

  lemma NewTask(s: State, e: Event, m: nat)
    requires |s.tasks| <= m
    ensures m < |Step(s, e).tasks| ==> Step(s, e).tasks[m] == if s.closing then Refusing else Spawned
    ensures !Begins(s, e, m) && !Cancels(s, e, m, true) && !Cancels(s, e, m, false)
    ensures forall t :: !CallbackEndsFor(s, e, m, t)
  {
  }

  /** How the task of message m came to its end, if it has: in terms of the events up to k. */
  ghost predicate EndedBy(ss: seq<State>, es: seq<Event>, m: nat, k: nat, t: Task)
    requires |ss| == |es| + 1 && k <= |es|
  {
    && (t == Acked <==> exists j: nat :: j < k && CallbackEndsFor(ss[j], es[j], m, Acking))
    && (t == Nacked <==> exists j: nat :: j < k && CallbackEndsFor(ss[j], es[j], m, Nacking))
    && (t == Refused <==> exists j: nat :: j < k && CallbackEndsFor(ss[j], es[j], m, Refusing))
    && (t == Cut <==> exists j: nat :: j < k && Cancels(ss[j], es[j], m, true))
    && (t == CutSettled <==> exists j: nat :: j < k && Cancels(ss[j], es[j], m, false))
  }

  lemma {:induction false} NothingBefore(n: nat, ss: seq<State>, es: seq<Event>, m: nat, k: nat)
    requires Run(n, ss, es) && k <= |es| && |ss[k].tasks| <= m
    ensures forall j: nat :: j < k ==>
      && !Begins(ss[j], es[j], m) && !Cancels(ss[j], es[j], m, true) && !Cancels(ss[j], es[j], m, false)
      && forall t :: !CallbackEndsFor(ss[j], es[j], m, t)
  {
    if k > 0 {
      assert StepAt(ss, es, k - 1);
      CountsStep(ss[k - 1], es[k - 1]);
      NothingBefore(n, ss, es, m, k - 1);
      NewTask(ss[k - 1], es[k - 1], m);
    }
  }

  lemma EndedOnce(ss: seq<State>, es: seq<Event>, m: nat, k: nat)
    requires |ss| == |es| + 1 && 0 < k <= |es| && m < |ss[k - 1].tasks| && m < |ss[k].tasks|
    requires EndedBy(ss, es, m, k - 1, ss[k - 1].tasks[m]) && Goes(ss[k - 1], es[k - 1], m, ss[k].tasks[m])
    ensures EndedBy(ss, es, m, k, ss[k].tasks[m])
  {
  }

  /**
   In every reachable state a message is acked, nacked or refused with its callback through exactly if that
   callback has ended, and its task was cut off, in the handler or in the callback, exactly if a cancellation
   has reached it there.
   */
  lemma {:induction false} HowTasksEnd(n: nat, ss: seq<State>, es: seq<Event>, m: nat, k: nat)
    requires Run(n, ss, es) && k <= |es| && m < |ss[k].tasks|
    ensures EndedBy(ss, es, m, k, ss[k].tasks[m])
  {
    if k > 0 {
      assert StepAt(ss, es, k - 1);
      if m < |ss[k - 1].tasks| {
        HowTasksEnd(n, ss, es, m, k - 1);
        TaskGoes(ss[k - 1], es[k - 1], m);
        EndedOnce(ss, es, m, k);
      } else {
        NothingBefore(n, ss, es, m, k - 1);
        NewTask(ss[k - 1], es[k - 1], m);
      }
    }
  }

  /** A task has begun exactly if it was started; a message pulled while closing never gets one. */
  lemma {:induction false} BegunIff(n: nat, ss: seq<State>, es: seq<Event>, m: nat, k: nat)
    requires Run(n, ss, es) && k <= |es| && m < |ss[k].tasks| && ss[k].tasks[m] != CutSettled
    ensures !Unbegun(ss[k].tasks[m]) <==> exists j: nat :: j < k && Begins(ss[j], es[j], m)
  {
    if k > 0 {
      assert StepAt(ss, es, k - 1);
      if m < |ss[k - 1].tasks| {
        TaskGoes(ss[k - 1], es[k - 1], m);
        BegunIff(n, ss, es, m, k - 1);
      } else {
        NothingBefore(n, ss, es, m, k - 1);
        NewTask(ss[k - 1], es[k - 1], m);
      }
    }
  }

  // ---- in flight -----------------------------------------------------------------------------------

  /** The tasks in their handler or in the callback of their message. */
  ghost function InProgress(tasks: seq<Task>, n: nat): nat
    requires n <= |tasks|
  {
    if n == 0 then 0
    else
      InProgress(tasks, n - 1) +
      if tasks[n - 1] == Handling || tasks[n - 1] == Acking || tasks[n - 1] == Nacking then 1 else 0
  }

  lemma {:induction false} InProgressIsCounted(tasks: seq<Task>, n: nat)
    requires n <= |tasks|
    ensures InProgress(tasks, n) == Counted(tasks, n)
  {
    if n > 0 { InProgressIsCounted(tasks, n - 1); }
  }

  /** `in_flight` is the number of tasks that have begun and are not over. */
  lemma InFlightIsExact(n: nat, ss: seq<State>, es: seq<Event>, k: nat)
    requires Run(n, ss, es) && k <= |es|
    ensures ss[k].inFlight == InProgress(ss[k].tasks, |ss[k].tasks|)
  {
    Reachable(n, ss, es, k);
    InProgressIsCounted(ss[k].tasks, |ss[k].tasks|);
  }

  // ---- closing -------------------------------------------------------------------------------------

  /** It ends a wait for messages in flight, if there is one: none is left, or the time is up. */
  ghost predicate EndsWait(s: State, e: Event) {
    e.TimesOut? || (e.Drained? && s.inFlight == 0)
  }

  /** A close() has been called, and nothing has ended its wait since. */
  ghost predicate Waits(ss: seq<State>, es: seq<Event>, k: nat)
    requires |ss| == |es| + 1 && k <= |es|
  {
    exists c: nat :: c < k && es[c].Close? && forall j: nat :: c < j < k ==> !EndsWait(ss[j], es[j])
  }

  lemma WaitsStep(ss: seq<State>, es: seq<Event>, k: nat)
    requires |ss| == |es| + 1 && 0 < k <= |es|
    ensures Waits(ss, es, k) <==> es[k - 1].Close? || (Waits(ss, es, k - 1) && !EndsWait(ss[k - 1], es[k - 1]))
  {
    if Waits(ss, es, k) {
      var c: nat :| c < k && es[c].Close? && forall j: nat :: c < j < k ==> !EndsWait(ss[j], es[j]);
    }
  }

  lemma {:induction false} ClosingIff(n: nat, ss: seq<State>, es: seq<Event>, k: nat)
    requires Run(n, ss, es) && k <= |es|
    ensures ss[k].closing <==> exists j: nat :: j < k && es[j].Close?
  {
    if k > 0 {
      ClosingIff(n, ss, es, k - 1);
      assert StepAt(ss, es, k - 1);
    }
  }

  lemma DrainingStep(s: State, e: Event)
    requires s.inFlight >= 0
    ensures Step(s, e).draining <==> e.Close? || (s.draining && !EndsWait(s, e))
    ensures Step(s, e).cancelled <==> s.cancelled || (s.draining && EndsWait(s, e)) || (e.FailureSpreads? && s.failed)
  {
  }

  /** close() waits exactly while it has been called and nothing has ended its wait. */
  lemma {:induction false} DrainingIff(n: nat, ss: seq<State>, es: seq<Event>, k: nat)
    requires Run(n, ss, es) && k <= |es|
    ensures ss[k].draining <==> Waits(ss, es, k)
  {
    if k > 0 {
      DrainingIff(n, ss, es, k - 1);
      Reachable(n, ss, es, k - 1);
      WaitsStep(ss, es, k);
      assert StepAt(ss, es, k - 1);
      DrainingStep(ss[k - 1], es[k - 1]);
    }
  }

  /** The event cancels everything: it ends a wait, or an exception spreads. */
  ghost predicate CancelsAll(ss: seq<State>, es: seq<Event>, j: nat)
    requires |ss| == |es| + 1 && j < |es|
  {
    (Waits(ss, es, j) && EndsWait(ss[j], es[j])) || (es[j].FailureSpreads? && ss[j].failed)
  }

  lemma CancelsAt(n: nat, ss: seq<State>, es: seq<Event>, j: nat)
    requires Run(n, ss, es) && j < |es|
    ensures ss[j + 1].cancelled <==> ss[j].cancelled || CancelsAll(ss, es, j)
  {
    DrainingIff(n, ss, es, j);
    Reachable(n, ss, es, j);
    assert StepAt(ss, es, j);
    DrainingStep(ss[j], es[j]);
  }

  /** A bus is cancelled exactly if the wait of close() has ended or an exception has spread. */
  lemma {:induction false} CancelledIff(n: nat, ss: seq<State>, es: seq<Event>, k: nat)
    requires Run(n, ss, es) && k <= |es|
    ensures ss[k].cancelled <==> exists j: nat :: j < k && CancelsAll(ss, es, j)
  {
    if k > 0 {
      CancelledIff(n, ss, es, k - 1);
      CancelsAt(n, ss, es, k - 1);
    }
  }

  /** The event ends the callback of a nack after the handler raised, or a callback with an exception. */
  ghost predicate FailsWith(s: State, e: Event) {
    && e.CallbackEnds? && e.m < |s.tasks|
    && (s.tasks[e.m] == Nacking || ((s.tasks[e.m] == Acking || s.tasks[e.m] == Refusing) && !e.ok))
  }

  lemma FailedStep(s: State, e: Event)
    ensures Step(s, e).failed <==> s.failed || FailsWith(s, e)
  {
  }

  /** A bus has raised exactly if a handler or a callback has. */
  lemma {:induction false} FailedIff(n: nat, ss: seq<State>, es: seq<Event>, k: nat)
    requires Run(n, ss, es) && k <= |es|
    ensures ss[k].failed <==> exists j: nat :: j < k && FailsWith(ss[j], es[j])
  {
    if k > 0 {
      FailedIff(n, ss, es, k - 1);
      assert StepAt(ss, es, k - 1);
      FailedStep(ss[k - 1], es[k - 1]);
    }
  }
}
