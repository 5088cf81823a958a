/**
 The command and event bus: like the router, but every pulled message gets a task of its own, which
 starts later than it is spawned. `_in_flight` counts only started tasks.
 */
module BusDrain {

  /** The life of one pulled message and its task. */
  datatype Task =
    | Spawned                     // start_soon() was called, the task has not run yet
    | Handling                    // in the handler
    | Acking | Nacking            // in the callback of ack() or nack()
    | Acked | Nacked              // the callback has ended
    | Refusing | Refused          // nacked by the loop because the bus is closing
    | Cut                         // cancelled in the handler: never settled
    | CutSettled                  // cancelled in a callback
  {
    predicate Started() { Handling? || Acking? || Nacking? }

    /** `acked` or `nacked` is set on the message. */
    predicate Settled() { Acking? || Nacking? || Acked? || Nacked? || Refusing? || Refused? || CutSettled? }
  }

  /** `listening` counts the handler loops that still pull. */
  datatype State = State(
    listening: nat, tasks: seq<Task>, inFlight: int, closing: bool, draining: bool, failed: bool, cancelled: bool)

  datatype Event =
    | Pull
    | Exhausted
    | StartTask(m: nat)
    | Returns(m: nat)
    | Raises(m: nat)
    | CallbackEnds(m: nat, ok: bool)
    | Close
    | Drained
    | TimesOut
    | FailureSpreads
    | Cancel(m: nat) // the cancellation reaches a task, which takes that the task has started

  ghost function Start(n: nat): State {
    State(n, [], 0, false, false, false, false)
  }

  ghost function To(s: State, m: nat, x: Task): State
    requires m < |s.tasks|
  {
    s.(tasks := s.tasks[m := x],
       inFlight := s.inFlight + (if x.Started() then 1 else 0) - (if s.tasks[m].Started() then 1 else 0))
  }

  ghost function Step(s: State, e: Event): State {
    match e
    case Pull =>
      if s.listening == 0 then s
      else if s.closing then s.(tasks := s.tasks + [Refusing], listening := s.listening - 1)
      else s.(tasks := s.tasks + [Spawned])
    case Exhausted =>
      if s.listening == 0 then s else s.(listening := s.listening - 1)
    case StartTask(m) =>
      if m < |s.tasks| && s.tasks[m].Spawned? then To(s, m, Handling) else s
    case Returns(m) =>
      if m < |s.tasks| && s.tasks[m].Handling? then To(s, m, Acking) else s
    case Raises(m) =>
      if m < |s.tasks| && s.tasks[m].Handling? then To(s, m, Nacking) else s
    case CallbackEnds(m, ok) =>
      if m >= |s.tasks| then s
      else (
        match s.tasks[m]
        case Acking => To(s, m, Acked).(failed := s.failed || !ok)
        case Nacking => To(s, m, Nacked).(failed := true)
        case Refusing => To(s, m, Refused).(failed := s.failed || !ok)
        case _ => s)
    case Close => s.(closing := true, draining := true)
    case Drained => if s.draining && s.inFlight <= 0 then s.(draining := false, cancelled := true) else s
    case TimesOut => if s.draining then s.(draining := false, cancelled := true) else s
    case FailureSpreads => if s.failed then s.(cancelled := true) else s
    case Cancel(m) =>
      if !s.cancelled || m >= |s.tasks| then s
      else (
        match s.tasks[m]
        case Handling => To(s, m, Cut)
        case Acking => To(s, m, CutSettled)
        case Nacking => To(s, m, CutSettled)
        case Refusing => To(s, m, CutSettled)
        case _ => s)
  }

  // ---- runs --------------------------------------------------------------------------------------

  ghost predicate StepAt(ss: seq<State>, es: seq<Event>, k: nat)
    requires k < |es| && |ss| == |es| + 1
  {
    ss[k + 1] == Step(ss[k], es[k])
  }

  ghost predicate Run(n: nat, ss: seq<State>, es: seq<Event>) {
    && |ss| == |es| + 1
    && ss[0] == Start(n)
    && forall k :: 0 <= k < |es| ==> StepAt(ss, es, k)
  }

  ghost function Counted(tasks: seq<Task>, n: nat): nat
    requires n <= |tasks|
  {
    if n == 0 then 0 else Counted(tasks, n - 1) + if tasks[n - 1].Started() then 1 else 0
  }

  ghost function StartedTasks(s: State): nat {
    Counted(s.tasks, |s.tasks|)
  }

  lemma {:induction false} CountedUpdate(tasks: seq<Task>, m: nat, x: Task, n: nat)
    requires m < |tasks| && n <= |tasks|
    ensures Counted(tasks[m := x], n) == Counted(tasks, n) +
            if m < n then (if x.Started() then 1 else 0) - (if tasks[m].Started() then 1 else 0) else 0
  {
    if n > 0 { CountedUpdate(tasks, m, x, n - 1); }
  }

  lemma {:induction false} CountedAppend(tasks: seq<Task>, x: Task, n: nat)
    requires n <= |tasks|
    ensures Counted(tasks + [x], n) == Counted(tasks, n)
  {
    if n > 0 { CountedAppend(tasks, x, n - 1); }
  }

  lemma {:induction false} CountedOne(tasks: seq<Task>, m: nat, n: nat)
    requires m < n <= |tasks| && tasks[m].Started()
    ensures Counted(tasks, n) > 0
  {
    if m < n - 1 { CountedOne(tasks, m, n - 1); }
  }

  ghost predicate Appends(s: State, t: State) {
    && t.inFlight == s.inFlight
    && (t.tasks == s.tasks || t.tasks == s.tasks + [Refusing] || (t.tasks == s.tasks + [Spawned] && !s.closing))
  }

  ghost predicate IsUnfinished(t: Task) {
    t == Spawned || t == Handling || t == Acking || t == Nacking
  }

  /** One task moves on, and none that was over goes on. */
  ghost predicate Moves(s: State, t: State, m: nat) {
    && m < |s.tasks| == |t.tasks| && t.tasks == To(s, m, t.tasks[m]).tasks
    && t.inFlight == To(s, m, t.tasks[m]).inFlight
    && (IsUnfinished(t.tasks[m]) ==> IsUnfinished(s.tasks[m]))
  }

  lemma CallbacksMove(s: State, m: nat, ok: bool)
    ensures var t := Step(s, CallbackEnds(m, ok)); Appends(s, t) || Moves(s, t, m)
  {
  }

  lemma CancelsMove(s: State, m: nat)
    ensures var t := Step(s, Cancel(m)); Appends(s, t) || Moves(s, t, m)
  {
  }

  lemma HandlersMove(s: State, e: Event, m: nat)
    requires e == StartTask(m) || e == Returns(m) || e == Raises(m)
    ensures var t := Step(s, e); Appends(s, t) || Moves(s, t, m)
  {
  }

  lemma StepsMove(s: State, e: Event)
    ensures Appends(s, Step(s, e)) || exists m :: Moves(s, Step(s, e), m)
  {
    match e
    case CallbackEnds(m, ok) => CallbacksMove(s, m, ok);
    case Cancel(m) => CancelsMove(s, m);
    case StartTask(m) => HandlersMove(s, e, m);
    case Returns(m) => HandlersMove(s, e, m);
    case Raises(m) => HandlersMove(s, e, m);
    case _ =>
  }

  lemma AppendsCount(s: State, t: State)
    requires Appends(s, t)
    ensures StartedTasks(t) == StartedTasks(s)
  {
    if t.tasks != s.tasks { CountedAppend(s.tasks, t.tasks[|s.tasks|], |s.tasks|); }
  }

  lemma MovesCount(s: State, t: State, m: nat)
    requires Moves(s, t, m)
    ensures t.inFlight - s.inFlight == StartedTasks(t) - StartedTasks(s)
  {
    CountedUpdate(s.tasks, m, t.tasks[m], |s.tasks|);
  }

  /** The counter follows the tasks. */
  lemma CountKept(s: State, e: Event)
    ensures s.inFlight == StartedTasks(s) ==> Step(s, e).inFlight == StartedTasks(Step(s, e))
  {
    var t := Step(s, e);
    StepsMove(s, e);
    if Appends(s, t) {
      AppendsCount(s, t);
    } else {
      var m: nat :| Moves(s, t, m);
      MovesCount(s, t, m);
    }
  }

  /** Only a cancellation leaves a message behind. */
  ghost predicate NoneLost(s: State) {
    || s.cancelled
    || forall m :: 0 <= m < |s.tasks| ==> s.tasks[m].Settled() || s.tasks[m].Spawned? || s.tasks[m].Handling?
  }

  lemma NoneLostKept(s: State, e: Event)
    requires NoneLost(s)
    ensures NoneLost(Step(s, e))
  {
  }

  lemma {:induction false} Reachable(n: nat, ss: seq<State>, es: seq<Event>, k: nat)
    requires Run(n, ss, es) && k <= |es|
    ensures ss[k].inFlight == StartedTasks(ss[k]) && NoneLost(ss[k])
  {
    if k > 0 {
      Reachable(n, ss, es, k - 1);
      assert StepAt(ss, es, k - 1);
      CountKept(ss[k - 1], es[k - 1]);
      NoneLostKept(ss[k - 1], es[k - 1]);
    }
  }

  /** The messages whose task was spawned and is not over. */
  ghost function Unfinished(s: State): set<nat> {
    set m: nat | m < |s.tasks| && IsUnfinished(s.tasks[m])
  }

  lemma UnfinishedStep(s: State, e: Event)
    requires s.closing
    ensures Step(s, e).closing && Unfinished(Step(s, e)) <= Unfinished(s)
  {
    var t := Step(s, e);
    StepsMove(s, e);
    if !Appends(s, t) { var m: nat :| Moves(s, t, m); }
  }

  /** Spawned and started tasks together only get fewer once the bus is closing; `in_flight` may rise. */
  lemma {:induction false} UnfinishedOnlyShrink(n: nat, ss: seq<State>, es: seq<Event>, i: nat, k: nat)
    requires Run(n, ss, es) && i <= k <= |es| && ss[i].closing
    ensures ss[k].closing && Unfinished(ss[k]) <= Unfinished(ss[i])
  {
    if i < k {
      UnfinishedOnlyShrink(n, ss, es, i, k - 1);
      assert StepAt(ss, es, k - 1);
      UnfinishedStep(ss[k - 1], es[k - 1]);
    }
  }

  /** Event k ends the wait of close(). */
  ghost predicate WaitEnds(ss: seq<State>, k: nat) {
    k + 1 < |ss| && ss[k].draining && !ss[k + 1].draining
  }

  lemma PullsUsedUp(s: State, e: Event)
    requires s.closing
    ensures var t := Step(s, e); t.closing && |t.tasks| + t.listening <= |s.tasks| + s.listening
  {
  }

  /** Once the bus is closing, each loop pulls at most one more message. */
  lemma {:induction false} FewPulledWhileClosing(n: nat, ss: seq<State>, es: seq<Event>, i: nat, k: nat)
    requires Run(n, ss, es) && i <= k <= |es| && ss[i].closing
    ensures ss[k].closing && |ss[k].tasks| + ss[k].listening <= |ss[i].tasks| + ss[i].listening
  {
    if i < k {
      FewPulledWhileClosing(n, ss, es, i, k - 1);
      assert StepAt(ss, es, k - 1);
      PullsUsedUp(ss[k - 1], es[k - 1]);
    }
  }

  /** The task settles its message as its handler has ended. */
  ghost predicate SettlesAs(t: Task, returned: bool) {
    t.CutSettled? || if returned then t.Acking? || t.Acked? else t.Nacking? || t.Nacked?
  }

  lemma CallbackSettlesAs(s: State, i: nat, ok: bool, m: nat, returned: bool)
    requires m < |s.tasks| && SettlesAs(s.tasks[m], returned)
    ensures var t := Step(s, CallbackEnds(i, ok)); m < |t.tasks| && SettlesAs(t.tasks[m], returned)
  {
  }

  lemma CancelSettlesAs(s: State, i: nat, m: nat, returned: bool)
    requires m < |s.tasks| && SettlesAs(s.tasks[m], returned)
    ensures var t := Step(s, Cancel(i)); m < |t.tasks| && SettlesAs(t.tasks[m], returned)
  {
  }

  lemma SettlesAsStep(s: State, e: Event, m: nat, returned: bool)
    requires m < |s.tasks| && SettlesAs(s.tasks[m], returned)
    ensures m < |Step(s, e).tasks| && SettlesAs(Step(s, e).tasks[m], returned)
  {
    match e
    case CallbackEnds(i, ok) => CallbackSettlesAs(s, i, ok, m, returned);
    case Cancel(i) => CancelSettlesAs(s, i, m, returned);
    case _ =>
  }

  /** For good, a task acks its message if its handler has returned, and nacks it if that has raised. */
  lemma {:induction false} SettledAsHandled(n: nat, ss: seq<State>, es: seq<Event>, m: nat, i: nat, k: nat)
    requires Run(n, ss, es) && i < k <= |es| && m < |ss[i].tasks| && ss[i].tasks[m].Handling?
    requires es[i] == Returns(m) || es[i] == Raises(m)
    ensures m < |ss[k].tasks| && SettlesAs(ss[k].tasks[m], es[i].Returns?)
  {
    assert StepAt(ss, es, k - 1);
    if i + 1 < k {
      SettledAsHandled(n, ss, es, m, i, k - 1);
      SettlesAsStep(ss[k - 1], es[k - 1], m, es[i].Returns?);
    }
  }

  /**
   When the wait of `close` ends without timeout, and nothing was cancelled before, exactly the
   messages whose tasks were spawned and have not started are unsettled; those tasks still start, but
   the cancellation then reaches them in the handler.
   */
  lemma DrainLeavesOnlyUnstarted(n: nat, ss: seq<State>, es: seq<Event>, k: nat)
    requires Run(n, ss, es) && k < |es|
    requires es[k] == Drained && WaitEnds(ss, k) && !ss[k].cancelled
    ensures forall m :: 0 <= m < |ss[k].tasks| ==> (!ss[k].tasks[m].Settled() <==> ss[k].tasks[m].Spawned?)
    ensures ss[k + 1].tasks == ss[k].tasks
    ensures forall m :: 0 <= m < |ss[k].tasks| && ss[k].tasks[m].Spawned? ==>
              Step(Step(ss[k + 1], StartTask(m)), Cancel(m)).tasks == ss[k].tasks[m := Cut]
  {
    Reachable(n, ss, es, k);
    assert StepAt(ss, es, k);
    forall m | 0 <= m < |ss[k].tasks| ensures !ss[k].tasks[m].Handling? {
      if ss[k].tasks[m].Handling? {
        CountedOne(ss[k].tasks, m, |ss[k].tasks|);
      }
    }
  }

  /**
   The drain can lose a message: a command is pulled, `close` is called before its task starts, finds
   nothing in flight, and cancels.
   */
  lemma DrainCanDrop()
    ensures var es := [Pull, Close, Drained, StartTask(0), Cancel(0)];
      exists ss: seq<State> ::
        Run(1, ss, es) && ss[2].draining && ss[2].inFlight == 0 && !ss[2].failed && ss[5].tasks == [Cut]
  {
    var es := [Pull, Close, Drained, StartTask(0), Cancel(0)];
    var s0 := Start(1);
    var s1 := Step(s0, Pull);
    var s2 := Step(s1, Close);
    var s3 := Step(s2, Drained);
    var s4 := Step(s3, StartTask(0));
    var s5 := Step(s4, Cancel(0));
    var ss := [s0, s1, s2, s3, s4, s5];
    assert StepAt(ss, es, 0) && StepAt(ss, es, 1) && StepAt(ss, es, 2) && StepAt(ss, es, 3) && StepAt(ss, es, 4);
    assert Run(1, ss, es);
  }
}
