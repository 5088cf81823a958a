/** Why a router is closing, waiting or cancelled, and how its loops and callbacks came to end: what has happened. */
module RouterHistory {
  import opened RouterDrain
  import Messages

  // ---- how loops end -------------------------------------------------------------------------------

  /** The loop raises: its handler did and the nack is through, or a callback or the publish raises. */
  ghost predicate Fails(s: State, e: Event, l: nat) {
    && l < |s.loops|
    && (|| ((e == CallbackEnds(l, true) || e == CallbackEnds(l, false)) && s.loops[l].Nacking?)
        || (e == CallbackEnds(l, false) && (s.loops[l].Acking? || s.loops[l].Refusing?))
        || (e == PublishEnds(l, false) && s.loops[l].Publishing?))
  }

  /** The loop returns, because of its subscription or the closing, or it is cancelled outside the handler. */
  ghost predicate Ends(s: State, e: Event, l: nat) {
    && l < |s.loops|
    && (|| (e == Exhausted(l) && s.loops[l].Waiting?)
        || (e == CallbackEnds(l, true) && s.loops[l].Refusing?)
        || (e == Cancel(l) && s.cancelled && !s.loops[l].Handling? && !s.loops[l].Over()))
  }

  /** The loop is cancelled in the handler of message m. */
  ghost predicate Cuts(s: State, e: Event, l: nat, m: nat) {
    l < |s.loops| && e == Cancel(l) && s.cancelled && s.loops[l] == Handling(m)
  }

  lemma FailsStep(s: State, e: Event, l: nat)
    requires InRange(s) && l < |s.loops| == |Step(s, e).loops|
    ensures Step(s, e).loops[l] == Failed <==> s.loops[l] == Failed || Fails(s, e, l)
  {
  }

  lemma EndsStep(s: State, e: Event, l: nat)
    requires InRange(s) && l < |s.loops| == |Step(s, e).loops|
    ensures Step(s, e).loops[l] == Ended <==> s.loops[l] == Ended || Ends(s, e, l)
  {
  }

  lemma CutsStep(s: State, e: Event, l: nat, m: nat)
    requires InRange(s) && l < |s.loops| == |Step(s, e).loops|
    ensures Step(s, e).loops[l] == Cut(m) <==> s.loops[l] == Cut(m) || Cuts(s, e, l, m)
  {
  }

  lemma EndsAt(n: nat, ss: seq<State>, es: seq<Event>, l: nat, m: nat, j: nat)
    requires Run(n, ss, es) && l < n && j < |es|
    ensures |ss[j].loops| == n == |ss[j + 1].loops|
    ensures ss[j + 1].loops[l] == Failed <==> ss[j].loops[l] == Failed || Fails(ss[j], es[j], l)
    ensures ss[j + 1].loops[l] == Ended <==> ss[j].loops[l] == Ended || Ends(ss[j], es[j], l)
    ensures ss[j + 1].loops[l] == Cut(m) <==> ss[j].loops[l] == Cut(m) || Cuts(ss[j], es[j], l, m)
  {
    Reachable(n, ss, es, j);
    Reachable(n, ss, es, j + 1);
    assert StepAt(ss, es, j);
    FailsStep(ss[j], es[j], l);
    EndsStep(ss[j], es[j], l);
    CutsStep(ss[j], es[j], l, m);
  }

  /** In every reachable state: a loop has failed, ended or was cut off exactly if that has happened to it. */
  lemma {:induction false} HowLoopsEnd(n: nat, ss: seq<State>, es: seq<Event>, l: nat, m: nat, k: nat)
    requires Run(n, ss, es) && l < n && k <= |es|
    ensures |ss[k].loops| == n
    ensures ss[k].loops[l] == Failed <==> exists j: nat :: j < k && Fails(ss[j], es[j], l)
    ensures ss[k].loops[l] == Ended <==> exists j: nat :: j < k && Ends(ss[j], es[j], l)
    ensures ss[k].loops[l] == Cut(m) <==> exists j: nat :: j < k && Cuts(ss[j], es[j], l, m)
  {
    Reachable(n, ss, es, k);
    if k > 0 {
      HowLoopsEnd(n, ss, es, l, m, k - 1);
      EndsAt(n, ss, es, l, m, k - 1);
    }
  }

  // ---- pulls ---------------------------------------------------------------------------------------

  ghost predicate Pulls(s: State, e: Event, l: nat) {
    e == Pull(l) && l < |s.loops| && s.loops[l] == Waiting
  }

  /** The message is handled, its callback has run and its outputs are published. */
  ghost predicate Finishes(s: State, e: Event, l: nat) {
    e == PublishEnds(l, true) && l < |s.loops| && s.loops[l].Publishing?
  }

  ghost function PullsOf(ss: seq<State>, es: seq<Event>, l: nat, k: nat): nat
    requires |ss| == |es| + 1 && k <= |es|
  {
    if k == 0 then 0 else PullsOf(ss, es, l, k - 1) + if Pulls(ss[k - 1], es[k - 1], l) then 1 else 0
  }

  ghost function FinishesOf(ss: seq<State>, es: seq<Event>, l: nat, k: nat): nat
    requires |ss| == |es| + 1 && k <= |es|
  {
    if k == 0 then 0 else FinishesOf(ss, es, l, k - 1) + if Finishes(ss[k - 1], es[k - 1], l) then 1 else 0
  }

  /** The loop has a message that it has not finished; one that is over may have. */
  ghost predicate Left(l: Loop, left: int) {
    0 <= left <= 1 && (l == Waiting ==> left == 0) && (l != Waiting && l != Ended && l != Failed ==> left == 1)
  }

  lemma LeftStep(s: State, e: Event, l: nat, left: int)
    requires InRange(s) && l < |s.loops| == |Step(s, e).loops| && Left(s.loops[l], left)
    ensures Left(Step(s, e).loops[l],
                 left + (if Pulls(s, e, l) then 1 else 0) - if Finishes(s, e, l) then 1 else 0)
  {
  }

  /** A loop finishes each message that it pulls before it waits for the next, so that at most one is left over. */
  lemma {:induction false} PullsAreFinished(n: nat, ss: seq<State>, es: seq<Event>, l: nat, k: nat)
    requires Run(n, ss, es) && l < n && k <= |es|
    ensures |ss[k].loops| == n && Left(ss[k].loops[l], PullsOf(ss, es, l, k) - FinishesOf(ss, es, l, k))
  {
    Reachable(n, ss, es, k);
    if k > 0 {
      PullsAreFinished(n, ss, es, l, k - 1);
      assert StepAt(ss, es, k - 1);
      LeftStep(ss[k - 1], es[k - 1], l, PullsOf(ss, es, l, k - 1) - FinishesOf(ss, es, l, k - 1));
    }
  }

  ghost function AllPulls(ss: seq<State>, es: seq<Event>, k: nat): nat
    requires |ss| == |es| + 1 && k <= |es|
  {
    if k == 0 then 0
    else AllPulls(ss, es, k - 1) + if es[k - 1].Pull? && Pulls(ss[k - 1], es[k - 1], es[k - 1].i) then 1 else 0
  }

  /** Every pull adds one message, and nothing else does. */
  lemma {:induction false} PulledIsCounted(n: nat, ss: seq<State>, es: seq<Event>, k: nat)
    requires Run(n, ss, es) && k <= |es|
    ensures |ss[k].pulled| == AllPulls(ss, es, k)
  {
    if k > 0 {
      PulledIsCounted(n, ss, es, k - 1);
      assert StepAt(ss, es, k - 1);
    }
  }

  // ---- callbacks -----------------------------------------------------------------------------------

  /** The callback of message m ends. */
  ghost predicate CallbackEndsFor(s: State, e: Event, m: nat, ok: bool) {
    && e.CallbackEnds? && e.ok == ok && e.i < |s.loops|
    && (s.loops[e.i] == Acking(m) || s.loops[e.i] == Nacking(m) || s.loops[e.i] == Refusing(m))
  }

  lemma CallbackStep(s: State, e: Event, m: nat)
    requires HoldersFit(s) && m < |s.pulled|
    ensures m < |Step(s, e).pulled|
    ensures Step(s, e).pulled[m].callback == Ran <==> s.pulled[m].callback == Ran || CallbackEndsFor(s, e, m, true)
    ensures Step(s, e).pulled[m].callback == Callback.Raised <==>
            s.pulled[m].callback == Callback.Raised || CallbackEndsFor(s, e, m, false)
  {
  }

  lemma NewHasNone(s: State, e: Event, m: nat)
    requires InRange(s) && |s.pulled| <= m
    ensures m < |Step(s, e).pulled| ==> Step(s, e).pulled[m].callback == Due
    ensures !CallbackEndsFor(s, e, m, true) && !CallbackEndsFor(s, e, m, false)
  {
  }

  lemma {:induction false} NoneBefore(n: nat, ss: seq<State>, es: seq<Event>, m: nat, k: nat)
    requires Run(n, ss, es) && k <= |es| && |ss[k].pulled| <= m
    ensures forall j: nat, ok :: j < k ==> !CallbackEndsFor(ss[j], es[j], m, ok)
  {
    if k > 0 {
      assert StepAt(ss, es, k - 1);
      assert |ss[k - 1].pulled| <= |ss[k].pulled|;
      NoneBefore(n, ss, es, m, k - 1);
      NewHasNone(ss[k - 1], es[k - 1], m);
    }
  }

  /** The callback of a message has run, or raised, exactly if it has ended so. */
  lemma {:induction false} HowCallbacksEnd(n: nat, ss: seq<State>, es: seq<Event>, m: nat, k: nat)
    requires Run(n, ss, es) && k <= |es| && m < |ss[k].pulled|
    ensures ss[k].pulled[m].callback == Ran <==> exists j: nat :: j < k && CallbackEndsFor(ss[j], es[j], m, true)
    ensures ss[k].pulled[m].callback == Callback.Raised <==>
            exists j: nat :: j < k && CallbackEndsFor(ss[j], es[j], m, false)
  {
    if k > 0 {
      assert StepAt(ss, es, k - 1);
      Reachable(n, ss, es, k - 1);
      if m < |ss[k - 1].pulled| {
        HowCallbacksEnd(n, ss, es, m, k - 1);
        CallbackStep(ss[k - 1], es[k - 1], m);
      } else {
        NoneBefore(n, ss, es, m, k - 1);
        NewHasNone(ss[k - 1], es[k - 1], m);
      }
    }
  }

  // ---- closing -------------------------------------------------------------------------------------

  lemma {:induction false} ClosingIff(n: nat, ss: seq<State>, es: seq<Event>, k: nat)
    requires Run(n, ss, es) && k <= |es|
    ensures ss[k].closing <==> exists j: nat :: j < k && es[j].Close?
  {
    if k > 0 {
      ClosingIff(n, ss, es, k - 1);
      assert StepAt(ss, es, k - 1);
    }
  }

  /** It ends a wait for messages in flight, if there is one: none is left, or the time is up. */
  ghost predicate EndsWait(s: State, e: Event) {
    e.TimesOut? || (e.Drained? && s.inFlight == 0)
  }

  /** A close() has been called, and nothing has ended its wait since. */
  ghost predicate Waits(ss: seq<State>, es: seq<Event>, k: nat)
    requires |ss| == |es| + 1 && k <= |es|
  {
    exists c: nat :: c < k && es[c].Close? && forall j: nat :: c < j < k ==> !EndsWait(ss[j], es[j])
  }

  lemma WaitsStep(ss: seq<State>, es: seq<Event>, k: nat)
    requires |ss| == |es| + 1 && 0 < k <= |es|
    ensures Waits(ss, es, k) <==> es[k - 1].Close? || (Waits(ss, es, k - 1) && !EndsWait(ss[k - 1], es[k - 1]))
  {
    if Waits(ss, es, k) {
      var c: nat :| c < k && es[c].Close? && forall j: nat :: c < j < k ==> !EndsWait(ss[j], es[j]);
    }
  }

  lemma NoneInFlight(n: nat, ss: seq<State>, es: seq<Event>, k: nat)
    requires Run(n, ss, es) && k <= |es|
    ensures ss[k].inFlight >= 0
  {
    Reachable(n, ss, es, k);
  }

  /** close() waits exactly while it has been called and nothing is in its way. */
  lemma {:induction false} DrainingIff(n: nat, ss: seq<State>, es: seq<Event>, k: nat)
    requires Run(n, ss, es) && k <= |es|
    ensures ss[k].closer == Draining <==> Waits(ss, es, k)
  {
    if k > 0 {
      DrainingIff(n, ss, es, k - 1);
      NoneInFlight(n, ss, es, k - 1);
      WaitsStep(ss, es, k);
      assert StepAt(ss, es, k - 1);
    }
  }

  /** The event cancels everything: it ends a wait, or the exception of a loop spreads. */
  ghost predicate CancelsAll(ss: seq<State>, es: seq<Event>, j: nat)
    requires |ss| == |es| + 1 && j < |es|
  {
    (Waits(ss, es, j) && EndsWait(ss[j], es[j])) || (es[j].FailureSpreads? && SomeFailed(ss[j]))
  }

  /** A router is cancelled exactly if the wait of close() has ended or the exception of a loop has spread. */
  lemma {:induction false} CancelledIff(n: nat, ss: seq<State>, es: seq<Event>, k: nat)
    requires Run(n, ss, es) && k <= |es|
    ensures ss[k].cancelled <==> exists j: nat :: j < k && CancelsAll(ss, es, j)
  {
    if k > 0 {
      CancelledIff(n, ss, es, k - 1);
      CancelsAt(n, ss, es, k - 1);
    }
  }

  lemma CancelsAt(n: nat, ss: seq<State>, es: seq<Event>, j: nat)
    requires Run(n, ss, es) && j < |es|
    ensures ss[j + 1].cancelled <==> ss[j].cancelled || CancelsAll(ss, es, j)
  {
    DrainingIff(n, ss, es, j);
    NoneInFlight(n, ss, es, j);
    assert StepAt(ss, es, j);
  }

  // ---- which messages are handled ------------------------------------------------------------------

  lemma PullStep(s: State, e: Event, l: nat)
    requires InRange(s) && Pulls(s, e, l)
    ensures var t, m := Step(s, e), |s.pulled|;
      && l < |t.loops| && m < |t.pulled|
      && t.loops[l] == (if s.closing then Refusing(m) else Handling(m))
      && t.pulled[m].flags == if s.closing then Messages.NACKED else Messages.UNSETTLED
  {
  }

  /** A message goes to the handler if close() was not called before it was pulled, and is nacked for good otherwise. */
  lemma HandledUnlessClosing(n: nat, ss: seq<State>, es: seq<Event>, l: nat, i: nat, k: nat)
    requires Run(n, ss, es) && i < k <= |es| && Pulls(ss[i], es[i], l)
    ensures var m := |ss[i].pulled|;
      && l < |ss[i + 1].loops| && m < |ss[k].pulled|
      && (if exists j: nat :: j < i && es[j].Close?
          then ss[i + 1].loops[l] == Refusing(m) && ss[k].pulled[m].flags == Messages.NACKED
          else ss[i + 1].loops[l] == Handling(m))
  {
    ClosingIff(n, ss, es, i);
    assert StepAt(ss, es, i);
    PullStep(ss[i], es[i], l);
    PulledStay(n, ss, es, i + 1, k);
    if ss[i].closing { SettledStays(n, ss, es, |ss[i].pulled|, i + 1, k); }
  }

  lemma {:induction false} PulledStay(n: nat, ss: seq<State>, es: seq<Event>, i: nat, k: nat)
    requires Run(n, ss, es) && i <= k <= |es|
    ensures |ss[i].pulled| <= |ss[k].pulled|
  {
    if i < k {
      PulledStay(n, ss, es, i, k - 1);
      assert StepAt(ss, es, k - 1);
    }
  }
}
