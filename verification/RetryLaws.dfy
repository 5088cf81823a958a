/** How often the innermost handler runs under retries, and how long the pauses are. */
module RetryLaws {
  import opened Options
  import opened Messages
  import opened Middleware
  import opened Queues

  // ---- delays ------------------------------------------------------------------------------------

  ghost function Abs(x: real): real { if x < 0.0 then -x else x }

  ghost function Pow(b: real, n: nat): real {
    if n == 0 then 1.0 else b * Pow(b, n - 1)
  }

  /** The delay after i more attempts. */
  ghost function DelayAfter(r: Middleware, current: real, i: nat): real
    requires r.Retry?
    decreases i
  {
    if i == 0 then current else DelayAfter(r, NextDelay(r, current), i - 1)
  }

  lemma Regroup(x: real, b: real, p: real)
    ensures (x * b) * p == x * (b * p)
  {
  }

  lemma {:induction false} DelayIsPower(r: Middleware, current: real, i: nat)
    requires r.Retry?
    ensures DelayAfter(r, current, i) == current * Pow(r.backoff, i)
    decreases i
  {
    if i > 0 {
      DelayIsPower(r, NextDelay(r, current), i - 1);
      Regroup(current, r.backoff, Pow(r.backoff, i - 1));
    }
  }

  ghost function Total(xs: seq<real>): real {
    if xs == [] then 0.0 else xs[0] + Total(xs[1..])
  }

  /** x + x*b + ... with n terms. */
  ghost function Series(x: real, b: real, n: nat): real
    decreases n
  {
    if n == 0 then 0.0 else x + Series(x * b, b, n - 1)
  }

  lemma SeriesStep(x: real, b: real, p: real, rest: real)
    requires rest * (b - 1.0) == (x * b) * (p - 1.0)
    ensures (x + rest) * (b - 1.0) == x * (b * p - 1.0)
  {
  }

  lemma {:induction false} SeriesClosedForm(x: real, b: real, n: nat)
    ensures Series(x, b, n) * (b - 1.0) == x * (Pow(b, n) - 1.0)
    decreases n
  {
    if n > 0 {
      SeriesClosedForm(x * b, b, n - 1);
      SeriesStep(x, b, Pow(b, n - 1), Series(x * b, b, n - 1));
    }
  }

  lemma AbsOfNext(r: Middleware, current: real)
    requires r.Retry?
    ensures Abs(NextDelay(r, current)) == Abs(current) * Abs(r.backoff)
  {
  }

  // ---- one retry around the handler ---------------------------------------------------------------

  /** The retry goes on after exceptions of the listed types that are not permanent, if it has attempts left. */
  ghost predicate GoesOn(r: Middleware, o: Outcome)
    requires r.Retry?
  {
    o.Raised? && o.error.Plain? && IsAmong(r.retryOn, o.error)
  }

  ghost function Final(o: Outcome): Outcome {
    if o.Raised? then Raised(Unwrapped(o.error)) else o
  }

  ghost function Spread(r: Middleware): real
    requires r.Retry?
  {
    if r.jitter <= 0.0 then 0.0 else r.jitter
  }

  ghost predicate UniformInRange(env: Env) {
    forall n :: -1.0 <= env.uniform(n) <= 1.0
  }

  /** The pause differs from the delay by at most that fraction of it. */
  ghost predicate Near(pause: real, delay: real, spread: real) {
    Abs(pause - delay) <= Abs(delay) * spread
  }

  lemma JitterBound(r: Middleware, base: real, u: real)
    requires r.Retry? && -1.0 <= u <= 1.0
    ensures Near(Jittered(r, base, u), base, Spread(r))
  {
    if r.jitter > 0.0 {
      var range := base * r.jitter;
      assert Abs(range) == Abs(base) * r.jitter;
      UniformBound(range, u);
    }
  }

  /** And every pause in that range can come out. */
  lemma JitterReaches(r: Middleware, base: real, pause: real) returns (u: real)
    requires r.Retry? && Near(pause, base, Spread(r))
    ensures -1.0 <= u <= 1.0 && Jittered(r, base, u) == pause
  {
    var range := base * Spread(r);
    if range == 0.0 {
      u := 0.0;
      RangeIsZero(base, Spread(r));
    } else {
      u := (pause - base) / range;
      RatioBound(pause - base, base, Spread(r));
    }
  }

  lemma RangeIsZero(base: real, spread: real)
    requires base * spread == 0.0 && spread >= 0.0
    ensures Abs(base) * spread == 0.0
  {
  }

  lemma RatioBound(x: real, base: real, spread: real)
    requires spread >= 0.0 && base * spread != 0.0 && Abs(x) <= Abs(base) * spread
    ensures -1.0 <= x / (base * spread) <= 1.0
    ensures base * spread * (x / (base * spread)) == x
  {
    assert Abs(base * spread) == Abs(base) * spread;
  }

  lemma UniformBound(range: real, u: real)
    requires -1.0 <= u <= 1.0
    ensures Abs(range * u) <= Abs(range)
  {
  }

  /** The i-th of the pauses is near the i-th delay. */
  ghost predicate PausesFit(r: Middleware, current: real, pauses: seq<real>)
    requires r.Retry?
  {
    forall i :: 0 <= i < |pauses| ==> Near(pauses[i], DelayAfter(r, current, i), Spread(r))
  }

  /** Something further out cuts off the n-th pause. */
  ghost predicate CutOff(env: Env, n: nat) {
    env.interrupt(n).Some? && env.interrupt(n).value > 1
  }

  /**
   How one retry around the handler goes: n calls, all but the last of which it goes on after, and the
   pauses between them, possibly with a last one that is cut off.
   */
  ghost predicate Goes(r: Middleware, tries: nat, current: real, env: Env, w: World, n: nat, pauses: seq<real>)
    requires r.Retry?
  {
    && 1 <= n <= tries
    && (forall m :: w.calls <= m < w.calls + n - 1 ==> GoesOn(r, env.script(m)))
    && (forall p :: |w.sleeps| <= p < |w.sleeps| + n - 1 ==> !CutOff(env, p))
    && PausesFit(r, current, pauses)
    && (if |pauses| == n
        then n < tries && GoesOn(r, env.script(w.calls + n - 1)) && CutOff(env, |w.sleeps| + n - 1)
        else |pauses| == n - 1 && (n == tries || !GoesOn(r, env.script(w.calls + n - 1))))
  }

  ghost function End(r: Middleware, env: Env, w: World, n: nat, pauses: seq<real>): (Outcome, World)
    requires r.Retry? && n > 0
  {
    var t := w.(calls := w.calls + n, sleeps := w.sleeps + pauses);
    if |pauses| == n && CutOff(env, |w.sleeps| + n - 1)
    then (Cancelled(env.interrupt(|w.sleeps| + n - 1).value), t)
    else (Final(env.script(w.calls + n - 1)), t)
  }

  /** The world after one more call and one more pause. */
  ghost function AfterPause(r: Middleware, current: real, env: Env, w: World): World
    requires r.Retry?
  {
    w.(calls := w.calls + 1, sleeps := w.sleeps + [Jittered(r, current, env.uniform(|w.sleeps|))])
  }

  lemma OneAttempt(r: Middleware, attempt: nat, current: real, msg: Message, env: Env, w: World)
    requires r.Retry? && attempt <= r.maxRetries
    ensures var c, w2 := Wrap(r, Handler), AfterPause(r, current, env, w);
      Attempts(c, attempt, current, msg, env, w) ==
      if !GoesOn(r, env.script(w.calls)) || attempt == r.maxRetries
      then (Final(env.script(w.calls)), w.(calls := w.calls + 1))
      else if CutOff(env, |w.sleeps|) then (Cancelled(env.interrupt(|w.sleeps|).value), w2)
      else Attempts(c, attempt + 1, NextDelay(r, current), msg, env, w2)
  {
    var c, w1 := Wrap(r, Handler), w.(calls := w.calls + 1);
    assert c.Depth() == 1 && Call(Handler, msg, env, w) == (env.script(w.calls), w1);
    if GoesOn(r, env.script(w.calls)) && attempt < r.maxRetries {
      AttemptAgain(c, attempt, current, msg, env, w);
    }
  }

  /** One more call and pause in front. */
  lemma GoesBefore(r: Middleware, tries: nat, current: real, env: Env, w: World, n: nat, rest: seq<real>)
    requires r.Retry? && UniformInRange(env)
    requires GoesOn(r, env.script(w.calls)) && !CutOff(env, |w.sleeps|)
    requires Goes(r, tries, NextDelay(r, current), env, AfterPause(r, current, env, w), n, rest)
    ensures var pauses := [Jittered(r, current, env.uniform(|w.sleeps|))] + rest;
      && Goes(r, tries + 1, current, env, w, n + 1, pauses)
      && End(r, env, w, n + 1, pauses) == End(r, env, AfterPause(r, current, env, w), n, rest)
  {
    var w2 := AfterPause(r, current, env, w);
    var pauses := [Jittered(r, current, env.uniform(|w.sleeps|))] + rest;
    JitterBound(r, current, env.uniform(|w.sleeps|));
    assert w.sleeps + pauses == w2.sleeps + rest;
    assert |w.sleeps| + (n + 1) - 1 == |w2.sleeps| + n - 1 && w.calls + (n + 1) - 1 == w2.calls + n - 1;
    forall i | 0 <= i < |pauses| ensures Near(pauses[i], DelayAfter(r, current, i), Spread(r)) {
      if i > 0 { assert Near(rest[i - 1], DelayAfter(r, NextDelay(r, current), i - 1), Spread(r)); }
    }
  }

  /** The calls of the retry loop, from a given attempt on. */
  lemma {:induction false} AttemptsMake(
    r: Middleware, attempt: nat, current: real, msg: Message, env: Env, w: World)
    returns (n: nat, pauses: seq<real>)
    requires r.Retry? && attempt <= r.maxRetries && UniformInRange(env)
    ensures Goes(r, r.maxRetries + 1 - attempt, current, env, w, n, pauses)
    ensures Attempts(Wrap(r, Handler), attempt, current, msg, env, w) == End(r, env, w, n, pauses)
    decreases r.maxRetries - attempt
  {
    OneAttempt(r, attempt, current, msg, env, w);
    if !GoesOn(r, env.script(w.calls)) || attempt == r.maxRetries {
      n, pauses := 1, [];
      assert w.sleeps + [] == w.sleeps;
    } else {
      JitterBound(r, current, env.uniform(|w.sleeps|));
      var w2, tries := AfterPause(r, current, env, w), r.maxRetries - attempt;
      pauses := [Jittered(r, current, env.uniform(|w.sleeps|))];
      if CutOff(env, |w.sleeps|) {
        n := 1;
      } else {
        var n1, rest := AttemptsMake(r, attempt + 1, NextDelay(r, current), msg, env, w2);
        GoesBefore(r, tries, current, env, w, n1, rest);
        n, pauses := n1 + 1, pauses + rest;
      }
    }
  }

  /**
   One retry calls the handler until the first outcome it does not go on after, but at most
   max_retries + 1 times; it ends with that outcome, unwrapped; between two calls it pauses for
   delay * backoff^i, give or take the jitter, unless such a pause is cut off.
   */
  lemma RetryMakes(r: Middleware, msg: Message, env: Env, w: World) returns (n: nat, pauses: seq<real>)
    requires r.Retry? && UniformInRange(env)
    ensures r.maxRetries < 0 ==> n == 0 && Call(Wrap(r, Handler), msg, env, w) == (Raised(RUNTIME_ERROR), w)
    ensures r.maxRetries >= 0 ==>
      && Goes(r, r.maxRetries + 1, r.delay, env, w, n, pauses)
      && Call(Wrap(r, Handler), msg, env, w) == End(r, env, w, n, pauses)
  {
    if r.maxRetries < 0 {
      n, pauses := 0, [];
    } else {
      n, pauses := AttemptsMake(r, 0, r.delay, msg, env, w);
    }
  }

  lemma PausesTail(r: Middleware, current: real, pauses: seq<real>)
    requires r.Retry? && pauses != [] && PausesFit(r, current, pauses)
    ensures PausesFit(r, NextDelay(r, current), pauses[1..])
    ensures Near(pauses[0], current, Spread(r))
  {
  }

  /** What a total may be when its pauses are at most spread above the series. */
  ghost predicate Below(total: real, spread: real, series: real) {
    total <= (1.0 + spread) * series
  }

  lemma BelowCons(pause: real, delay: real, total: real, series: real, spread: real)
    requires Near(pause, delay, spread) && Below(total, spread, series)
    ensures Below(pause + total, spread, Abs(delay) + series)
  {
  }

  lemma SeriesOfNext(r: Middleware, current: real, n: nat)
    requires r.Retry? && n > 0
    ensures Series(Abs(current), Abs(r.backoff), n) ==
            Abs(current) + Series(Abs(NextDelay(r, current)), Abs(r.backoff), n - 1)
  {
    AbsOfNext(r, current);
  }

  /** All pauses together stay below the geometric series of the delays, stretched by the jitter. */
  lemma {:induction false} TotalPause(r: Middleware, current: real, pauses: seq<real>)
    requires r.Retry? && PausesFit(r, current, pauses)
    ensures Below(Total(pauses), Spread(r), Series(Abs(current), Abs(r.backoff), |pauses|))
    decreases |pauses|
  {
    if pauses != [] {
      var next := NextDelay(r, current);
      PausesTail(r, current, pauses);
      TotalPause(r, next, pauses[1..]);
      SeriesOfNext(r, current, |pauses|);
      BelowCons(pauses[0], current, Total(pauses[1..]), Series(Abs(next), Abs(r.backoff), |pauses| - 1), Spread(r));
    }
  }

  // ---- any chain ---------------------------------------------------------------------------------

  ghost function Tries(r: Middleware): nat
    requires r.Retry?
  {
    if r.maxRetries < 0 then 0 else r.maxRetries + 1
  }

  /** The product of (max_retries + 1) over the retries of a chain. */
  ghost function Budget(c: Chain): nat {
    match c
    case Handler => 1
    case Wrap(outer, next) => if outer.Retry? then Tries(outer) * Budget(next) else Budget(next)
  }

  /** b added up n times. */
  ghost function Times(n: nat, b: nat): nat {
    if n == 0 then 0 else b + Times(n - 1, b)
  }

  lemma {:induction false} TimesIsProduct(n: nat, b: nat)
    ensures Times(n, b) == n * b
  {
    if n > 0 {
      TimesIsProduct(n - 1, b);
      assert (n - 1) * b == n * b - b;
    }
  }

  lemma {:induction false} AttemptsBounded(c: Chain, attempt: nat, current: real, msg: Message, env: Env, w: World)
    requires c.Wrap? && c.outer.Retry? && attempt <= Tries(c.outer)
    ensures Attempts(c, attempt, current, msg, env, w).1.calls <=
            w.calls + Times(Tries(c.outer) - attempt, Budget(c.next))
    decreases c, 0, Tries(c.outer) - attempt
  {
    if attempt < Tries(c.outer) {
      CallsBounded(c.next, msg, env, w);
      var (o, w1) := Call(c.next, msg, env, w);
      if o.Raised? && ShouldRetry(c.outer, o.error) && attempt < c.outer.maxRetries {
        AttemptAgain(c, attempt, current, msg, env, w);
        AttemptsBounded(c, attempt + 1, NextDelay(c.outer, current), msg, env, Pause(c, current, env, w1).1);
      }
    }
  }

  /** Whatever the chain, one message runs the innermost handler at most that often. */
  lemma {:induction false} CallsBounded(c: Chain, msg: Message, env: Env, w: World)
    ensures Call(c, msg, env, w).1.calls <= w.calls + Budget(c)
    decreases c, 1, 0
  {
    if c.Wrap? {
      if c.outer.Retry? {
        AttemptsBounded(c, 0, c.outer.delay, msg, env, w);
        TimesIsProduct(Tries(c.outer), Budget(c.next));
      } else {
        CallsBounded(c.next, msg, env, w);
      }
    }
  }

  /** Nothing but retries of everything. */
  ghost predicate OnlyRetries(c: Chain) {
    c.Wrap? ==> c.outer.Retry? && c.outer.retryOn.None? && c.outer.maxRetries >= 0 && OnlyRetries(c.next)
  }

  ghost predicate AlwaysFails(env: Env) {
    forall n :: env.script(n).Raised? && !env.script(n).error.Permanent?
  }

  lemma {:induction false} AttemptsExhaust(
    c: Chain, attempt: nat, current: real, msg: Message, env: Env, w: World)
    requires c.Wrap? && OnlyRetries(c) && AlwaysFails(env) && NeverInterrupts(env) && attempt < Tries(c.outer)
    ensures var (o, t) := Attempts(c, attempt, current, msg, env, w);
      && o.Raised? && !o.error.Permanent?
      && t.calls == w.calls + Times(Tries(c.outer) - attempt, Budget(c.next))
    decreases c, 0, Tries(c.outer) - attempt
  {
    CallsExhaust(c.next, msg, env, w);
    if attempt < c.outer.maxRetries {
      AttemptAgain(c, attempt, current, msg, env, w);
      AttemptsExhaust(c, attempt + 1, NextDelay(c.outer, current), msg, env,
                      Pause(c, current, env, Call(c.next, msg, env, w).1).1);
    }
  }

  /** The bound is reached: a handler that always fails runs exactly that often. */
  lemma {:induction false} CallsExhaust(c: Chain, msg: Message, env: Env, w: World)
    requires OnlyRetries(c) && AlwaysFails(env) && NeverInterrupts(env)
    ensures var (o, t) := Call(c, msg, env, w);
      && o.Raised? && !o.error.Permanent?
      && t.calls == w.calls + Budget(c)
    decreases c, 1, 0
  {
    if c.Wrap? {
      AttemptsExhaust(c, 0, c.outer.delay, msg, env, w);
      TimesIsProduct(Tries(c.outer), Budget(c.next));
    }
  }

  // ---- when the handler runs once -----------------------------------------------------------------

  /** What leaves the chain when its innermost handler runs once and ends with o, and publishes work. */
  ghost function Surfacing(c: Chain, o: Outcome): Outcome {
    match c
    case Handler => o
    case Wrap(outer, next) =>
      var inner := Surfacing(next, o);
      match outer
      case Recoverer => inner
      case Retry(_, _, _, _, _) => Final(inner)
      case Timeout(_) => if inner == Cancelled(c.Depth()) then Raised(TIMEOUT_ERROR) else inner
      case PoisonQueue(_, _, _, catch, _) =>
        if inner.Raised? && IsAmong(catch, inner.error) then Returned([]) else inner
      case DeadLetterQueue(_, catch, _) =>
        if inner.Raised? && IsAmong(catch, inner.error) then Returned([]) else inner
  }

  /** Some retry of the chain has attempts left and goes on after what reaches it from a first run. */
  ghost predicate Retried(c: Chain, o: Outcome) {
    c.Wrap? &&
    (Retried(c.next, o) || (c.outer.Retry? && c.outer.maxRetries > 0 && GoesOn(c.outer, Surfacing(c.next, o))))
  }

  ghost predicate RetriesRun(c: Chain) {
    c.Wrap? ==> RetriesRun(c.next) && (c.outer.Retry? ==> c.outer.maxRetries >= 0)
  }

  ghost predicate Queueless(c: Chain) {
    c.Wrap? ==> Queueless(c.next) && !c.outer.PoisonQueue? && !c.outer.DeadLetterQueue?
  }

  /** Nothing but the chain itself decides: no pause is cut off, and queues can publish. */
  ghost predicate Undisturbed(c: Chain, env: Env) {
    NeverInterrupts(env) && (Queueless(c) || PublishesWork(env))
  }

  lemma {:induction false} AttemptsRun(
    c: Chain, attempt: nat, current: real, msg: Message, env: Env, w: World)
    requires c.Wrap? && c.outer.Retry? && RetriesRun(c) && attempt <= c.outer.maxRetries
    ensures Attempts(c, attempt, current, msg, env, w).1.calls >= Call(c.next, msg, env, w).1.calls > w.calls
    decreases c, 0, c.outer.maxRetries + 1 - attempt
  {
    HandlerRuns(c.next, msg, env, w);
    var (o, w1) := Call(c.next, msg, env, w);
    if o.Raised? && ShouldRetry(c.outer, o.error) && attempt < c.outer.maxRetries {
      AttemptAgain(c, attempt, current, msg, env, w);
      AttemptsRun(c, attempt + 1, NextDelay(c.outer, current), msg, env, Pause(c, current, env, w1).1);
    }
  }

  /** Every call of a chain runs the handler at least once. */
  lemma {:induction false} HandlerRuns(c: Chain, msg: Message, env: Env, w: World)
    requires RetriesRun(c)
    ensures Call(c, msg, env, w).1.calls > w.calls
    decreases c, 1, 0
  {
    if c.Wrap? {
      if c.outer.Retry? { AttemptsRun(c, 0, c.outer.delay, msg, env, w); } else { HandlerRuns(c.next, msg, env, w); }
    }
  }

  lemma RetryGoesOnIff(c: Chain, msg: Message, env: Env, w: World)
    requires c.Wrap? && c.outer.Retry? && RetriesRun(c) && NeverInterrupts(env)
    ensures var (o, w1) := Call(c.next, msg, env, w);
            var again := c.outer.maxRetries > 0 && GoesOn(c.outer, o);
            if again then Call(c, msg, env, w).1.calls > w1.calls else Call(c, msg, env, w) == (Final(o), w1)
  {
    var (o, w1) := Call(c.next, msg, env, w);
    if c.outer.maxRetries > 0 && GoesOn(c.outer, o) {
      AttemptAgain(c, 0, c.outer.delay, msg, env, w);
      AttemptsRun(c, 1, NextDelay(c.outer, c.outer.delay), msg, env, Pause(c, c.outer.delay, env, w1).1);
    }
  }

  /**
   For any chain, the handler runs exactly once if and only if no retry goes on after what reaches it
   from the first run; and then that is what leaves the chain.
   */
  lemma {:induction false} RunsOnceIff(c: Chain, msg: Message, env: Env, w: World)
    requires RetriesRun(c) && Undisturbed(c, env)
    ensures Call(c, msg, env, w).1.calls == w.calls + 1 <==> !Retried(c, env.script(w.calls))
    ensures !Retried(c, env.script(w.calls)) ==> Call(c, msg, env, w).0 == Surfacing(c, env.script(w.calls))
  {
    if c.Wrap? {
      RunsOnceIff(c.next, msg, env, w);
      HandlerRuns(c.next, msg, env, w);
      if c.outer.Retry? {
        RetryGoesOnIff(c, msg, env, w);
        AttemptsRun(c, 0, c.outer.delay, msg, env, w);
      }
    }
  }

  // ---- a permanent error ----------------------------------------------------------------------------

  ghost predicate HasRetry(c: Chain) {
    c.Wrap? && (c.outer.Retry? || HasRetry(c.next))
  }

  /** Some retry with another retry inside it has attempts left and takes the unwrapped exception. */
  ghost predicate RetriedOutside(c: Chain, e: Error) {
    c.Wrap? &&
    (|| RetriedOutside(c.next, e)
     || (c.outer.Retry? && c.outer.maxRetries > 0 && HasRetry(c.next) && IsAmong(c.outer.retryOn, e)))
  }

  lemma {:induction false} PermanentSurfaces(c: Chain, e: Error)
    requires Queueless(c) && !e.Permanent?
    ensures Surfacing(c, Raised(Permanent(e))) == Raised(if HasRetry(c) then e else Permanent(e))
    ensures Retried(c, Raised(Permanent(e))) <==> RetriedOutside(c, e)
  {
    if c.Wrap? { PermanentSurfaces(c.next, e); }
  }

  /**
   `PermanentError` keeps its promise, one run of the handler, exactly if no retry with another retry
   inside it has attempts left and takes the cause: the inner one passes it on unwrapped.
   */
  lemma PermanentRunsOnceIff(c: Chain, e: Error, msg: Message, env: Env, w: World)
    requires RetriesRun(c) && Queueless(c) && NeverInterrupts(env)
    requires env.script(w.calls) == Raised(Permanent(e)) && !e.Permanent?
    ensures Call(c, msg, env, w).1.calls == w.calls + 1 <==> !RetriedOutside(c, e)
  {
    RunsOnceIff(c, msg, env, w);
    PermanentSurfaces(c, e);
  }

  /** Two nested retries of everything, the outer one with attempts left, break it whatever follows. */
  lemma PermanentIsRetriedOutside(
    outer: Middleware, inner: Middleware, e: Error, msg: Message, env: Env, w: World)
    requires outer.Retry? && inner.Retry? && inner.maxRetries >= 0 && outer.maxRetries > 0 && outer.retryOn.None?
    requires NeverInterrupts(env) && env.script(w.calls) == Raised(Permanent(e)) && !e.Permanent?
    ensures Call(Wrap(inner, Handler), msg, env, w).1.calls == w.calls + 1
    ensures Call(Wrap(outer, Wrap(inner, Handler)), msg, env, w).1.calls > w.calls + 1
  {
    var c := Wrap(outer, Wrap(inner, Handler));
    PermanentRunsOnceIff(Wrap(inner, Handler), e, msg, env, w);
    PermanentRunsOnceIff(c, e, msg, env, w);
    HandlerRuns(c, msg, env, w);
  }
}
