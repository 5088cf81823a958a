/**
 The middleware chain of a router handler. The innermost handler is a script of outcomes, one per
 invocation; what middlewares do besides calling on is recorded in a world.
 */
module Middleware {
  import opened Options
  import opened Messages

  /** `Permanent` is `PermanentError`; other exceptions have a type and a text. */
  datatype Error = Plain(kind: nat, text: string) | Permanent(cause: Error) {
    function Text(): string {
      match this
      case Plain(_, text) => text
      case Permanent(cause) => cause.Text()
    }

    function Kind(): nat {
      match this
      case Plain(kind, _) => kind
      case Permanent(_) => PERMANENT_KIND
    }
  }

  const PERMANENT_KIND: nat := 0
  const RUNTIME_ERROR := Plain(1, "Retry failed unexpectedly")
  const TIMEOUT_ERROR := Plain(3, "")

  /**
   How a call ends. `Cancelled(d)` is not an exception that handlers catch: the timeout at depth d of the
   chain, or something outside of the whole chain, has cut it off.
   */
  datatype Outcome = Returned(outputs: seq<Message>) | Raised(error: Error) | Cancelled(depth: nat)

  /** A tuple of exception types; `None` for all of them. */
  type Types = Option<set<nat>>

  predicate Matches(types: Types, e: Error) {
    types.None? || e.Kind() in types.value
  }

  datatype Middleware =
    | Retry(maxRetries: int, delay: real, backoff: real, jitter: real, retryOn: Types)
    | PoisonQueue(topic: string, handlerName: string, subscriberName: string, catch: Types, traceback: bool)
    | DeadLetterQueue(topic: string, catch: Types, traceback: bool)
    | Timeout(seconds: real)
    | Recoverer

  /** A handler with middlewares wrapped around it. */
  datatype Chain = Handler | Wrap(outer: Middleware, next: Chain) {
    function Depth(): nat {
      if Handler? then 0 else 1 + next.Depth()
    }
  }

  /**
   What the surroundings answer: runs of the handler; publishes, which work if they return; who cuts off
   the n-th pause; callbacks of ack and nack; random numbers, tracebacks, type names, uuids and their text.
   */
  datatype Env = Env(
    script: nat -> Outcome,
    publish: nat -> Outcome,
    interrupt: nat -> Option<nat>,
    callback: nat -> Option<Error>,
    uniform: nat -> real,
    traceback: Error -> string,
    typeName: nat -> string,
    uuid: nat -> Uuid,
    show: Uuid -> string)

  /** `depth` tells which middleware sent a message: the depth of the chain from it inwards. */
  datatype Sent = Sent(depth: nat, topic: string, message: Message)

  datatype World = World(calls: nat, sleeps: seq<real>, publishes: nat, sent: seq<Sent>, callbacks: nat)

  // ---- poison and dead-letter messages -----------------------------------------------------------

  function With(m: map<string, string>, use: bool, key: string, value: string): map<string, string> {
    if use then m[key := value] else m
  }

  function Poisoned(q: Middleware, msg: Message, e: Error, env: Env, n: nat): Message
    requires q.PoisonQueue?
  {
    var m1 := msg.metadata["reason_poisoned" := e.Text()];
    var m2 := With(m1, q.handlerName != "", "handler_poisoned", q.handlerName);
    var m3 := With(m2, q.subscriberName != "", "subscriber_poisoned", q.subscriberName);
    var topic := if "_topic" in msg.metadata then msg.metadata["_topic"] else "";
    var m4 := With(m3, topic != "", "topic_poisoned", topic);
    Message(env.uuid(n), msg.payload, With(m4, q.traceback, "traceback", env.traceback(e)))
  }

  function DeadLetter(q: Middleware, msg: Message, e: Error, env: Env, n: nat): Message
    requires q.DeadLetterQueue?
  {
    var m := msg.metadata["dlq.error" := e.Text()]
                         ["dlq.error_type" := env.typeName(e.Kind())]
                         ["dlq.original_uuid" := env.show(msg.uuid)];
    Message(env.uuid(n), msg.payload, With(m, q.traceback, "dlq.traceback", env.traceback(e)))
  }

  function Publish(w: World, env: Env, depth: nat, topic: string, m: Message): (Outcome, World) {
    match env.publish(w.publishes)
    case Returned(_) =>
      (Returned([]), w.(publishes := w.publishes + 1, sent := w.sent + [Sent(depth, topic, m)]))
    case failure => (failure, w.(publishes := w.publishes + 1))
  }

  // ---- calling a chain ---------------------------------------------------------------------------

  predicate ShouldRetry(r: Middleware, e: Error)
    requires r.Retry?
  {
    !e.Permanent? && Matches(r.retryOn, e)
  }

  /** `random.uniform(-range, range)` as a point of that interval. */
  function Jittered(r: Middleware, base: real, u: real): real
    requires r.Retry?
  {
    if r.jitter <= 0.0 then base else base + base * r.jitter * u
  }

  function NextDelay(r: Middleware, current: real): real
    requires r.Retry?
  {
    current * r.backoff
  }

  /** The exception that leaves the retry middleware. */
  function Unwrapped(e: Error): Error {
    if e.Permanent? then e.cause else e
  }

  /** The pause before the next attempt, and what cuts it off: only what surrounds it can. */
  function Pause(c: Chain, current: real, env: Env, w: World): (Option<nat>, World)
    requires c.Wrap? && c.outer.Retry?
  {
    var n := |w.sleeps|;
    var cut := env.interrupt(n);
    (if cut.Some? && cut.value > c.Depth() then cut else None,
     w.(sleeps := w.sleeps + [Jittered(c.outer, current, env.uniform(n))]))
  }

  function Call(c: Chain, msg: Message, env: Env, w: World): (Outcome, World)
    decreases c, 1, 0
  {
    match c
    case Handler => (env.script(w.calls), w.(calls := w.calls + 1))
    case Wrap(outer, next) =>
      match outer
      case Recoverer => Call(next, msg, env, w)
      case Timeout(_) =>
        var (o, w1) := Call(next, msg, env, w);
        (if o == Cancelled(c.Depth()) then Raised(TIMEOUT_ERROR) else o, w1)
      case Retry(_, _, _, _, _) => Attempts(c, 0, outer.delay, msg, env, w)
      case PoisonQueue(topic, _, _, catch, _) =>
        var (o, w1) := Call(next, msg, env, w);
        if o.Raised? && Matches(catch, o.error)
        then Publish(w1, env, c.Depth(), topic, Poisoned(outer, msg, o.error, env, w1.publishes))
        else (o, w1)
      case DeadLetterQueue(topic, catch, _) =>
        var (o, w1) := Call(next, msg, env, w);
        if o.Raised? && Matches(catch, o.error)
        then Publish(w1, env, c.Depth(), topic, DeadLetter(outer, msg, o.error, env, w1.publishes))
        else (o, w1)
  }

  /** The retry loop from the given attempt on. */
  function Attempts(c: Chain, attempt: nat, current: real, msg: Message, env: Env, w: World): (Outcome, World)
    requires c.Wrap? && c.outer.Retry?
    decreases c, 0, c.outer.maxRetries + 1 - attempt
  {
    var r := c.outer;
    if attempt > r.maxRetries then (Raised(RUNTIME_ERROR), w)
    else
      var (o, w1) := Call(c.next, msg, env, w);
      if !o.Raised? then (o, w1)
      else if !ShouldRetry(r, o.error) || attempt >= r.maxRetries then (Raised(Unwrapped(o.error)), w1)
      else
        var (cut, w2) := Pause(c, current, env, w1);
        if cut.Some? then (Cancelled(cut.value), w2)
        else Attempts(c, attempt + 1, NextDelay(r, current), msg, env, w2)
  }

  lemma AttemptAgain(c: Chain, attempt: nat, current: real, msg: Message, env: Env, w: World)
    requires c.Wrap? && c.outer.Retry? && attempt < c.outer.maxRetries
    requires var o := Call(c.next, msg, env, w).0; o.Raised? && ShouldRetry(c.outer, o.error)
    ensures var (cut, w2) := Pause(c, current, env, Call(c.next, msg, env, w).1);
            Attempts(c, attempt, current, msg, env, w) ==
            if cut.Some? then (Cancelled(cut.value), w2)
            else Attempts(c, attempt + 1, NextDelay(c.outer, current), msg, env, w2)
  {
  }

  /** The loop as it runs: attempts, the last exception and the growing delay. */
  method RunRetry(c: Chain, msg: Message, env: Env, w: World) returns (o: Outcome, t: World)
    requires c.Wrap? && c.outer.Retry?
    ensures (o, t) == Call(c, msg, env, w)
  {
    var r := c.outer;
    var last: Option<Error> := None;
    var current := r.delay;
    var attempt := 0;
    t := w;
    while attempt < r.maxRetries + 1
      invariant last.None? <==> attempt == 0
      invariant attempt == 0 || attempt <= r.maxRetries
      invariant Attempts(c, attempt, current, msg, env, t) == Call(c, msg, env, w)
      decreases r.maxRetries + 1 - attempt
    {
      ghost var before := t;
      var (result, after) := Call(c.next, msg, env, t);
      t := after;
      if !result.Raised? {
        assert Attempts(c, attempt, current, msg, env, before) == (result, t);
        return result, t;
      }
      last := Some(Unwrapped(result.error));
      if !ShouldRetry(r, result.error) || attempt >= r.maxRetries {
        assert Attempts(c, attempt, current, msg, env, before) == (Raised(last.value), t);
        break;
      }
      AttemptAgain(c, attempt, current, msg, env, before);
      var (cut, paused) := Pause(c, current, env, t);
      t := paused;
      if cut.Some? {
        return Cancelled(cut.value), t;
      }
      current := NextDelay(r, current);
      attempt := attempt + 1;
    }
    o := Raised(if last.Some? then last.value else RUNTIME_ERROR);
  }

  // ---- assumptions about the surroundings that theorems can make -----------------------------------

  ghost predicate PublishesWork(env: Env) {
    forall n :: env.publish(n).Returned?
  }

  ghost predicate CallbacksWork(env: Env) {
    forall n :: env.callback(n) == None
  }

  ghost predicate NeverInterrupts(env: Env) {
    forall n :: env.interrupt(n) == None
  }
}
