/** What the poison and dead-letter queues catch, and what they send. */
module Queues {
  import opened Options
  import opened Messages
  import opened Middleware

  predicate IsQueue(q: Middleware) {
    q.PoisonQueue? || q.DeadLetterQueue?
  }

  /** A permanent error has a type of its own. */
  ghost function KindOf(e: Error): nat {
    if e.Plain? then e.kind else PERMANENT_KIND
  }

  /** The exception has one of the types. */
  ghost predicate IsAmong(types: Types, e: Error) {
    types.Some? ==> KindOf(e) in types.value
  }

  const POISON_KEYS := {"reason_poisoned", "handler_poisoned", "subscriber_poisoned", "topic_poisoned", "traceback"}

  /** What it says: a permanent error says what its cause says. */
  ghost function Says(e: Error): string {
    if e.Plain? then e.text else Says(e.cause)
  }

  /** The entry of that key is this value if it is present, and otherwise that of the original message, if any. */
  ghost predicate Entry(
    m: map<string, string>, original: map<string, string>, key: string, present: bool, value: string)
  {
    if present then key in m && m[key] == value
    else (key in m <==> key in original) && (key in m ==> m[key] == original[key])
  }

  /** p is msg as the poison queue reports it: a new message with its payload and metadata, and the circumstances. */
  ghost predicate PoisonOf(q: Middleware, p: Message, msg: Message, e: Error, env: Env)
    requires q.PoisonQueue?
  {
    var topic := if "_topic" in msg.metadata then msg.metadata["_topic"] else "";
    && (exists n :: p.uuid == env.uuid(n)) && p.payload == msg.payload
    && Entry(p.metadata, msg.metadata, "reason_poisoned", true, Says(e))
    && Entry(p.metadata, msg.metadata, "handler_poisoned", q.handlerName != "", q.handlerName)
    && Entry(p.metadata, msg.metadata, "subscriber_poisoned", q.subscriberName != "", q.subscriberName)
    && Entry(p.metadata, msg.metadata, "topic_poisoned", topic != "", topic)
    && Entry(p.metadata, msg.metadata, "traceback", q.traceback, env.traceback(e))
    && forall key :: key !in POISON_KEYS ==> Entry(p.metadata, msg.metadata, key, false, "")
  }

  /** Likewise for the dead-letter queue. */
  ghost predicate DeadLetterOf(q: Middleware, p: Message, msg: Message, e: Error, env: Env)
    requires q.DeadLetterQueue?
  {
    && (exists n :: p.uuid == env.uuid(n)) && p.payload == msg.payload
    && Entry(p.metadata, msg.metadata, "dlq.error", true, Says(e))
    && Entry(p.metadata, msg.metadata, "dlq.error_type", true, env.typeName(KindOf(e)))
    && Entry(p.metadata, msg.metadata, "dlq.original_uuid", true, env.show(msg.uuid))
    && Entry(p.metadata, msg.metadata, "dlq.traceback", q.traceback, env.traceback(e))
    && forall key :: key !in {"dlq.error", "dlq.error_type", "dlq.original_uuid", "dlq.traceback"} ==>
         Entry(p.metadata, msg.metadata, key, false, "")
  }

  ghost predicate ReportOf(q: Middleware, p: Message, msg: Message, e: Error, env: Env)
    requires IsQueue(q)
  {
    if q.PoisonQueue? then PoisonOf(q, p, msg, e, env) else DeadLetterOf(q, p, msg, e, env)
  }

  /** The message that the queue makes. */
  function Report(q: Middleware, msg: Message, e: Error, env: Env, n: nat): Message
    requires IsQueue(q)
  {
    if q.PoisonQueue? then Poisoned(q, msg, e, env, n) else DeadLetter(q, msg, e, env, n)
  }

  lemma {:induction false} SaysText(e: Error)
    ensures e.Text() == Says(e)
  {
    if e.Permanent? { SaysText(e.cause); }
  }

  lemma PoisonedIsPoisonOf(q: Middleware, msg: Message, e: Error, env: Env, n: nat)
    requires q.PoisonQueue?
    ensures PoisonOf(q, Poisoned(q, msg, e, env, n), msg, e, env)
  {
    SaysText(e);
    assert Poisoned(q, msg, e, env, n).uuid == env.uuid(n);
  }

  lemma DeadLetterIsDeadLetterOf(q: Middleware, msg: Message, e: Error, env: Env, n: nat)
    requires q.DeadLetterQueue?
    ensures DeadLetterOf(q, DeadLetter(q, msg, e, env, n), msg, e, env)
  {
    SaysText(e);
    assert DeadLetter(q, msg, e, env, n).uuid == env.uuid(n);
  }

  /**
   A queue catches an exception exactly if it has one of the types to catch: then it sends one report to its
   topic, and returns without output if that works, or ends as the publish does. Anything else passes it as
   it is, and nothing is sent.
   */
  lemma QueueCatches(c: Chain, msg: Message, env: Env, w: World) returns (p: Message)
    requires c.Wrap? && IsQueue(c.outer)
    ensures var (o, w1) := Call(c.next, msg, env, w);
            var (r, t) := Call(c, msg, env, w);
      if o.Raised? && IsAmong(c.outer.catch, o.error) then
        var works := env.publish(w1.publishes).Returned?;
        && ReportOf(c.outer, p, msg, o.error, env)
        && r == (if works then Returned([]) else env.publish(w1.publishes))
        && t.sent == w1.sent + (if works then [Sent(c.Depth(), c.outer.topic, p)] else [])
        && t.publishes == w1.publishes + 1
        && t.calls == w1.calls && t.sleeps == w1.sleeps && t.callbacks == w1.callbacks
      else r == o && t == w1
  {
    var (o, w1) := Call(c.next, msg, env, w);
    p := msg;
    if o.Raised? && Matches(c.outer.catch, o.error) {
      p := Report(c.outer, msg, o.error, env, w1.publishes);
      if c.outer.PoisonQueue? {
        PoisonedIsPoisonOf(c.outer, msg, o.error, env, w1.publishes);
      } else {
        DeadLetterIsDeadLetterOf(c.outer, msg, o.error, env, w1.publishes);
      }
    }
  }
}
