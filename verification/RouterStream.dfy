/** One handler loop of the router over its messages: chain building, settlement and poison queue. */
module RouterStream {
  import opened Options
  import opened Middleware
  import opened Messages

  /** The chain with the first middleware outermost. */
  function Nest(ms: seq<Middleware>): Chain {
    if ms == [] then Handler else Wrap(ms[0], Nest(ms[1..]))
  }

  lemma {:induction false} NestSplits(ms: seq<Middleware>, i: nat)
    requires i < |ms|
    ensures Nest(ms[i..]) == Wrap(ms[i], Nest(ms[i + 1..]))
  {
  }

  /** The middlewares of a chain from the outermost inwards. */
  ghost function Layers(c: Chain): seq<Middleware> {
    if c.Handler? then [] else [c.outer] + Layers(c.next)
  }

  lemma {:induction false} LayersOfNest(ms: seq<Middleware>)
    ensures Layers(Nest(ms)) == ms
  {
    if ms != [] { LayersOfNest(ms[1..]); }
  }

  /** What happened to the stream: one settlement per pulled message, and what cut it short, if anything. */
  datatype Ending = Ending(settled: seq<Messages.Settlement>, broken: Option<Outcome>, world: World)

  const ALREADY_ACKED := Plain(2, "Cannot nack a message that has been acked")

  /** `outputTopic` is `None` for a handler without publisher. */
  datatype Setup = Setup(chain: Chain, outputTopic: Option<string>)

  /** Publishing the outputs one by one; the first failure ends it. */
  function PublishAll(outputs: seq<Message>, topic: string, env: Env, w: World): (r: (Outcome, World))
    ensures r.1.calls == w.calls
  {
    if outputs == [] then (Returned([]), w)
    else
      var (o, w1) := Publish(w, env, 0, topic, outputs[0]);
      if o.Returned? then PublishAll(outputs[1..], topic, env, w1) else (o, w1)
  }

  /** The callback that `ack` or `nack` runs after it has set the flag. */
  function Callback(w: World, env: Env): (Option<Error>, World) {
    (env.callback(w.callbacks), w.(callbacks := w.callbacks + 1))
  }

  /** What is left of a failure of something that comes after `ack()`: nack() refuses the acked message. */
  function AfterAck(failure: Outcome): Outcome {
    if failure.Raised? then Raised(ALREADY_ACKED) else failure
  }

  /** The processing of one message: its settlement and what leaves the loop, if anything. */
  function Process(su: Setup, msg: Message, env: Env, w: World): (Messages.Settlement, Option<Outcome>, World) {
    match Call(su.chain, msg, env, w)
    case (Cancelled(d), w1) => (UNSETTLED, Some(Cancelled(d)), w1)
    case (Raised(e), w1) =>
      var (failure, w2) := Callback(w1, env);
      (NACKED, Some(Raised(if failure.Some? then failure.value else e)), w2)
    case (Returned(outputs), w1) =>
      var (failure, w2) := Callback(w1, env);
      if failure.Some? then (ACKED, Some(AfterAck(Raised(failure.value))), w2)
      else if outputs == [] || su.outputTopic.None? then (ACKED, None, w2)
      else
        var (o, w3) := PublishAll(outputs, su.outputTopic.value, env, w2);
        (ACKED, if o.Returned? then None else Some(AfterAck(o)), w3)
  }

  /** The whole loop; from message `closesAt` on, the router is closing. */
  function RunStream(su: Setup, msgs: seq<Message>, closesAt: nat, env: Env, w: World): (r: Ending)
    ensures |r.settled| <= |msgs|
    decreases |msgs|
  {
    if msgs == [] then Ending([], None, w)
    else if closesAt == 0 then
      var (failure, w1) := Callback(w, env);
      Ending([NACKED], if failure.Some? then Some(Raised(failure.value)) else None, w1)
    else
      var (s, broken, w1) := Process(su, msgs[0], env, w);
      if broken.Some? then Ending([s], broken, w1)
      else
        var rest := RunStream(su, msgs[1..], closesAt - 1, env, w1);
        Ending([s] + rest.settled, rest.broken, rest.world)
  }

  /** A run that follows on settlements made earlier. */
  function Following(done: seq<Messages.Settlement>, r: Ending): Ending {
    r.(settled := done + r.settled)
  }

  lemma StreamAt(
    su: Setup, msgs: seq<Message>, n: nat, closesAt: nat, env: Env, w: World, done: seq<Messages.Settlement>)
    requires n < |msgs| && n < closesAt
    ensures var (s, broken, w1) := Process(su, msgs[n], env, w);
            Following(done, RunStream(su, msgs[n..], closesAt - n, env, w)) ==
            if broken.Some? then Ending(done + [s], broken, w1)
            else Following(done + [s], RunStream(su, msgs[n + 1..], closesAt - (n + 1), env, w1))
  {
  }

  class Router {
    var middlewares: seq<Middleware>
    var inFlight: int
    var closing: bool

    constructor ()
      ensures middlewares == [] && inFlight == 0 && !closing
    {
      middlewares, inFlight, closing := [], 0, false;
    }

    method AddMiddleware(m: Middleware)
      modifies this`middlewares
      ensures middlewares == old(middlewares) + [m]
    {
      middlewares := middlewares + [m];
    }

    /** The two reversed loops put the first router middleware outermost and the last handler one innermost. */
    method BuildChain(handlerMiddlewares: seq<Middleware>) returns (c: Chain)
      ensures c == Nest(middlewares + handlerMiddlewares)
      ensures Layers(c) == middlewares + handlerMiddlewares
    {
      c := Handler;
      var all := middlewares + handlerMiddlewares;
      var i := |handlerMiddlewares|;
      while i > 0
        invariant 0 <= i <= |handlerMiddlewares|
        invariant c == Nest(all[|middlewares| + i..])
      {
        i := i - 1;
        c := Wrap(handlerMiddlewares[i], c);
        NestSplits(all, |middlewares| + i);
      }
      i := |middlewares|;
      while i > 0
        invariant 0 <= i <= |middlewares|
        invariant c == Nest(all[i..])
      {
        i := i - 1;
        c := Wrap(middlewares[i], c);
        NestSplits(all, i);
      }
      assert all[0..] == all;
      LayersOfNest(all);
    }

    /** The try block of the loop for one message. */
    method ProcessOne(su: Setup, msg: Message, env: Env, w: World)
      returns (settled: Messages.Settlement, broken: Option<Outcome>, t: World)
      modifies this`inFlight
      ensures (settled, broken, t) == Process(su, msg, env, w)
      ensures inFlight == old(inFlight)
    {
      inFlight := inFlight + 1;
      var (o, after) := Call(su.chain, msg, env, w);
      settled, broken, t := UNSETTLED, None, after;
      var raised: Option<Error> := None;
      match o {
        case Cancelled(d) => broken := Some(o);
        case Raised(e) => raised := Some(e);
        case Returned(outputs) =>
          settled := Messages.Ack(settled).0;
          var (failure, called) := Callback(t, env);
          raised, t := failure, called;
          if failure.None? && outputs != [] && su.outputTopic.Some? {
            var (p, published) := PublishAll(outputs, su.outputTopic.value, env, t);
            t := published;
            if p.Raised? {
              raised := Some(p.error);
            } else if p.Cancelled? {
              broken := Some(p);
            }
          }
      }
      if raised.Some? {
        // the except block: nack() and raise
        var (flags, reply) := Messages.Nack(settled);
        settled := flags;
        if reply.Rejected? {
          broken := Some(Raised(ALREADY_ACKED));
        } else {
          var (failure, called) := Callback(t, env);
          broken, t := Some(Raised(if failure.Some? then failure.value else raised.value)), called;
        }
      }
      inFlight := inFlight - 1;
    }

    /** The loop over the subscription. `in_flight` is back where it was, however the loop ends. */
    method RunHandler(handlerMiddlewares: seq<Middleware>, outputTopic: Option<string>,
                      msgs: seq<Message>, closesAt: nat, env: Env, w: World)
      returns (r: Ending)
      requires !closing
      modifies this`inFlight, this`closing
      ensures r == RunStream(Setup(Nest(middlewares + handlerMiddlewares), outputTopic), msgs, closesAt, env, w)
      ensures inFlight == old(inFlight)
    {
      var chain := BuildChain(handlerMiddlewares);
      var su := Setup(chain, outputTopic);
      var done: seq<Messages.Settlement> := [];
      var t := w;
      var n := 0;
      while n < |msgs|
        invariant n <= |msgs| && n <= closesAt && !closing
        invariant inFlight == old(inFlight)
        invariant RunStream(su, msgs, closesAt, env, w) ==
                  Following(done, RunStream(su, msgs[n..], closesAt - n, env, t))
      {
        if n == closesAt {
          closing := true;
        }
        if closing {
          var (failure, called) := Callback(t, env);
          return Ending(done + [Messages.Nack(UNSETTLED).0],
                        if failure.Some? then Some(Raised(failure.value)) else None, called);
        }
        StreamAt(su, msgs, n, closesAt, env, t, done);
        var settled, broken, after := ProcessOne(su, msgs[n], env, t);
        done, t, n := done + [settled], after, n + 1;
        if broken.Some? {
          return Ending(done, broken, t);
        }
      }
      return Ending(done, None, t);
    }
  }

  // ---- one message -------------------------------------------------------------------------------------

  /** The outputs that are to be published once the message is acked. */
  ghost function DueOutputs(su: Setup, o: Outcome, acking: Option<Error>): seq<Message> {
    if o.Returned? && acking == None && su.outputTopic != None then o.outputs else []
  }

  ghost function SentTo(topic: string, outputs: seq<Message>): (sent: seq<Sent>)
    ensures |sent| == |outputs| && forall j :: 0 <= j < |sent| ==> sent[j] == Sent(0, topic, outputs[j])
  {
    seq(|outputs|, j requires 0 <= j < |outputs| => Sent(0, topic, outputs[j]))
  }

  /** The first n outputs were published to the topic in order, and then one failed unless these are all. */
  ghost predicate Published(topic: string, outputs: seq<Message>, n: nat, env: Env, w: World, t: World) {
    && n <= |outputs|
    && (forall p: nat :: w.publishes <= p < w.publishes + n ==> env.publish(p).Returned?)
    && (n < |outputs| ==> !env.publish(w.publishes + n).Returned?)
    && t.sent == w.sent + SentTo(topic, outputs[..n])
    && t.publishes == w.publishes + n + if n < |outputs| then 1 else 0
  }

  /** What leaves the loop after that outcome of the handler and of the callback of ack or nack. */
  ghost function Leaves(o: Outcome, called: Option<Error>, publishing: Option<Outcome>): Option<Outcome> {
    match o
    case Cancelled(_) => Some(o)
    case Raised(e) => if called.Some? then Some(Raised(called.value)) else Some(o)
    case Returned(_) =>
      // whatever raises after the ack makes nack() raise
      if called.Some? || (publishing.Some? && publishing.value.Raised?) then Some(Raised(ALREADY_ACKED))
      else publishing
  }

  /**
   How a message is handled, by the outcome of its chain: acked if the chain returns, nacked if it raises,
   left alone if it is cancelled; its callback runs, the due outputs are published, and nothing leaves the
   loop exactly if the chain returned and all of this worked.
   */
  ghost predicate Handled(
    su: Setup, msg: Message, env: Env, w: World, s: Messages.Settlement, leaves: Option<Outcome>, t: World, n: nat)
  {
    var (o, w1) := Call(su.chain, msg, env, w);
    var called := if o.Cancelled? then None else env.callback(w1.callbacks);
    var outputs := DueOutputs(su, o, called);
    && (s.acked <==> o.Returned?) && (s.nacked <==> o.Raised?)
    && Published(if su.outputTopic.Some? then su.outputTopic.value else "", outputs, n, env, w1, t)
    && t.callbacks == w1.callbacks + (if o.Cancelled? then 0 else 1)
    && t.calls == w1.calls && t.sleeps == w1.sleeps
    && leaves == Leaves(o, called, if n < |outputs| then Some(env.publish(w1.publishes + n)) else None)
    && (leaves == None <==> o.Returned? && called == None && n == |outputs|)
  }

  /** One more output in front, whose publish has worked. */
  lemma PublishedBefore(topic: string, outputs: seq<Message>, m: nat, env: Env, w: World, t: World)
    requires outputs != [] && env.publish(w.publishes).Returned?
    requires Published(topic, outputs[1..], m, env, Publish(w, env, 0, topic, outputs[0]).1, t)
    ensures Published(topic, outputs, m + 1, env, w, t)
  {
    assert SentTo(topic, outputs[..m + 1]) == [Sent(0, topic, outputs[0])] + SentTo(topic, outputs[1..][..m]);
  }

  lemma {:induction false} OutputsArePublished(topic: string, outputs: seq<Message>, env: Env, w: World)
    returns (n: nat)
    ensures var (o, t) := PublishAll(outputs, topic, env, w);
      && Published(topic, outputs, n, env, w, t)
      && o == (if n < |outputs| then env.publish(w.publishes + n) else Returned([]))
      && t.callbacks == w.callbacks && t.sleeps == w.sleeps
  {
    n := 0;
    if outputs == [] {
      assert w.sent + SentTo(topic, []) == w.sent;
    } else {
      var (o, w1) := Publish(w, env, 0, topic, outputs[0]);
      if o.Returned? {
        var m := OutputsArePublished(topic, outputs[1..], env, w1);
        n := m + 1;
        PublishedBefore(topic, outputs, m, env, w, PublishAll(outputs, topic, env, w).1);
      } else {
        assert w.sent + SentTo(topic, outputs[..0]) == w.sent;
      }
    }
  }

  lemma NothingPublished(topic: string, outputs: seq<Message>, env: Env, w: World, t: World)
    requires outputs == [] && t.sent == w.sent && t.publishes == w.publishes
    ensures Published(topic, outputs, 0, env, w, t)
  {
    assert w.sent + SentTo(topic, []) == w.sent;
  }

  ghost predicate HandledSomehow(
    su: Setup, msg: Message, env: Env, w: World, s: Messages.Settlement, leaves: Option<Outcome>, t: World)
  {
    exists n :: Handled(su, msg, env, w, s, leaves, t, n)
  }

  lemma ProcessIsHandled(su: Setup, msg: Message, env: Env, w: World)
    ensures var (s, leaves, t) := Process(su, msg, env, w); HandledSomehow(su, msg, env, w, s, leaves, t)
  {
    var n := ProcessHandles(su, msg, env, w);
  }

  lemma SettledByOutcome(
    su: Setup, msg: Message, env: Env, w: World, s: Messages.Settlement, leaves: Option<Outcome>, t: World)
    requires HandledSomehow(su, msg, env, w, s, leaves, t)
    ensures var o := Call(su.chain, msg, env, w).0; (s.acked <==> o.Returned?) && (s.nacked <==> o.Raised?)
    ensures leaves == None ==> s == ACKED
  {
    var n :| Handled(su, msg, env, w, s, leaves, t, n);
    assert s == Settlement(s.acked, s.nacked);
  }

  lemma ProcessHandles(su: Setup, msg: Message, env: Env, w: World) returns (n: nat)
    ensures var (s, leaves, t) := Process(su, msg, env, w); Handled(su, msg, env, w, s, leaves, t, n)
  {
    var (o, w1) := Call(su.chain, msg, env, w);
    var t := Process(su, msg, env, w).2;
    if o.Returned? && env.callback(w1.callbacks).None? && su.outputTopic.Some? && o.outputs != [] {
      n := OutputsArePublished(su.outputTopic.value, o.outputs, env, Callback(w1, env).1);
    } else {
      n := 0;
      NothingPublished(if su.outputTopic.Some? then su.outputTopic.value else "", [], env, w1, t);
    }
  }

  // ---- the whole stream --------------------------------------------------------------------------------

  /** What leaves the loop with message i: nothing, unless it is the last one. */
  ghost function LeavesWith(r: Ending, i: nat): Option<Outcome> {
    if i + 1 < |r.settled| then None else r.broken
  }

  /** A message pulled while closing is nacked and never handled. */
  ghost predicate Refused(env: Env, w: World, s: Messages.Settlement, leaves: Option<Outcome>, t: World) {
    && s == NACKED && t == w.(callbacks := w.callbacks + 1)
    && leaves == if env.callback(w.callbacks).Some? then Some(Raised(env.callback(w.callbacks).value)) else None
  }

  /** What became of message i, in the world that the earlier ones have left. */
  ghost predicate Explained(
    su: Setup, msgs: seq<Message>, closesAt: nat, env: Env, r: Ending, ws: seq<World>, i: nat)
    requires i < |r.settled| <= |msgs| && |ws| == |r.settled| + 1
  {
    if i < closesAt then HandledSomehow(su, msgs[i], env, ws[i], r.settled[i], LeavesWith(r, i), ws[i + 1])
    else i == closesAt && i + 1 == |r.settled| && Refused(env, ws[i], r.settled[i], r.broken, ws[i + 1])
  }

  /** All of them, from the first world to the last. */
  ghost predicate AllExplained(
    su: Setup, msgs: seq<Message>, closesAt: nat, env: Env, w: World, r: Ending, ws: seq<World>)
  {
    && |r.settled| <= |msgs| && |ws| == |r.settled| + 1 && ws[0] == w && ws[|r.settled|] == r.world
    && forall i: nat :: i < |r.settled| ==> Explained(su, msgs, closesAt, env, r, ws, i)
  }

  lemma OneMoreExplained(su: Setup, msgs: seq<Message>, closesAt: nat, env: Env, w: World, ws: seq<World>)
    requires msgs != [] && closesAt > 0 && Process(su, msgs[0], env, w).1.None?
    requires var w1 := Process(su, msgs[0], env, w).2;
             AllExplained(su, msgs[1..], closesAt - 1, env, w1, RunStream(su, msgs[1..], closesAt - 1, env, w1), ws)
    ensures AllExplained(su, msgs, closesAt, env, w, RunStream(su, msgs, closesAt, env, w), [w] + ws)
  {
    var w1 := Process(su, msgs[0], env, w).2;
    var rest, r := RunStream(su, msgs[1..], closesAt - 1, env, w1), RunStream(su, msgs, closesAt, env, w);
    assert r.settled == [Process(su, msgs[0], env, w).0] + rest.settled;
    forall i: nat | i < |r.settled| ensures Explained(su, msgs, closesAt, env, r, [w] + ws, i) {
      if i == 0 {
        ProcessIsHandled(su, msgs[0], env, w);
      } else {
        assert Explained(su, msgs[1..], closesAt - 1, env, rest, ws, i - 1);
        assert LeavesWith(r, i) == LeavesWith(rest, i - 1);
      }
    }
  }

  lemma {:induction false} StreamExplained(su: Setup, msgs: seq<Message>, closesAt: nat, env: Env, w: World)
    returns (ws: seq<World>)
    ensures AllExplained(su, msgs, closesAt, env, w, RunStream(su, msgs, closesAt, env, w), ws)
    decreases |msgs|
  {
    if msgs == [] {
      ws := [w];
    } else if closesAt == 0 {
      ws := [w, RunStream(su, msgs, closesAt, env, w).world];
    } else if Process(su, msgs[0], env, w).1.Some? {
      ws := [w, RunStream(su, msgs, closesAt, env, w).world];
      ProcessIsHandled(su, msgs[0], env, w);
      assert Explained(su, msgs, closesAt, env, RunStream(su, msgs, closesAt, env, w), ws, 0);
    } else {
      var rest := StreamExplained(su, msgs[1..], closesAt - 1, env, Process(su, msgs[0], env, w).2);
      OneMoreExplained(su, msgs, closesAt, env, w, rest);
      ws := [w] + rest;
    }
  }

  /** An unbroken loop ends at the end of the stream, or after the first message refused. */
  lemma {:induction false} UnbrokenLength(su: Setup, msgs: seq<Message>, closesAt: nat, env: Env, w: World)
    ensures var r := RunStream(su, msgs, closesAt, env, w);
      && (r.broken.None? ==> |r.settled| == if |msgs| <= closesAt then |msgs| else closesAt + 1)
      && (r.broken.Some? ==> r.settled != [])
    decreases |msgs|
  {
    if msgs != [] && closesAt > 0 {
      UnbrokenLength(su, msgs[1..], closesAt - 1, env, Process(su, msgs[0], env, w).2);
    }
  }

  /**
   Whatever the chain and the callbacks do, every message that is pulled is explained by what its chain did in
   the world that the earlier messages left: acked if that returned, nacked if it raised, left alone if it was
   cancelled, with its outputs published in order. All but the last are acked. The last one is nacked exactly
   if its chain raised or the router was closing. The loop goes through the whole subscription, or ends after
   the message that broke it or the one refused.
   */
  lemma StreamSettles(su: Setup, msgs: seq<Message>, closesAt: nat, env: Env, w: World) returns (ws: seq<World>)
    ensures var r := RunStream(su, msgs, closesAt, env, w);
      && AllExplained(su, msgs, closesAt, env, w, r, ws)
      && |r.settled| <= closesAt + 1
      && (forall i: nat :: i + 1 < |r.settled| ==> r.settled[i] == ACKED)
      && (r.broken.None? ==> |r.settled| == if |msgs| <= closesAt then |msgs| else closesAt + 1)
      && (r.settled != [] ==>
            var last := |r.settled| - 1;
            && (r.settled[last].nacked <==> last == closesAt || Call(su.chain, msgs[last], env, ws[last]).0.Raised?)
            && (r.settled[last].acked <==> last < closesAt && Call(su.chain, msgs[last], env, ws[last]).0.Returned?))
  {
    ws := StreamExplained(su, msgs, closesAt, env, w);
    UnbrokenLength(su, msgs, closesAt, env, w);
    var r := RunStream(su, msgs, closesAt, env, w);
    forall i: nat | i < |r.settled|
      ensures i <= closesAt
      ensures i + 1 < |r.settled| ==> r.settled[i] == ACKED
      ensures r.settled[i].nacked <==> i == closesAt || Call(su.chain, msgs[i], env, ws[i]).0.Raised?
      ensures r.settled[i].acked <==> i < closesAt && Call(su.chain, msgs[i], env, ws[i]).0.Returned?
    {
      assert Explained(su, msgs, closesAt, env, r, ws, i);
      if i < closesAt {
        SettledByOutcome(su, msgs[i], env, ws[i], r.settled[i], LeavesWith(r, i), ws[i + 1]);
      }
    }
    if r.settled != [] { assert Explained(su, msgs, closesAt, env, r, ws, |r.settled| - 1); }
  }
}
