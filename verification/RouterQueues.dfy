/** Conservation behind a poison or dead-letter queue: what a handler loop acks, and what the queue sends. */
module RouterQueues {
  import opened Options
  import opened Middleware
  import opened Messages
  import opened Queues
  import opened RouterStream

  /** What the middleware of that depth has sent. */
  ghost function FromDepth(sent: seq<Sent>, depth: nat): seq<Sent> {
    if sent == [] then []
    else FromDepth(sent[..|sent| - 1], depth) + if sent[|sent| - 1].depth == depth then [sent[|sent| - 1]] else []
  }

  lemma SentAfter(now: seq<Sent>, was: seq<Sent>, more: Sent)
    requires now == was + [more]
    ensures FromDepth(now, more.depth) == FromDepth(was, more.depth) + [more]
  {
    assert now[..|now| - 1] == was;
  }

  lemma PublishFrom(w: World, env: Env, sender: nat, topic: string, m: Message, depth: nat)
    ensures var (o, t) := Publish(w, env, sender, topic, m);
            FromDepth(t.sent, depth) ==
            FromDepth(w.sent, depth) + if o.Returned? && sender == depth then [Sent(sender, topic, m)] else []
  {
  }

  lemma {:induction false} AttemptsSendInside(
    c: Chain, attempt: nat, current: real, msg: Message, env: Env, w: World, depth: nat)
    requires c.Wrap? && c.outer.Retry? && c.Depth() < depth
    ensures FromDepth(Attempts(c, attempt, current, msg, env, w).1.sent, depth) == FromDepth(w.sent, depth)
    decreases c, 0, c.outer.maxRetries + 1 - attempt
  {
    if attempt <= c.outer.maxRetries {
      SendsInside(c.next, msg, env, w, depth);
      var (o, w1) := Call(c.next, msg, env, w);
      if o.Raised? && ShouldRetry(c.outer, o.error) && attempt < c.outer.maxRetries {
        AttemptAgain(c, attempt, current, msg, env, w);
        AttemptsSendInside(c, attempt + 1, NextDelay(c.outer, current), msg, env, Pause(c, current, env, w1).1, depth);
      }
    }
  }

  /** A chain sends nothing on behalf of a middleware further out. */
  lemma {:induction false} SendsInside(c: Chain, msg: Message, env: Env, w: World, depth: nat)
    requires c.Depth() < depth
    ensures FromDepth(Call(c, msg, env, w).1.sent, depth) == FromDepth(w.sent, depth)
    decreases c, 1, 0
  {
    match c
    case Handler =>
    case Wrap(outer, next) =>
      match outer
      case Retry(_, _, _, _, _) => AttemptsSendInside(c, 0, outer.delay, msg, env, w, depth);
      case Recoverer => SendsInside(next, msg, env, w, depth);
      case Timeout(_) => SendsInside(next, msg, env, w, depth);
      case PoisonQueue(topic, _, _, catch, _) =>
        SendsInside(next, msg, env, w, depth);
        var (o, w1) := Call(next, msg, env, w);
        if o.Raised? {
          PublishFrom(w1, env, c.Depth(), topic, Poisoned(outer, msg, o.error, env, w1.publishes), depth);
        }
      case DeadLetterQueue(topic, catch, _) =>
        SendsInside(next, msg, env, w, depth);
        var (o, w1) := Call(next, msg, env, w);
        if o.Raised? {
          PublishFrom(w1, env, c.Depth(), topic, DeadLetter(outer, msg, o.error, env, w1.publishes), depth);
        }
  }

  lemma {:induction false} OutputsSendInside(outputs: seq<Message>, topic: string, env: Env, w: World, depth: nat)
    requires depth > 0
    ensures FromDepth(PublishAll(outputs, topic, env, w).1.sent, depth) == FromDepth(w.sent, depth)
  {
    if outputs != [] {
      var (o, w1) := Publish(w, env, 0, topic, outputs[0]);
      PublishFrom(w, env, 0, topic, outputs[0], depth);
      if o.Returned? { OutputsSendInside(outputs[1..], topic, env, w1, depth); }
    }
  }

  lemma {:induction false} OutputsWork(outputs: seq<Message>, topic: string, env: Env, w: World)
    requires PublishesWork(env)
    ensures PublishAll(outputs, topic, env, w).0.Returned?
  {
    if outputs != [] {
      OutputsWork(outputs[1..], topic, env, Publish(w, env, 0, topic, outputs[0]).1);
    }
  }

  /** The layer of that depth is a timeout. */
  ghost predicate TimeoutAt(c: Chain, d: nat) {
    c.Wrap? && (if c.Depth() == d then c.outer.Timeout? else TimeoutAt(c.next, d))
  }

  /** Nothing but a timeout of the chain cuts anything off. */
  ghost predicate OnlyTimeouts(c: Chain, env: Env) {
    && (forall n :: env.script(n).Cancelled? ==> TimeoutAt(c, env.script(n).depth))
    && (forall n :: env.interrupt(n).Some? ==> TimeoutAt(c, env.interrupt(n).value))
  }

  lemma {:induction false} TimeoutsInside(c: Chain, d: nat)
    requires TimeoutAt(c, d)
    ensures d <= c.Depth()
  {
    if c.Depth() != d { TimeoutsInside(c.next, d); }
  }

  lemma {:induction false} AttemptsEscape(
    c: Chain, attempt: nat, current: real, msg: Message, env: Env, w: World, full: Chain)
    requires c.Wrap? && c.outer.Retry? && PublishesWork(env) && OnlyTimeouts(full, env)
    ensures var o := Attempts(c, attempt, current, msg, env, w).0;
            o.Cancelled? ==> TimeoutAt(full, o.depth) && !TimeoutAt(c, o.depth)
    decreases c, 0, c.outer.maxRetries + 1 - attempt
  {
    if attempt <= c.outer.maxRetries {
      CutsEscape(c.next, msg, env, w, full);
      var (o, w1) := Call(c.next, msg, env, w);
      if o.Raised? && ShouldRetry(c.outer, o.error) && attempt < c.outer.maxRetries {
        AttemptAgain(c, attempt, current, msg, env, w);
        var (cut, w2) := Pause(c, current, env, w1);
        AttemptsEscape(c, attempt + 1, NextDelay(c.outer, current), msg, env, w2, full);
        if cut.Some? && TimeoutAt(c, cut.value) { TimeoutsInside(c, cut.value); }
      }
    }
  }

  /** A cancellation that leaves a chain is by a timeout further out. */
  lemma {:induction false} CutsEscape(c: Chain, msg: Message, env: Env, w: World, full: Chain)
    requires PublishesWork(env) && OnlyTimeouts(full, env)
    ensures var o := Call(c, msg, env, w).0;
            o.Cancelled? ==> TimeoutAt(full, o.depth) && !TimeoutAt(c, o.depth)
    decreases c, 1, 0
  {
    if c.Wrap? {
      if c.outer.Retry? {
        AttemptsEscape(c, 0, c.outer.delay, msg, env, w, full);
      } else {
        CutsEscape(c.next, msg, env, w, full);
      }
    }
  }

  /** The outermost middleware is a queue that catches everything. */
  ghost predicate QueueOutermost(su: Setup) {
    su.chain.Wrap? && IsQueue(su.chain.outer) && su.chain.outer.catch.None?
  }

  /** Such a chain in surroundings that work and do not cancel it. */
  ghost predicate Conserving(su: Setup, env: Env) {
    QueueOutermost(su) && PublishesWork(env) && CallbacksWork(env) && OnlyTimeouts(su.chain, env)
  }

  lemma InsideIsNotCancelled(su: Setup, msg: Message, env: Env, w: World)
    requires Conserving(su, env)
    ensures !Call(su.chain.next, msg, env, w).0.Cancelled?
  {
    CutsEscape(su.chain.next, msg, env, w, su.chain);
  }

  /** It was sent to the topic of the queue, and reports the failure. */
  ghost predicate Reported(q: Middleware, sent: Sent, msg: Message, e: Error, env: Env)
    requires IsQueue(q)
  {
    sent.topic == q.topic && ReportOf(q, sent.message, msg, e, env)
  }

  /** The exception, if any, that the chain inside the queue ends with. */
  ghost function Fate(su: Setup, msg: Message, env: Env, w: World): Option<Error>
    requires su.chain.Wrap?
  {
    var o := Call(su.chain.next, msg, env, w).0;
    if o.Raised? then Some(o.error) else None
  }

  /** The fate of each message. */
  ghost function Fates(su: Setup, msgs: seq<Message>, env: Env, w: World): (fates: seq<Option<Error>>)
    requires su.chain.Wrap?
    ensures |fates| == |msgs|
  {
    if msgs == [] then []
    else
      [Fate(su, msgs[0], env, w)] + Fates(su, msgs[1..], env, Process(su, msgs[0], env, w).2)
  }

  /** `reports` holds one report per failed message, in order, and nothing else. */
  ghost predicate ReportPerFailure(
    q: Middleware, reports: seq<Sent>, msgs: seq<Message>, fates: seq<Option<Error>>, env: Env)
    requires IsQueue(q) && |msgs| == |fates|
  {
    if msgs == [] then reports == []
    else if fates[0].None? then ReportPerFailure(q, reports, msgs[1..], fates[1..], env)
    else
      && reports != [] && Reported(q, reports[0], msgs[0], fates[0].value, env)
      && ReportPerFailure(q, reports[1..], msgs[1..], fates[1..], env)
  }

  /** One message behind the queue: it is acked, and reported exactly if its inner chain failed. */
  lemma ProcessConserves(su: Setup, msg: Message, env: Env, w: World)
    requires Conserving(su, env)
    ensures var (s, e, t) := Process(su, msg, env, w);
            var inner := Call(su.chain.next, msg, env, w).0;
            var was, now := FromDepth(w.sent, su.chain.Depth()), FromDepth(t.sent, su.chain.Depth());
      && s == ACKED && e.None?
      && (inner.Raised? ==>
            |now| == |was| + 1 && was <= now && Reported(su.chain.outer, now[|was|], msg, inner.error, env))
      && (!inner.Raised? ==> now == was)
  {
    var c := su.chain;
    var (inner, w1) := Call(c.next, msg, env, w);
    SendsInside(c.next, msg, env, w, c.Depth());
    InsideIsNotCancelled(su, msg, env, w);
    var p := QueueCatches(c, msg, env, w);
    if inner.Raised? {
      SentAfter(Call(c, msg, env, w).1.sent, w1.sent, Sent(c.Depth(), c.outer.topic, p));
    } else {
      if inner.outputs != [] && su.outputTopic.Some? {
        var w2 := Callback(w1, env).1;
        OutputsWork(inner.outputs, su.outputTopic.value, env, w2);
        OutputsSendInside(inner.outputs, su.outputTopic.value, env, w2, c.Depth());
      }
    }
  }

  lemma StreamGoesOn(su: Setup, msgs: seq<Message>, closesAt: nat, env: Env, w: World)
    requires Conserving(su, env) && msgs != [] && closesAt > 0
    ensures RunStream(su, msgs, closesAt, env, w) ==
            Following([ACKED], RunStream(su, msgs[1..], closesAt - 1, env, Process(su, msgs[0], env, w).2))
  {
    ProcessConserves(su, msgs[0], env, w);
  }

  ghost function Acks(n: nat): seq<Messages.Settlement> {
    seq(n, _ => ACKED)
  }

  lemma OneMoreAck(n: nat)
    ensures [ACKED] + Acks(n) == Acks(n + 1)
  {
  }

  lemma {:induction false} StreamAcked(su: Setup, msgs: seq<Message>, closesAt: nat, env: Env, w: World)
    requires Conserving(su, env) && |msgs| <= closesAt
    ensures RunStream(su, msgs, closesAt, env, w).settled == Acks(|msgs|)
    ensures RunStream(su, msgs, closesAt, env, w).broken.None?
    decreases |msgs|
  {
    if msgs != [] {
      StreamGoesOn(su, msgs, closesAt, env, w);
      StreamAcked(su, msgs[1..], closesAt - 1, env, Process(su, msgs[0], env, w).2);
      OneMoreAck(|msgs| - 1);
    }
  }

  lemma ReportOfOne(su: Setup, msg: Message, env: Env, w: World) returns (sent: seq<Sent>)
    requires Conserving(su, env)
    ensures FromDepth(Process(su, msg, env, w).2.sent, su.chain.Depth()) == FromDepth(w.sent, su.chain.Depth()) + sent
    ensures var fate := Fate(su, msg, env, w);
      if fate.Some? then |sent| == 1 && Reported(su.chain.outer, sent[0], msg, fate.value, env) else sent == []
  {
    ProcessConserves(su, msg, env, w);
    sent := FromDepth(Process(su, msg, env, w).2.sent, su.chain.Depth())[|FromDepth(w.sent, su.chain.Depth())|..];
  }

  /** The report of the first message, if any, then those of the others. */
  lemma ReportsJoin(q: Middleware, sent: seq<Sent>, rest: seq<Sent>, msgs: seq<Message>,
                    fate: Option<Error>, fates: seq<Option<Error>>, env: Env)
    requires IsQueue(q) && msgs != [] && |fates| == |msgs| - 1
    requires ReportPerFailure(q, rest, msgs[1..], fates, env)
    requires if fate.Some? then |sent| == 1 && Reported(q, sent[0], msgs[0], fate.value, env) else sent == []
    ensures ReportPerFailure(q, sent + rest, msgs, [fate] + fates, env)
  {
    assert ([fate] + fates)[1..] == fates;
    assert (sent + rest)[|sent|..] == rest;
  }

  lemma Regroup(a: seq<Sent>, b: seq<Sent>, c: seq<Sent>)
    ensures a + b + c == a + (b + c)
  {
  }

  lemma FatesStep(su: Setup, msgs: seq<Message>, env: Env, w: World)
    requires su.chain.Wrap? && msgs != []
    ensures Fates(su, msgs, env, w) == [Fate(su, msgs[0], env, w)] +
                                       Fates(su, msgs[1..], env, Process(su, msgs[0], env, w).2)
  {
  }

  lemma {:induction false} StreamReports(su: Setup, msgs: seq<Message>, closesAt: nat, env: Env, w: World)
    returns (reports: seq<Sent>)
    requires Conserving(su, env) && |msgs| <= closesAt
    ensures FromDepth(RunStream(su, msgs, closesAt, env, w).world.sent, su.chain.Depth()) ==
            FromDepth(w.sent, su.chain.Depth()) + reports
    ensures ReportPerFailure(su.chain.outer, reports, msgs, Fates(su, msgs, env, w), env)
    decreases |msgs|
  {
    if msgs == [] {
      reports := [];
    } else {
      var depth := su.chain.Depth();
      var sent := ReportOfOne(su, msgs[0], env, w);
      var w1 := Process(su, msgs[0], env, w).2;
      var rest := StreamReports(su, msgs[1..], closesAt - 1, env, w1);
      reports := sent + rest;
      var end := RunStream(su, msgs, closesAt, env, w).world;
      assert FromDepth(end.sent, depth) == FromDepth(w.sent, depth) + reports by {
        StreamGoesOn(su, msgs, closesAt, env, w);
        Regroup(FromDepth(w.sent, depth), sent, rest);
      }
      assert ReportPerFailure(su.chain.outer, reports, msgs, Fates(su, msgs, env, w), env) by {
        FatesStep(su, msgs, env, w);
        ReportsJoin(su.chain.outer, sent, rest, msgs, Fate(su, msgs[0], env, w), Fates(su, msgs[1..], env, w1), env);
      }
    }
  }

  /**
   Behind a catch-all queue, with publishes and callbacks that work and nothing cancelled from outside, the
   router acks every message it pulls and never stops on an error; the queue sends one report to its topic
   for each failed message, in order, with payload and other metadata unchanged, so acks are successes plus
   reports.
   */
  lemma StreamConserved(su: Setup, msgs: seq<Message>, closesAt: nat, env: Env, w: World)
    returns (reports: seq<Sent>)
    requires Conserving(su, env) && |msgs| <= closesAt
    ensures var r := RunStream(su, msgs, closesAt, env, w);
      && r.broken.None?
      && r.settled == Acks(|msgs|)
      && FromDepth(r.world.sent, su.chain.Depth()) == FromDepth(w.sent, su.chain.Depth()) + reports
    ensures ReportPerFailure(su.chain.outer, reports, msgs, Fates(su, msgs, env, w), env)
    ensures |msgs| == |reports| + Successes(Fates(su, msgs, env, w))
  {
    StreamAcked(su, msgs, closesAt, env, w);
    reports := StreamReports(su, msgs, closesAt, env, w);
    SuccessesAndReports(su.chain.outer, reports, msgs, Fates(su, msgs, env, w), env);
  }

  ghost function Successes(fates: seq<Option<Error>>): nat {
    if fates == [] then 0 else (if fates[0].None? then 1 else 0) + Successes(fates[1..])
  }

  lemma {:induction false} SuccessesAndReports(
    q: Middleware, reports: seq<Sent>, msgs: seq<Message>, fates: seq<Option<Error>>, env: Env)
    requires IsQueue(q) && |msgs| == |fates| && ReportPerFailure(q, reports, msgs, fates, env)
    ensures |msgs| == |reports| + Successes(fates)
  {
    if msgs != [] {
      SuccessesAndReports(q, if fates[0].None? then reports else reports[1..], msgs[1..], fates[1..], env);
    }
  }
}
