/**
 The Kafka subscriber as an object, driven by the router's loop. Its methods are the events of the
 machine in `KafkaGroup`, and one whole session is a sequence of such events.
 */
module KafkaSubscriber {
  import opened Options
  import opened KafkaGroup

  /** The state after the events, starting from s. */
  ghost function After(s: State, es: seq<Event>): State
    decreases |es|
  {
    if es == [] then s else After(Step(Router, s, es[0]), es[1..])
  }

  /** Sessions follow one another in one run, so that its theorems hold across restarts. */
  lemma {:induction false} RunGoesOn(partitions: nat, ss: seq<State>, es: seq<Event>, more: seq<Event>)
    returns (tt: seq<State>)
    requires Run(Router, partitions, ss, es)
    ensures Run(Router, partitions, tt, es + more) && ss <= tt
    ensures tt[|tt| - 1] == After(ss[|ss| - 1], more)
    decreases |more|
  {
    if more == [] {
      tt := ss;
      assert es + more == es;
    } else {
      var next := Step(Router, ss[|es|], more[0]);
      OneMore(Router, partitions, ss, es, more[0]);
      tt := RunGoesOn(partitions, ss + [next], es + [more[0]], more[1..]);
      assert es + more == es + [more[0]] + more[1..];
    }
  }

  /**
   What becomes of a yielded record: its handler succeeds or raises, and its commit may be stored, or
   raise, or both. A process that dies during the commit leaves what `Handled(stored, false)` leaves.
   */
  datatype Fate = Handled(stored: bool, ok: bool) | HandlerRaises

  ghost function Settling(f: Fate, r: Record): Event {
    match f
    case Handled(stored, ok) => Succeed(r, stored, ok)
    case HandlerRaises => Fail(r)
  }

  /** The first record of the batch is yielded and settled. */
  ghost function OneHandled(s: State, f: Fate): State
    requires s.member.Running? && s.member.batch != []
  {
    Step(Router, Step(Router, s, Deliver), Settling(f, s.member.batch[0]))
  }

  /** The records of the batch are yielded and settled in order, until one fails or nobody asks for more. */
  ghost function BatchHandled(s: State, fates: seq<Fate>): (State, seq<Fate>)
    decreases |fates|
  {
    if s.member.Stopped? || s.member.batch == [] || fates == [] then (s, fates)
    else BatchHandled(OneHandled(s, fates[0]), fates[1..])
  }

  /**
   One `getmany`: the partitions to which other clients have appended since the last one, and what is
   fetched. Nothing but a fetch looks at the ends of the logs, so this is as good as appending meanwhile.
   */
  datatype Round = Round(appended: seq<nat>, fetched: seq<Fetched>)

  ghost function Appended(s: State, tps: seq<nat>): (t: State)
    ensures t.member == s.member
    decreases |tps|
  {
    if tps == [] then s else Appended(Step(Router, s, Append(tps[0])), tps[1..])
  }

  /** Round after round; the session ends with a failure, when it is closed, or in the middle of a batch. */
  ghost function SessionFrom(s: State, rounds: seq<Round>, fates: seq<Fate>): State
    decreases |rounds|
  {
    if s.member.Stopped? || s.member.batch != [] || rounds == [] then Step(Router, s, Crash)
    else
      var (t, left) := BatchHandled(Step(Router, Appended(s, rounds[0].appended), Fetch(rounds[0].fetched)), fates);
      SessionFrom(t, rounds[1..], left)
  }

  lemma {:induction false} AfterAll(s: State, es: seq<Event>, more: seq<Event>)
    ensures After(After(s, es), more) == After(s, es + more)
    decreases |es|
  {
    if es == [] {
      assert es + more == more;
    } else {
      assert (es + more)[1..] == es[1..] + more;
      AfterAll(Step(Router, s, es[0]), es[1..], more);
    }
  }

  lemma {:induction false} BatchIsEvents(s: State, fates: seq<Fate>) returns (es: seq<Event>)
    ensures BatchHandled(s, fates).0 == After(s, es)
    decreases |fates|
  {
    if s.member.Stopped? || s.member.batch == [] || fates == [] {
      es := [];
    } else {
      var settling := Settling(fates[0], s.member.batch[0]);
      var rest := BatchIsEvents(OneHandled(s, fates[0]), fates[1..]);
      es := [Deliver, settling] + rest;
      assert es[1..] == [settling] + rest && es[1..][1..] == rest;
    }
  }

  lemma {:induction false} AppendsAreEvents(s: State, tps: seq<nat>) returns (es: seq<Event>)
    ensures Appended(s, tps) == After(s, es)
    decreases |tps|
  {
    if tps == [] {
      es := [];
    } else {
      var rest := AppendsAreEvents(Step(Router, s, Append(tps[0])), tps[1..]);
      es := [Append(tps[0])] + rest;
    }
  }

  lemma RoundIsEvents(s: State, round: Round, fates: seq<Fate>) returns (es: seq<Event>)
    ensures BatchHandled(Step(Router, Appended(s, round.appended), Fetch(round.fetched)), fates).0 == After(s, es)
  {
    var appends := AppendsAreEvents(s, round.appended);
    var t := Appended(s, round.appended);
    var batch := BatchIsEvents(Step(Router, t, Fetch(round.fetched)), fates);
    AfterAll(s, appends, [Fetch(round.fetched)] + batch);
    es := appends + ([Fetch(round.fetched)] + batch);
  }

  /** A session is a sequence of events of the machine. */
  lemma {:induction false} SessionIsEvents(s: State, rounds: seq<Round>, fates: seq<Fate>) returns (es: seq<Event>)
    ensures SessionFrom(s, rounds, fates) == After(s, es)
    decreases |rounds|
  {
    if s.member.Stopped? || s.member.batch != [] || rounds == [] {
      es := [Crash];
    } else {
      var first := RoundIsEvents(s, rounds[0], fates);
      var fetched := Step(Router, Appended(s, rounds[0].appended), Fetch(rounds[0].fetched));
      var (t, left) := BatchHandled(fetched, fates);
      var rest := SessionIsEvents(t, rounds[1..], left);
      AfterAll(s, first, rest);
      es := first + rest;
    }
  }

  /** So a session continues any run: what the runs' theorems say holds across sessions. */
  lemma SessionContinues(partitions: nat, ss: seq<State>, es: seq<Event>, rounds: seq<Round>, fates: seq<Fate>)
    returns (tt: seq<State>, fs: seq<Event>)
    requires Run(Router, partitions, ss, es)
    ensures Run(Router, partitions, tt, fs) && ss <= tt && es <= fs
    ensures tt[|tt| - 1] == SessionFrom(Step(Router, ss[|ss| - 1], StartMember), rounds, fates)
  {
    var s := Step(Router, ss[|ss| - 1], StartMember);
    var rest := SessionIsEvents(s, rounds, fates);
    fs := es + ([StartMember] + rest);
    tt := RunGoesOn(partitions, ss, es, [StartMember] + rest);
  }

  /** `now` has what `before` had, and the records. */
  ghost predicate AckedAlso(before: set<Record>, now: set<Record>, rs: seq<Record>) {
    forall r :: r in now <==> r in before || r in rs
  }

  lemma FirstAndOthers(before: set<Record>, now: set<Record>, rs: seq<Record>, n: nat)
    requires 0 < n <= |rs| && AckedAlso(before + {rs[0]}, now, rs[1..][..n - 1])
    ensures AckedAlso(before, now, rs[..n]) && rs[1..][n - 1..] == rs[n..]
  {
    assert rs[..n] == [rs[0]] + rs[1..][..n - 1];
  }

  lemma OneAcked(s: State, f: Fate) returns (t: State)
    requires s.member.Running? && s.member.open == multiset{} && s.member.batch != [] && f.Handled? && f.ok
    ensures t == OneHandled(s, f)
    ensures t.member.Running? && t.member.open == multiset{} && t.member.batch == s.member.batch[1..]
    ensures t.acked == s.acked + {s.member.batch[0]}
  {
    t := OneHandled(s, f);
  }

  ghost predicate NoneFails(fates: seq<Fate>) {
    fates == [] || (fates[0].Handled? && fates[0].ok && NoneFails(fates[1..]))
  }

  /** How many records of the batch are asked for. */
  ghost function Asked(batch: seq<Record>, fates: seq<Fate>): nat {
    if |fates| <= |batch| then |fates| else |batch|
  }

  /** While nothing fails, exactly the records of the batch are acked, up to where nobody asks for more. */
  lemma {:induction false} BatchAcks(s: State, fates: seq<Fate>)
    requires s.member.Running? && s.member.open == multiset{} && NoneFails(fates)
    ensures var n, t := Asked(s.member.batch, fates), BatchHandled(s, fates).0;
      t.member.Running? && t.member.batch == s.member.batch[n..] && AckedAlso(s.acked, t.acked, s.member.batch[..n])
    decreases |fates|
  {
    if s.member.batch != [] && fates != [] {
      var t := OneAcked(s, fates[0]);
      BatchAcks(t, fates[1..]);
      FirstAndOthers(s.acked, BatchHandled(s, fates).0.acked, s.member.batch, Asked(s.member.batch, fates));
    }
  }

  /** The broker's side: the partition logs' ends and the group's committed offsets. */
  class Broker {
    var ends: seq<nat>
    var committed: seq<nat>

    constructor (partitions: nat)
      ensures ends == committed == seq(partitions, _ => 0)
    {
      ends := seq(partitions, _ => 0);
      committed := seq(partitions, _ => 0);
    }

    /** Another client appends a record. */
    method Append(tp: nat)
      modifies this`ends
      ensures ends == if tp < |old(ends)| then old(ends)[tp := old(ends)[tp] + 1] else old(ends)
    {
      if tp < |ends| {
        ends := ends[tp := ends[tp] + 1];
      }
    }
  }

  class Subscriber {
    const broker: Broker
    var running: bool
    var positions: seq<nat>
    var batch: seq<Record>
    var current: Option<Record>
    ghost var acked: set<Record>
    ghost var nacked: set<Record>
    ghost var left: multiset<Record>

    constructor (broker: Broker)
      ensures this.broker == broker && !running && acked == nacked == {} && left == multiset{}
    {
      this.broker, running, positions, batch, current := broker, false, [], [], None;
      acked, nacked, left := {}, {}, multiset{};
    }

    ghost function Now(): State
      reads this, broker
    {
      State(broker.ends, broker.committed, acked, nacked, left,
            if running then Running(positions, batch, Open()) else Stopped)
    }

    ghost function Open(): multiset<Record>
      reads this
    {
      if current.Some? then multiset{current.value} else multiset{}
    }

    /** A started consumer fetches from the committed offsets. */
    method Start()
      modifies this
      ensures running && Now() == Step(Router, old(Now()), StartMember)
      ensures !old(running) ==> batch == [] && current.None?
    {
      if !running {
        running, positions, batch, current := true, broker.committed, [], None;
      }
    }

    /** The records of one partition after the other are added to the batch. */
    method GetMany(counts: seq<Fetched>)
      requires running && batch == [] && current.None?
      modifies this`positions, this`batch
      ensures Now() == Step(Router, old(Now()), Fetch(counts))
    {
      ghost var target := FetchAll(broker.ends, Running(positions, batch, multiset{}), counts);
      for n := 0 to |counts|
        invariant FetchAll(broker.ends, Running(positions, batch, multiset{}), counts[n..]) == target
      {
        var f := counts[n];
        assert counts[n..][0] == f && counts[n..][1..] == counts[n + 1..];
        if f.tp < |positions| && f.tp < |broker.ends| && positions[f.tp] + f.count <= broker.ends[f.tp] {
          batch := batch + Records(f.tp, positions[f.tp], f.count);
          positions := positions[f.tp := positions[f.tp] + f.count];
        }
      }
      assert counts[|counts|..] == [];
    }

    method Yield()
      requires running && batch != [] && current.None?
      modifies this`batch, this`current
      ensures current == Some(old(batch)[0]) && batch == old(batch)[1..]
      ensures Now() == Step(Router, old(Now()), Deliver)
    {
      assert multiset{} + multiset{batch[0]} == multiset{batch[0]};
      current, batch := Some(batch[0]), batch[1..];
    }

    /** `ack`: commits the offset after the record. A commit that raises ends the router's loop. */
    method Ack(stored: bool, ok: bool)
      requires running && current.Some?
      modifies this`current, this`running, this`acked, broker`committed
      ensures Now() == Step(Router, old(Now()), Succeed(old(current).value, stored, ok))
      ensures running == ok && current.None?
    {
      var r := current.value;
      acked := acked + {r};
      if stored && r.tp < |broker.committed| {
        broker.committed := broker.committed[r.tp := r.offset + 1];
      }
      assert multiset{r} - multiset{r} == multiset{} && left + multiset{} == left;
      running, current := ok, None;
    }

    /** `nack` seeks back to the record; then the router raises, and the consumer is stopped. */
    method Nack()
      requires running && current.Some?
      modifies this`positions, this`running, this`current, this`nacked
      ensures !running && current.None? && Now() == Step(Router, old(Now()), Fail(old(current).value))
      ensures var r := old(current).value;
        positions == if r.tp < |old(positions)| then old(positions)[r.tp := r.offset] else old(positions)
    {
      var r := current.value;
      nacked := nacked + {r};
      if r.tp < |positions| {
        positions := positions[r.tp := r.offset];
      }
      assert multiset{r} - multiset{r} == multiset{} && left + multiset{} == left;
      running, current := false, None;
    }

    /** One record of the batch: it is yielded, handled and settled. */
    method HandleNext(fate: Fate)
      requires running && batch != [] && current.None?
      modifies this, broker`committed
      ensures Now() == OneHandled(old(Now()), fate)
      ensures current.None? && batch == old(batch)[1..]
    {
      Yield();
      match fate
      case Handled(stored, ok) => Ack(stored, ok);
      case HandlerRaises => Nack();
    }

    /** The batch in order, until a failure; it is left unfinished when nobody asks for more. */
    method HandleBatch(fates: seq<Fate>) returns (left: seq<Fate>)
      requires running && current.None?
      modifies this, broker`committed
      ensures (Now(), left) == BatchHandled(old(Now()), fates)
      ensures current.None?
    {
      left := fates;
      while running && batch != [] && left != []
        invariant current.None?
        invariant BatchHandled(Now(), left) == BatchHandled(old(Now()), fates)
        decreases |batch|
      {
        HandleNext(left[0]);
        left := left[1..];
      }
    }

    /** The append of another client. */
    method AppendOne(tp: nat)
      modifies broker`ends
      ensures Now() == Step(Router, old(Now()), Append(tp))
    {
      broker.Append(tp);
    }

    /** The appends of other clients up to the next fetch. */
    method AppendAll(tps: seq<nat>)
      modifies broker`ends
      ensures Now() == Appended(old(Now()), tps)
    {
      for n := 0 to |tps|
        invariant Appended(Now(), tps[n..]) == Appended(old(Now()), tps)
      {
        assert tps[n..][0] == tps[n] && tps[n..][1..] == tps[n + 1..];
        AppendOne(tps[n]);
      }
      assert tps[|tps|..] == [];
    }

    /**
     One session: from the start of the consumer to its end, by a failure or because it is closed after
     a batch. `rounds` and `fates` are what the broker and the handlers answer, in order.
     */
    method Session(rounds: seq<Round>, fates: seq<Fate>)
      requires !running
      modifies this, broker`committed, broker`ends
      ensures Now() == SessionFrom(Step(Router, old(Now()), StartMember), rounds, fates)
      ensures !running
    {
      Start();
      var left := fates;
      var n := 0;
      while n < |rounds| && running && batch == []
        invariant n <= |rounds| && current.None?
        invariant SessionFrom(Now(), rounds[n..], left) ==
                  SessionFrom(Step(Router, old(Now()), StartMember), rounds, fates)
      {
        assert rounds[n..][0] == rounds[n] && rounds[n..][1..] == rounds[n + 1..];
        AppendAll(rounds[n].appended);
        GetMany(rounds[n].fetched);
        left := HandleBatch(left);
        n := n + 1;
      }
      assert this.left + multiset{} == this.left;
      running := false;
    }
  }
}
