/**
 The Redis publisher, subscriber and message as objects over a shared stream. Each method says what it
 does to the fields, and that this is the matching events of the group's state machine.
 */
module RedisSubscriber {
  import opened RedisGroup
  import Messages

  /** The entries are delivered ones. */
  ghost predicate Below(ids: seq<nat>, delivered: nat) {
    forall i :: 0 <= i < |ids| ==> ids[i] < delivered
  }

  lemma {:induction false} WithoutBelow(ids: seq<nat>, id: nat, delivered: nat)
    requires Below(ids, delivered)
    ensures Below(Without(ids, id), delivered)
  {
    if ids != [] { WithoutBelow(ids[1..], id, delivered); }
  }

  /** One stream with its consumer group, as the server keeps them. */
  class Stream {
    var contents: seq<Messages.Message>
    var delivered: nat
    var pending: map<string, seq<nat>>

    constructor ()
      ensures contents == [] && delivered == 0 && pending == map[]
    {
      contents, delivered, pending := [], 0, map[];
    }

    /** Only delivered entries are pending. */
    ghost predicate Valid()
      reads this
    {
      delivered <= |contents| && forall c :: c in pending ==> Below(pending[c], delivered)
    }

    /** These fields are the machine's state s. */
    ghost predicate Is(s: State)
      reads this
    {
      Valid() && s.entries == |contents| && s.delivered == delivered && s.pending == pending
    }

    method ReadHistory(c: string, count: nat) returns (ids: seq<nat>)
      requires Valid()
      ensures ids == Get(pending, c, [])[..Min(count, |Get(pending, c, [])|)]
      ensures Below(ids, delivered)
    {
      ids := Get(pending, c, []);
      if |ids| > count {
        ids := ids[..count];
      }
    }

    method ReadNew(c: string, count: nat) returns (ids: seq<nat>)
      requires Valid()
      modifies this`delivered, this`pending
      ensures Valid() && Below(ids, delivered)
      ensures delivered == old(delivered) + Min(count, |contents| - old(delivered))
      ensures ids == Range(old(delivered), delivered)
      ensures pending == old(pending)[c := Get(old(pending), c, []) + ids]
    {
      var end := delivered + Min(count, |contents| - delivered);
      ids := Range(delivered, end);
      delivered, pending := end, pending[c := Get(pending, c, []) + ids];
    }

    method XAck(id: nat)
      requires Valid()
      modifies this`pending
      ensures Valid()
      ensures pending == Acknowledge(old(pending), id)
    {
      forall c | c in pending ensures Below(Without(pending[c], id), delivered) {
        WithoutBelow(pending[c], id, delivered);
      }
      pending := Acknowledge(pending, id);
    }
  }

  class Publisher {
    const stream: Stream
    var closed: bool

    constructor (stream: Stream)
      ensures this.stream == stream && !closed
    {
      this.stream, closed := stream, false;
    }

    /** One entry per message, in argument order; nothing at all once the publisher is closed. */
    method Publish(messages: seq<Messages.Message>) returns (r: Messages.Reply)
      modifies stream`contents
      ensures r == if closed then Messages.Rejected("Publisher is closed") else Messages.Accepted
      ensures stream.contents == old(stream.contents) + if closed then [] else messages
    {
      if closed {
        return Messages.Rejected("Publisher is closed");
      }
      for n := 0 to |messages|
        invariant stream.contents == old(stream.contents) + messages[..n]
      {
        stream.contents := stream.contents + [messages[n]];
      }
      return Messages.Accepted;
    }

    method Close()
      modifies this`closed
      ensures closed
    {
      closed := true;
    }
  }

  /** A yielded message with its callbacks: XACK for an ack, nothing for a nack. */
  class Delivery {
    const stream: Stream
    const id: nat
    const tracked: Messages.Tracked

    constructor (stream: Stream, id: nat, message: Messages.Message)
      ensures this.stream == stream && this.id == id && fresh(tracked)
      ensures tracked.message == message && tracked.Flags() == Messages.UNSETTLED
    {
      this.stream, this.id := stream, id;
      tracked := new Messages.Tracked(message);
    }

    /** This object is message h of the machine's state s. */
    ghost predicate Is(s: State, h: nat)
      reads stream, tracked
    {
      && stream.Is(s) && h < |s.handles| && s.handles[h].id == id
      && s.handles[h].flags == tracked.Flags() && s.handles[h].applied == tracked.Flags().Settled()
    }

    method Ack(ghost count: string -> nat, ghost s: State, ghost h: nat) returns (r: Messages.Reply)
      requires Is(s, h)
      modifies tracked`acked, stream`pending
      ensures (tracked.Flags(), r) == Messages.Ack(old(tracked.Flags()))
      ensures stream.pending == if r.Accepted? then Acknowledge(old(stream.pending), id) else old(stream.pending)
      ensures Is(Step(count, Step(count, s, CallAck(h)), Settle(h)), h)
    {
      r := tracked.MarkAcked();
      if r.Accepted? {
        stream.XAck(id);
      }
    }

    method Nack(ghost count: string -> nat, ghost s: State, ghost h: nat) returns (r: Messages.Reply)
      requires Is(s, h)
      modifies tracked`nacked
      ensures (tracked.Flags(), r) == Messages.Nack(old(tracked.Flags()))
      ensures Is(Step(count, Step(count, s, CallNack(h)), Settle(h)), h)
    {
      r := tracked.MarkNacked();
    }
  }

  /** The generator behind `subscribe`, suspended between two awaits. */
  class Consumer {
    const stream: Stream
    const name: string
    const count: nat
    var batch: seq<nat>
    var next: Phase
    var closed: bool

    constructor (stream: Stream, name: string, count: nat)
      ensures this.stream == stream && this.name == name && this.count == count
      ensures batch == [] && next == History && !closed
    {
      this.stream, this.name, this.count := stream, name, count;
      batch, next, closed := [], History, false;
    }

    /** This object is the generator of its consumer in the machine's state s. */
    ghost predicate Is(counts: string -> nat, s: State)
      reads this, stream
    {
      && stream.Is(s) && counts(name) == count && s.ReaderOf(name) == Reader(batch, next)
      && Below(batch, stream.delivered)
    }

    /** Reads the history where the loop starts over. */
    method ReadOld(ghost counts: string -> nat, ghost s: State)
      requires Is(counts, s)
      modifies this`batch, this`next
      ensures Is(counts, Step(counts, s, ReadHistory(name)))
    {
      if batch == [] && next.History? {
        batch := stream.ReadHistory(name, count);
        next := New;
      }
    }

    /** Reads new entries when the history is used up. */
    method ReadFresh(ghost counts: string -> nat, ghost s: State)
      requires Is(counts, s)
      modifies this`batch, this`next, stream`delivered, stream`pending
      ensures Is(counts, Step(counts, s, ReadNew(name)))
    {
      if batch == [] && next.New? {
        batch := stream.ReadNew(name, count);
        next := History;
      }
    }

    /** The two reads of one turn of the loop. */
    method Refill(ghost counts: string -> nat, ghost s: State)
      requires Is(counts, s) && !(batch == [] && next.History? && closed)
      modifies this`batch, this`next, stream`delivered, stream`pending
      ensures Is(counts, Step(counts, Step(counts, s, ReadHistory(name)), ReadNew(name)))
    {
      ReadOld(counts, s);
      ReadFresh(counts, Step(counts, s, ReadHistory(name)));
    }

    /** Builds the message of the next entry of the batch. */
    method TakeNext(ghost counts: string -> nat, ghost s: State) returns (m: Delivery)
      requires Is(counts, s) && batch != []
      modifies this`batch
      ensures Is(counts, Step(counts, s, Yield(name)))
      ensures fresh(m) && fresh(m.tracked) && m.stream == stream
      ensures m.id == s.ReaderOf(name).batch[0] && m.id < |stream.contents|
      ensures m.tracked.message == stream.contents[m.id]
      ensures m.Is(Step(counts, s, Yield(name)), |s.handles|)
    {
      m := new Delivery(stream, batch[0], stream.contents[batch[0]]);
      batch := batch[1..];
    }

    /**
     Runs the generator up to its next yield or the end of a read that finds nothing new. A closed
     generator ends only where the loop starts over.
     */
    method Resume(ghost counts: string -> nat, ghost s: State) returns (m: Delivery?)
      requires Is(counts, s)
      modifies this`batch, this`next, stream`delivered, stream`pending
      ensures if old(batch) == [] && old(next).History? && closed then m == null && Is(counts, s)
              else
                var read := Step(counts, Step(counts, s, ReadHistory(name)), ReadNew(name));
                && Is(counts, Step(counts, read, Yield(name)))
                && (m == null <==> read.ReaderOf(name).batch == [])
                && (m != null ==>
                      && fresh(m) && fresh(m.tracked) && m.stream == stream
                      && m.id == read.ReaderOf(name).batch[0] && m.id < |stream.contents|
                      && m.tracked.message == stream.contents[m.id]
                      && m.Is(Step(counts, read, Yield(name)), |s.handles|))
    {
      if batch == [] && next.History? && closed {
        return null;
      }
      Refill(counts, s);
      if batch == [] {
        return null;
      }
      m := TakeNext(counts, Step(counts, Step(counts, s, ReadHistory(name)), ReadNew(name)));
    }

    method Close()
      modifies this`closed
      ensures closed
    {
      closed := true;
    }
  }
}
