/**
 The SQL publisher, subscriber and message as objects over a shared table. Each method says what it
 does to the fields, and that this is the matching event of the queue's state machine.
 */
module SqlSubscriber {
  import opened Options
  import opened SqlTable
  import opened SqlQueue
  import Messages

  /** The table of one topic, as its connection shows it, with the database clock. */
  class Table {
    var rows: seq<Row>
    var now: int

    constructor ()
      ensures rows == [] && now == 0
    {
      rows, now := [], 0;
    }

    /** Filters, orders and limits, one row at a time. */
    method Pending(d: Dialect, group: string, limit: nat) returns (ids: seq<nat>)
      ensures ids == SelectPending(d, rows, group, now, limit)
    {
      ids := [];
      for n := 0 to |rows|
        invariant ids == Ranked(d, rows, group, now, n)
      {
        if Eligible(d, rows[n], group, now) {
          ids := Place(rows, n, ids);
        }
      }
      if |ids| > limit {
        ids := ids[..limit];
      }
    }

    method Update(id: nat, row: Row)
      requires id < |rows|
      modifies this`rows
      ensures rows == old(rows)[id := row]
    {
      rows := rows[id := row];
    }
  }

  class Publisher {
    const table: Table
    const group: string
    var closed: bool

    constructor (table: Table, group: string)
      ensures this.table == table && this.group == group && !closed
    {
      this.table, this.group, closed := table, group, false;
    }

    /** The row holds the message for this group, unclaimed, unacked, never delivered and due now. */
    ghost predicate IsNew(row: Row, message: Messages.Message)
      reads table`now
    {
      && row.content == message && row.group == group && row.claimedAt == None && row.ackedAt == None
      && row.deliveryCount == 0 && row.nextDeliveryAt == table.now
    }

    /** One new row per message, in argument order; nothing at all once the publisher is closed. */
    method Publish(messages: seq<Messages.Message>) returns (r: Messages.Reply)
      modifies table`rows
      ensures r == if closed then Messages.Rejected("Publisher is closed") else Messages.Accepted
      ensures |table.rows| == |old(table.rows)| + if closed then 0 else |messages|
      ensures old(table.rows) <= table.rows
      ensures !closed ==> forall i :: 0 <= i < |messages| ==> IsNew(table.rows[|old(table.rows)| + i], messages[i])
    {
      if closed {
        return Messages.Rejected("Publisher is closed");
      }
      for n := 0 to |messages|
        invariant |table.rows| == |old(table.rows)| + n
        invariant old(table.rows) <= table.rows
        invariant forall i :: 0 <= i < n ==> IsNew(table.rows[|old(table.rows)| + i], messages[i])
      {
        table.rows := table.rows + [FreshRow(messages[n], group, table.now)];
      }
      return Messages.Accepted;
    }

    method Close()
      modifies this`closed
      ensures closed
    {
      closed := true;
    }
  }

  /** A yielded message with its callbacks, which run their statement on the row it was read from. */
  class Delivery {
    const table: Table
    const row: nat
    const tracked: Messages.Tracked

    constructor (table: Table, row: nat, message: Messages.Message)
      ensures this.table == table && this.row == row && fresh(tracked)
      ensures tracked.message == message && tracked.Flags() == Messages.UNSETTLED
    {
      this.table, this.row := table, row;
      tracked := new Messages.Tracked(message);
    }

    /** This object is message h of the machine's state s. */
    ghost predicate Is(s: State, h: nat)
      reads table, tracked
    {
      && s.WellFormed() && h < |s.handles|
      && s.rows == table.rows && s.now == table.now
      && s.handles[h] == Handle(row, tracked.Flags(), tracked.Flags().Settled())
    }

    method Ack(ghost c: Config, ghost s: State, ghost h: nat) returns (r: Messages.Reply)
      requires Is(s, h)
      modifies tracked`acked, table`rows
      ensures (tracked.Flags(), r) == Messages.Ack(old(tracked.Flags()))
      ensures table.rows == if r.Accepted?
                            then old(table.rows)[row := old(table.rows)[row].(ackedAt := Some(table.now))]
                            else old(table.rows)
      ensures Is(Step(c, Step(c, s, CallAck(h)), Settle(h)), h)
    {
      r := tracked.MarkAcked();
      if r.Accepted? {
        table.Update(row, table.rows[row].(ackedAt := Some(table.now)));
      }
    }

    method Nack(ghost c: Config, ghost s: State, ghost h: nat) returns (r: Messages.Reply)
      requires Is(s, h)
      modifies tracked`nacked, table`rows
      ensures (tracked.Flags(), r) == Messages.Nack(old(tracked.Flags()))
      ensures table.rows == if r.Accepted?
                            then old(table.rows)[row := old(table.rows)[row].(claimedAt := None,
                                                                              nextDeliveryAt := table.now)]
                            else old(table.rows)
      ensures Is(Step(c, Step(c, s, CallNack(h)), Settle(h)), h)
    {
      r := tracked.MarkNacked();
      if r.Accepted? {
        table.Update(row, table.rows[row].(nextDeliveryAt := table.now, claimedAt := None));
      }
    }
  }

  /** The generator behind `subscribe`, suspended between two messages. */
  class Subscription {
    const table: Table
    const dialect: Dialect
    const group: string
    const batchSize: nat
    const ackDeadline: nat
    var batch: seq<nat>
    var closed: bool

    constructor (table: Table, dialect: Dialect, group: string, batchSize: nat, ackDeadline: nat)
      ensures this.table == table && this.dialect == dialect && this.group == group
      ensures this.batchSize == batchSize && this.ackDeadline == ackDeadline
      ensures batch == [] && !closed
    {
      this.table, this.dialect, this.group := table, dialect, group;
      this.batchSize, this.ackDeadline := batchSize, ackDeadline;
      batch, closed := [], false;
    }

    /** This object is the subscription of its group in the machine's state s. */
    ghost predicate Is(c: Config, s: State)
      reads this, table
    {
      && s.WellFormed()
      && s.rows == table.rows && s.now == table.now && s.Batch(group) == batch
      && c.dialect == dialect && c.batchSize(group) == batchSize && c.ackDeadline(group) == ackDeadline
    }

    /** Polls if the batch is used up. */
    method Refetch(ghost c: Config, ghost s: State)
      requires Is(c, s)
      modifies this`batch
      ensures Is(c, if old(batch) == [] && !closed then Step(c, s, Poll(group)) else s)
    {
      if batch == [] && !closed {
        batch := table.Pending(dialect, group, batchSize);
      }
    }

    /** Claims the next row of the batch, if there is one, and builds its message. */
    method ClaimAndYield(ghost c: Config, ghost s: State) returns (m: Delivery?)
      requires Is(c, s)
      modifies this`batch, table`rows
      ensures Is(c, Step(c, s, Claim(group, true)))
      ensures m == null <==> old(batch) == []
      ensures m != null ==>
        && fresh(m) && fresh(m.tracked) && m.table == table && m.row == old(batch)[0]
        && m.tracked.message == s.rows[m.row].content
        && m.Is(Step(c, s, Claim(group, true)), |s.handles|)
    {
      if batch == [] {
        return null;
      }
      var id := batch[0];
      var row := table.rows[id];
      batch := batch[1..];
      table.Update(id, row.(claimedAt := Some(table.now),
                            nextDeliveryAt := table.now + ackDeadline,
                            deliveryCount := row.deliveryCount + 1));
      m := new Delivery(table, id, row.content);
    }

    /** The state that the subscription claims in: after a poll, if its batch was used up. */
    static ghost function Polled(c: Config, s: State, g: string, closed: bool): (t: State)
      requires s.WellFormed()
      ensures t.WellFormed()
      ensures t.rows == s.rows && t.handles == s.handles
    {
      if s.Batch(g) == [] && !closed then Step(c, s, Poll(g)) else s
    }

    /**
     Runs the generator up to its next yield. It yields nothing when it is closed with its batch used
     up, or when a poll finds nothing (and it goes to sleep).
     */
    method Resume(ghost c: Config, ghost s: State) returns (m: Delivery?)
      requires Is(c, s)
      modifies this`batch, table`rows
      ensures var polled := Polled(c, s, group, closed);
              && Is(c, Step(c, polled, Claim(group, true)))
              && (m == null <==> polled.Batch(group) == [])
              && (m != null ==>
                    && fresh(m) && fresh(m.tracked) && m.table == table
                    && m.row == polled.Batch(group)[0]
                    && m.tracked.message == s.rows[m.row].content
                    && m.Is(Step(c, polled, Claim(group, true)), |s.handles|))
    {
      Refetch(c, s);
      m := ClaimAndYield(c, Polled(c, s, group, closed));
    }

    method Close()
      modifies this`closed
      ensures closed
    {
      closed := true;
    }
  }
}
