/** Bounded bypass: how many polls can pass before a waiting row is claimed, in either dialect. */
module SqlFairness {
  import opened SqlTable
  import opened SqlQueue
  import opened Sequences
  import SqlExclusive

  /** Row x is eligible and the clock is strictly past its due time. */
  ghost predicate Waiting(c: Config, s: State, x: nat) {
    && x < |s.rows|
    && Eligible(c.dialect, s.rows[x], s.rows[x].group, s.now)
    && s.rows[x].nextDeliveryAt < s.now
  }

  /** The eligible rows of the group of x that a poll ranks before x. */
  ghost function Rivals(c: Config, s: State, x: nat): set<nat>
    requires x < |s.rows|
  {
    set y: nat | y < |s.rows| && Eligible(c.dialect, s.rows[y], s.rows[x].group, s.now) && Ahead(s.rows, y, x)
  }

  ghost function Fetched(s: State, g: string): set<nat> {
    Elements(s.Batch(g))
  }

  /** No event but its own claim or settlement ends the wait of x, and none adds a rival. */
  lemma NobodyOvertakes(c: Config, s: State, e: Event, x: nat)
    requires s.WellFormed() && Waiting(c, s, x)
    requires !Claims(s, e, x) && !Settles(s, e, x)
    ensures var t := Step(c, s, e);
      && Waiting(c, t, x) && t.rows[x].group == s.rows[x].group
      && Rivals(c, t, x) <= Rivals(c, s, x)
      && forall y :: Claims(s, e, y) ==> y !in Rivals(c, t, x)
  {
    var t := Step(c, s, e);
    assert t.rows[x] == s.rows[x];
  }

  lemma Without(a: set<nat>, b: set<nat>)
    requires b <= a
    ensures |a - b| + |b| == |a|
  {
  }

  /** A poll either fetches x or uses up its whole batch on rivals of x. */
  lemma PollMakesProgress(c: Config, s: State, x: nat)
    requires Waiting(c, s, x)
    ensures var g := s.rows[x].group;
            var ids := SelectPending(c.dialect, s.rows, g, s.now, c.batchSize(g));
      x in ids || |Rivals(c, s, x) - Elements(ids)| + c.batchSize(g) == |Rivals(c, s, x)|
  {
    var g := s.rows[x].group;
    var ids := SelectPending(c.dialect, s.rows, g, s.now, c.batchSize(g));
    SelectPendingIsTopOfOrder(c.dialect, s.rows, g, s.now, c.batchSize(g));
    if x !in ids {
      DistinctCount(ids);
      Without(Rivals(c, s, x), Elements(ids));
    }
  }

  /** How often group g polls in the events from i up to k. */
  ghost function PollsOf(ss: seq<State>, es: seq<Event>, g: string, i: nat, k: nat): nat
    requires |ss| == |es| + 1 && i <= k <= |es|
  {
    if i == k then 0
    else PollsOf(ss, es, g, i, k - 1) + if Polls(ss[k - 1], es[k - 1], g) then 1 else 0
  }

  /** How many rows those polls had room for. */
  ghost function RoomOf(c: Config, ss: seq<State>, es: seq<Event>, g: string, i: nat, k: nat): (room: nat)
    requires |ss| == |es| + 1 && i <= k <= |es|
    ensures room == PollsOf(ss, es, g, i, k) * c.batchSize(g)
  {
    if i == k then 0
    else RoomOf(c, ss, es, g, i, k - 1) + if Polls(ss[k - 1], es[k - 1], g) then c.batchSize(g) else 0
  }

  /** In the events from i up to k, nothing settles row x and its subscription keeps going. */
  ghost predicate Undisturbed(ss: seq<State>, es: seq<Event>, x: nat, g: string, i: nat, k: nat)
    requires |ss| == |es| + 1
  {
    forall n :: i <= n < k && n < |es| ==> !Settles(ss[n], es[n], x) && es[n] != Abandon(g)
  }

  /** After polls with that much room, x is fetched or as many of its `rank` rivals are out of its way. */
  ghost predicate OnTrack(c: Config, s: State, x: nat, g: string, room: nat, rank: nat) {
    && Waiting(c, s, x) && s.rows[x].group == g
    && (x in s.Batch(g) || |Rivals(c, s, x) - Fetched(s, g)| + room <= rank)
  }

  lemma OnTrackAfterPoll(c: Config, s: State, x: nat, g: string, room: nat, rank: nat)
    requires s.WellFormed() && OnTrack(c, s, x, g, room, rank) && s.Batch(g) == []
    ensures OnTrack(c, Step(c, s, Poll(g)), x, g, room + c.batchSize(g), rank)
  {
    var t := Step(c, s, Poll(g));
    PollMakesProgress(c, s, x);
    assert Rivals(c, s, x) - Fetched(s, g) == Rivals(c, s, x);
    assert Rivals(c, t, x) == Rivals(c, s, x);
  }

  lemma OnTrackOtherwise(c: Config, s: State, e: Event, x: nat, g: string, room: nat, rank: nat)
    requires s.WellFormed() && OnTrack(c, s, x, g, room, rank) && !Polls(s, e, g)
    requires !Claims(s, e, x) && !Settles(s, e, x) && e != Abandon(g)
    ensures OnTrack(c, Step(c, s, e), x, g, room, rank)
  {
    var t := Step(c, s, e);
    NobodyOvertakes(c, s, e, x);
    BatchOnlyLosesTheClaimed(c, s, e, g);
    if x !in t.Batch(g) {
      Without(Rivals(c, s, x) - Fetched(s, g), Rivals(c, t, x) - Fetched(t, g));
    }
  }

  lemma BatchOnlyLosesTheClaimed(c: Config, s: State, e: Event, g: string)
    requires s.WellFormed() && e != Abandon(g) && !Polls(s, e, g)
    ensures forall y :: y in s.Batch(g) ==> y in Step(c, s, e).Batch(g) || Claims(s, e, y)
  {
  }

  lemma OnTrackKept(c: Config, s: State, e: Event, x: nat, g: string, room: nat, rank: nat)
    requires s.WellFormed() && OnTrack(c, s, x, g, room, rank)
    requires !Claims(s, e, x) && !Settles(s, e, x) && e != Abandon(g)
    ensures OnTrack(c, Step(c, s, e), x, g, room + if Polls(s, e, g) then c.batchSize(g) else 0, rank)
  {
    if Polls(s, e, g) {
      OnTrackAfterPoll(c, s, x, g, room, rank);
    } else {
      OnTrackOtherwise(c, s, e, x, g, room, rank);
    }
  }

  lemma OnTrackAtStart(c: Config, s: State, x: nat)
    requires Waiting(c, s, x) && s.Batch(s.rows[x].group) == []
    ensures OnTrack(c, s, x, s.rows[x].group, 0, |Rivals(c, s, x)|)
  {
  }

  lemma {:induction false} Progress(
    c: Config, ss: seq<State>, es: seq<Event>, x: nat, g: string, rank: nat, i: nat, k: nat)
    requires Run(c, ss, es) && i <= k <= |es|
    requires OnTrack(c, ss[i], x, g, 0, rank)
    requires Undisturbed(ss, es, x, g, i, k)
    requires forall n :: i <= n < k ==> !Claims(ss[n], es[n], x)
    ensures OnTrack(c, ss[k], x, g, RoomOf(c, ss, es, g, i, k), rank)
  {
    if i < k {
      Progress(c, ss, es, x, g, rank, i, k - 1);
      assert StepAt(c, ss, es, k - 1);
      OnTrackKept(c, ss[k - 1], es[k - 1], x, g, RoomOf(c, ss, es, g, i, k - 1), rank);
    }
  }

  /**
   A row that waits behind r rivals is claimed once its group has polled floor(r / batch_size) + 1
   times and used up what it fetched, whatever is inserted, claimed, settled or timed out meanwhile.
   */
  lemma BoundedBypass(c: Config, ss: seq<State>, es: seq<Event>, x: nat, i: nat, k: nat)
    requires Run(c, ss, es) && i <= k <= |es|
    requires Waiting(c, ss[i], x)
    requires var g := ss[i].rows[x].group;
      && c.batchSize(g) >= 1
      && ss[i].Batch(g) == [] && ss[k].Batch(g) == []
      && Undisturbed(ss, es, x, g, i, k)
      && PollsOf(ss, es, g, i, k) >= |Rivals(c, ss[i], x)| / c.batchSize(g) + 1
    ensures exists n :: i <= n < k && Claims(ss[n], es[n], x)
  {
    if forall n :: i <= n < k ==> !Claims(ss[n], es[n], x) {
      var g, rank := ss[i].rows[x].group, |Rivals(c, ss[i], x)|;
      OnTrackAtStart(c, ss[i], x);
      Progress(c, ss, es, x, g, rank, i, k);
      TooManyPolls(rank, c.batchSize(g), PollsOf(ss, es, g, i, k));
    }
  }

  lemma TooManyPolls(r: nat, b: nat, polls: nat)
    requires b >= 1 && polls >= r / b + 1
    ensures polls * b > r
  {
    assert polls * b >= (r / b + 1) * b == (r / b) * b + b;
  }

  // ---- SQLite needs no proviso about older messages ----------------------------------------------

  lemma {:induction false} NothingSettlesAWaitingRow(c: Config, ss: seq<State>, es: seq<Event>, x: nat, i: nat, k: nat)
    requires c.dialect.SQLite? && Run(c, ss, es) && ss[0] == INITIAL && i <= k <= |es|
    requires Waiting(c, ss[i], x)
    requires forall n :: i <= n < k ==> !Claims(ss[n], es[n], x)
    ensures Waiting(c, ss[k], x)
    ensures forall n :: i <= n < k ==> !Settles(ss[n], es[n], x)
  {
    if i < k {
      NothingSettlesAWaitingRow(c, ss, es, x, i, k - 1);
      SqlExclusive.Reachable(c, ss, es, k - 1);
      assert StepAt(c, ss, es, k - 1);
      NobodyOvertakes(c, ss[k - 1], es[k - 1], x);
    }
  }

  /** In SQLite a waiting row is unclaimed, so none of its messages can still be settled. */
  lemma BoundedBypassInSqlite(c: Config, ss: seq<State>, es: seq<Event>, x: nat, i: nat, k: nat)
    requires c.dialect.SQLite? && Run(c, ss, es) && ss[0] == INITIAL && i <= k <= |es|
    requires Waiting(c, ss[i], x)
    requires var g := ss[i].rows[x].group;
      && c.batchSize(g) >= 1
      && ss[i].Batch(g) == [] && ss[k].Batch(g) == []
      && (forall n :: i <= n < k ==> es[n] != Abandon(g))
      && PollsOf(ss, es, g, i, k) >= |Rivals(c, ss[i], x)| / c.batchSize(g) + 1
    ensures exists n :: i <= n < k && Claims(ss[n], es[n], x)
  {
    if forall n :: i <= n < k ==> !Claims(ss[n], es[n], x) {
      NothingSettlesAWaitingRow(c, ss, es, x, i, k);
      BoundedBypass(c, ss, es, x, i, k);
    }
  }
}
