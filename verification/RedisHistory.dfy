/** In which order a Redis generator makes its reads, and how its messages are settled, over whole runs. */
module RedisHistory {
  import opened RedisGroup

  /** It reads the history, or new entries; an event for a generator that is elsewhere does nothing. */
  ghost predicate HistoryRead(s: State, e: Event, c: string) {
    e == ReadHistory(c) && s.ReaderOf(c).batch == [] && s.ReaderOf(c).next == History
  }

  ghost predicate NewRead(s: State, e: Event, c: string) {
    e == ReadNew(c) && s.ReaderOf(c).batch == [] && s.ReaderOf(c).next == New
  }

  lemma PhaseStep(count: string -> nat, s: State, e: Event, c: string)
    requires s.delivered <= s.entries
    ensures Step(count, s, e).ReaderOf(c).next ==
            if HistoryRead(s, e, c) then New
            else if NewRead(s, e, c) || e == Restart(c) then History
            else s.ReaderOf(c).next
  {
  }

  lemma PhaseAt(count: string -> nat, ss: seq<State>, es: seq<Event>, k: nat, c: string)
    requires Run(count, ss, es) && k < |es|
    ensures ss[k + 1].ReaderOf(c).next ==
            if HistoryRead(ss[k], es[k], c) then New
            else if NewRead(ss[k], es[k], c) || es[k] == Restart(c) then History
            else ss[k].ReaderOf(c).next
  {
    Reachable(count, ss, es, k);
    assert StepAt(count, ss, es, k);
    PhaseStep(count, ss[k], es[k], c);
  }

  lemma {:induction false} PhaseStays(
    count: string -> nat, ss: seq<State>, es: seq<Event>, i: nat, k: nat, c: string, phase: Phase)
    requires Run(count, ss, es) && i < k <= |es|
    requires if phase.History? then NewRead(ss[i], es[i], c) else HistoryRead(ss[i], es[i], c)
    requires forall j :: i < j < k ==>
      if phase.History? then !HistoryRead(ss[j], es[j], c) else !NewRead(ss[j], es[j], c) && es[j] != Restart(c)
    ensures ss[k].ReaderOf(c).next == phase
  {
    if i + 1 < k { PhaseStays(count, ss, es, i, k - 1, c, phase); }
    PhaseAt(count, ss, es, k - 1, c);
  }

  /**
   A generator reads the history between any two reads of new entries, and new entries between any two reads
   of the history unless it was started anew.
   */
  lemma ReadsAlternate(count: string -> nat, ss: seq<State>, es: seq<Event>, i: nat, k: nat, c: string)
    requires Run(count, ss, es) && i < k < |es|
    ensures NewRead(ss[i], es[i], c) && NewRead(ss[k], es[k], c) ==>
              exists j :: i < j < k && HistoryRead(ss[j], es[j], c)
    ensures HistoryRead(ss[i], es[i], c) && HistoryRead(ss[k], es[k], c) ==>
              exists j :: i < j < k && (NewRead(ss[j], es[j], c) || es[j] == Restart(c))
  {
    if NewRead(ss[i], es[i], c) && forall j :: i < j < k ==> !HistoryRead(ss[j], es[j], c) {
      PhaseStays(count, ss, es, i, k, c, History);
    }
    if HistoryRead(ss[i], es[i], c) && forall j :: i < j < k ==> !NewRead(ss[j], es[j], c) && es[j] != Restart(c) {
      PhaseStays(count, ss, es, i, k, c, New);
    }
  }

  /** Message h is settled, in that way. */
  ghost predicate SettledAs(s: State, h: nat, acked: bool) {
    h < |s.handles| && s.handles[h].flags.acked == acked && s.handles[h].flags.nacked == !acked
  }

  lemma SettledStep(count: string -> nat, s: State, e: Event, h: nat, acked: bool)
    requires h < |s.handles|
    requires SettledAs(s, h, acked) || (!s.handles[h].flags.Settled() && e == if acked then CallAck(h) else CallNack(h))
    ensures SettledAs(Step(count, s, e), h, acked)
  {
  }

  /** The first ack or nack of a message settles it, for good. */
  lemma {:induction false} FirstAnswerSettles(
    count: string -> nat, ss: seq<State>, es: seq<Event>, h: nat, i: nat, k: nat)
    requires Run(count, ss, es) && i < k <= |es| && h < |ss[i].handles| && !ss[i].handles[h].flags.Settled()
    requires es[i] == CallAck(h) || es[i] == CallNack(h)
    ensures SettledAs(ss[k], h, es[i].CallAck?)
  {
    if i < k - 1 { FirstAnswerSettles(count, ss, es, h, i, k - 1); }
    assert StepAt(count, ss, es, k - 1);
    SettledStep(count, ss[k - 1], es[k - 1], h, es[i].CallAck?);
  }
}
