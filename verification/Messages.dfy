/** The `Message` and its one-shot settlement: it can be acked or nacked, once. */
module Messages {

  type Byte = b: int | 0 <= b < 256

  /** A 128-bit number; only its equality and its text matter here. */
  type Uuid = nat

  /** What a message says, without its settlement state. */
  datatype Message = Message(uuid: Uuid, payload: seq<Byte>, metadata: map<string, string>)

  /** The `_acked` and `_nacked` flags. */
  datatype Settlement = Settlement(acked: bool, nacked: bool) {
    predicate Settled() { acked || nacked }
  }

  const UNSETTLED := Settlement(false, false)
  const ACKED := Settlement(true, false)
  const NACKED := Settlement(false, true)

  datatype Reply = Accepted | Rejected(reason: string)

  /** What `ack()` does to the flags before it awaits the callback. */
  function Ack(s: Settlement): (Settlement, Reply) {
    if s.acked then (s, Rejected("Message already acked"))
    else if s.nacked then (s, Rejected("Cannot ack a message that has been nacked"))
    else (s.(acked := true), Accepted)
  }

  /** What `nack()` does to the flags before it awaits the callback. */
  function Nack(s: Settlement): (Settlement, Reply) {
    if s.nacked then (s, Rejected("Message already nacked"))
    else if s.acked then (s, Rejected("Cannot nack a message that has been acked"))
    else (s.(nacked := true), Accepted)
  }

  datatype Request = AckIt | NackIt

  function Answer(s: Settlement, c: Request): (Settlement, Reply) {
    match c
    case AckIt => Ack(s)
    case NackIt => Nack(s)
  }

  /** The replies to a sequence of calls, and the flags after them. */
  function Answers(s: Settlement, calls: seq<Request>): (Settlement, seq<Reply>)
    decreases |calls|
  {
    if calls == [] then (s, [])
    else
      var (t, r) := Answer(s, calls[0]);
      var (u, rs) := Answers(t, calls[1..]);
      (u, [r] + rs)
  }

  /** A settled message refuses every further call and keeps its flags. */
  lemma {:induction false} SettledForGood(s: Settlement, calls: seq<Request>)
    requires s.Settled()
    ensures var (t, rs) := Answers(s, calls);
      t == s && |rs| == |calls| && forall i :: 0 <= i < |rs| ==> rs[i].Rejected?
    decreases |calls|
  {
    if calls != [] { SettledForGood(s, calls[1..]); }
  }

  /** Settlement is one-shot: of any calls exactly the first is accepted, and it alone decides the flags. */
  lemma OneShot(calls: seq<Request>)
    requires calls != []
    ensures var (t, rs) := Answers(UNSETTLED, calls);
      && t == (if calls[0].AckIt? then ACKED else NACKED)
      && |rs| == |calls| && forall i :: 0 <= i < |rs| ==> (rs[i].Accepted? <==> i == 0)
  {
    SettledForGood(Answer(UNSETTLED, calls[0]).0, calls[1..]);
  }

  /** A message in the hands of a handler, with its flags. `ack` and `nack` run the callbacks after these. */
  class Tracked {
    const message: Message
    var acked: bool
    var nacked: bool

    constructor (message: Message)
      ensures this.message == message && Flags() == UNSETTLED
    {
      this.message, acked, nacked := message, false, false;
    }

    function Flags(): Settlement
      reads this
    {
      Settlement(acked, nacked)
    }

    method MarkAcked() returns (r: Reply)
      modifies this`acked
      ensures (Flags(), r) == Ack(old(Flags()))
      ensures r.Accepted? <==> !old(acked) && !old(nacked)
      ensures Flags() == if r.Accepted? then ACKED else old(Flags())
      ensures old(acked) ==> r == Rejected("Message already acked")
      ensures old(nacked) && !old(acked) ==> r == Rejected("Cannot ack a message that has been nacked")
    {
      if acked {
        return Rejected("Message already acked");
      }
      if nacked {
        return Rejected("Cannot ack a message that has been nacked");
      }
      acked := true;
      return Accepted;
    }

    method MarkNacked() returns (r: Reply)
      modifies this`nacked
      ensures (Flags(), r) == Nack(old(Flags()))
      ensures r.Accepted? <==> !old(acked) && !old(nacked)
      ensures Flags() == if r.Accepted? then NACKED else old(Flags())
      ensures old(nacked) ==> r == Rejected("Message already nacked")
      ensures old(acked) && !old(nacked) ==> r == Rejected("Cannot nack a message that has been acked")
    {
      if nacked {
        return Rejected("Message already nacked");
      }
      if acked {
        return Rejected("Cannot nack a message that has been acked");
      }
      nacked := true;
      return Accepted;
    }

    /** A copy can be settled on its own. */
    method Copy() returns (c: Tracked)
      ensures fresh(c) && c.message == message && c.Flags() == UNSETTLED
    {
      c := new Tracked(message);
    }
  }
}
