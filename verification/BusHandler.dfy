/** The task that a command or event bus starts for one message: decode, resolve, call, settle. */
module BusHandler {
  import opened DependsGraph
  import Messages

  /** What the marshaler makes of a payload. */
  datatype Decoded = Command(value: Object) | Undecodable

  /** How the callback of ack or nack ends. */
  datatype Callback = Works | Raises | Cut

  /** How the task ends: an exception cancels the whole bus. */
  datatype Ended = Finished | Failed | CutOff

  /** The only argument that the bus provides. */
  function Provided(g: Graph, handler: Func, command: Object): Arguments
    requires g(handler).params != []
  {
    map[g(handler).params[0].name := command]
  }

  /** What resolving the dependencies of the handler comes to, with the calls made. */
  function Resolution(g: Graph, handler: Func, decoded: Decoded, env: Env, calls: seq<Func>, depth: nat)
    : (Result, seq<Func>)
    requires g(handler).params != [] && decoded.Command?
  {
    Resolve(g, handler, Provided(g, handler, decoded.value), env, calls, depth)
  }

  /** The answer of the handler, which is called if its dependencies can be resolved. */
  ghost predicate HandlerAnswers(
    g: Graph, handler: Func, decoded: Decoded, env: Env, calls: seq<Func>, depth: nat, a: Answer)
    requires g(handler).params != []
  {
    decoded.Command? &&
    var (r, made) := Resolution(g, handler, decoded, env, calls, depth);
    r.Resolved? && env(handler, r.arguments, |made|) == a
  }

  /** Decoding raises, or resolving, in a dependency or because the stack ends, or the handler. */
  ghost predicate SomethingRaises(g: Graph, handler: Func, decoded: Decoded, env: Env, calls: seq<Func>, depth: nat)
    requires g(handler).params != []
  {
    || decoded.Undecodable?
    || Resolution(g, handler, decoded, env, calls, depth).0.Raised?
    || Resolution(g, handler, decoded, env, calls, depth).0.TooDeep?
    || exists e :: HandlerAnswers(g, handler, decoded, env, calls, depth, Exception(e))
  }

  class Bus {
    var inFlight: int

    constructor ()
      ensures inFlight == 0
    {
      inFlight := 0;
    }

    /**
     The message is acked exactly if decoding, all dependencies and the handler succeed, nacked exactly if
     one of them raises, and left alone if the task is cancelled there. The task finishes only on success
     with a callback that works. `in_flight` is restored in any case.
     */
    method ProcessMessage(message: Messages.Tracked, decoded: Decoded, g: Graph, handler: Func, env: Env,
                          calls: seq<Func>, depth: nat, callback: Callback)
      returns (ended: Ended, made: seq<Func>)
      requires g(handler).params != [] && message.Flags() == Messages.UNSETTLED
      modifies this`inFlight, message
      ensures inFlight == old(inFlight)
      ensures message.acked <==> exists v :: HandlerAnswers(g, handler, decoded, env, calls, depth, Value(v))
      ensures message.nacked <==> SomethingRaises(g, handler, decoded, env, calls, depth)
      ensures ended.Finished? <==> message.acked && callback.Works?
      ensures ended.CutOff? <==> (!message.acked && !message.nacked) || callback.Cut?
      ensures made == if decoded.Undecodable? then calls
                      else
                        var (r, called) := Resolution(g, handler, decoded, env, calls, depth);
                        called + if r.Resolved? then [handler] else []
    {
      inFlight := inFlight + 1;
      made, ended := calls, CutOff;
      var raised := decoded.Undecodable?;
      if decoded.Command? {
        var resolved, called := ResolveDependencies(g, handler, Provided(g, handler, decoded.value), env, calls, depth);
        made := called;
        if resolved.Resolved? {
          made := made + [handler];
          var answer := env(handler, resolved.arguments, |called|);
          raised := answer.Exception?;
          assert HandlerAnswers(g, handler, decoded, env, calls, depth, answer);
          if answer.Value? {
            var _ := message.MarkAcked();
            ended := if callback.Works? then Finished else CutOff;
            raised := callback.Raises?;
          }
        } else {
          raised := !resolved.Interrupted?;
        }
      }
      if raised {
        // the except block: nack(), which refuses an acked message, and raise
        var reply := message.MarkNacked();
        ended := if reply.Accepted? && callback.Cut? then CutOff else Failed;
      }
      inFlight := inFlight - 1;
    }
  }

  /**
   The handler is called last and once, with the command under the name of its first parameter even if
   that parameter is marked as a dependency; before it, one call was made for each `Depends` path from
   its other parameters.
   */
  lemma HandlerGetsCommand(g: Graph, handler: Func, command: Object, env: Env, calls: seq<Func>, depth: nat)
    returns (args: Arguments, paths: seq<seq<nat>>)
    requires WellNamed(g) && g(handler).params != []
    requires Resolve(g, handler, Provided(g, handler, command), env, calls, depth).0.Resolved?
    ensures var first := g(handler).params[0].name;
            var (answer, made) := CallWithDeps(g, handler, Provided(g, handler, command), env, calls, depth);
      && |made| == |calls| + |paths| + 1 && made[|made| - 1] == handler
      && answer == env(handler, args, |made| - 1)
      && first in args && args[first] == command
      && (forall p :: p in paths <==> Leads(g, handler, {first}, p))
      && CallsFollow(g, handler, {first}, paths, calls, made[..|made| - 1])
  {
    var provided := Provided(g, handler, command);
    ProvidedKept(g, handler, provided, env, calls, depth);
    paths := CallsAreThePaths(g, handler, provided, env, calls, depth);
    args := Resolve(g, handler, provided, env, calls, depth).0.arguments;
    assert provided.Keys == {g(handler).params[0].name};
    assert g(handler).params[0].name in provided;
  }
}
