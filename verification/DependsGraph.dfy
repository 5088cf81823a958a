/** Resolving the `Depends` parameters of a handler, over an arbitrary dependency graph. */
module DependsGraph {
  import opened Options
  import opened Sequences

  /** A callable; its signature is looked up in the graph. */
  type Func = nat

  type Object = nat

  /** The `Depends` marker can stand in the annotation or be the default value. */
  datatype Param = Param(name: string, annotated: Option<Func>, default: Option<Func>)

  /** `hints` says that the type hints can be evaluated; annotations are ignored otherwise. */
  datatype Signature = Signature(params: seq<Param>, hints: bool) {
    function Dependency(i: nat): Option<Func>
      requires i < |params|
    {
      if hints && params[i].annotated.Some? then params[i].annotated else params[i].default
    }
  }

  type Graph = Func -> Signature

  /** Parameters of one function have different names. */
  ghost predicate WellNamed(g: Graph) {
    forall f, i, j :: 0 <= i < j < |g(f).params| ==> g(f).params[i].name != g(f).params[j].name
  }

  /** A cancellation is not an exception that anything here catches. */
  datatype Answer = Value(value: Object) | Exception(error: string) | Cancelled

  type Arguments = map<string, Object>

  /** What the n-th call of a dependency answers. */
  type Env = (Func, Arguments, nat) -> Answer

  /** `TooDeep` is Python's RecursionError. */
  datatype Result = Resolved(arguments: Arguments) | Raised(error: string) | TooDeep | Interrupted

  const RECURSION_ERROR := "maximum recursion depth exceeded"

  /** The parameter is resolved by calling this dependency. */
  function Needed(g: Graph, f: Func, skip: set<string>, i: nat): Option<Func>
    requires i < |g(f).params|
  {
    if g(f).params[i].name in skip then None else g(f).Dependency(i)
  }

  /** The parameters of f from i on; `depth` is how many nested resolutions the stack has room for. */
  function ResolveFrom(
    g: Graph, f: Func, i: nat, resolved: Arguments, env: Env, calls: seq<Func>, depth: nat): (Result, seq<Func>)
    decreases depth, |g(f).params| - i
  {
    if i >= |g(f).params| then (Resolved(resolved), calls)
    else
      match Needed(g, f, resolved.Keys, i)
      case None => ResolveFrom(g, f, i + 1, resolved, env, calls, depth)
      case Some(d) =>
        if depth == 0 then (TooDeep, calls)
        else
          var (nested, after) := ResolveFrom(g, d, 0, map[], env, calls, depth - 1);
          if !nested.Resolved? then (nested, after)
          else
            match env(d, nested.arguments, |after|)
            case Exception(e) => (Raised(e), after + [d])
            case Cancelled => (Interrupted, after + [d])
            case Value(v) =>
              ResolveFrom(g, f, i + 1, resolved[g(f).params[i].name := v], env, after + [d], depth)
  }

  function Resolve(
    g: Graph, f: Func, provided: Arguments, env: Env, calls: seq<Func>, depth: nat): (Result, seq<Func>)
  {
    ResolveFrom(g, f, 0, provided, env, calls, depth)
  }

  /** The function itself is called last, if everything it depends on was resolved. */
  function CallWithDeps(
    g: Graph, f: Func, provided: Arguments, env: Env, calls: seq<Func>, depth: nat): (Answer, seq<Func>)
  {
    match Resolve(g, f, provided, env, calls, depth)
    case (Resolved(args), made) => (env(f, args, |made|), made + [f])
    case (Raised(e), made) => (Exception(e), made)
    case (TooDeep, made) => (Exception(RECURSION_ERROR), made)
    case (Interrupted, made) => (Answer.Cancelled, made)
  }

  /** The loop over the parameters, filling the dictionary. */
  method ResolveDependencies(g: Graph, f: Func, provided: Arguments, env: Env, calls: seq<Func>, depth: nat)
    returns (r: Result, made: seq<Func>)
    ensures (r, made) == Resolve(g, f, provided, env, calls, depth)
    decreases depth
  {
    var resolved: Arguments := provided;
    made := calls;
    var i := 0;
    while i < |g(f).params|
      invariant i <= |g(f).params|
      invariant ResolveFrom(g, f, i, resolved, env, made, depth) == Resolve(g, f, provided, env, calls, depth)
    {
      var name := g(f).params[i].name;
      if name !in resolved && g(f).Dependency(i).Some? {
        var d := g(f).Dependency(i).value;
        if depth == 0 {
          return TooDeep, made;
        }
        var nested, after := ResolveDependencies(g, d, map[], env, made, depth - 1);
        made := after;
        if !nested.Resolved? {
          return nested, made;
        }
        var answer := env(d, nested.arguments, |made|);
        made := made + [d];
        if answer.Exception? {
          return Raised(answer.error), made;
        }
        if answer.Cancelled? {
          return Interrupted, made;
        }
        resolved := resolved[name := answer.value];
      }
      i := i + 1;
    }
    return Resolved(resolved), made;
  }

  // ---- paths in the graph ------------------------------------------------------------------------

  /**
   A path of `Depends` edges: p[0] is a parameter of f that is not provided, p[1] one of its dependency, and
   so on.
   */
  ghost predicate IsPath(g: Graph, f: Func, skip: set<string>, p: seq<nat>)
    decreases |p|
  {
    && p != [] && p[0] < |g(f).params| && Needed(g, f, skip, p[0]).Some?
    && (|p| > 1 ==> IsPath(g, Needed(g, f, skip, p[0]).value, {}, p[1..]))
  }

  /** The dependency that the path leads to. */
  ghost function End(g: Graph, f: Func, skip: set<string>, p: seq<nat>): Func
    requires IsPath(g, f, skip, p)
    decreases |p|
  {
    var d := Needed(g, f, skip, p[0]).value;
    if |p| == 1 then d else End(g, d, {}, p[1..])
  }

  /**
   On the signature as it is written: parameter i asks for this dependency, in an annotation that could be
   evaluated, or else as its default value.
   */
  ghost predicate AsksFor(s: Signature, i: nat, d: Func) {
    && i < |s.params|
    && (|| (s.hints && s.params[i].annotated == Some(d))
        || (!(s.hints && s.params[i].annotated != None) && s.params[i].default == Some(d)))
  }

  /** Likewise, an unprovided parameter of f asks for a dependency, a parameter of it for another, and so on to d. */
  ghost predicate LeadsTo(g: Graph, f: Func, skip: set<string>, p: seq<nat>, d: Func)
    decreases |p|
  {
    && p != [] && p[0] < |g(f).params| && g(f).params[p[0]].name !in skip
    && exists e :: AsksFor(g(f), p[0], e) && if |p| == 1 then e == d else LeadsTo(g, e, {}, p[1..], d)
  }

  ghost predicate Leads(g: Graph, f: Func, skip: set<string>, p: seq<nat>) {
    exists d :: LeadsTo(g, f, skip, p, d)
  }

  lemma NeededIff(g: Graph, f: Func, skip: set<string>, i: nat, d: Func)
    requires i < |g(f).params|
    ensures Needed(g, f, skip, i) == Some(d) <==> g(f).params[i].name !in skip && AsksFor(g(f), i, d)
  {
  }

  lemma {:induction false} LeadsToIff(g: Graph, f: Func, skip: set<string>, p: seq<nat>, d: Func)
    ensures LeadsTo(g, f, skip, p, d) <==> IsPath(g, f, skip, p) && End(g, f, skip, p) == d
    decreases |p|
  {
    if p != [] && p[0] < |g(f).params| {
      if LeadsTo(g, f, skip, p, d) {
        var e :| AsksFor(g(f), p[0], e) && if |p| == 1 then e == d else LeadsTo(g, e, {}, p[1..], d);
        NeededIff(g, f, skip, p[0], e);
        if |p| > 1 { LeadsToIff(g, e, {}, p[1..], d); }
      }
      if IsPath(g, f, skip, p) && End(g, f, skip, p) == d {
        var e := Needed(g, f, skip, p[0]).value;
        NeededIff(g, f, skip, p[0], e);
        if |p| > 1 { LeadsToIff(g, e, {}, p[1..], d); }
      }
    }
  }

  lemma PathIff(g: Graph, f: Func, skip: set<string>, p: seq<nat>)
    ensures IsPath(g, f, skip, p) <==> Leads(g, f, skip, p)
  {
    if IsPath(g, f, skip, p) { LeadsToIff(g, f, skip, p, End(g, f, skip, p)); }
    forall d | LeadsTo(g, f, skip, p, d) ensures IsPath(g, f, skip, p) { LeadsToIff(g, f, skip, p, d); }
  }

  /** No path is longer than the stack has room for. */
  ghost predicate Shallow(g: Graph, f: Func, skip: set<string>, depth: nat) {
    forall p :: Leads(g, f, skip, p) ==> |p| <= depth
  }

  ghost function Prefixed(i: nat, ps: seq<seq<nat>>): (r: seq<seq<nat>>)
    ensures |r| == |ps| && forall k :: 0 <= k < |ps| ==> r[k] == [i] + ps[k]
  {
    seq(|ps|, k requires 0 <= k < |ps| => [i] + ps[k])
  }

  /** The paths of f through its parameters from i on, dependencies before what depends on them. */
  ghost function PathsFrom(g: Graph, f: Func, skip: set<string>, i: nat, depth: nat): seq<seq<nat>>
    decreases depth, |g(f).params| - i
  {
    if i >= |g(f).params| then []
    else
      var rest := PathsFrom(g, f, skip, i + 1, depth);
      if Needed(g, f, skip, i).None? || depth == 0 then rest
      else Prefixed(i, PathsFrom(g, Needed(g, f, skip, i).value, {}, 0, depth - 1)) + [[i]] + rest
  }

  /** Every listed path is one, through a parameter from i on, and fits the stack. */
  lemma {:induction false} ListedArePaths(g: Graph, f: Func, skip: set<string>, i: nat, depth: nat, k: nat)
    requires k < |PathsFrom(g, f, skip, i, depth)|
    ensures var p := PathsFrom(g, f, skip, i, depth)[k];
            IsPath(g, f, skip, p) && p[0] >= i && |p| <= depth
    decreases depth, |g(f).params| - i
  {
    var need := Needed(g, f, skip, i);
    if need.None? || depth == 0 {
      ListedArePaths(g, f, skip, i + 1, depth, k);
    } else {
      var inner := PathsFrom(g, need.value, {}, 0, depth - 1);
      if k < |inner| {
        ListedArePaths(g, need.value, {}, 0, depth - 1, k);
        assert ([i] + inner[k])[1..] == inner[k];
      } else if k > |inner| {
        ListedArePaths(g, f, skip, i + 1, depth, k - |inner| - 1);
      }
    }
  }

  /** Every path that fits the stack is listed. */
  lemma {:induction false} PathsAreListed(g: Graph, f: Func, skip: set<string>, i: nat, depth: nat, p: seq<nat>)
    requires IsPath(g, f, skip, p) && p[0] >= i && |p| <= depth
    ensures p in PathsFrom(g, f, skip, i, depth)
    decreases depth, |g(f).params| - i
  {
    if p[0] > i {
      PathsAreListed(g, f, skip, i + 1, depth, p);
    } else {
      var all, inner := PathsFrom(g, f, skip, i, depth), PathsFrom(g, Needed(g, f, skip, i).value, {}, 0, depth - 1);
      if |p| == 1 {
        assert all[|inner|] == [i] == p;
      } else {
        PathsAreListed(g, Needed(g, f, skip, i).value, {}, 0, depth - 1, p[1..]);
        var k :| 0 <= k < |inner| && inner[k] == p[1..];
        assert all[k] == [i] + inner[k] == p;
      }
    }
  }

  /** No path is listed twice. */
  lemma {:induction false} ListedOnce(g: Graph, f: Func, skip: set<string>, i: nat, depth: nat, a: nat, b: nat)
    requires a < b < |PathsFrom(g, f, skip, i, depth)|
    ensures PathsFrom(g, f, skip, i, depth)[a] != PathsFrom(g, f, skip, i, depth)[b]
    decreases depth, |g(f).params| - i
  {
    var need := Needed(g, f, skip, i);
    if need.None? || depth == 0 {
      ListedOnce(g, f, skip, i + 1, depth, a, b);
    } else {
      var inner := PathsFrom(g, need.value, {}, 0, depth - 1);
      var n := |inner| + 1;
      if a >= n {
        ListedOnce(g, f, skip, i + 1, depth, a - n, b - n);
      } else if b >= n {
        ListedArePaths(g, f, skip, i + 1, depth, b - n);
      } else if b < |inner| {
        ListedOnce(g, need.value, {}, 0, depth - 1, a, b);
        assert ([i] + inner[a])[1..] == inner[a] && ([i] + inner[b])[1..] == inner[b];
      } else {
        ListedArePaths(g, need.value, {}, 0, depth - 1, a);
      }
    }
  }

  // ---- the calls are the paths -------------------------------------------------------------------

  ghost predicate ArePaths(g: Graph, f: Func, skip: set<string>, ps: seq<seq<nat>>) {
    forall k :: 0 <= k < |ps| ==> IsPath(g, f, skip, ps[k])
  }

  ghost function Ends(g: Graph, f: Func, skip: set<string>, ps: seq<seq<nat>>): seq<Func>
    requires ArePaths(g, f, skip, ps)
  {
    seq(|ps|, k requires 0 <= k < |ps| => End(g, f, skip, ps[k]))
  }

  /** The dependencies at the ends of the listed paths. */
  ghost function Calls(g: Graph, f: Func, skip: set<string>, i: nat, depth: nat): seq<Func> {
    ListedAre(g, f, skip, i, depth);
    Ends(g, f, skip, PathsFrom(g, f, skip, i, depth))
  }

  lemma ListedAre(g: Graph, f: Func, skip: set<string>, i: nat, depth: nat)
    ensures ArePaths(g, f, skip, PathsFrom(g, f, skip, i, depth))
  {
    var ps := PathsFrom(g, f, skip, i, depth);
    forall k | 0 <= k < |ps| ensures IsPath(g, f, skip, ps[k]) {
      ListedArePaths(g, f, skip, i, depth, k);
    }
  }

  lemma CallsStep(g: Graph, f: Func, skip: set<string>, i: nat, depth: nat)
    requires i < |g(f).params|
    ensures var need := Needed(g, f, skip, i);
      Calls(g, f, skip, i, depth) ==
      (if need.None? || depth == 0 then [] else Calls(g, need.value, {}, 0, depth - 1) + [need.value])
      + Calls(g, f, skip, i + 1, depth)
  {
    var need := Needed(g, f, skip, i);
    ListedAre(g, f, skip, i, depth);
    ListedAre(g, f, skip, i + 1, depth);
    if need.Some? && depth > 0 {
      var all, inner := PathsFrom(g, f, skip, i, depth), PathsFrom(g, need.value, {}, 0, depth - 1);
      ListedAre(g, need.value, {}, 0, depth - 1);
      forall k | 0 <= k < |inner| ensures Calls(g, f, skip, i, depth)[k] == Calls(g, need.value, {}, 0, depth - 1)[k] {
        assert all[k] == [i] + inner[k] && all[k][1..] == inner[k];
      }
    }
  }

  /** From i on, the dictionary holds exactly the parameters that were provided. */
  ghost predicate InStep(g: Graph, f: Func, skip: set<string>, i: nat, resolved: Arguments) {
    forall j :: i <= j < |g(f).params| ==> (g(f).params[j].name in resolved <==> g(f).params[j].name in skip)
  }

  /** The calls made so far, and then some or all of `more`. */
  ghost predicate Between(calls: seq<Func>, made: seq<Func>, more: seq<Func>) {
    calls <= made <= calls + more
  }

  lemma BetweenEarlier(calls: seq<Func>, made: seq<Func>, first: seq<Func>, d: Func, rest: seq<Func>)
    ensures Between(calls, made, first) ==> Between(calls, made, first + [d] + rest)
    ensures made == calls + first ==> Between(calls, made + [d], first + [d] + rest)
  {
  }

  lemma BetweenLater(calls: seq<Func>, made: seq<Func>, first: seq<Func>, d: Func, rest: seq<Func>)
    ensures Between(calls + first + [d], made, rest) ==> Between(calls, made, first + [d] + rest)
    ensures calls + first + [d] + rest == calls + (first + [d] + rest)
  {
  }

  /** The calls follow the listed paths, up to the end unless something is raised. */
  lemma {:induction false} CallsFollowPaths(g: Graph, f: Func, skip: set<string>, i: nat, resolved: Arguments,
                                            env: Env, calls: seq<Func>, depth: nat)
    requires WellNamed(g) && InStep(g, f, skip, i, resolved)
    ensures var (r, made) := ResolveFrom(g, f, i, resolved, env, calls, depth);
      && Between(calls, made, Calls(g, f, skip, i, depth))
      && (r.Resolved? ==> made == calls + Calls(g, f, skip, i, depth))
    decreases depth, |g(f).params| - i
  {
    if i < |g(f).params| {
      CallsStep(g, f, skip, i, depth);
      var need := Needed(g, f, resolved.Keys, i);
      if need.None? {
        CallsFollowPaths(g, f, skip, i + 1, resolved, env, calls, depth);
      } else if depth > 0 {
        var d := need.value;
        var first, rest := Calls(g, d, {}, 0, depth - 1), Calls(g, f, skip, i + 1, depth);
        CallsFollowPaths(g, d, {}, 0, map[], env, calls, depth - 1);
        var (nested, after) := ResolveFrom(g, d, 0, map[], env, calls, depth - 1);
        BetweenEarlier(calls, after, first, d, rest);
        if nested.Resolved? && env(d, nested.arguments, |after|).Value? {
          var v := env(d, nested.arguments, |after|).value;
          CallsFollowPaths(g, f, skip, i + 1, resolved[g(f).params[i].name := v], env, after + [d], depth);
          BetweenLater(calls, ResolveFrom(g, f, i, resolved, env, calls, depth).1, first, d, rest);
        }
      }
    }
  }

  // ---- arguments and stack depth -----------------------------------------------------------------

  /** A needed parameter of f got what a call of its dependency answered to likewise resolved arguments. */
  ghost predicate Wired(g: Graph, f: Func, skip: set<string>, i: nat, args: Arguments, env: Env, depth: nat)
    decreases depth, |g(f).params| - i
  {
    i < |g(f).params| ==>
      && Wired(g, f, skip, i + 1, args, env, depth)
      && (Needed(g, f, skip, i).Some? ==>
            && depth > 0 && g(f).params[i].name in args
            && exists nested, n ::
                 && env(Needed(g, f, skip, i).value, nested, n) == Answer.Value(args[g(f).params[i].name])
                 && nested.Keys == Names(g, Needed(g, f, skip, i).value, {}, 0)
                 && Wired(g, Needed(g, f, skip, i).value, {}, 0, nested, env, depth - 1))
  }

  /** The names of the needed parameters from i on. */
  ghost function Names(g: Graph, f: Func, skip: set<string>, i: nat): set<string>
    decreases |g(f).params| - i
  {
    if i >= |g(f).params| then {}
    else (if Needed(g, f, skip, i).Some? then {g(f).params[i].name} else {}) + Names(g, f, skip, i + 1)
  }

  lemma {:induction false} ArgumentsAreWired(g: Graph, f: Func, skip: set<string>, i: nat, resolved: Arguments,
                                             env: Env, calls: seq<Func>, depth: nat)
    requires WellNamed(g) && InStep(g, f, skip, i, resolved)
    requires ResolveFrom(g, f, i, resolved, env, calls, depth).0.Resolved?
    ensures var args := ResolveFrom(g, f, i, resolved, env, calls, depth).0.arguments;
      && resolved.Keys <= args.Keys && (forall x :: x in resolved ==> args[x] == resolved[x])
      && args.Keys == resolved.Keys + Names(g, f, skip, i)
      && Wired(g, f, skip, i, args, env, depth)
    decreases depth, |g(f).params| - i
  {
    if i < |g(f).params| {
      var need := Needed(g, f, resolved.Keys, i);
      if need.None? {
        ArgumentsAreWired(g, f, skip, i + 1, resolved, env, calls, depth);
      } else {
        var d, name := need.value, g(f).params[i].name;
        ArgumentsAreWired(g, d, {}, 0, map[], env, calls, depth - 1);
        var (nested, after) := ResolveFrom(g, d, 0, map[], env, calls, depth - 1);
        var v := env(d, nested.arguments, |after|).value;
        ArgumentsAreWired(g, f, skip, i + 1, resolved[name := v], env, after + [d], depth);
      }
    }
  }

  ghost predicate NeverRaises(env: Env) {
    forall d, args, n :: env(d, args, n).Value?
  }

  /** The nested resolutions fit the stack: Shallow, parameter by parameter. */
  ghost predicate Fits(g: Graph, f: Func, skip: set<string>, i: nat, depth: nat)
    decreases depth, |g(f).params| - i
  {
    i < |g(f).params| ==>
      && Fits(g, f, skip, i + 1, depth)
      && (Needed(g, f, skip, i).Some? ==> depth > 0 && Fits(g, Needed(g, f, skip, i).value, {}, 0, depth - 1))
  }

  lemma {:induction false} FitsIsShallow(g: Graph, f: Func, skip: set<string>, i: nat, depth: nat, p: seq<nat>)
    requires Fits(g, f, skip, i, depth) && IsPath(g, f, skip, p) && p[0] >= i
    ensures |p| <= depth
    decreases depth, |g(f).params| - i
  {
    if p[0] > i {
      FitsIsShallow(g, f, skip, i + 1, depth, p);
    } else if |p| > 1 {
      FitsIsShallow(g, Needed(g, f, skip, i).value, {}, 0, depth - 1, p[1..]);
    }
  }

  lemma {:induction false} MisfitIsDeep(g: Graph, f: Func, skip: set<string>, i: nat, depth: nat) returns (p: seq<nat>)
    requires !Fits(g, f, skip, i, depth)
    ensures IsPath(g, f, skip, p) && p[0] >= i && |p| > depth
    decreases depth, |g(f).params| - i
  {
    if !Fits(g, f, skip, i + 1, depth) {
      p := MisfitIsDeep(g, f, skip, i + 1, depth);
    } else if depth == 0 {
      p := [i];
    } else {
      var q := MisfitIsDeep(g, Needed(g, f, skip, i).value, {}, 0, depth - 1);
      p := [i] + q;
      assert p[1..] == q;
    }
  }

  lemma {:induction false} DepthSuffices(g: Graph, f: Func, skip: set<string>, i: nat, resolved: Arguments,
                                         env: Env, calls: seq<Func>, depth: nat)
    requires WellNamed(g) && InStep(g, f, skip, i, resolved)
    ensures var r := ResolveFrom(g, f, i, resolved, env, calls, depth).0;
      && (r.Resolved? ==> Fits(g, f, skip, i, depth))
      && (r.TooDeep? ==> !Fits(g, f, skip, i, depth))
      && (NeverRaises(env) ==> !r.Raised? && !r.Interrupted?)
    decreases depth, |g(f).params| - i
  {
    if i < |g(f).params| {
      var need := Needed(g, f, skip, i);
      if need.None? {
        DepthSuffices(g, f, skip, i + 1, resolved, env, calls, depth);
      } else if depth > 0 {
        var d := need.value;
        DepthSuffices(g, d, {}, 0, map[], env, calls, depth - 1);
        var (nested, after) := ResolveFrom(g, d, 0, map[], env, calls, depth - 1);
        if nested.Resolved? && env(d, nested.arguments, |after|).Value? {
          var v := env(d, nested.arguments, |after|).value;
          DepthSuffices(g, f, skip, i + 1, resolved[g(f).params[i].name := v], env, after + [d], depth);
        }
      }
    }
  }

  lemma DepthIsPathLength(g: Graph, f: Func, provided: Arguments, env: Env, calls: seq<Func>, depth: nat)
    requires WellNamed(g)
    ensures var r := Resolve(g, f, provided, env, calls, depth).0;
      && (r.Resolved? ==> Shallow(g, f, provided.Keys, depth))
      && (r.TooDeep? ==> !Shallow(g, f, provided.Keys, depth))
      && (NeverRaises(env) ==> !r.Raised? && !r.Interrupted?)
  {
    DepthSuffices(g, f, provided.Keys, 0, provided, env, calls, depth);
    if Fits(g, f, provided.Keys, 0, depth) {
      forall p | Leads(g, f, provided.Keys, p) ensures |p| <= depth {
        PathIff(g, f, provided.Keys, p);
        FitsIsShallow(g, f, provided.Keys, 0, depth, p);
      }
    } else {
      var p := MisfitIsDeep(g, f, provided.Keys, 0, depth);
      PathIff(g, f, provided.Keys, p);
    }
  }

  // ---- the theorems ------------------------------------------------------------------------------

  /** Some parameter of that name, from i on, was not provided and asks for a dependency. */
  ghost predicate Asked(g: Graph, f: Func, skip: set<string>, i: nat, x: string) {
    x !in skip && exists j: nat, d :: j >= i && AsksFor(g(f), j, d) && g(f).params[j].name == x
  }

  lemma {:induction false} NamesAreAsked(g: Graph, f: Func, skip: set<string>, i: nat, x: string)
    ensures x in Names(g, f, skip, i) <==> Asked(g, f, skip, i, x)
    decreases |g(f).params| - i
  {
    if i < |g(f).params| {
      NamesAreAsked(g, f, skip, i + 1, x);
      forall d: Func ensures Needed(g, f, skip, i) == Some(d) <==> g(f).params[i].name !in skip && AsksFor(g(f), i, d) {
        NeededIff(g, f, skip, i, d);
      }
      if Needed(g, f, skip, i).Some? { assert AsksFor(g(f), i, Needed(g, f, skip, i).value); }
    }
  }

  /** A call of d, with arguments for exactly the parameters of d that ask for something, has answered v. */
  ghost predicate Answers(g: Graph, d: Func, env: Env, v: Object) {
    exists nested, n :: env(d, nested, n) == Answer.Value(v) && forall x :: x in nested <==> Asked(g, d, {}, 0, x)
  }

  lemma {:induction false} WiredAt(
    g: Graph, f: Func, skip: set<string>, i: nat, args: Arguments, env: Env, depth: nat, j: nat, d: Func)
    requires Wired(g, f, skip, i, args, env, depth) && i <= j && AsksFor(g(f), j, d)
    requires g(f).params[j].name !in skip
    ensures g(f).params[j].name in args && Answers(g, d, env, args[g(f).params[j].name])
    decreases j - i
  {
    if i < j {
      WiredAt(g, f, skip, i + 1, args, env, depth, j, d);
    } else {
      NeededIff(g, f, skip, j, d);
      forall x ensures x in Names(g, d, {}, 0) <==> Asked(g, d, {}, 0, x) { NamesAreAsked(g, d, {}, 0, x); }
    }
  }

  /**
   Resolution keeps what was provided, adds exactly the unprovided parameters that ask for a dependency, and
   gives each of them what a call of that very dependency has answered.
   */
  lemma ProvidedKept(g: Graph, f: Func, provided: Arguments, env: Env, calls: seq<Func>, depth: nat)
    requires WellNamed(g) && Resolve(g, f, provided, env, calls, depth).0.Resolved?
    ensures var args := Resolve(g, f, provided, env, calls, depth).0.arguments;
      && (forall x :: x in args <==> x in provided || Asked(g, f, provided.Keys, 0, x))
      && (forall x :: x in provided ==> args[x] == provided[x])
      && (forall j: nat, d :: AsksFor(g(f), j, d) && g(f).params[j].name !in provided ==>
            g(f).params[j].name in args && Answers(g, d, env, args[g(f).params[j].name]))
      && Wired(g, f, provided.Keys, 0, args, env, depth)
  {
    var args := Resolve(g, f, provided, env, calls, depth).0.arguments;
    ArgumentsAreWired(g, f, provided.Keys, 0, provided, env, calls, depth);
    forall x ensures x in args <==> x in provided || Asked(g, f, provided.Keys, 0, x) {
      NamesAreAsked(g, f, provided.Keys, 0, x);
    }
    forall j: nat, d | AsksFor(g(f), j, d) && g(f).params[j].name !in provided
      ensures g(f).params[j].name in args && Answers(g, d, env, args[g(f).params[j].name])
    {
      WiredAt(g, f, provided.Keys, 0, args, env, depth, j, d);
    }
  }

  // ---- how a resolution ends -----------------------------------------------------------------------

  /** The k-th call has answered this. */
  ghost predicate Answered(env: Env, made: seq<Func>, k: nat, a: Answer)
    requires k < |made|
  {
    exists args :: env(made[k], args, k) == a
  }

  ghost predicate Returned(env: Env, made: seq<Func>, k: nat)
    requires k < |made|
  {
    exists v :: Answered(env, made, k, Answer.Value(v))
  }

  /** All calls since `calls` have answered with values. */
  ghost predicate AllReturned(env: Env, calls: seq<Func>, made: seq<Func>) {
    calls <= made && forall k: nat :: |calls| <= k < |made| ==> Returned(env, made, k)
  }

  lemma ReturnedStill(env: Env, made: seq<Func>, more: seq<Func>, k: nat)
    requires k < |made| && made <= more
    ensures Returned(env, made, k) <==> Returned(env, more, k)
  {
    forall a ensures Answered(env, made, k, a) <==> Answered(env, more, k, a) {}
  }

  /** The calls before the last one have, and the last one has answered this. */
  ghost predicate LastAnswered(env: Env, calls: seq<Func>, made: seq<Func>, a: Answer) {
    && |calls| < |made| && AllReturned(env, calls, made[..|made| - 1])
    && Answered(env, made, |made| - 1, a)
  }

  lemma OneMoreCall(env: Env, calls: seq<Func>, made: seq<Func>, d: Func, args: Arguments)
    requires AllReturned(env, calls, made)
    ensures var a := env(d, args, |made|);
            if a.Value? then AllReturned(env, calls, made + [d]) else LastAnswered(env, calls, made + [d], a)
  {
    var a, more := env(d, args, |made|), made + [d];
    assert more[|made|] == d && env(more[|made|], args, |made|) == a;
    assert more[..|more| - 1] == made;
    if a.Value? {
      forall k: nat | |calls| <= k < |more| ensures Returned(env, more, k) {
        if k < |made| { ReturnedStill(env, made, more, k); }
      }
    }
  }

  lemma CallsJoin(env: Env, calls: seq<Func>, made: seq<Func>, more: seq<Func>)
    requires AllReturned(env, calls, made) && AllReturned(env, made, more)
    ensures AllReturned(env, calls, more)
  {
    forall k: nat | |calls| <= k < |more| ensures Returned(env, more, k) {
      if k < |made| { ReturnedStill(env, made, more, k); }
    }
  }

  /** The result says how the calls have ended. */
  ghost predicate EndsWith(env: Env, calls: seq<Func>, r: Result, made: seq<Func>) {
    match r
    case Raised(e) => LastAnswered(env, calls, made, Exception(e))
    case Interrupted => LastAnswered(env, calls, made, Answer.Cancelled)
    case _ => AllReturned(env, calls, made)
  }

  lemma EndsLater(env: Env, calls: seq<Func>, made: seq<Func>, r: Result, more: seq<Func>)
    requires AllReturned(env, calls, made) && EndsWith(env, made, r, more)
    ensures EndsWith(env, calls, r, more)
  {
    if r.Raised? || r.Interrupted? {
      CallsJoin(env, calls, made, more[..|more| - 1]);
    } else {
      CallsJoin(env, calls, made, more);
    }
  }

  lemma {:induction false} FromEndsWith(
    g: Graph, f: Func, i: nat, resolved: Arguments, env: Env, calls: seq<Func>, depth: nat)
    ensures var (r, made) := ResolveFrom(g, f, i, resolved, env, calls, depth); EndsWith(env, calls, r, made)
    decreases depth, |g(f).params| - i
  {
    if i < |g(f).params| {
      var need := Needed(g, f, resolved.Keys, i);
      if need.None? {
        FromEndsWith(g, f, i + 1, resolved, env, calls, depth);
      } else if depth > 0 {
        var d := need.value;
        FromEndsWith(g, d, 0, map[], env, calls, depth - 1);
        var (nested, after) := ResolveFrom(g, d, 0, map[], env, calls, depth - 1);
        if nested.Resolved? {
          OneMoreCall(env, calls, after, d, nested.arguments);
          if env(d, nested.arguments, |after|).Value? {
            var more := resolved[g(f).params[i].name := env(d, nested.arguments, |after|).value];
            FromEndsWith(g, f, i + 1, more, env, after + [d], depth);
            var (r, made) := ResolveFrom(g, f, i + 1, more, env, after + [d], depth);
            EndsLater(env, calls, after + [d], r, made);
          }
        }
      }
    }
  }

  /**
   A resolution ends with an exception or a cancellation exactly if its last call answered with it, and then
   all earlier calls returned; otherwise all calls returned, also when the stack was too short.
   */
  lemma EndsAsTheLastCall(g: Graph, f: Func, provided: Arguments, env: Env, calls: seq<Func>, depth: nat)
    ensures var (r, made) := Resolve(g, f, provided, env, calls, depth);
      && (r.Raised? ==> LastAnswered(env, calls, made, Exception(r.error)))
      && (r.Interrupted? ==> LastAnswered(env, calls, made, Answer.Cancelled))
      && (r.Resolved? || r.TooDeep? ==> AllReturned(env, calls, made))
  {
    FromEndsWith(g, f, 0, provided, env, calls, depth);
  }

  /**
   A call with dependencies ends as the last of the calls that it makes, which is that of the function itself
   if it returns; only a stack that is too short ends it between calls.
   */
  lemma CallEndsAsItsLast(g: Graph, f: Func, provided: Arguments, env: Env, calls: seq<Func>, depth: nat)
    requires WellNamed(g)
    ensures var (a, made) := CallWithDeps(g, f, provided, env, calls, depth);
      && (|| LastAnswered(env, calls, made, a)
          || (a.Exception? && AllReturned(env, calls, made) && !Shallow(g, f, provided.Keys, depth)))
      && (a.Value? ==> made != [] && made[|made| - 1] == f)
  {
    var (r, made) := Resolve(g, f, provided, env, calls, depth);
    EndsAsTheLastCall(g, f, provided, env, calls, depth);
    if r.Resolved? {
      var a, more := env(f, r.arguments, |made|), made + [f];
      assert more[|made|] == f && env(more[|made|], r.arguments, |made|) == a;
      assert Answered(env, more, |made|, a) && more[..|more| - 1] == made;
    } else {
      DepthIsPathLength(g, f, provided, env, calls, depth);
    }
  }

  lemma ListingIsExact(g: Graph, f: Func, skip: set<string>, depth: nat)
    ensures var paths := PathsFrom(g, f, skip, 0, depth);
      && (forall a, b :: 0 <= a < b < |paths| ==> paths[a] != paths[b])
      && (forall p :: p in paths <==> IsPath(g, f, skip, p) && |p| <= depth)
  {
    var paths := PathsFrom(g, f, skip, 0, depth);
    forall a, b | 0 <= a < b < |paths| ensures paths[a] != paths[b] { ListedOnce(g, f, skip, 0, depth, a, b); }
    forall p ensures p in paths <==> IsPath(g, f, skip, p) && |p| <= depth {
      if p in paths {
        var k :| 0 <= k < |paths| && paths[k] == p;
        ListedArePaths(g, f, skip, 0, depth, k);
      }
      if IsPath(g, f, skip, p) && |p| <= depth { PathsAreListed(g, f, skip, 0, depth, p); }
    }
  }

  /** The calls made since `calls` lead, one by one, to the ends of the first of the paths. */
  ghost predicate CallsFollow(
    g: Graph, f: Func, skip: set<string>, paths: seq<seq<nat>>, calls: seq<Func>, made: seq<Func>)
  {
    && calls <= made && |made| - |calls| <= |paths|
    && forall k :: 0 <= k < |made| - |calls| ==> LeadsTo(g, f, skip, paths[k], made[|calls| + k])
  }

  lemma BetweenFollows(g: Graph, f: Func, skip: set<string>, paths: seq<seq<nat>>, calls: seq<Func>, made: seq<Func>)
    requires ArePaths(g, f, skip, paths) && Between(calls, made, Ends(g, f, skip, paths))
    ensures CallsFollow(g, f, skip, paths, calls, made)
  {
    forall k | 0 <= k < |made| - |calls| ensures LeadsTo(g, f, skip, paths[k], made[|calls| + k]) {
      assert made[|calls| + k] == (calls + Ends(g, f, skip, paths))[|calls| + k];
      LeadsToIff(g, f, skip, paths[k], made[|calls| + k]);
    }
  }

  /**
   The calls of a resolution are its `Depends` paths: one call per path from an unprovided parameter,
   of the dependency at its end. When something is raised, the calls stop short.
   */
  lemma CallsAreThePaths(g: Graph, f: Func, provided: Arguments, env: Env, calls: seq<Func>, depth: nat)
    returns (paths: seq<seq<nat>>)
    requires WellNamed(g)
    ensures forall a, b :: 0 <= a < b < |paths| ==> paths[a] != paths[b]
    ensures forall p :: p in paths <==> Leads(g, f, provided.Keys, p) && |p| <= depth
    ensures CallsFollow(g, f, provided.Keys, paths, calls, Resolve(g, f, provided, env, calls, depth).1)
    ensures Resolve(g, f, provided, env, calls, depth).0.Resolved? ==>
      && |Resolve(g, f, provided, env, calls, depth).1| == |calls| + |paths|
      && Shallow(g, f, provided.Keys, depth)
  {
    var skip := provided.Keys;
    paths := PathsFrom(g, f, skip, 0, depth);
    ListingIsExact(g, f, skip, depth);
    forall p ensures IsPath(g, f, skip, p) <==> Leads(g, f, skip, p) { PathIff(g, f, skip, p); }
    ListedAre(g, f, skip, 0, depth);
    CallsFollowPaths(g, f, skip, 0, provided, env, calls, depth);
    DepthIsPathLength(g, f, provided, env, calls, depth);
    BetweenFollows(g, f, skip, paths, calls, Resolve(g, f, provided, env, calls, depth).1);
  }

  /** If no dependency raises, resolution succeeds exactly if no path is longer than the stack has room for. */
  lemma ResolvesIffShallow(g: Graph, f: Func, provided: Arguments, env: Env, calls: seq<Func>, depth: nat)
    requires WellNamed(g) && NeverRaises(env)
    ensures Resolve(g, f, provided, env, calls, depth).0.Resolved? <==> Shallow(g, f, provided.Keys, depth)
  {
    DepthIsPathLength(g, f, provided, env, calls, depth);
  }
}
