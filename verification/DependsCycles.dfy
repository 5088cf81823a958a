/** Which `Depends` graphs can be resolved at all: those without cycles, on a stack that is deep enough. */
module DependsCycles {
  import opened Sequences
  import opened DependsGraph

  /** Every dependency ranks below what depends on it, so that the graph has no cycles. */
  ghost predicate RanksFall(g: Graph, rank: Func -> nat) {
    forall f, i, d :: AsksFor(g(f), i, d) ==> rank(d) < rank(f)
  }

  /** In a graph without cycles, a stack as deep as the rank of the function suffices. */
  lemma {:induction false} AcyclicIsShallow(g: Graph, rank: Func -> nat, f: Func, skip: set<string>, p: seq<nat>)
    requires RanksFall(g, rank) && Leads(g, f, skip, p)
    ensures |p| <= rank(f)
    decreases |p|
  {
    var d :| LeadsTo(g, f, skip, p, d);
    var e :| AsksFor(g(f), p[0], e) && if |p| == 1 then e == d else LeadsTo(g, e, {}, p[1..], d);
    if |p| > 1 { AcyclicIsShallow(g, rank, e, {}, p[1..]); }
  }

  /** The path leads from f to d, and the cycle from d to d. */
  ghost predicate RunsInto(g: Graph, f: Func, skip: set<string>, p: seq<nat>, cycle: seq<nat>, d: Func) {
    LeadsTo(g, f, skip, p, d) && LeadsTo(g, d, {}, cycle, d)
  }

  /** Going round a cycle n more times. */
  ghost function Round(p: seq<nat>, cycle: seq<nat>, n: nat): seq<nat>
    decreases n
  {
    if n == 0 then p else Round(p + cycle, cycle, n - 1)
  }

  lemma {:induction false} PathsJoin(g: Graph, f: Func, skip: set<string>, p: seq<nat>, q: seq<nat>)
    requires IsPath(g, f, skip, p) && IsPath(g, End(g, f, skip, p), {}, q)
    ensures IsPath(g, f, skip, p + q) && End(g, f, skip, p + q) == End(g, End(g, f, skip, p), {}, q)
    decreases |p|
  {
    assert (p + q)[1..] == p[1..] + q;
    if |p| > 1 {
      PathsJoin(g, Needed(g, f, skip, p[0]).value, {}, p[1..], q);
    } else {
      assert p[1..] + q == q;
    }
  }

  /** A function that leads into a cycle is never resolved, however deep the stack, unless something else is raised. */
  lemma CycleIsTooDeep(g: Graph, f: Func, provided: Arguments, env: Env, calls: seq<Func>, depth: nat,
                       p: seq<nat>, cycle: seq<nat>, d: Func)
    requires WellNamed(g) && RunsInto(g, f, provided.Keys, p, cycle, d)
    ensures var r := Resolve(g, f, provided, env, calls, depth).0; !r.Resolved? && (NeverRaises(env) ==> r.TooDeep?)
  {
    LeadsToIff(g, f, provided.Keys, p, d);
    LeadsToIff(g, d, {}, cycle, d);
    RoundIsPath(g, f, provided.Keys, p, cycle, depth);
    PathIff(g, f, provided.Keys, Round(p, cycle, depth));
    DepthIsPathLength(g, f, provided, env, calls, depth);
  }

  lemma {:induction false} RoundIsPath(g: Graph, f: Func, skip: set<string>, p: seq<nat>, cycle: seq<nat>, n: nat)
    requires IsPath(g, f, skip, p)
    requires var d := End(g, f, skip, p); IsPath(g, d, {}, cycle) && End(g, d, {}, cycle) == d
    ensures IsPath(g, f, skip, Round(p, cycle, n)) && |Round(p, cycle, n)| > n
    decreases n
  {
    if n > 0 {
      PathsJoin(g, f, skip, p, cycle);
      RoundIsPath(g, f, skip, p + cycle, cycle, n - 1);
      RoundLength(p + cycle, cycle, n - 1);
    }
  }

  lemma {:induction false} RoundLength(p: seq<nat>, cycle: seq<nat>, n: nat)
    requires cycle != []
    ensures |Round(p, cycle, n)| >= |p| + n
    decreases n
  {
    if n > 0 { RoundLength(p + cycle, cycle, n - 1); }
  }

  // ---- finite graphs -------------------------------------------------------------------------------

  lemma {:induction false} PrefixIsPath(g: Graph, f: Func, skip: set<string>, p: seq<nat>, i: nat)
    requires IsPath(g, f, skip, p) && 1 <= i <= |p|
    ensures IsPath(g, f, skip, p[..i])
    decreases |p|
  {
    if i > 1 {
      assert p[..i][1..] == p[1..][..i - 1];
      PrefixIsPath(g, Needed(g, f, skip, p[0]).value, {}, p[1..], i - 1);
    }
  }

  /** What is left of a path leads from the end of its first part to its end. */
  lemma {:induction false} SuffixIsPath(g: Graph, f: Func, skip: set<string>, p: seq<nat>, i: nat)
    requires IsPath(g, f, skip, p) && 1 <= i < |p| && IsPath(g, f, skip, p[..i])
    ensures var d := End(g, f, skip, p[..i]); IsPath(g, d, {}, p[i..]) && End(g, d, {}, p[i..]) == End(g, f, skip, p)
    decreases |p|
  {
    if i > 1 {
      var d := Needed(g, f, skip, p[0]).value;
      assert p[..i][1..] == p[1..][..i - 1] && p[1..][i - 1..] == p[i..];
      SuffixIsPath(g, d, {}, p[1..], i - 1);
    }
  }

  /** The function leads into a cycle. */
  ghost predicate Cyclic(g: Graph, f: Func, skip: set<string>) {
    exists p, cycle, d :: RunsInto(g, f, skip, p, cycle, d)
  }

  /** The functions below n depend only on one another. */
  ghost predicate Within(g: Graph, n: nat) {
    forall f: nat, i: nat, d: nat :: f < n && AsksFor(g(f), i, d) ==> d < n
  }

  lemma {:induction false} EndWithin(g: Graph, n: nat, f: Func, skip: set<string>, p: seq<nat>)
    requires Within(g, n) && f < n && IsPath(g, f, skip, p)
    ensures End(g, f, skip, p) < n
    decreases |p|
  {
    var d := Needed(g, f, skip, p[0]).value;
    NeededIff(g, f, skip, p[0], d);
    if |p| > 1 { EndWithin(g, n, d, {}, p[1..]); }
  }

  /** A path that meets the same dependency twice runs into a cycle. */
  lemma TwiceIsCycle(g: Graph, f: Func, skip: set<string>, p: seq<nat>, i: nat, j: nat)
    requires IsPath(g, f, skip, p) && 1 <= i < j <= |p|
    requires IsPath(g, f, skip, p[..i]) && IsPath(g, f, skip, p[..j])
    requires End(g, f, skip, p[..i]) == End(g, f, skip, p[..j])
    ensures Cyclic(g, f, skip)
  {
    assert p[..j][..i] == p[..i];
    SuffixIsPath(g, f, skip, p[..j], i);
    var d := End(g, f, skip, p[..i]);
    LeadsToIff(g, f, skip, p[..i], d);
    LeadsToIff(g, d, {}, p[..j][i..], d);
    assert RunsInto(g, f, skip, p[..i], p[..j][i..], d);
  }

  lemma AcyclicIsShort(g: Graph, n: nat, f: Func, skip: set<string>, p: seq<nat>)
    requires Within(g, n) && f < n && !Cyclic(g, f, skip) && IsPath(g, f, skip, p)
    ensures |p| <= n
  {
    forall i | 1 <= i <= |p| ensures IsPath(g, f, skip, p[..i]) { PrefixIsPath(g, f, skip, p, i); }
    var nodes := Nodes(g, f, skip, p);
    forall i | 0 <= i < |nodes| ensures nodes[i] < n { EndWithin(g, n, f, skip, p[..i + 1]); }
    forall a, b | 0 <= a < b < |nodes| ensures nodes[a] != nodes[b] {
      if nodes[a] == nodes[b] { TwiceIsCycle(g, f, skip, p, a + 1, b + 1); }
    }
    PigeonHole(nodes, n);
  }

  /** The dependencies that the path passes through. */
  ghost function Nodes(g: Graph, f: Func, skip: set<string>, p: seq<nat>): (nodes: seq<nat>)
    requires forall i :: 1 <= i <= |p| ==> IsPath(g, f, skip, p[..i])
    ensures |nodes| == |p| && forall i :: 0 <= i < |p| ==> nodes[i] == End(g, f, skip, p[..i + 1])
  {
    seq(|p|, (i: nat) requires i < |p| && IsPath(g, f, skip, p[..i + 1]) => End(g, f, skip, p[..i + 1]))
  }

  /**
   Among n functions, and with dependencies that never raise, a stack that has room for n nested
   resolutions suffices exactly if the function leads into no cycle; otherwise none suffices.
   */
  lemma ResolvesIffAcyclic(g: Graph, n: nat, f: Func, provided: Arguments, env: Env, calls: seq<Func>, depth: nat)
    requires WellNamed(g) && NeverRaises(env) && Within(g, n) && f < n && depth >= n
    ensures Resolve(g, f, provided, env, calls, depth).0.Resolved? <==> !Cyclic(g, f, provided.Keys)
  {
    if Cyclic(g, f, provided.Keys) {
      var p, cycle, d :| RunsInto(g, f, provided.Keys, p, cycle, d);
      CycleIsTooDeep(g, f, provided, env, calls, depth, p, cycle, d);
    } else {
      forall p | Leads(g, f, provided.Keys, p) ensures |p| <= depth {
        PathIff(g, f, provided.Keys, p);
        AcyclicIsShort(g, n, f, provided.Keys, p);
      }
      ResolvesIffShallow(g, f, provided, env, calls, depth);
    }
  }
}
