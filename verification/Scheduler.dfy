/** Run lists: the depth-first search of sim.c that puts every variable after its dependencies. */
module Scheduler {
  import opened Wrappers

  /** The variables of a module by position: their `direct_deps`, and which of them go on `stocks`. */
  datatype Graph = Graph(deps: seq<seq<nat>>, stored: set<nat>) {
    ghost predicate Valid() {
      forall v :: 0 <= v < |deps| ==> Below(deps[v], |deps|)
    }
  }

  ghost predicate Distinct(xs: seq<nat>) {
    forall i, j :: 0 <= i < j < |xs| ==> xs[i] != xs[j]
  }

  /** Every element is the position of a variable. */
  ghost predicate Below(xs: seq<nat>, n: nat) {
    forall k :: 0 <= k < |xs| ==> xs[k] < n
  }

  /** Each variable depends on the one that follows it. */
  ghost predicate IsChain(g: Graph, p: seq<nat>) {
    Below(p, |g.deps|) &&
    forall k :: 0 <= k < |p| - 1 ==> p[k + 1] in g.deps[p[k]]
  }

  /** Some variable depends, through one or more others, on itself. */
  ghost predicate HasCycle(g: Graph) {
    exists p :: |p| > 1 && IsChain(g, p) && p[0] == p[|p| - 1]
  }

  /** No variable of the list depends on itself or on a later one. */
  ghost predicate Ordered(g: Graph, xs: seq<nat>) {
    Below(xs, |g.deps|) &&
    forall j, k :: 0 <= j <= k < |xs| ==> xs[k] !in g.deps[xs[j]]
  }

  /** Each variable of the list is new and comes after every one of its dependencies. */
  ghost predicate Closed(g: Graph, xs: seq<nat>) {
    xs == [] ||
    var v, front := xs[|xs| - 1], xs[..|xs| - 1];
    v < |g.deps| && v !in front && (forall d :: d in g.deps[v] ==> d in front) && Closed(g, front)
  }

  /** The same, read by position. */
  lemma {:induction false} ClosedByPosition(g: Graph, xs: seq<nat>)
    requires Closed(g, xs)
    ensures Below(xs, |g.deps|) && Distinct(xs)
    ensures forall j, d :: 0 <= j < |xs| && d in g.deps[xs[j]] ==> d in xs[..j]
  {
    if xs != [] {
      var front := xs[..|xs| - 1];
      ClosedByPosition(g, front);
      assert forall j :: 0 <= j < |front| ==> xs[j] == front[j] && xs[..j] == front[..j];
    }
  }

  /** The members of a list that go on the run list of `calc` (`stored` false) or of `calc_stocks`. */
  function Part(g: Graph, xs: seq<nat>, stored: bool): seq<nat>
  {
    if xs == [] then []
    else
      var v := xs[|xs| - 1];
      Part(g, xs[..|xs| - 1], stored) + if (v in g.stored) == stored then [v] else []
  }

  lemma {:induction false} PartMembers(g: Graph, xs: seq<nat>, stored: bool)
    ensures forall v :: v in Part(g, xs, stored) <==> v in xs && (v in g.stored) == stored
  {
    if xs != [] {
      PartMembers(g, xs[..|xs| - 1], stored);
      assert xs == xs[..|xs| - 1] + [xs[|xs| - 1]];
    }
  }

  /** What `module_sort_runlists` promises of the three lists. */
  ghost predicate Scheduled(g: Graph, initials: seq<nat>, flows: seq<nat>, stocks: seq<nat>) {
    && Closed(g, initials)
    && (forall v :: 1 <= v < |g.deps| ==> v in initials)
    && flows == Part(g, initials, false)
    && stocks == Part(g, initials, true)
  }

  /** The flags of the variables of a list. */
  function Flags(n: nat, xs: seq<nat>): seq<bool> {
    seq(n, v => v in xs)
  }

  /** What holds between calls: the lists hold the visited variables, each after its dependencies. */
  ghost predicate Listed(g: Graph, visited: seq<bool>, initials: seq<nat>, flows: seq<nat>, stocks: seq<nat>) {
    && visited == Flags(|g.deps|, initials)
    && Closed(g, initials)
    && flows == Part(g, initials, false)
    && stocks == Part(g, initials, true)
  }

  /** Each variable of the stack is new and a dependency of the one below it. */
  ghost predicate Visits(g: Graph, stack: seq<nat>) {
    stack == [] ||
    var v, front := stack[|stack| - 1], stack[..|stack| - 1];
    v < |g.deps| && v !in front && Visits(g, front) && (front != [] ==> v in g.deps[front[|front| - 1]])
  }

  /** The same, read by position. */
  lemma {:induction false} VisitsByPosition(g: Graph, stack: seq<nat>)
    requires Visits(g, stack)
    ensures Distinct(stack) && IsChain(g, stack)
  {
    if stack != [] {
      VisitsByPosition(g, stack[..|stack| - 1]);
    }
  }

  /** The variables being visited are a chain of distinct, unlisted variables. */
  ghost predicate Stacked(g: Graph, visiting: seq<bool>, initials: seq<nat>, stack: seq<nat>) {
    && visiting == Flags(|g.deps|, stack)
    && Visits(g, stack)
    && forall v :: v in stack ==> v !in initials
  }

  /** A variable whose dependencies are listed can be listed next. */
  lemma ListNext(g: Graph, visited: seq<bool>, initials: seq<nat>, flows: seq<nat>, stocks: seq<nat>, av: nat)
    requires Listed(g, visited, initials, flows, stocks)
    requires av < |g.deps| && av !in initials && forall d :: d in g.deps[av] ==> d in initials
    ensures av in g.stored ==> Listed(g, visited[av := true], initials + [av], flows, stocks + [av])
    ensures av !in g.stored ==> Listed(g, visited[av := true], initials + [av], flows + [av], stocks)
  {
    var next := initials + [av];
    assert next[..|initials|] == initials;
    assert visited[av := true] == Flags(|g.deps|, next);
  }

  /** Entering a dependency extends the chain, leaving it shortens it. */
  lemma StackNext(g: Graph, visiting: seq<bool>, initials: seq<nat>, stack: seq<nat>, av: nat)
    requires Stacked(g, visiting, initials, stack)
    requires av < |g.deps| && !visiting[av] && av !in initials
    requires stack != [] ==> av in g.deps[stack[|stack| - 1]]
    ensures Stacked(g, visiting[av := true], initials, stack + [av])
    ensures |stack| < |g.deps|
  {
    var deeper := stack + [av];
    assert deeper[..|stack|] == stack;
    assert forall v :: v in deeper <==> v in stack || v == av;
    VisitsByPosition(g, deeper);
    DistinctBound(deeper, |g.deps|);
  }

  lemma StackBack(g: Graph, visiting: seq<bool>, initials: seq<nat>, stack: seq<nat>, av: nat)
    requires Stacked(g, visiting, initials, stack + [av]) && av < |g.deps|
    ensures Stacked(g, visiting[av := false], initials + [av], stack)
  {
    var deeper := stack + [av];
    assert deeper[..|stack|] == stack;
    assert forall v :: v in deeper <==> v in stack || v == av;
  }

  /** A dependency on a variable being visited closes a cycle. */
  lemma ClosesCycle(g: Graph, stack: seq<nat>, av: nat)
    requires Visits(g, stack) && stack != [] && av in stack && av in g.deps[stack[|stack| - 1]]
    ensures HasCycle(g)
  {
    VisitsByPosition(g, stack);
    var k :| 0 <= k < |stack| && stack[k] == av;
    ChainGoesOn(g, stack[k..], av);
    var p := stack[k..] + [av];
    assert |p| > 1 && p[0] == p[|p| - 1];
  }

  lemma ChainGoesOn(g: Graph, p: seq<nat>, av: nat)
    requires IsChain(g, p) && p != [] && av < |g.deps| && av in g.deps[p[|p| - 1]]
    ensures IsChain(g, p + [av])
  {
    var q := p + [av];
    forall k | 0 <= k < |q| - 1
      ensures q[k + 1] in g.deps[q[k]]
    {
      if k < |p| - 1 {
        assert p[k + 1] in g.deps[p[k]];
      }
    }
  }

  /** Distinct numbers below a bound are no more than the bound. */
  lemma {:induction false} DistinctBound(xs: seq<nat>, n: nat)
    requires Distinct(xs) && Below(xs, n)
    ensures |xs| <= n
    decreases n
  {
    if xs != [] {
      assert xs[0] < n;
      if n - 1 in xs {
        var k :| 0 <= k < |xs| && xs[k] == n - 1;
        DistinctBound(xs[..k] + xs[k + 1..], n - 1);
      } else {
        DistinctBound(xs, n - 1);
      }
    }
  }

  /** In a closed list a chain that starts in it runs towards the front, so it never returns. */
  lemma {:induction false} ChainDescends(g: Graph, xs: seq<nat>, p: seq<nat>, k: nat, n: nat)
    requires Closed(g, xs) && IsChain(g, p) && |p| > 0 && n < |p| && k < |xs| && xs[k] == p[0]
    ensures exists j :: 0 <= j <= k && xs[j] == p[n] && (n > 0 ==> j < k)
    decreases n
  {
    if n > 0 {
      assert p[1] in g.deps[p[0]];
      ClosedByPosition(g, xs);
      assert p[1] in xs[..k];
      var j :| 0 <= j < k && xs[j] == p[1];
      ChainDescends(g, xs, p[1..], j, n - 1);
    }
  }

  /** A distinct list that holds every dependency of its members before them leaves no room for a cycle. */
  lemma ClosedIsAcyclic(g: Graph, xs: seq<nat>)
    requires Closed(g, xs)
    requires forall v :: 0 <= v < |g.deps| && v !in xs ==> g.deps[v] == []
    ensures !HasCycle(g)
  {
    forall p | |p| > 1 && IsChain(g, p) && p[0] == p[|p| - 1]
      ensures false
    {
      ClosedByPosition(g, xs);
      assert p[1] in g.deps[p[0]];
      var k :| 0 <= k < |xs| && xs[k] == p[0];
      ChainDescends(g, xs, p, k, |p| - 1);
    }
  }

  /** The part of sim.c's root module that the sort writes; variables are their positions in `avars`. */
  class Module {
    const g: Graph
    var visited: seq<bool>
    var visiting: seq<bool>
    var initials: seq<nat>
    var flows: seq<nat>
    var stocks: seq<nat>

    ghost predicate Valid()
      reads this
    {
      Listed(g, visited, initials, flows, stocks)
    }

    ghost predicate OnStack(stack: seq<nat>)
      reads this
    {
      Stacked(g, visiting, initials, stack)
    }

    constructor (g: Graph)
      requires g.Valid()
      ensures this.g == g && initials == flows == stocks == []
      ensures Valid() && OnStack([])
    {
      this.g := g;
      visited := seq(|g.deps|, _ => false);
      visiting := seq(|g.deps|, _ => false);
      initials, flows, stocks := [], [], [];
    }

    /** `module_add_to_runlists`. */
    method AddToRunlists(av: nat, ghost stack: seq<nat>) returns (ok: bool)
      requires g.Valid() && Valid() && OnStack(stack)
      requires av < |g.deps| && (stack != [] ==> av in g.deps[stack[|stack| - 1]])
      modifies this
      ensures ok ==> Valid() && OnStack(stack) && av in initials && old(initials) <= initials
      ensures !ok ==> HasCycle(g)
      decreases |g.deps| - |stack|
    {
      if visited[av] {
        return true;
      }
      if visiting[av] {
        ClosesCycle(g, stack, av);
        return false;
      }
      StackNext(g, visiting, initials, stack, av);
      visiting := visiting[av := true];
      ghost var deeper := stack + [av];
      var deps := g.deps[av];
      var i := 0;
      while i < |deps|
        invariant 0 <= i <= |deps|
        invariant Valid() && OnStack(deeper)
        invariant old(initials) <= initials
        invariant forall k :: 0 <= k < i ==> deps[k] in initials
      {
        var dep := deps[i];
        if !visited[dep] {
          ok := AddToRunlists(dep, deeper);
          if !ok {
            return;
          }
        }
        i := i + 1;
      }
      Append(av, stack);
      return true;
    }

    /** The end of `module_add_to_runlists`: `av` is listed and no longer being visited. */
    method Append(av: nat, ghost stack: seq<nat>)
      requires Valid() && OnStack(stack + [av])
      requires av < |g.deps| && forall d :: d in g.deps[av] ==> d in initials
      modifies this
      ensures Valid() && OnStack(stack) && initials == old(initials) + [av]
    {
      ListNext(g, visited, initials, flows, stocks, av);
      StackBack(g, visiting, initials, stack, av);
      initials := initials + [av];
      if av in g.stored {
        stocks := stocks + [av];
      } else {
        flows := flows + [av];
      }
      visited, visiting := visited[av := true], visiting[av := false];
    }

    /** `module_sort_runlists` on the root module, whose first variable, time, is skipped. */
    method SortRunlists() returns (err: Option<Error>)
      requires g.Valid() && |g.deps| > 0 && g.deps[0] == [] && initials == flows == stocks == []
      modifies this
      ensures err == None || err == Some(Circular)
      ensures err == Some(Circular) <==> HasCycle(g)
      ensures err == None ==> Scheduled(g, initials, flows, stocks)
    {
      visited := seq(|g.deps|, _ => false);
      visiting := seq(|g.deps|, _ => false);
      var i := 1;
      while i < |g.deps|
        invariant 1 <= i <= |g.deps|
        invariant Valid() && OnStack([])
        invariant forall v :: 1 <= v < i ==> v in initials
      {
        if !visited[i] {
          ghost var before := initials;
          var ok := AddToRunlists(i, []);
          if !ok {
            return Some(Circular);
          }
          assert forall v :: v in before ==> v in initials;
        }
        i := i + 1;
      }
      ClosedIsAcyclic(g, initials);
      return None;
    }
  }

  /** Closed lists are ordered, and so is any part of them. */
  lemma ClosedIsOrdered(g: Graph, xs: seq<nat>)
    requires Closed(g, xs)
    ensures Distinct(xs) && Ordered(g, xs)
  {
    ClosedByPosition(g, xs);
    assert forall j, k :: 0 <= j <= k < |xs| ==> xs[k] !in xs[..j];
  }

  /** Taking one kind of variable out of a distinct, ordered list leaves a distinct, ordered list. */
  lemma {:induction false} PartIsOrdered(g: Graph, xs: seq<nat>, stored: bool)
    requires Distinct(xs) && Ordered(g, xs)
    ensures Distinct(Part(g, xs, stored)) && Ordered(g, Part(g, xs, stored))
  {
    if xs != [] {
      var front := xs[..|xs| - 1];
      PartIsOrdered(g, front, stored);
      PartMembers(g, front, stored);
      var part := Part(g, front, stored);
      forall j | 0 <= j < |part|
        ensures xs[|xs| - 1] !in g.deps[part[j]] && part[j] != xs[|xs| - 1]
      {
        assert part[j] in front;
        var i :| 0 <= i < |front| && front[i] == part[j];
        assert xs[i] == front[i];
      }
    }
  }

  /** The two run lists split the third: each variable is on exactly one of them, once. */
  lemma RunListsSplit(g: Graph, initials: seq<nat>, flows: seq<nat>, stocks: seq<nat>)
    requires Scheduled(g, initials, flows, stocks)
    ensures Distinct(flows) && Distinct(stocks) && Ordered(g, flows)
    ensures multiset(flows) + multiset(stocks) == multiset(initials)
  {
    ClosedIsOrdered(g, initials);
    PartIsOrdered(g, initials, false);
    PartIsOrdered(g, initials, true);
    PartsAddUp(g, initials);
  }

  lemma {:induction false} PartsAddUp(g: Graph, xs: seq<nat>)
    ensures multiset(Part(g, xs, false)) + multiset(Part(g, xs, true)) == multiset(xs)
  {
    if xs != [] {
      var front, v := xs[..|xs| - 1], xs[|xs| - 1];
      PartsAddUp(g, front);
      assert multiset(xs) == multiset(front) + multiset{v} by {
        assert xs == front + [v];
      }
      assert multiset(Part(g, xs, v in g.stored)) == multiset(Part(g, front, v in g.stored)) + multiset{v};
    }
  }
}
