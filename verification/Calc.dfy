/** One evaluation pass: `calc` and `calc_stocks` of sim.c on a row, and why one pass is enough. */
module Calc {
  import opened Equation
  import opened Model
  import S = Scheduler
  import T = Table

  /** The dependency graph that the scheduler sorts. */
  function GraphOf(m: Model): (g: S.Graph)
    ensures g.Valid() && |g.deps| == |m.vars|
  {
    S.Graph(
      seq(|m.vars|, i requires 0 <= i < |m.vars| => m.DirectDeps(i)),
      set i | 0 <= i < |m.vars| && m.IsStored(i))
  }

  /** The value `calc` stores for a variable. */
  function Settled(m: Model, dt: real, i: nat, row: seq<real>): seq<real>
    requires m.Runnable() && dt > 0.0 && |row| == |m.vars| && i < |m.vars|
  {
    if m.vars[i].node.Null? then row else row[i := m.Equation(i, row, dt)]
  }

  /** `calc` over a run list: each equation is evaluated on the row as the earlier ones left it. */
  function Pass(m: Model, dt: real, xs: seq<nat>, row: seq<real>): (out: seq<real>)
    requires m.Runnable() && dt > 0.0 && |row| == |m.vars| && S.Below(xs, |m.vars|)
    ensures |out| == |row|
  {
    if xs == [] then row else Settled(m, dt, xs[|xs| - 1], Pass(m, dt, xs[..|xs| - 1], row))
  }

  lemma PassNext(m: Model, dt: real, xs: seq<nat>, row: seq<real>, i: nat)
    requires m.Runnable() && dt > 0.0 && |row| == |m.vars| && S.Below(xs, |m.vars|) && i < |xs|
    ensures Pass(m, dt, xs[..i + 1], row) == Settled(m, dt, xs[i], Pass(m, dt, xs[..i], row))
  {
    assert xs[..i + 1][..i] == xs[..i];
  }

  /** The row solves the equations of the list, and is otherwise the given row. */
  ghost predicate Solves(m: Model, dt: real, xs: seq<nat>, row: seq<real>, out: seq<real>)
    requires m.Runnable() && dt > 0.0 && |row| == |m.vars| && S.Below(xs, |m.vars|)
  {
    && |out| == |row|
    && out[TIME] == row[TIME]
    && (forall i :: 0 <= i < |row| && i !in xs ==> out[i] == row[i])
    && forall i :: 1 <= i < |row| && i in xs ==> out[i] == m.Equation(i, out, dt)
  }

  /** Only time has no equation. */
  lemma OnlyTimeIsNull(m: Model, i: nat)
    requires m.Runnable() && i < |m.vars|
    ensures m.vars[i].node.Null? <==> i == TIME
  {
    assert i != TIME ==> m.RunnableVar(m.vars[i]);
  }

  /** An equation is a function of the time and the variable's direct dependencies. */
  lemma EquationReadsDeps(m: Model, dt: real, i: nat, row: seq<real>, row': seq<real>)
    requires m.Runnable() && dt > 0.0 && 1 <= i < |m.vars| && |row| == |m.vars|
    requires Agree(m.DirectDeps(i), row, row') && row[TIME] == row'[TIME]
    ensures m.Equation(i, row, dt) == m.Equation(i, row', dt)
  {
    assert m.RunnableVar(m.vars[i]);
    EvalReadsDeps(m.rt, m.Names(), m.vars[i].node, row, row', dt, row[TIME]);
  }

  /**
   * On a solved row a variable with a table has a height of it: the one of a knot that its equation meets, and never
   * one beyond the bounds of all of them. A variable without a table has the value of its equation.
   */
  lemma TablesApply(m: Model, dt: real, xs: seq<nat>, row: seq<real>, out: seq<real>, i: nat, k: nat, lo: real, hi: real)
    requires m.Runnable() && dt > 0.0 && |row| == |m.vars| && S.Below(xs, |m.vars|) && Solves(m, dt, xs, row, out)
    requires 1 <= i < |m.vars| && i in xs && Linked(m.rt, m.Names(), m.vars[i].node)
    ensures var v := Eval(m.rt, m.Names(), m.vars[i].node, out, dt, out[TIME]);
      match m.vars[i].gf
      case None => out[i] == v
      case Some(t) => T.Valid(t) && (T.Increasing(t.x) && k < |t.x| ==>
        (v == t.x[k] ==> out[i] == t.y[k]) && ((forall j :: 0 <= j < |t.y| ==> lo <= t.y[j] <= hi) ==> lo <= out[i] <= hi))
  {
    assert m.RunnableVar(m.vars[i]);
    if m.vars[i].gf.Some? {
      var t := m.vars[i].gf.value;
      if T.Increasing(t.x) && k < |t.x| {
        var v := Eval(m.rt, m.Names(), m.vars[i].node, out, dt, out[TIME]);
        T.HitsKnots(t, k);
        if forall j :: 0 <= j < |t.y| ==> lo <= t.y[j] <= hi {
          T.Bounded(t, v, lo, hi);
        }
      }
    }
  }

  /** A pass over an ordered run list solves it. */
  lemma {:induction false} PassSolves(m: Model, dt: real, xs: seq<nat>, row: seq<real>)
    requires m.Runnable() && dt > 0.0 && |row| == |m.vars| && S.Below(xs, |m.vars|)
    requires S.Distinct(xs) && S.Ordered(GraphOf(m), xs)
    ensures Solves(m, dt, xs, row, Pass(m, dt, xs, row))
  {
    if xs != [] {
      var x, front := xs[|xs| - 1], xs[..|xs| - 1];
      PassSolves(m, dt, front, row);
      OnlyTimeIsNull(m, x);
      var before, after := Pass(m, dt, front, row), Pass(m, dt, xs, row);
      assert forall i :: i in xs <==> i in front || i == x;
      forall i | 1 <= i < |row| && i in xs
        ensures after[i] == m.Equation(i, after, dt)
      {
        var j :| 0 <= j < |xs| && xs[j] == i;
        assert x !in GraphOf(m).deps[xs[j]];
        EquationReadsDeps(m, dt, i, before, after);
        assert i != x ==> i in front;
      }
    }
  }

  /** A dependency that is in an ordered list is before the variable that has it. */
  lemma DepIsBefore(m: Model, xs: seq<nat>, k: nat, d: nat)
    requires S.Ordered(GraphOf(m), xs) && k < |xs| && d in m.DirectDeps(xs[k])
    ensures d in xs ==> d in xs[..k]
  {
    assert forall i :: k <= i < |xs| ==> xs[i] !in GraphOf(m).deps[xs[k]];
    if d in xs {
      var j :| 0 <= j < |xs| && xs[j] == d;
      assert j < k;
    }
  }

  /** Whatever solves an ordered run list is what the pass computes. */
  lemma {:induction false} SolutionAgreesWithPass(m: Model, dt: real, xs: seq<nat>, row: seq<real>, out: seq<real>, k: nat)
    requires m.Runnable() && dt > 0.0 && |row| == |m.vars| && S.Below(xs, |m.vars|)
    requires S.Ordered(GraphOf(m), xs) && Solves(m, dt, xs, row, out) && k <= |xs|
    ensures forall i :: 0 <= i < |row| && (i in xs[..k] || i !in xs) ==> Pass(m, dt, xs[..k], row)[i] == out[i]
    ensures Pass(m, dt, xs[..k], row)[TIME] == out[TIME]
  {
    if k > 0 {
      SolutionAgreesWithPass(m, dt, xs, row, out, k - 1);
      var x, front := xs[k - 1], xs[..k - 1];
      var before := Pass(m, dt, front, row);
      assert xs[..k][..k - 1] == front;
      assert forall i :: i in xs[..k] <==> i in front || i == x;
      OnlyTimeIsNull(m, x);
      if x != TIME {
        forall d | d in m.DirectDeps(x)
          ensures before[d] == out[d]
        {
          DepIsBefore(m, xs, k - 1, d);
        }
        EquationReadsDeps(m, dt, x, before, out);
      }
    }
  }

  /** The pass is the one and only solution: a single pass is the fixpoint. */
  lemma PassIsTheSolution(m: Model, dt: real, xs: seq<nat>, row: seq<real>, out: seq<real>)
    requires m.Runnable() && dt > 0.0 && |row| == |m.vars| && S.Below(xs, |m.vars|)
    requires S.Distinct(xs) && S.Ordered(GraphOf(m), xs)
    ensures Solves(m, dt, xs, row, out) <==> out == Pass(m, dt, xs, row)
  {
    PassSolves(m, dt, xs, row);
    if Solves(m, dt, xs, row, out) {
      SolutionAgreesWithPass(m, dt, xs, row, out, |xs|);
      assert xs[..|xs|] == xs;
    }
  }

  /** Running `calc` again changes nothing. */
  lemma PassIsIdempotent(m: Model, dt: real, xs: seq<nat>, row: seq<real>)
    requires m.Runnable() && dt > 0.0 && |row| == |m.vars| && S.Below(xs, |m.vars|)
    requires S.Distinct(xs) && S.Ordered(GraphOf(m), xs)
    ensures Pass(m, dt, xs, Pass(m, dt, xs, row)) == Pass(m, dt, xs, row)
  {
    var out := Pass(m, dt, xs, row);
    PassSolves(m, dt, xs, row);
    PassIsTheSolution(m, dt, xs, out, out);
  }

  /** What `calc_stocks` stores: a stock one step on, or the bare value of a constant. */
  function StoredValue(m: Model, dt: real, i: nat, curr: seq<real>): real
    requires m.Runnable() && dt > 0.0 && |curr| == |m.vars| && i < |m.vars| && m.IsStored(i)
  {
    assert i != TIME && m.RunnableVar(m.vars[i]);
    if m.vars[i].kind.Stock? then curr[i] + OverStep(m.NetFlow(i, curr), dt)
    else Eval(m.rt, m.Names(), m.vars[i].node, curr, dt, curr[TIME])
  }

  ghost predicate AllStored(m: Model, xs: seq<nat>) {
    forall k :: 0 <= k < |xs| ==> xs[k] < |m.vars| && m.IsStored(xs[k])
  }

  /** `calc_stocks` over a run list: it reads one row and writes another. */
  function StockPass(m: Model, dt: real, xs: seq<nat>, curr: seq<real>, next: seq<real>): (out: seq<real>)
    requires m.Runnable() && dt > 0.0 && |curr| == |next| == |m.vars| && AllStored(m, xs)
    ensures |out| == |next|
  {
    if xs == [] then next
    else
      var i := xs[|xs| - 1];
      StockPass(m, dt, xs[..|xs| - 1], curr, next)[i := StoredValue(m, dt, i, curr)]
  }

  lemma StockPassNext(m: Model, dt: real, xs: seq<nat>, curr: seq<real>, next: seq<real>, i: nat)
    requires m.Runnable() && dt > 0.0 && |curr| == |next| == |m.vars| && AllStored(m, xs) && i < |xs|
    ensures StockPass(m, dt, xs[..i + 1], curr, next) == StockPass(m, dt, xs[..i], curr, next)[xs[i] := StoredValue(m, dt, xs[i], curr)]
  {
    assert xs[..i + 1][..i] == xs[..i];
  }

  /** Every stored variable gets its value from the current row; nothing else is written. */
  lemma {:induction false} StockPassValues(m: Model, dt: real, xs: seq<nat>, curr: seq<real>, next: seq<real>)
    requires m.Runnable() && dt > 0.0 && |curr| == |next| == |m.vars| && AllStored(m, xs)
    ensures forall i :: 0 <= i < |next| && i !in xs ==> StockPass(m, dt, xs, curr, next)[i] == next[i]
    ensures forall i :: 0 <= i < |next| && i in xs ==>
              m.IsStored(i) && StockPass(m, dt, xs, curr, next)[i] == StoredValue(m, dt, i, curr)
  {
    if xs != [] {
      StockPassValues(m, dt, xs[..|xs| - 1], curr, next);
      assert xs == xs[..|xs| - 1] + [xs[|xs| - 1]];
    }
  }

  /** A second `calc_stocks` from the same row writes the same values. */
  lemma StockPassIsIdempotent(m: Model, dt: real, xs: seq<nat>, curr: seq<real>, next: seq<real>)
    requires m.Runnable() && dt > 0.0 && |curr| == |next| == |m.vars| && AllStored(m, xs)
    ensures StockPass(m, dt, xs, curr, StockPass(m, dt, xs, curr, next)) == StockPass(m, dt, xs, curr, next)
  {
    StockPassValues(m, dt, xs, curr, next);
    StockPassValues(m, dt, xs, curr, StockPass(m, dt, xs, curr, next));
  }
}
