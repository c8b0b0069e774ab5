/** Conservation laws of whole runs: closed systems and stocks fed by pulses. */
module Conservation {
  import opened Wrappers
  import opened Equation
  import opened Model
  import opened Calc
  import opened Euler
  import opened Run
  import P = Pulse
  import T = Table

  /** The slots that a list of flow names stands for. */
  function Slots(m: Model, flows: seq<string>): (slots: seq<nat>)
    requires m.FlowsResolve(flows)
    ensures forall k :: 0 <= k < |slots| ==> slots[k] < |m.vars|
  {
    if flows == [] then []
    else
      assert m.FlowsResolve(flows[..|flows| - 1]);
      Slots(m, flows[..|flows| - 1]) + [Resolve(m.Names(), flows[|flows| - 1]).value]
  }

  function SumAt(slots: seq<nat>, row: seq<real>): real
    requires forall k :: 0 <= k < |slots| ==> slots[k] < |row|
  {
    if slots == [] then 0.0 else SumAt(slots[..|slots| - 1], row) + row[slots[|slots| - 1]]
  }

  /** The slots of all inflows, or of all outflows, of the stocks among the first `n` variables. */
  function Feeds(m: Model, n: nat, inward: bool): (slots: seq<nat>)
    requires m.Runnable() && n <= |m.vars|
    ensures forall k :: 0 <= k < |slots| ==> slots[k] < |m.vars|
  {
    if n <= 1 then []
    else
      assert m.RunnableVar(m.vars[n - 1]);
      Feeds(m, n - 1, inward) +
      if !m.vars[n - 1].kind.Stock? then []
      else Slots(m, if inward then m.vars[n - 1].inflows else m.vars[n - 1].outflows)
  }

  /** Every flow leaves some stock as often as it enters one. */
  ghost predicate ClosedSystem(m: Model)
    requires m.Runnable()
  {
    multiset(Feeds(m, |m.vars|, true)) == multiset(Feeds(m, |m.vars|, false))
  }

  /** The sum of the stocks among the first `n` variables. */
  function StockTotal(m: Model, n: nat, row: seq<real>): real
    requires n <= |m.vars| == |row|
  {
    if n <= 1 then 0.0
    else StockTotal(m, n - 1, row) + if m.vars[n - 1].kind.Stock? then row[n - 1] else 0.0
  }

  lemma {:induction false} FlowSumIsSumAt(m: Model, flows: seq<string>, row: seq<real>)
    requires m.FlowsResolve(flows) && |row| == |m.vars|
    ensures m.FlowSum(flows, row) == SumAt(Slots(m, flows), row)
  {
    if flows != [] {
      FlowSumIsSumAt(m, flows[..|flows| - 1], row);
      var front := Slots(m, flows[..|flows| - 1]);
      assert Slots(m, flows)[..|front|] == front;
    }
  }

  lemma {:induction false} SumAtAppends(a: seq<nat>, b: seq<nat>, row: seq<real>)
    requires forall k :: 0 <= k < |a| ==> a[k] < |row|
    requires forall k :: 0 <= k < |b| ==> b[k] < |row|
    ensures SumAt(a + b, row) == SumAt(a, row) + SumAt(b, row)
  {
    if b == [] {
      assert a + b == a;
    } else {
      SumAtAppends(a, b[..|b| - 1], row);
      assert (a + b)[..|a + b| - 1] == a + b[..|b| - 1];
    }
  }

  lemma SumAtRemoves(b: seq<nat>, k: nat, row: seq<real>)
    requires forall j :: 0 <= j < |b| ==> b[j] < |row|
    requires k < |b|
    ensures SumAt(b, row) == SumAt(b[..k] + b[k + 1..], row) + row[b[k]]
  {
    assert b == b[..k + 1] + b[k + 1..];
    assert b[..k + 1][..k] == b[..k];
    SumAtAppends(b[..k], b[k + 1..], row);
    SumAtAppends(b[..k + 1], b[k + 1..], row);
  }

  lemma MultisetRemoves(b: seq<nat>, k: nat)
    requires k < |b|
    ensures multiset(b) == multiset(b[..k] + b[k + 1..]) + multiset{b[k]}
  {
    assert b == b[..k] + [b[k]] + b[k + 1..];
  }

  lemma BothRemove(a: seq<nat>, b: seq<nat>, k: nat)
    requires multiset(a) == multiset(b) && a != [] && k < |b| && b[k] == a[|a| - 1]
    ensures multiset(a[..|a| - 1]) == multiset(b[..k] + b[k + 1..])
  {
    MultisetRemoves(b, k);
    assert a == a[..|a| - 1] + [a[|a| - 1]];
    assert multiset(b[..k] + b[k + 1..]) == multiset(b) - multiset{b[k]};
  }

  /** A sum over slots does not depend on their order. */
  lemma {:induction false} SumAtIgnoresOrder(a: seq<nat>, b: seq<nat>, row: seq<real>)
    requires forall k :: 0 <= k < |a| ==> a[k] < |row|
    requires forall k :: 0 <= k < |b| ==> b[k] < |row|
    requires multiset(a) == multiset(b)
    ensures SumAt(a, row) == SumAt(b, row)
  {
    if a == [] {
      assert |multiset(b)| == 0;
    } else {
      assert a[|a| - 1] in multiset(b);
      var k :| 0 <= k < |b| && b[k] == a[|a| - 1];
      BothRemove(a, b, k);
      SumAtIgnoresOrder(a[..|a| - 1], b[..k] + b[k + 1..], row);
      SumAtRemoves(b, k, row);
    }
  }

  /** What the variable `n - 1` adds to the sum over all inflows or outflows. */
  lemma FeedsAdd(m: Model, n: nat, inward: bool, row: seq<real>)
    requires m.Runnable() && 1 < n <= |m.vars| == |row| && m.RunnableVar(m.vars[n - 1])
    ensures m.vars[n - 1].kind.Stock? ==>
              SumAt(Feeds(m, n, inward), row) == SumAt(Feeds(m, n - 1, inward), row)
                + m.FlowSum(if inward then m.vars[n - 1].inflows else m.vars[n - 1].outflows, row)
    ensures !m.vars[n - 1].kind.Stock? ==> SumAt(Feeds(m, n, inward), row) == SumAt(Feeds(m, n - 1, inward), row)
  {
    var flows := if inward then m.vars[n - 1].inflows else m.vars[n - 1].outflows;
    if m.vars[n - 1].kind.Stock? {
      FlowSumIsSumAt(m, flows, row);
      SumAtAppends(Feeds(m, n - 1, inward), Slots(m, flows), row);
    } else {
      assert Feeds(m, n, inward) == Feeds(m, n - 1, inward);
    }
  }

  /** The net flow of every variable. */
  function NetFlows(m: Model, row: seq<real>): (net: seq<real>)
    requires m.Runnable() && |m.vars| == |row|
    ensures |net| == |row|
  {
    seq(|row|, i requires 0 <= i < |row| => if i == TIME then 0.0 else m.NetFlow(i, row))
  }

  /** The stocks' net flows add up to the sum over all inflows less the sum over all outflows. */
  lemma {:induction false} NetTotalIsFeeds(m: Model, n: nat, row: seq<real>)
    requires m.Runnable() && n <= |m.vars| == |row|
    ensures StockTotal(m, n, NetFlows(m, row)) == SumAt(Feeds(m, n, true), row) - SumAt(Feeds(m, n, false), row)
  {
    if n > 1 {
      NetTotalIsFeeds(m, n - 1, row);
      assert m.RunnableVar(m.vars[n - 1]);
      FeedsAdd(m, n, true, row);
      FeedsAdd(m, n, false, row);
    }
  }

  /** The total moves as its parts do. */
  lemma {:induction false} TotalChanges(m: Model, dt: real, row: seq<real>, row': seq<real>, net: seq<real>, n: nat)
    requires n <= |m.vars| == |row| == |row'| == |net|
    requires forall i :: 1 <= i < n && m.vars[i].kind.Stock? ==> row'[i] == row[i] + OverStep(net[i], dt)
    ensures StockTotal(m, n, row') == StockTotal(m, n, row) + OverStep(StockTotal(m, n, net), dt)
  {
    if n > 1 {
      TotalChanges(m, dt, row, row', net, n - 1);
      Distribute(StockTotal(m, n - 1, net), net[n - 1], dt);
    }
  }

  lemma Distribute(a: real, b: real, c: real)
    ensures OverStep(a + b, c) == OverStep(a, c) + OverStep(b, c)
  {
  }

  lemma ClosedSystemNets(m: Model, row: seq<real>)
    requires m.Runnable() && |row| == |m.vars| && ClosedSystem(m)
    ensures StockTotal(m, |m.vars|, NetFlows(m, row)) == 0.0
  {
    NetTotalIsFeeds(m, |m.vars|, row);
    SumAtIgnoresOrder(Feeds(m, |m.vars|, true), Feeds(m, |m.vars|, false), row);
  }

  /** A closed system keeps the sum of its stocks in one step. */
  lemma ClosedSystemStep(m: Model, dt: real, row: seq<real>, row': seq<real>, net: seq<real>)
    requires m.Runnable() && |row| == |row'| == |m.vars| && ClosedSystem(m) && net == NetFlows(m, row)
    requires forall i :: 1 <= i < |m.vars| && m.vars[i].kind.Stock? ==> row'[i] == row[i] + OverStep(net[i], dt)
    ensures StockTotal(m, |m.vars|, row') == StockTotal(m, |m.vars|, row)
  {
    ClosedSystemNets(m, row);
    TotalChanges(m, dt, row, row', net, |m.vars|);
  }

  lemma NetsOfStep(m: Model, spec: SimSpec, k: nat, row: seq<real>, row': seq<real>)
    requires m.Runnable() && spec.dt > 0.0 && |row| == |m.vars| && EulerStep(m, spec, k, row, row')
    ensures forall i :: 1 <= i < |m.vars| && m.vars[i].kind.Stock? ==> row'[i] == row[i] + OverStep(NetFlows(m, row)[i], spec.dt)
  {
    var net := NetFlows(m, row);
    forall i | 1 <= i < |m.vars| && m.vars[i].kind.Stock?
      ensures row'[i] == row[i] + OverStep(net[i], spec.dt)
    {
      var flow := m.NetFlow(i, row);
      assert net[i] == flow;
    }
  }

  /** A closed system keeps the sum of its stocks at every step of every run. */
  lemma {:induction false} ClosedSystemConserves(m: Model, spec: SimSpec, solution: seq<seq<real>>, k: nat)
    requires m.Runnable() && spec.dt > 0.0 && EulerRun(m, spec, solution) && k < |solution|
    requires ClosedSystem(m)
    ensures StockTotal(m, |m.vars|, solution[k]) == StockTotal(m, |m.vars|, solution[0])
  {
    hide StockTotal;
    if k > 0 {
      ClosedSystemConserves(m, spec, solution, k - 1);
      assert EulerStep(m, spec, k - 1, solution[k - 1], solution[k - 1 + 1]);
      NetsOfStep(m, spec, k - 1, solution[k - 1], solution[k]);
      ClosedSystemStep(m, spec.dt, solution[k - 1], solution[k], NetFlows(m, solution[k - 1]));
    }
  }

  /** Rows with the same stocks have the same total. */
  lemma {:induction false} TotalReadsStocks(m: Model, n: nat, row: seq<real>, row': seq<real>)
    requires n <= |m.vars| == |row| == |row'|
    requires forall i :: 1 <= i < n && m.vars[i].kind.Stock? ==> row[i] == row'[i]
    ensures StockTotal(m, n, row) == StockTotal(m, n, row')
  {
    if n > 1 {
      TotalReadsStocks(m, n - 1, row, row');
    }
  }

  /** `calc` moves no stock. */
  lemma SettleKeepsTotal(p: Plan, s: State)
    requires p.Valid() && ValidState(p, s) && s.step < p.nsteps && p.TurnFits(s.step)
    ensures StockTotal(p.m, |p.m.vars|, CurrentRow(p, Settle(p, s))) == StockTotal(p.m, |p.m.vars|, CurrentRow(p, s))
  {
    KeepLists(p);
    SettledRow(p, s);
    var row, whole := CurrentRow(p, s), CurrentRow(p, Settle(p, s));
    PassSolves(p.m, p.spec.dt, p.flows, row);
    forall i | 1 <= i < |p.m.vars| && p.m.vars[i].kind.Stock?
      ensures whole[i] == row[i]
    {
      assert p.m.IsStored(i);
    }
    TotalReadsStocks(p.m, |p.m.vars|, whole, row);
  }

  /** A turn of the loop keeps the total of a closed system, whatever the flows and constants of the row are. */
  lemma TurnKeepsTotal(p: Plan, s: State)
    requires p.Valid() && ValidState(p, s) && s.step + 1 < p.nsteps && p.TurnFits(s.step) && ClosedSystem(p.m)
    ensures StockTotal(p.m, |p.m.vars|, CurrentRow(p, Advance(p, Settle(p, s)))) == StockTotal(p.m, |p.m.vars|, CurrentRow(p, s))
  {
    SettleKeepsTotal(p, s);
    AdvancedRow(p, s);
    var row, next := CurrentRow(p, Settle(p, s)), CurrentRow(p, Advance(p, Settle(p, s)));
    var net := NetFlows(p.m, row);
    forall i | 1 <= i < |p.m.vars| && p.m.vars[i].kind.Stock?
      ensures next[i] == row[i] + OverStep(net[i], p.spec.dt)
    {
      StocksAhead(p.m, p.spec, row, next, s.step, i);
      assert net[i] == p.m.NetFlow(i, row);
    }
    ClosedSystemStep(p.m, p.spec.dt, row, next, net);
  }

  /** The rows of a turn: nothing before the current row moves, and a row that is left for good has its total. */
  lemma TurnKeepsRows(p: Plan, s: State)
    requires p.Valid() && ValidState(p, s) && s.step + 1 < p.nsteps && p.TurnFits(s.step)
    ensures var s' := Advance(p, Settle(p, s));
      && s.saveStep <= s'.saveStep <= s.saveStep + 1
      && (forall r :: 0 <= r < s.saveStep ==> s'.rows[r] == s.rows[r])
      && (s'.saveStep > s.saveStep ==> s'.rows[s.saveStep] == CurrentRow(p, Settle(p, s)))
  {
    OnlyTwoRowsChange(p, s);
    AdvancedRows(p, Settle(p, s));
  }

  /**
   * Any stretch of any run of a closed system, from any slab: the rows saved before stay as they are, and every row
   * from the one where the run took up to the one where it stops has the total it took up with.
   */
  lemma {:induction false} RunConserves(p: Plan, s: State, end: real)
    requires p.Valid() && ValidState(p, s) && ClosedSystem(p.m) && RunTo(p, s, end).Some?
    ensures var s' := RunTo(p, s, end).value;
      && s.saveStep <= s'.saveStep
      && (forall r :: 0 <= r < s.saveStep ==> s'.rows[r] == s.rows[r])
      && forall r :: s.saveStep <= r <= s'.saveStep ==>
           StockTotal(p.m, |p.m.vars|, s'.rows[r]) == StockTotal(p.m, |p.m.vars|, CurrentRow(p, s))
    decreases p.nsteps - s.step
  {
    if s.step < p.nsteps && CurrentRow(p, s)[TIME] <= end {
      SettleKeepsTotal(p, s);
      if s.step + 1 < p.nsteps {
        TurnKeepsTotal(p, s);
        TurnKeepsRows(p, s);
        RunConserves(p, Advance(p, Settle(p, s)), end);
      } else {
        OnlyTwoRowsChange(p, s);
      }
    }
  }

  /** ... so every row that a run from a reset context has saved, and the current one, has the initial total. */
  lemma SavedRowsConserve(p: Plan, end: real, j: nat)
    requires p.Valid() && ClosedSystem(p.m) && RunTo(p, Reset(p), end).Some? && j <= RunTo(p, Reset(p), end).value.saveStep
    ensures StockTotal(p.m, |p.m.vars|, RunTo(p, Reset(p), end).value.rows[j]) == StockTotal(p.m, |p.m.vars|, Reset(p).rows[0])
  {
    RunConserves(p, Reset(p), end);
  }

  /** The value of a literal constant, through its graphical function. */
  function ConstOf(m: Model, i: nat): real
    requires m.Runnable() && 1 <= i < |m.vars| && m.IsConst(i)
  {
    assert m.RunnableVar(m.vars[i]);
    var c := m.rt.atof(m.vars[i].node.sval);
    if m.vars[i].gf.Some? then T.Lookup(m.vars[i].gf.value, c) else c
  }

  /** An expression over numbers and literal constants: it has the same value at every step. */
  predicate Steady(m: Model, n: Node) {
    match n
    case FloatLit(_) => true
    case Ident(sval) =>
      var slot := Resolve(m.Names(), m.rt.canon(sval));
      slot.Some? && slot.value != TIME && m.IsConst(slot.value) && !m.vars[slot.value].kind.Stock?
    case Paren(l) => Steady(m, l)
    case Unary(_, l) => Steady(m, l)
    case Binary(_, l, r) => Steady(m, l) && Steady(m, r)
    case _ => false
  }

  function SteadyValue(m: Model, n: Node): real
    requires m.Runnable() && Steady(m, n)
  {
    match n
    case FloatLit(sval) => m.rt.atof(sval)
    case Ident(sval) => ConstOf(m, Resolve(m.Names(), m.rt.canon(sval)).value)
    case Paren(l) => SteadyValue(m, l)
    case Unary(op, l) => UnaryValue(m.rt, op, SteadyValue(m, l))
    case Binary(op, l, r) => BinaryValue(m.rt, op, SteadyValue(m, l), SteadyValue(m, r))
  }

  function SteadyValues(m: Model, args: seq<Node>): (vs: seq<real>)
    requires m.Runnable() && forall k :: 0 <= k < |args| ==> Steady(m, args[k])
    ensures |vs| == |args|
  {
    seq(|args|, k requires 0 <= k < |args| => SteadyValue(m, args[k]))
  }

  lemma {:induction false} SteadyEvaluates(m: Model, n: Node, row: seq<real>, dt: real, time: real)
    requires m.Runnable() && dt > 0.0 && Balanced(m, dt, row) && Linked(m.rt, m.Names(), n) && Steady(m, n)
    ensures Eval(m.rt, m.Names(), n, row, dt, time) == SteadyValue(m, n)
  {
    match n
    case FloatLit(_) =>
    case Ident(sval) =>
      var i := Resolve(m.Names(), m.rt.canon(sval)).value;
      assert m.RunnableVar(m.vars[i]);
      assert row[i] == m.Equation(i, row, dt);
    case Paren(l) => SteadyEvaluates(m, l, row, dt, time);
    case Unary(_, l) => SteadyEvaluates(m, l, row, dt, time);
    case Binary(_, l, r) =>
      SteadyEvaluates(m, l, row, dt, time);
      SteadyEvaluates(m, r, row, dt, time);
  }

  lemma {:induction false} AllEvaluate(m: Model, args: seq<Node>, row: seq<real>, dt: real, time: real)
    requires m.Runnable() && dt > 0.0 && Balanced(m, dt, row)
    requires forall k :: 0 <= k < |args| ==> Linked(m.rt, m.Names(), args[k]) && Steady(m, args[k])
    ensures EvalAll(m.rt, m.Names(), args, row, dt, time) == SteadyValues(m, args)
  {
    if args != [] {
      AllEvaluate(m, args[..|args| - 1], row, dt, time);
      SteadyEvaluates(m, args[|args| - 1], row, dt, time);
    }
  }

  /** A variable whose equation is a pulse with arguments that do not change in a run. */
  ghost predicate IsPulse(m: Model, f: nat)
    requires f < |m.vars|
  {
    var v := m.vars[f];
    f >= 1 && v.kind.Flow? && v.gf.None? && v.node.Call? && m.rt.canon(v.node.fn) == "pulse"
    && forall k :: 0 <= k < |v.node.args| ==> Steady(m, v.node.args[k])
  }

  function Magnitude(m: Model, f: nat): real
    requires m.Runnable() && f < |m.vars| && IsPulse(m, f)
  {
    Arg(SteadyValues(m, m.vars[f].node.args), 0)
  }

  function First(m: Model, f: nat): real
    requires m.Runnable() && f < |m.vars| && IsPulse(m, f)
  {
    Arg(SteadyValues(m, m.vars[f].node.args), 1)
  }

  /** Without a third argument the pulse does not repeat. */
  function Interval(m: Model, f: nat): real
    requires m.Runnable() && f < |m.vars| && IsPulse(m, f)
  {
    Arg(SteadyValues(m, m.vars[f].node.args), 2)
  }

  /** A stock whose only flow is the pulse `f`. */
  ghost predicate FedByPulse(m: Model, i: nat, f: nat) {
    && 1 <= i < |m.vars| && f < |m.vars| && IsPulse(m, f)
    && m.vars[i].kind.Stock? && m.vars[i].outflows == []
    && |m.vars[i].inflows| == 1 && Resolve(m.Names(), m.vars[i].inflows[0]) == Some(f)
  }

  lemma RateTimesStep(magnitude: real, dt: real)
    requires dt > 0.0
    ensures OverStep(P.Rate(magnitude, dt), dt) == magnitude
  {
  }

  /** What one step delivers to the stock. */
  lemma PulseDelivers(m: Model, spec: SimSpec, row: seq<real>, i: nat, f: nat)
    requires m.Runnable() && spec.dt > 0.0 && Balanced(m, spec.dt, row) && FedByPulse(m, i, f)
    ensures OverStep(m.NetFlow(i, row), spec.dt)
         == if P.Fires(spec.dt, row[TIME], First(m, f), Interval(m, f)) then Magnitude(m, f) else 0.0
  {
    assert m.RunnableVar(m.vars[i]) && m.RunnableVar(m.vars[f]);
    AllEvaluate(m, m.vars[f].node.args, row, spec.dt, row[TIME]);
    RateTimesStep(Magnitude(m, f), spec.dt);
    assert row[f] == m.Equation(f, row, spec.dt);
    assert m.vars[i].inflows[..0] == [];
    assert m.FlowSum(m.vars[i].inflows, row) == 0.0 + row[f];
  }

  /** How often the pulse `f` fires in the first `k` steps. */
  function Fired(m: Model, spec: SimSpec, f: nat, k: nat): nat
    requires m.Runnable() && f < |m.vars| && IsPulse(m, f)
  {
    P.FiredSteps(spec.dt, spec.start, First(m, f), Interval(m, f), k)
  }

  lemma PulseStockStep(m: Model, spec: SimSpec, solution: seq<seq<real>>, i: nat, f: nat, k: nat)
    requires m.Runnable() && spec.dt > 0.0 && EulerRun(m, spec, solution) && k + 1 < |solution| && FedByPulse(m, i, f)
    ensures solution[k + 1][i] == solution[k][i] + P.Times(Fired(m, spec, f, k + 1) - Fired(m, spec, f, k), Magnitude(m, f))
  {
    assert EulerStep(m, spec, k, solution[k], solution[k + 1]);
    SolutionIsBalanced(m, spec, solution, k);
    SolutionTime(m, spec, solution, k);
    PulseDelivers(m, spec, solution[k], i, f);
  }

  /** A stock fed by a pulse has risen by one magnitude for each step that fired. */
  lemma {:induction false} PulseStockRises(m: Model, spec: SimSpec, solution: seq<seq<real>>, i: nat, f: nat, k: nat)
    requires m.Runnable() && spec.dt > 0.0 && EulerRun(m, spec, solution) && k < |solution| && FedByPulse(m, i, f)
    ensures solution[k][i] == solution[0][i] + P.Times(Fired(m, spec, f, k), Magnitude(m, f))
  {
    if k > 0 {
      PulseStockRises(m, spec, solution, i, f, k - 1);
      PulseStockStep(m, spec, solution, i, f, k - 1);
      P.TimesAdds(Fired(m, spec, f, k - 1), Fired(m, spec, f, k) - Fired(m, spec, f, k - 1), Magnitude(m, f));
    }
  }

  /**
   * Pulse conservation: with the first instant in the run and instants no closer than a step, the rise at step `k` is
   * exactly one magnitude for each pulse instant at or before the time of step `k - 1`.
   */
  lemma PulseStockConserves(m: Model, spec: SimSpec, solution: seq<seq<real>>, i: nat, f: nat, k: nat)
    requires m.Runnable() && spec.dt > 0.0 && EulerRun(m, spec, solution) && k < |solution| && FedByPulse(m, i, f)
    requires First(m, f) >= spec.start && (Interval(m, f) <= 0.0 || Interval(m, f) >= spec.dt)
    ensures solution[k][i] == solution[0][i]
              + P.Times(P.Count(First(m, f), Interval(m, f), P.StepTime(spec.dt, spec.start, k - 1)), Magnitude(m, f))
  {
    PulseStockRises(m, spec, solution, i, f, k);
    P.FiredStepsCountInstants(spec.dt, spec.start, First(m, f), Interval(m, f), k);
    P.StepTimeAdds(spec.dt, spec.start, -1, 1);
  }

  /** The initial value of a stock and one magnitude for each pulse instant at or before the time of step `k - 1`. */
  function PulseLevel(p: Plan, i: nat, f: nat, k: nat): real
    requires p.Valid() && FedByPulse(p.m, i, f)
  {
    Reset(p).rows[0][i]
      + P.Times(P.Count(First(p.m, f), Interval(p.m, f), P.StepTime(p.spec.dt, p.spec.start, k - 1)), Magnitude(p.m, f))
  }

  /** ... which is what a run shows, wherever it stops, on every row it has saved and on the current one. */
  lemma RunShowsPulses(p: Plan, end: real, i: nat, f: nat)
    requires p.Valid() && RunTo(p, Reset(p), end).Some? && (PlainConsts(p.m) || p.nsteps <= 1)
    requires FedByPulse(p.m, i, f) && First(p.m, f) >= p.spec.start
    requires Interval(p.m, f) <= 0.0 || Interval(p.m, f) >= p.spec.dt
    ensures var s := RunTo(p, Reset(p), end).value;
      && CurrentRow(p, s)[i] == PulseLevel(p, i, f, s.step)
      && forall j :: 0 <= j < s.saveStep ==> s.rows[j][i] == PulseLevel(p, i, f, j * p.saveEvery)
  {
    hide RunTo, Reset;
    ResetTracks(p);
    var s := RunTo(p, Reset(p), end).value;
    var solution := RunTracks(p, Reset(p), [Reset(p).rows[0]], end);
    SolutionIsUnique(p, [Reset(p).rows[0]], solution, 0);
    assert p.m.IsStored(i);
    PulseStockConserves(p.m, p.spec, solution, i, f, s.step);
    forall j | 0 <= j < s.saveStep
      ensures s.rows[j][i] == PulseLevel(p, i, f, j * p.saveEvery)
    {
      assert SavedRow(p, s, solution, j);
      PulseStockConserves(p.m, p.spec, solution, i, f, j * p.saveEvery);
    }
  }
}
