/** A flat model as the simulator sees it after `avar` and `avar_init`, and its Euler semantics. */
module Model {
  import opened Wrappers
  import opened Equation
  import P = Pulse
  import T = Table

  /** The variable types of a model without submodules and references. */
  datatype VarType = Stock | Flow | Aux

  datatype Var = Var(
    name: string,
    kind: VarType,
    node: Node,
    gf: Option<T.Table>,
    inflows: seq<string>,
    outflows: seq<string>
  )

  /** `time` is the first variable of the root module. */
  const TIME: nat := 0
  const TIME_VAR := Var("time", Aux, Null, None, [], [])

  datatype Model = Model(rt: Runtime, vars: seq<Var>) {
    function Names(): (names: seq<string>)
      ensures |names| == |vars|
    {
      seq(|vars|, i requires 0 <= i < |vars| => vars[i].name)
    }

    /** `direct_deps` of a variable. */
    function DirectDeps(i: nat): (ds: seq<nat>)
      requires i < |vars|
      ensures forall k :: 0 <= k < |ds| ==> ds[k] < |vars|
    {
      Deps(rt, Names(), vars[i].node)
    }

    /** `is_const`: the whole equation is one number. */
    predicate IsConst(i: nat)
      requires i < |vars|
    {
      vars[i].node.FloatLit?
    }

    /** On the run list of `calc_stocks`. */
    predicate IsStored(i: nat)
      requires i < |vars|
    {
      vars[i].kind.Stock? || IsConst(i)
    }

    predicate FlowsResolve(flows: seq<string>) {
      forall k :: 0 <= k < |flows| ==> Resolve(Names(), flows[k]).Some?
    }

    /** `time` first; every other variable has an equation whose names and functions are known. */
    predicate Runnable() {
      && |vars| > 0
      && vars[TIME] == TIME_VAR
      && forall i :: 1 <= i < |vars| ==> RunnableVar(vars[i])
    }

    predicate RunnableVar(v: Var) {
      && Linked(rt, Names(), v.node)
      && (v.gf.Some? ==> T.Valid(v.gf.value))
      && FlowsResolve(v.inflows)
      && FlowsResolve(v.outflows)
    }

    /** A variable's equation, through its graphical function, on a row. */
    function Equation(i: nat, row: seq<real>, dt: real): real
      requires Runnable() && 1 <= i < |vars| && |row| == |vars| && dt > 0.0
    {
      assert RunnableVar(vars[i]);
      var v := Eval(rt, Names(), vars[i].node, row, dt, row[TIME]);
      if vars[i].gf.Some? then T.Lookup(vars[i].gf.value, v) else v
    }

    /** The sum of the variables named by a list of flows. */
    function FlowSum(flows: seq<string>, row: seq<real>): real
      requires FlowsResolve(flows) && |row| == |vars|
    {
      if flows == [] then 0.0
      else
        var last := flows[|flows| - 1];
        assert Resolve(Names(), last).Some?;
        assert FlowsResolve(flows[..|flows| - 1]);
        FlowSum(flows[..|flows| - 1], row) + row[Resolve(Names(), last).value]
    }

    /** Inflows less outflows. */
    function NetFlow(i: nat, row: seq<real>): real
      requires Runnable() && 1 <= i < |vars| && |row| == |vars|
    {
      assert RunnableVar(vars[i]);
      FlowSum(vars[i].inflows, row) - FlowSum(vars[i].outflows, row)
    }
  }

  datatype SimSpec = SimSpec(start: real, stop: real, dt: real, savestep: real)

  function TimeAt(spec: SimSpec, step: nat): real {
    P.StepTime(spec.dt, spec.start, step)
  }

  /** A literal constant: what `calc` and `calc_stocks` store for it differs when a graphical function changes it. */
  predicate PlainConst(m: Model, i: nat)
    requires m.Runnable() && 1 <= i < |m.vars| && m.IsConst(i)
  {
    assert m.RunnableVar(m.vars[i]);
    var c := m.rt.atof(m.vars[i].node.sval);
    m.vars[i].gf.Some? ==> T.Lookup(m.vars[i].gf.value, c) == c
  }

  predicate PlainConsts(m: Model)
    requires m.Runnable()
  {
    forall i :: 1 <= i < |m.vars| && m.IsConst(i) && !m.vars[i].kind.Stock? ==> PlainConst(m, i)
  }

  /** Every variable that is not a stock equals its own equation on the row itself. */
  ghost predicate Balanced(m: Model, dt: real, row: seq<real>)
    requires m.Runnable() && dt > 0.0
  {
    |row| == |m.vars| &&
    forall i :: 1 <= i < |m.vars| && !m.vars[i].kind.Stock? ==> row[i] == m.Equation(i, row, dt)
  }

  /** The first row: every variable, a stock too, equals its own equation. */
  ghost predicate InitialRow(m: Model, spec: SimSpec, row: seq<real>)
    requires m.Runnable() && spec.dt > 0.0
  {
    |row| == |m.vars| && row[TIME] == spec.start &&
    forall i :: 1 <= i < |m.vars| ==> row[i] == m.Equation(i, row, spec.dt)
  }

  /** What a flow moves in one step. */
  function OverStep(flow: real, dt: real): real {
    flow * dt
  }

  /** One step of the Euler recurrence from step `k` to step `k + 1`. */
  ghost predicate EulerStep(m: Model, spec: SimSpec, k: nat, row: seq<real>, row': seq<real>)
    requires m.Runnable() && spec.dt > 0.0 && |row| == |m.vars|
  {
    && Balanced(m, spec.dt, row')
    && row'[TIME] == TimeAt(spec, k + 1)
    && forall i :: 1 <= i < |m.vars| && m.vars[i].kind.Stock? ==> row'[i] == row[i] + OverStep(m.NetFlow(i, row), spec.dt)
  }

  /** The plain Euler solution: what a run is meant to produce, with no schedule, slab or saving in sight. */
  ghost predicate EulerRun(m: Model, spec: SimSpec, rows: seq<seq<real>>)
    requires m.Runnable() && spec.dt > 0.0
  {
    && |rows| > 0
    && InitialRow(m, spec, rows[0])
    && (forall k :: 0 <= k < |rows| ==> |rows[k]| == |m.vars|)
    && forall k :: 0 <= k < |rows| - 1 ==> EulerStep(m, spec, k, rows[k], rows[k + 1])
  }
}
