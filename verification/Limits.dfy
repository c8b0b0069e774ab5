/** Small models on which a run leaves its slab, or saves something else than the Euler solution. */
module Limits {
  import opened Wrappers
  import opened Equation
  import opened Model
  import opened Calc
  import opened Run
  import opened Simulator
  import E = Euler
  import S = Scheduler
  import T = Table

  /** A model of one literal constant. */
  function ConstModel(rt: Runtime, gf: Option<T.Table>): Model {
    Model(rt, [TIME_VAR, Var("c", Aux, FloatLit("1"), gf, [], [])])
  }

  function ConstPlan(rt: Runtime, gf: Option<T.Table>, spec: SimSpec): Plan
    requires SpecOk(spec)
  {
    var nsteps, saveEvery := StepCount(spec), SaveInterval(spec);
    Plan(ConstModel(rt, gf), spec, [1], [], [1], nsteps, saveEvery, CeilDiv(nsteps, saveEvery))
  }

  lemma ConstPlanIsValid(rt: Runtime, gf: Option<T.Table>, spec: SimSpec)
    requires SpecOk(spec) && (gf.Some? ==> T.Valid(gf.value))
    ensures ConstPlan(rt, gf, spec).Valid() && Counted(ConstPlan(rt, gf, spec))
  {
    var m := ConstModel(rt, gf);
    var g := GraphOf(m);
    assert m.RunnableVar(m.vars[1]);
    assert m.IsStored(1) && 1 in g.stored && g.deps[1] == [];
    assert S.Closed(g, [1]);
    assert S.Part(g, [1], true) == [1] && S.Part(g, [1], false) == [];
  }

  /** Four steps of which every second is saved: two rows and the extra one. */
  const HALF_SAVED := SimSpec(0.0, 3.0, 1.0, 2.0)

  lemma HalfSavedCounts()
    ensures SpecOk(HALF_SAVED) && StepCount(HALF_SAVED) == 4 && SaveInterval(HALF_SAVED) == 2
    ensures CeilDiv(0, 2) == 0 && CeilDiv(1, 2) == 1 && CeilDiv(2, 2) == 1 && CeilDiv(3, 2) == 2 && CeilDiv(4, 2) == 2
  {
  }

  lemma HalfSavedTurns(p: Plan)
    requires p.spec == HALF_SAVED && p.nsteps == 4 && p.saveEvery == 2 && p.nsaves == 2 && p.stocks != []
    ensures !p.Fits() && forall k :: 0 <= k < p.nsteps && TimeAt(p.spec, k) <= 2.0 ==> p.TurnFits(k)
  {
    HalfSavedCounts();
    forall k | 0 <= k < p.nsteps && TimeAt(p.spec, k) <= 2.0
      ensures p.TurnFits(k)
    {
      assert TimeAt(p.spec, k) == k as real;
    }
  }

  /** A whole run writes past the slab, a run to time 2 does not. */
  lemma OverrunHappens(rt: Runtime)
    ensures SpecOk(HALF_SAVED)
    ensures var p := ConstPlan(rt, None, HALF_SAVED);
      && p.Valid() && Counted(p) && p.nsteps == 4 && p.saveEvery == 2
      && RunTo(p, Reset(p), p.spec.stop + 1.0) == None
      && RunTo(p, Reset(p), 2.0).Some?
  {
    hide RunTo, Reset, E.SavesSolution, TimeAt, CeilDiv;
    HalfSavedCounts();
    var p := ConstPlan(rt, None, HALF_SAVED);
    ConstPlanIsValid(rt, None, HALF_SAVED);
    HalfSavedTurns(p);
    StepsEndByStop(p);
    E.RefinementIsExact(p, p.spec.stop + 1.0);
    ResetIsOnTime(p);
    StaysInSlab(p, Reset(p), 2.0);
  }

  /** A constant that its own table raises by one: the second row that is saved has the bare constant. */
  lemma RefinementCanFail(rt: Runtime)
    ensures SpecOk(SimSpec(0.0, 1.0, 1.0, 1.0))
    ensures var gf := T.Table([0.0], [rt.atof("1") + 1.0]);
      var p := ConstPlan(rt, Some(gf), SimSpec(0.0, 1.0, 1.0, 1.0));
      && p.Valid() && Counted(p) && p.nsteps == 2 && p.Fits()
      && RunTo(p, Reset(p), p.spec.stop + 1.0).Some?
      && !E.SavesSolution(p, RunTo(p, Reset(p), p.spec.stop + 1.0).value)
  {
    hide RunTo, Reset, E.SavesSolution, TimeAt;
    var spec, gf := SimSpec(0.0, 1.0, 1.0, 1.0), T.Table([0.0], [rt.atof("1") + 1.0]);
    var p := ConstPlan(rt, Some(gf), spec);
    ConstPlanIsValid(rt, Some(gf), spec);
    StepsEndByStop(p);
    E.RefinementIsExact(p, spec.stop + 1.0);
    assert p.m.IsConst(1) && !PlainConst(p.m, 1);
  }
}
