/** A whole run as a state machine on saved rows: `sd_sim_reset` and the loop of `sd_sim_run_to` of sim.c. */
module Run {
  import opened Wrappers
  import opened Model
  import opened Calc
  import P = Pulse
  import S = Scheduler

  /** The fixed part of a simulation: the sorted model and the step counts of `sd_sim_reset`. */
  datatype Plan = Plan(
    m: Model,
    spec: SimSpec,
    initials: seq<nat>,
    flows: seq<nat>,
    stocks: seq<nat>,
    nsteps: nat,
    saveEvery: nat,
    nsaves: nat
  ) {
    /** A scheduled, runnable model and the counts that go together. */
    ghost predicate Valid() {
      && m.Runnable()
      && spec.dt > 0.0
      && S.Scheduled(GraphOf(m), initials, flows, stocks)
      && saveEvery > 0
      && nsaves == CeilDiv(nsteps, saveEvery)
    }

    /** `sim_next` of a step is in the slab, or, at the last step of a model that stores nothing, is not written. */
    predicate TurnFits(k: nat)
      requires saveEvery > 0
    {
      CeilDiv(k, saveEvery) < nsaves || (stocks == [] && k + 1 == nsteps)
    }

    /** The save interval divides the last step; a model that stores nothing may go one step beyond. */
    predicate Fits() {
      && saveEvery > 0
      && (nsteps > 0 ==> (nsteps - 1) % saveEvery == 0 || (stocks == [] && (nsteps - 1) % saveEvery == 1))
    }
  }

  /** The quotient rounded up. */
  function CeilDiv(a: nat, b: nat): nat
    requires b > 0
  {
    if a % b == 0 then a / b else a / b + 1
  }

  /** The slab by rows, and the two counters of the run. */
  datatype State = State(rows: seq<seq<real>>, step: nat, saveStep: nat)

  /** What holds between calls. */
  ghost predicate ValidState(p: Plan, s: State)
    requires p.saveEvery > 0
  {
    && |s.rows| == p.nsaves + 1
    && (forall r :: 0 <= r < |s.rows| ==> |s.rows[r]| == |p.m.vars|)
    && (if p.nsteps == 0 then s.step == 0 else s.step < p.nsteps)
    && s.saveStep == CeilDiv(s.step, p.saveEvery)
    && s.saveStep <= p.nsaves
  }

  /** A run list `calc` may go over: ordered, and made of the variables that are not stored. */
  ghost predicate FlowList(m: Model, flows: seq<nat>) {
    && S.Below(flows, |m.vars|) && S.Distinct(flows) && S.Ordered(GraphOf(m), flows)
    && forall i :: 1 <= i < |m.vars| ==> (i in flows <==> !m.IsStored(i))
  }

  /** A run list `calc_stocks` may go over: the stored variables. */
  ghost predicate StockList(m: Model, stocks: seq<nat>) {
    && AllStored(m, stocks) && TIME !in stocks
    && forall i :: 1 <= i < |m.vars| ==> (i in stocks <==> m.IsStored(i))
  }

  /** What the run lists hold, in the form the passes want it. */
  lemma KeepLists(p: Plan)
    requires p.Valid()
    ensures FlowList(p.m, p.flows) && StockList(p.m, p.stocks)
    ensures S.Below(p.initials, |p.m.vars|) && S.Distinct(p.initials) && S.Ordered(GraphOf(p.m), p.initials)
    ensures forall i :: 1 <= i < |p.m.vars| ==> i in p.initials
  {
    var g := GraphOf(p.m);
    S.ClosedIsOrdered(g, p.initials);
    S.PartIsOrdered(g, p.initials, false);
    S.PartMembers(g, p.initials, false);
    S.PartMembers(g, p.initials, true);
    forall k | 0 <= k < |p.stocks|
      ensures p.stocks[k] < |p.m.vars| && p.m.IsStored(p.stocks[k])
    {
      assert p.stocks[k] in p.stocks;
    }
  }

  /** Quotient and remainder determine the rounded quotient. */
  lemma CeilDivAt(a: nat, b: nat, q: nat, r: nat)
    requires b > 0 && r < b && a == q * b + r
    ensures a / b == q && a % b == r
    ensures CeilDiv(a, b) == if r == 0 then q else q + 1
  {
    var d := a / b - q;
    assert d * b + (a % b) == r by {
      assert d * b == (a / b) * b - q * b;
    }
    assert d > 0 ==> d * b >= b;
    assert d < 0 ==> d * b + b <= 0;
  }

  /** The rounded quotient goes up after each multiple. */
  lemma CeilDivNext(a: nat, b: nat)
    requires b > 0
    ensures CeilDiv(a + 1, b) == if a % b == 0 then CeilDiv(a, b) + 1 else CeilDiv(a, b)
  {
    var q, r := a / b, a % b;
    assert a == q * b + r;
    if r + 1 < b {
      CeilDivAt(a + 1, b, q, r + 1);
    } else {
      assert (q + 1) * b == q * b + b;
      CeilDivAt(a + 1, b, q + 1, 0);
    }
  }

  lemma {:induction false} CeilDivMonotone(a: nat, c: nat, b: nat)
    requires b > 0 && a <= c
    ensures CeilDiv(a, b) <= CeilDiv(c, b)
    decreases c - a
  {
    if a < c {
      CeilDivMonotone(a, c - 1, b);
      CeilDivNext(c - 1, b);
    }
  }

  lemma CeilDivPositive(a: nat, b: nat)
    requires b > 0
    ensures CeilDiv(0, b) == 0
    ensures a > 0 ==> CeilDiv(a, b) > 0
  {
    CeilDivAt(0, b, 0, 0);
    if a > 0 {
      CeilDivNext(0, b);
      CeilDivMonotone(1, a, b);
    }
  }

  /** The last two steps against the number of rows. */
  lemma LastSteps(nsteps: nat, b: nat)
    requires b > 0 && nsteps > 0
    ensures CeilDiv(nsteps - 1, b) <= CeilDiv(nsteps, b)
    ensures CeilDiv(nsteps - 1, b) < CeilDiv(nsteps, b) <==> (nsteps - 1) % b == 0
    ensures nsteps > 1 ==> (CeilDiv(nsteps - 2, b) < CeilDiv(nsteps, b) <==> (nsteps - 1) % b <= 1)
  {
    CeilDivNext(nsteps - 1, b);
    if nsteps > 1 {
      CeilDivNext(nsteps - 2, b);
      RemainderNext(nsteps - 2, b);
    }
  }

  lemma RemainderNext(a: nat, b: nat)
    requires b > 0
    ensures (a + 1) % b == if a % b + 1 < b then a % b + 1 else 0
  {
    var q, r := a / b, a % b;
    assert a == q * b + r;
    if r + 1 < b {
      CeilDivAt(a + 1, b, q, r + 1);
    } else {
      assert (q + 1) * b == q * b + b;
      CeilDivAt(a + 1, b, q + 1, 0);
    }
  }

  /** A plan fits when each of its turns does, and only then. */
  lemma FitsTurnByTurn(p: Plan)
    requires p.saveEvery > 0 && p.nsaves == CeilDiv(p.nsteps, p.saveEvery)
    ensures p.Fits() <==> forall k :: 0 <= k < p.nsteps ==> p.TurnFits(k)
  {
    if p.nsteps > 0 {
      LastSteps(p.nsteps, p.saveEvery);
      if p.Fits() {
        forall k | 0 <= k < p.nsteps
          ensures p.TurnFits(k)
        {
          CeilDivMonotone(k, if k + 1 < p.nsteps then p.nsteps - 2 else k, p.saveEvery);
        }
      } else if p.nsteps > 1 && (p.nsteps - 1) % p.saveEvery > 1 {
        assert !p.TurnFits(p.nsteps - 2);
      } else {
        assert !p.TurnFits(p.nsteps - 1);
      }
    }
  }

  /** `sim_curr`. */
  function CurrentRow(p: Plan, s: State): (row: seq<real>)
    requires p.saveEvery > 0 && ValidState(p, s)
    ensures |row| == |p.m.vars|
  {
    s.rows[s.saveStep]
  }

  /** `sim_next`, where the slab has it. */
  function AheadRow(p: Plan, s: State): (row: seq<real>)
    requires p.saveEvery > 0 && ValidState(p, s) && s.saveStep < p.nsaves
    ensures |row| == |p.m.vars|
  {
    s.rows[s.saveStep + 1]
  }

  /** `sd_sim_reset`: the first row holds the initial values. */
  function Reset(p: Plan): (s: State)
    requires p.Valid()
    ensures ValidState(p, s)
  {
    KeepLists(p);
    CeilDivPositive(p.nsteps, p.saveEvery);
    var zeros := seq(|p.m.vars|, _ => 0.0);
    var rows := seq(p.nsaves + 1, _ => zeros);
    State(rows[0 := Pass(p.m, p.spec.dt, p.initials, zeros[TIME := p.spec.start])], 0, 0)
  }

  /** The two calls at the top of the loop: flows on the current row, stocks on the next. */
  function Settle(p: Plan, s: State): (s': State)
    requires p.Valid() && ValidState(p, s) && s.step < p.nsteps && p.TurnFits(s.step)
    ensures ValidState(p, s') && s'.step == s.step
  {
    KeepLists(p);
    var curr := Pass(p.m, p.spec.dt, p.flows, CurrentRow(p, s));
    var rows := s.rows[s.saveStep := curr];
    if s.saveStep < p.nsaves
    then s.(rows := rows[s.saveStep + 1 := StockPass(p.m, p.spec.dt, p.stocks, curr, AheadRow(p, s))])
    else s.(rows := rows)
  }

  lemma SettledRow(p: Plan, s: State)
    requires p.Valid() && ValidState(p, s) && s.step < p.nsteps && p.TurnFits(s.step)
    ensures S.Below(p.flows, |p.m.vars|) && Settle(p, s).saveStep == s.saveStep
    ensures CurrentRow(p, Settle(p, s)) == Pass(p.m, p.spec.dt, p.flows, CurrentRow(p, s))
  {
    KeepLists(p);
  }

  /** The row that settling writes. */
  lemma SettledAhead(p: Plan, s: State)
    requires p.Valid() && ValidState(p, s) && s.step < p.nsteps && s.saveStep < p.nsaves
    ensures AllStored(p.m, p.stocks) && Settle(p, s).saveStep == s.saveStep
    ensures AheadRow(p, Settle(p, s)) == StockPass(p.m, p.spec.dt, p.stocks, CurrentRow(p, Settle(p, s)), AheadRow(p, s))
  {
    KeepLists(p);
  }

  /** Settling replaces the current row, where there is no other. */
  lemma SettledLast(p: Plan, s: State)
    requires p.Valid() && ValidState(p, s) && s.step < p.nsteps && p.TurnFits(s.step) && s.saveStep == p.nsaves
    ensures Settle(p, s).rows == s.rows[s.saveStep := CurrentRow(p, Settle(p, s))]
  {
    KeepLists(p);
  }

  /** Settling replaces two rows. */
  lemma SettledRows(p: Plan, s: State)
    requires p.Valid() && ValidState(p, s) && s.step < p.nsteps && s.saveStep < p.nsaves
    ensures Settle(p, s).saveStep == s.saveStep
    ensures Settle(p, s).rows
         == s.rows[s.saveStep := CurrentRow(p, Settle(p, s))][s.saveStep + 1 := AheadRow(p, Settle(p, s))]
  {
    KeepLists(p);
  }

  /** The rest of the loop: the next row becomes the current one, in place unless the current one is saved. */
  function Advance(p: Plan, s: State): (s': State)
    requires p.Valid() && ValidState(p, s) && s.step + 1 < p.nsteps && p.TurnFits(s.step)
    ensures ValidState(p, s') && s'.step == s.step + 1
  {
    CeilDivNext(s.step, p.saveEvery);
    var next := AheadRow(p, s)[TIME := TimeAt(p.spec, s.step + 1)];
    var rows := s.rows[s.saveStep + 1 := next];
    if s.step % p.saveEvery != 0 then State(rows[s.saveStep := next], s.step + 1, s.saveStep)
    else State(rows, s.step + 1, s.saveStep + 1)
  }

  /** What is on the rows after a turn: the row ahead, at its own time, is current, and nothing before it moved. */
  lemma AdvancedRows(p: Plan, s: State)
    requires p.Valid() && ValidState(p, s) && s.step + 1 < p.nsteps && p.TurnFits(s.step)
    ensures CurrentRow(p, Advance(p, s)) == AheadRow(p, s)[TIME := TimeAt(p.spec, s.step + 1)]
    ensures s.saveStep <= Advance(p, s).saveStep <= s.saveStep + 1
    ensures forall j :: 0 <= j < Advance(p, s).saveStep ==> Advance(p, s).rows[j] == s.rows[j]
  {
  }

  /** `sd_sim_run_to`, or None when a turn writes outside the slab. */
  function RunTo(p: Plan, s: State, end: real): (o: Option<State>)
    requires p.Valid() && ValidState(p, s)
    ensures o.Some? ==> ValidState(p, o.value)
    decreases p.nsteps - s.step
  {
    if s.step < p.nsteps && CurrentRow(p, s)[TIME] <= end then
      if !p.TurnFits(s.step) then None
      else if s.step + 1 == p.nsteps then Some(Settle(p, s))
      else RunTo(p, Advance(p, Settle(p, s)), end)
    else Some(s)
  }

  /** The current row has the time of its step. */
  ghost predicate OnTime(p: Plan, s: State)
    requires p.Valid() && ValidState(p, s)
  {
    CurrentRow(p, s)[TIME] == TimeAt(p.spec, s.step)
  }

  lemma ResetIsOnTime(p: Plan)
    requires p.Valid()
    ensures OnTime(p, Reset(p))
  {
    KeepLists(p);
    var row := seq(|p.m.vars|, _ => 0.0)[TIME := p.spec.start];
    PassSolves(p.m, p.spec.dt, p.initials, row);
    P.StepTimeAdds(p.spec.dt, p.spec.start, 0, 0);
  }

  /** Neither call of a turn moves the time of the current row. */
  lemma SettleKeepsTime(p: Plan, s: State)
    requires p.Valid() && ValidState(p, s) && s.step < p.nsteps && p.TurnFits(s.step)
    ensures CurrentRow(p, Settle(p, s))[TIME] == CurrentRow(p, s)[TIME]
  {
    KeepLists(p);
    SettledRow(p, s);
    PassSolves(p.m, p.spec.dt, p.flows, CurrentRow(p, s));
  }

  lemma LaterStepIsLater(spec: SimSpec, j: nat, k: nat)
    requires spec.dt > 0.0 && j <= k
    ensures TimeAt(spec, j) <= TimeAt(spec, k)
  {
    P.ScaleInt(j, k, spec.dt);
  }

  /** A run stays in the slab exactly when each of the steps it takes fits. */
  lemma {:induction false} StaysInSlab(p: Plan, s: State, end: real)
    requires p.Valid() && ValidState(p, s) && OnTime(p, s)
    ensures RunTo(p, s, end).Some? <==> forall k :: s.step <= k < p.nsteps && TimeAt(p.spec, k) <= end ==> p.TurnFits(k)
    decreases p.nsteps - s.step
  {
    if s.step < p.nsteps && CurrentRow(p, s)[TIME] <= end {
      if p.TurnFits(s.step) && s.step + 1 < p.nsteps {
        var s' := Advance(p, Settle(p, s));
        AdvancedRows(p, Settle(p, s));
        StaysInSlab(p, s', end);
      }
    } else {
      forall k | s.step <= k < p.nsteps
        ensures TimeAt(p.spec, s.step) <= TimeAt(p.spec, k)
      {
        LaterStepIsLater(p.spec, s.step, k);
      }
    }
  }

  /** Where a run stops: at the first step later than the end, or at the last step. */
  lemma {:induction false} RunStopsAt(p: Plan, s: State, end: real)
    requires p.Valid() && ValidState(p, s) && OnTime(p, s) && RunTo(p, s, end).Some?
    ensures var s' := RunTo(p, s, end).value;
      && OnTime(p, s') && s.step <= s'.step
      && (s'.step + 1 < p.nsteps ==> TimeAt(p.spec, s'.step) > end)
      && forall k :: s.step <= k < s'.step ==> TimeAt(p.spec, k) <= end
    decreases p.nsteps - s.step
  {
    hide Pass, StockPass, StoredValue;
    if s.step < p.nsteps && CurrentRow(p, s)[TIME] <= end {
      if s.step + 1 < p.nsteps {
        AdvancedRows(p, Settle(p, s));
        RunStopsAt(p, Advance(p, Settle(p, s)), end);
      } else {
        SettleKeepsTime(p, s);
      }
    }
  }

  /** A plan that fits is never run outside its slab, whatever the slab holds. */
  lemma {:induction false} FitsStaysInSlab(p: Plan, s: State, end: real)
    requires p.Valid() && ValidState(p, s) && p.Fits()
    ensures RunTo(p, s, end).Some?
    decreases p.nsteps - s.step
  {
    FitsTurnByTurn(p);
    if s.step < p.nsteps && CurrentRow(p, s)[TIME] <= end && s.step + 1 < p.nsteps {
      FitsStaysInSlab(p, Advance(p, Settle(p, s)), end);
    }
  }

  /** A second settling finds everything settled. */
  lemma SettleIsIdempotent(p: Plan, s: State)
    requires p.Valid() && ValidState(p, s) && s.step < p.nsteps && p.TurnFits(s.step)
    ensures Settle(p, Settle(p, s)) == Settle(p, s)
    ensures CurrentRow(p, Settle(p, s))[TIME] == CurrentRow(p, s)[TIME]
  {
    var settled := Settle(p, s);
    SettleKeepsTime(p, s);
    KeepLists(p);
    SettledRow(p, s);
    SettledRow(p, settled);
    PassIsIdempotent(p.m, p.spec.dt, p.flows, CurrentRow(p, s));
    if s.saveStep < p.nsaves {
      SettledAhead(p, s);
      SettledAhead(p, settled);
      StockPassIsIdempotent(p.m, p.spec.dt, p.stocks, CurrentRow(p, settled), AheadRow(p, s));
    }
    OnlyTwoRowsChange(p, s);
    OnlyTwoRowsChange(p, settled);
    assert Settle(p, settled).rows == settled.rows;
  }

  lemma OnlyTwoRowsChange(p: Plan, s: State)
    requires p.Valid() && ValidState(p, s) && s.step < p.nsteps && p.TurnFits(s.step)
    ensures Settle(p, s).saveStep == s.saveStep
    ensures forall r :: 0 <= r < |s.rows| && r != s.saveStep && r != s.saveStep + 1 ==> Settle(p, s).rows[r] == s.rows[r]
  {
  }

  /** Two runs, one after the other. */
  function RunOn(p: Plan, o: Option<State>, end: real): Option<State>
    requires p.Valid() && (o.Some? ==> ValidState(p, o.value))
  {
    if o.None? then None else RunTo(p, o.value, end)
  }

  /** Pausing is invisible: stopping at `t1` on the way to `t2` leaves the same slab and counters, or the same overrun. */
  lemma {:induction false} PausingIsInvisible(p: Plan, s: State, t1: real, t2: real)
    requires p.Valid() && ValidState(p, s) && t1 <= t2
    ensures RunOn(p, RunTo(p, s, t1), t2) == RunTo(p, s, t2)
    decreases p.nsteps - s.step
  {
    if s.step < p.nsteps && CurrentRow(p, s)[TIME] <= t1 && p.TurnFits(s.step) {
      if s.step + 1 == p.nsteps {
        SettleIsIdempotent(p, s);
      } else {
        PausingIsInvisible(p, Advance(p, Settle(p, s)), t1, t2);
      }
    }
  }
}
