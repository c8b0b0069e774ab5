/** The run refines the Euler recurrence: what each saved row is, and when. */
module Euler {
  import opened Model
  import opened Calc
  import opened Run
  import S = Scheduler

  /** Two rows with the same time and the same stocks and constants. */
  ghost predicate SameStored(m: Model, row: seq<real>, row': seq<real>) {
    && |row| == |row'| == |m.vars| > 0
    && row[TIME] == row'[TIME]
    && forall i :: 1 <= i < |row| && m.IsStored(i) ==> row[i] == row'[i]
  }

  /** The current row has the time, stocks and constants of its step; the rows before it are whole. */
  ghost predicate Tracks(p: Plan, s: State, solution: seq<seq<real>>)
    requires p.Valid() && ValidState(p, s)
  {
    && |solution| == s.step + 1
    && EulerRun(p.m, p.spec, solution)
    && SameStored(p.m, CurrentRow(p, s), solution[s.step])
    && forall j :: 0 <= j < s.saveStep ==> SavedRow(p, s, solution, j)
  }

  /** Row `j` of the slab is the state of step j * save_every. */
  ghost predicate SavedRow(p: Plan, s: State, solution: seq<seq<real>>, j: nat) {
    j < |s.rows| && j * p.saveEvery < |solution| && s.rows[j] == solution[j * p.saveEvery]
  }

  /** A whole run's slab is the Euler solution, every save_every-th step of it. */
  ghost predicate SavesSolution(p: Plan, s: State)
    requires p.Valid()
  {
    exists solution ::
      |solution| == p.nsteps && EulerRun(p.m, p.spec, solution) && forall j :: 0 <= j < p.nsaves ==> SavedRow(p, s, solution, j)
  }

  /** `calc` fills in a row from its time, stocks and constants. */
  lemma PassCompletes(p: Plan, row: seq<real>, whole: seq<real>)
    requires p.Valid() && SameStored(p.m, row, whole) && Balanced(p.m, p.spec.dt, whole)
    ensures S.Below(p.flows, |p.m.vars|) && Pass(p.m, p.spec.dt, p.flows, row) == whole
  {
    KeepLists(p);
    forall i | 0 <= i < |row| && i !in p.flows
      ensures whole[i] == row[i]
    {
      assert i != TIME ==> p.m.IsStored(i);
    }
    assert Solves(p.m, p.spec.dt, p.flows, row, whole);
    PassIsTheSolution(p.m, p.spec.dt, p.flows, row, whole);
  }

  /** The bare value of a constant is its equation's value when its graphical function, if any, leaves it alone. */
  lemma ConstValue(m: Model, dt: real, i: nat, row: seq<real>)
    requires m.Runnable() && dt > 0.0 && |row| == |m.vars| && 1 <= i < |m.vars| && m.IsConst(i)
    ensures PlainConst(m, i) <==> m.Equation(i, row, dt) == m.rt.atof(m.vars[i].node.sval)
    ensures !m.vars[i].kind.Stock? ==> StoredValue(m, dt, i, row) == m.rt.atof(m.vars[i].node.sval)
  {
    assert m.RunnableVar(m.vars[i]);
  }

  /** The reset row starts the solution. */
  lemma ResetTracks(p: Plan)
    requires p.Valid()
    ensures Tracks(p, Reset(p), [Reset(p).rows[0]])
  {
    KeepLists(p);
    var zeros := seq(|p.m.vars|, _ => 0.0);
    var row := zeros[TIME := p.spec.start];
    PassSolves(p.m, p.spec.dt, p.initials, row);
    assert InitialRow(p.m, p.spec, Reset(p).rows[0]);
  }

  /** A step's row, completed, is balanced: the first because all of it is, the others by the recurrence. */
  lemma SolutionIsBalanced(m: Model, spec: SimSpec, solution: seq<seq<real>>, k: nat)
    requires m.Runnable() && spec.dt > 0.0 && EulerRun(m, spec, solution) && k < |solution|
    ensures Balanced(m, spec.dt, solution[k])
  {
    if k > 0 {
      assert EulerStep(m, spec, k - 1, solution[k - 1], solution[k - 1 + 1]);
    }
  }

  /** Settling completes the current row. */
  lemma SettleCompletes(p: Plan, s: State, solution: seq<seq<real>>)
    requires p.Valid() && ValidState(p, s) && s.step < p.nsteps && p.TurnFits(s.step) && Tracks(p, s, solution)
    ensures Tracks(p, Settle(p, s), solution)
    ensures CurrentRow(p, Settle(p, s)) == solution[s.step]
  {
    KeepLists(p);
    SolutionIsBalanced(p.m, p.spec, solution, s.step);
    PassCompletes(p, CurrentRow(p, s), solution[s.step]);
    assert forall j :: 0 <= j < s.saveStep ==> SavedRow(p, s, solution, j) ==> SavedRow(p, Settle(p, s), solution, j);
  }

  /** Completing a row whose constants are in place balances it. */
  lemma PassBalances(m: Model, dt: real, flows: seq<nat>, next: seq<real>)
    requires m.Runnable() && dt > 0.0 && |next| == |m.vars| && FlowList(m, flows) && PlainConsts(m)
    requires forall i :: 1 <= i < |next| && m.IsConst(i) && !m.vars[i].kind.Stock? ==> next[i] == m.rt.atof(m.vars[i].node.sval)
    ensures Balanced(m, dt, Pass(m, dt, flows, next))
    ensures SameStored(m, next, Pass(m, dt, flows, next))
  {
    var whole := Pass(m, dt, flows, next);
    PassSolves(m, dt, flows, next);
    forall i | 1 <= i < |m.vars| && !m.vars[i].kind.Stock?
      ensures whole[i] == m.Equation(i, whole, dt)
    {
      if m.IsStored(i) {
        ConstValue(m, dt, i, whole);
      }
    }
  }

  /** The row that `calc_stocks` leaves ahead, with its time set. */
  ghost predicate WrittenAhead(m: Model, spec: SimSpec, row: seq<real>, next: seq<real>, k: nat)
    requires m.Runnable() && spec.dt > 0.0 && |row| == |m.vars|
  {
    && |next| == |m.vars|
    && next[TIME] == TimeAt(spec, k + 1)
    && forall i :: 1 <= i < |next| && m.IsStored(i) ==> next[i] == StoredValue(m, spec.dt, i, row)
  }

  lemma ConstsAhead(m: Model, spec: SimSpec, row: seq<real>, next: seq<real>, k: nat, i: nat)
    requires m.Runnable() && spec.dt > 0.0 && |row| == |m.vars| && WrittenAhead(m, spec, row, next, k)
    requires 1 <= i < |m.vars| && m.IsConst(i) && !m.vars[i].kind.Stock?
    ensures next[i] == m.rt.atof(m.vars[i].node.sval)
  {
    ConstValue(m, spec.dt, i, row);
  }

  lemma StocksAhead(m: Model, spec: SimSpec, row: seq<real>, next: seq<real>, k: nat, i: nat)
    requires m.Runnable() && spec.dt > 0.0 && |row| == |m.vars| && WrittenAhead(m, spec, row, next, k)
    requires 1 <= i < |m.vars| && m.vars[i].kind.Stock?
    ensures m.IsStored(i) && next[i] == row[i] + OverStep(m.NetFlow(i, row), spec.dt)
  {
    assert next[i] == StoredValue(m, spec.dt, i, row);
  }

  /** The next row carries what the recurrence needs; completing it gives the next state of the solution. */
  lemma NextOfSolution(m: Model, spec: SimSpec, flows: seq<nat>, row: seq<real>, next: seq<real>, k: nat)
    requires m.Runnable() && spec.dt > 0.0 && |row| == |m.vars| && FlowList(m, flows) && PlainConsts(m)
    requires WrittenAhead(m, spec, row, next, k)
    ensures EulerStep(m, spec, k, row, Pass(m, spec.dt, flows, next))
    ensures SameStored(m, next, Pass(m, spec.dt, flows, next))
  {
    forall i | 1 <= i < |next| && m.IsConst(i) && !m.vars[i].kind.Stock? {
      ConstsAhead(m, spec, row, next, k, i);
    }
    PassBalances(m, spec.dt, flows, next);
    forall i | 1 <= i < |m.vars| && m.vars[i].kind.Stock? {
      StocksAhead(m, spec, row, next, k, i);
    }
  }

  /** Multiples of the save interval below a step come before the row of that step. */
  lemma SavedSteps(step: nat, saveEvery: nat, j: nat)
    requires saveEvery > 0
    ensures j < CeilDiv(step, saveEvery) ==> j * saveEvery < step
    ensures step % saveEvery == 0 ==> CeilDiv(step, saveEvery) * saveEvery == step
  {
    CeilDivAt(j * saveEvery, saveEvery, j, 0);
    if step <= j * saveEvery {
      CeilDivMonotone(step, j * saveEvery, saveEvery);
    }
  }

  /** The row ahead, once `calc_stocks` has written it and its time is set. */
  lemma StockPassWrites(m: Model, spec: SimSpec, stocks: seq<nat>, row: seq<real>, ahead: seq<real>, next: seq<real>, k: nat)
    requires m.Runnable() && spec.dt > 0.0 && |row| == |ahead| == |m.vars| && StockList(m, stocks)
    requires next == StockPass(m, spec.dt, stocks, row, ahead)[TIME := TimeAt(spec, k + 1)]
    ensures WrittenAhead(m, spec, row, next, k)
  {
    StockPassValues(m, spec.dt, stocks, row, ahead);
  }

  /** The row that a turn of the loop makes current: what `calc_stocks` wrote, at its own time. */
  lemma TurnedRow(p: Plan, s: State)
    requires p.Valid() && ValidState(p, s) && s.step + 1 < p.nsteps && p.TurnFits(s.step)
    ensures AllStored(p.m, p.stocks)
    ensures CurrentRow(p, Advance(p, Settle(p, s)))
         == StockPass(p.m, p.spec.dt, p.stocks, CurrentRow(p, Settle(p, s)), AheadRow(p, s))[TIME := TimeAt(p.spec, s.step + 1)]
  {
    SettledAhead(p, s);
    AdvancedRows(p, Settle(p, s));
  }

  lemma AdvancedRow(p: Plan, s: State)
    requires p.Valid() && ValidState(p, s) && s.step + 1 < p.nsteps && p.TurnFits(s.step)
    ensures WrittenAhead(p.m, p.spec, CurrentRow(p, Settle(p, s)), CurrentRow(p, Advance(p, Settle(p, s))), s.step)
  {
    KeepLists(p);
    TurnedRow(p, s);
    var settled := Settle(p, s);
    StockPassWrites(p.m, p.spec, p.stocks, CurrentRow(p, settled), AheadRow(p, s), CurrentRow(p, Advance(p, settled)), s.step);
  }

  /** One more state of a solution is a solution. */
  lemma ExtendSolution(m: Model, spec: SimSpec, solution: seq<seq<real>>, whole: seq<real>)
    requires m.Runnable() && spec.dt > 0.0 && EulerRun(m, spec, solution)
    requires EulerStep(m, spec, |solution| - 1, solution[|solution| - 1], whole)
    ensures EulerRun(m, spec, solution + [whole])
  {
    var longer := solution + [whole];
    forall k | 0 <= k < |longer| - 1
      ensures EulerStep(m, spec, k, longer[k], longer[k + 1])
    {
      assert k < |solution| - 1 ==> EulerStep(m, spec, k, solution[k], solution[k + 1]);
    }
  }

  /** One turn of the loop extends the solution by one step. */
  lemma AdvanceTracks(p: Plan, s: State, solution: seq<seq<real>>) returns (longer: seq<seq<real>>)
    requires p.Valid() && ValidState(p, s) && s.step + 1 < p.nsteps && p.TurnFits(s.step) && Tracks(p, s, solution)
    requires PlainConsts(p.m)
    ensures Tracks(p, Advance(p, Settle(p, s)), longer)
  {
    SettleCompletes(p, s, solution);
    var settled := Settle(p, s);
    var s' := Advance(p, settled);
    AdvancedRow(p, s);
    AdvancedRows(p, settled);
    var next := CurrentRow(p, s');
    KeepLists(p);
    NextOfSolution(p.m, p.spec, p.flows, solution[s.step], next, s.step);
    var whole := Pass(p.m, p.spec.dt, p.flows, next);
    ExtendSolution(p.m, p.spec, solution, whole);
    longer := solution + [whole];
    forall j | 0 <= j < s'.saveStep
      ensures SavedRow(p, s', longer, j)
    {
      SavedSteps(s.step, p.saveEvery, j);
      assert j < s.saveStep ==> SavedRow(p, settled, solution, j);
    }
  }

  lemma SolutionTime(m: Model, spec: SimSpec, solution: seq<seq<real>>, k: nat)
    requires m.Runnable() && spec.dt > 0.0 && EulerRun(m, spec, solution) && k < |solution|
    ensures solution[k][TIME] == TimeAt(spec, k)
  {
    if k > 0 {
      assert EulerStep(m, spec, k - 1, solution[k - 1], solution[k - 1 + 1]);
    }
  }

  /** Every step still ahead is within the end time. */
  ghost predicate InTime(p: Plan, step: nat, end: real) {
    step < p.nsteps && forall k :: step <= k < p.nsteps ==> TimeAt(p.spec, k) <= end
  }

  /** Wherever a run stops, the rows saved so far are those of the solution; if time does not stop it, all are. */
  lemma {:induction false} RunTracks(p: Plan, s: State, solution: seq<seq<real>>, end: real) returns (longer: seq<seq<real>>)
    requires p.Valid() && ValidState(p, s) && Tracks(p, s, solution) && RunTo(p, s, end).Some?
    requires PlainConsts(p.m) || p.nsteps <= 1
    ensures Tracks(p, RunTo(p, s, end).value, longer)
    ensures InTime(p, s.step, end) ==> |longer| == p.nsteps && CurrentRow(p, RunTo(p, s, end).value) == longer[p.nsteps - 1]
    decreases p.nsteps - s.step
  {
    longer := solution;
    SolutionTime(p.m, p.spec, solution, s.step);
    if s.step < p.nsteps && CurrentRow(p, s)[TIME] <= end {
      SettleCompletes(p, s, solution);
      if s.step + 1 < p.nsteps {
        longer := AdvanceTracks(p, s, solution);
        longer := RunTracks(p, Advance(p, Settle(p, s)), longer, end);
      }
    }
  }

  /** What the tracked rows of a finished run amount to. */
  lemma FinishedRun(p: Plan, s: State, solution: seq<seq<real>>)
    requires p.Valid() && p.nsteps > 0 && ValidState(p, s) && Tracks(p, s, solution)
    requires |solution| == p.nsteps && CurrentRow(p, s) == solution[p.nsteps - 1]
    ensures SavesSolution(p, s)
  {
    LastSteps(p.nsteps, p.saveEvery);
    if s.saveStep < p.nsaves {
      CeilDivNext(p.nsteps - 1, p.saveEvery);
      SavedSteps(p.nsteps - 1, p.saveEvery, 0);
      assert SavedRow(p, s, solution, s.saveStep);
    }
  }

  /** The refinement: a whole run saves the Euler solution. */
  lemma RunSavesSolution(p: Plan, end: real)
    requires p.Valid() && InTime(p, 0, end) && RunTo(p, Reset(p), end).Some?
    requires PlainConsts(p.m) || p.nsteps == 1
    ensures SavesSolution(p, RunTo(p, Reset(p), end).value)
  {
    ResetTracks(p);
    var solution := RunTracks(p, Reset(p), [Reset(p).rows[0]], end);
    FinishedRun(p, RunTo(p, Reset(p), end).value, solution);
  }

  /** From the first step on every row holds the bare values of the constants. */
  ghost predicate BareConsts(p: Plan, s: State)
    requires p.saveEvery > 0 && ValidState(p, s)
  {
    forall r, i :: 1 <= r <= s.saveStep && 1 <= i < |p.m.vars| && p.m.IsConst(i) && !p.m.vars[i].kind.Stock? ==>
      s.rows[r][i] == p.m.rt.atof(p.m.vars[i].node.sval)
  }

  lemma SettleKeepsConsts(p: Plan, s: State)
    requires p.Valid() && ValidState(p, s) && s.step < p.nsteps && p.TurnFits(s.step) && BareConsts(p, s)
    ensures BareConsts(p, Settle(p, s))
  {
    KeepLists(p);
    PassSolves(p.m, p.spec.dt, p.flows, CurrentRow(p, s));
  }

  lemma AdvanceKeepsConsts(p: Plan, s: State)
    requires p.Valid() && ValidState(p, s) && s.step + 1 < p.nsteps && p.TurnFits(s.step) && BareConsts(p, Settle(p, s))
    ensures BareConsts(p, Advance(p, Settle(p, s)))
  {
    var settled := Settle(p, s);
    var s' := Advance(p, settled);
    AdvancedRows(p, settled);
    AdvancedRow(p, s);
    forall r, i | 1 <= r <= s'.saveStep && 1 <= i < |p.m.vars| && p.m.IsConst(i) && !p.m.vars[i].kind.Stock?
      ensures s'.rows[r][i] == p.m.rt.atof(p.m.vars[i].node.sval)
    {
      if r == s'.saveStep {
        ConstsAhead(p.m, p.spec, CurrentRow(p, settled), CurrentRow(p, s'), s.step, i);
      }
    }
  }

  lemma {:induction false} RunKeepsConsts(p: Plan, s: State, end: real)
    requires p.Valid() && ValidState(p, s) && BareConsts(p, s) && RunTo(p, s, end).Some?
    ensures BareConsts(p, RunTo(p, s, end).value)
    decreases p.nsteps - s.step
  {
    if s.step < p.nsteps && CurrentRow(p, s)[TIME] <= end {
      SettleKeepsConsts(p, s);
      if s.step + 1 < p.nsteps {
        AdvanceKeepsConsts(p, s);
        RunKeepsConsts(p, Advance(p, Settle(p, s)), end);
      }
    }
  }

  /** A run that time does not stop reaches the last step. */
  lemma {:induction false} RunReachesEnd(p: Plan, s: State, end: real)
    requires p.Valid() && ValidState(p, s) && InTime(p, s.step, end) && OnTime(p, s) && RunTo(p, s, end).Some?
    ensures RunTo(p, s, end).value.step == p.nsteps - 1
    decreases p.nsteps - s.step
  {
    if s.step + 1 < p.nsteps {
      AdvancedRows(p, Settle(p, s));
      RunReachesEnd(p, Advance(p, Settle(p, s)), end);
    }
  }

  /** A run that saves the Euler solution beyond its first step has plain constants only. */
  lemma SavedSolutionHasPlainConsts(p: Plan, s: State)
    requires p.Valid() && p.nsteps > 1 && ValidState(p, s) && BareConsts(p, s)
    requires SavesSolution(p, s) && s.step == p.nsteps - 1 && s.saveStep < p.nsaves
    ensures PlainConsts(p.m)
  {
    var solution :| |solution| == p.nsteps && EulerRun(p.m, p.spec, solution)
                    && forall j :: 0 <= j < p.nsaves ==> SavedRow(p, s, solution, j);
    CeilDivPositive(s.step, p.saveEvery);
    assert SavedRow(p, s, solution, 1);
    SolutionIsBalanced(p.m, p.spec, solution, p.saveEvery);
    forall i | 1 <= i < |p.m.vars| && p.m.IsConst(i) && !p.m.vars[i].kind.Stock?
      ensures PlainConst(p.m, i)
    {
      ConstValue(p.m, p.spec.dt, i, solution[p.saveEvery]);
      assert s.rows[1][i] == p.m.rt.atof(p.m.vars[i].node.sval);
    }
  }

  /** A model that stores nothing has no constants. */
  lemma NothingStored(p: Plan)
    requires p.Valid() && p.stocks == []
    ensures PlainConsts(p.m)
  {
    KeepLists(p);
    assert forall i :: 1 <= i < |p.m.vars| ==> (i in p.stocks <==> p.m.IsStored(i)) && !p.m.IsConst(i);
  }

  /**
   * The exact conditions of the refinement: a whole run stays in its slab exactly when the plan fits, and then saves the
   * Euler solution exactly when no literal constant is changed by a graphical function of its own.
   */
  lemma RefinementIsExact(p: Plan, end: real)
    requires p.Valid() && InTime(p, 0, end)
    ensures RunTo(p, Reset(p), end).Some? <==> p.Fits()
    ensures p.Fits() ==> (SavesSolution(p, RunTo(p, Reset(p), end).value) <==> PlainConsts(p.m) || p.nsteps == 1)
  {
    ResetIsOnTime(p);
    StaysInSlab(p, Reset(p), end);
    FitsTurnByTurn(p);
    if p.Fits() {
      if PlainConsts(p.m) || p.nsteps == 1 {
        RunSavesSolution(p, end);
      } else {
        RunReachesEnd(p, Reset(p), end);
        RunKeepsConsts(p, Reset(p), end);
        assert p.TurnFits(p.nsteps - 1);
        if p.stocks == [] {
          NothingStored(p);
        } else if SavesSolution(p, RunTo(p, Reset(p), end).value) {
          SavedSolutionHasPlainConsts(p, RunTo(p, Reset(p), end).value);
        }
      }
    }
  }

  /** Two rows that agree on time and on the variables listed so far. */
  lemma {:induction false} BalancedUpTo(m: Model, dt: real, xs: seq<nat>, row: seq<real>, row': seq<real>)
    requires m.Runnable() && dt > 0.0 && S.Closed(GraphOf(m), xs)
    requires |row| == |row'| == |m.vars| && row[TIME] == row'[TIME]
    requires forall i :: 1 <= i < |row| ==> row[i] == row'[i] || (row[i] == m.Equation(i, row, dt) && row'[i] == m.Equation(i, row', dt))
    ensures forall i :: i in xs ==> i < |row| && row[i] == row'[i]
  {
    if xs != [] {
      var x, front := xs[|xs| - 1], xs[..|xs| - 1];
      BalancedUpTo(m, dt, front, row, row');
      assert forall i :: i in xs <==> i in front || i == x;
      if x != TIME && row[x] != row'[x] {
        EquationReadsDeps(m, dt, x, row, row');
      }
    }
  }

  /** The Euler solution is unique: a model has no other of the same length. */
  lemma {:induction false} SolutionIsUnique(p: Plan, one: seq<seq<real>>, other: seq<seq<real>>, k: nat)
    requires p.Valid() && EulerRun(p.m, p.spec, one) && EulerRun(p.m, p.spec, other)
    requires k < |one| && k < |other|
    ensures one[k] == other[k]
  {
    KeepLists(p);
    if k > 0 {
      SolutionIsUnique(p, one, other, k - 1);
      assert EulerStep(p.m, p.spec, k - 1, one[k - 1], one[k - 1 + 1]);
      assert EulerStep(p.m, p.spec, k - 1, other[k - 1], other[k - 1 + 1]);
    }
    BalancedUpTo(p.m, p.spec.dt, p.initials, one[k], other[k]);
  }
}
