/** The simulation context of sim.c: one flat slab, overwritten in place, proved against the run of module Run. */
module Simulator {
  import opened Wrappers
  import opened Lists
  import opened Equation
  import opened Model
  import opened Calc
  import opened Run
  import D = Dependencies
  import E = Euler
  import P = Pulse
  import S = Scheduler
  import T = Table

  /** Where a row starts in the slab: after the rows before it. */
  function RowBase(r: nat, n: nat): nat {
    if r == 0 then 0 else RowBase(r - 1, n) + n
  }

  lemma {:induction false} RowBaseIsProduct(r: nat, n: nat)
    ensures RowBase(r, n) == r * n
  {
    if r > 0 {
      RowBaseIsProduct(r - 1, n);
      assert r * n == (r - 1) * n + n;
    }
  }

  lemma {:induction false} RowInSlab(r: nat, n: nat, count: nat)
    requires r < count
    ensures RowBase(r, n) + n == RowBase(r + 1, n) <= RowBase(count, n)
    decreases count
  {
    if r + 1 < count {
      RowInSlab(r, n, count - 1);
    }
  }

  /** The slab cut into rows. */
  function RowsOf(slab: seq<real>, n: nat, count: nat): (rows: seq<seq<real>>)
    requires |slab| == RowBase(count, n)
    ensures |rows| == count
  {
    seq(count, r requires 0 <= r < count => RowAt(slab, n, count, r))
  }

  function RowAt(slab: seq<real>, n: nat, count: nat, r: nat): (row: seq<real>)
    requires |slab| == RowBase(count, n) && r < count
    ensures |row| == n
  {
    RowInSlab(r, n, count);
    slab[RowBase(r, n)..RowBase(r, n) + n]
  }

  /** A row by where it starts. */
  lemma RowAtBase(slab: seq<real>, n: nat, count: nat, r: nat, base: nat)
    requires |slab| == RowBase(count, n) && r < count && base == RowBase(r, n) && base + n <= |slab|
    ensures RowAt(slab, n, count, r) == slab[base..base + n]
  {
  }

  /** Replacing a row's stretch replaces the row and no other. */
  lemma SpliceRow(slab: seq<real>, n: nat, count: nat, r: nat, base: nat, row: seq<real>)
    requires |slab| == RowBase(count, n) && r < count && |row| == n && base == RowBase(r, n) && base + n <= |slab|
    ensures RowsOf(Splice(slab, base, row), n, count) == RowsOf(slab, n, count)[r := row]
  {
    var out := Splice(slab, base, row);
    forall q | 0 <= q < count
      ensures RowAt(out, n, count, q) == if q == r then row else RowAt(slab, n, count, q)
    {
      if q == r {
        RowAtBase(out, n, count, r, base);
        SpliceAgain(slab, base, row, row);
      } else {
        SpliceOtherRow(slab, n, count, r, base, row, q, RowBase(q, n));
      }
    }
  }

  lemma SpliceOtherRow(slab: seq<real>, n: nat, count: nat, r: nat, base: nat, row: seq<real>, q: nat, other: nat)
    requires |slab| == RowBase(count, n) && r < count && q < count && q != r && |row| == n
    requires base == RowBase(r, n) && other == RowBase(q, n) && base + n <= |slab|
    ensures RowAt(Splice(slab, base, row), n, count, q) == RowAt(slab, n, count, q)
  {
    RowInSlab(q, n, count);
    if q < r {
      RowInSlab(q, n, r);
    } else {
      RowInSlab(r, n, q);
    }
    SpliceElsewhere(slab, base, row, other, n);
    RowAtBase(slab, n, count, q, other);
    RowAtBase(Splice(slab, base, row), n, count, q, other);
  }

  lemma SpliceAgain(slab: seq<real>, base: nat, row: seq<real>, row': seq<real>)
    requires base + |row| <= |slab| && |row'| == |row|
    ensures Splice(Splice(slab, base, row), base, row') == Splice(slab, base, row')
    ensures Splice(slab, base, row)[base..base + |row|] == row
    ensures Splice(slab, base, slab[base..base + |row|]) == slab
  {
    SpliceAt(slab, base, row);
    SpliceAt(slab, base, row');
    SpliceAt(Splice(slab, base, row), base, row');
    SpliceAt(slab, base, slab[base..base + |row|]);
  }

  lemma SpliceElsewhere(slab: seq<real>, base: nat, row: seq<real>, other: nat, n: nat)
    requires base + |row| <= |slab| && other + n <= |slab| && (base + |row| <= other || other + n <= base)
    ensures Splice(slab, base, row)[other..other + n] == slab[other..other + n]
  {
    SpliceAt(slab, base, row);
  }

  /** Writing one cell of a row's stretch. */
  lemma SpliceCell(slab: seq<real>, base: nat, n: nat, i: nat, v: real)
    requires base + n <= |slab| && i < n
    ensures slab[base + i := v] == Splice(slab, base, slab[base..base + n][i := v])
  {
    SpliceAt(slab, base, slab[base..base + n][i := v]);
  }

  lemma SpliceStore(slab: seq<real>, base: nat, row: seq<real>, i: nat, v: real)
    requires base + |row| <= |slab| && i < |row|
    ensures Splice(slab, base, row)[base + i := v] == Splice(slab, base, row[i := v])
  {
    SpliceAt(slab, base, row);
    SpliceAt(slab, base, row[i := v]);
  }

  /** `sim_specs` that `sd_sim_reset` can turn into counts: no conversion of a negative number. */
  predicate SpecOk(spec: SimSpec) {
    spec.dt > 0.0 && spec.stop - spec.start >= -spec.dt && spec.savestep >= 0.0
  }

  /** `nsteps`. */
  function StepCount(spec: SimSpec): nat
    requires SpecOk(spec)
  {
    StepCountSign(spec.stop - spec.start, spec.dt);
    ((spec.stop - spec.start) / spec.dt + 1.0).Floor
  }

  lemma StepCountSign(a: real, b: real)
    requires b > 0.0 && a >= -b
    ensures a / b + 1.0 >= 0.0
  {
    P.DivideOrder(a, -1.0, b);
  }

  /** `save_every`. */
  function SaveInterval(spec: SimSpec): (n: nat)
    requires SpecOk(spec)
    ensures n > 0
  {
    P.QuotientSign(spec.savestep, spec.dt);
    var n := (spec.savestep / spec.dt + 0.5).Floor;
    if n > 1 then n else 1
  }

  /** A plan's counts are those of its specs. */
  predicate Counted(p: Plan) {
    && SpecOk(p.spec)
    && p.nsteps == StepCount(p.spec)
    && p.saveEvery == SaveInterval(p.spec)
    && p.nsaves == CeilDiv(p.nsteps, p.saveEvery)
  }

  /** Step `k` of a run exists exactly when its time is no later than the stop time. */
  lemma StepsUpToStop(spec: SimSpec, k: nat)
    requires SpecOk(spec)
    ensures k < StepCount(spec) <==> TimeAt(spec, k) <= spec.stop
  {
    var q := (spec.stop - spec.start) / spec.dt;
    StepCountSign(spec.stop - spec.start, spec.dt);
    assert k < (q + 1.0).Floor <==> k as real <= q;
    P.DivideInt(spec.stop - spec.start, k, spec.dt);
    if q < k as real {
      P.DivideOrder(spec.stop - spec.start, k as real, spec.dt);
    }
  }

  /** A run takes the steps up to the stop time, all of them and no other. */
  lemma TakesStepsUpToStop(p: Plan)
    requires Counted(p)
    ensures forall k: nat :: k < p.nsteps <==> TimeAt(p.spec, k) <= p.spec.stop
  {
    forall k: nat
      ensures k < p.nsteps <==> TimeAt(p.spec, k) <= p.spec.stop
    {
      StepsUpToStop(p.spec, k);
    }
  }

  /** The save interval is the whole number of steps, at least one, that is nearest to the save step. */
  lemma IntervalIsNearest(spec: SimSpec, n: nat)
    requires SpecOk(spec) && n > 0
    ensures n == SaveInterval(spec) <==>
              spec.savestep < P.Times(n, spec.dt) + spec.dt / 2.0
              && (n == 1 || P.Times(n, spec.dt) - spec.dt / 2.0 <= spec.savestep)
  {
    var q := spec.savestep / spec.dt;
    P.QuotientSign(spec.savestep, spec.dt);
    P.DivideOrder(spec.savestep, n as real + 0.5, spec.dt);
    P.DivideOrder(spec.savestep, n as real - 0.5, spec.dt);
    HalfStep(n, spec.dt);
    assert (q + 0.5).Floor <= n <==> q < n as real + 0.5;
    assert n <= (q + 0.5).Floor <==> n as real - 0.5 <= q;
  }

  lemma HalfStep(n: nat, dt: real)
    ensures (n as real + 0.5) * dt == P.Times(n, dt) + dt / 2.0
    ensures (n as real - 0.5) * dt == P.Times(n, dt) - dt / 2.0
  {
  }

  /** A row is kept for each multiple of the interval that is the number of a step. */
  lemma RowsAreMultiples(p: Plan, j: nat)
    requires p.saveEvery > 0 && p.nsaves == CeilDiv(p.nsteps, p.saveEvery)
    ensures j < p.nsaves <==> j * p.saveEvery < p.nsteps
  {
    E.SavedSteps(p.nsteps, p.saveEvery, j);
    if j * p.saveEvery < p.nsteps {
      CeilDivAt(j * p.saveEvery, p.saveEvery, j, 0);
      CeilDivNext(j * p.saveEvery, p.saveEvery);
      CeilDivMonotone(j * p.saveEvery + 1, p.nsteps, p.saveEvery);
    }
  }

  /** The steps of a run end by the stop time, so `sd_sim_run_to_end` is never cut short. */
  lemma StepsEndByStop(p: Plan)
    requires Counted(p) && p.nsteps > 0
    ensures E.InTime(p, 0, p.spec.stop + 1.0)
  {
    forall k | 0 <= k < p.nsteps
      ensures TimeAt(p.spec, k) <= p.spec.stop + 1.0
    {
      StepsUpToStop(p.spec, k);
    }
  }

  /** A pass over the row at `data`, and one that reads the row at `curr` and writes the one at `data`. */
  function SlabPass(m: Model, dt: real, l: seq<nat>, slab: seq<real>, data: nat): (out: seq<real>)
    requires m.Runnable() && dt > 0.0 && S.Below(l, |m.vars|) && data + |m.vars| <= |slab|
    ensures |out| == |slab|
  {
    Splice(slab, data, Pass(m, dt, l, slab[data..data + |m.vars|]))
  }

  function SlabStocks(m: Model, dt: real, l: seq<nat>, slab: seq<real>, curr: nat, data: nat): (out: seq<real>)
    requires m.Runnable() && dt > 0.0 && AllStored(m, l)
    requires l != [] ==> curr + |m.vars| <= data && data + |m.vars| <= |slab|
    ensures |out| == |slab|
  {
    if l == [] then slab
    else
      var i := l[|l| - 1];
      SlabStocks(m, dt, l[..|l| - 1], slab, curr, data)[data + i := StoredValue(m, dt, i, slab[curr..curr + |m.vars|])]
  }

  /** It overwrites the row at `data` with what the stock pass makes of it. */
  lemma {:induction false} StocksSplice(m: Model, dt: real, l: seq<nat>, slab: seq<real>, curr: nat, data: nat, row: seq<real>, ahead: seq<real>)
    requires m.Runnable() && dt > 0.0 && AllStored(m, l) && curr + |m.vars| <= data && data + |m.vars| <= |slab|
    requires row == slab[curr..curr + |m.vars|] && ahead == slab[data..data + |m.vars|]
    ensures SlabStocks(m, dt, l, slab, curr, data) == Splice(slab, data, StockPass(m, dt, l, row, ahead))
  {
    hide StoredValue, RowBase;
    if l == [] {
      SpliceAgain(slab, data, ahead, ahead);
    } else {
      var i, front := l[|l| - 1], l[..|l| - 1];
      StocksSplice(m, dt, front, slab, curr, data, row, ahead);
      SpliceStore(slab, data, StockPass(m, dt, front, row, ahead), i, StoredValue(m, dt, i, row));
    }
  }

  /** One more stock, read from the row at `curr` as it was. */
  lemma SlabStocksNext(m: Model, dt: real, l: seq<nat>, i: nat, slab: seq<real>, curr: nat, data: nat)
    requires m.Runnable() && dt > 0.0 && AllStored(m, l) && i < |l| && curr + |m.vars| <= data && data + |m.vars| <= |slab|
    ensures SlabStocks(m, dt, l[..i], slab, curr, data)[curr..curr + |m.vars|] == slab[curr..curr + |m.vars|]
    ensures SlabStocks(m, dt, l[..i + 1], slab, curr, data)
         == SlabStocks(m, dt, l[..i], slab, curr, data)[data + l[i] := StoredValue(m, dt, l[i], slab[curr..curr + |m.vars|])]
  {
    hide StoredValue;
    var row, ahead := slab[curr..curr + |m.vars|], slab[data..data + |m.vars|];
    StocksSplice(m, dt, l[..i], slab, curr, data, row, ahead);
    SpliceElsewhere(slab, data, StockPass(m, dt, l[..i], row, ahead), curr, |m.vars|);
    assert l[..i + 1][..i] == l[..i];
  }

  /** Where the rows of a turn are, and what may be run over them. */
  lemma TurnRows(p: Plan, s: State)
    requires p.Valid() && ValidState(p, s)
    ensures S.Below(p.flows, |p.m.vars|) && AllStored(p.m, p.stocks)
    ensures var n := |p.m.vars|;
      && RowBase(s.saveStep, n) + n == RowBase(s.saveStep + 1, n) <= RowBase(p.nsaves + 1, n)
      && (s.saveStep < p.nsaves ==> RowBase(s.saveStep + 1, n) + n <= RowBase(p.nsaves + 1, n))
  {
    KeepLists(p);
    RowInSlab(s.saveStep, |p.m.vars|, p.nsaves + 1);
    if s.saveStep < p.nsaves {
      RowInSlab(s.saveStep + 1, |p.m.vars|, p.nsaves + 1);
    }
  }

  /** A slab that holds the rows of a state. */
  ghost predicate Held(p: Plan, s: State, slab: seq<real>)
    requires p.saveEvery > 0
  {
    ValidState(p, s) && |slab| == RowBase(p.nsaves + 1, |p.m.vars|) && s.rows == RowsOf(slab, |p.m.vars|, p.nsaves + 1)
  }

  lemma HeldRow(p: Plan, s: State, slab: seq<real>, r: nat, base: nat)
    requires p.saveEvery > 0 && Held(p, s, slab) && r <= p.nsaves
    requires base == RowBase(r, |p.m.vars|) && base + |p.m.vars| <= |slab|
    ensures s.rows[r] == slab[base..base + |p.m.vars|]
  {
  }

  /** What `calc` writes. */
  lemma TurnCalc(p: Plan, s: State, curr: nat, before: seq<real>)
    requires p.Valid() && Held(p, s, before) && s.step < p.nsteps && p.TurnFits(s.step) && S.Below(p.flows, |p.m.vars|)
    requires curr == RowBase(s.saveStep, |p.m.vars|) && curr + |p.m.vars| <= |before|
    ensures SlabPass(p.m, p.spec.dt, p.flows, before, curr) == Splice(before, curr, CurrentRow(p, Settle(p, s)))
  {
    hide Pass, RowBase, Splice;
    SettledRow(p, s);
    HeldRow(p, s, before, s.saveStep, curr);
  }

  /** The two rows when the first has been replaced. */
  lemma BothRows(slab: seq<real>, n: nat, curr: nat, next: nat, row: seq<real>, between: seq<real>)
    requires |row| == n && curr + n <= next && next + n <= |slab| && between == Splice(slab, curr, row)
    ensures between[curr..curr + n] == row && between[next..next + n] == slab[next..next + n]
  {
    SpliceAgain(slab, curr, row, row);
    SpliceElsewhere(slab, curr, row, next, n);
  }

  /** What `calc_stocks` writes after it. */
  lemma TurnStocks(p: Plan, s: State, curr: nat, next: nat, before: seq<real>, between: seq<real>)
    requires p.Valid() && Held(p, s, before) && s.step < p.nsteps && s.saveStep < p.nsaves && AllStored(p.m, p.stocks)
    requires next == RowBase(s.saveStep + 1, |p.m.vars|) == curr + |p.m.vars| && next + |p.m.vars| <= |before|
    requires between == Splice(before, curr, CurrentRow(p, Settle(p, s)))
    ensures SlabStocks(p.m, p.spec.dt, p.stocks, between, curr, next) == Splice(between, next, AheadRow(p, Settle(p, s)))
  {
    hide StockPass, SlabStocks, RowBase, Splice;
    HeldRow(p, s, before, s.saveStep + 1, next);
    SettledAhead(p, s);
    BothRows(before, |p.m.vars|, curr, next, CurrentRow(p, Settle(p, s)), between);
    StocksSplice(p.m, p.spec.dt, p.stocks, between, curr, next, CurrentRow(p, Settle(p, s)), AheadRow(p, s));
  }

  /** The slab after the two calls of a turn. */
  lemma SettleSlab(p: Plan, s: State, curr: nat, next: nat, before: seq<real>, between: seq<real>, after: seq<real>)
    requires p.Valid() && Held(p, s, before) && s.step < p.nsteps && p.TurnFits(s.step)
    requires S.Below(p.flows, |p.m.vars|) && AllStored(p.m, p.stocks)
    requires curr == RowBase(s.saveStep, |p.m.vars|) && next == RowBase(s.saveStep + 1, |p.m.vars|) == curr + |p.m.vars|
    requires curr + |p.m.vars| <= |before| && (s.saveStep < p.nsaves ==> next + |p.m.vars| <= |before|)
    requires between == SlabPass(p.m, p.spec.dt, p.flows, before, curr)
    requires after == SlabStocks(p.m, p.spec.dt, p.stocks, between, curr, next)
    ensures Held(p, Settle(p, s), after)
  {
    hide Pass, StockPass, StoredValue, Splice;
    TurnCalc(p, s, curr, before);
    if s.saveStep < p.nsaves {
      TurnStocks(p, s, curr, next, before, between);
      SettleRows(p, s, curr, next, before);
    } else {
      SpliceRow(before, |p.m.vars|, p.nsaves + 1, s.saveStep, curr, CurrentRow(p, Settle(p, s)));
      SettledLast(p, s);
    }
  }

  lemma SettleRows(p: Plan, s: State, curr: nat, next: nat, before: seq<real>)
    requires p.Valid() && Held(p, s, before) && s.step < p.nsteps && s.saveStep < p.nsaves
    requires curr == RowBase(s.saveStep, |p.m.vars|) && next == RowBase(s.saveStep + 1, |p.m.vars|) == curr + |p.m.vars|
    requires next + |p.m.vars| <= |before|
    ensures Held(p, Settle(p, s), Splice(Splice(before, curr, CurrentRow(p, Settle(p, s))), next, AheadRow(p, Settle(p, s))))
  {
    hide Pass, StockPass, Splice;
    var row, ahead := CurrentRow(p, Settle(p, s)), AheadRow(p, Settle(p, s));
    SpliceRow(before, |p.m.vars|, p.nsaves + 1, s.saveStep, curr, row);
    SpliceRow(Splice(before, curr, row), |p.m.vars|, p.nsaves + 1, s.saveStep + 1, next, ahead);
    SettledRows(p, s);
  }

  /** The fresh slab, its first row evaluated. */
  lemma ResetSlab(p: Plan, zeros: seq<real>, started: seq<real>, after: seq<real>)
    requires p.Valid()
    requires var n, count := |p.m.vars|, p.nsaves + 1;
      && |zeros| == RowBase(count, n) && n <= |zeros| && (forall i :: 0 <= i < |zeros| ==> zeros[i] == 0.0)
      && started == Splice(zeros, 0, zeros[..n][TIME := p.spec.start])
      && S.Below(p.initials, n)
      && after == SlabPass(p.m, p.spec.dt, p.initials, started, 0)
    ensures Held(p, Reset(p), after)
  {
    var n, count := |p.m.vars|, p.nsaves + 1;
    var row := zeros[..n][TIME := p.spec.start];
    var first := Pass(p.m, p.spec.dt, p.initials, row);
    assert zeros[..n] == seq(n, _ => 0.0);
    SpliceAgain(zeros, 0, row, first);
    BlankRows(zeros, n, count);
    SpliceRow(zeros, n, count, 0, 0, first);
  }

  lemma BlankRows(zeros: seq<real>, n: nat, count: nat)
    requires |zeros| == RowBase(count, n) && forall i :: 0 <= i < |zeros| ==> zeros[i] == 0.0
    ensures RowsOf(zeros, n, count) == seq(count, _ => seq(n, _ => 0.0))
  {
    forall r | 0 <= r < count
      ensures RowAt(zeros, n, count, r) == seq(n, _ => 0.0)
    {
      RowInSlab(r, n, count);
      RowAtBase(zeros, n, count, r, RowBase(r, n));
    }
  }

  /** The slab after the rest of a turn. */
  lemma AdvanceSlab(p: Plan, s: State, curr: nat, next: nat, before: seq<real>, between: seq<real>, after: seq<real>, saveStep: nat)
    requires p.Valid() && Held(p, s, before) && s.step + 1 < p.nsteps && p.TurnFits(s.step)
    requires curr == RowBase(s.saveStep, |p.m.vars|) && next == RowBase(s.saveStep + 1, |p.m.vars|)
    requires curr + |p.m.vars| <= |before| && next + |p.m.vars| <= |before|
    requires between == Splice(before, next, before[next..next + |p.m.vars|][TIME := TimeAt(p.spec, s.step + 1)])
    requires after == if s.step % p.saveEvery != 0 then Splice(between, curr, between[next..next + |p.m.vars|]) else between
    requires saveStep == if s.step % p.saveEvery != 0 then s.saveStep else s.saveStep + 1
    ensures |after| == |before| && State(RowsOf(after, |p.m.vars|, p.nsaves + 1), s.step + 1, saveStep) == Advance(p, s)
  {
    hide Pass, StockPass, Splice;
    var n, count := |p.m.vars|, p.nsaves + 1;
    HeldRow(p, s, before, s.saveStep + 1, next);
    var row := AheadRow(p, s)[TIME := TimeAt(p.spec, s.step + 1)];
    SpliceRow(before, n, count, s.saveStep + 1, next, row);
    SpliceAgain(before, next, row, row);
    if s.step % p.saveEvery != 0 {
      SpliceRow(between, n, count, s.saveStep, curr, row);
    }
  }

  class Sim {
    const p: Plan
    var slab: array<real>
    var curr: nat
    var next: nat
    var step: nat
    var saveStep: nat

    /** `nvars`. */
    function Nvars(): nat {
      |p.m.vars|
    }

    ghost predicate Valid()
      reads this, slab
    {
      p.Valid() && Counted(p) && Sound()
    }

    /** The part of it that changes. */
    ghost predicate Sound()
      requires p.Valid()
      reads this, slab
    {
      slab.Length == RowBase(p.nsaves + 1, Nvars()) && ValidState(p, Abstract())
    }

    /** The slab by rows, and the counters. */
    ghost function Abstract(): State
      requires slab.Length == RowBase(p.nsaves + 1, Nvars())
      reads this, slab
    {
      State(RowsOf(slab[..], Nvars(), p.nsaves + 1), step, saveStep)
    }

    /** The end of `sd_sim_new`: a context on a sorted model, reset. */
    constructor (p: Plan)
      requires p.Valid() && Counted(p)
      ensures this.p == p && Valid() && fresh(slab) && Abstract() == Reset(p)
    {
      this.p := p;
      slab := new real[0];
      curr, next, step, saveStep := 0, 0, 0, 0;
      new;
      DoReset();
    }

    /** `sd_sim_reset`. */
    method DoReset()
      requires p.Valid() && Counted(p)
      modifies this
      ensures Sound() && fresh(slab) && Abstract() == Reset(p)
    {
      hide Pass, Splice;
      step, saveStep := 0, 0;
      var n := Nvars();
      RowInSlab(0, n, p.nsaves + 1);
      slab := new real[RowBase(p.nsaves + 1, n)](_ => 0.0);
      curr, next := 0, 0;
      ghost var zeros := slab[..];
      SetTime(curr, p.spec.start);
      ghost var started := slab[..];
      KeepLists(p);
      Calc(curr, p.initials);
      ResetSlab(p, zeros, started, slab[..]);
    }

    /** One value written into the row at `data`. */
    method Store(data: nat, av: nat, v: real, ghost before: seq<real>, ghost row: seq<real>)
      requires data + Nvars() <= slab.Length == |before| && |row| == Nvars() && av < Nvars()
      requires slab[..] == Splice(before, data, row)
      modifies slab
      ensures slab[..] == Splice(before, data, row[av := v])
    {
      SpliceStore(before, data, row, av, v);
      slab[data + av] := v;
    }

    /** `calc` on the row at `data`, which is the current row. */
    method Calc(data: nat, l: seq<nat>)
      requires p.m.Runnable() && p.spec.dt > 0.0 && data + Nvars() <= slab.Length && S.Below(l, Nvars())
      modifies slab
      ensures slab[..] == SlabPass(p.m, p.spec.dt, l, old(slab[..]), data)
    {
      var n := Nvars();
      ghost var before, row := slab[..], slab[..][data..data + n];
      SpliceAgain(before, data, row, row);
      var i := 0;
      while i < |l|
        invariant 0 <= i <= |l|
        invariant slab[..] == Splice(before, data, Pass(p.m, p.spec.dt, l[..i], row))
      {
        CalcOne(data, l[i], before, Pass(p.m, p.spec.dt, l[..i], row));
        PassNext(p.m, p.spec.dt, l, row, i);
        i := i + 1;
      }
      assert l[..|l|] == l;
    }

    /** One round of `calc`. */
    method CalcOne(data: nat, av: nat, ghost before: seq<real>, ghost row: seq<real>)
      requires p.m.Runnable() && p.spec.dt > 0.0 && data + Nvars() <= slab.Length == |before| && |row| == Nvars() && av < Nvars()
      requires slab[..] == Splice(before, data, row)
      modifies slab
      ensures slab[..] == Splice(before, data, Settled(p.m, p.spec.dt, av, row))
    {
      if !p.m.vars[av].node.Null? {
        OnlyTimeIsNull(p.m, av);
        SpliceAgain(before, data, row, row);
        assert slab[data..data + Nvars()] == row;
        var v := p.m.Equation(av, slab[data..data + Nvars()], p.spec.dt);
        Store(data, av, v, before, row);
      }
    }

    /** `calc_stocks` from the row at `curr` into the row at `data`, which an empty list leaves alone. */
    method CalcStocks(data: nat, l: seq<nat>)
      requires p.m.Runnable() && p.spec.dt > 0.0 && AllStored(p.m, l)
      requires l != [] ==> curr + Nvars() <= data && data + Nvars() <= slab.Length
      modifies slab
      ensures slab[..] == SlabStocks(p.m, p.spec.dt, l, old(slab[..]), curr, data)
    {
      hide StoredValue, Splice;
      ghost var before := slab[..];
      var i := 0;
      while i < |l|
        invariant 0 <= i <= |l|
        invariant slab[..] == SlabStocks(p.m, p.spec.dt, l[..i], before, curr, data)
      {
        SlabStocksNext(p.m, p.spec.dt, l, i, before, curr, data);
        CalcOneStock(data, l[i], before[curr..curr + |p.m.vars|]);
        i := i + 1;
      }
      assert l[..|l|] == l;
    }

    /** One round of `calc_stocks`. */
    method CalcOneStock(data: nat, av: nat, ghost row: seq<real>)
      requires p.m.Runnable() && p.spec.dt > 0.0 && av < Nvars() && p.m.IsStored(av)
      requires curr + Nvars() <= data && data + Nvars() <= slab.Length && slab[..][curr..curr + Nvars()] == row
      modifies slab
      ensures slab[..] == old(slab[..])[data + av := StoredValue(p.m, p.spec.dt, av, row)]
    {
      assert slab[curr..curr + Nvars()] == row;
      slab[data + av] := StoredValue(p.m, p.spec.dt, av, slab[curr..curr + Nvars()]);
    }

    /** The pointers at the top of the loop of `sd_sim_run_to`. */
    ghost predicate AtRows()
      reads this
    {
      curr == RowBase(saveStep, Nvars()) && next == RowBase(saveStep + 1, Nvars())
    }

    /** The two calls of the loop of `sd_sim_run_to`: flows on the current row, stocks on the next. */
    method DoSettle()
      requires Valid() && AtRows() && step < p.nsteps && p.TurnFits(step)
      modifies slab
      ensures Sound() && Abstract() == Settle(p, old(Abstract()))
    {
      hide Pass, StockPass, StoredValue, Splice;
      ghost var s, before := Abstract(), slab[..];
      TurnRows(p, s);
      Calc(curr, p.flows);
      ghost var between := slab[..];
      CalcStocks(next, p.stocks);
      SettleSlab(p, s, curr, next, before, between, slab[..]);
    }

    /** The rest of the loop: time moves on, and the next row replaces the current one or follows it. */
    method DoAdvance()
      requires Valid() && AtRows() && step + 1 < p.nsteps && p.TurnFits(step)
      modifies this`curr, this`next, this`step, this`saveStep, slab
      ensures Sound() && AtRows() && Abstract() == Advance(p, old(Abstract()))
    {
      hide Pass, StockPass, Splice;
      ghost var s, before := Abstract(), slab[..];
      TurnRows(p, s);
      SetTime(next, TimeAt(p.spec, step + 1));
      Shift(s, before);
    }

    /** The last statement of the loop, after `next[TIME]` has been set on the slab `before` of the state `s`. */
    method Shift(ghost s: State, ghost before: seq<real>)
      requires p.Valid() && Held(p, s, before) && s.step + 1 < p.nsteps && p.TurnFits(s.step)
      requires step == s.step && saveStep == s.saveStep && AtRows()
      requires curr + Nvars() == next && next + Nvars() <= slab.Length == |before|
      requires slab[..] == Splice(before, next, before[next..next + Nvars()][TIME := TimeAt(p.spec, step + 1)])
      modifies this`curr, this`next, this`step, this`saveStep, slab
      ensures AtRows() && slab.Length == |before|
      ensures State(RowsOf(slab[..], Nvars(), p.nsaves + 1), step, saveStep) == Advance(p, s)
    {
      hide Splice;
      ghost var between := slab[..];
      step := step + 1;
      if (step - 1) % p.saveEvery != 0 {
        CopyRow(next, curr);
      } else {
        saveStep := saveStep + 1;
        curr, next := RowBase(saveStep, Nvars()), RowBase(saveStep + 1, Nvars());
      }
      AdvanceSlab(p, s, old(curr), old(next), before, between, slab[..], saveStep);
    }

    /** The time written into the row at `data`. */
    method SetTime(data: nat, time: real)
      requires 0 < Nvars() && data + Nvars() <= slab.Length
      modifies slab
      ensures slab[..] == Splice(old(slab[..]), data, old(slab[..])[data..data + Nvars()][TIME := time])
    {
      SpliceCell(slab[..], data, Nvars(), TIME, time);
      slab[data + TIME] := time;
    }

    /** `memcpy` of one row over an earlier one. */
    method CopyRow(from: nat, to: nat)
      requires to + Nvars() <= from && from + Nvars() <= slab.Length
      modifies slab
      ensures slab[..] == Splice(old(slab[..]), to, old(slab[..])[from..from + Nvars()])
    {
      SpliceAt(slab[..], to, slab[from..from + Nvars()]);
      forall i | 0 <= i < Nvars() {
        slab[to + i] := slab[from + i];
      }
    }

    /** `sd_sim_run_to`, where it stays in the slab. */
    method DoRunTo(end: real)
      requires Valid() && RunTo(p, Abstract(), end).Some?
      modifies this`curr, this`next, this`step, this`saveStep, slab
      ensures Valid() && Some(Abstract()) == RunTo(p, old(Abstract()), end)
    {
      curr, next := RowBase(saveStep, Nvars()), RowBase(saveStep + 1, Nvars());
      while step < p.nsteps && CurrentTime() <= end
        invariant Valid() && AtRows()
        invariant RunTo(p, Abstract(), end) == RunTo(p, old(Abstract()), end)
        decreases p.nsteps - step
      {
        DoSettle();
        if step + 1 == p.nsteps {
          break;
        }
        DoAdvance();
      }
    }

    /** `s->curr[TIME]`. */
    function CurrentTime(): (time: real)
      requires Valid() && AtRows()
      ensures time == CurrentRow(p, Abstract())[TIME]
      reads this, slab
    {
      RowInSlab(saveStep, Nvars(), p.nsaves + 1);
      slab[curr + TIME]
    }

    /**
     * `sd_sim_run_to_end`, from a reset context: it ends at the last step up to the stop time, and the slab then holds
     * the Euler solution, every save_every-th step.
     */
    method DoRunToEnd()
      requires Valid() && p.Fits() && p.nsteps > 0 && Abstract() == Reset(p)
      modifies this`curr, this`next, this`step, this`saveStep, slab
      ensures Valid() && Some(Abstract()) == RunTo(p, Reset(p), p.spec.stop + 1.0)
      ensures TimeAt(p.spec, step) <= p.spec.stop < TimeAt(p.spec, step + 1)
      ensures E.SavesSolution(p, Abstract()) <==> PlainConsts(p.m) || p.nsteps == 1
    {
      StepsEndByStop(p);
      TakesStepsUpToStop(p);
      ResetIsOnTime(p);
      FitsStaysInSlab(p, Reset(p), p.spec.stop + 1.0);
      E.RunReachesEnd(p, Reset(p), p.spec.stop + 1.0);
      E.RefinementIsExact(p, p.spec.stop + 1.0);
      DoRunTo(p.spec.stop + 1.0);
    }
  }

  /**
   * What `sd_sim_new` needs of a model's equations beyond what it checks: known names and functions, and no second
   * `time` without an equation.
   */
  ghost predicate Loadable(m: Model) {
    && |m.vars| > 0 && m.vars[TIME] == TIME_VAR
    && forall i :: 1 <= i < |m.vars| ==>
         (Complete(m.vars[i].node) ==> Linked(m.rt, m.Names(), m.vars[i].node))
         && (m.vars[i].gf.Some? ==> T.Valid(m.vars[i].gf.value))
         && (m.vars[i].node.Null? ==> m.vars[i].name != "time")
  }

  /** `avar_init` succeeds: there is an equation without holes, and every flow of a stock exists. */
  predicate Compiles(m: Model, i: nat)
    requires i < |m.vars|
  {
    Complete(m.vars[i].node) && m.FlowsResolve(m.vars[i].inflows) && m.FlowsResolve(m.vars[i].outflows)
  }

  /** Some equation has a hole, so that the walk over it reads through a null pointer. */
  ghost predicate SomeHole(m: Model) {
    exists i :: 1 <= i < |m.vars| && HasHole(m.vars[i].node)
  }

  ghost predicate AllCompile(m: Model) {
    forall i :: 1 <= i < |m.vars| ==> Compiles(m, i)
  }

  /** `avar_init` of a variable other than time: its direct dependencies, or None when it does not compile. */
  method Init(m: Model, i: nat) returns (deps: Exit<Option<seq<nat>>>)
    requires Loadable(m) && 1 <= i < |m.vars|
    ensures deps.NullRead? <==> HasHole(m.vars[i].node)
    ensures deps.Returned? ==> deps.value == if Compiles(m, i) then Some(m.DirectDeps(i)) else None
  {
    var walker := new AVarWalker(m.rt, m.Names());
    var walk := walker.NodeWalk(m.vars[i].node);
    if walk.NullRead? {
      return NullRead;
    }
    if walk.value && m.FlowsResolve(m.vars[i].inflows) && m.FlowsResolve(m.vars[i].outflows) {
      assert [] + m.DirectDeps(i) == m.DirectDeps(i);
      return Returned(Some(walker.directDeps));
    }
    return Returned(None);
  }

  /** `module_compile`: the direct dependencies of every variable, or None when some variable does not compile. */
  method Compile(m: Model) returns (deps: Exit<Option<seq<seq<nat>>>>)
    requires Loadable(m)
    ensures deps.NullRead? <==> SomeHole(m)
    ensures deps.Returned? ==> (deps.value.Some? <==> AllCompile(m))
    ensures deps.Returned? && deps.value.Some? ==> m.Runnable() && deps.value.value == GraphOf(m).deps
  {
    var failed := 0;
    var all: seq<seq<nat>> := [[]];
    var i := 1;
    while i < |m.vars|
      invariant 1 <= i <= |m.vars| && failed >= 0
      invariant forall j :: 1 <= j < i ==> !HasHole(m.vars[j].node)
      invariant failed == 0 <==> forall j :: 1 <= j < i ==> Compiles(m, j)
      invariant failed == 0 ==> |all| == i && forall j :: 0 <= j < i ==> all[j] == m.DirectDeps(j)
    {
      var one := Init(m, i);
      if one.NullRead? {
        return NullRead;
      }
      if one.value.Some? {
        all := all + [one.value.value];
      } else {
        failed := failed + 1;
      }
      i := i + 1;
    }
    if failed > 0 {
      return Returned(None);
    }
    forall j | 1 <= j < |m.vars|
      ensures m.RunnableVar(m.vars[j])
    {
      assert Compiles(m, j);
    }
    return Returned(Some(all));
  }

  /** The equation of a variable mentions the name of another, or its own. */
  ghost predicate DependsOn(m: Model, i: nat, d: nat)
    requires i < |m.vars|
  {
    D.MentionsSlot(m.rt, m.Names(), m.vars[i].node, d)
  }

  /** Each variable's equation mentions the one that follows it, round to the first one. */
  ghost predicate IsRound(m: Model, p: seq<nat>) {
    && |p| > 1 && p[0] == p[|p| - 1]
    && forall k :: 0 <= k < |p| - 1 ==> p[k] < |m.vars| && DependsOn(m, p[k], p[k + 1])
  }

  ghost predicate CircularEquations(m: Model) {
    exists p :: IsRound(m, p)
  }

  /** The cycles of the graph that is sorted are those of the equations. */
  lemma CyclesAreMentioned(m: Model)
    ensures S.HasCycle(GraphOf(m)) <==> CircularEquations(m)
  {
    var g := GraphOf(m);
    forall p: seq<nat>
      ensures |p| > 1 && S.IsChain(g, p) && p[0] == p[|p| - 1] <==> IsRound(m, p)
    {
      RoundIsChain(m, p);
    }
  }

  lemma RoundIsChain(m: Model, p: seq<nat>)
    ensures |p| > 1 && S.IsChain(GraphOf(m), p) && p[0] == p[|p| - 1] <==> IsRound(m, p)
  {
    var g := GraphOf(m);
    if |p| > 1 && p[0] == p[|p| - 1] {
      forall k | 0 <= k < |p| - 1 && p[k] < |m.vars|
        ensures p[k + 1] in g.deps[p[k]] <==> DependsOn(m, p[k], p[k + 1])
      {
        D.DepsAreMentioned(m.rt, m.Names(), m.vars[p[k]].node, p[k + 1]);
      }
    }
  }

  /** `sd_sim_new`: compile, sort, count, reset. */
  method New(m: Model, spec: SimSpec) returns (r: Exit<Result<Sim>>)
    requires Loadable(m) && SpecOk(spec)
    ensures r.NullRead? <==> SomeHole(m)
    ensures r == Returned(Err(Unspecified)) <==> !SomeHole(m) && !AllCompile(m)
    ensures r == Returned(Err(Circular)) <==> AllCompile(m) && CircularEquations(m)
    ensures r.Returned? ==> r.value.Ok? || r.value == Err(Unspecified) || r.value == Err(Circular)
    ensures r.Returned? && r.value.Ok? ==>
      var sim := r.value.value;
      fresh(sim) && sim.p.m == m && sim.p.spec == spec && sim.Valid() && sim.Abstract() == Reset(sim.p)
  {
    HolesDoNotCompile(m);
    CyclesAreMentioned(m);
    var deps := Compile(m);
    if deps.NullRead? {
      return NullRead;
    }
    if deps.value.None? {
      return Returned(Err(Unspecified));
    }
    var g := GraphOf(m);
    var module_ := new S.Module(g);
    var err := module_.SortRunlists();
    if err.Some? {
      return Returned(Err(err.value));
    }
    var nsteps, saveEvery := StepCount(spec), SaveInterval(spec);
    var p := Plan(m, spec, module_.initials, module_.flows, module_.stocks, nsteps, saveEvery, CeilDiv(nsteps, saveEvery));
    var sim := new Sim(p);
    return Returned(Ok(sim));
  }

  lemma HolesDoNotCompile(m: Model)
    ensures SomeHole(m) ==> !AllCompile(m)
  {
    if SomeHole(m) {
      var i :| 1 <= i < |m.vars| && HasHole(m.vars[i].node);
      assert !Compiles(m, i);
    }
  }

  /** A save step no longer than a step and a half saves every step, and then the slab always has room. */
  lemma EveryStepSavedFits(p: Plan)
    requires Counted(p) && p.spec.savestep < 1.5 * p.spec.dt
    ensures p.saveEvery == 1 && p.Fits() && p.nsaves == p.nsteps
  {
    P.DivideOrder(p.spec.savestep, 1.5, p.spec.dt);
  }
}
