/** Graphical functions: `lookup` of util.c, a clamped piecewise-linear interpolation. */
module Table {
  import P = Pulse

  datatype Table = Table(x: seq<real>, y: seq<real>)

  /** A table's two arrays share one length. */
  predicate Valid(t: Table) {
    |t.x| == |t.y|
  }

  predicate Increasing(x: seq<real>) {
    forall i, j :: 0 <= i < j < |x| ==> x[i] < x[j]
  }

  /** The middle of a range. */
  function Mid(low: nat, high: nat): (mid: nat)
    requires low < high
    ensures low <= mid < high
  {
    low + (high - low) / 2
  }

  /** Everything before `low` is known to be below the index, or nothing is, and `high` is known not to be. */
  predicate Brackets(x: seq<real>, index: real, low: nat, high: nat) {
    && low <= high <= |x|
    && (low > 0 ==> x[low - 1] < index)
    && (high < |x| ==> index <= x[high])
  }

  /** The index the bisection converges to, on any array, sorted or not. */
  function Bisect(x: seq<real>, index: real, low: nat, high: nat): (i: nat)
    requires Brackets(x, index, low, high)
    ensures low <= i <= high && Brackets(x, index, i, i)
    decreases high - low
  {
    if low == high then low
    else
      var mid := Mid(low, high);
      if x[mid] < index then Bisect(x, index, mid + 1, high) else Bisect(x, index, low, mid)
  }

  /** The height at `index` of the line through (x0, y0) and (x1, y1), by its slope. */
  function Chord(x0: real, y0: real, x1: real, y1: real, index: real): real
    requires x0 < x1
  {
    var slope := (y1 - y0) / (x1 - x0);
    (index - x0) * slope + y0
  }

  /** The value of a table at an index. */
  function Lookup(t: Table, index: real): real
    requires Valid(t)
  {
    if |t.x| == 0 then 0.0
    else if index < t.x[0] then t.y[0]
    else if index > t.x[|t.x| - 1] then t.y[|t.x| - 1]
    else
      var i := Bisect(t.x, index, 0, |t.x|);
      assert i < |t.x|;
      if t.x[i] == index then t.y[i] else Chord(t.x[i - 1], t.y[i - 1], t.x[i], t.y[i], index)
  }

  /** One turn of the bisection loop. */
  lemma BisectNext(x: seq<real>, index: real, low: nat, high: nat)
    requires Brackets(x, index, low, high) && low < high
    ensures x[Mid(low, high)] < index ==>
              Brackets(x, index, Mid(low, high) + 1, high) && Bisect(x, index, low, high) == Bisect(x, index, Mid(low, high) + 1, high)
    ensures x[Mid(low, high)] >= index ==>
              Brackets(x, index, low, Mid(low, high)) && Bisect(x, index, low, high) == Bisect(x, index, low, Mid(low, high))
  {
  }

  /** The bisection loop of util.c, on any array, sorted or not. */
  method Search(x: seq<real>, index: real) returns (i: nat)
    ensures i == Bisect(x, index, 0, |x|)
  {
    var low: nat, high: nat := 0, |x|;
    while low < high
      invariant Brackets(x, index, low, high)
      invariant Bisect(x, index, low, high) == Bisect(x, index, 0, |x|)
    {
      var mid := Mid(low, high);
      BisectNext(x, index, low, high);
      if x[mid] < index {
        low := mid + 1;
      } else {
        high := mid;
      }
    }
    return low;
  }

  /** The value of a table at an index, by that loop: no access is out of range, no divisor is zero. */
  method LookupAt(t: Table, index: real) returns (v: real)
    requires Valid(t)
    ensures v == Lookup(t, index)
  {
    var len := |t.x|;
    if len == 0 {
      return 0.0;
    }
    if index < t.x[0] {
      return t.y[0];
    } else if index > t.x[len - 1] {
      return t.y[len - 1];
    }
    var i := Search(t.x, index);
    if t.x[i] == index {
      return t.y[i];
    }
    return Chord(t.x[i - 1], t.y[i - 1], t.x[i], t.y[i], index);
  }

  /** On increasing knots the search finds the first knot at or beyond the index. */
  lemma BisectIsFirst(x: seq<real>, index: real, i: nat)
    requires Increasing(x) && i <= |x|
    requires forall j :: 0 <= j < i ==> x[j] < index
    requires i < |x| ==> index <= x[i]
    ensures Bisect(x, index, 0, |x|) == i
  {
    var b := Bisect(x, index, 0, |x|);
    assert b < |x| ==> index <= x[b];
    assert forall j :: 0 <= j < b ==> x[j] < index;
  }

  /** Every knot is hit. */
  lemma HitsKnots(t: Table, k: nat)
    requires Valid(t) && Increasing(t.x) && k < |t.x|
    ensures Lookup(t, t.x[k]) == t.y[k]
  {
    BisectIsFirst(t.x, t.x[k], k);
  }

  /** Outside the knots the table is constant. */
  lemma Clamps(t: Table, index: real)
    requires Valid(t) && Increasing(t.x) && |t.x| > 0
    ensures index <= t.x[0] ==> Lookup(t, index) == t.y[0]
    ensures index >= t.x[|t.x| - 1] ==> Lookup(t, index) == t.y[|t.x| - 1]
  {
    var last := |t.x| - 1;
    assert t.x[0] <= t.x[last];
    if index == t.x[0] {
      HitsKnots(t, 0);
    }
    if index == t.x[last] {
      HitsKnots(t, last);
    }
  }

  /** The line passes through both of its points. */
  lemma ChordEnds(x0: real, y0: real, x1: real, y1: real)
    requires x0 < x1
    ensures Chord(x0, y0, x1, y1, x0) == y0
    ensures Chord(x0, y0, x1, y1, x1) == y1
  {
  }

  /** Within a segment the value is on the line between the segment's two knots. */
  lemma Interpolates(t: Table, i: nat, index: real)
    requires Valid(t) && Increasing(t.x) && 0 < i < |t.x|
    requires t.x[i - 1] <= index <= t.x[i]
    ensures Lookup(t, index) == Chord(t.x[i - 1], t.y[i - 1], t.x[i], t.y[i], index)
  {
    ChordEnds(t.x[i - 1], t.y[i - 1], t.x[i], t.y[i]);
    if index == t.x[i - 1] {
      HitsKnots(t, i - 1);
    } else if index == t.x[i] {
      HitsKnots(t, i);
    } else {
      BisectIsFirst(t.x, index, i);
      assert t.x[0] <= t.x[i - 1] && t.x[i] <= t.x[|t.x| - 1];
    }
  }

  /** A point of the line rises from its first point in proportion. */
  lemma ChordIsStraight(x0: real, y0: real, x1: real, y1: real, index: real)
    requires x0 < x1
    ensures (Chord(x0, y0, x1, y1, index) - y0) * (x1 - x0) == (index - x0) * (y1 - y0)
  {
    var run, rise, along := x1 - x0, y1 - y0, index - x0;
    var slope := rise / run;
    assert slope * run == rise;
    Reorder(along, slope, run);
  }

  lemma Reorder(a: real, b: real, c: real)
    ensures (a * b) * c == a * (b * c)
  {
  }

  /** Between two knots the value rises in proportion to the distance from the first one. */
  lemma InProportion(t: Table, i: nat, index: real)
    requires Valid(t) && Increasing(t.x) && 0 < i < |t.x|
    requires t.x[i - 1] <= index <= t.x[i]
    ensures (Lookup(t, index) - t.y[i - 1]) * (t.x[i] - t.x[i - 1]) == (index - t.x[i - 1]) * (t.y[i] - t.y[i - 1])
  {
    hide Chord, Lookup;
    Interpolates(t, i, index);
    ChordIsStraight(t.x[i - 1], t.y[i - 1], t.x[i], t.y[i], index);
  }

  /** A table without knots is zero. */
  lemma EmptyTable(t: Table, index: real)
    requires Valid(t) && t.x == []
    ensures Lookup(t, index) == 0.0
  {
  }

  /** Some segment holds every index strictly between the first and the last knot. */
  lemma FindSegment(t: Table, index: real) returns (i: nat)
    requires Valid(t) && Increasing(t.x) && |t.x| > 0
    requires t.x[0] < index < t.x[|t.x| - 1]
    ensures 0 < i < |t.x| && t.x[i - 1] < index <= t.x[i]
    ensures Lookup(t, index) == Chord(t.x[i - 1], t.y[i - 1], t.x[i], t.y[i], index)
  {
    i := Bisect(t.x, index, 0, |t.x|);
    Interpolates(t, i, index);
  }

  lemma ScaleUp(a: real, b: real, c: real)
    requires a <= b
    ensures c >= 0.0 ==> a * c <= b * c
    ensures c <= 0.0 ==> a * c >= b * c
  {
    var d := b - a;
    assert b * c == a * c + d * c;
  }

  lemma SlopeSign(rise: real, run: real)
    requires run > 0.0
    ensures rise >= 0.0 ==> rise / run >= 0.0
    ensures rise <= 0.0 ==> rise / run <= 0.0
  {
    if rise >= 0.0 {
      P.QuotientSign(rise, run);
    }
    if rise <= 0.0 {
      P.QuotientSign(-rise, run);
      assert (-rise) / run == -(rise / run);
    }
  }

  /** A line that does not descend is monotone. */
  lemma ChordMonotone(x0: real, y0: real, x1: real, y1: real, a: real, b: real)
    requires x0 < x1 && a <= b
    ensures y0 <= y1 ==> Chord(x0, y0, x1, y1, a) <= Chord(x0, y0, x1, y1, b)
    ensures y0 >= y1 ==> Chord(x0, y0, x1, y1, a) >= Chord(x0, y0, x1, y1, b)
  {
    SlopeSign(y1 - y0, x1 - x0);
    ScaleUp(a - x0, b - x0, (y1 - y0) / (x1 - x0));
  }

  /** On a segment a line stays between the heights of its two ends. */
  lemma ChordBounded(x0: real, y0: real, x1: real, y1: real, index: real)
    requires x0 < x1 && x0 <= index <= x1
    ensures y0 <= y1 ==> y0 <= Chord(x0, y0, x1, y1, index) <= y1
    ensures y0 >= y1 ==> y1 <= Chord(x0, y0, x1, y1, index) <= y0
  {
    ChordEnds(x0, y0, x1, y1);
    ChordMonotone(x0, y0, x1, y1, x0, index);
    ChordMonotone(x0, y0, x1, y1, index, x1);
  }

  /** The value never leaves the bounds of y. */
  lemma Bounded(t: Table, index: real, lo: real, hi: real)
    requires Valid(t) && Increasing(t.x) && |t.x| > 0
    requires forall i :: 0 <= i < |t.y| ==> lo <= t.y[i] <= hi
    ensures lo <= Lookup(t, index) <= hi
  {
    if t.x[0] < index < t.x[|t.x| - 1] {
      var i := FindSegment(t, index);
      ChordBounded(t.x[i - 1], t.y[i - 1], t.x[i], t.y[i], index);
    } else {
      Clamps(t, index);
    }
  }

  predicate NonDecreasing(y: seq<real>) {
    forall i, j :: 0 <= i <= j < |y| ==> y[i] <= y[j]
  }

  /** A table whose y does not decrease is monotone everywhere, across segments too. */
  lemma Monotone(t: Table, a: real, b: real)
    requires Valid(t) && Increasing(t.x) && NonDecreasing(t.y) && |t.x| > 0 && a <= b
    ensures Lookup(t, a) <= Lookup(t, b)
  {
    var last := |t.x| - 1;
    if a <= t.x[0] || b >= t.x[last] {
      Clamps(t, a);
      Clamps(t, b);
      Bounded(t, a, t.y[0], t.y[last]);
      Bounded(t, b, t.y[0], t.y[last]);
    } else {
      var i := FindSegment(t, a);
      var j := FindSegment(t, b);
      if i == j {
        ChordMonotone(t.x[i - 1], t.y[i - 1], t.x[i], t.y[i], a, b);
      } else {
        assert forall k :: 0 <= k < i ==> t.x[k] < b;
        ChordBounded(t.x[i - 1], t.y[i - 1], t.x[i], t.y[i], a);
        ChordBounded(t.x[j - 1], t.y[j - 1], t.x[j], t.y[j], b);
        assert t.y[i] <= t.y[j - 1];
      }
    }
  }

  /** The heights upside down. */
  function Negated(y: seq<real>): (z: seq<real>)
    ensures |z| == |y|
  {
    seq(|y|, i requires 0 <= i < |y| => -y[i])
  }

  lemma ChordNegates(x0: real, y0: real, x1: real, y1: real, index: real)
    requires x0 < x1
    ensures Chord(x0, -y0, x1, -y1, index) == -Chord(x0, y0, x1, y1, index)
  {
    var slope := (y1 - y0) / (x1 - x0);
    assert (-y1 - -y0) / (x1 - x0) == -slope;
    assert (index - x0) * -slope == -((index - x0) * slope);
  }

  /** A table upside down gives every value upside down. */
  lemma LookupNegates(t: Table, index: real)
    requires Valid(t)
    ensures Lookup(Table(t.x, Negated(t.y)), index) == -Lookup(t, index)
  {
    if |t.x| > 0 && t.x[0] <= index <= t.x[|t.x| - 1] {
      var i := Bisect(t.x, index, 0, |t.x|);
      if t.x[i] != index {
        ChordNegates(t.x[i - 1], t.y[i - 1], t.x[i], t.y[i], index);
      }
    }
  }

  predicate NonIncreasing(y: seq<real>) {
    forall i, j :: 0 <= i <= j < |y| ==> y[i] >= y[j]
  }

  /** A table whose y does not increase falls, or stays, everywhere. */
  lemma MonotoneDown(t: Table, a: real, b: real)
    requires Valid(t) && Increasing(t.x) && NonIncreasing(t.y) && |t.x| > 0 && a <= b
    ensures Lookup(t, a) >= Lookup(t, b)
  {
    LookupNegates(t, a);
    LookupNegates(t, b);
    Monotone(Table(t.x, Negated(t.y)), a, b);
  }
}
