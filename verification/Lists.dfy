/** Lists: two that hand elements to each other without anything being in them twice, and how joined lists regroup. */
module Lists {
  ghost predicate Distinct<T>(xs: seq<T>, ys: seq<T>) {
    NoDup(xs) && NoDup(ys) && forall x :: x in xs ==> x !in ys
  }

  ghost predicate NoDup<T>(xs: seq<T>) {
    xs == [] || (xs[0] !in xs[1..] && NoDup(xs[1..]))
  }

  /** The first element of one list goes to the front of the other. */
  lemma ShiftDistinct<T>(to: seq<T>, from: seq<T>)
    requires from != [] && (Distinct(to, from) || Distinct(from, to))
    ensures from[0] !in to && from[0] !in from[1..]
    ensures Distinct([from[0]] + to, from[1..]) && Distinct(from[1..], [from[0]] + to)
  {
    assert ([from[0]] + to)[1..] == to;
    assert from == [from[0]] + from[1..];
  }

  /** A new element in front of a list, or in place of its first one. */
  lemma NewDistinct<T>(xs: seq<T>, ys: seq<T>, x: T)
    requires Distinct(xs, ys) && x !in xs && x !in ys
    ensures Distinct([x] + xs, ys)
    ensures xs != [] ==> Distinct([x] + xs[1..], ys)
  {
    assert ([x] + xs)[1..] == xs;
    if xs != [] {
      assert ([x] + xs[1..])[1..] == xs[1..];
    }
  }

  lemma Assoc<T>(a: seq<T>, b: seq<T>, c: seq<T>)
    ensures a + (b + c) == a + b + c
  {
  }

  /** The front of two joined lists. */
  lemma FrontOfJoin<T>(a: seq<T>, b: seq<T>)
    requires a != []
    ensures a + b != [] && (a + b)[0] == a[0] && (a + b)[1..] == a[1..] + b
  {
  }

  /** A list back to front. */
  function Reversed<T>(xs: seq<T>): seq<T> {
    if xs == [] then [] else Reversed(xs[1..]) + [xs[0]]
  }

  /** Updating the second of two joined lists. */
  lemma UpdateSecond<T>(a: seq<T>, b: seq<T>, k: nat, v: T)
    requires k < |b|
    ensures (a + b)[|a| + k] == b[k] && (a + b)[|a| + k := v] == a + b[k := v]
  {
  }

  /** A stretch of a list overwritten, element by element. */
  function Splice<T>(s: seq<T>, at: nat, part: seq<T>): (out: seq<T>)
    requires at + |part| <= |s|
    ensures |out| == |s|
    decreases |part|
  {
    if part == [] then s else Splice(s[at := part[0]], at + 1, part[1..])
  }

  lemma {:induction false} SpliceAt<T>(s: seq<T>, at: nat, part: seq<T>)
    requires at + |part| <= |s|
    ensures forall k :: 0 <= k < |s| ==> Splice(s, at, part)[k] == if at <= k < at + |part| then part[k - at] else s[k]
    decreases |part|
  {
    if part != [] {
      SpliceAt(s[at := part[0]], at + 1, part[1..]);
    }
  }

  lemma SplicesCommute<T>(s: seq<T>, a: nat, x: seq<T>, b: nat, y: seq<T>)
    requires a + |x| <= b && b + |y| <= |s|
    ensures Splice(Splice(s, b, y), a, x) == Splice(Splice(s, a, x), b, y)
  {
    SpliceAt(s, b, y);
    SpliceAt(s, a, x);
    SpliceAt(Splice(s, b, y), a, x);
    SpliceAt(Splice(s, a, x), b, y);
  }

  lemma SplicesJoin<T>(s: seq<T>, a: nat, x: seq<T>, y: seq<T>)
    requires a + |x| + |y| <= |s|
    ensures Splice(Splice(s, a, x), a + |x|, y) == Splice(s, a, x + y)
  {
    SpliceAt(s, a, x);
    SpliceAt(Splice(s, a, x), a + |x|, y);
    SpliceAt(s, a, x + y);
  }

  /** Two stretches that grow. */
  lemma SplicesGrow<T>(s: seq<T>, a: nat, x: seq<T>, more: seq<T>, b: nat, y: seq<T>, rest: seq<T>)
    requires a + |x| + |more| <= b && b + |y| + |rest| <= |s|
    ensures Splice(Splice(Splice(Splice(s, a, x), b, y), a + |x|, more), b + |y|, rest)
         == Splice(Splice(s, a, x + more), b, y + rest)
  {
    SplicesCommute(Splice(s, a, x), a + |x|, more, b, y);
    SplicesJoin(s, a, x, more);
    SplicesJoin(Splice(s, a, x + more), b, y, rest);
  }

  /** A list overwritten from end to end. */
  lemma SpliceAll<T>(s: seq<T>, part: seq<T>)
    requires |part| == |s|
    ensures Splice(s, 0, part) == part
  {
    SpliceAt(s, 0, part);
  }
}
