/** What the operators of an equation mean, by the values of the trees that are built with them. */
module Values {
  import opened Wrappers
  import opened Equation
  import G = Grammar
  import Pulse

  /** The circumstances an equation is evaluated in. */
  datatype Setting = Setting(rt: Runtime, names: seq<string>, row: seq<real>, dt: real, time: real) {
    predicate Valid() {
      |row| == |names| && dt > 0.0
    }

    predicate Knows(n: Node) {
      Linked(rt, names, n)
    }

    function Of(n: Node): real
      requires Valid() && Knows(n)
    {
      Eval(rt, names, n, row, dt, time)
    }
  }

  /** One for true and zero for false. */
  predicate Says(v: real, b: bool) {
    (b ==> v == 1.0) && (!b ==> v == 0.0)
  }

  /** A number is what the library reads, a name the value of the first variable that has it, parentheses change nothing. */
  lemma Leaves(s: Setting, text: string, n: Node, i: nat)
    requires s.Valid() && s.Knows(n) && i < |s.names|
    ensures s.Of(FloatLit(text)) == s.rt.atof(text)
    ensures s.Of(Paren(n)) == s.Of(n)
    ensures s.names[i] == s.rt.canon(text) && (forall j :: 0 <= j < i ==> s.names[j] != s.names[i]) && '.' !in s.names[i]
            ==> s.Knows(Ident(text)) && s.Of(Ident(text)) == s.row[i]
  {
    if s.names[i] == s.rt.canon(text) && (forall j :: 0 <= j < i ==> s.names[j] != s.names[i]) && '.' !in s.names[i] {
      ResolveFinds(s.names, s.rt.canon(text), i);
    }
  }

  /** Sums, differences, products, quotients and powers. */
  lemma Arithmetic(s: Setting, l: Node, r: Node)
    requires s.Valid() && s.Knows(l) && s.Knows(r)
    ensures s.Of(Binary('+', l, r)) - s.Of(r) == s.Of(l)
    ensures s.Of(Binary('-', l, r)) + s.Of(r) == s.Of(l)
    ensures s.Of(Binary('*', l, r)) == s.Of(l) * s.Of(r)
    ensures s.Of(r) != 0.0 ==> s.Of(Binary('/', l, r)) * s.Of(r) == s.Of(l)
    ensures s.Of(r) == 0.0 ==> s.Of(Binary('/', l, r)) == s.rt.divZero(s.Of(l))
    ensures s.Of(Binary('^', l, r)) == s.rt.pow(s.Of(l), s.Of(r))
  {
    if s.Of(r) != 0.0 {
      QuotientTimes(s.Of(l), s.Of(r));
    }
  }

  lemma QuotientTimes(a: real, b: real)
    requires b != 0.0
    ensures (a / b) * b == a
  {
  }

  /** Signs: a minus cancels, a plus does nothing. */
  lemma Signs(s: Setting, n: Node)
    requires s.Valid() && s.Knows(n)
    ensures s.Of(Unary('-', n)) + s.Of(n) == 0.0
    ensures s.Of(Unary('+', n)) == s.Of(n)
  {
  }

  /** Comparisons are one or zero. */
  lemma Comparisons(s: Setting, l: Node, r: Node)
    requires s.Valid() && s.Knows(l) && s.Knows(r)
    ensures Says(s.Of(Binary('<', l, r)), s.Of(l) < s.Of(r))
    ensures Says(s.Of(Binary('>', l, r)), s.Of(r) < s.Of(l))
    ensures Says(s.Of(Binary(AT_MOST, l, r)), !(s.Of(r) < s.Of(l)))
    ensures Says(s.Of(Binary(AT_LEAST, l, r)), !(s.Of(l) < s.Of(r)))
    ensures Says(s.Of(Binary('=', l, r)), !(s.Of(l) < s.Of(r)) && !(s.Of(r) < s.Of(l)))
    ensures Says(s.Of(Binary(NOT_EQUAL, l, r)), s.Of(l) < s.Of(r) || s.Of(r) < s.Of(l))
  {
  }

  /** Logic is on ones: `not` of anything but zero is zero, and any other value than one is false to `and` and `or`. */
  lemma Logic(s: Setting, l: Node, r: Node)
    requires s.Valid() && s.Knows(l) && s.Knows(r)
    ensures Says(s.Of(Unary('!', l)), s.Of(l) == 0.0)
    ensures Says(s.Of(Binary('&', l, r)), s.Of(l) == 1.0 && s.Of(r) == 1.0)
    ensures Says(s.Of(Binary('|', l, r)), s.Of(l) == 1.0 || s.Of(r) == 1.0)
  {
  }

  /** Two operators between three names are parsed, to a tree of that value. */
  predicate Comes(s: Setting, a: string, p: char, b: string, q: char, c: string, v: real)
    requires s.Valid()
  {
    var o := G.Parse([G.Name(a), G.Op(p), G.Name(b), G.Op(q), G.Name(c)]);
    o.Parsed? && o.rest == [] && s.Knows(o.node) && s.Of(o.node) == v
  }

  // What the rows of operators come to: differences go from left to right, sums before products, products before powers.

  lemma DifferencesGoLeft(s: Setting, a: string, b: string, c: string)
    requires s.Valid() && s.Knows(Ident(a)) && s.Knows(Ident(b)) && s.Knows(Ident(c))
    ensures Comes(s, a, '-', b, '-', c, s.Of(Ident(a)) - s.Of(Ident(b)) - s.Of(Ident(c)))
  {
    G.OperatorRows('-');
    G.HigherRowBindsTighter(a, '-', b, '-', c);
    hide G.Parse;
    Arithmetic(s, Ident(a), Ident(b));
    Arithmetic(s, Binary('-', Ident(a), Ident(b)), Ident(c));
  }

  lemma SumsBeforeProducts(s: Setting, a: string, b: string, c: string)
    requires s.Valid() && s.Knows(Ident(a)) && s.Knows(Ident(b)) && s.Knows(Ident(c))
    ensures Comes(s, a, '*', b, '+', c, s.Of(Ident(a)) * (s.Of(Ident(b)) + s.Of(Ident(c))))
  {
    G.OperatorRows('*');
    G.OperatorRows('+');
    G.HigherRowBindsTighter(a, '*', b, '+', c);
    hide G.Parse;
    Arithmetic(s, Ident(b), Ident(c));
    Arithmetic(s, Ident(a), Binary('+', Ident(b), Ident(c)));
  }

  lemma ProductsBeforePowers(s: Setting, a: string, b: string, c: string)
    requires s.Valid() && s.Knows(Ident(a)) && s.Knows(Ident(b)) && s.Knows(Ident(c))
    ensures Comes(s, a, '^', b, '*', c, s.rt.pow(s.Of(Ident(a)), s.Of(Ident(b)) * s.Of(Ident(c))))
  {
    G.OperatorRows('^');
    G.OperatorRows('*');
    G.HigherRowBindsTighter(a, '^', b, '*', c);
    hide G.Parse;
    Arithmetic(s, Ident(b), Ident(c));
    Arithmetic(s, Ident(a), Binary('*', Ident(b), Ident(c)));
  }

  /** `%` and a binary `!` are parsed and mean nothing. */
  lemma Meaningless(s: Setting, l: Node, r: Node)
    requires s.Valid() && s.Knows(l) && s.Knows(r)
    ensures s.Of(Binary('%', l, r)) == s.rt.nan && s.Of(Binary('!', l, r)) == s.rt.nan
  {
  }

  /** An `if` takes its first branch unless its condition is zero, and its second one then. */
  lemma Branches(s: Setting, cond: Node, l: Node, r: Node)
    requires s.Valid() && s.Knows(cond) && s.Knows(l) && s.Knows(r)
    ensures s.Of(cond) != 0.0 ==> s.Of(If(cond, l, r)) == s.Of(l)
    ensures s.Of(cond) == 0.0 ==> s.Of(If(cond, l, r)) == s.Of(r)
  {
  }

  /** A call has a value when its function is one of the three and its arguments, six at most, have values. */
  lemma CallsKnown(s: Setting, fn: string, args: seq<Node>)
    ensures s.Knows(Call(fn, args)) <==>
              s.rt.canon(fn) in ["pulse", "min", "max"] && |args| <= 6 && forall i :: 0 <= i < |args| ==> Linked(s.rt, s.names, args[i])
  {
  }

  /** The values of arguments. */
  lemma {:induction false} ArgumentValues(s: Setting, args: seq<Node>, k: nat)
    requires s.Valid() && k < |args| && forall i :: 0 <= i < |args| ==> Linked(s.rt, s.names, args[i])
    ensures EvalAll(s.rt, s.names, args, s.row, s.dt, s.time)[k] == s.Of(args[k])
    decreases args
  {
    var front := args[..|args| - 1];
    if k < |front| {
      ArgumentValues(s, front, k);
    }
  }

  /** `min` and `max` are one of their two arguments, and no argument is beyond them. */
  lemma Extremes(s: Setting, fn: string, a: Node, b: Node)
    requires s.Valid() && s.Knows(a) && s.Knows(b) && (s.rt.canon(fn) == "min" || s.rt.canon(fn) == "max")
    ensures s.Knows(Call(fn, [a, b]))
    ensures s.Of(Call(fn, [a, b])) == s.Of(a) || s.Of(Call(fn, [a, b])) == s.Of(b)
    ensures s.rt.canon(fn) == "min" ==> s.Of(Call(fn, [a, b])) <= s.Of(a) && s.Of(Call(fn, [a, b])) <= s.Of(b)
    ensures s.rt.canon(fn) == "max" ==> s.Of(Call(fn, [a, b])) >= s.Of(a) && s.Of(Call(fn, [a, b])) >= s.Of(b)
  {
    KnownNames();
    ArgumentValues(s, [a, b], 0);
    ArgumentValues(s, [a, b], 1);
  }

  /** With any other number of arguments they mean nothing. */
  lemma ExtremesOfTwo(s: Setting, fn: string, args: seq<Node>)
    requires s.Valid() && s.Knows(Call(fn, args)) && s.rt.canon(fn) != "pulse" && |args| != 2
    ensures s.Of(Call(fn, args)) == s.rt.nan
  {
  }

  lemma KnownNames()
    ensures "pulse" in RT_FNS && "min" in RT_FNS && "max" in RT_FNS
    ensures "min" != "max" && "min" != "pulse" && "max" != "pulse"
  {
    assert RT_FNS[0] == "pulse" && RT_FNS[1] == "min" && RT_FNS[2] == "max";
    assert |"pulse"| != |"min"| && |"pulse"| != |"max"| && "min"[1] != "max"[1];
  }

  /** `pulse` delivers its first argument in one step when an instant, given by the others, has come due since the last. */
  lemma Pulses(s: Setting, fn: string, args: seq<Node>, magnitude: real, first: real, interval: real)
    requires s.Valid() && s.Knows(Call(fn, args)) && s.rt.canon(fn) == "pulse" && 2 <= |args| <= 3
    requires magnitude == s.Of(args[0]) && first == s.Of(args[1]) && interval == if |args| == 3 then s.Of(args[2]) else 0.0
    ensures var due := exists i: nat :: (interval > 0.0 || i == 0) && s.time - s.dt < Pulse.Instant(first, interval, i) <= s.time;
            s.Of(Call(fn, args)) * s.dt == if due then magnitude else 0.0
  {
    ArgumentValues(s, args, 0);
    ArgumentValues(s, args, 1);
    if |args| == 3 {
      ArgumentValues(s, args, 2);
    }
    Pulse.FiresIffInstant(s.dt, s.time, first, interval);
    QuotientTimes(magnitude, s.dt);
  }

  /** The first variable of a name without dots is found, also with a dot in front. */
  lemma ResolveFinds(names: seq<string>, name: string, i: nat)
    requires i < |names| && names[i] == name && '.' !in name && forall j :: 0 <= j < i ==> names[j] != name
    ensures Resolve(names, name) == Some(i) && Resolve(names, "." + name) == Some(i)
  {
    assert |name| > 0 ==> name[0] in name;
    assert ("." + name)[1..] == name;
    FirstIs(names, name, 0, i);
  }

  lemma {:induction false} FirstIs(names: seq<string>, name: string, from: nat, i: nat)
    requires from <= i < |names| && names[i] == name && forall j :: from <= j < i ==> names[j] != name
    ensures FirstNamed(names, name, from) == Some(i)
    decreases i - from
  {
    if from < i {
      FirstIs(names, name, from + 1, i);
    }
  }
}
