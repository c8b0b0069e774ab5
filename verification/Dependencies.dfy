/** What the dependency walk collects: the names that an equation mentions, told from its tree and from its symbols. */
module Dependencies {
  import opened Wrappers
  import opened Equation
  import opened Grammar

  /** A name occurs in a tree as that of a variable; the names of called functions do not count. */
  predicate Mentions(n: Node, x: string) {
    match n
    case Null => false
    case Paren(l) => Mentions(l, x)
    case FloatLit(_) => false
    case Ident(sval) => sval == x
    case Call(_, args) => exists k :: 0 <= k < |args| && Mentions(args[k], x)
    case Binary(_, l, r) => Mentions(l, x) || Mentions(r, x)
    case Unary(_, l) => Mentions(l, x)
    case If(cond, l, r) => Mentions(cond, x) || Mentions(l, x) || Mentions(r, x)
  }

  /** A mentioned name that is found at a slot. */
  ghost predicate MentionsSlot(rt: Runtime, names: seq<string>, n: Node, d: nat) {
    exists x :: Mentions(n, x) && Resolve(names, rt.canon(x)) == Some(d)
  }

  /** A variable is a dependency exactly when some mentioned name is its name. */
  lemma {:induction false} DepsAreMentioned(rt: Runtime, names: seq<string>, n: Node, d: nat)
    ensures d in Deps(rt, names, n) <==> MentionsSlot(rt, names, n, d)
    decreases n, 0
  {
    match n
    case Null =>
    case FloatLit(_) =>
    case Ident(sval) => assert Mentions(n, sval);
    case Paren(l) =>
      DepsAreMentioned(rt, names, l, d);
      assert forall x :: Mentions(n, x) <==> Mentions(l, x);
    case Unary(_, l) =>
      DepsAreMentioned(rt, names, l, d);
      assert forall x :: Mentions(n, x) <==> Mentions(l, x);
    case Call(_, args) => ArgsAreMentioned(rt, names, args, d);
      assert forall x :: Mentions(n, x) <==> exists k :: 0 <= k < |args| && Mentions(args[k], x);
    case Binary(_, l, r) =>
      DepsAreMentioned(rt, names, l, d);
      DepsAreMentioned(rt, names, r, d);
      assert forall x :: Mentions(n, x) <==> Mentions(l, x) || Mentions(r, x);
    case If(cond, l, r) =>
      DepsAreMentioned(rt, names, cond, d);
      DepsAreMentioned(rt, names, l, d);
      DepsAreMentioned(rt, names, r, d);
      assert forall x :: Mentions(n, x) <==> Mentions(cond, x) || Mentions(l, x) || Mentions(r, x);
  }

  lemma {:induction false} ArgsAreMentioned(rt: Runtime, names: seq<string>, args: seq<Node>, d: nat)
    ensures d in DepsAll(rt, names, args) <==> exists k :: 0 <= k < |args| && MentionsSlot(rt, names, args[k], d)
    decreases args, 1
  {
    if args != [] {
      var front, last := args[..|args| - 1], args[|args| - 1];
      ArgsAreMentioned(rt, names, front, d);
      DepsAreMentioned(rt, names, last, d);
      assert forall k :: 0 <= k < |front| ==> front[k] == args[k];
    }
  }

  /** The names among some symbols, in order, without those of functions, which an opening parenthesis follows. */
  function NamesRead(ts: seq<Symbol>): seq<string> {
    if ts == [] then []
    else (if ts[0].Name? && !Starts(ts[1..], Op('(')) then [ts[0].text] else []) + NamesRead(ts[1..])
  }

  /** The slots of some names, in order; an unknown name has none. */
  function SlotsOf(rt: Runtime, names: seq<string>, xs: seq<string>): seq<nat> {
    if xs == [] then []
    else
      var slot := Resolve(names, rt.canon(xs[0]));
      (if slot.Some? then [slot.value] else []) + SlotsOf(rt, names, xs[1..])
  }

  /** Symbols that do not become a call when they are joined. */
  predicate Apart(a: seq<Symbol>, b: seq<Symbol>) {
    a == [] || !a[|a| - 1].Name? || !Starts(b, Op('('))
  }

  lemma {:induction false} NamesJoin(a: seq<Symbol>, b: seq<Symbol>)
    requires Apart(a, b)
    ensures NamesRead(a + b) == NamesRead(a) + NamesRead(b)
  {
    if a == [] {
      assert a + b == b;
    } else {
      assert (a + b)[0] == a[0] && (a + b)[1..] == a[1..] + b;
      NamesJoin(a[1..], b);
    }
  }

  lemma {:induction false} SlotsJoin(rt: Runtime, names: seq<string>, a: seq<string>, b: seq<string>)
    ensures SlotsOf(rt, names, a + b) == SlotsOf(rt, names, a) + SlotsOf(rt, names, b)
  {
    if a == [] {
      assert a + b == b;
    } else {
      assert (a + b)[0] == a[0] && (a + b)[1..] == a[1..] + b;
      SlotsJoin(rt, names, a[1..], b);
    }
  }

  /** The slots that some symbols mention. */
  function SlotsRead(rt: Runtime, names: seq<string>, ts: seq<Symbol>): seq<nat> {
    SlotsOf(rt, names, NamesRead(ts))
  }

  lemma SlotsReadJoin(rt: Runtime, names: seq<string>, a: seq<Symbol>, b: seq<Symbol>)
    requires Apart(a, b)
    ensures SlotsRead(rt, names, a + b) == SlotsRead(rt, names, a) + SlotsRead(rt, names, b)
  {
    NamesJoin(a, b);
    SlotsJoin(rt, names, NamesRead(a), NamesRead(b));
  }

  /** A symbol that is no name and no opening parenthesis, between two stretches. */
  lemma SlotsReadAround(rt: Runtime, names: seq<string>, a: seq<Symbol>, s: Symbol, b: seq<Symbol>)
    requires !s.Name? && s != Op('(')
    ensures SlotsRead(rt, names, a + [s] + b) == SlotsRead(rt, names, a) + SlotsRead(rt, names, b)
  {
    SlotsReadJoin(rt, names, a, [s]);
    SlotsReadJoin(rt, names, a + [s], b);
    assert [s][1..] == [] && NamesRead([s]) == [];
  }

  /** A symbol that is no name, in front. */
  lemma SlotsReadAfter(rt: Runtime, names: seq<string>, s: Symbol, b: seq<Symbol>)
    requires !s.Name?
    ensures SlotsRead(rt, names, [s] + b) == SlotsRead(rt, names, b)
  {
    assert ([s] + b)[1..] == b;
    assert [] + NamesRead(b) == NamesRead(b);
  }

  /** The dependencies of a grammatical tree are the slots its symbols mention, in reading order. */
  lemma {:induction false} DepsInReadingOrder(rt: Runtime, names: seq<string>, n: Node, level: nat)
    requires Shaped(n, level)
    ensures Deps(rt, names, n) == SlotsRead(rt, names, Yield(n))
    decreases n, 1
  {
    match n
    case FloatLit(sval) =>
      SlotsReadAfter(rt, names, Num(sval), []);
      assert [Num(sval)] + [] == [Num(sval)];
    case Ident(sval) => NameReads(rt, names, sval);
    case Paren(l) =>
      DepsInReadingOrder(rt, names, l, 0);
      SlotsReadAround(rt, names, [Op('(')] + Yield(l), Op(')'), []);
      SlotsReadAfter(rt, names, Op('('), Yield(l));
      assert [Op('(')] + Yield(l) + [Op(')')] + [] == Yield(n);
    case Unary(op, l) =>
      SlotsReadAfter(rt, names, Op(op), Yield(l));
      if !l.Null? {
        DepsInReadingOrder(rt, names, l, 0);
      }
    case Call(fn, args) =>
      ArgsInReadingOrder(rt, names, args);
      CallReads(rt, names, fn, YieldArgs(args));
    case Binary(op, l, r) =>
      DepsInReadingOrder(rt, names, l, RowOf(op));
      DepsInReadingOrder(rt, names, r, RowOf(op) + 1);
      NotOperators('(');
      SlotsReadAround(rt, names, Yield(l), Op(op), Yield(r));
    case If(cond, l, r) =>
      DepsInReadingOrder(rt, names, cond, 0);
      DepsInReadingOrder(rt, names, l, 0);
      if !r.Null? {
        DepsInReadingOrder(rt, names, r, 0);
      }
      IfReads(rt, names, Yield(cond), Yield(l), r);
  }

  lemma NameReads(rt: Runtime, names: seq<string>, x: string)
    ensures SlotsRead(rt, names, [Name(x)]) == Deps(rt, names, Ident(x))
  {
    var one := [Name(x)];
    assert one[1..] == [] && NamesRead(one) == [x] + NamesRead([]);
    assert [x] + [] == [x] && [x][1..] == [];
    assert SlotsOf(rt, names, [x]) == Deps(rt, names, Ident(x)) + SlotsOf(rt, names, []);
  }

  /** The name of a function is not read, its arguments are. */
  lemma CallReads(rt: Runtime, names: seq<string>, fn: string, inner: seq<Symbol>)
    ensures SlotsRead(rt, names, [Name(fn), Op('(')] + inner + [Op(')')]) == SlotsRead(rt, names, inner)
  {
    var open := [Name(fn), Op('(')] + inner;
    SlotsReadAround(rt, names, open, Op(')'), []);
    assert open + [Op(')')] + [] == open + [Op(')')];
    assert open[1..] == [Op('(')] + inner;
    SlotsReadAfter(rt, names, Op('('), inner);
    assert [] + NamesRead(open[1..]) == NamesRead(open[1..]);
    assert SlotsRead(rt, names, []) == [];
  }

  lemma IfReads(rt: Runtime, names: seq<string>, cond: seq<Symbol>, l: seq<Symbol>, r: Node)
    ensures SlotsRead(rt, names, [Word("if")] + cond + [Word("then")] + l + YieldElse(r))
         == SlotsRead(rt, names, cond) + SlotsRead(rt, names, l) + SlotsRead(rt, names, Yield(r))
  {
    var start := [Word("if")] + cond;
    SlotsReadAfter(rt, names, Word("if"), cond);
    SlotsReadAround(rt, names, start, Word("then"), l);
    var so := start + [Word("then")] + l;
    if r.Null? {
      assert so + [] == so;
    } else {
      assert so + ([Word("else")] + Yield(r)) == so + [Word("else")] + Yield(r);
      SlotsReadAround(rt, names, so, Word("else"), Yield(r));
    }
  }

  lemma {:induction false} ArgsInReadingOrder(rt: Runtime, names: seq<string>, args: seq<Node>)
    requires forall i :: 0 <= i < |args| ==> Shaped(args[i], 0)
    ensures DepsAll(rt, names, args) == SlotsRead(rt, names, YieldArgs(args))
    decreases args, 0
  {
    if args != [] {
      DepsInReadingOrder(rt, names, args[0], 0);
      ArgsInReadingOrder(rt, names, args[1..]);
      DepsOfFirst(rt, names, args);
      SlotsReadAround(rt, names, Yield(args[0]), Op(','), YieldArgs(args[1..]));
    }
  }

  lemma {:induction false} DepsOfFirst(rt: Runtime, names: seq<string>, args: seq<Node>)
    requires args != []
    ensures DepsAll(rt, names, args) == Deps(rt, names, args[0]) + DepsAll(rt, names, args[1..])
  {
    var front, rest := args[..|args| - 1], args[1..];
    if |args| > 1 {
      DepsOfFirst(rt, names, front);
      assert front[1..] == rest[..|rest| - 1] && rest[|rest| - 1] == args[|args| - 1];
    }
  }

  /** A parsed equation depends on what was read of it, in that order, and on nothing else. */
  lemma ParsedDeps(rt: Runtime, names: seq<string>, ts: seq<Symbol>, n: Node, rest: seq<Symbol>)
    requires Parse(ts) == Parsed(n, rest)
    ensures |rest| <= |ts| && Deps(rt, names, n) == SlotsRead(rt, names, ts[..|ts| - |rest|])
  {
    if ts != [] {
      ParseIsTheGrammar(ts, n, rest);
      assert ts[..|ts| - |rest|] == Yield(n);
      DepsInReadingOrder(rt, names, n, 0);
    } else {
      assert n == Null && rest == [];
    }
  }
}
