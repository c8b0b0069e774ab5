/** The holes of parsed trees: which symbols leave a node without a child, so that the walk reads a null pointer. */
module Holes {
  import opened Equation
  import opened Grammar

  /** How often a symbol occurs. */
  function Count(ts: seq<Symbol>, s: Symbol): nat {
    if ts == [] then 0 else (if ts[0] == s then 1 else 0) + Count(ts[1..], s)
  }

  /** How many more `if`s than `else`s there are. */
  function Excess(ts: seq<Symbol>): int {
    Count(ts, Word("if")) - Count(ts, Word("else"))
  }

  /** The last symbol is a unary operator. */
  predicate EndsUnary(ts: seq<Symbol>) {
    ts != [] && ts[|ts| - 1].Op? && ts[|ts| - 1].rune in UNARY
  }

  /** How many `if`s of a tree have no `else`. */
  function OpenIfs(n: Node): nat
    decreases n, 0
  {
    match n
    case Paren(l) => OpenIfs(l)
    case Call(_, args) => OpenIfsAll(args)
    case Binary(_, l, r) => OpenIfs(l) + OpenIfs(r)
    case Unary(_, l) => OpenIfs(l)
    case If(cond, l, r) => OpenIfs(cond) + OpenIfs(l) + if r.Null? then 1 else OpenIfs(r)
    case _ => 0
  }

  function OpenIfsAll(args: seq<Node>): nat
    decreases args, 1
  {
    if args == [] then 0 else OpenIfs(args[0]) + OpenIfsAll(args[1..])
  }

  lemma {:induction false} CountAppends(a: seq<Symbol>, b: seq<Symbol>, s: Symbol)
    ensures Count(a + b, s) == Count(a, s) + Count(b, s)
  {
    if a == [] {
      assert a + b == b;
    } else {
      assert (a + b)[1..] == a[1..] + b;
      CountAppends(a[1..], b, s);
    }
  }

  lemma ExcessAppends(a: seq<Symbol>, b: seq<Symbol>)
    ensures Excess(a + b) == Excess(a) + Excess(b)
  {
    CountAppends(a, b, Word("if"));
    CountAppends(a, b, Word("else"));
  }

  lemma CountOfOne(s: Symbol, t: Symbol)
    ensures Count([s], t) == if s == t then 1 else 0
  {
    assert [s][1..] == [];
  }

  lemma ExcessOfOne(s: Symbol)
    ensures Excess([s]) == if s == Word("if") then 1 else if s == Word("else") then -1 else 0
  {
    CountOfOne(s, Word("if"));
    CountOfOne(s, Word("else"));
    assert Word("if").word == "if" && Word("else").word == "else" && |"if"| != |"else"|;
  }

  /** What one symbol between two stretches leaves of their excess. */
  lemma ExcessAround(a: seq<Symbol>, s: Symbol, b: seq<Symbol>)
    ensures Excess(a + [s] + b) == Excess(a) + Excess([s]) + Excess(b)
  {
    ExcessAppends(a + [s], b);
    ExcessAppends(a, [s]);
  }

  /** The `if`s without `else` are counted by the symbols. */
  lemma {:induction false} OpenIfsAreExcess(n: Node)
    ensures Excess(Yield(n)) == OpenIfs(n)
    decreases n, 0
  {
    match n
    case Null =>
    case FloatLit(sval) => ExcessOfOne(Num(sval));
    case Ident(sval) => ExcessOfOne(Name(sval));
    case Paren(l) =>
      OpenIfsAreExcess(l);
      ExcessOfOne(Op('('));
      ExcessOfOne(Op(')'));
      ExcessAppends([Op('(')] + Yield(l), [Op(')')]);
      ExcessAppends([Op('(')], Yield(l));
    case Call(fn, args) =>
      ArgsAreExcess(args);
      CallExcess(fn, YieldArgs(args));
    case Binary(op, l, r) =>
      OpenIfsAreExcess(l);
      OpenIfsAreExcess(r);
      ExcessOfOne(Op(op));
      ExcessAround(Yield(l), Op(op), Yield(r));
    case Unary(op, l) =>
      OpenIfsAreExcess(l);
      ExcessOfOne(Op(op));
      ExcessAppends([Op(op)], Yield(l));
    case If(cond, l, r) =>
      OpenIfsAreExcess(cond);
      OpenIfsAreExcess(l);
      OpenIfsAreExcess(r);
      IfExcess(Yield(cond), Yield(l), r);
  }

  lemma CallExcess(fn: string, inner: seq<Symbol>)
    ensures Excess([Name(fn), Op('(')] + inner + [Op(')')]) == Excess(inner)
  {
    assert [Name(fn), Op('(')] == [Name(fn)] + [Op('(')];
    ExcessOfOne(Name(fn));
    ExcessOfOne(Op('('));
    ExcessOfOne(Op(')'));
    ExcessAppends([Name(fn)], [Op('(')]);
    ExcessAppends([Name(fn), Op('(')], inner);
    ExcessAppends([Name(fn), Op('(')] + inner, [Op(')')]);
  }

  lemma IfExcess(cond: seq<Symbol>, l: seq<Symbol>, r: Node)
    ensures Excess([Word("if")] + cond + [Word("then")] + l + YieldElse(r))
         == Excess(cond) + Excess(l) + if r.Null? then 1 else Excess(Yield(r))
  {
    ExcessOfOne(Word("if"));
    ExcessOfOne(Word("then"));
    ExcessOfOne(Word("else"));
    ExcessAppends([Word("if")], cond);
    ExcessAround([Word("if")] + cond, Word("then"), l);
    ExcessAppends([Word("if")] + cond + [Word("then")] + l, YieldElse(r));
    ExcessAppends([Word("else")], Yield(r));
  }

  lemma {:induction false} ArgsAreExcess(args: seq<Node>)
    ensures Excess(YieldArgs(args)) == OpenIfsAll(args)
    decreases args, 0
  {
    if args != [] {
      OpenIfsAreExcess(args[0]);
      ArgsAreExcess(args[1..]);
      ExcessOfOne(Op(','));
      ExcessAround(Yield(args[0]), Op(','), YieldArgs(args[1..]));
    }
  }

  lemma EndsOfSecond(a: seq<Symbol>, b: seq<Symbol>)
    requires b != []
    ensures a + b != [] && (EndsUnary(a + b) <==> EndsUnary(b))
  {
  }

  /** Nothing but a unary operator without an operand puts an operator that may be unary at the end. */
  lemma {:induction false} EndsNullAtEnd(n: Node, level: nat)
    requires Shaped(n, level)
    ensures EndsNull(n) <==> EndsUnary(Yield(n))
    decreases n, 1
  {
    match n
    case FloatLit(_) =>
    case Ident(_) =>
    case Paren(l) =>
      NotOperators(')');
      EndsOfSecond([Op('(')] + Yield(l), [Op(')')]);
    case Call(fn, args) =>
      NotOperators(')');
      EndsOfSecond([Name(fn), Op('(')] + YieldArgs(args), [Op(')')]);
    case Unary(op, l) =>
      if l.Null? {
        assert Yield(n) == [Op(op)];
      } else {
        EndsNullAtEnd(l, 0);
        YieldNonEmpty(l);
        EndsOfSecond([Op(op)], Yield(l));
      }
    case Binary(op, l, r) =>
      EndsNullAtEnd(r, RowOf(op) + 1);
      YieldNonEmpty(r);
      EndsOfSecond(Yield(l) + [Op(op)], Yield(r));
    case If(cond, l, r) => IfEnds(cond, l, r, level);
  }

  lemma {:induction false} IfEnds(cond: Node, l: Node, r: Node, level: nat)
    requires Shaped(If(cond, l, r), level)
    ensures EndsNull(If(cond, l, r)) <==> EndsUnary(Yield(If(cond, l, r)))
    decreases If(cond, l, r), 0
  {
    YieldNonEmpty(l);
    var before := [Word("if")] + Yield(cond) + [Word("then")];
    assert Yield(If(cond, l, r)) == before + Yield(l) + YieldElse(r);
    if r.Null? {
      EndsNullAtEnd(l, 0);
      EndsOfSecond(before, Yield(l));
      assert before + Yield(l) + [] == before + Yield(l);
    } else {
      EndsNullAtEnd(r, 0);
      YieldNonEmpty(r);
      EndsOfSecond([Word("else")], Yield(r));
      EndsOfSecond(before + Yield(l), YieldElse(r));
    }
  }

  /** A grammatical tree has a hole at its right end or in an `if` without `else`, or none. */
  lemma {:induction false} CompleteUnlessOpen(n: Node, level: nat)
    requires Shaped(n, level)
    ensures Complete(n) <==> !EndsNull(n) && OpenIfs(n) == 0
    decreases n, 0
  {
    match n
    case FloatLit(_) =>
    case Ident(_) =>
    case Paren(l) => CompleteUnlessOpen(l, 0);
    case Call(_, args) => ArgsUnlessOpen(args);
    case Unary(_, l) =>
      if !l.Null? {
        CompleteUnlessOpen(l, 0);
      }
    case Binary(op, l, r) =>
      CompleteUnlessOpen(l, RowOf(op));
      CompleteUnlessOpen(r, RowOf(op) + 1);
      OnlyGreedyEnds(l);
    case If(cond, l, r) =>
      CompleteUnlessOpen(cond, 0);
      CompleteUnlessOpen(l, 0);
      if !r.Null? {
        CompleteUnlessOpen(r, 0);
      }
  }

  lemma {:induction false} ArgsUnlessOpen(args: seq<Node>)
    requires forall i :: 0 <= i < |args| ==> Shaped(args[i], 0) && !EndsNull(args[i])
    ensures (forall i :: 0 <= i < |args| ==> Complete(args[i])) <==> OpenIfsAll(args) == 0
    decreases args, 1
  {
    if args != [] {
      CompleteUnlessOpen(args[0], 0);
      ArgsUnlessOpen(args[1..]);
      assert args == [args[0]] + args[1..];
    }
  }

  /**
   * A parsed equation has a hole exactly when what was read of it ends in a unary operator, or has an `if` without an
   * `else`; all other equations the walk gets through.
   */
  lemma HolesAreSpelled(ts: seq<Symbol>, n: Node, rest: seq<Symbol>)
    requires Parse(ts) == Parsed(n, rest)
    ensures n.Null? <==> ts == []
    ensures |rest| <= |ts| && ts == ts[..|ts| - |rest|] + rest
    ensures HasHole(n) <==> EndsUnary(ts[..|ts| - |rest|]) || Excess(ts[..|ts| - |rest|]) != 0
  {
    if ts != [] {
      ParseIsTheGrammar(ts, n, rest);
      assert ts[..|ts| - |rest|] == Yield(n);
      EndsNullAtEnd(n, 0);
      CompleteUnlessOpen(n, 0);
      OpenIfsAreExcess(n);
    } else {
      assert n == Null && rest == [];
    }
  }

  /** `if 1 then 2` is parsed, without a word, to a tree with a hole, and so is a lone `-`. */
  lemma HolesHappen()
    ensures Parse([Word("if"), Num("1"), Word("then"), Num("2")]) == Parsed(If(FloatLit("1"), FloatLit("2"), Null), [])
    ensures HasHole(If(FloatLit("1"), FloatLit("2"), Null))
    ensures Parse([Op('-')]) == Parsed(Unary('-', Null), []) && HasHole(Unary('-', Null))
  {
    var n := If(FloatLit("1"), FloatLit("2"), Null);
    IfYield(FloatLit("1"), FloatLit("2"), Null, []);
    assert Yield(n) + [] == [Word("if"), Num("1"), Word("then"), Num("2")];
    ParseIsTheGrammar([Word("if"), Num("1"), Word("then"), Num("2")], n, []);
    assert Yield(Unary('-', Null)) + [] == [Op('-')];
    ParseIsTheGrammar([Op('-')], Unary('-', Null), []);
  }
}
