/**
 * The grammar that parse.c implements: what its parser computes on a list of symbols, which trees the grammar
 * allows, and that the two are the same relation.
 */
module Grammar {
  import opened Equation
  import opened Lists

  /** A token as the parser looks at it: of a TOK_TOKEN only the first rune counts. */
  datatype Symbol = Op(rune: char) | Word(word: string) | Num(text: string) | Name(text: string)

  const UNARY := "+-!"
  const BINARY := ["^", "!", "*/%", "+-", "><\U{2265}\U{2264}", "=\U{2260}", "&", "|"]
  const MAX_BINARY: nat := 8

  /** The result of `expr` or `fact`: the tree and what is left, or failure. */
  datatype Outcome = Fail | Parsed(node: Node, rest: seq<Symbol>)

  datatype ArgsOutcome = ArgsFail | ParsedArgs(args: seq<Node>, rest: seq<Symbol>)

  /** Whether the next symbol is an operator of the given row. */
  predicate StartsRow(ts: seq<Symbol>, level: nat)
    requires level < MAX_BINARY
  {
    ts != [] && ts[0].Op? && ts[0].rune in BINARY[level]
  }

  predicate Starts(ts: seq<Symbol>, s: Symbol) {
    ts != [] && ts[0] == s
  }

  /** `expr` at a level; level MAX_BINARY stands for `fact`. At the end of input there is no tree, and no error. */
  function Expr(ts: seq<Symbol>, level: nat): (o: Outcome)
    requires level <= MAX_BINARY
    ensures o.Parsed? && ts != [] ==> |o.rest| < |ts|
    ensures o.Parsed? && ts == [] ==> o.rest == []
    decreases |ts|, 1 + MAX_BINARY - level
  {
    if level == MAX_BINARY then Fact(ts)
    else if ts == [] then Parsed(Null, [])
    else
      match Expr(ts, level + 1)
      case Fail => Fail
      case Parsed(lhs, rest) => Tail(rest, level, lhs)
  }

  /** The loop of `expr`: operators of one row, collected to the left. */
  function Tail(ts: seq<Symbol>, level: nat, lhs: Node): (o: Outcome)
    requires level < MAX_BINARY
    ensures o.Parsed? ==> |o.rest| <= |ts|
    decreases |ts|, 1 + MAX_BINARY - level
  {
    if !StartsRow(ts, level) then Parsed(lhs, ts)
    else
      match Expr(ts[1..], level + 1)
      case Fail => Fail
      case Parsed(rhs, rest) =>
        if rhs.Null? then Fail else Tail(rest, level, Binary(ts[0].rune, lhs, rhs))
  }

  function Fact(ts: seq<Symbol>): (o: Outcome)
    ensures o.Parsed? ==> |o.rest| < |ts|
    decreases |ts|, 0
  {
    if ts == [] then Fail
    else if ts[0] == Op('(') then
      match Expr(ts[1..], 0)
      case Fail => Fail
      case Parsed(l, rest) => if Starts(rest, Op(')')) then Parsed(Paren(l), rest[1..]) else Fail
    else if ts[0].Op? && ts[0].rune in UNARY then
      match Expr(ts[1..], 0)
      case Fail => Fail
      case Parsed(l, rest) => Parsed(Unary(ts[0].rune, l), rest)
    else if ts[0].Num? then Parsed(FloatLit(ts[0].text), ts[1..])
    else if ts[0] == Word("if") then IfTail(ts[1..])
    else if ts[0].Name? then
      if !Starts(ts[1..], Op('(')) then Parsed(Ident(ts[0].text), ts[1..])
      else if Starts(ts[2..], Op(')')) then Parsed(Call(ts[0].text, []), ts[3..])
      else
        match Args(ts[2..])
        case ArgsFail => Fail
        case ParsedArgs(args, rest) => Parsed(Call(ts[0].text, args), rest)
    else Fail
  }

  /** The part of `fact` after `if`; the `else` is optional. */
  function IfTail(ts: seq<Symbol>): (o: Outcome)
    ensures o.Parsed? ==> |o.rest| <= |ts|
    decreases |ts|, 2 + MAX_BINARY
  {
    match Expr(ts, 0)
    case Fail => Fail
    case Parsed(cond, rest) => if Starts(rest, Word("then")) then ThenTail(rest[1..], cond) else Fail
  }

  function ThenTail(ts: seq<Symbol>, cond: Node): (o: Outcome)
    ensures o.Parsed? ==> |o.rest| <= |ts|
    decreases |ts|, 2 + MAX_BINARY
  {
    match Expr(ts, 0)
    case Fail => Fail
    case Parsed(l, rest) =>
      if l.Null? then Fail
      else if !Starts(rest, Word("else")) then Parsed(If(cond, l, Null), rest)
      else
        match Expr(rest[1..], 0)
        case Fail => Fail
        case Parsed(r, rest') => if r.Null? then Fail else Parsed(If(cond, l, r), rest')
  }

  /** The loop of `call`, up to and including the closing parenthesis. */
  function Args(ts: seq<Symbol>): (o: ArgsOutcome)
    ensures o.ParsedArgs? ==> |o.rest| < |ts| && o.args != []
    decreases |ts|, 2 + MAX_BINARY
  {
    match Expr(ts, 0)
    case Fail => ArgsFail
    case Parsed(arg, rest) =>
      if Starts(rest, Op(',')) then
        match Args(rest[1..])
        case ArgsFail => ArgsFail
        case ParsedArgs(args, rest') => ParsedArgs([arg] + args, rest')
      else if Starts(rest, Op(')')) then ParsedArgs([arg], rest[1..])
      else ArgsFail
  }

  /** The row of an operator, or MAX_BINARY for a rune that is none. */
  function RowOf(op: char): (k: nat)
    ensures k <= MAX_BINARY
  {
    RowFrom(op, 0)
  }

  function RowFrom(op: char, k: nat): (row: nat)
    requires k <= MAX_BINARY
    ensures k <= row <= MAX_BINARY
    ensures row < MAX_BINARY ==> op in BINARY[row]
    ensures forall j :: k <= j < row ==> op !in BINARY[j]
    decreases MAX_BINARY - k
  {
    if k == MAX_BINARY || op in BINARY[k] then k else RowFrom(op, k + 1)
  }

  /** The symbols a tree stands for. */
  function Yield(n: Node): seq<Symbol>
    decreases n, 0
  {
    match n
    case Null => []
    case Paren(l) => [Op('(')] + Yield(l) + [Op(')')]
    case FloatLit(sval) => [Num(sval)]
    case Ident(sval) => [Name(sval)]
    case Call(fn, args) => [Name(fn), Op('(')] + YieldArgs(args) + [Op(')')]
    case Binary(op, l, r) => Yield(l) + [Op(op)] + Yield(r)
    case Unary(op, l) => [Op(op)] + Yield(l)
    case If(cond, l, r) => [Word("if")] + Yield(cond) + [Word("then")] + Yield(l) + YieldElse(r)
  }

  function YieldElse(r: Node): seq<Symbol>
    decreases r, 1
  {
    if r.Null? then [] else [Word("else")] + Yield(r)
  }

  function YieldArgs(args: seq<Node>): seq<Symbol>
    decreases args, 0
  {
    if args == [] then []
    else if |args| == 1 then Yield(args[0])
    else Yield(args[0]) + [Op(',')] + YieldArgs(args[1..])
  }

  /** A tree whose right edge passes through a unary operator or an `if`: nothing can be added on its right. */
  predicate EndsGreedy(n: Node) {
    n.Unary? || n.If? || (n.Binary? && EndsGreedy(n.right))
  }

  /** A tree whose right edge ends in a unary operator without an operand. */
  predicate EndsNull(n: Node) {
    match n
    case Binary(_, _, r) => EndsNull(r)
    case Unary(_, l) => l.Null? || EndsNull(l)
    case If(_, l, r) => if r.Null? then EndsNull(l) else EndsNull(r)
    case _ => false
  }

  /** A tree whose right edge passes through an `if` without `else`. */
  predicate EndsOpenIf(n: Node) {
    match n
    case Binary(_, _, r) => EndsOpenIf(r)
    case Unary(_, l) => EndsOpenIf(l)
    case If(_, _, r) => r.Null? || EndsOpenIf(r)
    case _ => false
  }

  /** A tree whose last symbol is a name. */
  predicate EndsName(n: Node) {
    match n
    case Ident(_) => true
    case Binary(_, _, r) => EndsName(r)
    case Unary(_, l) => EndsName(l)
    case If(_, l, r) => if r.Null? then EndsName(l) else EndsName(r)
    case _ => false
  }

  /**
   * The grammar: a tree that may stand at a level. An operator of row k takes a left operand of level k, which is
   * left association, and a right operand of level k + 1, so a higher row binds tighter. A unary operator and an
   * `if` stand at every level but take all they can, so they occur only on a right edge.
   */
  predicate Shaped(n: Node, level: nat) {
    match n
    case Null => false
    case FloatLit(_) => true
    case Ident(_) => true
    case Paren(l) => Shaped(l, 0) && !EndsNull(l)
    case Call(_, args) => forall i :: 0 <= i < |args| ==> Shaped(args[i], 0) && !EndsNull(args[i])
    case Unary(op, l) => op in UNARY && (l.Null? || Shaped(l, 0))
    case If(cond, l, r) =>
      Shaped(cond, 0) && !EndsNull(cond) && Shaped(l, 0) &&
      (r.Null? || (Shaped(r, 0) && !EndsNull(l) && !EndsOpenIf(l)))
    case Binary(op, l, r) =>
      level <= RowOf(op) < MAX_BINARY && Shaped(l, RowOf(op)) && Shaped(r, RowOf(op) + 1) && !EndsGreedy(l)
  }

  /** What may follow a tree that was parsed at a level. */
  predicate Follows(n: Node, level: nat, rest: seq<Symbol>) {
    rest == [] ||
    ( && !EndsNull(n)
      && (EndsName(n) ==> rest[0] != Op('('))
      && (EndsOpenIf(n) ==> rest[0] != Word("else"))
      && (rest[0].Op? && (EndsGreedy(n) || level <= RowOf(rest[0].rune)) ==> RowOf(rest[0].rune) == MAX_BINARY))
  }

  /** No operator is in two rows. */
  lemma OneRow(op: char, k: nat)
    requires k < MAX_BINARY
    ensures op in BINARY[k] <==> RowOf(op) == k
  {
    assert BINARY[0] == ['^'] && BINARY[1] == ['!'] && BINARY[2] == ['*', '/', '%'] && BINARY[3] == ['+', '-'];
    assert BINARY[4] == ['>', '<', AT_LEAST, AT_MOST] && BINARY[5] == ['=', NOT_EQUAL];
    assert BINARY[6] == ['&'] && BINARY[7] == ['|'];
  }

  /** Which operator is in which row, from the one that binds loosest to the one that binds tightest. */
  lemma OperatorRows(op: char)
    ensures RowOf(op) == 0 <==> op == '^'
    ensures RowOf(op) == 1 <==> op == '!'
    ensures RowOf(op) == 2 <==> op == '*' || op == '/' || op == '%'
    ensures RowOf(op) == 3 <==> op == '+' || op == '-'
    ensures RowOf(op) == 4 <==> op == '<' || op == '>' || op == AT_MOST || op == AT_LEAST
    ensures RowOf(op) == 5 <==> op == '=' || op == NOT_EQUAL
    ensures RowOf(op) == 6 <==> op == '&'
    ensures RowOf(op) == 7 <==> op == '|'
  {
    OneRow(op, 0); OneRow(op, 1); OneRow(op, 2); OneRow(op, 3);
    OneRow(op, 4); OneRow(op, 5); OneRow(op, 6); OneRow(op, 7);
  }

  /** The operators that may stand before an operand. */
  lemma UnaryOperators(op: char, x: string)
    ensures Parse([Op(op), Name(x)]) == Parsed(Unary(op, Ident(x)), []) <==> op == '+' || op == '-' || op == '!'
  {
    assert UNARY == ['+', '-', '!'];
    var n := Unary(op, Ident(x));
    assert Yield(Ident(x)) == [Name(x)] && Yield(n) + [] == [Op(op), Name(x)];
    assert op in UNARY <==> op == '+' || op == '-' || op == '!';
    assert Shaped(n, 0) <==> op in UNARY;
    ParseIsTheGrammar([Op(op), Name(x)], n, []);
  }

  /** The delimiters of the grammar are not binary operators. */
  lemma NotOperators(op: char)
    requires op == '(' || op == ')' || op == ','
    ensures RowOf(op) == MAX_BINARY && op !in UNARY
  {
    OneRow(op, 0); OneRow(op, 1); OneRow(op, 2); OneRow(op, 3);
    OneRow(op, 4); OneRow(op, 5); OneRow(op, 6); OneRow(op, 7);
  }

  /** A tree and a rest that a parse of `ts` at a level may yield. */
  ghost predicate Splits(ts: seq<Symbol>, level: nat, n: Node, rest: seq<Symbol>) {
    Shaped(n, level) && ts == Yield(n) + rest && Follows(n, level, rest)
  }

  lemma BinaryYield(op: char, l: Node, r: Node, rest: seq<Symbol>)
    ensures Yield(Binary(op, l, r)) + rest == Yield(l) + ([Op(op)] + (Yield(r) + rest))
  {
    Assoc(Yield(l) + [Op(op)], Yield(r), rest);
    Assoc(Yield(l), [Op(op)], Yield(r) + rest);
  }

  /** One turn of the loop of `expr`. */
  lemma TurnSound(ts: seq<Symbol>, level: nat, l: Node, r: Node, rest: seq<Symbol>)
    requires level < MAX_BINARY && Shaped(l, level) && Follows(l, level + 1, ts)
    requires StartsRow(ts, level) && Splits(ts[1..], level + 1, r, rest)
    ensures var n := Binary(ts[0].rune, l, r);
            Shaped(n, level) && Follows(n, level + 1, rest) && Yield(n) + rest == Yield(l) + ts
  {
    var op := ts[0].rune;
    OneRow(op, level);
    assert ts == [Op(op)] + (Yield(r) + rest);
    BinaryYield(op, l, r, rest);
  }

  /** The end of that loop. */
  lemma LoopEndSound(ts: seq<Symbol>, level: nat, n: Node)
    requires level < MAX_BINARY && Follows(n, level + 1, ts) && !StartsRow(ts, level)
    ensures Follows(n, level, ts)
  {
    if ts != [] && ts[0].Op? {
      OneRow(ts[0].rune, level);
    }
  }

  /** What the loop of `expr` makes of a sound left operand is sound. */
  lemma {:induction false} TailSound(ts: seq<Symbol>, level: nat, lhs: Node)
    requires level < MAX_BINARY && Shaped(lhs, level) && Follows(lhs, level + 1, ts)
    ensures var o := Tail(ts, level, lhs);
            o.Parsed? ==> Splits(Yield(lhs) + ts, level, o.node, o.rest)
    decreases |ts|, 2 + MAX_BINARY - level
  {
    if !StartsRow(ts, level) {
      LoopEndSound(ts, level, lhs);
    } else {
      var o := Expr(ts[1..], level + 1);
      ExprSound(ts[1..], level + 1);
      if o.Parsed? && !o.node.Null? {
        TurnSound(ts, level, lhs, o.node, o.rest);
        TailSound(o.rest, level, Binary(ts[0].rune, lhs, o.node));
      }
    }
  }

  /** Soundness: what is parsed is grammatical, spells the consumed symbols, and is as long as it can be. */
  lemma {:induction false} ExprSound(ts: seq<Symbol>, level: nat)
    requires level <= MAX_BINARY
    ensures var o := Expr(ts, level);
            o.Parsed? ==> if o.node.Null? then ts == [] && level < MAX_BINARY else Splits(ts, level, o.node, o.rest)
    decreases |ts|, 2 + MAX_BINARY - level
  {
    if level == MAX_BINARY {
      FactSound(ts);
    } else if ts != [] {
      ExprSound(ts, level + 1);
      var o := Expr(ts, level + 1);
      if o.Parsed? {
        ShapedBelow(o.node, level);
        TailSound(o.rest, level, o.node);
      }
    }
  }

  /** A tree that may stand at a level may stand at a looser one. */
  lemma ShapedBelow(n: Node, level: nat)
    requires Shaped(n, level + 1)
    ensures Shaped(n, level)
  {
  }

  lemma {:induction false} FactSound(ts: seq<Symbol>)
    ensures Fact(ts).Parsed? ==> Splits(ts, MAX_BINARY, Fact(ts).node, Fact(ts).rest)
    decreases |ts|, 1
  {
    if Fact(ts).Parsed? {
      var s, more := ts[0], ts[1..];
      assert ts == [s] + more;
      if s == Op('(') {
        ParenSound(more);
      } else if s.Op? && s.rune in UNARY {
        ExprSound(more, 0);
      } else if s == Word("if") {
        IfSound(more);
      } else if s.Name? && Starts(more, Op('(')) {
        CallSound(ts);
      }
    }
  }

  lemma {:induction false} ParenSound(ts: seq<Symbol>)
    requires Fact([Op('(')] + ts).Parsed?
    ensures var o := Fact([Op('(')] + ts); Splits([Op('(')] + ts, MAX_BINARY, o.node, o.rest)
    decreases |ts|, 3 + MAX_BINARY
  {
    assert ([Op('(')] + ts)[1..] == ts;
    ExprSound(ts, 0);
    var o := Expr(ts, 0);
    assert o.rest == [Op(')')] + o.rest[1..];
    NotOperators(')');
    assert [Op('(')] + (Yield(o.node) + ([Op(')')] + o.rest[1..])) == Yield(Paren(o.node)) + o.rest[1..];
  }

  lemma {:induction false} CallSound(ts: seq<Symbol>)
    requires Fact(ts).Parsed? && ts[0].Name? && Starts(ts[1..], Op('('))
    ensures Splits(ts, MAX_BINARY, Fact(ts).node, Fact(ts).rest)
    decreases |ts|, 0
  {
    var inner := ts[2..];
    assert ts == [ts[0], Op('(')] + inner;
    if Starts(inner, Op(')')) {
      assert inner == [Op(')')] + ts[3..];
    } else {
      ArgsSound(inner);
      var o := Args(inner);
      assert [ts[0], Op('(')] + (YieldArgs(o.args) + [Op(')')] + o.rest) == Yield(Call(ts[0].text, o.args)) + o.rest;
    }
  }

  lemma IfYield(cond: Node, l: Node, r: Node, rest: seq<Symbol>)
    ensures Yield(If(cond, l, r)) + rest
         == [Word("if")] + (Yield(cond) + ([Word("then")] + (Yield(l) + YieldElse(r) + rest)))
  {
  }

  lemma {:induction false} IfSound(ts: seq<Symbol>)
    ensures IfTail(ts).Parsed? ==> Splits([Word("if")] + ts, MAX_BINARY, IfTail(ts).node, IfTail(ts).rest)
    decreases |ts|, 3 + MAX_BINARY
  {
    ExprSound(ts, 0);
    var o := Expr(ts, 0);
    if IfTail(ts).Parsed? {
      assert o.rest == [Word("then")] + o.rest[1..];
      ThenSound(o.rest[1..], o.node);
      IfYield(o.node, IfTail(ts).node.left, IfTail(ts).node.right, IfTail(ts).rest);
    }
  }

  lemma {:induction false} ThenSound(ts: seq<Symbol>, cond: Node)
    requires Shaped(cond, 0) && !EndsNull(cond)
    ensures var o := ThenTail(ts, cond);
            o.Parsed? ==>
              && o.node.If? && o.node.cond == cond && Shaped(o.node, MAX_BINARY) && Follows(o.node, MAX_BINARY, o.rest)
              && ts == Yield(o.node.left) + YieldElse(o.node.right) + o.rest
    decreases |ts|, 3 + MAX_BINARY
  {
    ExprSound(ts, 0);
    var l := Expr(ts, 0);
    if ThenTail(ts, cond).Parsed? {
      if Starts(l.rest, Word("else")) {
        assert l.rest == [Word("else")] + l.rest[1..];
        ExprSound(l.rest[1..], 0);
        var r := Expr(l.rest[1..], 0);
        Assoc([Word("else")], Yield(r.node), r.rest);
        Assoc(Yield(l.node), YieldElse(r.node), r.rest);
      } else {
        assert Yield(l.node) + YieldElse(Null) == Yield(l.node);
      }
    }
  }

  lemma ArgsYield(arg: Node, args: seq<Node>, rest: seq<Symbol>)
    requires args != []
    ensures YieldArgs([arg] + args) + [Op(')')] + rest
         == Yield(arg) + ([Op(',')] + (YieldArgs(args) + [Op(')')] + rest))
  {
    assert ([arg] + args)[1..] == args;
    var one, inner, end := Yield(arg), YieldArgs(args), [Op(')')];
    assert YieldArgs([arg] + args) == one + [Op(',')] + inner;
    Assoc(one + [Op(',')], inner, end);
    Assoc(one + [Op(',')], inner + end, rest);
    Assoc(one, [Op(',')], inner + end + rest);
  }

  lemma {:induction false} ArgsSound(ts: seq<Symbol>)
    ensures Args(ts).ParsedArgs? ==>
              var args, rest := Args(ts).args, Args(ts).rest;
              && (forall i :: 0 <= i < |args| ==> Shaped(args[i], 0) && !EndsNull(args[i]))
              && ts == YieldArgs(args) + [Op(')')] + rest
    decreases |ts|, 3 + MAX_BINARY
  {
    ExprSound(ts, 0);
    var o := Expr(ts, 0);
    if Args(ts).ParsedArgs? {
      assert o.rest == [o.rest[0]] + o.rest[1..];
      if Starts(o.rest, Op(',')) {
        ArgsSound(o.rest[1..]);
        ArgsYield(o.node, Args(o.rest[1..]).args, Args(o.rest[1..]).rest);
      }
    }
  }

  lemma FollowsAbove(n: Node, level: nat, rest: seq<Symbol>)
    requires Follows(n, level, rest)
    ensures Follows(n, level + 1, rest)
  {
  }

  /** What may follow a tree does not start with an operator of its level. */
  lemma FollowsStops(n: Node, level: nat, rest: seq<Symbol>)
    requires level < MAX_BINARY && Follows(n, level, rest)
    ensures !StartsRow(rest, level)
  {
    if rest != [] && rest[0].Op? {
      OneRow(rest[0].rune, level);
    }
  }

  lemma YieldNonEmpty(n: Node)
    requires !n.Null?
    ensures Yield(n) != []
  {
  }

  lemma OnlyGreedyEnds(n: Node)
    ensures EndsNull(n) || EndsOpenIf(n) ==> EndsGreedy(n)
  {
  }

  /** An operator of the row between two operands takes the loop one turn further. */
  lemma ReadsTurn(op: char, l: Node, r: Node, level: nat, rest: seq<Symbol>)
    requires level < MAX_BINARY && RowOf(op) == level && !r.Null?
    requires var after := [Op(op)] + (Yield(r) + rest);
             Expr(Yield(l) + after, level) == Tail(after, level, l)
    requires Expr(Yield(r) + rest, level + 1) == Parsed(r, rest)
    ensures Expr(Yield(Binary(op, l, r)) + rest, level) == Tail(rest, level, Binary(op, l, r))
  {
    OneRow(op, level);
    var after := [Op(op)] + (Yield(r) + rest);
    BinaryYield(op, l, r, rest);
    assert after[1..] == Yield(r) + rest;
  }

  /** After a tree that can be continued, an operator of its row may follow. */
  lemma OperatorFollows(op: char, l: Node, r: Node, level: nat, rest: seq<Symbol>)
    requires RowOf(op) == level < MAX_BINARY && !EndsGreedy(l)
    ensures Follows(l, level + 1, [Op(op)] + (Yield(r) + rest))
  {
    OnlyGreedyEnds(l);
    OneRow(op, level);
    NotOperators('(');
  }

  /** A grammatical tree before what may follow its tighter level is read up to the loop of its own level. */
  lemma {:induction false} ReadsOperand(n: Node, level: nat, rest: seq<Symbol>)
    requires level < MAX_BINARY && Shaped(n, level) && Follows(n, level + 1, rest)
    ensures Expr(Yield(n) + rest, level) == Tail(rest, level, n)
    decreases n, 2 * (MAX_BINARY - level) + 2
  {
    if n.Binary? && RowOf(n.op) == level {
      OperatorFollows(n.op, n.left, n.right, level, rest);
      ReadsOperand(n.left, level, [Op(n.op)] + (Yield(n.right) + rest));
      ExprComplete(n.right, level + 1, rest);
      ReadsTurn(n.op, n.left, n.right, level, rest);
    } else {
      YieldNonEmpty(n);
      ExprComplete(n, level + 1, rest);
    }
  }

  /** Completeness: a grammatical tree, followed by what may follow it, is parsed back to exactly itself. */
  lemma {:induction false} ExprComplete(n: Node, level: nat, rest: seq<Symbol>)
    requires level <= MAX_BINARY && Shaped(n, level) && Follows(n, level, rest)
    ensures Expr(Yield(n) + rest, level) == Parsed(n, rest)
    decreases n, 2 * (MAX_BINARY - level) + 3
  {
    if level < MAX_BINARY {
      FollowsAbove(n, level, rest);
      ReadsOperand(n, level, rest);
      FollowsStops(n, level, rest);
    } else {
      match n
      case FloatLit(_) =>
      case Ident(_) =>
      case Paren(l) => ParenComplete(l, rest);
      case Unary(op, l) => UnaryComplete(op, l, rest);
      case Call(fn, args) => CallComplete(fn, args, rest);
      case If(cond, l, r) => IfComplete(cond, l, r, rest);
    }
  }

  lemma {:induction false} ParenComplete(l: Node, rest: seq<Symbol>)
    requires Shaped(l, 0) && !EndsNull(l)
    ensures Fact(Yield(Paren(l)) + rest) == Parsed(Paren(l), rest)
    decreases Paren(l), 0
  {
    NotOperators(')');
    assert (Yield(Paren(l)) + rest)[1..] == Yield(l) + ([Op(')')] + rest);
    ExprComplete(l, 0, [Op(')')] + rest);
  }

  lemma {:induction false} UnaryComplete(op: char, l: Node, rest: seq<Symbol>)
    requires Shaped(Unary(op, l), MAX_BINARY) && Follows(Unary(op, l), MAX_BINARY, rest)
    ensures Fact(Yield(Unary(op, l)) + rest) == Parsed(Unary(op, l), rest)
    decreases Unary(op, l), 0
  {
    hide RowOf;
    NotOperators('(');
    var ts := Yield(Unary(op, l)) + rest;
    assert ts == [Op(op)] + (Yield(l) + rest);
    assert ts[1..] == Yield(l) + rest;
    if l.Null? {
      assert rest == [];
      assert Yield(l) + rest == [];
    } else {
      ExprComplete(l, 0, rest);
    }
  }

  lemma {:induction false} CallComplete(fn: string, args: seq<Node>, rest: seq<Symbol>)
    requires forall i :: 0 <= i < |args| ==> Shaped(args[i], 0) && !EndsNull(args[i])
    ensures Fact(Yield(Call(fn, args)) + rest) == Parsed(Call(fn, args), rest)
    decreases args, 1
  {
    var ts := Yield(Call(fn, args)) + rest;
    assert ts == [Name(fn), Op('(')] + (YieldArgs(args) + [Op(')')] + rest);
    assert ts[2..] == YieldArgs(args) + [Op(')')] + rest;
    if args == [] {
      assert ts[3..] == rest;
    } else {
      ArgsComplete(args, rest);
      NotClosing(args[0], 0, ts[2..]);
    }
  }

  /** No tree starts with a closing parenthesis. */
  lemma {:induction false} NotClosing(n: Node, level: nat, ts: seq<Symbol>)
    requires Shaped(n, level) && Yield(n) <= ts
    ensures ts != [] && ts[0] != Op(')')
  {
    YieldNonEmpty(n);
    if n.Binary? {
      NotClosing(n.left, RowOf(n.op), ts);
    }
    NotOperators(')');
  }

  lemma {:induction false} ArgsComplete(args: seq<Node>, rest: seq<Symbol>)
    requires args != [] && forall i :: 0 <= i < |args| ==> Shaped(args[i], 0) && !EndsNull(args[i])
    ensures Args(YieldArgs(args) + [Op(')')] + rest) == ParsedArgs(args, rest)
    decreases args, 0
  {
    NotOperators(')');
    NotOperators(',');
    if |args| == 1 {
      assert YieldArgs(args) + [Op(')')] + rest == Yield(args[0]) + ([Op(')')] + rest);
      ExprComplete(args[0], 0, [Op(')')] + rest);
      assert args == [args[0]];
    } else {
      var more := YieldArgs(args[1..]) + [Op(')')] + rest;
      assert args == [args[0]] + args[1..];
      ArgsYield(args[0], args[1..], rest);
      ExprComplete(args[0], 0, [Op(',')] + more);
      assert ([Op(',')] + more)[1..] == more;
      ArgsComplete(args[1..], rest);
    }
  }

  lemma {:induction false} IfComplete(cond: Node, l: Node, r: Node, rest: seq<Symbol>)
    requires Shaped(If(cond, l, r), MAX_BINARY) && Follows(If(cond, l, r), MAX_BINARY, rest)
    ensures Fact(Yield(If(cond, l, r)) + rest) == Parsed(If(cond, l, r), rest)
    decreases If(cond, l, r), 1
  {
    IfYield(cond, l, r, rest);
    var more := Yield(l) + YieldElse(r) + rest;
    ExprComplete(cond, 0, [Word("then")] + more);
    assert ([Word("then")] + more)[1..] == more;
    ThenComplete(cond, l, r, rest);
  }

  lemma {:induction false} ThenComplete(cond: Node, l: Node, r: Node, rest: seq<Symbol>)
    requires Shaped(If(cond, l, r), MAX_BINARY) && Follows(If(cond, l, r), MAX_BINARY, rest)
    ensures ThenTail(Yield(l) + YieldElse(r) + rest, cond) == Parsed(If(cond, l, r), rest)
    decreases If(cond, l, r), 0
  {
    if r.Null? {
      assert Yield(l) + YieldElse(r) + rest == Yield(l) + rest;
      ExprComplete(l, 0, rest);
    } else {
      var more := [Word("else")] + (Yield(r) + rest);
      assert Yield(l) + YieldElse(r) + rest == Yield(l) + more;
      ExprComplete(l, 0, more);
      assert more[1..] == Yield(r) + rest;
      ExprComplete(r, 0, rest);
    }
  }

  /** `avar_eqn_parse`: whatever follows the expression is ignored. */
  function Parse(ts: seq<Symbol>): (o: Outcome)
  {
    Expr(ts, 0)
  }

  /**
   * The parser decides the grammar exactly: it yields a tree and a rest if and only if the tree is grammatical,
   * spells what was consumed, and the rest may follow it.
   */
  lemma ParseIsTheGrammar(ts: seq<Symbol>, n: Node, rest: seq<Symbol>)
    requires ts != []
    ensures Parse(ts) == Parsed(n, rest) <==> Splits(ts, 0, n, rest)
  {
    ExprSound(ts, 0);
    if Splits(ts, 0, n, rest) {
      ExprComplete(n, 0, rest);
    }
  }

  /** It fails exactly when no prefix of the input is such a tree. */
  lemma ParseFailsExactly(ts: seq<Symbol>)
    ensures Parse(ts).Fail? <==> ts != [] && forall n, rest :: !Splits(ts, 0, n, rest)
  {
    ExprSound(ts, 0);
    forall n, rest | Splits(ts, 0, n, rest)
      ensures Parse(ts) == Parsed(n, rest)
    {
      ExprComplete(n, 0, rest);
    }
  }

  /** The grammar is unambiguous: no two trees are spelled alike. */
  lemma Unambiguous(n: Node, n': Node)
    requires Shaped(n, 0) && Shaped(n', 0) && Yield(n) == Yield(n')
    ensures n == n'
  {
    ExprComplete(n, 0, []);
    ExprComplete(n', 0, []);
    assert Yield(n) + [] == Yield(n') + [];
  }

  /** A sentence with every construct but operators. */
  lemma SampleSentence(a: string, b: string, f: string, c: string, d: string)
    ensures Parse([Word("if"), Name(a), Word("then"), Name(b), Word("else"),
                   Name(f), Op('('), Name(c), Op(','), Op('('), Num(d), Op(')'), Op(')')])
         == Parsed(If(Ident(a), Ident(b), Call(f, [Ident(c), Paren(FloatLit(d))])), [])
  {
    var args := [Ident(c), Paren(FloatLit(d))];
    var n := If(Ident(a), Ident(b), Call(f, args));
    assert args[1..] == [Paren(FloatLit(d))];
    assert Yield(args[1]) == [Op('('), Num(d), Op(')')];
    assert YieldArgs(args) == [Name(c), Op(','), Op('('), Num(d), Op(')')];
    assert Yield(Call(f, args)) == [Name(f), Op('('), Name(c), Op(','), Op('('), Num(d), Op(')'), Op(')')];
    IfYield(Ident(a), Ident(b), Call(f, args), []);
    var ts := [Word("if"), Name(a), Word("then"), Name(b), Word("else"),
               Name(f), Op('('), Name(c), Op(','), Op('('), Num(d), Op(')'), Op(')')];
    assert YieldElse(Call(f, args)) == ts[4..] && Yield(Ident(a)) == [Name(a)] && Yield(Ident(b)) == [Name(b)];
    assert ts == [Word("if")] + ([Name(a)] + ([Word("then")] + ([Name(b)] + ts[4..] + [])));
    assert Shaped(FloatLit(d), 0) && Shaped(args[0], 0) && Shaped(args[1], 0) && Shaped(Call(f, args), 0);
    ExprComplete(n, 0, []);
  }

  /** Rows of BINARY: of two operators the one in the higher row binds tighter, and a row associates to the left. */
  lemma HigherRowBindsTighter(a: string, p: char, b: string, q: char, c: string)
    requires RowOf(p) < MAX_BINARY && RowOf(q) < MAX_BINARY
    ensures Parse([Name(a), Op(p), Name(b), Op(q), Name(c)]) == Parsed(
              if RowOf(p) < RowOf(q) then Binary(p, Ident(a), Binary(q, Ident(b), Ident(c)))
              else Binary(q, Binary(p, Ident(a), Ident(b)), Ident(c)), [])
  {
    var n := if RowOf(p) < RowOf(q) then Binary(p, Ident(a), Binary(q, Ident(b), Ident(c)))
             else Binary(q, Binary(p, Ident(a), Ident(b)), Ident(c));
    assert Yield(Ident(a)) == [Name(a)] && Yield(Ident(b)) == [Name(b)] && Yield(Ident(c)) == [Name(c)];
    assert Yield(n) == [Name(a), Op(p), Name(b), Op(q), Name(c)];
    assert Yield(n) + [] == Yield(n);
    ExprComplete(n, 0, []);
  }
}
