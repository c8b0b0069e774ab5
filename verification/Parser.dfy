/** The recursive-descent parser of parse.c over the lexer, proved against the grammar of module Grammar. */
module Parser {
  import opened Wrappers
  import opened Equation
  import G = Grammar
  import L = Lexer

  /** The symbols of a list of tokens. */
  function Views(ts: seq<L.Token>): (ss: seq<G.Symbol>)
    requires forall i :: 0 <= i < |ts| ==> ts[i].text != []
    ensures |ss| == |ts|
  {
    seq(|ts|, i requires 0 <= i < |ts| => L.View(ts[i]))
  }

  /** A method's result is what the grammar says. */
  ghost predicate Agrees(o: G.Outcome, ok: bool, n: Node, rest: seq<G.Symbol>) {
    ok == o.Parsed? && (ok ==> n == o.node && rest == o.rest)
  }

  class Parser {
    const l: L.Lexer
    /** The symbols still to be parsed. */
    ghost var todo: seq<G.Symbol>

    ghost predicate Valid()
      reads this, l
    {
      l.Valid() && todo == Views(l.Rest())
    }

    constructor (l: L.Lexer)
      requires l.Valid()
      ensures this.l == l && Valid() && todo == Views(l.Rest())
    {
      this.l := l;
      todo := Views(l.Rest());
    }

    /** `lexer_peek`, as the parser looks at the token. */
    method Look() returns (s: Option<G.Symbol>)
      requires Valid()
      modifies `todo, l
      ensures Valid() && todo == old(todo)
      ensures s == if todo == [] then None else Some(todo[0])
    {
      var t := l.Peek();
      return if t.None? then None else Some(L.View(t.value));
    }

    /** `lexer_nexttok` on a token that was looked at. */
    method Skip()
      requires Valid() && todo != []
      modifies `todo, l
      ensures Valid() && todo == old(todo)[1..]
    {
      var t := l.NextTok();
      todo := todo[1..];
    }

    /** `consume_tok`. */
    method ConsumeTok(r: char) returns (ok: bool)
      requires Valid()
      modifies `todo, l
      ensures Valid() && ok == G.Starts(old(todo), G.Op(r))
      ensures todo == if ok then old(todo)[1..] else old(todo)
    {
      var s := Look();
      ok := s == Some(G.Op(r));
      if ok {
        Skip();
      }
    }

    /** `consume_reserved`. */
    method ConsumeReserved(word: string) returns (ok: bool)
      requires Valid()
      modifies `todo, l
      ensures Valid() && ok == G.Starts(old(todo), G.Word(word))
      ensures todo == if ok then old(todo)[1..] else old(todo)
    {
      var s := Look();
      ok := s == Some(G.Word(word));
      if ok {
        Skip();
      }
    }

    /** `consume_any`. */
    method ConsumeAny(ops: string) returns (ok: bool, op: char)
      requires Valid()
      modifies `todo, l
      ensures Valid()
      ensures ok == !NoneOf(old(todo), ops)
      ensures ok ==> op == old(todo)[0].rune && todo == old(todo)[1..]
      ensures !ok ==> todo == old(todo)
    {
      op := L.END;
      var pos := 0;
      while pos < |ops|
        invariant 0 <= pos <= |ops|
        invariant Valid() && todo == old(todo) && NoneOf(todo, ops[..pos])
      {
        NoneNext(todo, ops, pos);
        ok := ConsumeTok(ops[pos]);
        if ok {
          return true, ops[pos];
        }
        pos := pos + 1;
      }
      assert ops[..pos] == ops;
      return false, op;
    }

    /** `num`. */
    method Num() returns (ok: bool, n: Node)
      requires Valid()
      modifies `todo, l
      ensures Valid()
      ensures ok == (old(todo) != [] && old(todo)[0].Num?)
      ensures ok ==> n == FloatLit(old(todo)[0].text) && todo == old(todo)[1..]
      ensures !ok ==> todo == old(todo)
    {
      var s := Look();
      if s.None? || !s.value.Num? {
        return false, Null;
      }
      Skip();
      return true, FloatLit(s.value.text);
    }

    /** `ident`. */
    method Ident() returns (ok: bool, name: string)
      requires Valid()
      modifies `todo, l
      ensures Valid()
      ensures ok == (old(todo) != [] && old(todo)[0].Name?)
      ensures ok ==> name == old(todo)[0].text && todo == old(todo)[1..]
      ensures !ok ==> todo == old(todo)
    {
      var s := Look();
      if s.None? || !s.value.Name? {
        return false, "";
      }
      Skip();
      return true, s.value.text;
    }

    /** `expr`: a level's operand, then a loop over the operators of its row. */
    method Expr(level: nat) returns (ok: bool, n: Node)
      requires Valid() && level < G.MAX_BINARY
      modifies `todo, l
      ensures Valid() && Agrees(G.Expr(old(todo), level), ok, n, todo)
      decreases |todo|, 2 * (G.MAX_BINARY - level) + 1
    {
      ghost var ts := todo;
      var s := Look();
      if s.None? {
        return true, Null;
      }
      var lhs, rhs, op;
      ok, lhs := Operand(level);
      if !ok {
        return false, Null;
      }
      while true
        invariant Valid() && |todo| < |ts|
        invariant G.Tail(todo, level, lhs) == G.Expr(ts, level)
        decreases |todo|
      {
        ok, op := ConsumeAny(G.BINARY[level]);
        if !ok {
          break;
        }
        ok, rhs := Operand(level);
        if !ok || rhs.Null? {
          return false, Null;
        }
        lhs := Binary(op, lhs, rhs);
      }
      return true, lhs;
    }

    /** The choice between the next level and `fact`, made twice in `expr`. */
    method Operand(level: nat) returns (ok: bool, n: Node)
      requires Valid() && level < G.MAX_BINARY
      modifies `todo, l
      ensures Valid() && Agrees(G.Expr(old(todo), level + 1), ok, n, todo)
      decreases |todo|, 2 * (G.MAX_BINARY - level)
    {
      if level + 1 == G.MAX_BINARY {
        ok, n := Fact();
      } else {
        ok, n := Expr(level + 1);
      }
    }
    /** `fact`. */
    method Fact() returns (ok: bool, n: Node)
      requires Valid()
      modifies `todo, l
      ensures Valid() && Agrees(G.Fact(old(todo)), ok, n, todo)
      decreases |todo|, 1
    {
      var op, x;
      n := Null;
      ok := ConsumeTok('(');
      if ok {
        ok, x := Expr(0);
        if !ok {
          return;
        }
        ok := ConsumeTok(')');
        return ok, Paren(x);
      }
      ok, op := ConsumeAny(G.UNARY);
      if ok {
        ok, x := Expr(0);
        return ok, Unary(op, x);
      }
      ok, n := Num();
      if ok {
        return;
      }
      ok := ConsumeReserved("if");
      if ok {
        ok, n := IfPart();
        return;
      }
      FactIsName(todo);
      ok, n := NamePart();
    }

    /** The end of `fact`: a name, or a call of one. */
    method NamePart() returns (ok: bool, n: Node)
      requires Valid()
      modifies `todo, l
      ensures Valid() && Agrees(NameOutcome(old(todo)), ok, n, todo)
      decreases |todo|, 0
    {
      var name;
      n := Null;
      ok, name := Ident();
      if ok {
        var call := ConsumeTok('(');
        if call {
          ok, n := CallPart(name);
        } else {
          n := Equation.Ident(name);
        }
      }
    }

    /** The part of `fact` after `if`. */
    method IfPart() returns (ok: bool, n: Node)
      requires Valid()
      modifies `todo, l
      ensures Valid() && Agrees(G.IfTail(old(todo)), ok, n, todo)
      decreases |todo|, 2 * G.MAX_BINARY + 2
    {
      var cond;
      n := Null;
      ok, cond := Expr(0);
      if !ok {
        return;
      }
      ok := ConsumeReserved("then");
      if !ok {
        return;
      }
      ok, n := ThenPart(cond);
    }

    /** The part of `fact` after `then`. */
    method ThenPart(cond: Node) returns (ok: bool, n: Node)
      requires Valid()
      modifies `todo, l
      ensures Valid() && Agrees(G.ThenTail(old(todo), cond), ok, n, todo)
      decreases |todo|, 2 * G.MAX_BINARY + 2
    {
      var x, y;
      ok, x := Expr(0);
      if !ok || x.Null? {
        return false, Null;
      }
      y := Null;
      var more := ConsumeReserved("else");
      if more {
        ok, y := Expr(0);
        if !ok || y.Null? {
          return false, Null;
        }
      }
      return true, If(cond, x, y);
    }

    /** `call`, after the opening parenthesis. */
    method CallPart(fn: string) returns (ok: bool, n: Node)
      requires Valid()
      modifies `todo, l
      ensures Valid()
      ensures Agrees(CallOutcome(old(todo), fn), ok, n, todo)
      decreases |todo|, 2 * G.MAX_BINARY + 2
    {
      n := Null;
      ok := ConsumeTok(')');
      if ok {
        return true, Call(fn, []);
      }
      ghost var ts := todo;
      var args: seq<Node> := [];
      while true
        invariant Valid() && |todo| <= |ts|
        invariant G.Args(ts) == Prepend(args, G.Args(todo))
        decreases |todo|
      {
        ghost var before := todo;
        var arg;
        ok, arg := Expr(0);
        if !ok {
          return;
        }
        var comma := ConsumeTok(',');
        if !comma {
          ok := ConsumeTok(')');
          return ok, Call(fn, args + [arg]);
        }
        PrependAgain(args, arg, G.Args(todo));
        args := args + [arg];
      }
    }
  }

  /** The next symbol is none of the operators. */
  ghost predicate NoneOf(ts: seq<G.Symbol>, ops: string) {
    ts == [] || !ts[0].Op? || ts[0].rune !in ops
  }

  lemma NoneNext(ts: seq<G.Symbol>, ops: string, pos: nat)
    requires pos < |ops|
    ensures NoneOf(ts, ops[..pos + 1]) <==> NoneOf(ts, ops[..pos]) && !G.Starts(ts, G.Op(ops[pos]))
    ensures G.Starts(ts, G.Op(ops[pos])) ==> !NoneOf(ts, ops)
  {
    assert ops[..pos + 1] == ops[..pos] + [ops[pos]];
  }

  /** What a name comes to, alone or called. */
  ghost function NameOutcome(ts: seq<G.Symbol>): G.Outcome {
    if ts == [] || !ts[0].Name? then G.Fail
    else if G.Starts(ts[1..], G.Op('(')) then CallOutcome(ts[2..], ts[0].text)
    else G.Parsed(Ident(ts[0].text), ts[1..])
  }

  /** It is the last possibility of `fact`. */
  lemma FactIsName(ts: seq<G.Symbol>)
    requires ts != [] ==> ts[0] != G.Op('(') && !(ts[0].Op? && ts[0].rune in G.UNARY) && !ts[0].Num? && ts[0] != G.Word("if")
    ensures G.Fact(ts) == NameOutcome(ts)
  {
    if ts != [] && ts[0].Name? && G.Starts(ts[1..], G.Op('(')) {
      assert ts[1..][1..] == ts[2..];
    }
  }

  /** What a call comes to after its opening parenthesis. */
  ghost function CallOutcome(ts: seq<G.Symbol>, fn: string): G.Outcome {
    if G.Starts(ts, G.Op(')')) then G.Parsed(Call(fn, []), ts[1..])
    else
      match G.Args(ts)
      case ArgsFail => G.Fail
      case ParsedArgs(args, rest) => G.Parsed(Call(fn, args), rest)
  }

  /** Arguments read before those of an outcome. */
  ghost function Prepend(args: seq<Node>, o: G.ArgsOutcome): G.ArgsOutcome {
    match o
    case ArgsFail => G.ArgsFail
    case ParsedArgs(more, rest) => G.ParsedArgs(args + more, rest)
  }

  lemma PrependAgain(args: seq<Node>, arg: Node, o: G.ArgsOutcome)
    ensures Prepend(args + [arg], o) == Prepend(args, Prepend([arg], o))
  {
    if o.ParsedArgs? {
      assert args + [arg] + o.args == args + ([arg] + o.args);
    }
  }

  /** `avar_eqn_parse`: a text is an equation exactly when some prefix of its tokens is a tree of the grammar. */
  method AvarEqnParse(eqn: string) returns (r: Result<Node>)
    requires L.Ascii(eqn)
    ensures var ts := Views(L.Tokens(L.LowerAll(eqn), 0));
      && (r.Ok? <==> ts == [] || exists n, rest :: G.Splits(ts, 0, n, rest))
      && (r.Ok? && ts != [] ==> exists rest :: G.Splits(ts, 0, r.value, rest))
      && (r.Ok? && ts == [] ==> r.value == Null)
      && (r.Err? ==> r.error == Unspecified)
  {
    ghost var ts := Views(L.Tokens(L.LowerAll(eqn), 0));
    var lexer := new L.Lexer(eqn);
    var p := new Parser(lexer);
    var ok, n := p.Expr(0);
    G.ParseFailsExactly(ts);
    if !ok {
      return Err(Unspecified);
    }
    if ts != [] {
      G.ParseIsTheGrammar(ts, n, p.todo);
    }
    return Ok(n);
  }
}
