/** The syntax tree that parse.c builds and the evaluator `svisit` of sim.c. */
module Equation {
  import opened Wrappers
  import Pulse

  /** The multi-byte operator runes of parse.c. */
  const NOT_EQUAL := '\U{2260}'
  const AT_MOST := '\U{2264}'
  const AT_LEAST := '\U{2265}'

  /** `Null` is the NULL pointer: a missing operand or a missing `else`. */
  datatype Node =
    | Null
    | Paren(left: Node)
    | FloatLit(sval: string)
    | Ident(sval: string)
    | Call(fn: string, args: seq<Node>)
    | Binary(op: char, left: Node, right: Node)
    | Unary(op: char, left: Node)
    | If(cond: Node, left: Node, right: Node)

  /** What the C library supplies: atof, x/0.0, pow, NAN, and `canonicalize` of util.c. */
  datatype Runtime = Runtime(
    atof: string -> real,
    divZero: real -> real,
    pow: (real, real) -> real,
    nan: real,
    canon: string -> string
  )

  /** The run-time functions and the size of the argument buffer of `svisit`. */
  const RT_FNS := ["pulse", "min", "max"]
  const MAX_ARGS := 6

  /** `resolve` in a module without submodules: the first variable of that name, a leading dot ignored. */
  function Resolve(names: seq<string>, name: string): (slot: Option<nat>)
    ensures slot.Some? ==> slot.value < |names|
  {
    FirstNamed(names, if |name| > 0 && name[0] == '.' then name[1..] else name, 0)
  }

  function FirstNamed(names: seq<string>, name: string, i: nat): (slot: Option<nat>)
    requires i <= |names|
    ensures slot.Some? ==> i <= slot.value < |names| && names[slot.value] == name
    ensures slot.None? ==> forall j :: i <= j < |names| ==> names[j] != name
    decreases |names| - i
  {
    if i == |names| then None
    else if names[i] == name then Some(i)
    else FirstNamed(names, name, i + 1)
  }

  /** What the simulator demands of an equation: no NULL child, every name and function known. */
  predicate Linked(rt: Runtime, names: seq<string>, n: Node) {
    match n
    case Null => false
    case Paren(left) => Linked(rt, names, left)
    case FloatLit(_) => true
    case Ident(sval) => Resolve(names, rt.canon(sval)).Some?
    case Call(fn, args) =>
      rt.canon(fn) in RT_FNS && |args| <= MAX_ARGS && forall i :: 0 <= i < |args| ==> Linked(rt, names, args[i])
    case Binary(_, left, right) => Linked(rt, names, left) && Linked(rt, names, right)
    case Unary(_, left) => Linked(rt, names, left)
    case If(cond, left, right) => Linked(rt, names, cond) && Linked(rt, names, left) && Linked(rt, names, right)
  }

  /** The slots the walker of sim.c appends to `direct_deps`, in its order; an unknown name adds nothing. */
  function Deps(rt: Runtime, names: seq<string>, n: Node): (ds: seq<nat>)
    ensures forall k :: 0 <= k < |ds| ==> ds[k] < |names|
    decreases n, 0
  {
    match n
    case Null => []
    case Paren(left) => Deps(rt, names, left)
    case FloatLit(_) => []
    case Ident(sval) =>
      var slot := Resolve(names, rt.canon(sval));
      if slot.Some? then [slot.value] else []
    case Call(_, args) => DepsAll(rt, names, args)
    case Binary(_, left, right) => Deps(rt, names, left) + Deps(rt, names, right)
    case Unary(_, left) => Deps(rt, names, left)
    case If(cond, left, right) => Deps(rt, names, cond) + Deps(rt, names, left) + Deps(rt, names, right)
  }

  function DepsAll(rt: Runtime, names: seq<string>, args: seq<Node>): (ds: seq<nat>)
    ensures forall k :: 0 <= k < |ds| ==> ds[k] < |names|
    decreases args, 1
  {
    if args == [] then [] else DepsAll(rt, names, args[..|args| - 1]) + Deps(rt, names, args[|args| - 1])
  }

  function Truth(b: bool): real {
    if b then 1.0 else 0.0
  }

  function Divide(rt: Runtime, l: real, r: real): real {
    if r == 0.0 then rt.divZero(l) else l / r
  }

  function UnaryValue(rt: Runtime, op: char, l: real): real {
    match op
    case '+' => l
    case '-' => -l
    case '!' => Truth(l == 0.0)
    case _ => rt.nan
  }

  /** The binary operators; the parser also accepts '!' and '%', which have no meaning here. */
  function BinaryValue(rt: Runtime, op: char, l: real, r: real): real {
    if op == '+' then l + r
    else if op == '-' then l - r
    else if op == '*' then l * r
    else if op == '/' then Divide(rt, l, r)
    else if op == '<' then Truth(l < r)
    else if op == '>' then Truth(l > r)
    else if op == '&' then Truth(l == 1.0 && r == 1.0)
    else if op == '|' then Truth(l == 1.0 || r == 1.0)
    else if op == '=' then Truth(l == r)
    else if op == NOT_EQUAL then Truth(l != r)
    else if op == AT_MOST then Truth(l <= r)
    else if op == AT_LEAST then Truth(l >= r)
    else if op == '^' then rt.pow(l, r)
    else rt.nan
  }

  /** An entry of the zeroed argument buffer. */
  function Arg(args: seq<real>, i: nat): real {
    if i < |args| then args[i] else 0.0
  }

  function CallValue(rt: Runtime, fn: string, args: seq<real>, dt: real, time: real): real
    requires dt > 0.0
  {
    if fn == "pulse" then
      var interval := if |args| > 2 then args[2] else 0.0;
      if Pulse.Fires(dt, time, Arg(args, 1), interval) then Pulse.Rate(Arg(args, 0), dt) else 0.0
    else if |args| != 2 then rt.nan
    else if fn == "min" then if args[0] < args[1] then args[0] else args[1]
    else if args[0] > args[1] then args[0] else args[1]
  }

  /** `svisit`: the value of an equation on a row of variable values. */
  function Eval(rt: Runtime, names: seq<string>, n: Node, row: seq<real>, dt: real, time: real): real
    requires Linked(rt, names, n) && |row| == |names| && dt > 0.0
    decreases n, 0
  {
    match n
    case Paren(left) => Eval(rt, names, left, row, dt, time)
    case FloatLit(sval) => rt.atof(sval)
    case Ident(sval) => row[Resolve(names, rt.canon(sval)).value]
    case Call(fn, args) => CallValue(rt, rt.canon(fn), EvalAll(rt, names, args, row, dt, time), dt, time)
    case If(cond, left, right) =>
      if Eval(rt, names, cond, row, dt, time) != 0.0 then Eval(rt, names, left, row, dt, time)
      else Eval(rt, names, right, row, dt, time)
    case Unary(op, left) => UnaryValue(rt, op, Eval(rt, names, left, row, dt, time))
    case Binary(op, left, right) =>
      BinaryValue(rt, op, Eval(rt, names, left, row, dt, time), Eval(rt, names, right, row, dt, time))
  }

  function EvalAll(rt: Runtime, names: seq<string>, args: seq<Node>, row: seq<real>, dt: real, time: real): (vs: seq<real>)
    requires forall i :: 0 <= i < |args| ==> Linked(rt, names, args[i])
    requires |row| == |names| && dt > 0.0
    ensures |vs| == |args|
    decreases args, 1
  {
    if args == [] then []
    else EvalAll(rt, names, args[..|args| - 1], row, dt, time) + [Eval(rt, names, args[|args| - 1], row, dt, time)]
  }

  /** Two rows that no equation reading only the slots `ds` can tell apart. */
  ghost predicate Agree(ds: seq<nat>, row: seq<real>, row': seq<real>) {
    |row| == |row'| && forall d :: d in ds && d < |row| ==> row[d] == row'[d]
  }

  /** An equation's value depends on its direct dependencies and the time alone: the walker misses nothing. */
  lemma {:induction false} EvalReadsDeps(rt: Runtime, names: seq<string>, n: Node, row: seq<real>, row': seq<real>, dt: real, time: real)
    requires Linked(rt, names, n) && |row| == |names| && dt > 0.0
    requires Agree(Deps(rt, names, n), row, row')
    ensures Eval(rt, names, n, row, dt, time) == Eval(rt, names, n, row', dt, time)
    decreases n, 0
  {
    match n
    case Paren(left) => EvalReadsDeps(rt, names, left, row, row', dt, time);
    case FloatLit(_) =>
    case Ident(_) =>
    case Call(_, args) => EvalAllReadsDeps(rt, names, args, row, row', dt, time);
    case If(cond, left, right) =>
      EvalReadsDeps(rt, names, cond, row, row', dt, time);
      EvalReadsDeps(rt, names, left, row, row', dt, time);
      EvalReadsDeps(rt, names, right, row, row', dt, time);
    case Unary(_, left) => EvalReadsDeps(rt, names, left, row, row', dt, time);
    case Binary(_, left, right) =>
      EvalReadsDeps(rt, names, left, row, row', dt, time);
      EvalReadsDeps(rt, names, right, row, row', dt, time);
  }

  lemma {:induction false} EvalAllReadsDeps(rt: Runtime, names: seq<string>, args: seq<Node>, row: seq<real>, row': seq<real>, dt: real, time: real)
    requires forall i :: 0 <= i < |args| ==> Linked(rt, names, args[i])
    requires |row| == |names| && dt > 0.0
    requires Agree(DepsAll(rt, names, args), row, row')
    ensures EvalAll(rt, names, args, row, dt, time) == EvalAll(rt, names, args, row', dt, time)
    decreases args, 1
  {
    if args != [] {
      EvalAllReadsDeps(rt, names, args[..|args| - 1], row, row', dt, time);
      EvalReadsDeps(rt, names, args[|args| - 1], row, row', dt, time);
    }
  }

  /** The walker of sim.c over the visitor of parse.c: it appends to the `direct_deps` of one variable. */
  class AVarWalker {
    const rt: Runtime
    const names: seq<string>
    var directDeps: seq<nat>

    constructor (rt: Runtime, names: seq<string>)
      ensures this.rt == rt && this.names == names && directDeps == []
    {
      this.rt, this.names, directDeps := rt, names, [];
    }

    /** `node_walk`: a missing root is refused; below the root a missing node is read. */
    method NodeWalk(n: Node) returns (w: Exit<bool>)
      modifies this`directDeps
      ensures w.NullRead? <==> HasHole(n)
      ensures w == Returned(false) <==> n.Null?
      ensures w == Returned(true) ==> directDeps == old(directDeps) + Deps(rt, names, n)
    {
      if n.Null? {
        return Returned(false);
      }
      w := Visit(n);
    }

    /** `visit`: before anything else it reads the type of the node. */
    method Visit(n: Node) returns (w: Exit<bool>)
      modifies this`directDeps
      ensures w == if Complete(n) then Returned(true) else NullRead
      ensures Complete(n) ==> directDeps == old(directDeps) + Deps(rt, names, n)
      decreases n, 1
    {
      hide Resolve;
      match n
      case Null => w := NullRead;
      case FloatLit(_) => w := Returned(true);
      case Ident(sval) =>
        var dep := Resolve(names, rt.canon(sval));
        if dep.Some? {
          directDeps := directDeps + [dep.value];
        }
        w := Returned(true);
      case Paren(left) => w := Visit(left);
      case Unary(_, left) => w := Visit(left);
      case Call(_, args) => w := VisitArgs(args);
      case If(cond, left, right) =>
        w := Visit(cond);
        if w == Returned(true) {
          w := VisitTwo(left, right, n);
        }
      case Binary(_, left, right) => w := VisitTwo(left, right, n);
    }

    /** Two children, the second only after the first. */
    method VisitTwo(left: Node, right: Node, ghost n: Node) returns (w: Exit<bool>)
      requires left < n && right < n
      modifies this`directDeps
      ensures w == if Complete(left) && Complete(right) then Returned(true) else NullRead
      ensures w == Returned(true) ==> directDeps == old(directDeps) + (Deps(rt, names, left) + Deps(rt, names, right))
      decreases n, 0
    {
      w := Visit(left);
      if w == Returned(true) {
        w := Visit(right);
      }
    }

    /** The loop of `visit` over the arguments of a call. */
    method VisitArgs(args: seq<Node>) returns (w: Exit<bool>)
      modifies this`directDeps
      ensures w == if forall j :: 0 <= j < |args| ==> Complete(args[j]) then Returned(true) else NullRead
      ensures w == Returned(true) ==> directDeps == old(directDeps) + DepsAll(rt, names, args)
      decreases args, 1
    {
      var i := 0;
      while i < |args|
        invariant 0 <= i <= |args|
        invariant forall j :: 0 <= j < i ==> Complete(args[j])
        invariant directDeps == old(directDeps) + DepsAll(rt, names, args[..i])
      {
        assert args[..i + 1][..i] == args[..i];
        w := Visit(args[i]);
        if w != Returned(true) {
          return;
        }
        i := i + 1;
      }
      assert args[..|args|] == args;
      return Returned(true);
    }
  }

  /** No NULL anywhere in the tree. */
  predicate Complete(n: Node) {
    match n
    case Null => false
    case Paren(left) => Complete(left)
    case FloatLit(_) => true
    case Ident(_) => true
    case Call(_, args) => forall i :: 0 <= i < |args| ==> Complete(args[i])
    case Binary(_, left, right) => Complete(left) && Complete(right)
    case Unary(_, left) => Complete(left)
    case If(cond, left, right) => Complete(cond) && Complete(left) && Complete(right)
  }

  /** A tree that misses a node below its root. */
  predicate HasHole(n: Node) {
    !n.Null? && !Complete(n)
  }

  /** An equation the simulator can evaluate is one the walker accepts. */
  lemma {:induction false} LinkedIsComplete(rt: Runtime, names: seq<string>, n: Node)
    requires Linked(rt, names, n)
    ensures Complete(n)
  {
    match n
    case Null =>
    case Paren(left) => LinkedIsComplete(rt, names, left);
    case FloatLit(_) =>
    case Ident(_) =>
    case Call(_, args) =>
      forall i | 0 <= i < |args|
        ensures Complete(args[i])
      {
        LinkedIsComplete(rt, names, args[i]);
      }
    case Binary(_, left, right) =>
      LinkedIsComplete(rt, names, left);
      LinkedIsComplete(rt, names, right);
    case Unary(_, left) => LinkedIsComplete(rt, names, left);
    case If(cond, left, right) =>
      LinkedIsComplete(rt, names, cond);
      LinkedIsComplete(rt, names, left);
      LinkedIsComplete(rt, names, right);
  }
}
