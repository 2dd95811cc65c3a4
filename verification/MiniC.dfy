/** The compiler's source language, restricted to functions whose variables are parameters,
    and its reference meaning over signed 64-bit integers. Operands are evaluated right to
    left, as the generator does; a division that the hardware cannot perform is a `Trap`. */
module MiniC {
  import opened Words
  import opened Wrappers

  datatype BinOp = Add | Sub | Mul | Div | Mod | Eq | Ne | Lt | Gt | Le | Ge | And | Or

  datatype UnOp = Neg | Not

  datatype Expr =
    | Num(n: int)
    | Var(name: string)
    | Unary(uop: UnOp, e: Expr)
    | Binary(op: BinOp, left: Expr, right: Expr)
    | Assign(target: Expr, value: Expr)

  /** `Empty` is the null statement: a lone `;`, or an absent `else` or `for` initialiser. */
  datatype Stmt =
    | Empty
    | ExprStmt(e: Expr)
    | Block(body: seq<Stmt>)
    | If(cond: Expr, thn: Stmt, els: Stmt)
    | While(cond: Expr, loop: Stmt)
    | For(init: Stmt, test: Option<Expr>, step: Option<Expr>, loop: Stmt)
    | Break
    | Continue
    | Return(result: Option<Expr>)

  /** Values of the parameters, by name. */
  type Env = map<string, i64>

  function Truth(b: bool): i64 { if b then 1 else 0 }

  /** C division: the quotient rounds toward zero. */
  function Quot(a: int, b: int): int
    requires b != 0
  {
    var q := Abs(a) / Abs(b);
    if (a < 0) == (b < 0) then q else -q
  }

  function Abs(a: int): nat { if a < 0 then -a else a }

  /** `&&` and `||` as the compiled code computes them: each operand's low byte becomes its
      truth value, its upper bits stay, and the two words are combined bit by bit. */
  function TruthByte(a: i64): u64 {
    ToU64(a) - ToU64(a) % 256 + (if a != 0 then 1 else 0)
  }

  function BinValue(op: BinOp, a: i64, b: i64): Option<i64> {
    match op
    case Add => Some(Wrap(a + b))
    case Sub => Some(Wrap(a - b))
    case Mul => Some(Wrap(a * b))
    case Div => if DivTraps(a, b) then None else Some(Wrap(Quot(a, b)))
    case Mod => if DivTraps(a, b) then None else Some(Wrap(a - b * Quot(a, b)))
    case Eq => Some(Truth(a == b))
    case Ne => Some(Truth(a != b))
    case Lt => Some(Truth(a < b))
    case Gt => Some(Truth(a > b))
    case Le => Some(Truth(a <= b))
    case Ge => Some(Truth(a >= b))
    case And => Some(Wrap(BitAnd(TruthByte(a), TruthByte(b))))
    case Or => Some(Wrap(BitOr(TruthByte(a), TruthByte(b))))
  }

  predicate DivTraps(a: i64, b: i64) { b == 0 || (a == -TWO_63 && b == -1) }

  function UnValue(op: UnOp, a: i64): i64 {
    match op case Neg => Wrap(0 - a) case Not => Truth(a == 0)
  }

  /** A literal is a 32-bit immediate, sign-extended. */
  function Literal(n: int): i64 { SignExt32(ToU32(n)) }

  datatype Value = Val(v: i64, env: Env) | Trap

  /** A name that is not a parameter reads as 0 and swallows assignments. */
  function Lookup(env: Env, x: string): i64 { if x in env then env[x] else 0 }

  function Bind(env: Env, x: string, v: i64): Env { if x in env then env[x := v] else env }

  function Eval(e: Expr, env: Env): Value {
    match e
    case Num(n) => Val(Literal(n), env)
    case Var(x) => Val(Lookup(env, x), env)
    case Unary(op, e1) =>
      (match Eval(e1, env)
       case Trap => Trap
       case Val(v, env1) => Val(UnValue(op, v), env1))
    case Binary(op, l, r) =>
      (match Eval(r, env)
       case Trap => Trap
       case Val(b, env1) =>
         match Eval(l, env1)
         case Trap => Trap
         case Val(a, env2) =>
           match BinValue(op, a, b)
           case None => Trap
           case Some(v) => Val(v, env2))
    case Assign(target, value) =>
      (match Eval(value, env)
       case Trap => Trap
       case Val(v, env1) => Val(v, if target.Var? then Bind(env1, target.name, v) else env1))
  }

  /** How a statement ends. `Timeout` means that the loop budget ran out. */
  datatype Result =
    | Normal(env: Env)
    | Broke(env: Env)
    | Continued(env: Env)
    | Returned(v: i64, env: Env)
    | Trapped
    | Timeout

  /** Meaning of a statement with a budget of `fuel` iterations for each nest of loops.
      Outside every loop `break` and `continue` do nothing. */
  function Exec(s: Stmt, env: Env, inLoop: bool, fuel: nat): Result
    decreases fuel, s, 1
  {
    match s
    case Empty => Normal(env)
    case ExprStmt(e) => (match Eval(e, env) case Trap => Trapped case Val(_, env1) => Normal(env1))
    case Block(ss) => ExecAll(ss, env, inLoop, fuel)
    case If(c, t, e) =>
      (match Eval(c, env)
       case Trap => Trapped
       case Val(v, env1) => if v != 0 then Exec(t, env1, inLoop, fuel) else Exec(e, env1, inLoop, fuel))
    case While(c, b) => ExecLoop(Some(c), None, b, env, fuel)
    case For(init, test, step, b) =>
      (match Exec(init, env, inLoop, fuel)
       case Normal(env1) => ExecLoop(test, step, b, env1, fuel)
       case other => other)
    case Break => if inLoop then Broke(env) else Normal(env)
    case Continue => if inLoop then Continued(env) else Normal(env)
    case Return(None) => Returned(0, env)
    case Return(Some(e)) => (match Eval(e, env) case Trap => Trapped case Val(v, env1) => Returned(v, env1))
  }

  function ExecAll(ss: seq<Stmt>, env: Env, inLoop: bool, fuel: nat): Result
    decreases fuel, ss, 0
  {
    if ss == [] then Normal(env)
    else match Exec(ss[0], env, inLoop, fuel)
      case Normal(env1) => ExecAll(ss[1..], env1, inLoop, fuel)
      case other => other
  }

  /** One or more rounds of `for (; test; step) body`. */
  function ExecLoop(test: Option<Expr>, step: Option<Expr>, body: Stmt, env: Env, fuel: nat): Result
    decreases fuel, body, 2
  {
    if fuel == 0 then Timeout
    else match EvalTest(test, env)
      case Trap => Trapped
      case Val(v, env1) =>
        if v == 0 then Normal(env1)
        else match Exec(body, env1, true, fuel - 1)
          case Broke(env2) => Normal(env2)
          case Normal(env2) => ExecNext(test, step, body, env2, fuel - 1)
          case Continued(env2) => ExecNext(test, step, body, env2, fuel - 1)
          case other => other
  }

  function ExecNext(test: Option<Expr>, step: Option<Expr>, body: Stmt, env: Env, fuel: nat): Result
    decreases fuel, body, 3
  {
    match EvalStep(step, env)
    case Trap => Trapped
    case Val(_, env1) => ExecLoop(test, step, body, env1, fuel)
  }

  /** An absent loop condition counts as 1. */
  function EvalTest(test: Option<Expr>, env: Env): Value {
    match test case None => Val(1, env) case Some(c) => Eval(c, env)
  }

  function EvalStep(step: Option<Expr>, env: Env): Value {
    match step case None => Val(0, env) case Some(e) => Eval(e, env)
  }

  datatype Func = Func(params: seq<string>, body: seq<Stmt>)

  function Args(params: seq<string>, args: seq<i64>): Env
    requires |params| == |args|
  {
    if params == [] then map[]
    else Args(params[..|params| - 1], args[..|args| - 1])[params[|params| - 1] := args[|args| - 1]]
  }

  /** Meaning of a call; a body that falls off its end returns 0. */
  function Call(f: Func, args: seq<i64>, fuel: nat): Result
    requires |f.params| == |args|
  {
    match ExecAll(f.body, Args(f.params, args), false, fuel)
    case Normal(env) => Returned(0, env)
    case other => other
  }
}
