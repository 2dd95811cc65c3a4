/** How the compiled language relates to C: budgets do not matter, literals are exact below
    2^31, and `&&` and `||` have C's truth value always and C's value under an exact condition. */
module CMeaning {
  import opened Words
  import opened Wrappers
  import opened MiniC

  // ---- the loop budget only decides whether there is an answer ----

  lemma {:induction false} ExecMono(s: Stmt, env: Env, inLoop: bool, fuel: nat)
    ensures Exec(s, env, inLoop, fuel) != Timeout ==> Exec(s, env, inLoop, fuel + 1) == Exec(s, env, inLoop, fuel)
    decreases fuel, s, 1
  {
    hide Eval;
    match s {
      case Block(ss) => ExecAllMono(ss, env, inLoop, fuel);
      case If(c, t, e) =>
        if Eval(c, env).Val? {
          if Eval(c, env).v != 0 { ExecMono(t, Eval(c, env).env, inLoop, fuel); }
          else { ExecMono(e, Eval(c, env).env, inLoop, fuel); }
        }
      case While(c, b) => ExecLoopMono(Some(c), None, b, env, fuel);
      case For(init, test, step, b) =>
        ExecMono(init, env, inLoop, fuel);
        var r := Exec(init, env, inLoop, fuel);
        if r.Normal? { ExecLoopMono(test, step, b, r.env, fuel); }
      case _ =>
    }
  }

  lemma {:induction false} ExecAllMono(ss: seq<Stmt>, env: Env, inLoop: bool, fuel: nat)
    ensures ExecAll(ss, env, inLoop, fuel) != Timeout ==>
      ExecAll(ss, env, inLoop, fuel + 1) == ExecAll(ss, env, inLoop, fuel)
    decreases fuel, ss, 0
  {
    hide Exec;
    if ss != [] {
      ExecMono(ss[0], env, inLoop, fuel);
      var r := Exec(ss[0], env, inLoop, fuel);
      if r.Normal? { ExecAllMono(ss[1..], r.env, inLoop, fuel); }
    }
  }

  lemma {:induction false} ExecLoopMono(test: Option<Expr>, step: Option<Expr>, b: Stmt, env: Env, fuel: nat)
    ensures ExecLoop(test, step, b, env, fuel) != Timeout ==>
      ExecLoop(test, step, b, env, fuel + 1) == ExecLoop(test, step, b, env, fuel)
    decreases fuel, b, 2
  {
    hide Exec, Eval, EvalTest, EvalStep;
    if fuel > 0 {
      var t := EvalTest(test, env);
      if t.Val? && t.v != 0 {
        ExecMono(b, t.env, true, fuel - 1);
        var r := Exec(b, t.env, true, fuel - 1);
        if r.Normal? || r.Continued? {
          var e := EvalStep(step, r.env);
          if e.Val? { ExecLoopMono(test, step, b, e.env, fuel - 1); }
        }
      }
    }
  }

  /** Two budgets that both suffice give the same result. */
  lemma {:induction false} CallUnique(f: Func, args: seq<i64>, m: nat, n: nat)
    requires |f.params| == |args| && m <= n && Call(f, args, m) != Timeout
    ensures Call(f, args, n) == Call(f, args, m)
    decreases n - m
  {
    hide ExecAll;
    if m < n {
      ExecAllMono(f.body, Args(f.params, args), false, m);
      CallUnique(f, args, m + 1, n);
    }
  }

  // ---- literals ----

  lemma LiteralExact(n: int)
    ensures Literal(n) == n <==> -0x8000_0000 <= n < 0x8000_0000
  {
  }

  // ---- logical operators ----

  lemma BitAndDouble(x: nat, y: nat)
    ensures BitAnd(2 * x, 2 * y) == 2 * BitAnd(x, y)
    ensures BitAnd(2 * x + 1, 2 * y + 1) == 2 * BitAnd(x, y) + 1
  {
  }

  lemma BitOrDouble(x: nat, y: nat, p: nat, q: nat)
    requires p <= 1 && q <= 1
    ensures BitOr(2 * x + p, 2 * y + q) == 2 * BitOr(x, y) + (if p == 1 || q == 1 then 1 else 0)
  {
  }

  /** Bits above the low byte combine on their own. */
  lemma BitAndHigh(x: nat, y: nat)
    ensures BitAnd(256 * x + 1, 256 * y + 1) == 256 * BitAnd(x, y) + 1
  {
    hide BitAnd;
    BitAndDouble(x, y);
    BitAndDouble(2 * x, 2 * y);
    BitAndDouble(4 * x, 4 * y);
    BitAndDouble(8 * x, 8 * y);
    BitAndDouble(16 * x, 16 * y);
    BitAndDouble(32 * x, 32 * y);
    BitAndDouble(64 * x, 64 * y);
    BitAndDouble(128 * x, 128 * y);
  }

  lemma BitOrHigh(x: nat, y: nat, p: nat, q: nat)
    requires p <= 1 && q <= 1
    ensures BitOr(256 * x + p, 256 * y + q) == 256 * BitOr(x, y) + (if p == 1 || q == 1 then 1 else 0)
  {
    hide BitOr;
    BitOrDouble(x, y, 0, 0);
    BitOrDouble(2 * x, 2 * y, 0, 0);
    BitOrDouble(4 * x, 4 * y, 0, 0);
    BitOrDouble(8 * x, 8 * y, 0, 0);
    BitOrDouble(16 * x, 16 * y, 0, 0);
    BitOrDouble(32 * x, 32 * y, 0, 0);
    BitOrDouble(64 * x, 64 * y, 0, 0);
    BitOrDouble(128 * x, 128 * y, p, q);
  }

  lemma {:induction false} BitOrZero(x: nat, y: nat)
    ensures BitOr(x, y) == 0 <==> x == 0 && y == 0
    decreases x + y
  {
    if x > 0 || y > 0 {
      BitOrZero(x / 2, y / 2);
    }
  }

  /** The bits of `a` above its low byte. */
  function High(a: i64): nat { ToU64(a) / 256 }

  lemma TruthByteIs(a: i64)
    ensures TruthByte(a) == if a == 0 then 0 else 256 * High(a) + 1
  {
  }

  lemma WrapSmall(x: nat)
    requires x < TWO_64
    ensures Wrap(x) == 0 <==> x == 0
    ensures Wrap(x) == 1 <==> x == 1
  {
  }

  lemma AndWord(a: i64, b: i64)
    ensures BitAnd(TruthByte(a), TruthByte(b)) == if a == 0 || b == 0 then 0 else 256 * BitAnd(High(a), High(b)) + 1
    ensures BitAnd(TruthByte(a), TruthByte(b)) < TWO_64
  {
    TruthByteIs(a);
    TruthByteIs(b);
    BitAndHigh(High(a), High(b));
    BitAndBound(TruthByte(a), TruthByte(b));
    hide TruthByte, High;
  }

  lemma Pow64()
    ensures Pow2(64) == TWO_64
  {
    assert Pow2(2) == 4;
    PowAdd(2, 2);
    PowAdd(4, 4);
    PowAdd(8, 8);
    PowAdd(16, 16);
    PowAdd(32, 32);
  }

  lemma OrWord(a: i64, b: i64)
    ensures BitOr(TruthByte(a), TruthByte(b)) < TWO_64
    ensures BitOr(TruthByte(a), TruthByte(b)) == 0 <==> a == 0 && b == 0
    ensures (BitOr(TruthByte(a), TruthByte(b)) == 1) <==> ((a != 0 || b != 0) && High(a) == 0 && High(b) == 0)
  {
    hide BitOr;
    TruthByteIs(a);
    TruthByteIs(b);
    Pow64();
    BitOrBound(TruthByte(a), TruthByte(b), 64);
    var x, y := if a == 0 then 0 else High(a), if b == 0 then 0 else High(b);
    BitOrHigh(x, y, if a == 0 then 0 else 1, if b == 0 then 0 else 1);
    BitOrZero(x, y);
    BitOrZero(TruthByte(a), TruthByte(b));
    hide TruthByte;
    assert High(0) == 0;
  }

  /** `&&` has C's truth value for all operands, and C's value exactly when the operands share
      no bit above the low byte or one of them is 0. */
  lemma AndExact(a: i64, b: i64)
    ensures BinValue(And, a, b).Some?
    ensures BinValue(And, a, b).value != 0 <==> a != 0 && b != 0
    ensures BinValue(And, a, b) == Some(Truth(a != 0 && b != 0))
       <==> a == 0 || b == 0 || BitAnd(High(a), High(b)) == 0
  {
    AndWord(a, b);
    WrapSmall(BitAnd(TruthByte(a), TruthByte(b)));
    hide TruthByte, High, Wrap;
  }

  lemma OrExact(a: i64, b: i64)
    ensures BinValue(Or, a, b).Some?
    ensures BinValue(Or, a, b).value != 0 <==> a != 0 || b != 0
    ensures BinValue(Or, a, b) == Some(Truth(a != 0 || b != 0))
       <==> (a == 0 && b == 0) || (High(a) == 0 && High(b) == 0)
  {
    OrWord(a, b);
    WrapSmall(BitOr(TruthByte(a), TruthByte(b)));
    hide TruthByte, High, Wrap;
  }

  lemma AndIsNotOne()
    ensures BinValue(And, 256, 256) == Some(257)
  {
    AndWord(256, 256);
    assert High(256) == 1;
    assert BitAnd(1, 1) == 1;
  }

  // ---- short circuits ----

  /** C evaluates the left operand of `&&` and `||` first and the right one only if needed; the
      order of other operands is the compiler's choice. */
  function CEval(e: Expr, env: Env): Value {
    match e
    case Num(n) => Val(Literal(n), env)
    case Var(x) => Val(Lookup(env, x), env)
    case Unary(op, e1) =>
      (match CEval(e1, env)
       case Trap => Trap
       case Val(v, env1) => Val(UnValue(op, v), env1))
    case Binary(op, l, r) =>
      (if op.And? || op.Or? then
        match CEval(l, env)
        case Trap => Trap
        case Val(a, env1) =>
          if (a != 0) == op.Or? then Val(Truth(op.Or?), env1)
          else (match CEval(r, env1)
                case Trap => Trap
                case Val(b, env2) => Val(Truth(b != 0), env2))
      else
        match CEval(r, env)
        case Trap => Trap
        case Val(b, env1) =>
          match CEval(l, env1)
          case Trap => Trap
          case Val(a, env2) =>
            match BinValue(op, a, b)
            case None => Trap
            case Some(v) => Val(v, env2))
    case Assign(target, value) =>
      (match CEval(value, env)
       case Trap => Trap
       case Val(v, env1) => Val(v, if target.Var? then Bind(env1, target.name, v) else env1))
  }

  /** No assignment and no division: evaluating it changes nothing and cannot trap. */
  predicate Pure(e: Expr) {
    match e
    case Num(_) | Var(_) => true
    case Unary(_, e1) => Pure(e1)
    case Binary(op, l, r) => !op.Div? && !op.Mod? && Pure(l) && Pure(r)
    case Assign(_, _) => false
  }

  lemma {:induction false} PureEval(e: Expr, env: Env)
    requires Pure(e)
    ensures Eval(e, env).Val? && Eval(e, env).env == env
  {
    hide BinValue;
    match e {
      case Num(_) | Var(_) =>
      case Unary(_, e1) => PureEval(e1, env);
      case Binary(op, l, r) =>
        PureEval(l, env);
        PureEval(r, env);
        Total(op, Eval(l, env).v, Eval(r, env).v);
    }
  }

  lemma Total(op: BinOp, a: i64, b: i64)
    requires !op.Div? && !op.Mod?
    ensures BinValue(op, a, b).Some?
  {
  }

  predicate Logical(op: BinOp) { op.And? || op.Or? }

  predicate LogicTruth(op: BinOp, a: i64, b: i64) { if op.And? then a != 0 && b != 0 else a != 0 || b != 0 }

  /** The upper bytes of the operands leave no trace in the result. */
  predicate BitsClean(op: BinOp, a: i64, b: i64) {
    if op.And? then a == 0 || b == 0 || BitAnd(High(a), High(b)) == 0
    else (a == 0 && b == 0) || (High(a) == 0 && High(b) == 0)
  }

  lemma LogicValue(op: BinOp, a: i64, b: i64)
    requires Logical(op)
    ensures BinValue(op, a, b).Some? && (BinValue(op, a, b).value != 0 <==> LogicTruth(op, a, b))
    ensures BinValue(op, a, b).value == Truth(LogicTruth(op, a, b)) <==> BitsClean(op, a, b)
  {
    if op.And? { AndExact(a, b); } else { OrExact(a, b); }
  }

  /** C does not look at the right operand. */
  predicate Skips(op: BinOp, a: i64) { (a != 0) == op.Or? }

  /** Agreement of one `&&` or `||`, in terms of what its operands do: a right operand that C skips neither
      traps nor changes a parameter; one that C evaluates does not turn the truth of the left operand
      around, unless it decides alone; and the upper bytes leave no trace. */
  predicate NodeAgrees(op: BinOp, l: Expr, r: Expr, env: Env)
    requires Pure(l)
  {
    PureEval(l, env);
    var a := Eval(l, env).v;
    match Eval(r, env)
    case Trap => !Skips(op, a)
    case Val(b, env1) =>
      PureEval(l, env1);
      var a1 := Eval(l, env1).v;
      && (Skips(op, a) ==> env1 == env)
      && ((a1 != 0) == (a != 0) || (b != 0) == op.Or?)
      && BitsClean(op, a1, b)
  }

  /** For operands that agree with C, of which the left one is pure, compiled and C meaning of `&&` and `||`
      agree exactly under that condition. */
  lemma LogicNodeExact(op: BinOp, l: Expr, r: Expr, env: Env)
    requires Logical(op) && Pure(l)
    requires (forall e: Env :: Eval(l, e) == CEval(l, e)) && Eval(r, env) == CEval(r, env)
    ensures Eval(Binary(op, l, r), env) == CEval(Binary(op, l, r), env) <==> NodeAgrees(op, l, r, env)
  {
    hide BinValue, BitsClean, BitAnd, High;
    PureEval(l, env);
    if Eval(r, env).Val? {
      var b, env1 := Eval(r, env).v, Eval(r, env).env;
      PureEval(l, env1);
      var a1 := Eval(l, env1).v;
      LogicValue(op, a1, b);
    }
  }

  /** Over two parameters: `x && y` and `x || y` are C's exactly when the bits are clean. */
  lemma LogicOfParameters(op: BinOp, x: string, y: string, env: Env)
    requires Logical(op)
    ensures var e := Binary(op, Var(x), Var(y));
      Eval(e, env) == CEval(e, env) <==> BitsClean(op, Lookup(env, x), Lookup(env, y))
  {
    hide BitsClean;
    LogicNodeExact(op, Var(x), Var(y), env);
  }

  // ---- where only the truth matters ----

  /** An expression whose compiled value fits in the low byte. */
  predicate Small(e: Expr) {
    match e
    case Num(n) => 0 <= n < 256
    case Var(_) | Assign(_, _) => false
    case Unary(op, _) => op.Not?
    case Binary(op, l, r) => op.Eq? || op.Ne? || op.Lt? || op.Gt? || op.Le? || op.Ge? || (Logical(op) && Small(l)
                                                                                          && Small(r))
  }

  /** Compiled and C value agree: outside tests, operands of `&&` and `||` are pure and small. */
  predicate Exact(e: Expr)
    decreases e, 0
  {
    match e
    case Num(_) | Var(_) => true
    case Unary(op, e1) => if op.Not? then Testable(e1) else Exact(e1)
    case Binary(op, l, r) => Exact(l) && Exact(r) && (Logical(op) ==> Pure(l) && Pure(r) && Small(l) && Small(r))
    case Assign(_, value) => Exact(value)
  }

  /** Compiled and C truth value agree: in tests, operands of `&&` and `||` need only be pure. */
  predicate Testable(e: Expr)
    decreases e, 1
  {
    if e.Binary? && Logical(e.op) then Pure(e.left) && Pure(e.right) && Testable(e.left) && Testable(e.right)
      else Exact(e)
  }

  lemma SmallValue(a: i64)
    requires 0 <= a < 256
    ensures High(a) == 0
  {
  }

  lemma SmallClean(op: BinOp, a: i64, b: i64)
    requires 0 <= a < 256 && 0 <= b < 256
    ensures BitsClean(op, a, b)
  {
    SmallValue(a);
    SmallValue(b);
    assert BitAnd(0, 0) == 0 by { BitAndBound(0, 0); }
  }

  lemma {:induction false} SmallEval(e: Expr, env: Env)
    requires Small(e) && Eval(e, env).Val?
    ensures 0 <= Eval(e, env).v < 256
  {
    hide BitAnd, BitOr, TruthByte, Wrap;
    match e {
      case Num(_) =>
      case Unary(_, _) =>
      case Binary(op, l, r) =>
        if Logical(op) {
          SmallEval(r, env);
          var b, env1 := Eval(r, env).v, Eval(r, env).env;
          SmallEval(l, env1);
          var a := Eval(l, env1).v;
          SmallClean(op, a, b);
          LogicValue(op, a, b);
        }
    }
  }

  /** Values have the same truth and the same effect. */
  predicate SameTest(a: Value, b: Value) {
    match a
    case Trap => b.Trap?
    case Val(v, env) => b.Val? && b.env == env && (b.v != 0 <==> v != 0)
  }

  /** The compiled value is C's value. */
  lemma {:induction false} ShortCircuitAgrees(e: Expr, env: Env)
    requires Exact(e)
    ensures Eval(e, env) == CEval(e, env)
    decreases e, 0
  {
    hide BinValue;
    match e {
      case Num(_) | Var(_) =>
      case Unary(op, e1) => if op.Not? { TestAgrees(e1, env); } else { ShortCircuitAgrees(e1, env); }
      case Assign(_, value) => ShortCircuitAgrees(value, env);
      case Binary(op, l, r) =>
        ShortCircuitAgrees(r, env);
        if Logical(op) {
          ShortCircuitAgrees(l, env);
          PureEval(l, env);
          PureEval(r, env);
          SmallEval(l, env);
          SmallEval(r, env);
          var a, b := Eval(l, env).v, Eval(r, env).v;
          SmallClean(op, a, b);
          LogicValue(op, a, b);
        } else if Eval(r, env).Val? {
          ShortCircuitAgrees(l, Eval(r, env).env);
        }
    }
  }

  /** In a test the compiled code takes C's branch, whatever the size of the operands. */
  lemma {:induction false} TestAgrees(e: Expr, env: Env)
    requires Testable(e)
    ensures SameTest(Eval(e, env), CEval(e, env))
    decreases e, 1
  {
    hide BinValue;
    if e.Binary? && Logical(e.op) {
      TestAgrees(e.left, env);
      TestAgrees(e.right, env);
      PureEval(e.left, env);
      PureEval(e.right, env);
      LogicValue(e.op, Eval(e.left, env).v, Eval(e.right, env).v);
    } else {
      ShortCircuitAgrees(e, env);
    }
  }

  // ---- whole functions ----

  /** C's meaning of statements: as the reference meaning, with expressions evaluated by C's rules. */
  function CExec(s: Stmt, env: Env, inLoop: bool, fuel: nat): Result
    decreases fuel, s, 1
  {
    match s
    case Empty => Normal(env)
    case ExprStmt(e) => (match CEval(e, env) case Trap => Trapped case Val(_, env1) => Normal(env1))
    case Block(ss) => CExecAll(ss, env, inLoop, fuel)
    case If(c, t, e) =>
      (match CEval(c, env)
       case Trap => Trapped
       case Val(v, env1) => if v != 0 then CExec(t, env1, inLoop, fuel) else CExec(e, env1, inLoop, fuel))
    case While(c, b) => CExecLoop(Some(c), None, b, env, fuel)
    case For(init, test, step, b) =>
      (match CExec(init, env, inLoop, fuel)
       case Normal(env1) => CExecLoop(test, step, b, env1, fuel)
       case other => other)
    case Break => if inLoop then Broke(env) else Normal(env)
    case Continue => if inLoop then Continued(env) else Normal(env)
    case Return(None) => Returned(0, env)
    case Return(Some(e)) => (match CEval(e, env) case Trap => Trapped case Val(v, env1) => Returned(v, env1))
  }

  function CExecAll(ss: seq<Stmt>, env: Env, inLoop: bool, fuel: nat): Result
    decreases fuel, ss, 0
  {
    if ss == [] then Normal(env)
    else match CExec(ss[0], env, inLoop, fuel)
      case Normal(env1) => CExecAll(ss[1..], env1, inLoop, fuel)
      case other => other
  }

  function CExecLoop(test: Option<Expr>, step: Option<Expr>, body: Stmt, env: Env, fuel: nat): Result
    decreases fuel, body, 2
  {
    if fuel == 0 then Timeout
    else match (match test case None => Val(1, env) case Some(c) => CEval(c, env))
      case Trap => Trapped
      case Val(v, env1) =>
        if v == 0 then Normal(env1)
        else match CExec(body, env1, true, fuel - 1)
          case Broke(env2) => Normal(env2)
          case Normal(env2) => CExecNext(test, step, body, env2, fuel - 1)
          case Continued(env2) => CExecNext(test, step, body, env2, fuel - 1)
          case other => other
  }

  function CExecNext(test: Option<Expr>, step: Option<Expr>, body: Stmt, env: Env, fuel: nat): Result
    decreases fuel, body, 3
  {
    match (match step case None => Val(0, env) case Some(e) => CEval(e, env))
    case Trap => Trapped
    case Val(_, env1) => CExecLoop(test, step, body, env1, fuel)
  }

  /** Conditions and discarded values are testable, returned values exact. */
  predicate CLike(s: Stmt) {
    match s
    case Empty | Break | Continue => true
    case ExprStmt(e) => Testable(e)
    case Block(ss) => forall i :: 0 <= i < |ss| ==> CLike(ss[i])
    case If(c, t, e) => Testable(c) && CLike(t) && CLike(e)
    case While(c, b) => Testable(c) && CLike(b)
    case For(init, test, step, b) =>
      CLike(init) && (test.Some? ==> Testable(test.value)) && (step.Some? ==> Testable(step.value)) && CLike(b)
    case Return(r) => r.Some? ==> Exact(r.value)
  }

  /** Such statements mean what they mean in C. */
  lemma {:induction false} CExecAgrees(s: Stmt, env: Env, inLoop: bool, fuel: nat)
    requires CLike(s)
    ensures Exec(s, env, inLoop, fuel) == CExec(s, env, inLoop, fuel)
    decreases fuel, s, 1
  {
    hide Eval, CEval, Testable, Exact;
    match s {
      case Empty | Break | Continue =>
      case ExprStmt(e) => TestAgrees(e, env);
      case Block(ss) => CExecAllAgrees(ss, env, inLoop, fuel);
      case If(c, t, e) =>
        TestAgrees(c, env);
        if Eval(c, env).Val? {
          if Eval(c, env).v != 0 { CExecAgrees(t, Eval(c, env).env, inLoop, fuel); }
          else { CExecAgrees(e, Eval(c, env).env, inLoop, fuel); }
        }
      case While(c, b) => CLoopAgrees(Some(c), None, b, env, fuel);
      case For(init, test, step, b) =>
        CExecAgrees(init, env, inLoop, fuel);
        var r := Exec(init, env, inLoop, fuel);
        if r.Normal? { CLoopAgrees(test, step, b, r.env, fuel); }
      case Return(r) => if r.Some? { ShortCircuitAgrees(r.value, env); }
    }
  }

  lemma {:induction false} CExecAllAgrees(ss: seq<Stmt>, env: Env, inLoop: bool, fuel: nat)
    requires forall i :: 0 <= i < |ss| ==> CLike(ss[i])
    ensures ExecAll(ss, env, inLoop, fuel) == CExecAll(ss, env, inLoop, fuel)
    decreases fuel, ss, 0
  {
    if ss != [] {
      CExecAgrees(ss[0], env, inLoop, fuel);
      var r := Exec(ss[0], env, inLoop, fuel);
      if r.Normal? { CExecAllAgrees(ss[1..], r.env, inLoop, fuel); }
    }
  }

  lemma {:induction false} CLoopAgrees(test: Option<Expr>, step: Option<Expr>, b: Stmt, env: Env, fuel: nat)
    requires (test.Some? ==> Testable(test.value)) && (step.Some? ==> Testable(step.value)) && CLike(b)
    ensures ExecLoop(test, step, b, env, fuel) == CExecLoop(test, step, b, env, fuel)
    decreases fuel, b, 2
  {
    hide Eval, CEval, Testable, CLike, Exec, CExec;
    if fuel > 0 {
      if test.Some? { TestAgrees(test.value, env); }
      var t := EvalTest(test, env);
      if t.Val? && t.v != 0 {
        CExecAgrees(b, t.env, true, fuel - 1);
        var r := Exec(b, t.env, true, fuel - 1);
        if r.Normal? || r.Continued? {
          if step.Some? { TestAgrees(step.value, r.env); }
          var u := EvalStep(step, r.env);
          if u.Val? { CLoopAgrees(test, step, b, u.env, fuel - 1); }
        }
      }
    }
  }

  /** C's meaning of a call. */
  function CCall(f: Func, args: seq<i64>, fuel: nat): Result
    requires |f.params| == |args|
  {
    match CExecAll(f.body, Args(f.params, args), false, fuel)
    case Normal(env) => Returned(0, env)
    case other => other
  }

  /** A function of such statements computes what it computes in C, so its generated code does too. */
  lemma CCallAgrees(f: Func, args: seq<i64>, fuel: nat)
    requires |f.params| == |args| && forall i :: 0 <= i < |f.body| ==> CLike(f.body[i])
    ensures Call(f, args, fuel) == CCall(f, args, fuel)
  {
    CExecAllAgrees(f.body, Args(f.params, args), false, fuel);
  }

  /** An assignment in the operand that C skips is performed all the same. */
  lemma SkippedAssignment(env: Env)
    requires "x" in env && env["x"] == 0
    ensures var e := Binary(And, Num(0), Assign(Var("x"), Num(1)));
      CEval(e, env) == Val(0, env) && Eval(e, env) != CEval(e, env)
  {
    var env1 := env["x" := 1];
    assert env1["x"] == 1;
    AndExact(0, 1);
    assert Eval(Assign(Var("x"), Num(1)), env) == Val(1, env1);
    assert Eval(Num(0), env1) == Val(0, env1);
  }
}
