/** Statement code follows the source: however a statement ends, the machine gets to the matching
    position with the same parameter values, and it keeps running exactly when the source does. */
module StmtProof {
  import opened Words
  import opened Wrappers
  import opened X86
  import opened MiniC
  import opened Assembly
  import opened ExprProof

  const LIMIT := 0x8000_0000

  /** Control is at `pos`, in the same frame, with the parameters as in `env`. */
  ghost predicate Arrived(o: Outcome, pos: int, env: Env, locals: seq<Local>, st: State) {
    && o.Running?
    && o.st.rip == pos
    && SameStack(o.st, st)
    && Frame(locals, env, o.st)
    && Preserved(locals, st.rbp, st.rsp, st.mem, o.st.mem)
  }

  /** The frame is gone: control is at the return address, with the caller's rbp and rsp. */
  ghost predicate HasReturned(o: Outcome, v: i64, env: Env, locals: seq<Local>, st: State)
    requires GoodLocals(locals) && 8 * |locals| <= st.rbp && st.rbp + 16 <= TWO_64
  {
    && o.Running?
    && o.st.rax == ToU64(v)
    && o.st.rip == Read(st.mem, st.rbp + 8)
    && o.st.rbp == Read(st.mem, st.rbp)
    && o.st.rsp == ToU64(st.rbp + 16)
    && SlotsHold(locals, env, st.rbp, o.st.mem)
    && Preserved(locals, st.rbp, st.rsp, st.mem, o.st.mem)
  }

  ghost predicate Ready(locals: seq<Local>, env: Env, st: State) {
    Frame(locals, env, st) && st.rbp + 16 <= TWO_64
  }

  /** `n` machine steps from `st` match the source result `r`; `hi` is where the code ends. */
  ghost predicate Simulates(code: seq<byte>, st: State, n: nat, r: Result, locals: seq<Local>,
                            lo: int, hi: int, brk: Target, cnt: Target)
    requires GoodLocals(locals) && 8 * |locals| <= st.rbp && st.rbp + 16 <= TWO_64
  {
    var o := Run(code, st, n);
    match r
    case Normal(env) => Arrived(o, hi, env, locals, st)
    case Broke(env) => brk.To? && Arrived(o, brk.pos, env, locals, st)
    case Continued(env) => cnt.To? && Arrived(o, cnt.pos, env, locals, st)
    case Returned(v, env) => HasReturned(o, v, env, locals, st)
    case Trapped => o == DivideError
    case Timeout => o.Running? && lo <= o.st.rip < hi && SameStack(o.st, st)
  }

  /** Steps that arrive somewhere in the frame can be followed by more steps. */
  lemma Chain(code: seq<byte>, st: State, m: nat, env: Env, n: nat, r: Result, locals: seq<Local>,
              lo: int, hi: int, lo1: int, hi1: int, brk: Target, cnt: Target)
    requires Run(code, st, m).Running?
    requires GoodLocals(locals) && 8 * |locals| <= st.rbp && st.rbp + 16 <= TWO_64
    requires Arrived(Run(code, st, m), Run(code, st, m).st.rip, env, locals, st)
    requires Simulates(code, Run(code, st, m).st, n, r, locals, lo1, hi1, brk, cnt)
    requires lo <= lo1 && hi1 <= hi && (r.Normal? ==> hi1 == hi)
    ensures Simulates(code, st, m + n, r, locals, lo, hi, brk, cnt)
  {
    hide Run, GoodLocals, SlotsHold;
    RunAdd(code, st, m, n);
    var s := Run(code, st, m).st;
    if r.Returned? {
      FrameTop(locals, st, s);
    }
  }

  /** The saved rbp and the return address are not parameter slots. */
  lemma FrameTop(locals: seq<Local>, st: State, s: State)
    requires GoodLocals(locals) && 8 * |locals| <= st.rbp && st.rbp + 16 <= TWO_64 && st.rsp <= st.rbp
    requires Preserved(locals, st.rbp, st.rsp, st.mem, s.mem)
    ensures Read(s.mem, st.rbp) == Read(st.mem, st.rbp)
    ensures Read(s.mem, st.rbp + 8) == Read(st.mem, st.rbp + 8)
  {
    assert !IsSlot(locals, st.rbp, st.rbp);
    assert !IsSlot(locals, st.rbp, st.rbp + 8);
  }

  lemma RelLands(from: nat, to: nat)
    requires from + 4 < LIMIT && to < LIMIT
    ensures from + 4 + SignExt32(Rel(from, to)) == to
  {
  }

  // ---- single pieces ----

  lemma ExprRun(e: Expr, code: seq<byte>, locals: seq<Local>, env: Env, st: State)
    requires 0 <= st.rip && Holds(code, st.rip, EncodeAll(ExprCode(e, locals)))
    requires Frame(locals, env, st) && ExprNeed(e) <= st.rsp
    ensures var o := Run(code, st, |ExprCode(e, locals)|);
      match Eval(e, env)
      case Trap => o == DivideError
      case Val(v, env1) => Arrived(o, st.rip + ByteLen(ExprCode(e, locals)), env1, locals, st) && o.st.rax == ToU64(v)
  {
    hide Run, RunSeq, EncodeAll, ExprCode, Eval, Frame;
    ExprStraight(e, locals);
    RunStraight(code, st, ExprCode(e, locals));
    ExprCorrect(e, locals, env, st);
  }

  lemma OneStep(code: seq<byte>, st: State)
    ensures Run(code, st, 1) == Step(code, st)
  {
    hide Step;
    if Step(code, st).Running? { assert Run(code, Step(code, st).st, 0) == Step(code, st); }
  }

  lemma JmpRun(code: seq<byte>, st: State, target: nat, env: Env, locals: seq<Local>)
    requires 0 <= st.rip && |code| < LIMIT && target < LIMIT
    requires Holds(code, st.rip, EncodeAll([Jmp(Rel(st.rip + 1, target))]))
    requires Frame(locals, env, st)
    ensures Arrived(Run(code, st, 1), target, env, locals, st)
  {
    var i := Jmp(Rel(st.rip + 1, target));
    EncodeOne(i);
    LenJumps(i.rel);
    DecodeEncode(code, st.rip, i);
    RelLands(st.rip + 1, target);
    OneStep(code, st);
    hide Run, Decode, Encode, EncodeAll, Rel, GoodLocals, SlotsHold;
    FrameRaised(locals, env, st, st.(rip := target));
  }

  lemma TestStep(code: seq<byte>, st: State, v: i64, env: Env, locals: seq<Local>)
    requires 0 <= st.rip && Holds(code, st.rip, EncodeAll([TestRaxRax]))
    requires Frame(locals, env, st) && st.rax == ToU64(v)
    ensures Arrived(Run(code, st, 1), st.rip + ByteLen([TestRaxRax]), env, locals, st)
    ensures Run(code, st, 1).st.flags == Flags(v == 0, v < 0)
  {
    EncodeOne(TestRaxRax);
    StepNext(code, st, TestRaxRax);
    OneStep(code, st);
    WordArith(v, v);
    hide Run, Step, Encode, EncodeAll, ToU64, Signed, GoodLocals, SlotsHold;
    FrameRaised(locals, env, st, Next(TestRaxRax, st).st);
  }

  lemma JeStep(code: seq<byte>, st: State, target: nat, env: Env, locals: seq<Local>)
    requires 0 <= st.rip && st.rip + 6 < LIMIT && target < LIMIT && st.flags.Flags?
    requires Holds(code, st.rip, EncodeAll([Je(Rel(st.rip + 2, target))]))
    requires Frame(locals, env, st)
    ensures Arrived(Run(code, st, 1), if st.flags.zf then target else st.rip + 6, env, locals, st)
  {
    var i := Je(Rel(st.rip + 2, target));
    EncodeOne(i);
    LenJumps(i.rel);
    DecodeEncode(code, st.rip, i);
    RelLands(st.rip + 2, target);
    OneStep(code, st);
    hide Run, Decode, Encode, EncodeAll, Rel, GoodLocals, SlotsHold;
    FrameRaised(locals, env, st, Step(code, st).st);
  }

  lemma ArrivedTwice(code: seq<byte>, st: State, m: nat, n: nat, env: Env, p: int, env': Env, locals: seq<Local>)
    requires Run(code, st, m).Running?
    requires Arrived(Run(code, st, m), Run(code, st, m).st.rip, env, locals, st)
    requires Arrived(Run(code, Run(code, st, m).st, n), p, env', locals, Run(code, st, m).st)
    ensures Arrived(Run(code, st, m + n), p, env', locals, st)
    ensures Run(code, st, m + n) == Run(code, Run(code, st, m).st, n)
  {
    hide Run, Frame;
    RunAdd(code, st, m, n);
  }

  lemma HoldsParts(code: seq<byte>, p: nat, a: seq<Instr>, b: seq<Instr>)
    requires Holds(code, p, EncodeAll(a + b))
    ensures Holds(code, p, EncodeAll(a)) && Holds(code, p + ByteLen(a), EncodeAll(b))
    ensures p + ByteLen(a) + ByteLen(b) <= |code|
  {
    hide EncodeAll, Encode;
    EncodeAppend(a, b);
    HoldsSplit(code, p, EncodeAll(a), EncodeAll(b));
  }

  function TestExpr(test: Option<Expr>): Expr { match test case None => Num(1) case Some(c) => c }

  lemma TestIsExpr(test: Option<Expr>, locals: seq<Local>, env: Env)
    ensures TestCode(test, locals) == ExprCode(TestExpr(test), locals) + [TestRaxRax]
    ensures EvalTest(test, env) == Eval(TestExpr(test), env)
  {
  }

  /** Evaluate a condition and jump to `target` if it is 0. */
  lemma TestJe(test: Option<Expr>, code: seq<byte>, locals: seq<Local>, env: Env, st: State, target: nat)
      returns (n: nat)
    requires 0 <= st.rip && |code| < LIMIT && target < LIMIT
    requires Holds(code, st.rip, EncodeAll(TestCode(test, locals)))
    requires var p := st.rip + ByteLen(TestCode(test, locals)); Holds(code, p, EncodeAll([Je(Rel(p + 2, target))]))
    requires Frame(locals, env, st) && ExprNeed(TestExpr(test)) <= st.rsp
    ensures var o := Run(code, st, n);
      match EvalTest(test, env)
      case Trap => o == DivideError
      case Val(v, env1) =>
        Arrived(o, if v == 0 then target else st.rip + ByteLen(TestCode(test, locals)) + 6, env1, locals, st)
    ensures n > 0
  {
    hide Run, RunSeq, EncodeAll, ByteLen, Encode, ExprCode, Eval, TestCode, GoodLocals, SlotsHold, Step;
    var e := TestExpr(test);
    TestIsExpr(test, locals, env);
    var c := ExprCode(e, locals);
    HoldsParts(code, st.rip, c, [TestRaxRax]);
    LenAppend(c, [TestRaxRax]);
    ExprRun(e, code, locals, env, st);
    match Eval(e, env) {
      case Trap =>
        n := |c| + 1;
        RunStops(code, st, |c|, 1);
      case Val(v, env1) =>
        var s := Run(code, st, |c|).st;
        TestStep(code, s, v, env1, locals);
        ArrivedTwice(code, st, |c|, 1, env1, s.rip + ByteLen([TestRaxRax]), env1, locals);
        var s2 := Run(code, st, |c| + 1).st;
        JeLen(code, s2.rip, target);
        JeStep(code, s2, target, env1, locals);
        ArrivedTwice(code, st, |c| + 1, 1, env1, if v == 0 then target else s2.rip + 6, env1, locals);
        n := |c| + 1 + 1;
    }
  }

  lemma JeLen(code: seq<byte>, p: nat, target: nat)
    requires Holds(code, p, EncodeAll([Je(Rel(p + 2, target))]))
    ensures p + 6 <= |code|
  {
    LenJumps(Rel(p + 2, target));
  }

  lemma {:induction false} RunStops(code: seq<byte>, st: State, m: nat, n: nat)
    requires !Run(code, st, m).Running?
    ensures Run(code, st, m + n) == Run(code, st, m)
    decreases m
  {
    hide Step;
    if m > 0 && Step(code, st).Running? { RunStops(code, Step(code, st).st, m - 1, n); }
  }

  /** `return`: value in rax, then the epilogue. */
  lemma EpilogueRun(code: seq<byte>, st: State, v: i64, env: Env, locals: seq<Local>)
    requires 0 <= st.rip && Holds(code, st.rip, EncodeAll(EpilogueCode()))
    requires Ready(locals, env, st) && st.rax == ToU64(v)
    ensures HasReturned(Run(code, st, 3), v, env, locals, st)
  {
    hide Run, RunSeq, EncodeAll, ByteLen, Encode, GoodLocals, SlotsHold, ToU64, Decode;
    assert EpilogueCode() == [MovRspRbp] + ([PopRbp] + [Ret]);
    HoldsParts(code, st.rip, [MovRspRbp], [PopRbp] + [Ret]);
    EncodeOne(MovRspRbp);
    LenOf(MovRspRbp);
    var s1 := st.(rsp := st.rbp, rip := st.rip + Len(MovRspRbp));
    assert Step(code, st) == Running(s1) by { StepNext(code, st, MovRspRbp); }
    HoldsParts(code, s1.rip, [PopRbp], [Ret]);
    EncodeOne(PopRbp);
    LenOf(PopRbp);
    SmallWord(st.rbp + 8);
    var s2 := s1.(rbp := Read(st.mem, st.rbp), rsp := st.rbp + 8, rip := s1.rip + Len(PopRbp));
    assert Step(code, s1) == Running(s2) by { StepNext(code, s1, PopRbp); }
    EncodeOne(Ret);
    DecodeEncode(code, s2.rip, Ret);
    var s3 := s2.(rip := Read(st.mem, st.rbp + 8), rsp := ToU64(st.rbp + 16));
    assert Step(code, s2) == Running(s3);
    ThreeSteps(code, st, s1, s2, s3);
  }

  lemma ThreeSteps(code: seq<byte>, st: State, s1: State, s2: State, s3: State)
    requires Step(code, st) == Running(s1) && Step(code, s1) == Running(s2) && Step(code, s2) == Running(s3)
    ensures Run(code, st, 3) == Running(s3)
  {
    hide Step;
    assert Run(code, s3, 0) == Running(s3);
    assert Run(code, s2, 1) == Running(s3);
    assert Run(code, s1, 2) == Running(s3);
  }

  lemma ReturnRun(result: Option<Expr>, code: seq<byte>, locals: seq<Local>, env: Env, st: State, brk: Target,
                  cnt: Target)
      returns (n: nat)
    requires 0 <= st.rip && Holds(code, st.rip, EncodeAll(ReturnCode(result, locals)))
    requires Ready(locals, env, st) && (result.Some? ==> ExprNeed(result.value) <= st.rsp)
    ensures Simulates(code, st, n, Exec(Return(result), env, brk.To?, 0), locals,
                      st.rip, st.rip + ByteLen(ReturnCode(result, locals)), brk, cnt)
  {
    hide Run, RunSeq, EncodeAll, ByteLen, Encode, ExprCode, Eval, EpilogueCode, GoodLocals, SlotsHold, Step;
    match result {
      case None =>
        HoldsParts(code, st.rip, [XorRaxRax], EpilogueCode());
        var m := XorRun(code, st, env, locals);
        EpilogueRun(code, Run(code, st, m).st, 0, env, locals);
        n := m + 3;
        Chain(code, st, m, env, 3, Returned(0, env), locals, st.rip, st.rip + ByteLen(ReturnCode(result, locals)),
              st.rip, st.rip, brk, cnt);
      case Some(e) =>
        var c := ExprCode(e, locals);
        HoldsParts(code, st.rip, c, EpilogueCode());
        ExprRun(e, code, locals, env, st);
        match Eval(e, env) {
          case Trap => n := |c|;
          case Val(v, env1) =>
            EpilogueRun(code, Run(code, st, |c|).st, v, env1, locals);
            n := |c| + 3;
            Chain(code, st, |c|, env1, 3, Returned(v, env1), locals, st.rip,
                  st.rip + ByteLen(ReturnCode(result, locals)),
                  st.rip, st.rip, brk, cnt);
        }
    }
  }

  lemma XorRun(code: seq<byte>, st: State, env: Env, locals: seq<Local>) returns (n: nat)
    requires 0 <= st.rip && Holds(code, st.rip, EncodeAll([XorRaxRax])) && Frame(locals, env, st)
    ensures n == 1 && Arrived(Run(code, st, n), st.rip + ByteLen([XorRaxRax]), env, locals, st)
    ensures Run(code, st, n).st.rax == ToU64(0)
  {
    EncodeOne(XorRaxRax);
    StepNext(code, st, XorRaxRax);
    OneStep(code, st);
    SmallWord(0);
    hide Run, Step, Encode, EncodeAll, ToU64, GoodLocals, SlotsHold;
    FrameRaised(locals, env, st, Next(XorRaxRax, st).st);
    n := 1;
  }

  // ---- whole statements ----

  function StmtNeed(s: Stmt): nat
    decreases s, 1
  {
    match s
    case Empty | Break | Continue => 0
    case ExprStmt(e) => ExprNeed(e)
    case Block(ss) => BlockNeed(ss)
    case If(c, t, e) => Max(ExprNeed(c), Max(StmtNeed(t), StmtNeed(e)))
    case While(c, b) => Max(ExprNeed(c), StmtNeed(b))
    case For(init, test, step, b) =>
      Max(StmtNeed(init), Max(OptNeed(test), Max(OptNeed(step), StmtNeed(b))))
    case Return(r) => OptNeed(r)
  }

  function BlockNeed(ss: seq<Stmt>): nat
    decreases ss, 0
  {
    if ss == [] then 0 else Max(StmtNeed(ss[0]), BlockNeed(ss[1..]))
  }

  function OptNeed(e: Option<Expr>): nat { match e case None => 0 case Some(x) => ExprNeed(x) }

  /** Both jump targets are known, or there is no enclosing loop. */
  ghost predicate Resolved(brk: Target, cnt: Target) {
    (brk.NoLoop? && cnt.NoLoop?) || (brk.To? && cnt.To? && brk.pos < LIMIT && cnt.pos < LIMIT)
  }

  lemma {:induction false} StmtSim(s: Stmt, code: seq<byte>, locals: seq<Local>, env: Env, st: State,
                                   brk: Target, cnt: Target, fuel: nat) returns (n: nat)
    requires 0 <= st.rip && |code| < LIMIT && Resolved(brk, cnt)
    requires Holds(code, st.rip, EncodeAll(StmtCode(s, locals, st.rip, brk, cnt)))
    requires Ready(locals, env, st) && StmtNeed(s) <= st.rsp
    ensures Simulates(code, st, n, Exec(s, env, brk.To?, fuel), locals,
                      st.rip, st.rip + StmtSize(s, locals, brk.To?), brk, cnt)
    ensures Exec(s, env, brk.To?, fuel).Timeout? ==> n >= fuel
    decreases fuel, s, 1
  {
    hide Run, EncodeAll, ByteLen, Encode, ExprCode, Eval, GoodLocals, SlotsHold, ReturnCode, LoopCode, LoopSize;
    match s {
      case Empty => n := Stay(code, st, env, locals);
      case ExprStmt(e) =>
        ExprRun(e, code, locals, env, st);
        n := |ExprCode(e, locals)|;
      case Block(ss) => n := BlockSim(ss, code, locals, env, st, brk, cnt, fuel);
      case If(c, t, e) => n := IfSim(c, t, e, code, locals, env, st, brk, cnt, fuel);
      case While(c, b) =>
        n := LoopSim(Some(c), None, b, code, locals, env, st, brk, cnt, fuel);
      case For(init, test, step, b) => n := ForSim(init, test, step, b, code, locals, env, st, brk, cnt, fuel);
      case Break =>
        if brk.To? { JmpRun(code, st, brk.pos, env, locals); n := 1; } else { n := Stay(code, st, env, locals); }
      case Continue =>
        if cnt.To? { JmpRun(code, st, cnt.pos, env, locals); n := 1; } else { n := Stay(code, st, env, locals); }
      case Return(r) => n := ReturnRun(r, code, locals, env, st, brk, cnt);
    }
  }

  lemma Stay(code: seq<byte>, st: State, env: Env, locals: seq<Local>) returns (n: nat)
    requires Frame(locals, env, st)
    ensures n == 0 && Arrived(Run(code, st, 0), st.rip, env, locals, st)
  {
    n := 0;
  }

  lemma {:induction false} BlockSim(ss: seq<Stmt>, code: seq<byte>, locals: seq<Local>, env: Env, st: State,
                                    brk: Target, cnt: Target, fuel: nat) returns (n: nat)
    requires 0 <= st.rip && |code| < LIMIT && Resolved(brk, cnt)
    requires Holds(code, st.rip, EncodeAll(BlockCode(ss, locals, st.rip, brk, cnt)))
    requires Ready(locals, env, st) && BlockNeed(ss) <= st.rsp
    ensures Simulates(code, st, n, ExecAll(ss, env, brk.To?, fuel), locals,
                      st.rip, st.rip + BlockSize(ss, locals, brk.To?), brk, cnt)
    ensures ExecAll(ss, env, brk.To?, fuel).Timeout? ==> n >= fuel
    decreases fuel, ss, 0
  {
    hide Run, EncodeAll, ByteLen, Encode, StmtCode, StmtSize, StmtNeed, Exec, GoodLocals, SlotsHold;
    if ss == [] {
      n := Stay(code, st, env, locals);
      return;
    }
    var k := StmtSize(ss[0], locals, brk.To?);
    HoldsParts(code, st.rip, StmtCode(ss[0], locals, st.rip, brk, cnt),
               BlockCode(ss[1..], locals, st.rip + k, brk, cnt));
    StmtLen(ss[0], locals, st.rip, brk, cnt);
    n := StmtSim(ss[0], code, locals, env, st, brk, cnt, fuel);
    var r := Exec(ss[0], env, brk.To?, fuel);
    if r.Normal? {
      var s := Run(code, st, n).st;
      var m := BlockSim(ss[1..], code, locals, r.env, s, brk, cnt, fuel);
      Chain(code, st, n, r.env, m, ExecAll(ss[1..], r.env, brk.To?, fuel), locals,
            st.rip, st.rip + BlockSize(ss, locals, brk.To?), s.rip, s.rip + BlockSize(ss[1..], locals, brk.To?), brk, cnt);
      n := n + m;
    }
  }

  lemma {:induction false} ForSim(init: Stmt, test: Option<Expr>, step: Option<Expr>, b: Stmt, code: seq<byte>,
      locals: seq<Local>, env: Env, st: State, brk: Target, cnt: Target, fuel: nat) returns (n: nat)
    requires 0 <= st.rip && |code| < LIMIT && Resolved(brk, cnt)
    requires Holds(code, st.rip, EncodeAll(StmtCode(For(init, test, step, b), locals, st.rip, brk, cnt)))
    requires Ready(locals, env, st) && StmtNeed(For(init, test, step, b)) <= st.rsp
    ensures var s := For(init, test, step, b);
      && Simulates(code, st, n, Exec(s, env, brk.To?, fuel), locals,
                   st.rip, st.rip + StmtSize(s, locals, brk.To?), brk, cnt)
      && (Exec(s, env, brk.To?, fuel).Timeout? ==> n >= fuel)
    decreases fuel, For(init, test, step, b), 0
  {
    hide Run, EncodeAll, ByteLen, Encode, LoopCode, LoopSize, GoodLocals, SlotsHold, ExecLoop, StmtNeed, Arrived;
    ForNeed(init, test, step, b);
    var k := StmtSize(init, locals, brk.To?);
    HoldsParts(code, st.rip, StmtCode(init, locals, st.rip, brk, cnt), LoopCode(test, step, b, locals, st.rip + k));
    StmtLen(init, locals, st.rip, brk, cnt);
    n := StmtSim(init, code, locals, env, st, brk, cnt, fuel);
    var r := Exec(init, env, brk.To?, fuel);
    if r.Normal? {
      ArrivedFacts(Run(code, st, n), st.rip + k, r.env, locals, st);
      var s := Run(code, st, n).st;
      var m := LoopSim(test, step, b, code, locals, r.env, s, brk, cnt, fuel);
      Chain(code, st, n, r.env, m, ExecLoop(test, step, b, r.env, fuel), locals, st.rip,
            st.rip + StmtSize(For(init, test, step, b), locals, brk.To?),
            s.rip, s.rip + LoopSize(test, step, StmtSize(b, locals, true), locals), brk, cnt);
      n := n + m;
    }
  }

  lemma ForNeed(init: Stmt, test: Option<Expr>, step: Option<Expr>, b: Stmt)
    ensures var m := StmtNeed(For(init, test, step, b));
      StmtNeed(init) <= m && OptNeed(test) <= m && OptNeed(step) <= m && StmtNeed(b) <= m
  {
  }

  lemma {:induction false} IfSim(c: Expr, t: Stmt, e: Stmt, code: seq<byte>, locals: seq<Local>, env: Env, st: State,
                                 brk: Target, cnt: Target, fuel: nat) returns (n: nat)
    requires 0 <= st.rip && |code| < LIMIT && Resolved(brk, cnt)
    requires Holds(code, st.rip, EncodeAll(IfCode(c, t, e, locals, st.rip, brk, cnt)))
    requires Ready(locals, env, st) && ExprNeed(c) <= st.rsp && StmtNeed(t) <= st.rsp && StmtNeed(e) <= st.rsp
    ensures var hi := st.rip + IfSize(c, StmtSize(t, locals, brk.To?), e.Empty?, StmtSize(e, locals, brk.To?), locals);
      match Eval(c, env)
      case Trap => Run(code, st, n) == DivideError
      case Val(v, env1) =>
        var r := Exec(if v != 0 then t else e, env1, brk.To?, fuel);
        Simulates(code, st, n, r, locals, st.rip, hi, brk, cnt) && (r.Timeout? ==> n >= fuel)
    decreases fuel, If(c, t, e), 0
  {
    hide Run, EncodeAll, ByteLen, Encode, Eval, TestCode, GoodLocals, SlotsHold, StmtCode, StmtSize, StmtNeed, Exec,
      Arrived, Rel, Holds, Preserved, Resolved;
    if e.Empty? {
      IfPartsShort(c, t, e, code, locals, st.rip, brk, cnt);
      EmptySize(locals, brk.To?);
    } else {
      IfParts(c, t, e, code, locals, st.rip, brk, cnt);
    }
    var p := st.rip + ByteLen(TestCode(Some(c), locals)) + 6;
    var q := p + StmtSize(t, locals, brk.To?);
    var hi := st.rip + IfSize(c, StmtSize(t, locals, brk.To?), e.Empty?, StmtSize(e, locals, brk.To?), locals);
    var q1 := if e.Empty? then q else q + 5;
    n := TestJe(Some(c), code, locals, env, st, q1);
    if Eval(c, env).Val? {
      var v, env1 := Eval(c, env).v, Eval(c, env).env;
      if v != 0 {
        n := BranchSim(t, code, locals, env1, st, n, p, hi, brk, cnt, fuel);
      } else {
        n := BranchSim(e, code, locals, env1, st, n, q1, hi, brk, cnt, fuel);
      }
    }
  }

  lemma {:induction false} BranchSim(s: Stmt, code: seq<byte>, locals: seq<Local>, env: Env, st: State, m: nat,
                                     p: nat, hi: nat, brk: Target, cnt: Target, fuel: nat) returns (n: nat)
    requires |code| < LIMIT && hi < LIMIT && Resolved(brk, cnt) && st.rip <= p
    requires Arrived(Run(code, st, m), p, env, locals, st)
    requires st.rbp + 16 <= TWO_64 && StmtNeed(s) <= st.rsp
    requires Holds(code, p, EncodeAll(StmtCode(s, locals, p, brk, cnt)))
    requires var q := p + StmtSize(s, locals, brk.To?);
      q <= hi && (q < hi ==> Holds(code, q, EncodeAll([Jmp(Rel(q + 1, hi))])))
    ensures GoodLocals(locals) && 8 * |locals| <= st.rbp
    ensures var r := Exec(s, env, brk.To?, fuel);
      Simulates(code, st, n, r, locals, st.rip, hi, brk, cnt) && (r.Timeout? ==> n >= fuel)
    decreases fuel, s, 2
  {
    hide Run, EncodeAll, GoodLocals, SlotsHold, StmtCode, StmtSize, StmtNeed, Exec, Arrived, Rel, Holds, Resolved,
      Simulates;
    ArrivedFacts(Run(code, st, m), p, env, locals, st);
    var k := StmtSim(s, code, locals, env, Run(code, st, m).st, brk, cnt, fuel);
    n := IfJoin(code, st, m, env, k, Exec(s, env, brk.To?, fuel), locals, p, p + StmtSize(s, locals, brk.To?), hi, brk,
                cnt);
  }

  /** The end of either branch is carried to the end of the `if`. */
  lemma IfJoin(code: seq<byte>, st: State, n: nat, env: Env, m: nat, r: Result, locals: seq<Local>,
               p: nat, q: nat, hi: nat, brk: Target, cnt: Target) returns (k: nat)
    requires |code| < LIMIT && hi < LIMIT && st.rip <= p && q <= hi
    requires Arrived(Run(code, st, n), p, env, locals, st)
    requires GoodLocals(locals) && 8 * |locals| <= st.rbp && st.rbp + 16 <= TWO_64
    requires Simulates(code, Run(code, st, n).st, m, r, locals, p, q, brk, cnt)
    requires q < hi ==> Holds(code, q, EncodeAll([Jmp(Rel(q + 1, hi))]))
    ensures Simulates(code, st, k, r, locals, st.rip, hi, brk, cnt) && k >= m
  {
    hide Run, EncodeAll, GoodLocals, SlotsHold, Rel, Holds, Arrived;
    ArrivedFacts(Run(code, st, n), p, env, locals, st);
    k := n + m;
    if r.Normal? && q < hi {
      Chain(code, st, n, env, m, r, locals, st.rip, q, p, q, brk, cnt);
      ThenJump(code, st, n + m, q, hi, r.env, locals);
      k := n + m + 1;
    } else {
      Chain(code, st, n, env, m, r, locals, st.rip, hi, p, q, brk, cnt);
    }
  }

  lemma ThenJump(code: seq<byte>, st: State, n: nat, q: nat, target: nat, env: Env, locals: seq<Local>)
    requires |code| < LIMIT && target < LIMIT
    requires Arrived(Run(code, st, n), q, env, locals, st)
    requires Holds(code, q, EncodeAll([Jmp(Rel(q + 1, target))]))
    ensures Arrived(Run(code, st, n + 1), target, env, locals, st)
  {
    hide Run, EncodeAll, Rel, Frame;
    JmpRun(code, Run(code, st, n).st, target, env, locals);
    ArrivedTwice(code, st, n, 1, env, target, env, locals);
  }

  lemma ArrivedFacts(o: Outcome, pos: int, env: Env, locals: seq<Local>, st: State)
    requires Arrived(o, pos, env, locals, st)
    ensures o.Running? && o.st.rip == pos && SameStack(o.st, st) && Frame(locals, env, o.st)
    ensures Arrived(o, o.st.rip, env, locals, st)
  {
  }

  lemma EmptySize(locals: seq<Local>, inLoop: bool)
    ensures StmtSize(Empty, locals, inLoop) == 0
  {
  }

  /** Where the pieces of an `if` are. */
  lemma IfParts(c: Expr, t: Stmt, e: Stmt, code: seq<byte>, locals: seq<Local>, at: nat, brk: Target, cnt: Target)
    requires |code| < LIMIT && Resolved(brk, cnt) && !e.Empty?
    requires Holds(code, at, EncodeAll(IfCode(c, t, e, locals, at, brk, cnt)))
    ensures var p := at + ByteLen(TestCode(Some(c), locals));
      var q := p + 6 + StmtSize(t, locals, brk.To?);
      var hi := q + 5 + StmtSize(e, locals, brk.To?);
      && hi <= |code|
      && Holds(code, at, EncodeAll(TestCode(Some(c), locals)))
      && Holds(code, p, EncodeAll([Je(Rel(p + 2, q + 5))]))
      && Holds(code, p + 6, EncodeAll(StmtCode(t, locals, p + 6, brk, cnt)))
      && Holds(code, q, EncodeAll([Jmp(Rel(q + 1, hi))]))
      && Holds(code, q + 5, EncodeAll(StmtCode(e, locals, q + 5, brk, cnt)))
  {
    hide EncodeAll, ByteLen, Encode, TestCode, StmtCode, StmtSize, Rel, Holds;
    var test := TestCode(Some(c), locals);
    var p := at + ByteLen(test);
    var q := p + 6 + StmtSize(t, locals, brk.To?);
    var thn, els := StmtCode(t, locals, p + 6, brk, cnt), StmtCode(e, locals, q + 5, brk, cnt);
    var je, jmp := [Je(Rel(p + 2, q + 5))], [Jmp(Rel(q + 1, q + 5 + StmtSize(e, locals, brk.To?)))];
    StmtLen(t, locals, p + 6, brk, cnt);
    StmtLen(e, locals, q + 5, brk, cnt);
    LenJumps(je[0].rel);
    LenJumps(jmp[0].rel);
    assert IfCode(c, t, e, locals, at, brk, cnt) == test + (je + (thn + (jmp + els)));
    HoldsParts(code, at, test, je + (thn + (jmp + els)));
    HoldsParts(code, p, je, thn + (jmp + els));
    HoldsParts(code, p + 6, thn, jmp + els);
    HoldsParts(code, q, jmp, els);
  }

  lemma IfPartsShort(c: Expr, t: Stmt, e: Stmt, code: seq<byte>, locals: seq<Local>, at: nat, brk: Target, cnt: Target)
    requires |code| < LIMIT && Resolved(brk, cnt) && e.Empty?
    requires Holds(code, at, EncodeAll(IfCode(c, t, e, locals, at, brk, cnt)))
    ensures var p := at + ByteLen(TestCode(Some(c), locals));
      var q := p + 6 + StmtSize(t, locals, brk.To?);
      && q <= |code|
      && Holds(code, at, EncodeAll(TestCode(Some(c), locals)))
      && Holds(code, p, EncodeAll([Je(Rel(p + 2, q))]))
      && Holds(code, p + 6, EncodeAll(StmtCode(t, locals, p + 6, brk, cnt)))
      && Holds(code, q, EncodeAll(StmtCode(e, locals, q, brk, cnt)))
  {
    hide EncodeAll, ByteLen, Encode, TestCode, StmtCode, StmtSize, Rel, Holds;
    var test := TestCode(Some(c), locals);
    var p := at + ByteLen(test);
    var q := p + 6 + StmtSize(t, locals, brk.To?);
    var thn, je := StmtCode(t, locals, p + 6, brk, cnt), [Je(Rel(p + 2, q))];
    StmtLen(t, locals, p + 6, brk, cnt);
    LenJumps(je[0].rel);
    assert IfCode(c, t, e, locals, at, brk, cnt) == test + (je + thn);
    HoldsParts(code, at, test, je + thn);
    HoldsParts(code, p, je, thn);
    HoldsEmpty(code, q, locals, brk, cnt);
  }

  lemma HoldsEmpty(code: seq<byte>, p: nat, locals: seq<Local>, brk: Target, cnt: Target)
    requires p <= |code|
    ensures Holds(code, p, EncodeAll(StmtCode(Empty, locals, p, brk, cnt)))
  {
  }

  /** Where the pieces of a loop are. */
  lemma LoopParts(test: Option<Expr>, step: Option<Expr>, b: Stmt, code: seq<byte>, locals: seq<Local>, at: nat)
    requires |code| < LIMIT
    requires Holds(code, at, EncodeAll(LoopCode(test, step, b, locals, at)))
    ensures var m := MapLoop(test, step, b, locals, at);
      && m.exit <= |code| && m.exit == at + LoopSize(test, step, StmtSize(b, locals, true), locals)
      && Holds(code, at, EncodeAll(TestCode(test, locals)))
      && Holds(code, m.je, EncodeAll([Je(Rel(m.je + 2, m.exit))]))
      && Holds(code, m.body, EncodeAll(StmtCode(b, locals, m.body, To(m.exit), To(m.next))))
      && Holds(code, m.step, EncodeAll(StepCode(step, locals)))
      && Holds(code, m.jmp, EncodeAll([Jmp(Rel(m.jmp + 1, at))]))
  {
    hide EncodeAll, ByteLen, Encode, TestCode, StepCode, StmtCode, StmtSize, Rel, Holds;
    var m := MapLoop(test, step, b, locals, at);
    var tc, je := TestCode(test, locals), [Je(Rel(m.je + 2, m.exit))];
    var body := StmtCode(b, locals, m.body, To(m.exit), To(m.next));
    var sc, jmp := StepCode(step, locals), [Jmp(Rel(m.jmp + 1, at))];
    LenJumps(je[0].rel);
    LenJumps(jmp[0].rel);
    StmtLen(b, locals, m.body, To(m.exit), To(m.next));
    assert LoopCode(test, step, b, locals, at) == tc + (je + (body + (sc + jmp)));
    HoldsParts(code, at, tc, je + (body + (sc + jmp)));
    HoldsParts(code, m.je, je, body + (sc + jmp));
    HoldsParts(code, m.body, body, sc + jmp);
    HoldsParts(code, m.step, sc, jmp);
  }

  /** The step expression, if any, and the jump back to the test. */
  lemma StepBack(step: Option<Expr>, code: seq<byte>, locals: seq<Local>, env: Env, st: State, at: nat) returns (n: nat)
    requires 0 <= st.rip && |code| < LIMIT && at < LIMIT
    requires Holds(code, st.rip, EncodeAll(StepCode(step, locals)))
    requires var j := st.rip + ByteLen(StepCode(step, locals));
      j + 5 <= |code| && Holds(code, j, EncodeAll([Jmp(Rel(j + 1, at))]))
    requires Frame(locals, env, st) && OptNeed(step) <= st.rsp
    ensures var o := Run(code, st, n);
      match EvalStep(step, env)
      case Trap => o == DivideError
      case Val(_, env1) => Arrived(o, at, env1, locals, st)
  {
    hide Run, EncodeAll, ByteLen, Encode, ExprCode, Eval, GoodLocals, SlotsHold;
    match step {
      case None =>
        assert ByteLen(StepCode(step, locals)) == 0 by { EncodeEmpty(); }
        JmpRun(code, st, at, env, locals);
        n := 1;
      case Some(e) =>
        n := |ExprCode(e, locals)|;
        ExprRun(e, code, locals, env, st);
        if Eval(e, env).Val? {
          var env1 := Eval(e, env).env;
          JmpRun(code, Run(code, st, n).st, at, env1, locals);
          ArrivedTwice(code, st, n, 1, env1, at, env1, locals);
          n := n + 1;
        }
    }
  }

  lemma {:induction false} LoopSim(test: Option<Expr>, step: Option<Expr>, b: Stmt, code: seq<byte>,
      locals: seq<Local>, env: Env, st: State, brk: Target, cnt: Target, fuel: nat) returns (n: nat)
    requires 0 <= st.rip && |code| < LIMIT
    requires Holds(code, st.rip, EncodeAll(LoopCode(test, step, b, locals, st.rip)))
    requires Ready(locals, env, st) && OptNeed(test) <= st.rsp && OptNeed(step) <= st.rsp && StmtNeed(b) <= st.rsp
    ensures Simulates(code, st, n, ExecLoop(test, step, b, env, fuel), locals,
                      st.rip, st.rip + LoopSize(test, step, StmtSize(b, locals, true), locals), brk, cnt)
    ensures ExecLoop(test, step, b, env, fuel).Timeout? ==> n >= fuel
    decreases fuel, b, 2
  {
    hide Run, EncodeAll, ByteLen, Encode, GoodLocals, SlotsHold, StmtCode, StmtSize, StmtNeed, TestCode, StepCode,
      LoopCode, Exec, Eval;
    if fuel == 0 {
      n := Stay(code, st, env, locals);
      return;
    }
    var m := MapLoop(test, step, b, locals, st.rip);
    LoopParts(test, step, b, code, locals, st.rip);
    n := TestJe(test, code, locals, env, st, m.exit);
    if EvalTest(test, env).Val? && EvalTest(test, env).v != 0 {
      var env1, s := EvalTest(test, env).env, Run(code, st, n).st;
      var k := BodySim(test, step, b, code, locals, env1, s, st.rip, brk, cnt, fuel - 1);
      Chain(code, st, n, env1, k, ExecLoop(test, step, b, env, fuel), locals, st.rip, m.exit, st.rip, m.exit, brk, cnt);
      n := n + k;
    }
  }

  /** What a loop does once its body has ended with `r`. */
  ghost function LoopRest(test: Option<Expr>, step: Option<Expr>, b: Stmt, r: Result, fuel: nat): Result {
    match r
    case Broke(env) => Normal(env)
    case Normal(env) => ExecNext(test, step, b, env, fuel)
    case Continued(env) => ExecNext(test, step, b, env, fuel)
    case other => other
  }

  /** The body and what follows it. */
  lemma {:induction false} BodySim(test: Option<Expr>, step: Option<Expr>, b: Stmt, code: seq<byte>,
      locals: seq<Local>, env: Env, st: State, at: nat, brk: Target, cnt: Target, fuel: nat) returns (n: nat)
    requires |code| < LIMIT && Holds(code, at, EncodeAll(LoopCode(test, step, b, locals, at)))
    requires st.rip == MapLoop(test, step, b, locals, at).body
    requires Ready(locals, env, st) && OptNeed(test) <= st.rsp && OptNeed(step) <= st.rsp && StmtNeed(b) <= st.rsp
    ensures var r := LoopRest(test, step, b, Exec(b, env, true, fuel), fuel);
      && Simulates(code, st, n, r, locals, at, at + LoopSize(test, step, StmtSize(b, locals, true), locals), brk, cnt)
      && (r.Timeout? ==> n >= fuel)
    decreases fuel, b, 4
  {
    hide Run, EncodeAll, ByteLen, Encode, GoodLocals, SlotsHold, StmtCode, StmtSize, StmtNeed, TestCode, StepCode,
      LoopCode, Exec, Eval, ExecNext;
    var m := MapLoop(test, step, b, locals, at);
    LoopParts(test, step, b, code, locals, at);
    n := StmtSim(b, code, locals, env, st, To(m.exit), To(m.next), fuel);
    var r := Exec(b, env, true, fuel);
    if r.Normal? || r.Continued? {
      var j := NextSim(test, step, b, code, locals, r.env, Run(code, st, n).st, at, brk, cnt, fuel);
      Chain(code, st, n, r.env, j, ExecNext(test, step, b, r.env, fuel), locals, at, m.exit, at, m.exit, brk, cnt);
      n := n + j;
    }
  }

  /** After the body ended normally or with `continue`. */
  lemma {:induction false} NextSim(test: Option<Expr>, step: Option<Expr>, b: Stmt, code: seq<byte>,
      locals: seq<Local>, env: Env, st: State, at: nat, brk: Target, cnt: Target, fuel: nat) returns (n: nat)
    requires |code| < LIMIT
    requires Holds(code, at, EncodeAll(LoopCode(test, step, b, locals, at)))
    requires var m := MapLoop(test, step, b, locals, at); st.rip == m.step || st.rip == m.next
    requires Ready(locals, env, st) && OptNeed(test) <= st.rsp && OptNeed(step) <= st.rsp && StmtNeed(b) <= st.rsp
    ensures Simulates(code, st, n, ExecNext(test, step, b, env, fuel), locals,
                      at, at + LoopSize(test, step, StmtSize(b, locals, true), locals), brk, cnt)
    ensures ExecNext(test, step, b, env, fuel).Timeout? ==> n >= fuel
    decreases fuel, b, 3
  {
    hide Run, EncodeAll, ByteLen, Encode, GoodLocals, SlotsHold, StmtCode, StmtSize, StmtNeed, TestCode, StepCode,
      LoopCode, Exec, Eval, ExecLoop;
    var m := MapLoop(test, step, b, locals, at);
    LoopParts(test, step, b, code, locals, at);
    if st.rip == m.step {
      n := StepBack(step, code, locals, env, st, at);
    } else {
      n := Stay(code, st, env, locals);
    }
    if EvalStep(step, env).Val? {
      var env1, s := EvalStep(step, env).env, Run(code, st, n).st;
      var k := LoopSim(test, step, b, code, locals, env1, s, brk, cnt, fuel);
      Chain(code, st, n, env1, k, ExecLoop(test, step, b, env1, fuel), locals, at, m.exit, at, m.exit, brk, cnt);
      n := n + k;
    }
  }
}
