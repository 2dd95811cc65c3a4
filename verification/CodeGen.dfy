/** The single-pass code generator: it appends bytes to a buffer, leaves jumps open on two patch
    stacks and fills them in when a loop ends. Every method is proved to produce the bytes of the
    two-pass assembler. */
module CodeGen {
  import opened Words
  import opened Wrappers
  import opened X86
  import opened MiniC
  import opened Assembly
  import CMeaning
  import opened Backpatch
  import opened ExprProof
  import opened StmtProof
  import opened FuncProof

  const MAX_LOOPS := 64

  /** How deeply loops nest inside a statement. */
  function LoopNest(s: Stmt): nat
    decreases s, 1
  {
    match s
    case Block(ss) => BlockNest(ss)
    case If(_, t, e) => Max(LoopNest(t), LoopNest(e))
    case While(_, b) => 1 + LoopNest(b)
    case For(init, _, _, b) => Max(LoopNest(init), 1 + LoopNest(b))
    case _ => 0
  }

  function BlockNest(ss: seq<Stmt>): nat
    decreases ss, 0
  {
    if ss == [] then 0 else Max(LoopNest(ss[0]), BlockNest(ss[1..]))
  }

  datatype Bookkeeping = Bookkeeping(breakBegin: seq<nat>, continueBegin: seq<nat>, continueKnown: seq<bool>,
                                     continueTarget: seq<nat>)

  /** The `continue` target that the innermost loop recorded. */
  function Innermost(b: Bookkeeping): Target {
    var d := |b.continueKnown|;
    if d == 0 || |b.continueTarget| != d then NoLoop
    else if b.continueKnown[d - 1] then To(b.continueTarget[d - 1]) else Hole
  }

  lemma StoreBytes(before: seq<byte>, opcode: seq<byte>, r: Reg, disp: u32)
    requires opcode == StoreOpcode(r)
    ensures before + [opcode[0]] + [opcode[1]] + [opcode[2]] + LE32(disp) == before + EncodeAll([Store(r, disp)])
  {
    hide LE32, EncodeAll;
    EncodeOne(Store(r, disp));
    assert [opcode[0]] + [opcode[1]] + [opcode[2]] == opcode;
  }

  class Generator {
    var code: seq<byte>
    var locals: seq<Local>
    var stackOffset: int

    var breakDepth: nat
    var breakBegin: seq<nat>
    var breakPatches: seq<nat>

    var continueDepth: nat
    var continueBegin: seq<nat>
    var continueKnown: seq<bool>
    var continueTarget: seq<nat>
    var continuePatches: seq<nat>

    ghost predicate Valid()
      reads this`breakDepth, this`continueDepth
      reads this`breakBegin, this`continueBegin, this`continueKnown, this`continueTarget
    {
      && breakDepth == continueDepth <= MAX_LOOPS
      && |breakBegin| == |continueBegin| == |continueKnown| == |continueTarget| == MAX_LOOPS
    }

    /** The loop bookkeeping of the `d` outermost loops, and the parameter table. */
    ghost function Outer(d: nat): Bookkeeping
      requires Valid() && d <= MAX_LOOPS
      reads this`breakDepth, this`continueDepth
      reads this`breakBegin, this`continueBegin, this`continueKnown, this`continueTarget
    {
      Bookkeeping(breakBegin[..d], continueBegin[..d], continueKnown[..d], continueTarget[..d])
    }

    /** Where a `break` emitted now will go. */
    ghost function BreakTo(): Target
      reads this`breakDepth
    {
      if breakDepth == 0 then NoLoop else Hole
    }

    ghost function ContinueTo(): Target
      requires Valid()
      reads this`breakDepth, this`continueDepth
      reads this`breakBegin, this`continueBegin, this`continueKnown, this`continueTarget
    {
      if breakDepth == 0 then NoLoop else Innermost(Outer(breakDepth))
    }

    ghost predicate SameContext(d: nat, table: seq<Local>, offset: int, context: Bookkeeping)
      reads this`breakDepth, this`continueDepth, this`locals, this`stackOffset
      reads this`breakBegin, this`continueBegin, this`continueKnown, this`continueTarget
    {
      Valid() && breakDepth == d && locals == table && stackOffset == offset && Outer(d) == context
    }

    constructor ()
      ensures Valid() && code == [] && locals == [] && breakDepth == 0 && breakPatches == [] && continuePatches == []
    {
      code, locals, stackOffset := [], [], 0;
      breakDepth, breakPatches := 0, [];
      breakBegin := seq(MAX_LOOPS, _ => 0);
      continueDepth, continuePatches := 0, [];
      continueBegin := seq(MAX_LOOPS, _ => 0);
      continueKnown := seq(MAX_LOOPS, _ => false);
      continueTarget := seq(MAX_LOOPS, _ => 0);
    }

    // ---- bytes ----

    method EmitByte(b: byte)
      modifies this`code
      ensures code == old(code) + [b]
    {
      code := code + [b];
    }

    method Emit(i: Instr)
      modifies this`code
      ensures code == old(code) + Encode(i)
    {
      hide Encode;
      var bs := Encode(i);
      var k := 0;
      while k < |bs|
        invariant 0 <= k <= |bs| && code == old(code) + bs[..k]
      {
        EmitByte(bs[k]);
        assert bs[..k + 1] == bs[..k] + [bs[k]];
        k := k + 1;
      }
      assert bs[..|bs|] == bs;
    }

    method EmitAll(prog: seq<Instr>)
      modifies this`code
      ensures code == old(code) + EncodeAll(prog)
    {
      hide Encode, EncodeAll;
      var k := 0;
      EmitNone(code, prog);
      while k < |prog|
        invariant 0 <= k <= |prog| && code == old(code) + EncodeAll(prog[..k])
      {
        EmitStep(old(code), prog, k);
        Emit(prog[k]);
        k := k + 1;
      }
      assert prog[..|prog|] == prog;
    }

    /** Overwrites four bytes with the distance from their end to `to`. */
    method PatchJmp(from: nat, to: nat)
      requires from + 4 <= |code|
      modifies this`code
      ensures code == Patch(old(code), from, to)
    {
      code := code[..from] + LE32(Rel(from, to)) + code[from + 4..];
    }

    method EmitJmp() returns (patch: nat)
      modifies this`code
      ensures code == old(code) + Encode(Jmp(0)) && patch == |old(code)| + 1
    {
      patch := |code| + 1;
      Emit(Jmp(0));
    }

    method EmitJe() returns (patch: nat)
      modifies this`code
      ensures code == old(code) + Encode(Je(0)) && patch == |old(code)| + 2
    {
      patch := |code| + 2;
      Emit(Je(0));
    }

    method PatchBreaks(depth: nat, to: nat)
      requires depth < |breakBegin| && breakBegin[depth] <= |breakPatches|
      requires InCode(breakPatches[breakBegin[depth]..], |code|)
      modifies this`code, this`breakPatches
      ensures code == PatchAll(old(code), old(breakPatches)[breakBegin[depth]..], to)
      ensures breakPatches == old(breakPatches)[..breakBegin[depth]]
    {
      var begin := breakBegin[depth];
      var i := begin;
      ghost var todo := breakPatches[begin..];
      assert todo[0..] == todo;
      while i < |breakPatches|
        invariant begin <= i <= |breakPatches| == |old(breakPatches)| && breakPatches == old(breakPatches)
        invariant |code| == |old(code)|
        invariant PatchAll(code, todo[i - begin..], to) == PatchAll(old(code), todo, to)
      {
        assert todo[i - begin..][0] == breakPatches[i] && todo[i - begin..][1..] == todo[i + 1 - begin..];
        PatchJmp(breakPatches[i], to);
        i := i + 1;
      }
      breakPatches := breakPatches[..begin];
    }

    method PatchContinues(depth: nat, to: nat)
      requires depth < |continueBegin| && continueBegin[depth] <= |continuePatches|
      requires InCode(continuePatches[continueBegin[depth]..], |code|)
      modifies this`code, this`continuePatches
      ensures code == PatchAll(old(code), old(continuePatches)[continueBegin[depth]..], to)
      ensures continuePatches == old(continuePatches)[..continueBegin[depth]]
    {
      var begin := continueBegin[depth];
      var i := begin;
      ghost var todo := continuePatches[begin..];
      assert todo[0..] == todo;
      while i < |continuePatches|
        invariant begin <= i <= |continuePatches| == |old(continuePatches)| && continuePatches == old(continuePatches)
        invariant |code| == |old(code)|
        invariant PatchAll(code, todo[i - begin..], to) == PatchAll(old(code), todo, to)
      {
        assert todo[i - begin..][0] == continuePatches[i] && todo[i - begin..][1..] == todo[i + 1 - begin..];
        PatchJmp(continuePatches[i], to);
        i := i + 1;
      }
      continuePatches := continuePatches[..begin];
    }

    // ---- expressions ----

    method FindSlot(name: string) returns (offset: int)
      ensures offset == FindLocal(locals, name)
    {
      var i := 0;
      while i < |locals|
        invariant 0 <= i <= |locals| && FindLocal(locals[i..], name) == FindLocal(locals, name)
      {
        if locals[i].name == name {
          return locals[i].offset;
        }
        assert locals[i..][1..] == locals[i + 1..];
        i := i + 1;
      }
      return -1;
    }

    method GenExpr(e: Expr)
      modifies this`code
      ensures code == old(code) + EncodeAll(ExprCode(e, locals))
      decreases e, 2
    {
      hide EncodeAll, BinCode, UnCode;
      match e {
        case Num(n) => EmitAll([MovRaxImm(ToU32(n))]);
        case Var(x) =>
          var offset := FindSlot(x);
          if offset != -1 { EmitAll([LoadRax(ToU32(offset))]); } else { EmitAll([XorRaxRax]); }
        case Unary(op, e1) =>
          GenExpr(e1);
          EmitAll(UnCode(op));
          EncodeAppend(ExprCode(e1, locals), UnCode(op));
        case Binary(op, l, r) => GenBinary(op, l, r);
        case Assign(target, value) => GenAssign(target, value);
      }
    }

    /** The right operand goes over the stack while the left one is computed. */
    method GenBinary(op: BinOp, l: Expr, r: Expr)
      modifies this`code
      ensures code == old(code) + EncodeAll(ExprCode(r,
                                                     locals) + [PushRax] + ExprCode(l, locals) + [PopRcx] + BinCode(op))
      decreases Binary(op, l, r), 1
    {
      hide EncodeAll, ExprCode, BinCode;
      ghost var a, c, e := ExprCode(r, locals), ExprCode(l, locals), BinCode(op);
      GenOperands(op, l, r);
      EmitAll([PopRcx]);
      EmitMore(old(code), a + [PushRax] + c, [PopRcx]);
      EmitAll(BinCode(op));
      EmitMore(old(code), a + [PushRax] + c + [PopRcx], e);
    }

    method GenOperands(ghost op: BinOp, l: Expr, r: Expr)
      modifies this`code
      ensures code == old(code) + EncodeAll(ExprCode(r, locals) + [PushRax] + ExprCode(l, locals))
      decreases Binary(op, l, r), 0
    {
      hide EncodeAll, ExprCode, BinCode;
      ghost var a, c := ExprCode(r, locals), ExprCode(l, locals);
      GenExpr(r);
      EmitAll([PushRax]);
      EmitMore(old(code), a, [PushRax]);
      GenExpr(l);
      EmitMore(old(code), a + [PushRax], c);
    }

    /** A target that is not a known parameter is not evaluated. */
    method GenAssign(target: Expr, value: Expr)
      modifies this`code
      ensures code == old(code) + EncodeAll(ExprCode(value, locals) + StoreCode(locals, target))
      decreases value, 3
    {
      hide EncodeAll, ExprCode;
      EncodeAppend(ExprCode(value, locals), StoreCode(locals, target));
      if target.Var? {
        var offset := FindSlot(target.name);
        if offset != -1 {
          GenExpr(value);
          EmitAll([Store(Rax, ToU32(offset))]);
          return;
        }
      }
      GenExpr(value);
      EncodeEmpty();
    }

    // ---- statements ----

    method GenStmt(s: Stmt)
      requires Valid() && breakDepth + LoopNest(s) <= MAX_LOOPS
      modifies this
      ensures SameContext(old(breakDepth), old(locals), old(stackOffset), old(Outer(breakDepth)))
      ensures code == old(code) + EncodeAll(StmtCode(s, locals, |old(code)|, old(BreakTo()), old(ContinueTo())))
      ensures breakPatches == old(breakPatches) + Open(Brk, old(BreakTo()), s, locals, |old(code)|)
      ensures continuePatches == old(continuePatches) + Open(Cnt, old(ContinueTo()), s, locals, |old(code)|)
      decreases s, 1
    {
      hide EncodeAll, ExprCode, ReturnCode, LoopCode, IfCode, BlockCode;
      match s {
        case Empty => EncodeEmpty();
        case ExprStmt(e) => GenExpr(e);
        case Block(ss) => GenBlock(ss);
        case If(c, t, e) => GenIf(c, t, e);
        case While(c, b) => GenWhile(c, b);
        case For(init, test, step, b) => GenFor(init, test, step, b);
        case Break => GenBreak();
        case Continue => GenContinue();
        case Return(r) => GenReturn(r);
      }
    }

    method GenBreak()
      requires Valid()
      modifies this
      ensures SameContext(old(breakDepth), old(locals), old(stackOffset), old(Outer(breakDepth)))
      ensures continuePatches == old(continuePatches)
      ensures code == old(code) + EncodeAll(JumpCode(|old(code)|, old(BreakTo())))
      ensures breakPatches == old(breakPatches) + (if old(BreakTo()).Hole? then [|old(code)| + 1] else [])
    {
      if breakDepth > 0 {
        EncodeOne(Jmp(0));
        var patch := EmitJmp();
        breakPatches := breakPatches + [patch];
      }
    }

    method GenContinue()
      requires Valid()
      modifies this
      ensures SameContext(old(breakDepth), old(locals), old(stackOffset), old(Outer(breakDepth)))
      ensures breakPatches == old(breakPatches)
      ensures code == old(code) + EncodeAll(JumpCode(|old(code)|, old(ContinueTo())))
      ensures continuePatches == old(continuePatches) + (if old(ContinueTo()).Hole? then [|old(code)| + 1] else [])
    {
      if continueDepth > 0 {
        EncodeOne(Jmp(0));
        var patch := EmitJmp();
        var d := continueDepth - 1;
        if continueKnown[d] {
          PatchLast(old(code), false, continueTarget[d]);
          PatchJmp(patch, continueTarget[d]);
          EncodeOne(Jmp(Rel(patch, continueTarget[d])));
        } else {
          continuePatches := continuePatches + [patch];
        }
      }
      hide EncodeAll;
    }

    method GenReturn(r: Option<Expr>)
      modifies this`code
      ensures code == old(code) + EncodeAll(ReturnCode(r, locals))
    {
      hide EncodeAll, ExprCode;
      if r.Some? {
        GenExpr(r.value);
        EncodeAppend(ExprCode(r.value, locals), EpilogueCode());
      } else {
        EmitAll([XorRaxRax]);
        EncodeAppend([XorRaxRax], EpilogueCode());
      }
      EmitAll(EpilogueCode());
    }

    method GenBlock(ss: seq<Stmt>)
      requires Valid() && breakDepth + BlockNest(ss) <= MAX_LOOPS
      modifies this
      ensures SameContext(old(breakDepth), old(locals), old(stackOffset), old(Outer(breakDepth)))
      ensures code == old(code) + EncodeAll(BlockCode(ss, locals, |old(code)|, old(BreakTo()), old(ContinueTo())))
      ensures breakPatches ==
        old(breakPatches) + (if old(BreakTo()).Hole? then BlockHoles(Brk, ss, locals, |old(code)|) else [])
      ensures continuePatches ==
        old(continuePatches) + (if old(ContinueTo()).Hole? then BlockHoles(Cnt, ss, locals, |old(code)|) else [])
      decreases ss, 0
    {
      hide EncodeAll, StmtCode, StmtSize, Holes, LoopNest, Rest, RestHoles, BlockNest, BlockCode, BlockHoles, Outer;
      RestIs(code, ss, locals, BreakTo(), ContinueTo(), breakPatches, continuePatches);
      var savedLocals, savedOffset := locals, stackOffset;
      ghost var brk, cnt := BreakTo(), ContinueTo();
      ghost var at := |code|;
      ContinueKind();
      assert ss[0..] == ss;
      var i := 0;
      while i < |ss|
        invariant 0 <= i <= |ss| && SameContext(old(breakDepth), old(locals), old(stackOffset), old(Outer(breakDepth)))
        invariant breakDepth + BlockNest(ss[i..]) <= MAX_LOOPS && BreakTo() == brk && ContinueTo() == cnt
        invariant Rest(code, ss[i..], locals, brk, cnt) == Rest(old(code), ss, locals, brk, cnt)
        invariant RestHoles(Brk, brk, breakPatches, ss[i..], locals, |code|) ==
          RestHoles(Brk, brk, old(breakPatches), ss, locals, at)
        invariant RestHoles(Cnt, cnt, continuePatches, ss[i..], locals, |code|) ==
          RestHoles(Cnt, cnt, old(continuePatches), ss, locals, at)
      {
        assert ss[i..][0] == ss[i] && ss[i..][1..] == ss[i + 1..];
        RestStep(code, ss[i..], locals, brk, cnt);
        RestHolesStep(Brk, brk, breakPatches, ss[i..], locals, |code|);
        RestHolesStep(Cnt, cnt, continuePatches, ss[i..], locals, |code|);
        StmtLen(ss[i], locals, |code|, brk, cnt);
        NestStep(ss[i..]);
        GenStmt(ss[i]);
        i := i + 1;
      }
      assert ss[|ss|..] == [];
      RestDone(code, locals, brk, cnt, breakPatches, continuePatches);
      locals, stackOffset := savedLocals, savedOffset;
    }

    method GenIf(c: Expr, t: Stmt, e: Stmt)
      requires Valid() && breakDepth + LoopNest(If(c, t, e)) <= MAX_LOOPS
      modifies this
      ensures SameContext(old(breakDepth), old(locals), old(stackOffset), old(Outer(breakDepth)))
      ensures code == old(code) + EncodeAll(IfCode(c, t, e, locals, |old(code)|, old(BreakTo()), old(ContinueTo())))
      ensures breakPatches == old(breakPatches)
        + Open(Brk, old(BreakTo()), If(c, t, e), locals, |old(code)|)
      ensures continuePatches == old(continuePatches)
        + Open(Cnt, old(ContinueTo()), If(c, t, e), locals, |old(code)|)
      decreases If(c, t, e), 0
    {
      hide EncodeAll, Encode, ExprCode, StmtCode, StmtSize, Patch, Rel, TestCode, Open, LoopNest, IfCode, Outer,
        Innermost;
      ghost var c0, brk, cnt, breaks, continues := code, BreakTo(), ContinueTo(), breakPatches, continuePatches;
      IfNest(c, t, e);
      ContinueKind();
      GenTest(Some(c));
      var patch1 := EmitJe();
      JumpLens();
      ghost var p := |code|;
      GenStmt(t);
      StmtLen(t, locals, p, brk, cnt);
      IfOpen(Brk, c, t, e, locals, |c0|, brk, breaks);
      IfOpen(Cnt, c, t, e, locals, |c0|, cnt, continues);
      IfDone(c, t, e, locals, c0, brk, cnt);
      if e != Empty {
        var patch2 := EmitJmp();
        ghost var q := |code|;
        PatchJmp(patch1, |code|);
        GenStmt(e);
        StmtLen(e, locals, q, brk, cnt);
        PatchJmp(patch2, |code|);
      } else {
        PatchJmp(patch1, |code|);
      }
    }

    method GenTest(test: Option<Expr>)
      modifies this`code
      ensures code == old(code) + EncodeAll(TestCode(test, locals))
    {
      hide EncodeAll, ExprCode;
      match test {
        case Some(c) =>
          GenExpr(c);
          EncodeAppend(ExprCode(c, locals), [TestRaxRax]);
        case None =>
          EmitAll([MovRaxImm(1)]);
          EncodeAppend([MovRaxImm(1)], [TestRaxRax]);
      }
      EmitAll([TestRaxRax]);
    }

    method GenWhile(c: Expr, b: Stmt)
      requires Valid() && breakDepth + 1 + LoopNest(b) <= MAX_LOOPS
      modifies this
      ensures SameContext(old(breakDepth), old(locals), old(stackOffset), old(Outer(breakDepth)))
      ensures code == old(code) + EncodeAll(LoopCode(Some(c), None, b, locals, |old(code)|))
      ensures breakPatches == old(breakPatches) && continuePatches == old(continuePatches)
      decreases b, 2
    {
      hide EncodeAll, Encode, ExprCode, StmtCode, StmtSize, Patch, PatchAll, Rel, TestCode, Holes, LoopNest, LoopCode,
        Outer, InCode, Innermost;
      var start := |code|;
      EnterLoop(true, start);
      GenTest(Some(c));
      var patchExit := EmitJe();
      JumpLens();
      ghost var outer, p := Outer(breakDepth), |code|;
      LoopTop(outer);
      GenStmt(b);
      StmtLen(b, locals, p, Hole, To(start));
      var patchBack := EmitJmp();
      PatchJmp(patchBack, start);

      LoopTop(outer);
      PatchNone(code, start);
      CloseContinues(old(continuePatches), [], start);
      WhileDone(c, b, locals, old(code));
      CloseBreaks(old(breakPatches), Holes(Brk, b, locals, p), patchExit);
      OuterIs(breakDepth);
    }

    method GenFor(init: Stmt, test: Option<Expr>, step: Option<Expr>, b: Stmt)
      requires Valid() && breakDepth + LoopNest(For(init, test, step, b)) <= MAX_LOOPS
      modifies this
      ensures SameContext(old(breakDepth), old(locals), old(stackOffset), old(Outer(breakDepth)))
      ensures code == old(code)
        + EncodeAll(StmtCode(For(init, test, step, b), locals, |old(code)|, old(BreakTo()), old(ContinueTo())))
      ensures breakPatches == old(breakPatches) + Open(Brk, old(BreakTo()), init, locals, |old(code)|)
      ensures continuePatches == old(continuePatches) + Open(Cnt, old(ContinueTo()), init, locals, |old(code)|)
      decreases For(init, test, step, b), 0
    {
      hide EncodeAll, ExprCode, StmtSize, LoopNest, LoopCode, Outer, Innermost, Open;
      ForNest(init, test, step, b);
      ContinueKind();
      ForCode(init, test, step, b, locals, |code|, BreakTo(), ContinueTo());
      GenStmt(init);
      hide StmtCode;
      GenForLoop(test, step, b);
    }

    /** The loop of a `for`, after its initialiser. */
    method GenForLoop(test: Option<Expr>, step: Option<Expr>, b: Stmt)
      requires Valid() && breakDepth + 1 + LoopNest(b) <= MAX_LOOPS
      modifies this
      ensures SameContext(old(breakDepth), old(locals), old(stackOffset), old(Outer(breakDepth)))
      ensures code == old(code) + EncodeAll(LoopCode(test, step, b, locals, |old(code)|))
      ensures breakPatches == old(breakPatches) && continuePatches == old(continuePatches)
      decreases b, 2
    {
      hide EncodeAll, Encode, ExprCode, StmtCode, StmtSize, StepCode, TestCode, Holes, LoopNest, LoopCode, Outer,
        Innermost, ForClosed;
      EnterLoop(false, 0);
      var condAddr := |code|;
      GenTest(test);
      var patchExit := EmitJe();
      JumpLens();
      ghost var outer, p := Outer(breakDepth), |code|;
      LoopTop(outer);
      GenStmt(b);
      StmtLen(b, locals, p, Hole, Hole);
      ForDone(test, step, b, locals, old(code));
      LoopTop(outer);
      CloseFor(step, condAddr, patchExit, old(continuePatches), Holes(Cnt, b, locals, p), old(breakPatches),
               Holes(Brk, b, locals, p),
               old(code) + EncodeAll(LoopCode(test, step, b, locals, |old(code)|)));
      OuterIs(breakDepth);
    }

    /** What follows the body of a `for`: continues, step, back jump, breaks and exit. */
    method CloseFor(step: Option<Expr>, condAddr: nat, patchExit: nat, ghost cntBase: seq<nat>,
                    ghost cntHoles: seq<nat>,
                    ghost brkBase: seq<nat>, ghost brkHoles: seq<nat>, ghost done: seq<byte>)
      requires 0 < continueDepth <= |continueBegin| && continueBegin[continueDepth - 1] == |cntBase|
      requires 0 < breakDepth <= |breakBegin| && breakBegin[breakDepth - 1] == |brkBase|
      requires continuePatches == cntBase + cntHoles && breakPatches == brkBase + brkHoles && patchExit >= 2
      requires ForClosed(patchExit - 2, code, cntHoles, if step.Some? then |code|
                         else condAddr, EncodeAll(StepCode(step, locals)),
                         Encode(Jmp(0)), brkHoles, condAddr, done)
      modifies this`code, this`continuePatches, this`continueDepth, this`breakPatches, this`breakDepth
      ensures code == done && continuePatches == cntBase && breakPatches == brkBase
      ensures continueDepth == old(continueDepth) - 1 && breakDepth == old(breakDepth) - 1
    {
      hide EncodeAll, Encode, Patch, PatchAll, InCode, StepCode;
      CloseContinues(cntBase, cntHoles, if step.Some? then |code| else condAddr);
      GenStepBack(step, condAddr);
      CloseBreaks(brkBase, brkHoles, patchExit);
    }

    /** The step expression and the jump back to the test. */
    method GenStepBack(step: Option<Expr>, condAddr: nat)
      modifies this`code
      ensures var c := old(code) + EncodeAll(StepCode(step, locals)) + Encode(Jmp(0));
        |c| >= 5 && code == Patch(c, |c| - 4, condAddr)
    {
      hide EncodeAll, ExprCode, Patch;
      EncodeEmpty();
      JumpLens();
      assert code + [] == code;
      if step.Some? { GenExpr(step.value); }
      var patchBack := EmitJmp();
      PatchJmp(patchBack, condAddr);
    }

    /** Ends the innermost loop's `continue` records: what it left open goes to `to`. */
    method CloseContinues(ghost base: seq<nat>, ghost holes: seq<nat>, to: nat)
      requires 0 < continueDepth <= |continueBegin| && continueBegin[continueDepth - 1] == |base|
      requires continuePatches == base + holes && InCode(holes, |code|)
      modifies this`code, this`continuePatches, this`continueDepth
      ensures code == PatchAll(old(code), holes, to)
      ensures continuePatches == base && continueDepth == old(continueDepth) - 1
    {
      assert continuePatches[|base|..] == holes && continuePatches[..|base|] == base;
      PatchContinues(continueDepth - 1, to);
      continueDepth := continueDepth - 1;
    }

    /** Ends the innermost loop: its breaks and its exit jump go to the end of the code. */
    method CloseBreaks(ghost base: seq<nat>, ghost holes: seq<nat>, patchExit: nat)
      requires 0 < breakDepth <= |breakBegin| && breakBegin[breakDepth - 1] == |base|
      requires breakPatches == base + holes && InCode(holes, |code|) && patchExit + 4 <= |code|
      modifies this`code, this`breakPatches, this`breakDepth
      ensures code == Patch(PatchAll(old(code), holes, |old(code)|), patchExit, |old(code)|)
      ensures breakPatches == base && breakDepth == old(breakDepth) - 1
    {
      assert breakPatches[|base|..] == holes && breakPatches[..|base|] == base;
      PatchBreaks(breakDepth - 1, |code|);
      breakDepth := breakDepth - 1;
      PatchJmp(patchExit, |code|);
    }

    // ---- functions ----

    method AddLocal(name: string)
      modifies this`locals, this`stackOffset
      ensures stackOffset == old(stackOffset) - 8 && locals == old(locals) + [Local(name, stackOffset)]
    {
      stackOffset := stackOffset - 8;
      locals := locals + [Local(name, stackOffset)];
    }

    method AddParams(params: seq<string>)
      modifies this`locals, this`stackOffset
      ensures locals == ParamLocals(params) && stackOffset == -8 * |params|
    {
      locals, stackOffset := [], 0;
      var i := |params|;
      while i > 0
        invariant 0 <= i <= |params| && stackOffset == -8 * (|params| - i)
        invariant locals == ParamLocals(params)[..|params| - i]
      {
        i := i - 1;
        AddLocal(params[i]);
      }
    }

    method SaveParams(params: seq<string>)
      requires locals == ParamLocals(params)
      modifies this`code
      ensures code == old(code) + EncodeAll(SaveArgs(params, locals, Min(|params|, 6)))
    {
      hide EncodeAll, ParamLocals;
      EncodeEmpty();
      var i := 0;
      while i < |params| && i < 6
        invariant 0 <= i <= |params| && i <= 6
        invariant code == old(code) + EncodeAll(SaveArgs(params, locals, i))
      {
        var offset := FindSlot(params[i]);
        ghost var before, save := code, Store(ArgReg(i), ToU32(offset));
        var opcode: seq<byte>;
        if i == 0 {
          opcode := [0x48, 0x89, 0xBD];
        } else if i == 1 {
          opcode := [0x48, 0x89, 0xB5];
        } else if i == 2 {
          opcode := [0x48, 0x89, 0x95];
        } else if i == 3 {
          opcode := [0x48, 0x89, 0x8D];
        } else if i == 4 {
          opcode := [0x4C, 0x89, 0x85];
        } else {
          opcode := [0x4C, 0x89, 0x8D];
        }
        EmitByte(opcode[0]);
        EmitByte(opcode[1]);
        EmitByte(opcode[2]);
        code := code + LE32(ToU32(offset));
        StoreBytes(before, opcode, ArgReg(i), ToU32(offset));
        EncodeAppend(SaveArgs(params, locals, i), [save]);
        i := i + 1;
      }
    }

    method GenPrologue(params: seq<string>)
      modifies this`code, this`locals, this`stackOffset
      ensures locals == ParamLocals(params)
      ensures code == old(code) + EncodeAll(PrologueCode(params))
    {
      hide EncodeAll, ParamLocals, SaveArgs;
      AddParams(params);
      EmitAll([PushRbp, MovRbpRsp]);
      SaveParams(params);
      var save := SaveArgs(params, locals, Min(|params|, 6));
      EncodeAppend([PushRbp, MovRbpRsp], save);
      EncodeAppend([PushRbp, MovRbpRsp] + save, [SubRsp(ToU32(8 * |params|))]);
      if stackOffset < 0 {
        EmitAll([SubRsp(ToU32(0 - stackOffset))]);
      } else {
        assert [PushRbp, MovRbpRsp] + save + [] == [PushRbp, MovRbpRsp] + save;
      }
    }

    /** Compiles one function; outside any loop both patch stacks stay as they were. */
    method GenFunc(f: Func)
      requires Valid() && breakDepth == 0 && BlockNest(f.body) <= MAX_LOOPS
      modifies this
      ensures Valid() && breakDepth == 0
      ensures breakPatches == old(breakPatches) && continuePatches == old(continuePatches)
      ensures code == old(code) + EncodeAll(FuncCode(f, |old(code)|))
    {
      hide EncodeAll, ParamLocals, PrologueCode, BlockCode, BlockHoles, Innermost;
      var c0 := code;
      GenPrologue(f.params);
      ghost var p := |code|;
      GenBlock(f.body);
      EmitAll([XorRaxRax]);
      EmitAll(EpilogueCode());
      ghost var prologue, body := PrologueCode(f.params), BlockCode(f.body, locals, p, NoLoop, NoLoop);
      EncodeAppend(prologue, body);
      EncodeAppend(prologue + body, [XorRaxRax]);
      EncodeAppend(prologue + body + [XorRaxRax], EpilogueCode());
    }

    /** Opens the records of a new innermost loop. */
    method EnterLoop(known: bool, target: nat)
      requires Valid() && breakDepth < MAX_LOOPS
      modifies this
      ensures Valid() && breakDepth == old(breakDepth) + 1
      ensures code == old(code) && breakPatches == old(breakPatches) && continuePatches == old(continuePatches)
      ensures locals == old(locals) && stackOffset == old(stackOffset)
      ensures Outer(old(breakDepth)) == old(Outer(breakDepth))
      ensures breakBegin[old(breakDepth)] == |breakPatches| && continueBegin[old(breakDepth)] == |continuePatches|
      ensures ContinueTo() == if known then To(target) else Hole
    {
      breakBegin := breakBegin[breakDepth := |breakPatches|];
      breakDepth := breakDepth + 1;
      continueBegin := continueBegin[continueDepth := |continuePatches|];
      continueKnown := continueKnown[continueDepth := known];
      continueTarget := continueTarget[continueDepth := target];
      continueDepth := continueDepth + 1;
    }

    lemma OuterIs(d: nat)
      requires Valid() && d <= MAX_LOOPS
      ensures Outer(d) == Bookkeeping(breakBegin[..d], continueBegin[..d], continueKnown[..d], continueTarget[..d])
    {
    }

    lemma ContinueKind()
      requires Valid()
      ensures ContinueTo().NoLoop? <==> BreakTo().NoLoop?
    {
    }

    /** Records kept up to the current loop are kept for the enclosing ones and for itself. */
    lemma LoopTop(outer: Bookkeeping)
      requires Valid() && breakDepth > 0 && Outer(breakDepth) == outer
      ensures var d := breakDepth - 1;
        && |outer.breakBegin| == |outer.continueBegin| == |outer.continueKnown| == |outer.continueTarget| == d + 1
        && breakBegin[d] == outer.breakBegin[d] && continueBegin[d] == outer.continueBegin[d]
        && breakBegin[..d] == outer.breakBegin[..d] && continueBegin[..d] == outer.continueBegin[..d]
        && continueKnown[..d] == outer.continueKnown[..d] && continueTarget[..d] == outer.continueTarget[..d]
        && Outer(d) == Bookkeeping(outer.breakBegin[..d], outer.continueBegin[..d],
                                   outer.continueKnown[..d], outer.continueTarget[..d])
    {
    }
  }

  // ---- facts about the pieces ----

  /** The jumps of one kind that `s` leaves open, when its loop leaves them open. */
  ghost function Open(k: Kind, t: Target, s: Stmt, locals: seq<Local>, at: nat): seq<nat> {
    if t.Hole? then Holes(k, s, locals, at) else []
  }

  ghost function Rest(code: seq<byte>, ss: seq<Stmt>, locals: seq<Local>, brk: Target, cnt: Target): seq<byte> {
    code + EncodeAll(BlockCode(ss, locals, |code|, brk, cnt))
  }

  ghost function RestHoles(k: Kind, t: Target, patches: seq<nat>, ss: seq<Stmt>, locals: seq<Local>,
                           at: nat): seq<nat> {
    patches + (if t.Hole? then BlockHoles(k, ss, locals, at) else [])
  }

  lemma RestIs(code: seq<byte>, ss: seq<Stmt>, locals: seq<Local>, brk: Target, cnt: Target, bs: seq<nat>, cs: seq<nat>)
    ensures Rest(code, ss, locals, brk, cnt) == code + EncodeAll(BlockCode(ss, locals, |code|, brk, cnt))
    ensures RestHoles(Brk, brk, bs, ss, locals, |code|) == bs + (if brk.Hole? then BlockHoles(Brk, ss, locals, |code|)
                                                                 else [])
    ensures RestHoles(Cnt, cnt, cs, ss, locals, |code|) == cs + (if cnt.Hole? then BlockHoles(Cnt, ss, locals, |code|)
                                                                 else [])
  {
  }

  lemma RestDone(code: seq<byte>, locals: seq<Local>, brk: Target, cnt: Target, bs: seq<nat>, cs: seq<nat>)
    ensures Rest(code, [], locals, brk, cnt) == code
    ensures RestHoles(Brk, brk, bs, [], locals, |code|) == bs
    ensures RestHoles(Cnt, cnt, cs, [], locals, |code|) == cs
  {
  }

  lemma RestStep(code: seq<byte>, ss: seq<Stmt>, locals: seq<Local>, brk: Target, cnt: Target)
    requires ss != [] && brk.NoLoop? == cnt.NoLoop?
    ensures Rest(code + EncodeAll(StmtCode(ss[0], locals, |code|, brk, cnt)), ss[1..], locals, brk, cnt)
         == Rest(code, ss, locals, brk, cnt)
  {
    hide EncodeAll, StmtCode, StmtSize;
    var p := |code| + StmtSize(ss[0], locals, !brk.NoLoop?);
    StmtLen(ss[0], locals, |code|, brk, cnt);
    EncodeAppend(StmtCode(ss[0], locals, |code|, brk, cnt), BlockCode(ss[1..], locals, p, brk, cnt));
  }

  lemma RestHolesStep(k: Kind, t: Target, patches: seq<nat>, ss: seq<Stmt>, locals: seq<Local>, at: nat)
    requires ss != []
    ensures !t.NoLoop? ==>
      RestHoles(k, t, patches + Open(k, t, ss[0], locals, at), ss[1..], locals,
                at + StmtSize(ss[0], locals, true))
      == RestHoles(k, t, patches, ss, locals, at)
    ensures t.NoLoop? ==> forall ps, at' :: RestHoles(k, t, ps, ss[1..], locals, at') == ps
    ensures t.NoLoop? ==> RestHoles(k, t, patches, ss, locals, at) == patches == patches + Open(k, t, ss[0], locals, at)
  {
    hide Holes, StmtSize;
  }

  lemma NestStep(ss: seq<Stmt>)
    requires ss != []
    ensures LoopNest(ss[0]) <= BlockNest(ss) && BlockNest(ss[1..]) <= BlockNest(ss)
  {
  }

  lemma IfNest(c: Expr, t: Stmt, e: Stmt)
    ensures LoopNest(t) <= LoopNest(If(c, t, e)) && LoopNest(e) <= LoopNest(If(c, t, e))
  {
  }

  lemma JumpLens()
    ensures forall rel :: |Encode(Jmp(rel))| == 5 && |Encode(Je(rel))| == 6
  {
  }

  lemma IfOpen(k: Kind, c: Expr, t: Stmt, e: Stmt, locals: seq<Local>, at: nat, tg: Target, ps: seq<nat>)
    ensures var p := at + |EncodeAll(TestCode(Some(c), locals))| + 6;
      var q := p + StmtSize(t, locals, !tg.NoLoop?) + 5;
      && ps + Open(k, tg, If(c, t, e), locals, at) == ps + Open(k, tg, t, locals, p) + Open(k, tg, e, locals, q)
      && (e.Empty? ==> ps + Open(k, tg, If(c, t, e), locals, at) == ps + Open(k, tg, t, locals, p))
  {
    hide EncodeAll, TestCode, StmtSize;
  }

  lemma IfPatched(pre: seq<byte>, thn: seq<byte>, els: seq<byte>, q: nat, to: nat)
    ensures var c1 := pre + Encode(Je(0)) + thn + Encode(Jmp(0));
      var p := |pre| + 6 + |thn| + 1;
      && |pre| + 2 + 4 <= |c1|
      && p + 4 <= |Patch(c1, |pre| + 2, q) + els|
      && Patch(Patch(c1, |pre| + 2, q) + els, p, to)
         == pre + Encode(Je(Rel(|pre| + 2, q))) + thn + Encode(Jmp(Rel(p, to))) + els
  {
    hide Encode, Patch, Rel;
    PatchJump(pre, thn + Encode(Jmp(0)), true, q);
    JumpLens();
    var je := Encode(Je(Rel(|pre| + 2, q)));
    PatchJump(pre + je + thn, els, false, to);
    assert pre + Encode(Je(0)) + thn + Encode(Jmp(0)) == pre + Encode(Je(0)) + (thn + Encode(Jmp(0)));
    assert pre + je + (thn + Encode(Jmp(0))) + els == pre + je + thn + Encode(Jmp(0)) + els;
  }

  /** An `if` with its one or two jumps patched is the assembled `if`. */
  lemma IfDone(c: Expr, t: Stmt, e: Stmt, locals: seq<Local>, c0: seq<byte>, brk: Target, cnt: Target)
    requires brk.NoLoop? == cnt.NoLoop?
    ensures var pre := c0 + EncodeAll(TestCode(Some(c), locals));
      var p := |pre| + 6;
      var c1 := pre + Encode(Je(0)) + EncodeAll(StmtCode(t, locals, p, brk, cnt));
      var q := |c1 + Encode(Jmp(0))|;
      var whole := c0 + EncodeAll(IfCode(c, t, e, locals, |c0|, brk, cnt));
      && |pre| + 2 + 4 <= |c1|
      && (e.Empty? ==> Patch(c1, |pre| + 2, |c1|) == whole)
      && (!e.Empty? ==>
            && var c2 := Patch(c1 + Encode(Jmp(0)), |pre| + 2, q) + EncodeAll(StmtCode(e, locals, q, brk, cnt));
            && |c1| + 1 + 4 <= |c2|
            && Patch(c2, |c1| + 1, |c2|) == whole)
  {
    hide EncodeAll, Encode, TestCode, StmtSize, Rel, StmtCode, Patch;
    var pre := c0 + EncodeAll(TestCode(Some(c), locals));
    var thn := EncodeAll(StmtCode(t, locals, |pre| + 6, brk, cnt));
    JumpLens();
    StmtLen(t, locals, |pre| + 6, brk, cnt);
    IfAssembled(c, t, e, locals, c0, brk, cnt);
    if e.Empty? {
      PatchJump(pre, thn, true, |pre| + 6 + |thn|);
    } else {
      var q := |pre| + 6 + |thn| + 5;
      StmtLen(e, locals, q, brk, cnt);
      var els := EncodeAll(StmtCode(e, locals, q, brk, cnt));
      IfPatched(pre, thn, els, q, q + |els|);
    }
  }

  /** The three patches that close a `while`. */
  lemma WhilePatched(head: seq<byte>, b: Stmt, locals: seq<Local>, start: nat)
    ensures var pre := head + Encode(Je(0));
      var body := Bytes(Brk, b, locals, |pre|, Hole, To(start));
      var back := |pre + body| + 1;
      var exit := |pre + body| + 5;
      var body' := Bytes(Brk, b, locals, |pre|, To(exit), To(start));
      var c1 := pre + body + Encode(Jmp(0));
      && back + 4 <= |c1| == exit
      && var c2 := Patch(c1, back, start);
      && InCode(Holes(Brk, b, locals, |pre|), |c2|)
      && var c3 := PatchAll(c2, Holes(Brk, b, locals, |pre|), exit);
      && |head| + 2 + 4 <= |c3|
      && Patch(c3, |head| + 2, exit) == head + Encode(Je(Rel(|head| + 2, exit))) + body' + Encode(Jmp(Rel(back, start)))
  {
    hide Encode, Patch, PatchAll, Rel, Bytes, InCode, Holes;
    var pre := head + Encode(Je(0));
    var body := Bytes(Brk, b, locals, |pre|, Hole, To(start));
    var exit := |pre + body| + 5;
    var body' := Bytes(Brk, b, locals, |pre|, To(exit), To(start));
    var jmp := Encode(Jmp(Rel(|pre + body| + 1, start)));
    JumpLens();
    PatchLast(pre + body, false, start);
    Fill(Brk, b, locals, |pre|, To(start), exit, pre, jmp);
    PatchExit(head, pre, body', jmp, pre + body' + jmp, exit);
    var je := Encode(Je(Rel(|head| + 2, exit)));
    assert head + je + (body' + jmp) == head + je + body' + jmp;
  }

  /** Patching the back jump, the breaks and the exit of a `while` turns `c1` into `done`. */
  ghost predicate WhileClosed(exit: nat, c1: seq<byte>, breaks: seq<nat>, start: nat, done: seq<byte>) {
    && |c1| >= 5
    && var c2 := Patch(c1, |c1| - 4, start);
    && InCode(breaks, |c2|)
    && var c3 := PatchAll(c2, breaks, |c2|);
    && exit + 2 + 4 <= |c3|
    && Patch(c3, exit + 2, |c3|) == done
  }

  lemma WhileDone(c: Expr, b: Stmt, locals: seq<Local>, c0: seq<byte>)
    ensures var head := c0 + EncodeAll(TestCode(Some(c), locals));
      var pre := head + Encode(Je(0));
      WhileClosed(|head|, pre + EncodeAll(StmtCode(b, locals, |pre|, Hole, To(|c0|))) + Encode(Jmp(0)),
                  Holes(Brk, b, locals, |pre|), |c0|,
                  c0 + EncodeAll(LoopCode(Some(c), None, b, locals, |c0|)))
  {
    hide Encode, EncodeAll, Patch, PatchAll, Rel, InCode, Holes, StmtCode, StmtSize, TestCode, LoopCode;
    var head := c0 + EncodeAll(TestCode(Some(c), locals));
    JumpLens();
    var p := |head| + 6;
    WhilePatched(head, b, locals, |c0|);
    StmtLen(b, locals, p, Hole, To(|c0|));
    EncodeEmpty();
    LoopAssembled(Some(c), None, b, locals, c0);
    var m := MapLoop(Some(c), None, b, locals, |c0|);
    var body := EncodeAll(StmtCode(b, locals, m.body, To(m.exit), To(m.next)));
    assert head + Encode(Je(Rel(m.je + 2, m.exit))) + body + [] == head + Encode(Je(Rel(m.je + 2, m.exit))) + body;
  }

  lemma ForNest(init: Stmt, test: Option<Expr>, step: Option<Expr>, b: Stmt)
    ensures LoopNest(init) <= LoopNest(For(init, test, step, b))
    ensures 1 + LoopNest(b) <= LoopNest(For(init, test, step, b))
  {
  }

  lemma ForCode(init: Stmt, test: Option<Expr>, step: Option<Expr>, b: Stmt, locals: seq<Local>, at: nat, brk: Target,
                cnt: Target)
    requires brk.NoLoop? == cnt.NoLoop?
    ensures EncodeAll(StmtCode(For(init, test, step, b), locals, at, brk, cnt))
         == EncodeAll(StmtCode(init, locals, at, brk, cnt))
            + EncodeAll(LoopCode(test, step, b, locals, at + |EncodeAll(StmtCode(init, locals, at, brk, cnt))|))
  {
    hide EncodeAll, LoopCode, StmtSize;
    StmtLen(init, locals, at, brk, cnt);
    EncodeAppend(StmtCode(init, locals, at, brk, cnt),
                 LoopCode(test, step, b, locals, at + StmtSize(init, locals, !brk.NoLoop?)));
  }

  /** Patching the continues, adding the step and the back jump, and patching the breaks and the exit
      of a `for` turns `c1` into `done`. */
  ghost predicate ForClosed(exit: nat, c1: seq<byte>, continues: seq<nat>, next: nat, step: seq<byte>, jmp: seq<byte>,
                            breaks: seq<nat>, start: nat, done: seq<byte>)
  {
    && InCode(continues, |c1|)
    && var c3 := PatchAll(c1, continues, next) + step + jmp;
    && |c3| >= 5
    && var c4 := Patch(c3, |c3| - 4, start);
    && InCode(breaks, |c4|)
    && var c5 := PatchAll(c4, breaks, |c4|);
    && exit + 2 + 4 <= |c5|
    && Patch(c5, exit + 2, |c5|) == done
  }

  /** A `for` whose continues, back jump, breaks and exit are patched, in that order, is the
      assembled loop. */
  lemma ForDone(test: Option<Expr>, step: Option<Expr>, b: Stmt, locals: seq<Local>, c0: seq<byte>)
    ensures var head := c0 + EncodeAll(TestCode(test, locals));
      var pre := head + Encode(Je(0));
      var c1 := pre + EncodeAll(StmtCode(b, locals, |pre|, Hole, Hole));
      ForClosed(|head|, c1, Holes(Cnt, b, locals, |pre|), if step.Some? then |c1|
                else |c0|, EncodeAll(StepCode(step, locals)),
                Encode(Jmp(0)), Holes(Brk, b, locals, |pre|), |c0|, c0 + EncodeAll(LoopCode(test, step, b, locals, |c0|)))
  {
    hide Encode, EncodeAll, Patch, PatchAll, Rel, InCode, Holes, StmtCode, StmtSize, TestCode, LoopCode, StepCode;
    var head := c0 + EncodeAll(TestCode(test, locals));
    var pre, sc := head + Encode(Je(0)), EncodeAll(StepCode(step, locals));
    JumpLens();
    var open := EncodeAll(StmtCode(b, locals, |pre|, Hole, Hole));
    StmtLen(b, locals, |pre|, Hole, Hole);
    var next := if step.Some? then |pre + open| else |c0|;
    var body := EncodeAll(StmtCode(b, locals, |pre|, Hole, To(next)));
    StmtLen(b, locals, |pre|, Hole, To(next));
    Fill(Cnt, b, locals, |pre|, Hole, next, pre, []);
    assert pre + open + [] == pre + open && pre + body + [] == pre + body;
    PatchLast(pre + body + sc, false, |c0|);
    var jmp := Encode(Jmp(Rel(|pre + body + sc| + 1, |c0|)));
    var exit := |pre + body + sc| + 5;
    var done := EncodeAll(StmtCode(b, locals, |pre|, To(exit), To(next)));
    Fill(Brk, b, locals, |pre|, To(next), exit, pre, sc + jmp);
    assert pre + body + (sc + jmp) == pre + body + sc + jmp;
    PatchExit(head, pre, done, sc + jmp, pre + done + (sc + jmp), exit);
    LoopAssembled(test, step, b, locals, c0);
    var je := Encode(Je(Rel(|head| + 2, exit)));
    assert head + je + (done + (sc + jmp)) == head + je + done + sc + jmp;
  }

  /** Filling in the exit jump of a loop. */
  lemma PatchExit(head: seq<byte>, pre: seq<byte>, body: seq<byte>, tail: seq<byte>, code: seq<byte>, to: nat)
    requires pre == head + Encode(Je(0)) && code == pre + body + tail
    ensures |head| + 2 + 4 <= |code|
    ensures Patch(code, |head| + 2, to) == head + Encode(Je(Rel(|head| + 2, to))) + (body + tail)
  {
    PatchJump(head, body + tail, true, to);
    hide Patch, Rel;
    assert code == head + Encode(Je(0)) + (body + tail);
  }

  lemma IfAssembled(c: Expr, t: Stmt, e: Stmt, locals: seq<Local>, c0: seq<byte>, brk: Target, cnt: Target)
    requires brk.NoLoop? == cnt.NoLoop?
    ensures var test := EncodeAll(TestCode(Some(c), locals));
      var p := |c0| + |test|;
      var q := p + 6 + StmtSize(t, locals, !brk.NoLoop?);
      var thn := EncodeAll(StmtCode(t, locals, p + 6, brk, cnt));
      c0 + EncodeAll(IfCode(c, t, e, locals, |c0|, brk, cnt)) ==
        if e.Empty? then c0 + test + Encode(Je(Rel(p + 2, q))) + thn
        else c0 + test + Encode(Je(Rel(p + 2, q + 5))) + thn
             + Encode(Jmp(Rel(q + 1, q + 5 + StmtSize(e, locals, !brk.NoLoop?))))
             + EncodeAll(StmtCode(e, locals, q + 5, brk, cnt))
  {
    hide EncodeAll, Encode, TestCode, StmtSize, Rel, StmtCode;
    var test := TestCode(Some(c), locals);
    var p := |c0| + ByteLen(test);
    var q := p + 6 + StmtSize(t, locals, !brk.NoLoop?);
    var je := Je(Rel(p + 2, if e.Empty? then q else q + 5));
    var jmp := Jmp(Rel(q + 1, q + 5 + StmtSize(e, locals, !brk.NoLoop?)));
    EncodeOne(je);
    EncodeOne(jmp);
    var thn, els := StmtCode(t, locals, p + 6, brk, cnt), StmtCode(e, locals, q + 5, brk, cnt);
    EncodeAppend(test, [je]);
    EncodeAppend(test + [je], thn);
    EncodeFive(test, [je], thn, [jmp], els);
  }

  lemma LoopAssembled(test: Option<Expr>, step: Option<Expr>, b: Stmt, locals: seq<Local>, c0: seq<byte>)
    ensures var m := MapLoop(test, step, b, locals, |c0|);
      c0 + EncodeAll(LoopCode(test, step, b, locals, |c0|)) ==
        c0 + EncodeAll(TestCode(test, locals)) + Encode(Je(Rel(m.je + 2, m.exit)))
        + EncodeAll(StmtCode(b, locals, m.body, To(m.exit), To(m.next)))
        + EncodeAll(StepCode(step, locals)) + Encode(Jmp(Rel(m.jmp + 1, |c0|)))
  {
    hide EncodeAll, Encode, TestCode, StepCode, StmtCode, StmtSize, Rel, MapLoop;
    var m := MapLoop(test, step, b, locals, |c0|);
    EncodeOne(Je(Rel(m.je + 2, m.exit)));
    EncodeOne(Jmp(Rel(m.jmp + 1, |c0|)));
    EncodeFive(TestCode(test, locals), [Je(Rel(m.je + 2, m.exit))],
               StmtCode(b, locals, m.body, To(m.exit), To(m.next)),
               StepCode(step, locals), [Jmp(Rel(m.jmp + 1, |c0|))]);
  }

  lemma EmitMore(c0: seq<byte>, a: seq<Instr>, b: seq<Instr>)
    ensures c0 + EncodeAll(a) + EncodeAll(b) == c0 + EncodeAll(a + b)
  {
    hide EncodeAll;
    EncodeAppend(a, b);
  }

  lemma EmitNone(c0: seq<byte>, prog: seq<Instr>)
    ensures c0 + EncodeAll(prog[..0]) == c0
  {
    EncodeEmpty();
    assert prog[..0] == [];
  }

  lemma EmitStep(c0: seq<byte>, prog: seq<Instr>, k: nat)
    requires k < |prog|
    ensures c0 + EncodeAll(prog[..k]) + Encode(prog[k]) == c0 + EncodeAll(prog[..k + 1])
  {
    hide Encode, EncodeAll;
    assert prog[..k + 1] == prog[..k] + [prog[k]];
    EncodeAppend(prog[..k], [prog[k]]);
    EncodeOne(prog[k]);
  }

  lemma EncodeFive(a: seq<Instr>, b: seq<Instr>, c: seq<Instr>, d: seq<Instr>, e: seq<Instr>)
    ensures EncodeAll(a + b + c + d + e) == EncodeAll(a) + EncodeAll(b) + EncodeAll(c) + EncodeAll(d) + EncodeAll(e)
  {
    hide EncodeAll;
    EncodeAppend(a, b);
    EncodeAppend(a + b, c);
    EncodeAppend(a + b + c, d);
    EncodeAppend(a + b + c + d, e);
  }

  /** Patching a jump that was just emitted. */
  lemma PatchLast(pre: seq<byte>, je: bool, to: nat)
    ensures var op := if je then Je(0) else Jmp(0);
      var at := |pre| + (if je then 2 else 1);
      && at + 4 <= |pre + Encode(op)|
      && Patch(pre + Encode(op), at, to) == pre + Encode(if je then Je(Rel(at, to)) else Jmp(Rel(at, to)))
  {
    PatchJump(pre, [], je, to);
    hide Patch, Rel;
    var op := if je then Je(0) else Jmp(0);
    assert pre + Encode(op) + [] == pre + Encode(op);
  }

  /** What the generator promises for one function, end to end: the bytes it appends, run as
      machine code from their first byte, behave as the source function does. */
  lemma GeneratedCodeRuns(f: Func, args: seq<i64>, before: seq<byte>, after: seq<byte>, st: State, fuel: nat)
      returns (n: nat)
    requires CallReady(f, args, st) && st.rip == |before|
    requires |before + EncodeAll(FuncCode(f, |before|)) + after| < LIMIT
    ensures var code := before + EncodeAll(FuncCode(f, |before|)) + after;
      && GoodLocals(ParamLocals(f.params))
      && CallDone(Run(code, st, n), Call(f, args, fuel), f, st, ByteLen(FuncCode(f, |before|)))
      && (Call(f, args, fuel).Timeout? ==> n >= fuel)
  {
    hide EncodeAll, FuncCode, Run, Call;
    var bs := EncodeAll(FuncCode(f, |before|));
    var code := before + bs + after;
    assert code[|before|..|before| + |bs|] == bs;
    n := FuncCorrect(f, args, code, st, fuel);
  }

  /** For functions whose tests and values keep to C's meaning, the generated code computes what the function
      computes in C. */
  lemma GeneratedCodeIsC(f: Func, args: seq<i64>, before: seq<byte>, after: seq<byte>, st: State, fuel: nat)
      returns (n: nat)
    requires CallReady(f, args, st) && st.rip == |before|
    requires |before + EncodeAll(FuncCode(f, |before|)) + after| < LIMIT
    requires forall i :: 0 <= i < |f.body| ==> CMeaning.CLike(f.body[i])
    ensures var code := before + EncodeAll(FuncCode(f, |before|)) + after;
      && GoodLocals(ParamLocals(f.params))
      && CallDone(Run(code, st, n), CMeaning.CCall(f, args, fuel), f, st, ByteLen(FuncCode(f, |before|)))
      && (CMeaning.CCall(f, args, fuel).Timeout? ==> n >= fuel)
  {
    hide EncodeAll, FuncCode, Run, Call, CMeaning.CCall, CMeaning.CLike;
    CMeaning.CCallAgrees(f, args, fuel);
    n := GeneratedCodeRuns(f, args, before, after, st, fuel);
  }
}
