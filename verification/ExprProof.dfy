/** Expression code computes the source value, keeps the stack balanced and writes nothing at or
    above the entry rsp except the slots of assigned parameters. */
module ExprProof {
  import opened Words
  import opened Wrappers
  import opened X86
  import opened MiniC
  import opened Assembly

  // ---- straight-line code ----

  predicate Straight(i: Instr) { !i.Jmp? && !i.Je? && !i.Ret? }

  function Next(i: Instr, st: State): Outcome {
    match Effect(i, st)
    case Running(s) => Running(s.(rip := st.rip + Len(i)))
    case other => other
  }

  function RunSeq(code: seq<Instr>, st: State): Outcome
    decreases |code|
  {
    if code == [] then Running(st) else
    match Next(code[0], st)
    case Running(s) => RunSeq(code[1..], s)
    case other => other
  }

  function Then(o: Outcome, code: seq<Instr>): Outcome {
    match o case Running(s) => RunSeq(code, s) case other => other
  }

  lemma {:induction false} RunSeqAppend(a: seq<Instr>, b: seq<Instr>, st: State)
    ensures RunSeq(a + b, st) == Then(RunSeq(a, st), b)
    decreases |a|
  {
    hide Next;
    if a == [] {
      assert a + b == b;
    } else {
      assert (a + b)[1..] == a[1..] + b;
      if Next(a[0], st).Running? { RunSeqAppend(a[1..], b, Next(a[0], st).st); }
    }
  }

  lemma RunOne(i: Instr, st: State)
    ensures RunSeq([i], st) == Next(i, st)
  {
    hide Next;
  }

  lemma RunNone(st: State)
    ensures RunSeq([], st) == Running(st)
  {
  }

  lemma LenOf(i: Instr)
    ensures ByteLen([i]) == Len(i)
  {
    EncodeOne(i);
  }

  lemma SmallWord(x: int)
    requires 0 <= x < TWO_64
    ensures ToU64(x) == x
  {
  }

  lemma RunCons(i: Instr, rest: seq<Instr>, st: State)
    ensures RunSeq([i] + rest, st) == Then(Next(i, st), rest)
  {
    hide Next;
    RunSeqAppend([i], rest, st);
    RunOne(i, st);
  }

  lemma HoldsSplit(code: seq<byte>, p: nat, a: seq<byte>, b: seq<byte>)
    requires Holds(code, p, a + b)
    ensures Holds(code, p, a) && Holds(code, p + |a|, b)
  {
    var c := code[p..p + |a + b|];
    assert c[..|a|] == a && c[|a|..] == b;
    assert code[p..p + |a|] == c[..|a|];
    assert code[p + |a|..p + |a| + |b|] == c[|a|..];
  }

  lemma StepNext(code: seq<byte>, st: State, i: Instr)
    requires 0 <= st.rip && Holds(code, st.rip, Encode(i)) && Straight(i)
    ensures Step(code, st) == Next(i, st)
  {
    hide Decode, Effect;
    DecodeEncode(code, st.rip, i);
  }

  /** The fetch-decode-execute machine runs straight-line code instruction by instruction. */
  lemma {:induction false} RunStraight(code: seq<byte>, st: State, prog: seq<Instr>)
    requires 0 <= st.rip && Holds(code, st.rip, EncodeAll(prog))
    requires forall i :: i in prog ==> Straight(i)
    ensures Run(code, st, |prog|) == RunSeq(prog, st)
    decreases |prog|
  {
    hide Step, Effect, Encode, Straight;
    if prog != [] {
      HoldsSplit(code, st.rip, Encode(prog[0]), EncodeAll(prog[1..]));
      StepNext(code, st, prog[0]);
      if Next(prog[0], st).Running? { RunStraight(code, Next(prog[0], st).st, prog[1..]); }
    }
  }

  // ---- the frame ----

  ghost predicate GoodLocals(locals: seq<Local>) {
    && |locals| <= 256
    && (forall x, y :: FindLocal(locals, x) == FindLocal(locals, y) != -1 ==> x == y)
    && (forall x :: FindLocal(locals, x) != -1 ==>
          -8 * |locals| <= FindLocal(locals, x) <= -8 && FindLocal(locals, x) % 8 == 0)
  }

  ghost function Addr(locals: seq<Local>, rbp: u64, x: string): u64
    requires GoodLocals(locals) && 8 * |locals| <= rbp && FindLocal(locals, x) != -1
  {
    rbp + FindLocal(locals, x)
  }

  ghost predicate IsSlot(locals: seq<Local>, rbp: u64, a: u64) {
    exists x :: FindLocal(locals, x) != -1 && a == rbp + FindLocal(locals, x)
  }

  /** The slot of every parameter holds its value. */
  ghost predicate Frame(locals: seq<Local>, env: Env, st: State) {
    && GoodLocals(locals)
    && st.rsp % 8 == 0 && st.rbp % 8 == 0 && st.rsp + 8 * |locals| <= st.rbp
    && SlotsHold(locals, env, st.rbp, st.mem)
  }

  ghost predicate SlotsHold(locals: seq<Local>, env: Env, rbp: u64, mem: map<u64, u64>)
    requires GoodLocals(locals) && 8 * |locals| <= rbp
  {
    && (forall x :: x in env <==> FindLocal(locals, x) != -1)
    && (forall x :: x in env ==> Read(mem, Addr(locals, rbp, x)) == ToU64(env[x]))
  }

  /** Nothing at or above `bound` changed, apart from parameter slots. */
  ghost predicate Preserved(locals: seq<Local>, rbp: u64, bound: u64, m: map<u64, u64>, m': map<u64, u64>) {
    forall a: u64 :: a >= bound && !IsSlot(locals, rbp, a) ==> Read(m', a) == Read(m, a)
  }

  ghost predicate SameStack(s: State, t: State) { s.rsp == t.rsp && s.rbp == t.rbp }

  /** What evaluating an expression must achieve. */
  ghost predicate Computes(o: Outcome, size: nat, r: Value, locals: seq<Local>, st: State) {
    match r
    case Trap => o == DivideError
    case Val(v, env) =>
      && o.Running?
      && o.st.rax == ToU64(v)
      && o.st.rip == st.rip + size
      && SameStack(o.st, st)
      && Frame(locals, env, o.st)
      && Preserved(locals, st.rbp, st.rsp, st.mem, o.st.mem)
  }

  // ---- one operator ----

  lemma SlotAddress(locals: seq<Local>, st: State, x: string)
    requires GoodLocals(locals) && st.rbp % 8 == 0 && 8 * |locals| <= st.rbp
    requires FindLocal(locals, x) != -1
    ensures Slot(st, ToU32(FindLocal(locals, x))) == st.rbp + FindLocal(locals, x)
    ensures (st.rbp + FindLocal(locals, x)) % 8 == 0
  {
  }

  lemma SignedWord(a: i64)
    ensures Signed(ToU64(a)) == a
    ensures ToU64(a) == if a < 0 then a + TWO_64 else a
  {
  }

  lemma WordShift(x: int)
    ensures ToU64(x + TWO_64) == ToU64(x)
  {
  }

  lemma WordDrop(x: int, a: i64)
    ensures ToU64(x + ToU64(a)) == ToU64(x + a)
    ensures ToU64(x - ToU64(a)) == ToU64(x - a)
  {
    SignedWord(a);
    WordShift(x + a);
    WordShift(x - a - TWO_64);
    assert x + (a + TWO_64) == x + a + TWO_64;
    hide ToU64;
  }

  /** Register words agree with signed arithmetic. */
  lemma WordArith(a: i64, b: i64)
    ensures Signed(ToU64(a)) == a
    ensures ToU64(ToU64(a) + ToU64(b)) == ToU64(Wrap(a + b))
    ensures ToU64(ToU64(a) - ToU64(b)) == ToU64(Wrap(a - b))
    ensures ToU64(0 - ToU64(a)) == ToU64(Wrap(0 - a))
    ensures ToU64(a) == ToU64(b) <==> a == b
    ensures ToU64(a) == 0 <==> a == 0
  {
    SignedWord(a);
    SignedWord(b);
    WrapWord(a + b);
    WrapWord(a - b);
    WrapWord(0 - a);
    WordDrop(ToU64(a), b);
    WordDrop(b, a);
    WordDrop(0 - b, a);
    WordDrop(0, a);
    hide Wrap, ToU64;
    assert b + ToU64(a) == ToU64(a) + b && 0 - b + ToU64(a) == ToU64(a) - b;
    assert 0 - b + a == a - b && b + a == a + b;
  }

  lemma WrapWord(x: int)
    ensures ToU64(Wrap(x)) == ToU64(x)
  {
  }

  lemma DivBound(a: nat, b: nat)
    requires b > 0
    ensures 0 <= a / b <= a
    ensures b > 1 && a > 0 ==> a / b < a
    ensures b == 1 ==> a / b == a
  {
    if b > 1 && a > 0 {
      assert b * (a / b) <= a;
      if a / b >= a {
        MulMono(2, b, a, a / b);
        assert false;
      }
    }
  }

  lemma MulMono(a: nat, b: nat, c: nat, d: nat)
    requires a <= b && c <= d
    ensures a * c <= b * d
  {
  }

  lemma QuotTrunc(a: int, b: int)
    requires b != 0
    ensures TruncDiv(a, b) == Quot(a, b)
  {
  }

  lemma QuotRange(a: i64, b: i64)
    requires b != 0
    ensures (Quot(a, b) < -TWO_63 || Quot(a, b) >= TWO_63) <==> DivTraps(a, b)
    ensures -TWO_63 <= a - b * Quot(a, b) < TWO_63
  {
    DivBound(Abs(a), Abs(b));
    var q, r := Abs(a) / Abs(b), Abs(a) % Abs(b);
    assert Abs(a) == Abs(b) * q + r && 0 <= r <= Abs(a);
    assert b * Quot(a, b) == if a < 0 then -(Abs(b) * q) else Abs(b) * q;
  }

  /** The 128-bit dividend after cqo is the signed value itself. */
  lemma Dividend(a: i64)
    ensures Signed(if a < 0 then TWO_64 - 1 else 0) * TWO_64 + ToU64(a) == a
  {
    assert Signed(TWO_64 - 1) == -1 && Signed(0) == 0;
  }

  /** After cqo, idiv divides the sign-extended left operand. */
  lemma IdivCorrect(a: i64, b: i64, st: State)
    requires st.rax == ToU64(a) && st.rcx == ToU64(b)
    requires st.rdx == if a < 0 then TWO_64 - 1 else 0
    ensures DivTraps(a, b) ==> Idiv(st) == DivideError
    ensures !DivTraps(a, b) ==>
      Idiv(st) == Running(st.(rax := ToU64(Quot(a, b)), rdx := ToU64(a - b * Quot(a, b)), flags := Unknown))
  {
    hide ToU64, Signed, TruncDiv, Quot;
    SignedWord(a);
    SignedWord(b);
    Dividend(a);
    if b != 0 {
      QuotTrunc(a, b);
      QuotRange(a, b);
    }
  }

  ghost predicate OpDone(o: Outcome, size: nat, r: Option<i64>, st: State) {
    match r
    case None => o == DivideError
    case Some(v) =>
      && o.Running?
      && o.st.rax == ToU64(v)
      && o.st.rip == st.rip + size
      && SameStack(o.st, st)
      && forall a: u64 :: a >= st.rsp ==> Read(o.st.mem, a) == Read(st.mem, a)
  }

  lemma ArithCorrect(op: BinOp, a: i64, b: i64, st: State)
    requires st.rax == ToU64(a) && st.rcx == ToU64(b)
    requires op.Add? || op.Sub? || op.Mul?
    ensures OpDone(RunSeq(BinCode(op), st), ByteLen(BinCode(op)), BinValue(op, a, b), st)
  {
    WordArith(a, b);
    WordArith(b, a);
    WrapWord(a * b);
    RunOne(BinCode(op)[0], st);
    EncodeOne(BinCode(op)[0]);
    assert BinCode(op) == [BinCode(op)[0]];
  }

  lemma DivCorrect(op: BinOp, a: i64, b: i64, st: State)
    requires st.rax == ToU64(a) && st.rcx == ToU64(b)
    requires op.Div? || op.Mod?
    ensures OpDone(RunSeq(BinCode(op), st), ByteLen(BinCode(op)), BinValue(op, a, b), st)
  {
    hide Idiv, Quot, EncodeAll, RunSeq;
    WordArith(a, b);
    var s1 := Next(Cqo, st).st;
    IdivCorrect(a, b, s1);
    EncodeTail(Cqo, [IdivRcx]);
    EncodeOne(IdivRcx);
    RunCons(Cqo, [IdivRcx], st);
    RunOne(IdivRcx, s1);
    assert [Cqo] + [IdivRcx] == [Cqo, IdivRcx];
    if !DivTraps(a, b) {
      WrapWord(Quot(a, b));
      WrapWord(a - b * Quot(a, b));
    }
    if op.Mod? {
      EncodeAppend([Cqo, IdivRcx], [MovRaxRdx]);
      EncodeOne(MovRaxRdx);
      RunSeqAppend([Cqo, IdivRcx], [MovRaxRdx], st);
      assert [Cqo, IdivRcx] + [MovRaxRdx] == [Cqo, IdivRcx, MovRaxRdx];
      if !DivTraps(a, b) { RunOne(MovRaxRdx, Next(IdivRcx, s1).st); }
    }
  }

  lemma EncodeTail(i: Instr, rest: seq<Instr>)
    ensures ByteLen([i] + rest) == Len(i) + ByteLen(rest)
  {
    EncodeAppend([i], rest);
    EncodeOne(i);
  }

  lemma Run3(i: Instr, j: Instr, k: Instr, st: State)
    requires Next(i, st).Running? && Next(j, Next(i, st).st).Running?
    ensures RunSeq([i, j, k], st) == Next(k, Next(j, Next(i, st).st).st)
    ensures ByteLen([i, j, k]) == Len(i) + Len(j) + Len(k)
  {
    hide Next, Encode, EncodeAll, RunSeq;
    assert [i] + ([j] + [k]) == [i, j, k];
    EncodeTail(i, [j] + [k]);
    EncodeTail(j, [k]);
    EncodeOne(k);
    RunCons(i, [j] + [k], st);
    RunCons(j, [k], Next(i, st).st);
    RunOne(k, Next(j, Next(i, st).st).st);
  }

  lemma LowByteBit(x: u64, bit: bool)
    ensures LowByte(x, bit) % 256 == ToU64(Truth(bit)) == Truth(bit)
  {
  }

  lemma TruthByteLow(a: i64)
    ensures TruthByte(a) == LowByte(ToU64(a), a != 0)
  {
  }

  lemma CompareCorrect(cc: Cond, a: i64, b: i64, st: State)
    requires st.rax == ToU64(a) && st.rcx == ToU64(b)
    ensures OpDone(RunSeq(CompareCode(cc), st), ByteLen(CompareCode(cc)),
                   Some(Truth(CondHolds(Flags(a == b, a < b), cc))), st)
  {
    hide RunSeq, EncodeAll, ByteLen, Encode, ToU64, Signed, LowByte;
    WordArith(a, b);
    WordArith(b, a);
    var holds := CondHolds(Flags(a == b, a < b), cc);
    LowByteBit(st.rax, holds);
    var s1 := st.(flags := Flags(a == b, a < b), rip := st.rip + Len(CmpRaxRcx));
    assert Next(CmpRaxRcx, st) == Running(s1);
    var s2 := s1.(rax := LowByte(st.rax, holds), rip := s1.rip + Len(SetAl(cc)));
    assert Next(SetAl(cc), s1) == Running(s2);
    Run3(CmpRaxRcx, SetAl(cc), MovzxRaxAl, st);
  }

  lemma TruthTail(b: i64, st: State)
    requires st.rcx == ToU64(b) && st.rsp % 8 == 0 && st.rsp + 8 < TWO_64
    ensures RunSeq([TestRcxRcx, SetneCl, PopRax], st) == Running(st.(
      rax := Read(st.mem, st.rsp), rcx := LowByte(st.rcx, b != 0), rsp := st.rsp + 8,
      flags := Flags(b == 0, b < 0), rip := st.rip + ByteLen([TestRcxRcx, SetneCl, PopRax])))
  {
    hide RunSeq, EncodeAll, ByteLen, Encode, Signed, LowByte, ToU64;
    WordArith(b, b);
    SmallWord(st.rsp + 8);
    var s1 := st.(flags := Flags(b == 0, b < 0), rip := st.rip + Len(TestRcxRcx));
    assert Next(TestRcxRcx, st) == Running(s1);
    var s2 := s1.(rcx := LowByte(st.rcx, b != 0), rip := s1.rip + Len(SetneCl));
    assert Next(SetneCl, s1) == Running(s2);
    Run3(TestRcxRcx, SetneCl, PopRax, st);
  }

  /** Both operands become truth bytes, through a push and a pop. */
  lemma TruthCorrect(a: i64, b: i64, st: State)
    requires st.rax == ToU64(a) && st.rcx == ToU64(b) && st.rsp % 8 == 0 && st.rsp >= 8
    ensures var o := RunSeq(TruthCode(), st);
      && OpDone(o, ByteLen(TruthCode()), Some(Wrap(TruthByte(a))), st)
      && o.st.rax == TruthByte(a) && o.st.rcx == TruthByte(b)
  {
    hide RunSeq, EncodeAll, ByteLen, Encode, Signed, LowByte, Wrap, ToU64, TruthByte;
    SmallWord(st.rsp - 8);
    SmallWord(TruthByte(a));
    WordArith(a, b);
    WordArith(b, a);
    WrapWord(TruthByte(a));
    var s1 := st.(flags := Flags(a == 0, a < 0), rip := st.rip + Len(TestRaxRax));
    assert Next(TestRaxRax, st) == Running(s1);
    var s2 := s1.(rax := LowByte(st.rax, a != 0), rip := s1.rip + Len(SetAl(NE)));
    assert Next(SetAl(NE), s1) == Running(s2);
    var s3 := s2.(rsp := st.rsp - 8, mem := st.mem[st.rsp - 8 := s2.rax], rip := s2.rip + Len(PushRax));
    assert Next(PushRax, s2) == Running(s3);
    Run3(TestRaxRax, SetAl(NE), PushRax, st);
    TruthTail(b, s3);
    RunSeqAppend([TestRaxRax, SetAl(NE), PushRax], [TestRcxRcx, SetneCl, PopRax], st);
    LenAppend([TestRaxRax, SetAl(NE), PushRax], [TestRcxRcx, SetneCl, PopRax]);
    assert TruthCode() == [TestRaxRax, SetAl(NE), PushRax] + [TestRcxRcx, SetneCl, PopRax];
    TruthByteLow(a);
    TruthByteLow(b);
  }

  lemma LogicCorrect(op: BinOp, a: i64, b: i64, st: State)
    requires st.rax == ToU64(a) && st.rcx == ToU64(b) && st.rsp % 8 == 0 && st.rsp >= 8
    requires op.And? || op.Or?
    ensures OpDone(RunSeq(BinCode(op), st), ByteLen(BinCode(op)), BinValue(op, a, b), st)
  {
    hide RunSeq, EncodeAll, ByteLen, Encode, BitAnd, BitOr, TruthByte, TruthCode, Wrap;
    var i := if op.And? then AndRaxRcx else OrRaxRcx;
    TruthCorrect(a, b, st);
    var s := RunSeq(TruthCode(), st).st;
    RunSeqAppend(TruthCode(), [i], st);
    RunOne(i, s);
    LenAppend(TruthCode(), [i]);
    LenOf(i);
    WrapWord(BitAnd(TruthByte(a), TruthByte(b)));
    WrapWord(BitOr(TruthByte(a), TruthByte(b)));
    hide ToU64;
    assert BinCode(op) == TruthCode() + [i];
  }

  lemma BinCorrect(op: BinOp, a: i64, b: i64, st: State)
    requires st.rax == ToU64(a) && st.rcx == ToU64(b) && st.rsp % 8 == 0 && st.rsp >= 8
    ensures OpDone(RunSeq(BinCode(op), st), ByteLen(BinCode(op)), BinValue(op, a, b), st)
  {
    hide RunSeq, ByteLen, OpDone, CompareCode, TruthCode;
    match op {
      case Add | Sub | Mul => ArithCorrect(op, a, b, st);
      case Div | Mod => DivCorrect(op, a, b, st);
      case Eq => CompareCorrect(E, a, b, st);
      case Ne => CompareCorrect(NE, a, b, st);
      case Lt => CompareCorrect(L, a, b, st);
      case Gt => CompareCorrect(G, a, b, st);
      case Le => CompareCorrect(LE, a, b, st);
      case Ge => CompareCorrect(GE, a, b, st);
      case And | Or => LogicCorrect(op, a, b, st);
    }
  }

  lemma UnCorrect(op: UnOp, a: i64, st: State)
    requires st.rax == ToU64(a)
    ensures OpDone(RunSeq(UnCode(op), st), ByteLen(UnCode(op)), Some(UnValue(op, a)), st)
  {
    hide RunSeq, EncodeAll, ByteLen, Encode, ToU64, Signed, LowByte;
    WordArith(a, a);
    match op {
      case Neg =>
        RunOne(NegRax, st);
        LenOf(NegRax);
      case Not =>
        LowByteBit(st.rax, a == 0);
        var s1 := st.(flags := Flags(a == 0, a < 0), rip := st.rip + Len(TestRaxRax));
        assert Next(TestRaxRax, st) == Running(s1);
        var s2 := s1.(rax := LowByte(st.rax, a == 0), rip := s1.rip + Len(SetAl(E)));
        assert Next(SetAl(E), s1) == Running(s2);
        Run3(TestRaxRax, SetAl(E), MovzxRaxAl, st);
    }
  }

  // ---- expressions ----

  /** A state that differs only below rsp and in scratch registers still holds the frame. */
  lemma FrameKept(locals: seq<Local>, env: Env, s: State, t: State)
    requires Frame(locals, env, s) && s.rbp == t.rbp && t.rsp % 8 == 0 && t.rsp <= s.rsp
    requires forall a: u64 :: a >= s.rsp ==> Read(t.mem, a) == Read(s.mem, a)
    ensures Frame(locals, env, t)
  {
    forall x | x in env ensures Read(t.mem, Addr(locals, t.rbp, x)) == ToU64(env[x]) {
      assert s.rbp + FindLocal(locals, x) >= s.rsp;
    }
  }

  lemma VarCorrect(x: string, locals: seq<Local>, env: Env, st: State)
    requires Frame(locals, env, st)
    ensures Computes(RunSeq(VarCode(locals, x), st), ByteLen(VarCode(locals, x)), Eval(Var(x), env), locals, st)
  {
    var off := FindLocal(locals, x);
    var i := if off == -1 then XorRaxRax else LoadRax(ToU32(off));
    RunOne(i, st);
    LenOf(i);
    if off != -1 { SlotAddress(locals, st, x); }
    FrameKept(locals, env, st, Next(i, st).st);
    hide RunSeq, EncodeAll, Encode, ByteLen, GoodLocals, ToU32;
  }

  lemma ReadUpdate(m: map<u64, u64>, a: u64, v: u64, b: u64)
    ensures Read(m[a := v], b) == if b == a then v else Read(m, b)
  {
  }

  lemma AssignSlot(x: string, v: i64, locals: seq<Local>, env: Env, st: State, a: u64)
    requires Frame(locals, env, st) && FindLocal(locals, x) != -1 && a == st.rbp + FindLocal(locals, x)
    ensures SlotsHold(locals, Bind(env, x, v), st.rbp, st.mem[a := ToU64(v)])
    ensures Preserved(locals, st.rbp, st.rsp, st.mem, st.mem[a := ToU64(v)])
  {
    hide ToU64, FindLocal, GoodLocals;
    var m, env1 := st.mem[a := ToU64(v)], Bind(env, x, v);
    assert IsSlot(locals, st.rbp, a);
    forall b: u64 ensures Read(m, b) == if b == a then ToU64(v) else Read(st.mem, b) {
      ReadUpdate(st.mem, a, ToU64(v), b);
    }
    hide Read;
    forall y | y in env1 ensures Read(m, Addr(locals, st.rbp, y)) == ToU64(env1[y]) {
      assert y in env;
      SlotDistinct(locals, x, y);
    }
  }

  lemma SlotDistinct(locals: seq<Local>, x: string, y: string)
    requires GoodLocals(locals) && FindLocal(locals, x) != -1 && FindLocal(locals, y) != -1
    ensures x != y ==> FindLocal(locals, x) != FindLocal(locals, y)
    ensures -8 * |locals| <= FindLocal(locals, y) <= -8
  {
  }

  lemma FrameSame(locals: seq<Local>, env: Env, st: State)
    requires Frame(locals, env, st)
    ensures Preserved(locals, st.rbp, st.rsp, st.mem, st.mem)
    ensures forall x :: FindLocal(locals, x) == -1 ==> x !in env
  {
  }

  lemma StoreCorrect(target: Expr, v: i64, locals: seq<Local>, env: Env, st: State)
    requires Frame(locals, env, st) && st.rax == ToU64(v)
    ensures Computes(RunSeq(StoreCode(locals, target), st), ByteLen(StoreCode(locals, target)),
      Val(v, if target.Var? then Bind(env, target.name, v) else env), locals, st)
  {
    hide RunSeq, EncodeAll, ByteLen, Encode, ToU64, ToU32, SlotsHold, Preserved;
    if target.Var? && FindLocal(locals, target.name) != -1 {
      var x := target.name;
      var i := Store(Rax, ToU32(FindLocal(locals, x)));
      RunOne(i, st);
      LenOf(i);
      SlotAddress(locals, st, x);
      AssignSlot(x, v, locals, env, st, st.rbp + FindLocal(locals, x));
    } else {
      assert RunSeq([], st) == Running(st) by { RunNone(st); }
      EncodeEmpty();
      FrameSame(locals, env, st);
    }
  }

  lemma {:induction false} ExprStraight(e: Expr, locals: seq<Local>)
    ensures forall i :: i in ExprCode(e, locals) ==> Straight(i)
  {
    match e {
      case Num(_) =>
      case Var(_) =>
      case Unary(op, e1) => ExprStraight(e1, locals);
      case Binary(op, l, r) =>
        ExprStraight(r, locals);
        ExprStraight(l, locals);
        assert forall i :: i in BinCode(op) ==> Straight(i);
      case Assign(_, value) => ExprStraight(value, locals);
    }
  }

  /** Running code `b` after code `a` that computed a value. */
  lemma ComputesThen(a: seq<Instr>, b: seq<Instr>, v: i64, env: Env, r: Value, locals: seq<Local>, st: State)
    requires Computes(RunSeq(a, st), ByteLen(a), Val(v, env), locals, st)
    requires Computes(RunSeq(b, RunSeq(a, st).st), ByteLen(b), r, locals, RunSeq(a, st).st)
    ensures Computes(RunSeq(a + b, st), ByteLen(a + b), r, locals, st)
  {
    hide RunSeq, ByteLen, EncodeAll, Frame;
    RunSeqAppend(a, b, st);
    LenAppend(a, b);
  }

  lemma OpComputes(o: Outcome, size: nat, r: Option<i64>, env: Env, locals: seq<Local>, st: State)
    requires OpDone(o, size, r, st) && Frame(locals, env, st)
    ensures Computes(o, size, if r.None? then Trap else Val(r.value, env), locals, st)
  {
    hide ToU64;
    if r.Some? { FrameKept(locals, env, st, o.st); }
  }

  lemma TrapThen(a: seq<Instr>, b: seq<Instr>, locals: seq<Local>, st: State)
    requires RunSeq(a, st) == DivideError
    ensures RunSeq(a + b, st) == DivideError
  {
    hide RunSeq;
    RunSeqAppend(a, b, st);
  }

  /** Expression code is correct and stack-neutral. */
  lemma {:induction false} ExprCorrect(e: Expr, locals: seq<Local>, env: Env, st: State)
    requires Frame(locals, env, st) && ExprNeed(e) <= st.rsp
    ensures Computes(RunSeq(ExprCode(e, locals), st), ByteLen(ExprCode(e, locals)), Eval(e, env), locals, st)
  {
    hide RunSeq, EncodeAll, Encode, ByteLen, Frame, BinCode, UnCode, StoreCode, VarCode;
    match e {
      case Num(n) => NumCorrect(n, locals, env, st);
      case Var(x) => VarCorrect(x, locals, env, st);
      case Unary(op, e1) =>
        ExprCorrect(e1, locals, env, st);
        var c := ExprCode(e1, locals);
        match Eval(e1, env) {
          case Trap => TrapThen(c, UnCode(op), locals, st);
          case Val(v, env1) =>
            var s := RunSeq(c, st).st;
            UnCorrect(op, v, s);
            OpComputes(RunSeq(UnCode(op), s), ByteLen(UnCode(op)), Some(UnValue(op, v)), env1, locals, s);
            ComputesThen(c, UnCode(op), v, env1, Eval(e, env), locals, st);
        }
      case Binary(op, l, r) =>
        ExprCorrect(r, locals, env, st);
        match Eval(r, env) {
          case Trap => BinaryTrap(op, l, r, locals, st);
          case Val(b, env1) =>
            var s := RunSeq(ExprCode(r, locals), st).st;
            PushFrame(locals, env1, s);
            var s1 := s.(rsp := s.rsp - 8, mem := s.mem[s.rsp - 8 := s.rax], rip := s.rip + Len(PushRax));
            ExprCorrect(l, locals, env1, s1);
            BinaryTail(op, l, b, locals, env1, s);
            var rest := [PushRax] + ExprCode(l, locals) + [PopRcx] + BinCode(op);
            ComputesThen(ExprCode(r, locals), rest, b, env1, Eval(e, env), locals, st);
            assert ExprCode(e, locals) == ExprCode(r, locals) + rest;
        }
      case Assign(target, value) =>
        ExprCorrect(value, locals, env, st);
        var c := ExprCode(value, locals);
        match Eval(value, env) {
          case Trap => TrapThen(c, StoreCode(locals, target), locals, st);
          case Val(v, env1) =>
            StoreCorrect(target, v, locals, env1, RunSeq(c, st).st);
            ComputesThen(c, StoreCode(locals, target), v, env1, Eval(e, env), locals, st);
        }
    }
  }

  lemma NumCorrect(n: int, locals: seq<Local>, env: Env, st: State)
    requires Frame(locals, env, st)
    ensures Computes(RunSeq([MovRaxImm(ToU32(n))], st), ByteLen([MovRaxImm(ToU32(n))]), Eval(Num(n), env), locals, st)
  {
    hide RunSeq, EncodeAll, Encode, ByteLen, GoodLocals, SlotsHold, ToU64, ToU32;
    RunOne(MovRaxImm(ToU32(n)), st);
    LenOf(MovRaxImm(ToU32(n)));
  }

  lemma BinaryTrap(op: BinOp, l: Expr, r: Expr, locals: seq<Local>, st: State)
    requires RunSeq(ExprCode(r, locals), st) == DivideError
    ensures RunSeq(ExprCode(Binary(op, l, r), locals), st) == DivideError
  {
    hide RunSeq, BinCode;
    var c, rest := ExprCode(r, locals), [PushRax] + ExprCode(l, locals) + [PopRcx] + BinCode(op);
    TrapThen(c, rest, locals, st);
    assert ExprCode(Binary(op, l, r), locals) == c + rest;
  }

  lemma PushFrame(locals: seq<Local>, env: Env, s: State)
    requires Frame(locals, env, s) && s.rsp >= 8
    ensures Next(PushRax, s) == Running(s.(rsp := s.rsp - 8, mem := s.mem[s.rsp - 8 := s.rax],
                                           rip := s.rip + Len(PushRax)))
    ensures Frame(locals, env, s.(rsp := s.rsp - 8, mem := s.mem[s.rsp - 8 := s.rax], rip := s.rip + Len(PushRax)))
  {
    hide Encode, GoodLocals, SlotsHold, ToU64;
    SmallWord(s.rsp - 8);
    FrameKept(locals, env, s, s.(rsp := s.rsp - 8, mem := s.mem[s.rsp - 8 := s.rax], rip := s.rip + Len(PushRax)));
  }

  /** From the right operand on: push it, compute the left one, pop it and combine. */
  lemma BinaryTail(op: BinOp, l: Expr, b: i64, locals: seq<Local>, env: Env, s: State)
    requires Frame(locals, env, s) && s.rsp >= 8 && s.rax == ToU64(b)
    requires var s1 := s.(rsp := s.rsp - 8, mem := s.mem[s.rsp - 8 := s.rax], rip := s.rip + Len(PushRax));
      Computes(RunSeq(ExprCode(l, locals), s1), ByteLen(ExprCode(l, locals)), Eval(l, env), locals, s1)
    ensures var rest := [PushRax] + ExprCode(l, locals) + [PopRcx] + BinCode(op);
      Computes(RunSeq(rest, s), ByteLen(rest),
        match Eval(l, env)
        case Trap => Trap
        case Val(a, env2) => match BinValue(op, a, b) case None => Trap case Some(v) => Val(v, env2),
        locals, s)
  {
    hide RunSeq, EncodeAll, Encode, ByteLen, ExprCode, BinCode, GoodLocals, SlotsHold, Computes, BinValue, Eval;
    var c := ExprCode(l, locals);
    var s1 := s.(rsp := s.rsp - 8, mem := s.mem[s.rsp - 8 := s.rax], rip := s.rip + Len(PushRax));
    PushFrame(locals, env, s);
    var tail := c + ([PopRcx] + BinCode(op));
    RunCons(PushRax, tail, s);
    EncodeTail(PushRax, tail);
    assert [PushRax] + tail == [PushRax] + c + [PopRcx] + BinCode(op);
    RunSeqAppend(c, [PopRcx] + BinCode(op), s1);
    LenAppend(c, [PopRcx] + BinCode(op));
    match Eval(l, env) {
      case Trap => TrapComputes(RunSeq(c, s1), ByteLen(c), locals, s1);
      case Val(a, env2) => PopAndCombine(op, a, b, locals, env2, s, s1, c);
    }
  }

  lemma TrapComputes(o: Outcome, size: nat, locals: seq<Local>, st: State)
    ensures Computes(o, size, Trap, locals, st) <==> o == DivideError
    ensures forall n: nat, s :: Computes(DivideError, n, Trap, locals, s)
  {
  }

  lemma SlotsAbove(locals: seq<Local>, rbp: u64, a: u64)
    requires GoodLocals(locals) && a + 8 * |locals| < rbp
    ensures !IsSlot(locals, rbp, a)
  {
  }

  lemma PopOperand(locals: seq<Local>, b: i64, s: State, s1: State, s2: State)
    requires GoodLocals(locals) && 8 <= s.rsp && s.rsp % 8 == 0 && s.rsp + 8 * |locals| <= s.rbp
    requires s1.rbp == s.rbp && s1.rsp == s.rsp - 8 && SameStack(s2, s1)
    requires Read(s1.mem, s1.rsp) == ToU64(b)
    requires Preserved(locals, s1.rbp, s1.rsp, s1.mem, s2.mem)
    ensures Next(PopRcx, s2) == Running(s2.(rcx := ToU64(b), rsp := s.rsp, rip := s2.rip + Len(PopRcx)))
  {
    hide Encode, GoodLocals, ToU64;
    SlotsAbove(locals, s.rbp, s1.rsp);
    SmallWord(s.rsp);
  }

  lemma FrameRaised(locals: seq<Local>, env: Env, s: State, t: State)
    requires Frame(locals, env, s) && t.rsp % 8 == 0 && t.rsp + 8 * |locals| <= t.rbp
    requires s.rbp == t.rbp && s.mem == t.mem
    ensures Frame(locals, env, t)
  {
  }

  lemma PopAndCombine(op: BinOp, a: i64, b: i64, locals: seq<Local>, env: Env, s: State, s1: State, c: seq<Instr>)
    requires s.rsp >= 8 && s.rsp % 8 == 0 && s.rsp + 8 * |locals| <= s.rbp && s.rax == ToU64(b)
    requires GoodLocals(locals)
    requires s1 == s.(rsp := s.rsp - 8, mem := s.mem[s.rsp - 8 := s.rax], rip := s.rip + Len(PushRax))
    requires Computes(RunSeq(c, s1), ByteLen(c), Val(a, env), locals, s1)
    ensures RunSeq(c, s1).Running?
    ensures var o := RunSeq([PopRcx] + BinCode(op), RunSeq(c, s1).st);
      Computes(o, Len(PushRax) + ByteLen(c) + ByteLen([PopRcx] + BinCode(op)),
        match BinValue(op, a, b) case None => Trap case Some(v) => Val(v, env), locals, s)
  {
    hide RunSeq, EncodeAll, Encode, ByteLen, ExprCode, BinCode, BinValue, GoodLocals, SlotsHold;
    var s2 := RunSeq(c, s1).st;
    var s3 := s2.(rcx := ToU64(b), rsp := s.rsp, rip := s2.rip + Len(PopRcx));
    PopOperand(locals, b, s, s1, s2);
    RunCons(PopRcx, BinCode(op), s2);
    EncodeTail(PopRcx, BinCode(op));
    FrameRaised(locals, env, s2, s3);
    BinCorrect(op, a, b, s3);
    OpComputes(RunSeq(BinCode(op), s3), ByteLen(BinCode(op)), BinValue(op, a, b), env, locals, s3);
  }
}
