/** The machine code of each construct, written as a two-pass assembler would produce it: every
    jump already knows its target. The single-pass generator is proved to produce these bytes,
    and these bytes are proved to mean what the source means. */
module Assembly {
  import opened Words
  import opened Wrappers
  import opened X86
  import opened MiniC

  /** A stack slot, `offset` bytes from rbp. */
  datatype Local = Local(name: string, offset: int)

  /** The offset of the first entry with that name, or -1. */
  function FindLocal(locals: seq<Local>, name: string): int {
    if locals == [] then -1
    else if locals[0].name == name then locals[0].offset
    else FindLocal(locals[1..], name)
  }

  function EncodeAll(code: seq<Instr>): seq<byte> {
    if code == [] then [] else Encode(code[0]) + EncodeAll(code[1..])
  }

  function ByteLen(code: seq<Instr>): nat { |EncodeAll(code)| }

  lemma {:induction false} EncodeAppend(a: seq<Instr>, b: seq<Instr>)
    ensures EncodeAll(a + b) == EncodeAll(a) + EncodeAll(b)
  {
    if a == [] {
      assert a + b == b;
    } else {
      assert (a + b)[1..] == a[1..] + b;
      EncodeAppend(a[1..], b);
    }
  }

  lemma EncodeOne(i: Instr)
    ensures EncodeAll([i]) == Encode(i)
  {
    assert EncodeAll([i][1..]) == [];
  }

  // ---- expressions ----

  function VarCode(locals: seq<Local>, x: string): seq<Instr> {
    var off := FindLocal(locals, x);
    if off == -1 then [XorRaxRax] else [LoadRax(ToU32(off))]
  }

  function StoreCode(locals: seq<Local>, target: Expr): seq<Instr> {
    if target.Var? && FindLocal(locals, target.name) != -1
    then [Store(Rax, ToU32(FindLocal(locals, target.name)))] else []
  }

  function UnCode(op: UnOp): seq<Instr> {
    match op
    case Neg => [NegRax]
    case Not => [TestRaxRax, SetAl(E), MovzxRaxAl]
  }

  /** Combines the left operand, in rax, with the right one, in rcx. */
  function BinCode(op: BinOp): seq<Instr> {
    match op
    case Add => [AddRaxRcx]
    case Sub => [SubRaxRcx]
    case Mul => [ImulRcx]
    case Div => [Cqo, IdivRcx]
    case Mod => [Cqo, IdivRcx, MovRaxRdx]
    case Eq => CompareCode(E)
    case Ne => CompareCode(NE)
    case Lt => CompareCode(L)
    case Gt => CompareCode(G)
    case Le => CompareCode(LE)
    case Ge => CompareCode(GE)
    case And => TruthCode() + [AndRaxRcx]
    case Or => TruthCode() + [OrRaxRcx]
  }

  function CompareCode(cc: Cond): seq<Instr> { [CmpRaxRcx, SetAl(cc), MovzxRaxAl] }

  function TruthCode(): seq<Instr> { [TestRaxRax, SetAl(NE), PushRax, TestRcxRcx, SetneCl, PopRax] }

  /** Leaves the value in rax; the right operand waits on the stack while the left one is
      computed. */
  function ExprCode(e: Expr, locals: seq<Local>): seq<Instr> {
    match e
    case Num(n) => [MovRaxImm(ToU32(n))]
    case Var(x) => VarCode(locals, x)
    case Unary(op, e1) => ExprCode(e1, locals) + UnCode(op)
    case Binary(op, l, r) =>
      ExprCode(r, locals) + [PushRax] + ExprCode(l, locals) + [PopRcx] + BinCode(op)
    case Assign(target, value) => ExprCode(value, locals) + StoreCode(locals, target)
  }

  /** Bytes of stack that evaluating `e` uses below rsp. */
  function ExprNeed(e: Expr): nat {
    match e
    case Num(_) => 0
    case Var(_) => 0
    case Unary(_, e1) => ExprNeed(e1)
    case Binary(_, l, r) => Max(ExprNeed(r), 8 + ExprNeed(l))
    case Assign(_, value) => ExprNeed(value)
  }

  function Max(a: nat, b: nat): nat { if a < b then b else a }

  // ---- statements ----

  /** Where `break` or `continue` goes: nowhere outside a loop, a position still to be filled
      in, or a known position. */
  datatype Target = NoLoop | Hole | To(pos: nat)

  /** The rel32 field at byte `from` that makes the jump land at `to`. */
  function Rel(from: nat, to: nat): u32 { ToU32(to - (from + 4)) }

  function JumpCode(at: nat, t: Target): seq<Instr> {
    match t
    case NoLoop => []
    case Hole => [Jmp(0)]
    case To(p) => [Jmp(Rel(at + 1, p))]
  }

  function TestCode(test: Option<Expr>, locals: seq<Local>): seq<Instr> {
    (match test case None => [MovRaxImm(1)] case Some(c) => ExprCode(c, locals)) + [TestRaxRax]
  }

  function StepCode(step: Option<Expr>, locals: seq<Local>): seq<Instr> {
    match step case None => [] case Some(e) => ExprCode(e, locals)
  }

  function EpilogueCode(): seq<Instr> { [MovRspRbp, PopRbp, Ret] }

  function ReturnCode(result: Option<Expr>, locals: seq<Local>): seq<Instr> {
    (match result case None => [XorRaxRax] case Some(e) => ExprCode(e, locals)) + EpilogueCode()
  }

  function StmtSize(s: Stmt, locals: seq<Local>, inLoop: bool): nat
    decreases s, 1
  {
    match s
    case Empty => 0
    case ExprStmt(e) => ByteLen(ExprCode(e, locals))
    case Block(ss) => BlockSize(ss, locals, inLoop)
    case If(c, t, e) => IfSize(c, StmtSize(t, locals, inLoop), e.Empty?, StmtSize(e, locals, inLoop), locals)
    case While(c, b) => LoopSize(Some(c), None, StmtSize(b, locals, true), locals)
    case For(init, test, step, b) =>
      StmtSize(init, locals, inLoop) + LoopSize(test, step, StmtSize(b, locals, true), locals)
    case Break => if inLoop then 5 else 0
    case Continue => if inLoop then 5 else 0
    case Return(r) => ByteLen(ReturnCode(r, locals))
  }

  function BlockSize(ss: seq<Stmt>, locals: seq<Local>, inLoop: bool): nat
    decreases ss, 0
  {
    if ss == [] then 0 else StmtSize(ss[0], locals, inLoop) + BlockSize(ss[1..], locals, inLoop)
  }

  function IfSize(c: Expr, thn: nat, noElse: bool, els: nat, locals: seq<Local>): nat {
    ByteLen(TestCode(Some(c), locals)) + 6 + thn + (if noElse then 0 else 5 + els)
  }

  function LoopSize(test: Option<Expr>, step: Option<Expr>, body: nat, locals: seq<Local>): nat {
    ByteLen(TestCode(test, locals)) + 6 + body + ByteLen(StepCode(step, locals)) + 5
  }

  /** The code of `s` when it starts at byte `at`. */
  function StmtCode(s: Stmt, locals: seq<Local>, at: nat, brk: Target, cnt: Target): seq<Instr>
    decreases s, 1
  {
    match s
    case Empty => []
    case ExprStmt(e) => ExprCode(e, locals)
    case Block(ss) => BlockCode(ss, locals, at, brk, cnt)
    case If(c, t, e) => IfCode(c, t, e, locals, at, brk, cnt)
    case While(c, b) => LoopCode(Some(c), None, b, locals, at)
    case For(init, test, step, b) =>
      StmtCode(init, locals, at, brk, cnt)
      + LoopCode(test, step, b, locals, at + StmtSize(init, locals, !brk.NoLoop?))
    case Break => JumpCode(at, brk)
    case Continue => JumpCode(at, cnt)
    case Return(r) => ReturnCode(r, locals)
  }

  /** The `else` part, when there is one, is jumped over by the `then` part. */
  function IfCode(c: Expr, t: Stmt, e: Stmt, locals: seq<Local>, at: nat, brk: Target, cnt: Target): seq<Instr>
    decreases If(c, t, e), 0
  {
    var test := TestCode(Some(c), locals);
    var p := at + ByteLen(test);
    var q := p + 6 + StmtSize(t, locals, !brk.NoLoop?);
    if e.Empty? then
      test + [Je(Rel(p + 2, q))] + StmtCode(t, locals, p + 6, brk, cnt)
    else
      test + [Je(Rel(p + 2, q + 5))] + StmtCode(t, locals, p + 6, brk, cnt)
      + [Jmp(Rel(q + 1, q + 5 + StmtSize(e, locals, !brk.NoLoop?)))]
      + StmtCode(e, locals, q + 5, brk, cnt)
  }

  function BlockCode(ss: seq<Stmt>, locals: seq<Local>, at: nat, brk: Target, cnt: Target): seq<Instr>
    decreases ss, 0
  {
    if ss == [] then [] else
    StmtCode(ss[0], locals, at, brk, cnt)
    + BlockCode(ss[1..], locals, at + StmtSize(ss[0], locals, !brk.NoLoop?), brk, cnt)
  }

  /** Byte positions inside a loop that starts at `at`. */
  datatype LoopMap = LoopMap(je: nat, body: nat, step: nat, jmp: nat, exit: nat, next: nat)

  /** `continue` goes to the step when there is one and to the test otherwise. */
  function MapLoop(test: Option<Expr>, step: Option<Expr>, b: Stmt, locals: seq<Local>, at: nat): LoopMap {
    var je := at + ByteLen(TestCode(test, locals));
    var body := je + 6;
    var stepAt := body + StmtSize(b, locals, true);
    var jmp := stepAt + ByteLen(StepCode(step, locals));
    LoopMap(je, body, stepAt, jmp, jmp + 5, if step.Some? then stepAt else at)
  }

  function LoopCode(test: Option<Expr>, step: Option<Expr>, b: Stmt, locals: seq<Local>, at: nat): seq<Instr>
    decreases b, 2
  {
    var m := MapLoop(test, step, b, locals, at);
    TestCode(test, locals) + [Je(Rel(m.je + 2, m.exit))]
    + StmtCode(b, locals, m.body, To(m.exit), To(m.next))
    + StepCode(step, locals) + [Jmp(Rel(m.jmp + 1, at))]
  }

  // ---- functions ----

  /** Parameters are given slots from the last to the first. */
  function ParamLocals(params: seq<string>): seq<Local> {
    seq(|params|, k requires 0 <= k < |params| => Local(params[|params| - 1 - k], -8 * (k + 1)))
  }

  function ArgReg(i: nat): Reg
    requires i < 6
  {
    match i case 0 => Rdi case 1 => Rsi case 2 => Rdx case 3 => Rcx case 4 => R8 case 5 => R9
  }

  /** Saves the first `n` argument registers. */
  function SaveArgs(params: seq<string>, locals: seq<Local>, n: nat): seq<Instr>
    requires n <= |params| && n <= 6
  {
    if n == 0 then [] else
    SaveArgs(params, locals, n - 1)
    + [Store(ArgReg(n - 1), ToU32(FindLocal(locals, params[n - 1])))]
  }

  function Min(a: nat, b: nat): nat { if a < b then a else b }

  function PrologueCode(params: seq<string>): seq<Instr> {
    [PushRbp, MovRbpRsp] + SaveArgs(params, ParamLocals(params), Min(|params|, 6))
    + (if params == [] then [] else [SubRsp(ToU32(8 * |params|))])
  }

  function FuncCode(f: Func, at: nat): seq<Instr> {
    PrologueCode(f.params)
    + BlockCode(f.body, ParamLocals(f.params), at + ByteLen(PrologueCode(f.params)), NoLoop, NoLoop)
    + [XorRaxRax] + EpilogueCode()
  }

  // ---- lengths do not depend on jump targets ----

  lemma JumpLen(at: nat, t: Target)
    ensures ByteLen(JumpCode(at, t)) == if t.NoLoop? then 0 else 5
  {
    match t {
      case NoLoop =>
      case Hole => EncodeOne(Jmp(0));
      case To(p) => EncodeOne(Jmp(Rel(at + 1, p)));
    }
  }

  lemma LenAppend(a: seq<Instr>, b: seq<Instr>)
    ensures ByteLen(a + b) == ByteLen(a) + ByteLen(b)
  {
    EncodeAppend(a, b);
  }

  lemma LenJumps(rel: u32)
    ensures ByteLen([Jmp(rel)]) == 5 && ByteLen([Je(rel)]) == 6
  {
    EncodeOne(Jmp(rel));
    EncodeOne(Je(rel));
  }

  lemma {:induction false} StmtLen(s: Stmt, locals: seq<Local>, at: nat, brk: Target, cnt: Target)
    requires brk.NoLoop? == cnt.NoLoop?
    ensures ByteLen(StmtCode(s, locals, at, brk, cnt)) == StmtSize(s, locals, !brk.NoLoop?)
    decreases s, 1
  {
    hide ByteLen, EncodeAll, Encode, ExprCode, JumpCode, ReturnCode;
    match s {
      case Empty => EncodeEmpty();
      case ExprStmt(e) =>
      case Block(ss) => BlockLen(ss, locals, at, brk, cnt);
      case If(c, t, e) => IfLen(c, t, e, locals, at, brk, cnt);
      case While(c, b) => LoopLen(Some(c), None, b, locals, at);
      case For(init, test, step, b) =>
        StmtLen(init, locals, at, brk, cnt);
        var p := at + StmtSize(init, locals, !brk.NoLoop?);
        LoopLen(test, step, b, locals, p);
        LenAppend(StmtCode(init, locals, at, brk, cnt), LoopCode(test, step, b, locals, p));
      case Break => JumpLen(at, brk);
      case Continue => JumpLen(at, cnt);
      case Return(r) =>
    }
  }

  lemma EncodeEmpty()
    ensures EncodeAll([]) == [] && ByteLen([]) == 0
  {
  }

  lemma {:induction false} IfLen(c: Expr, t: Stmt, e: Stmt, locals: seq<Local>, at: nat, brk: Target, cnt: Target)
    requires brk.NoLoop? == cnt.NoLoop?
    ensures ByteLen(IfCode(c, t, e, locals, at, brk, cnt))
         == IfSize(c, StmtSize(t, locals, !brk.NoLoop?), e.Empty?, StmtSize(e, locals, !brk.NoLoop?), locals)
    decreases If(c, t, e), 0
  {
    hide ByteLen, EncodeAll, Encode, ExprCode, TestCode, StmtCode, StmtSize;
    var test := TestCode(Some(c), locals);
    var p := at + ByteLen(test);
    var q := p + 6 + StmtSize(t, locals, !brk.NoLoop?);
    StmtLen(t, locals, p + 6, brk, cnt);
    var thn := StmtCode(t, locals, p + 6, brk, cnt);
    if e.Empty? {
      var je := Je(Rel(p + 2, q));
      LenJumps(je.rel);
      LenAppend(test, [je]);
      LenAppend(test + [je], thn);
    } else {
      StmtLen(e, locals, q + 5, brk, cnt);
      var els := StmtCode(e, locals, q + 5, brk, cnt);
      var je := Je(Rel(p + 2, q + 5));
      var jmp := Jmp(Rel(q + 1, q + 5 + StmtSize(e, locals, !brk.NoLoop?)));
      LenJumps(je.rel);
      LenJumps(jmp.rel);
      LenAppend(test, [je]);
      LenAppend(test + [je], thn);
      LenAppend(test + [je] + thn, [jmp]);
      LenAppend(test + [je] + thn + [jmp], els);
    }
  }

  lemma {:induction false} BlockLen(ss: seq<Stmt>, locals: seq<Local>, at: nat, brk: Target, cnt: Target)
    requires brk.NoLoop? == cnt.NoLoop?
    ensures ByteLen(BlockCode(ss, locals, at, brk, cnt)) == BlockSize(ss, locals, !brk.NoLoop?)
    decreases ss, 0
  {
    hide Encode;
    if ss != [] {
      var p := at + StmtSize(ss[0], locals, !brk.NoLoop?);
      StmtLen(ss[0], locals, at, brk, cnt);
      BlockLen(ss[1..], locals, p, brk, cnt);
      LenAppend(StmtCode(ss[0], locals, at, brk, cnt), BlockCode(ss[1..], locals, p, brk, cnt));
    }
  }

  lemma {:induction false} LoopLen(test: Option<Expr>, step: Option<Expr>, b: Stmt, locals: seq<Local>, at: nat)
    ensures ByteLen(LoopCode(test, step, b, locals, at))
         == LoopSize(test, step, StmtSize(b, locals, true), locals)
    decreases b, 2
  {
    hide ByteLen, EncodeAll, Encode, ExprCode, TestCode, StepCode, StmtCode, StmtSize;
    var m := MapLoop(test, step, b, locals, at);
    var tc, je := TestCode(test, locals), Je(Rel(m.je + 2, m.exit));
    var body := StmtCode(b, locals, m.body, To(m.exit), To(m.next));
    var sc, jmp := StepCode(step, locals), Jmp(Rel(m.jmp + 1, at));
    StmtLen(b, locals, m.body, To(m.exit), To(m.next));
    LenJumps(je.rel);
    LenJumps(jmp.rel);
    LenAppend(tc, [je]);
    LenAppend(tc + [je], body);
    LenAppend(tc + [je] + body, sc);
    LenAppend(tc + [je] + body + sc, [jmp]);
  }
}
