/** The fragment of x86-64 that the code generator emits: its byte encoding, a decoder that
    reads instructions back from raw bytes, and the machine that runs them. Memory is a map of
    aligned 64-bit words; anything outside the fragment makes the machine `Stuck`. */
module X86 {
  import opened Words
  import opened Wrappers

  datatype Reg = Rax | Rcx | Rdx | Rsi | Rdi | R8 | R9

  datatype Cond = E | NE | L | G | LE | GE

  datatype Instr =
    | PushRbp | PopRbp | MovRbpRsp | MovRspRbp | SubRsp(imm: u32) | Ret
    | Store(src: Reg, disp: u32)      // mov [rbp+disp32], src
    | LoadRax(disp: u32)              // mov rax, [rbp+disp32]
    | MovRaxImm(imm: u32) | XorRaxRax | MovRaxRdx
    | PushRax | PopRax | PopRcx
    | AddRaxRcx | SubRaxRcx | ImulRcx | Cqo | IdivRcx | NegRax
    | AndRaxRcx | OrRaxRcx
    | CmpRaxRcx | TestRaxRax | TestRcxRcx
    | SetAl(cc: Cond) | SetneCl | MovzxRaxAl
    | Jmp(rel: u32) | Je(rel: u32)

  function CondByte(cc: Cond): byte {
    match cc
    case E => 0x94 case NE => 0x95 case L => 0x9C case GE => 0x9D case LE => 0x9E case G => 0x9F
  }

  function StoreOpcode(r: Reg): (bs: seq<byte>)
    ensures |bs| == 3
  {
    match r
    case Rax => [0x48, 0x89, 0x85]
    case Rdi => [0x48, 0x89, 0xBD]
    case Rsi => [0x48, 0x89, 0xB5]
    case Rdx => [0x48, 0x89, 0x95]
    case Rcx => [0x48, 0x89, 0x8D]
    case R8 => [0x4C, 0x89, 0x85]
    case R9 => [0x4C, 0x89, 0x8D]
  }

  function Encode(i: Instr): (bs: seq<byte>)
    ensures 1 <= |bs| <= 7
  {
    match i
    case PushRbp => [0x55]
    case PopRbp => [0x5D]
    case MovRbpRsp => [0x48, 0x89, 0xE5]
    case MovRspRbp => [0x48, 0x89, 0xEC]
    case SubRsp(imm) => [0x48, 0x81, 0xEC] + LE32(imm)
    case Ret => [0xC3]
    case Store(r, disp) => StoreOpcode(r) + LE32(disp)
    case LoadRax(disp) => [0x48, 0x8B, 0x85] + LE32(disp)
    case MovRaxImm(imm) => [0x48, 0xC7, 0xC0] + LE32(imm)
    case XorRaxRax => [0x48, 0x31, 0xC0]
    case MovRaxRdx => [0x48, 0x89, 0xD0]
    case PushRax => [0x50]
    case PopRax => [0x58]
    case PopRcx => [0x59]
    case AddRaxRcx => [0x48, 0x01, 0xC8]
    case SubRaxRcx => [0x48, 0x29, 0xC8]
    case ImulRcx => [0x48, 0xF7, 0xE9]
    case Cqo => [0x48, 0x99]
    case IdivRcx => [0x48, 0xF7, 0xF9]
    case NegRax => [0x48, 0xF7, 0xD8]
    case AndRaxRcx => [0x48, 0x21, 0xC8]
    case OrRaxRcx => [0x48, 0x09, 0xC8]
    case CmpRaxRcx => [0x48, 0x39, 0xC8]
    case TestRaxRax => [0x48, 0x85, 0xC0]
    case TestRcxRcx => [0x48, 0x85, 0xC9]
    case SetAl(cc) => [0x0F, CondByte(cc), 0xC0]
    case SetneCl => [0x0F, 0x95, 0xC1]
    case MovzxRaxAl => [0x48, 0x0F, 0xB6, 0xC0]
    case Jmp(rel) => [0xE9] + LE32(rel)
    case Je(rel) => [0x0F, 0x84] + LE32(rel)
  }

  function Len(i: Instr): (n: nat) { |Encode(i)| }

  /** The byte at `p`, or -1 past either end of the code. */
  function At(code: seq<byte>, p: int): int {
    if 0 <= p < |code| then code[p] else -1
  }

  function Imm32(code: seq<byte>, p: int): Option<u32> {
    if 0 <= p && p + 4 <= |code|
    then Some(FromLE32(code[p], code[p + 1], code[p + 2], code[p + 3]))
    else None
  }

  function WithImm(imm: Option<u32>, make: u32 -> Instr): Option<Instr> {
    match imm case None => None case Some(x) => Some(make(x))
  }

  /** The instruction whose encoding starts at byte `p`. */
  function Decode(code: seq<byte>, p: int): Option<Instr> {
    var b := At(code, p);
    if b == 0x55 then Some(PushRbp)
    else if b == 0x5D then Some(PopRbp)
    else if b == 0xC3 then Some(Ret)
    else if b == 0x50 then Some(PushRax)
    else if b == 0x58 then Some(PopRax)
    else if b == 0x59 then Some(PopRcx)
    else if b == 0xE9 then WithImm(Imm32(code, p + 1), (x: u32) => Jmp(x))
    else if b == 0x0F then DecodeTwoByte(code, p)
    else if b == 0x4C then DecodeHighStore(code, p)
    else if b == 0x48 then DecodeWide(code, p)
    else None
  }

  function DecodeTwoByte(code: seq<byte>, p: int): Option<Instr> {
    var b, c := At(code, p + 1), At(code, p + 2);
    if b == 0x84 then WithImm(Imm32(code, p + 2), (x: u32) => Je(x))
    else if c == 0xC1 then (if b == 0x95 then Some(SetneCl) else None)
    else if c != 0xC0 then None
    else if b == 0x94 then Some(SetAl(E))
    else if b == 0x95 then Some(SetAl(NE))
    else if b == 0x9C then Some(SetAl(L))
    else if b == 0x9D then Some(SetAl(GE))
    else if b == 0x9E then Some(SetAl(LE))
    else if b == 0x9F then Some(SetAl(G))
    else None
  }

  function DecodeHighStore(code: seq<byte>, p: int): Option<Instr> {
    var b, c := At(code, p + 1), At(code, p + 2);
    if b != 0x89 then None
    else if c == 0x85 then WithImm(Imm32(code, p + 3), (x: u32) => Store(R8, x))
    else if c == 0x8D then WithImm(Imm32(code, p + 3), (x: u32) => Store(R9, x))
    else None
  }

  function DecodeWide(code: seq<byte>, p: int): Option<Instr> {
    var b, c := At(code, p + 1), At(code, p + 2);
    if b == 0x99 then Some(Cqo)
    else if b == 0x89 then DecodeMov(code, p, c)
    else if b == 0x81 && c == 0xEC then WithImm(Imm32(code, p + 3), (x: u32) => SubRsp(x))
    else if b == 0x8B && c == 0x85 then WithImm(Imm32(code, p + 3), (x: u32) => LoadRax(x))
    else if b == 0xC7 && c == 0xC0 then WithImm(Imm32(code, p + 3), (x: u32) => MovRaxImm(x))
    else if b == 0x31 && c == 0xC0 then Some(XorRaxRax)
    else if b == 0x01 && c == 0xC8 then Some(AddRaxRcx)
    else if b == 0x29 && c == 0xC8 then Some(SubRaxRcx)
    else if b == 0x21 && c == 0xC8 then Some(AndRaxRcx)
    else if b == 0x09 && c == 0xC8 then Some(OrRaxRcx)
    else if b == 0x39 && c == 0xC8 then Some(CmpRaxRcx)
    else if b == 0xF7 && c == 0xE9 then Some(ImulRcx)
    else if b == 0xF7 && c == 0xF9 then Some(IdivRcx)
    else if b == 0xF7 && c == 0xD8 then Some(NegRax)
    else if b == 0x85 && c == 0xC0 then Some(TestRaxRax)
    else if b == 0x85 && c == 0xC9 then Some(TestRcxRcx)
    else if b == 0x0F && c == 0xB6 && At(code, p + 3) == 0xC0 then Some(MovzxRaxAl)
    else None
  }

  function DecodeMov(code: seq<byte>, p: int, c: int): Option<Instr> {
    var imm := Imm32(code, p + 3);
    if c == 0xE5 then Some(MovRbpRsp)
    else if c == 0xEC then Some(MovRspRbp)
    else if c == 0xD0 then Some(MovRaxRdx)
    else if c == 0x85 then WithImm(imm, (x: u32) => Store(Rax, x))
    else if c == 0xBD then WithImm(imm, (x: u32) => Store(Rdi, x))
    else if c == 0xB5 then WithImm(imm, (x: u32) => Store(Rsi, x))
    else if c == 0x95 then WithImm(imm, (x: u32) => Store(Rdx, x))
    else if c == 0x8D then WithImm(imm, (x: u32) => Store(Rcx, x))
    else None
  }

  /** `bs` is what `code` holds from offset `p` on. */
  predicate Holds(code: seq<byte>, p: nat, bs: seq<byte>) {
    p + |bs| <= |code| && code[p..p + |bs|] == bs
  }

  lemma HoldsAt(code: seq<byte>, p: nat, bs: seq<byte>)
    requires Holds(code, p, bs)
    ensures |bs| > 0 ==> At(code, p) == bs[0]
    ensures |bs| > 1 ==> At(code, p + 1) == bs[1]
    ensures |bs| > 2 ==> At(code, p + 2) == bs[2]
    ensures |bs| > 3 ==> At(code, p + 3) == bs[3]
    ensures forall k :: 0 <= k < |bs| ==> code[p + k] == bs[k]
  {
    forall k | 0 <= k < |bs| ensures code[p + k] == bs[k] {
      assert code[p..p + |bs|][k] == code[p + k];
    }
  }

  lemma HoldsImm(code: seq<byte>, p: nat, opcode: seq<byte>, x: u32)
    requires Holds(code, p, opcode + LE32(x))
    ensures |opcode| > 0 ==> At(code, p) == opcode[0]
    ensures |opcode| > 1 ==> At(code, p + 1) == opcode[1]
    ensures |opcode| > 2 ==> At(code, p + 2) == opcode[2]
    ensures Imm32(code, p + |opcode|) == Some(x)
  {
    var bs := opcode + LE32(x);
    HoldsAt(code, p, bs);
    LE32RoundTrip(x);
    var q := p + |opcode|;
    forall k | 0 <= k < 4 ensures code[q + k] == LE32(x)[k] {
      assert bs[|opcode| + k] == LE32(x)[k];
      assert q + k == p + (|opcode| + k);
    }
    assert code[q] == code[q + 0];
  }

  /** Decoding inverts encoding, wherever the encoding sits in the code. */
  lemma DecodeEncode(code: seq<byte>, p: nat, i: Instr)
    requires Holds(code, p, Encode(i))
    ensures Decode(code, p) == Some(i)
  {
    if HasImm(i) { DecodeEncodeImm(code, p, i); } else { DecodeEncodePlain(code, p, i); }
  }

  predicate HasImm(i: Instr) {
    i.SubRsp? || i.Store? || i.LoadRax? || i.MovRaxImm? || i.Jmp? || i.Je?
  }

  lemma DecodeEncodeImm(code: seq<byte>, p: nat, i: Instr)
    requires Holds(code, p, Encode(i)) && HasImm(i)
    ensures Decode(code, p) == Some(i)
  {
    hide Decode;
    match i {
      case SubRsp(_) => DecodeRaxImm(code, p, i);
      case Store(r, disp) => DecodeStore(code, p, r, disp);
      case LoadRax(_) => DecodeRaxImm(code, p, i);
      case MovRaxImm(_) => DecodeRaxImm(code, p, i);
      case Jmp(_) => DecodeJump(code, p, i);
      case Je(_) => DecodeJump(code, p, i);
    }
  }

  lemma DecodeStore(code: seq<byte>, p: nat, r: Reg, disp: u32)
    requires Holds(code, p, Encode(Store(r, disp)))
    ensures Decode(code, p) == Some(Store(r, disp))
  {
    hide LE32, Imm32;
    HoldsImm(code, p, StoreOpcode(r), disp);
    hide Holds, At;
  }

  lemma DecodeJump(code: seq<byte>, p: nat, i: Instr)
    requires Holds(code, p, Encode(i)) && (i.Jmp? || i.Je?)
    ensures Decode(code, p) == Some(i)
  {
    hide LE32, Imm32;
    HoldsImm(code, p, if i.Jmp? then [0xE9] else [0x0F, 0x84], i.rel);
    hide Holds, At;
  }

  lemma DecodeRaxImm(code: seq<byte>, p: nat, i: Instr)
    requires Holds(code, p, Encode(i)) && (i.SubRsp? || i.LoadRax? || i.MovRaxImm?)
    ensures Decode(code, p) == Some(i)
  {
    hide LE32, Imm32;
    var opcode := if i.SubRsp? then [0x48, 0x81, 0xEC] else if i.LoadRax? then [0x48, 0x8B, 0x85]
      else [0x48, 0xC7, 0xC0];
    HoldsImm(code, p, opcode, if i.LoadRax? then i.disp else i.imm);
    hide Holds, At;
  }

  lemma DecodeEncodePlain(code: seq<byte>, p: nat, i: Instr)
    requires Holds(code, p, Encode(i)) && !HasImm(i)
    ensures Decode(code, p) == Some(i)
  {
    HoldsAt(code, p, Encode(i));
  }

  // ---- the machine ----

  /** Zero flag and "sign differs from overflow"; arithmetic leaves them `Unknown` here, and
      reading unknown flags is an error. */
  datatype Flags = Unknown | Flags(zf: bool, lt: bool)

  datatype State = State(
    rip: int,
    rax: u64, rcx: u64, rdx: u64, rsi: u64, rdi: u64, r8: u64, r9: u64,
    rbp: u64, rsp: u64,
    flags: Flags,
    mem: map<u64, u64>)

  datatype Outcome = Running(st: State) | DivideError | Stuck

  function Read(mem: map<u64, u64>, a: u64): u64 {
    if a in mem then mem[a] else 0
  }

  function RegVal(st: State, r: Reg): u64 {
    match r
    case Rax => st.rax case Rcx => st.rcx case Rdx => st.rdx case Rsi => st.rsi
    case Rdi => st.rdi case R8 => st.r8 case R9 => st.r9
  }

  predicate CondHolds(f: Flags, cc: Cond)
    requires f.Flags?
  {
    match cc
    case E => f.zf case NE => !f.zf case L => f.lt case GE => !f.lt
    case LE => f.zf || f.lt case G => !f.zf && !f.lt
  }

  function LowByte(x: u64, bit: bool): u64 {
    x - x % 256 + (if bit then 1 else 0)
  }

  /** Quotient of the hardware's signed division, which rounds toward zero. */
  function TruncDiv(a: int, b: int): int
    requires b != 0
  {
    if b > 0 then (if a >= 0 then a / b else -((-a) / b))
    else (if a >= 0 then -(a / (-b)) else (-a) / (-b))
  }

  function Slot(st: State, disp: u32): u64 { ToU64(st.rbp + SignExt32(disp)) }

  /** Effect of one instruction, apart from moving to the next one; jumps and `ret` are
      handled by `Step`. */
  function Effect(i: Instr, st: State): Outcome {
    match i
    case PushRbp => Push(st, st.rbp)
    case PushRax => Push(st, st.rax)
    case PopRbp => if st.rsp % 8 != 0 then Stuck else
      Running(st.(rbp := Read(st.mem, st.rsp), rsp := ToU64(st.rsp + 8)))
    case PopRax => if st.rsp % 8 != 0 then Stuck else
      Running(st.(rax := Read(st.mem, st.rsp), rsp := ToU64(st.rsp + 8)))
    case PopRcx => if st.rsp % 8 != 0 then Stuck else
      Running(st.(rcx := Read(st.mem, st.rsp), rsp := ToU64(st.rsp + 8)))
    case MovRbpRsp => Running(st.(rbp := st.rsp))
    case MovRspRbp => Running(st.(rsp := st.rbp))
    case SubRsp(imm) => Running(st.(rsp := ToU64(st.rsp - SignExt32(imm)), flags := Unknown))
    case Store(r, disp) => var a := Slot(st, disp);
      if a % 8 != 0 then Stuck else Running(st.(mem := st.mem[a := RegVal(st, r)]))
    case LoadRax(disp) => var a := Slot(st, disp);
      if a % 8 != 0 then Stuck else Running(st.(rax := Read(st.mem, a)))
    case MovRaxImm(imm) => Running(st.(rax := ToU64(SignExt32(imm))))
    case XorRaxRax => Running(st.(rax := 0, flags := Unknown))
    case MovRaxRdx => Running(st.(rax := st.rdx))
    case AddRaxRcx => Running(st.(rax := ToU64(st.rax + st.rcx), flags := Unknown))
    case SubRaxRcx => Running(st.(rax := ToU64(st.rax - st.rcx), flags := Unknown))
    case NegRax => Running(st.(rax := ToU64(0 - st.rax), flags := Unknown))
    case ImulRcx => var p := Signed(st.rax) * Signed(st.rcx);
      Running(st.(rax := ToU64(p), rdx := ToU64(p / TWO_64), flags := Unknown))
    case Cqo => Running(st.(rdx := if Signed(st.rax) < 0 then TWO_64 - 1 else 0))
    case IdivRcx => Idiv(st)
    case AndRaxRcx => Running(st.(rax := ToU64(BitAnd(st.rax, st.rcx)), flags := Unknown))
    case OrRaxRcx => Running(st.(rax := ToU64(BitOr(st.rax, st.rcx)), flags := Unknown))
    case CmpRaxRcx => Running(st.(flags := Flags(st.rax == st.rcx, Signed(st.rax) < Signed(st.rcx))))
    case TestRaxRax => Running(st.(flags := Flags(st.rax == 0, Signed(st.rax) < 0)))
    case TestRcxRcx => Running(st.(flags := Flags(st.rcx == 0, Signed(st.rcx) < 0)))
    case SetAl(cc) => if st.flags.Unknown? then Stuck else
      Running(st.(rax := LowByte(st.rax, CondHolds(st.flags, cc))))
    case SetneCl => if st.flags.Unknown? then Stuck else
      Running(st.(rcx := LowByte(st.rcx, !st.flags.zf)))
    case MovzxRaxAl => Running(st.(rax := st.rax % 256))
    case Ret | Jmp(_) | Je(_) => Running(st)
  }

  function Push(st: State, v: u64): Outcome {
    var a := ToU64(st.rsp - 8);
    if a % 8 != 0 then Stuck else Running(st.(rsp := a, mem := st.mem[a := v]))
  }

  /** `idiv rcx` divides the 128-bit `rdx:rax`, trapping on zero and on overflow. */
  function Idiv(st: State): Outcome {
    var n, d := Signed(st.rdx) * TWO_64 + st.rax, Signed(st.rcx);
    if d == 0 then DivideError else
    var q := TruncDiv(n, d);
    if q < -TWO_63 || q >= TWO_63 then DivideError
    else Running(st.(rax := ToU64(q), rdx := ToU64(n - q * d), flags := Unknown))
  }

  function Step(code: seq<byte>, st: State): Outcome {
    match Decode(code, st.rip)
    case None => Stuck
    case Some(i) =>
      var next := st.rip + Len(i);
      match i
      case Ret => if st.rsp % 8 != 0 then Stuck else
        Running(st.(rip := Read(st.mem, st.rsp), rsp := ToU64(st.rsp + 8)))
      case Jmp(rel) => Running(st.(rip := next + SignExt32(rel)))
      case Je(rel) => if st.flags.Unknown? then Stuck else
        Running(st.(rip := if st.flags.zf then next + SignExt32(rel) else next))
      case _ => match Effect(i, st)
        case Running(s) => Running(s.(rip := next))
        case other => other
  }

  /** The outcome after `n` steps; an error is final. */
  function Run(code: seq<byte>, st: State, n: nat): Outcome
    decreases n
  {
    if n == 0 then Running(st)
    else match Step(code, st)
      case Running(s) => Run(code, s, n - 1)
      case other => other
  }

  lemma {:induction false} RunAdd(code: seq<byte>, st: State, m: nat, n: nat)
    requires Run(code, st, m).Running?
    ensures Run(code, st, m + n) == Run(code, Run(code, st, m).st, n)
    decreases m
  {
    hide Step;
    if m > 0 { RunAdd(code, Step(code, st).st, m - 1, n); }
  }
}
