/** A compiled function called with the System V register convention returns the value that the
    source semantics gives, traps when it traps and loops when it loops. */
module FuncProof {
  import opened Words
  import opened Wrappers
  import opened X86
  import opened MiniC
  import opened Assembly
  import opened ExprProof
  import opened StmtProof

  // ---- the parameter table ----

  // slots of the generator's table of locals
  const MAX_LOCALS := 256

  lemma {:induction false} FindLocalIs(locals: seq<Local>, x: string) returns (k: nat)
    requires FindLocal(locals, x) != -1
    ensures k < |locals| && locals[k].name == x && locals[k].offset == FindLocal(locals, x)
    decreases |locals|
  {
    if locals[0].name == x { k := 0; } else { k := FindLocalIs(locals[1..], x); k := k + 1; }
  }

  lemma {:induction false} FindLocalFinds(locals: seq<Local>, k: nat)
    requires k < |locals| && forall i :: 0 <= i < |locals| ==> locals[i].offset < -1
    ensures FindLocal(locals, locals[k].name) != -1
    decreases |locals|
  {
    if k > 0 && locals[0].name != locals[k].name { FindLocalFinds(locals[1..], k - 1); }
  }

  lemma ParamSlot(params: seq<string>, x: string) returns (k: nat)
    requires FindLocal(ParamLocals(params), x) != -1
    ensures k < |params| && params[|params| - 1 - k] == x && FindLocal(ParamLocals(params), x) == -8 * (k + 1)
  {
    k := FindLocalIs(ParamLocals(params), x);
  }

  /** The slot of parameter `i` of `n` is `rbp - 8 * (n - i)`; of two parameters of one name the last has the slot. */
  lemma SlotOf(params: seq<string>, i: nat)
    requires i < |params| && params[i] !in params[i + 1..]
    ensures FindLocal(ParamLocals(params), params[i]) == -8 * (|params| - i)
  {
    var locals := ParamLocals(params);
    assert locals[|params| - 1 - i].name == params[i];
    FindLocalFirst(locals, |params| - 1 - i);
  }

  lemma {:induction false} FindLocalFirst(locals: seq<Local>, k: nat)
    requires k < |locals| && forall j :: 0 <= j < k ==> locals[j].name != locals[k].name
    ensures FindLocal(locals, locals[k].name) == locals[k].offset
    decreases k
  {
    if k > 0 { FindLocalFirst(locals[1..], k - 1); }
  }

  lemma ParamsGood(params: seq<string>)
    requires |params| <= MAX_LOCALS
    ensures GoodLocals(ParamLocals(params))
    ensures forall x :: FindLocal(ParamLocals(params), x) != -1 <==> x in params
  {
    var locals := ParamLocals(params);
    forall x | FindLocal(locals, x) != -1
      ensures -8 * |locals| <= FindLocal(locals, x) <= -8 && FindLocal(locals, x) % 8 == 0 && x in params
    {
      var k := ParamSlot(params, x);
      hide FindLocal;
    }
    forall x, y | FindLocal(locals, x) == FindLocal(locals, y) != -1 ensures x == y {
      var k := ParamSlot(params, x);
      var j := ParamSlot(params, y);
      assert k == j;
      hide FindLocal;
    }
    forall x | x in params ensures FindLocal(locals, x) != -1 {
      var i :| 0 <= i < |params| && params[i] == x;
      assert locals[|params| - 1 - i].name == x;
      FindLocalFinds(locals, |params| - 1 - i);
      hide FindLocal;
    }
    hide FindLocal;
  }

  lemma {:induction false} ArgsKeys(params: seq<string>, args: seq<i64>)
    requires |params| == |args|
    ensures forall x :: x in Args(params, args) <==> x in params
  {
    if params != [] {
      var n := |params| - 1;
      ArgsKeys(params[..n], args[..n]);
      assert params == params[..n] + [params[n]];
    }
  }

  // ---- the prologue ----

  ghost predicate Saved(locals: seq<Local>, env: Env, rbp: u64, mem: map<u64, u64>)
    requires GoodLocals(locals) && 8 * |locals| <= rbp
  {
    forall x :: x in env ==> FindLocal(locals, x) != -1 && Read(mem, Addr(locals, rbp, x)) == ToU64(env[x])
  }

  ghost predicate OnlySlots(locals: seq<Local>, rbp: u64, m: map<u64, u64>, m': map<u64, u64>) {
    forall a: u64 :: !IsSlot(locals, rbp, a) ==> Read(m', a) == Read(m, a)
  }

  /** The first six arguments are in the registers of the System V AMD64 calling convention, in its order. */
  ghost predicate ArgsIn(st: State, args: seq<i64>) {
    && (|args| > 0 ==> st.rdi == ToU64(args[0]))
    && (|args| > 1 ==> st.rsi == ToU64(args[1]))
    && (|args| > 2 ==> st.rdx == ToU64(args[2]))
    && (|args| > 3 ==> st.rcx == ToU64(args[3]))
    && (|args| > 4 ==> st.r8 == ToU64(args[4]))
    && (|args| > 5 ==> st.r9 == ToU64(args[5]))
  }

  lemma ArgThere(st: State, args: seq<i64>, i: nat)
    requires ArgsIn(st, args) && i < |args| && i < 6
    ensures RegVal(st, ArgReg(i)) == ToU64(args[i])
  {
    hide ToU64;
  }

  /** Names among the first six parameters. */
  ghost function Passed(params: seq<string>, args: seq<i64>): Env
    requires |params| == |args|
  {
    Args(params[..Min(|params|, 6)], args[..Min(|params|, 6)])
  }

  /** No code stores an argument from the seventh on. Such a parameter is what an earlier one of its name is, or else
      the
      word that happens to lie in its slot. */
  ghost predicate Stale(params: seq<string>, args: seq<i64>, rbp: u64, mem: map<u64, u64>) {
    && |params| == |args|
    && forall i :: 6 <= i < |args| ==>
        ToU64(args[i]) ==
          if params[i] in Passed(params, args) then ToU64(Passed(params, args)[params[i]])
          else Read(mem, ToU64(rbp + FindLocal(ParamLocals(params), params[i])))
  }

  /** The slots of all other names are as before. */
  ghost predicate Untouched(locals: seq<Local>, names: seq<string>, rbp: u64, m: map<u64, u64>, m': map<u64, u64>)
    requires GoodLocals(locals) && 8 * |locals| <= rbp
  {
    forall x :: FindLocal(locals, x) != -1 && x !in names ==> Read(m', Addr(locals, rbp, x)) == Read(m, Addr(locals, rbp, x))
  }

  lemma SaveOne(x: string, v: i64, locals: seq<Local>, env: Env, rbp: u64, m0: map<u64, u64>, m: map<u64, u64>, a: u64)
    requires GoodLocals(locals) && 8 * |locals| <= rbp && Saved(locals, env, rbp, m) && OnlySlots(locals, rbp, m0, m)
    requires FindLocal(locals, x) != -1 && a == Addr(locals, rbp, x)
    ensures Saved(locals, env[x := v], rbp, m[a := ToU64(v)]) && OnlySlots(locals, rbp, m0, m[a := ToU64(v)])
    ensures forall names :: Untouched(locals, names, rbp, m0, m) ==>
      Untouched(locals, names + [x], rbp, m0, m[a := ToU64(v)])
  {
    hide ToU64, FindLocal, GoodLocals;
    var m', env' := m[a := ToU64(v)], env[x := v];
    assert IsSlot(locals, rbp, a);
    forall b: u64 ensures Read(m', b) == if b == a then ToU64(v) else Read(m, b) {
      ReadUpdate(m, a, ToU64(v), b);
    }
    hide Read;
    forall y | y in env' ensures FindLocal(locals, y) != -1 && Read(m', Addr(locals, rbp, y)) == ToU64(env'[y]) {
      SlotDistinct(locals, x, y);
    }
    forall names | Untouched(locals, names, rbp, m0, m) ensures Untouched(locals, names + [x], rbp, m0, m') {
      forall y | FindLocal(locals, y) != -1 && y !in names + [x]
        ensures Read(m', Addr(locals, rbp, y)) == Read(m0, Addr(locals, rbp, y))
      {
        assert y !in names && x in names + [x];
        SlotDistinct(locals, x, y);
      }
    }
  }

  lemma {:induction false} SaveRun(params: seq<string>, args: seq<i64>, n: nat, st: State)
    requires |params| == |args| <= MAX_LOCALS && n <= |params| && n <= 6
    requires ArgsIn(st, args) && st.rbp % 8 == 0 && 8 * |params| <= st.rbp && GoodLocals(ParamLocals(params))
    ensures var locals := ParamLocals(params);
      var o := RunSeq(SaveArgs(params, locals, n), st);
      && o.Running?
      && o.st == st.(mem := o.st.mem, rip := st.rip + ByteLen(SaveArgs(params, locals, n)))
      && Saved(locals, Args(params[..n], args[..n]), st.rbp, o.st.mem)
      && OnlySlots(locals, st.rbp, st.mem, o.st.mem) && Untouched(locals, params[..n], st.rbp, st.mem, o.st.mem)
    decreases n
  {
    hide RunSeq, EncodeAll, ByteLen, Encode, ToU64, ToU32, GoodLocals, FindLocal, Saved, OnlySlots, Untouched, ArgsIn,
      ArgReg;
    var locals := ParamLocals(params);
    if n == 0 {
      RunNone(st);
      EncodeEmpty();
      SavedNothing(locals, st.rbp, st.mem);
    } else {
      var before := SaveArgs(params, locals, n - 1);
      SaveRun(params, args, n - 1, st);
      var s := RunSeq(before, st).st;
      var x := params[n - 1];
      assert FindLocal(locals, x) != -1 by { ParamsGood(params); }
      var i := Store(ArgReg(n - 1), ToU32(FindLocal(locals, x)));
      RunSeqAppend(before, [i], st);
      ArgThere(st, args, n - 1);
      StoreRun(locals, s, x, ArgReg(n - 1));
      LenAppend(before, [i]);
      var env := Args(params[..n - 1], args[..n - 1]);
      SaveOne(x, args[n - 1], locals, env, st.rbp, st.mem, s.mem, Addr(locals, st.rbp, x));
      assert params[..n][..n - 1] == params[..n - 1] && args[..n][..n - 1] == args[..n - 1];
      assert params[..n] == params[..n - 1] + [x];
      assert Args(params[..n], args[..n]) == env[x := args[n - 1]];
    }
  }

  lemma StoreRun(locals: seq<Local>, s: State, x: string, r: Reg)
    requires GoodLocals(locals) && FindLocal(locals, x) != -1 && s.rbp % 8 == 0 && 8 * |locals| <= s.rbp
    ensures var i := Store(r, ToU32(FindLocal(locals, x)));
      RunSeq([i], s) ==
      Running(s.(mem := s.mem[Addr(locals, s.rbp, x) := RegVal(s, r)], rip := s.rip + ByteLen([i])))
  {
    hide RunSeq, EncodeAll, ByteLen, Encode, ToU64, ToU32, GoodLocals, FindLocal, RegVal;
    var i := Store(r, ToU32(FindLocal(locals, x)));
    SlotAddress(locals, s, x);
    RunOne(i, s);
    LenOf(i);
  }

  lemma SavedNothing(locals: seq<Local>, rbp: u64, m: map<u64, u64>)
    requires GoodLocals(locals) && 8 * |locals| <= rbp
    ensures Saved(locals, Args([], []), rbp, m) && OnlySlots(locals, rbp, m, m) && Untouched(locals, [], rbp, m, m)
  {
  }

  /** With the words that lie in the other slots, all parameters have their values. */
  lemma {:induction false} SavedAll(params: seq<string>, args: seq<i64>, k: nat, rbp: u64, m: map<u64, u64>,
                                    m': map<u64, u64>)
    requires |params| == |args| <= MAX_LOCALS && Min(|params|, 6) <= k <= |params|
    requires GoodLocals(ParamLocals(params)) && |ParamLocals(params)| == |params| && 8 * |params| <= rbp
    requires Stale(params, args, rbp, m)
    requires Saved(ParamLocals(params), Passed(params, args), rbp, m')
    requires Untouched(ParamLocals(params), params[..Min(|params|, 6)], rbp, m, m')
    ensures Saved(ParamLocals(params), Args(params[..k], args[..k]), rbp, m')
    decreases k
  {
    hide GoodLocals, FindLocal, Read, ParamLocals, Args, Saved, Stale, Untouched, ToU64;
    if k > 6 {
      SavedAll(params, args, k - 1, rbp, m, m');
      SlotHolds(params, args, k - 1, rbp, m, m');
      ArgsNext(params, args, k - 1);
      SavedNext(ParamLocals(params), Args(params[..k - 1], args[..k - 1]), params[k - 1], args[k - 1], rbp, m');
    }
  }

  lemma ArgsNext(params: seq<string>, args: seq<i64>, k: nat)
    requires |params| == |args| && k < |params|
    ensures Args(params[..k + 1], args[..k + 1]) == Args(params[..k], args[..k])[params[k] := args[k]]
  {
    assert params[..k + 1][..k] == params[..k] && args[..k + 1][..k] == args[..k];
  }

  lemma SavedNext(locals: seq<Local>, env: Env, x: string, v: i64, rbp: u64, m: map<u64, u64>)
    requires GoodLocals(locals) && 8 * |locals| <= rbp && Saved(locals, env, rbp, m)
    requires FindLocal(locals, x) != -1 && Read(m, Addr(locals, rbp, x)) == ToU64(v)
    ensures Saved(locals, env[x := v], rbp, m)
  {
    hide GoodLocals, FindLocal, Read, ToU64;
  }

  lemma SlotHolds(params: seq<string>, args: seq<i64>, i: nat, rbp: u64, m: map<u64, u64>, m': map<u64, u64>)
    requires |params| == |args| <= MAX_LOCALS && 6 <= i < |params|
    requires GoodLocals(ParamLocals(params)) && |ParamLocals(params)| == |params| && 8 * |params| <= rbp
    requires Stale(params, args, rbp, m)
    requires Saved(ParamLocals(params), Passed(params, args), rbp, m')
    requires Untouched(ParamLocals(params), params[..6], rbp, m, m')
    ensures var locals := ParamLocals(params);
      FindLocal(locals, params[i]) != -1 && Read(m', Addr(locals, rbp, params[i])) == ToU64(args[i])
  {
    hide GoodLocals, FindLocal, Read, ParamLocals, Args, ToU64;
    var x, locals := params[i], ParamLocals(params);
    ParamsGood(params);
    ArgsKeys(params[..6], args[..6]);
    SlotDistinct(locals, x, x);
    SmallWord(rbp + FindLocal(locals, x));
    if x in params[..6] { assert x in Passed(params, args); }
  }

  lemma {:induction false} SaveStraight(params: seq<string>, locals: seq<Local>, n: nat)
    requires n <= |params| && n <= 6
    ensures forall i :: i in SaveArgs(params, locals, n) ==> Straight(i)
  {
    if n > 0 { SaveStraight(params, locals, n - 1); }
  }

  /** The stack and registers a caller sets up, and what it finds in the slots of parameters from the seventh on. */
  ghost predicate CallReady(f: Func, args: seq<i64>, st: State) {
    && |f.params| == |args| <= MAX_LOCALS
    && ArgsIn(st, args)
    && st.rsp % 8 == 0
    && 8 + 8 * |args| + BlockNeed(f.body) <= st.rsp
    && Stale(f.params, args, st.rsp - 8, st.mem)
  }

  /** After `push rbp; mov rbp, rsp`. */
  function Entered(st: State): State
    requires st.rsp >= 8
  {
    st.(rsp := st.rsp - 8, rbp := st.rsp - 8, mem := st.mem[st.rsp - 8 := st.rbp],
        rip := st.rip + Len(PushRbp) + Len(MovRbpRsp))
  }

  lemma EnterRun(st: State)
    requires st.rsp >= 8 && st.rsp % 8 == 0
    ensures RunSeq([PushRbp, MovRbpRsp], st) == Running(Entered(st))
    ensures ByteLen([PushRbp, MovRbpRsp]) == Len(PushRbp) + Len(MovRbpRsp)
  {
    hide RunSeq, EncodeAll, ByteLen, Encode, ToU64;
    SmallWord(st.rsp - 8);
    assert [PushRbp, MovRbpRsp] == [PushRbp] + [MovRbpRsp];
    RunCons(PushRbp, [MovRbpRsp], st);
    EncodeTail(PushRbp, [MovRbpRsp]);
    RunOne(MovRbpRsp, Next(PushRbp, st).st);
    LenOf(MovRbpRsp);
  }

  function ReserveCode(params: seq<string>): seq<Instr> {
    if params == [] then [] else [SubRsp(ToU32(8 * |params|))]
  }

  lemma ReserveRun(params: seq<string>, st: State)
    requires |params| <= MAX_LOCALS && 8 * |params| <= st.rsp
    ensures var o := RunSeq(ReserveCode(params), st);
      && o.Running?
      && o.st == st.(rsp := st.rsp - 8 * |params|, flags := o.st.flags, rip := st.rip + ByteLen(ReserveCode(params)))
  {
    hide RunSeq, EncodeAll, ByteLen, Encode, ToU64;
    if params == [] {
      RunNone(st);
      EncodeEmpty();
    } else {
      var i := SubRsp(ToU32(8 * |params|));
      SmallWord(st.rsp - 8 * |params|);
      RunOne(i, st);
      LenOf(i);
    }
  }

  lemma PrologueCorrect(f: Func, args: seq<i64>, st: State)
    requires CallReady(f, args, st)
    ensures var o := RunSeq(PrologueCode(f.params), st);
      && o.Running?
      && o.st.rip == st.rip + ByteLen(PrologueCode(f.params))
      && o.st.rbp == st.rsp - 8
      && o.st.rsp == st.rsp - 8 - 8 * |args|
      && Ready(ParamLocals(f.params), Args(f.params, args), o.st)
      && Read(o.st.mem, st.rsp - 8) == st.rbp
      && forall a: u64 :: a >= st.rsp ==> Read(o.st.mem, a) == Read(st.mem, a)
  {
    hide RunSeq, EncodeAll, ByteLen, Encode, ToU64, ToU32, GoodLocals, FindLocal, BlockNeed, SaveArgs, ParamLocals,
      Stale, Untouched;
    var ps, locals := f.params, ParamLocals(f.params);
    assert |locals| == |ps| by { ParamCount(ps); }
    ParamsGood(ps);
    var n := Min(|ps|, 6);
    var enter, save, reserve := [PushRbp, MovRbpRsp], SaveArgs(ps, locals, n), ReserveCode(ps);
    var s1 := Entered(st);
    EnterRun(st);
    SaveRun(ps, args, n, s1);
    assert ps[..|ps|] == ps && args[..|ps|] == args;
    var s2 := RunSeq(save, s1).st;
    StaleEntered(ps, args, st);
    SavedAll(ps, args, |ps|, s1.rbp, s1.mem, s2.mem);
    ReserveRun(ps, s2);
    assert PrologueCode(ps) == enter + (save + reserve);
    RunSeqAppend(enter, save + reserve, st);
    RunSeqAppend(save, reserve, s1);
    LenAppend(enter, save + reserve);
    LenAppend(save, reserve);
    ArgsKeys(ps, args);
    SlotsBelow(locals, s1.rbp);
  }

  /** Saving rbp does not touch the slots. */
  lemma StaleEntered(params: seq<string>, args: seq<i64>, st: State)
    requires |params| <= MAX_LOCALS && 8 + 8 * |params| <= st.rsp && Stale(params, args, st.rsp - 8, st.mem)
    ensures Stale(params, args, st.rsp - 8, Entered(st).mem)
  {
    hide ParamLocals, Read, FindLocal, GoodLocals, Passed, ToU64;
    ParamsGood(params);
    ParamCount(params);
    var locals, m' := ParamLocals(params), Entered(st).mem;
    forall i | 6 <= i < |args|
      ensures Read(m', ToU64(st.rsp - 8 + FindLocal(locals, params[i]))) ==
        Read(st.mem, ToU64(st.rsp - 8 + FindLocal(locals, params[i])))
    {
      SlotDistinct(locals, params[i], params[i]);
      SmallWord(st.rsp - 8 + FindLocal(locals, params[i]));
      ReadUpdate(st.mem, st.rsp - 8, st.rbp, ToU64(st.rsp - 8 + FindLocal(locals, params[i])));
    }
  }

  lemma ParamCount(params: seq<string>)
    ensures |ParamLocals(params)| == |params|
  {
  }

  lemma SlotsBelow(locals: seq<Local>, rbp: u64)
    requires GoodLocals(locals)
    ensures forall a: u64 :: a >= rbp ==> !IsSlot(locals, rbp, a)
  {
  }

  lemma PrologueStraight(params: seq<string>)
    ensures forall i :: i in PrologueCode(params) ==> Straight(i)
  {
    SaveStraight(params, ParamLocals(params), Min(|params|, 6));
    hide SaveArgs, ParamLocals;
  }

  // ---- the whole function ----

  /** What a caller sees when `n` steps of the callee match the source result `r`. */
  ghost predicate CallDone(o: Outcome, r: Result, f: Func, st: State, size: nat)
    requires GoodLocals(ParamLocals(f.params)) && 8 + 8 * |f.params| <= st.rsp
  {
    match r
    case Returned(v, env) =>
      && o.Running?
      && o.st.rax == ToU64(v)
      && o.st.rip == Read(st.mem, st.rsp)
      && o.st.rsp == ToU64(st.rsp + 8)
      && o.st.rbp == st.rbp
      && SlotsHold(ParamLocals(f.params), env, st.rsp - 8, o.st.mem)
      && forall a: u64 :: a >= st.rsp ==> Read(o.st.mem, a) == Read(st.mem, a)
    case Trapped => o == DivideError
    case Timeout => o.Running? && st.rip <= o.st.rip < st.rip + size && o.st.rbp == st.rsp - 8
    case _ => false
  }

  lemma FuncParts(f: Func, code: seq<byte>, at: nat)
    requires Holds(code, at, EncodeAll(FuncCode(f, at)))
    ensures var p := at + ByteLen(PrologueCode(f.params));
      var q := p + BlockSize(f.body, ParamLocals(f.params), false);
      && Holds(code, at, EncodeAll(PrologueCode(f.params)))
      && Holds(code, p, EncodeAll(BlockCode(f.body, ParamLocals(f.params), p, NoLoop, NoLoop)))
      && Holds(code, q, EncodeAll(ReturnCode(None, ParamLocals(f.params))))
      && q + ByteLen(ReturnCode(None, ParamLocals(f.params))) == at + ByteLen(FuncCode(f, at))
  {
    hide EncodeAll, ByteLen, Encode, BlockCode, BlockSize, PrologueCode, ParamLocals, EpilogueCode;
    var ps, locals := f.params, ParamLocals(f.params);
    var p := at + ByteLen(PrologueCode(ps));
    var body, ret := BlockCode(f.body, locals, p, NoLoop, NoLoop), ReturnCode(None, locals);
    BlockLen(f.body, locals, p, NoLoop, NoLoop);
    assert FuncCode(f, at) == PrologueCode(ps) + (body + ret);
    HoldsParts(code, at, PrologueCode(ps), body + ret);
    HoldsParts(code, p, body, ret);
    LenAppend(PrologueCode(ps), body + ret);
    LenAppend(body, ret);
  }

  /** Body and final `return 0`, once the frame is set up. */
  lemma BodySim(f: Func, code: seq<byte>, at: nat, env: Env, st: State, fuel: nat) returns (n: nat)
    requires |code| < LIMIT && Holds(code, at, EncodeAll(FuncCode(f, at)))
    requires st.rip == at + ByteLen(PrologueCode(f.params))
    requires Ready(ParamLocals(f.params), env, st) && BlockNeed(f.body) <= st.rsp
    ensures var r := match ExecAll(f.body, env, false, fuel) case Normal(e) => Returned(0, e) case other => other;
      && Simulates(code, st, n, r, ParamLocals(f.params), at, at + ByteLen(FuncCode(f, at)), NoLoop, NoLoop)
      && (r.Timeout? ==> n >= fuel)
  {
    hide Run, EncodeAll, ByteLen, Encode, BlockCode, BlockSize, BlockNeed, PrologueCode, ParamLocals, ExecAll,
      GoodLocals, SlotsHold, FuncCode, ReturnCode;
    var locals := ParamLocals(f.params);
    FuncParts(f, code, at);
    n := BlockSim(f.body, code, locals, env, st, NoLoop, NoLoop, fuel);
    var r := ExecAll(f.body, env, false, fuel);
    if r.Normal? {
      var s := Run(code, st, n).st;
      var m := ReturnRun(None, code, locals, r.env, s, NoLoop, NoLoop);
      Chain(code, st, n, r.env, m, Returned(0, r.env), locals, at, at + ByteLen(FuncCode(f, at)),
            s.rip, s.rip + ByteLen(ReturnCode(None, locals)), NoLoop, NoLoop);
      n := n + m;
    }
  }

  /** Compilation preserves the meaning of every function. */
  lemma FuncCorrect(f: Func, args: seq<i64>, code: seq<byte>, st: State, fuel: nat) returns (n: nat)
    requires 0 <= st.rip && |code| < LIMIT && Holds(code, st.rip, EncodeAll(FuncCode(f, st.rip)))
    requires CallReady(f, args, st)
    ensures GoodLocals(ParamLocals(f.params))
    ensures CallDone(Run(code, st, n), Call(f, args, fuel), f, st, ByteLen(FuncCode(f, st.rip)))
    ensures Call(f, args, fuel).Timeout? ==> n >= fuel
  {
    hide Run, RunSeq, EncodeAll, ByteLen, Encode, BlockCode, BlockNeed, PrologueCode, ParamLocals, ExecAll,
      GoodLocals, SlotsHold, FuncCode, Read, ToU64;
    var locals := ParamLocals(f.params);
    assert |locals| == |f.params| by { ParamCount(f.params); }
    ParamsGood(f.params);
    FuncParts(f, code, st.rip);
    PrologueCorrect(f, args, st);
    PrologueStraight(f.params);
    RunStraight(code, st, PrologueCode(f.params));
    var k := |PrologueCode(f.params)|;
    var s := Run(code, st, k).st;
    var m := BodySim(f, code, st.rip, Args(f.params, args), s, fuel);
    RunAdd(code, st, k, m);
    n := k + m;
    SlotsBelow(locals, s.rbp);
  }

  /** A function of seven parameters that returns the last. */
  const SEVEN := Func(["a", "b", "c", "d", "e", "f", "g"], [Return(Some(Var("g")))])

  /** Whatever its caller passed, it returns the word that lies in the slot. */
  lemma SeventhIsStale(args: seq<i64>, st: State)
    requires CallReady(SEVEN, args, st)
    ensures var r := Call(SEVEN, args, 1); r.Returned? && r.v == Signed(Read(st.mem, st.rsp - 16))
  {
    var ps := SEVEN.params;
    assert FindLocal(ParamLocals(ps), "g") == -8;
    ArgsKeys(ps[..6], args[..6]);
    ArgsNext(ps, args, 6);
    assert ps[..7] == ps && args[..7] == args;
    SmallWord(st.rsp - 16);
    SignedWord(args[6]);
    assert Call(SEVEN, args, 1).v == Args(ps, args)["g"] by {
      assert SEVEN.body[1..] == [];
    }
  }

  /** A source function that never ends keeps the machine inside its code for ever. */
  lemma FuncDiverges(f: Func, args: seq<i64>, code: seq<byte>, st: State, k: nat) returns (n: nat)
    requires 0 <= st.rip && |code| < LIMIT && Holds(code, st.rip, EncodeAll(FuncCode(f, st.rip)))
    requires CallReady(f, args, st)
    requires forall fuel: nat :: Call(f, args, fuel) == Timeout
    ensures n >= k && Run(code, st, n).Running?
    ensures st.rip <= Run(code, st, n).st.rip < st.rip + ByteLen(FuncCode(f, st.rip))
    ensures Run(code, st, n).st.rbp == st.rsp - 8
  {
    hide Run, EncodeAll, ByteLen, FuncCode, Call;
    n := FuncCorrect(f, args, code, st, k);
  }
}
