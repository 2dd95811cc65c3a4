/** Filling in the rel32 fields of jumps whose target was not known when they were emitted. */
module Backpatch {
  import opened Words
  import opened Wrappers
  import opened X86
  import opened MiniC
  import opened Assembly

  function Patch(code: seq<byte>, from: nat, to: nat): (r: seq<byte>)
    requires from + 4 <= |code|
    ensures |r| == |code|
  {
    code[..from] + LE32(Rel(from, to)) + code[from + 4..]
  }

  predicate InCode(holes: seq<nat>, n: nat) { forall i :: 0 <= i < |holes| ==> holes[i] + 4 <= n }

  function PatchAll(code: seq<byte>, holes: seq<nat>, to: nat): (r: seq<byte>)
    requires InCode(holes, |code|)
    ensures |r| == |code|
    decreases |holes|
  {
    if holes == [] then code else PatchAll(Patch(code, holes[0], to), holes[1..], to)
  }

  lemma {:induction false} PatchAllAppend(code: seq<byte>, a: seq<nat>, b: seq<nat>, to: nat)
    requires InCode(a, |code|) && InCode(b, |code|)
    ensures InCode(a + b, |code|)
    ensures PatchAll(code, a + b, to) == PatchAll(PatchAll(code, a, to), b, to)
    decreases |a|
  {
    hide Patch;
    if a == [] {
      assert a + b == b;
    } else {
      assert (a + b)[1..] == a[1..] + b;
      PatchAllAppend(Patch(code, a[0], to), a[1..], b, to);
    }
  }

  datatype Kind = Brk | Cnt

  /** Positions of the rel32 fields that `break` (or `continue`) of the enclosing loop left open. */
  function Holes(k: Kind, s: Stmt, locals: seq<Local>, at: nat): seq<nat>
    decreases s, 1
  {
    match s
    case Empty | ExprStmt(_) | Return(_) | While(_, _) => []
    case Block(ss) => BlockHoles(k, ss, locals, at)
    case If(c, t, e) =>
      var p := at + ByteLen(TestCode(Some(c), locals)) + 6;
      Holes(k, t, locals, p) + Holes(k, e, locals, p + StmtSize(t, locals, true) + 5)
    case For(init, _, _, _) => Holes(k, init, locals, at)
    case Break => if k.Brk? then [at + 1] else []
    case Continue => if k.Cnt? then [at + 1] else []
  }

  function BlockHoles(k: Kind, ss: seq<Stmt>, locals: seq<Local>, at: nat): seq<nat>
    decreases ss, 0
  {
    if ss == [] then []
    else Holes(k, ss[0], locals, at) + BlockHoles(k, ss[1..], locals, at + StmtSize(ss[0], locals, true))
  }

  /** The break and continue targets when one kind is `t` and the other is `other`. */
  function BrkOf(k: Kind, t: Target, other: Target): Target { if k.Brk? then t else other }

  function CntOf(k: Kind, t: Target, other: Target): Target { if k.Brk? then other else t }

  function Bytes(k: Kind, s: Stmt, locals: seq<Local>, at: nat, t: Target, other: Target): seq<byte> {
    EncodeAll(StmtCode(s, locals, at, BrkOf(k, t, other), CntOf(k, t, other)))
  }

  function BlockBytes(k: Kind, ss: seq<Stmt>, locals: seq<Local>, at: nat, t: Target, other: Target): seq<byte> {
    EncodeAll(BlockCode(ss, locals, at, BrkOf(k, t, other), CntOf(k, t, other)))
  }

  lemma PatchMiddle(pre: seq<byte>, mid: seq<byte>, post: seq<byte>, from: nat, to: nat)
    requires |pre| <= from && from + 4 <= |pre| + |mid|
    ensures Patch(pre + mid + post, from, to)
         == pre + (mid[..from - |pre|] + LE32(Rel(from, to)) + mid[from + 4 - |pre|..]) + post
  {
    hide LE32, Rel;
    var all := pre + mid + post;
    assert all[..from] == pre + mid[..from - |pre|];
    assert all[from + 4..] == mid[from + 4 - |pre|..] + post;
  }

  /** Patching the field of a jump emitted with a zero displacement. */
  lemma PatchJump(pre: seq<byte>, post: seq<byte>, je: bool, to: nat)
    ensures var op := if je then Je(0) else Jmp(0);
      var at := |pre| + (if je then 2 else 1);
      Patch(pre + Encode(op) + post, at, to)
      == pre + Encode(if je then Je(Rel(at, to)) else Jmp(Rel(at, to))) + post
  {
    hide Patch, Rel;
    var op := if je then Je(0) else Jmp(0);
    var at := |pre| + (if je then 2 else 1);
    PatchMiddle(pre, Encode(op), post, at, to);
    hide LE32;
    var mid := Encode(op);
    assert mid[..at - |pre|] == if je then [0x0F, 0x84] else [0xE9];
    assert mid[at + 4 - |pre|..] == [];
  }

  /** Patching the holes of one kind turns them all into jumps to `to`. */
  lemma {:induction false} Fill(k: Kind, s: Stmt, locals: seq<Local>, at: nat, other: Target, to: nat,
                                pre: seq<byte>, post: seq<byte>)
    requires |pre| == at && !other.NoLoop?
    ensures InCode(Holes(k, s, locals, at), |pre + Bytes(k, s, locals, at, Hole, other) + post|)
    ensures PatchAll(pre + Bytes(k, s, locals, at, Hole, other) + post, Holes(k, s, locals, at), to)
         == pre + Bytes(k, s, locals, at, To(to), other) + post
    decreases s, 1
  {
    hide EncodeAll, Encode, ExprCode, LE32, Patch, Rel, ReturnCode, LoopCode;
    match s {
      case Empty | ExprStmt(_) | Return(_) | While(_, _) =>
        assert Bytes(k, s, locals, at, Hole, other) == Bytes(k, s, locals, at, To(to), other);
      case Block(ss) => FillBlock(k, ss, locals, at, other, to, pre, post);
      case If(c, t, e) => FillIf(k, c, t, e, locals, at, other, to, pre, post);
      case For(init, test, step, b) =>
        Fill(k, init, locals, at, other, to, pre,
             EncodeAll(LoopCode(test, step, b, locals, at + StmtSize(init, locals, true))) + post);
        FillFor(k, init, test, step, b, locals, at, Hole, other, pre, post);
        FillFor(k, init, test, step, b, locals, at, To(to), other, pre, post);
      case Break => if k.Brk? { FillJump(at, to, pre, post); }
      case Continue => if k.Cnt? { FillJump(at, to, pre, post); }
    }
  }

  lemma FillJump(at: nat, to: nat, pre: seq<byte>, post: seq<byte>)
    requires |pre| == at
    ensures at + 1 + 4 <= |pre + EncodeAll(JumpCode(at, Hole)) + post|
    ensures PatchAll(pre + EncodeAll(JumpCode(at, Hole)) + post, [at + 1], to) ==
      pre + EncodeAll(JumpCode(at, To(to))) + post
  {
    EncodeOne(Jmp(0));
    EncodeOne(Jmp(Rel(at + 1, to)));
    PatchJump(pre, post, false, to);
    hide Encode, EncodeAll, Patch, Rel;
    var all := pre + EncodeAll(JumpCode(at, Hole)) + post;
    assert [at + 1][1..] == [];
    assert PatchAll(all, [at + 1], to) == Patch(all, at + 1, to);
  }

  lemma FillFor(k: Kind, init: Stmt, test: Option<Expr>, step: Option<Expr>, b: Stmt, locals: seq<Local>, at: nat,
                t: Target, other: Target, pre: seq<byte>, post: seq<byte>)
    requires !other.NoLoop? && !t.NoLoop?
    ensures pre + Bytes(k, For(init, test, step, b), locals, at, t, other) + post
         == pre + Bytes(k, init, locals, at, t, other)
            + (EncodeAll(LoopCode(test, step, b, locals, at + StmtSize(init, locals, true))) + post)
  {
    hide EncodeAll, LoopCode;
    EncodeAppend(StmtCode(init, locals, at, BrkOf(k, t, other), CntOf(k, t, other)),
                 LoopCode(test, step, b, locals, at + StmtSize(init, locals, true)));
  }

  /** Condition and conditional jump of an `if`. */
  function IfHead(c: Expr, t: Stmt, e: Stmt, locals: seq<Local>, at: nat): seq<byte> {
    var p := at + ByteLen(TestCode(Some(c), locals));
    var q := p + 6 + StmtSize(t, locals, true);
    EncodeAll(TestCode(Some(c), locals) + [Je(Rel(p + 2, if e.Empty? then q else q + 5))])
  }

  /** The jump over the `else` part. */
  function IfMiddle(e: Stmt, locals: seq<Local>, q: nat): seq<byte> {
    if e.Empty? then [] else EncodeAll([Jmp(Rel(q + 1, q + 5 + StmtSize(e, locals, true)))])
  }

  lemma IfSplit(k: Kind, c: Expr, t: Stmt, e: Stmt, locals: seq<Local>, at: nat, tg: Target, other: Target)
    requires !tg.NoLoop? && !other.NoLoop?
    ensures var p := at + ByteLen(TestCode(Some(c), locals)) + 6;
      var q := p + StmtSize(t, locals, true);
      && Bytes(k, If(c, t, e), locals, at, tg, other)
         == IfHead(c, t, e, locals, at) + Bytes(k, t, locals, p, tg, other) + IfMiddle(e, locals, q)
            + Bytes(k, e, locals, q + 5, tg, other)
      && |IfHead(c, t, e, locals, at)| == p - at
      && |Bytes(k, t, locals, p, tg, other)| == q - p
      && (!e.Empty? ==> |IfMiddle(e, locals, q)| == 5)
      && (e.Empty? ==> Bytes(k, e, locals, q + 5, tg, other) == [])
  {
    hide EncodeAll, Encode, TestCode, StmtSize, Rel, LoopCode, ReturnCode, BlockCode, JumpCode, ExprCode;
    var brk, cnt := BrkOf(k, tg, other), CntOf(k, tg, other);
    var test := TestCode(Some(c), locals);
    var p := at + ByteLen(test) + 6;
    var q := p + StmtSize(t, locals, true);
    var thn, els := StmtCode(t, locals, p, brk, cnt), StmtCode(e, locals, q + 5, brk, cnt);
    StmtLen(t, locals, p, brk, cnt);
    var je := [Je(Rel(p - 6 + 2, if e.Empty? then q else q + 5))];
    LenJumps(je[0].rel);
    LenAppend(test, je);
    EncodeAppend(test + je, thn);
    if e.Empty? {
      EncodeEmpty();
      assert els == [] && StmtCode(If(c, t, e), locals, at, brk, cnt) == test + je + thn;
      assert IfHead(c, t, e, locals, at) == EncodeAll(test + je);
      var all := EncodeAll(test + je) + EncodeAll(thn);
      assert all + [] + [] == all;
    } else {
      var jmp := [Jmp(Rel(q + 1, q + 5 + StmtSize(e, locals, true)))];
      LenJumps(jmp[0].rel);
      EncodeAppend(test + je + thn, jmp);
      EncodeAppend(test + je + thn + jmp, els);
    }
  }

  lemma {:induction false} FillIf(k: Kind, c: Expr, t: Stmt, e: Stmt, locals: seq<Local>, at: nat, other: Target,
                                  to: nat,
                                  pre: seq<byte>, post: seq<byte>)
    requires |pre| == at && !other.NoLoop?
    ensures var s := If(c, t, e);
      && InCode(Holes(k, s, locals, at), |pre + Bytes(k, s, locals, at, Hole, other) + post|)
      && PatchAll(pre + Bytes(k, s, locals, at, Hole, other) + post, Holes(k, s, locals, at), to)
         == pre + Bytes(k, s, locals, at, To(to), other) + post
    decreases If(c, t, e), 0
  {
    hide EncodeAll, StmtCode, StmtSize, Patch, TestCode, IfHead, IfMiddle, Bytes, InCode;
    var p := at + ByteLen(TestCode(Some(c), locals)) + 6;
    var q := p + StmtSize(t, locals, true);
    IfSplit(k, c, t, e, locals, at, Hole, other);
    IfSplit(k, c, t, e, locals, at, To(to), other);
    var head, mid := IfHead(c, t, e, locals, at), IfMiddle(e, locals, q);
    var a, a' := Bytes(k, t, locals, p, Hole, other), Bytes(k, t, locals, p, To(to), other);
    var b, b' := Bytes(k, e, locals, q + 5, Hole, other), Bytes(k, e, locals, q + 5, To(to), other);
    var all := pre + (head + a + mid + b) + post;
    Regroup(pre, head, a, mid, b, post);
    Regroup(pre, head, a', mid, b, post);
    Regroup(pre, head, a', mid, b', post);
    Fill(k, t, locals, p, other, to, pre + head, mid + b + post);
    FillElse(k, e, locals, q, other, to, pre + head + a' + mid, b, b', post, pre + (head + a' + mid + b) + post);
    PatchAllAppend(all, Holes(k, t, locals, p), Holes(k, e, locals, q + 5), to);
  }

  lemma Regroup(pre: seq<byte>, a: seq<byte>, b: seq<byte>, c: seq<byte>, d: seq<byte>, post: seq<byte>)
    ensures pre + (a + b + c + d) + post == (pre + a) + b + (c + d + post)
    ensures pre + (a + b + c + d) + post == pre + a + b + c + d + post
  {
  }

  lemma {:induction false} FillElse(k: Kind, e: Stmt, locals: seq<Local>, q: nat, other: Target, to: nat,
      pre: seq<byte>, b: seq<byte>, b': seq<byte>, post: seq<byte>, all: seq<byte>)
    requires !other.NoLoop?
    requires b == Bytes(k, e, locals, q + 5, Hole, other) && b' == Bytes(k, e, locals, q + 5, To(to), other)
    requires all == pre + b + post && (!e.Empty? ==> |pre| == q + 5) && (e.Empty? ==> b == [] && b' == [])
    ensures InCode(Holes(k, e, locals, q + 5), |all|)
    ensures PatchAll(all, Holes(k, e, locals, q + 5), to) == pre + b' + post
    decreases e, 2
  {
    hide EncodeAll, StmtCode, Patch, Bytes;
    if e.Empty? {
      assert Holes(k, e, locals, q + 5) == [];
    } else {
      Fill(k, e, locals, q + 5, other, to, pre, post);
    }
  }

  lemma {:induction false} FillBlock(k: Kind, ss: seq<Stmt>, locals: seq<Local>, at: nat, other: Target, to: nat,
                                     pre: seq<byte>, post: seq<byte>)
    requires |pre| == at && !other.NoLoop?
    ensures InCode(BlockHoles(k, ss, locals, at), |pre + BlockBytes(k, ss, locals, at, Hole, other) + post|)
    ensures PatchAll(pre + BlockBytes(k, ss, locals, at, Hole, other) + post, BlockHoles(k, ss, locals, at), to)
         == pre + BlockBytes(k, ss, locals, at, To(to), other) + post
    decreases ss, 0
  {
    hide EncodeAll, Holes, StmtCode, StmtSize, Patch, Bytes, PatchAll;
    if ss == [] {
      PatchNone(pre + BlockBytes(k, ss, locals, at, Hole, other) + post, to);
    } else {
      hide InCode, BlockBytes;
      var p := at + StmtSize(ss[0], locals, true);
      BlockSplit(k, ss, locals, at, Hole, other);
      BlockSplit(k, ss, locals, at, To(to), other);
      var a, a' := Bytes(k, ss[0], locals, at, Hole, other), Bytes(k, ss[0], locals, at, To(to), other);
      var b, b' := BlockBytes(k, ss[1..], locals, p, Hole, other), BlockBytes(k, ss[1..], locals, p, To(to), other);
      Fill(k, ss[0], locals, at, other, to, pre, b + post);
      FillBlock(k, ss[1..], locals, p, other, to, pre + a', post);
      var all := pre + (a + b) + post;
      assert all == pre + a + (b + post);
      assert pre + a' + (b + post) == pre + a' + b + post;
      assert pre + (a' + b') + post == pre + a' + b' + post;
      PatchAllAppend(all, Holes(k, ss[0], locals, at), BlockHoles(k, ss[1..], locals, p), to);
    }
  }

  lemma PatchNone(code: seq<byte>, to: nat)
    ensures InCode([], |code|) && PatchAll(code, [], to) == code
  {
  }

  lemma BlockSplit(k: Kind, ss: seq<Stmt>, locals: seq<Local>, at: nat, t: Target, other: Target)
    requires ss != [] && !t.NoLoop? && !other.NoLoop?
    ensures var p := at + StmtSize(ss[0], locals, true);
      && BlockBytes(k, ss, locals, at, t, other)
         == Bytes(k, ss[0], locals, at, t, other) + BlockBytes(k, ss[1..], locals, p, t, other)
      && |Bytes(k, ss[0], locals, at, t, other)| == StmtSize(ss[0], locals, true)
  {
    hide EncodeAll, StmtCode, StmtSize;
    var brk, cnt := BrkOf(k, t, other), CntOf(k, t, other);
    StmtLen(ss[0], locals, at, brk, cnt);
    EncodeAppend(StmtCode(ss[0], locals, at, brk, cnt),
                 BlockCode(ss[1..], locals, at + StmtSize(ss[0], locals, true), brk, cnt));
  }
}
