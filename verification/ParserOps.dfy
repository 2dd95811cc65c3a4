/** Which operator binds how, told by the tokens themselves: precedence, associativity, prefix operators and
    compound assignments. */
module ParserOps {
  import opened Wrappers
  import opened Parser
  import opened ParserProof

  /** The binary operators of C that the language has, the loosest group first. */
  const GROUPS: seq<set<Token>> :=
    [{Or}, {And}, {Eq, Neq}, {Lt, Gt, Le, Ge}, {Plus, Minus}, {Star, Slash, Percent}]

  lemma GroupLevel(t: Token, i: nat)
    requires i < 6 && t in GROUPS[i]
    ensures OpLevel(t) == i + 1
  {
  }

  /** No other token carries a chain of operators on. */
  lemma NoGroup(toks: seq<Token>, pos: nat, lv: nat, left: Expr)
    requires 1 <= lv <= 6 && pos <= |toks| && forall i :: 0 <= i < 6 ==> At(toks, pos) !in GROUPS[i]
    ensures Chain(toks, pos, lv, left) == Some((left, pos))
  {
    var t := At(toks, pos);
    assert t !in GROUPS[0] && t !in GROUPS[1] && t !in GROUPS[2] && t !in GROUPS[3] && t !in GROUPS[4] && t !in GROUPS[5];
    ChainStop(toks, pos, lv, left);
  }

  /** An operand: a prefix expression or tighter, anything else in parentheses. */
  function Operand(e: Expr): seq<Token> { Print(e, 7) }

  /** What a level accepts the looser ones accept too, if no operator of theirs follows. */
  lemma {:induction false} Lower(toks: seq<Token>, pos: nat, end: nat, e: Expr, high: nat, low: nat)
    requires 1 <= low <= high <= 7 && ParseLevel(toks, pos, high) == Some((e, end)) && Pull(At(toks, end)) < low
    ensures ParseLevel(toks, pos, low) == Some((e, end))
    decreases high
  {
    hide ParseLevel, Chain;
    if low < high {
      LevelStep(toks, pos, high - 1, e, end);
      ChainStop(toks, end, high - 1, e);
      Lower(toks, pos, end, e, high - 1, low);
    }
  }

  lemma Settle(e: Expr, toks: seq<Token>, pos: nat, end: nat, lv: nat)
    requires WellFormed(e) && 1 <= lv <= 7 && Spans(toks, pos, end, Operand(e)) && Pull(At(toks, end)) < lv
    ensures ParseLevel(toks, pos, lv) == Some((e, end))
  {
    hide ParseLevel, WellFormed, Print, Spans;
    RoundTrip(e, 7, toks, pos, end);
    Lower(toks, pos, end, e, 7, lv);
  }

  /** The first operand, its operator and a tighter right side. */
  lemma Applied(a: Expr, t: Token, r: Expr, toks: seq<Token>, pos: nat, m: nat, end: nat, lv: nat)
    requires WellFormed(a) && Spans(toks, pos, m, Operand(a)) && m < |toks| && At(toks, m) == t
    requires OpLevel(t) == lv && 1 <= lv <= 6 && ParseLevel(toks, m + 1, lv + 1) == Some((r, end))
    ensures ParseLevel(toks, pos, lv) == Chain(toks, end, lv, Binary(t, a, r))
  {
    hide ParseLevel, Chain, WellFormed, Print, Spans;
    Settle(a, toks, pos, m, lv + 1);
    LevelStep(toks, pos, lv, a, m);
    ChainStep(toks, m, lv, a, r, end);
  }

  lemma Whole(toks: seq<Token>, e: Expr, lv: nat)
    requires 1 <= lv <= 7 && ParseLevel(toks, 0, lv) == Some((e, |toks|))
    ensures ParseExpr(toks, 0) == Some((e, |toks|))
  {
    hide ParseLevel, ParseExpr;
    Lower(toks, 0, |toks|, e, lv, 1);
    AssignStop(toks, 0, e, |toks|);
  }

  lemma Pulls(toks: seq<Token>, t: Token)
    ensures OpLevel(t) > 0 ==> Pull(t) == OpLevel(t) <= 6
    ensures Pull(At(toks, |toks|)) == -1 && OpLevel(At(toks, |toks|)) == 0
  {
  }

  /** The right operator is tighter. */
  lemma RightFirst(a: Expr, t: Token, b: Expr, u: Token, c: Expr, toks: seq<Token>, m: nat, n: nat)
    requires WellFormed(a) && WellFormed(b) && WellFormed(c) && 1 <= OpLevel(t) < OpLevel(u) <= 6
    requires Spans(toks, 0, m, Operand(a)) && m < n < |toks| && At(toks, m) == t
    requires Spans(toks, m + 1, n, Operand(b)) && At(toks, n) == u && Spans(toks, n + 1, |toks|, Operand(c))
    ensures ParseLevel(toks, 0, OpLevel(t)) == Some((Binary(t, a, Binary(u, b, c)), |toks|))
  {
    hide ParseLevel, ParseExpr, Chain, WellFormed, Print, Spans, OpLevel, Pull;
    Pulls(toks, t);
    Pulls(toks, u);
    var lt, lu, end, inner := OpLevel(t), OpLevel(u), |toks|, Binary(u, b, c);
    Settle(c, toks, n + 1, end, lu + 1);
    Applied(b, u, c, toks, m + 1, n, end, lu);
    ChainStop(toks, end, lu, inner);
    Lower(toks, m + 1, end, inner, lu, lt + 1);
    Applied(a, t, inner, toks, 0, m, end, lt);
    ChainStop(toks, end, lt, Binary(t, a, inner));
  }

  /** It is not. */
  lemma LeftFirst(a: Expr, t: Token, b: Expr, u: Token, c: Expr, toks: seq<Token>, m: nat, n: nat)
    requires WellFormed(a) && WellFormed(b) && WellFormed(c) && 1 <= OpLevel(u) <= OpLevel(t) <= 6
    requires Spans(toks, 0, m, Operand(a)) && m < n < |toks| && At(toks, m) == t
    requires Spans(toks, m + 1, n, Operand(b)) && At(toks, n) == u && Spans(toks, n + 1, |toks|, Operand(c))
    ensures ParseLevel(toks, 0, OpLevel(u)) == Some((Binary(u, Binary(t, a, b), c), |toks|))
  {
    hide ParseLevel, ParseExpr, Chain, WellFormed, Print, Spans, OpLevel, Pull;
    Pulls(toks, t);
    Pulls(toks, u);
    var lt, lu, end, inner := OpLevel(t), OpLevel(u), |toks|, Binary(t, a, b);
    Settle(b, toks, m + 1, n, lt + 1);
    Applied(a, t, b, toks, 0, m, n, lt);
    if lu < lt {
      ChainStop(toks, n, lt, inner);
      Lower(toks, 0, n, inner, lt, lu + 1);
      LevelStep(toks, 0, lu, inner, n);
    }
    Settle(c, toks, n + 1, end, lu + 1);
    ChainStep(toks, n, lu, inner, c, end);
    ChainStop(toks, end, lu, Binary(u, inner, c));
  }

  /** Of two operators in a row the right one takes the middle operand if and only if it is in a tighter group. */
  lemma Precedence(a: Expr, t: Token, b: Expr, u: Token, c: Expr, i: nat, j: nat)
    requires WellFormed(a) && WellFormed(b) && WellFormed(c)
    requires i < 6 && t in GROUPS[i] && j < 6 && u in GROUPS[j]
    ensures var toks := Operand(a) + ([t] + (Operand(b) + ([u] + Operand(c))));
      ParseExpr(toks, 0) ==
      Some((if i < j then Binary(t, a, Binary(u, b, c)) else Binary(u, Binary(t, a, b), c), |toks|))
  {
    hide WellFormed, Print, ParseExpr, OpLevel, Spans;
    GroupLevel(t, i);
    GroupLevel(u, j);
    var toks := Operand(a) + ([t] + (Operand(b) + ([u] + Operand(c))));
    SpansAll(toks);
    var m := SpansThree(toks, 0, |toks|, Operand(a), t, Operand(b) + ([u] + Operand(c)));
    var n := SpansThree(toks, m + 1, |toks|, Operand(b), u, Operand(c));
    PrintSome(b, 7);
    SpansFirst(toks, m + 1, n, Operand(b));
    if i < j {
      RightFirst(a, t, b, u, c, toks, m, n);
      Whole(toks, Binary(t, a, Binary(u, b, c)), i + 1);
    } else {
      LeftFirst(a, t, b, u, c, toks, m, n);
      Whole(toks, Binary(u, Binary(t, a, b), c), j + 1);
    }
  }

  lemma SpansAll(toks: seq<Token>)
    ensures Spans(toks, 0, |toks|, toks)
  {
  }

  /** A literal or a name as it stands in the text. */
  predicate IsLeaf(t: Token) { t.Number? || t.Text? || t.Name? }

  function Leaf(t: Token): Expr
    requires IsLeaf(t)
  {
    match t case Number(v) => Num(v) case Text(s) => Str(s) case Name(id) => Ident(id)
  }

  lemma LeafText(t: Token)
    requires IsLeaf(t)
    ensures WellFormed(Leaf(t)) && Operand(Leaf(t)) == [t]
  {
    assert Raw(Leaf(t)) == [t];
  }

  /** Five tokens: a, t, b, u, c. */
  lemma Grouping(a: Token, t: Token, b: Token, u: Token, c: Token, i: nat, j: nat)
    requires IsLeaf(a) && IsLeaf(b) && IsLeaf(c) && i < 6 && t in GROUPS[i] && j < 6 && u in GROUPS[j]
    ensures ParseExpr([a, t, b, u, c], 0) ==
      Some((if i < j then Binary(t, Leaf(a), Binary(u, Leaf(b), Leaf(c)))
            else Binary(u, Binary(t, Leaf(a), Leaf(b)), Leaf(c)), 5))
  {
    hide ParseExpr;
    LeafText(a);
    LeafText(b);
    LeafText(c);
    Precedence(Leaf(a), t, Leaf(b), u, Leaf(c), i, j);
    assert [a] + ([t] + ([b] + ([u] + [c]))) == [a, t, b, u, c];
  }

  lemma PrefixText(op: Token, a: Expr)
    requires op in {Minus, Not, Amp, Star} && WellFormed(a)
    ensures WellFormed(Unary(op, a)) && Operand(Unary(op, a)) == [op] + Operand(a)
  {
    assert Raw(Unary(op, a)) == [op] + Operand(a);
  }

  /** The four prefix operators bind tighter than every binary operator, on either side of it. */
  lemma Prefixes(op: Token, a: Expr, t: Token, b: Expr, i: nat)
    requires op in {Minus, Not, Amp, Star} && WellFormed(a) && WellFormed(b) && i < 6 && t in GROUPS[i]
    ensures var toks := [op] + (Operand(a) + ([t] + Operand(b)));
      ParseExpr(toks, 0) == Some((Binary(t, Unary(op, a), b), |toks|))
    ensures var toks := Operand(b) + ([t] + ([op] + Operand(a)));
      ParseExpr(toks, 0) == Some((Binary(t, b, Unary(op, a)), |toks|))
  {
    PrefixText(op, a);
    hide WellFormed, Print, ParseExpr, OpLevel, Spans;
    GroupLevel(t, i);
    assert [op] + (Operand(a) + ([t] + Operand(b))) == Operand(Unary(op, a)) + ([t] + Operand(b));
    Two(Unary(op, a), t, b);
    Two(b, t, Unary(op, a));
  }

  lemma Two(a: Expr, t: Token, b: Expr)
    requires WellFormed(a) && WellFormed(b) && OpLevel(t) > 0
    ensures var toks := Operand(a) + ([t] + Operand(b)); ParseExpr(toks, 0) == Some((Binary(t, a, b), |toks|))
  {
    hide WellFormed, Print, ParseExpr, ParseLevel, Chain, Spans, OpLevel, Pull;
    var toks, lv := Operand(a) + ([t] + Operand(b)), OpLevel(t);
    Pulls(toks, t);
    SpansAll(toks);
    var m := SpansThree(toks, 0, |toks|, Operand(a), t, Operand(b));
    Settle(b, toks, m + 1, |toks|, lv + 1);
    Applied(a, t, b, toks, 0, m, |toks|, lv);
    ChainStop(toks, |toks|, lv, Binary(t, a, b));
    Whole(toks, Binary(t, a, b), lv);
  }

  /** No other token is a prefix operator: a text that starts with it is a suffix expression there. */
  lemma NoPrefix(toks: seq<Token>, pos: nat)
    requires At(toks, pos) !in {Minus, Not, Amp, Star}
    ensures ParseUnary(toks, pos) == ParsePostfix(toks, pos)
  {
  }

  /** An assignment with an operator is the assignment of the operator applied to target and value. The value is
      everything that follows. */
  lemma Compound(target: Expr, t: Token, value: Expr)
    requires WellFormed(target) && WellFormed(value) && t in {PlusEq, MinusEq, StarEq, SlashEq}
    ensures var toks := Print(target, 1) + ([t] + Print(value, 0));
      var op := if t == PlusEq then Plus else if t == MinusEq then Minus else if t == StarEq then Star else Slash;
      ParseExpr(toks, 0) == Some((Assign(target, Binary(op, target, value)), |toks|))
  {
    hide WellFormed, Print, ParseExpr, ParseLevel, Chain, Spans;
    var toks := Print(target, 1) + ([t] + Print(value, 0));
    SpansAll(toks);
    var m := SpansThree(toks, 0, |toks|, Print(target, 1), t, Print(value, 0));
    CompoundAt(toks, target, m, value);
  }

  lemma CompoundAt(toks: seq<Token>, target: Expr, m: nat, value: Expr)
    requires WellFormed(target) && WellFormed(value) && IsCompound(At(toks, m))
    requires Spans(toks, 0, m, Print(target, 1)) && Spans(toks, m + 1, |toks|, Print(value, 0))
    ensures ParseExpr(toks, 0) == Some((Assign(target, Binary(CompoundOp(At(toks, m)), target, value)), |toks|))
  {
    hide WellFormed, Print, ParseExpr, ParseLevel, Spans;
    RoundTrip(target, 1, toks, 0, m);
    RoundTrip(value, 0, toks, m + 1, |toks|);
    CompoundStep(toks, target, m, value);
  }

  lemma CompoundStep(toks: seq<Token>, left: Expr, p: nat, value: Expr)
    requires ParseLevel(toks, 0, 1) == Some((left, p)) && IsCompound(At(toks, p))
    requires ParseExpr(toks, p + 1) == Some((value, |toks|))
    ensures ParseExpr(toks, 0) == Some((Assign(left, Binary(CompoundOp(At(toks, p)), left, value)), |toks|))
  {
    hide ParseLevel;
  }
}
