/** The printed text of an expression is the shortest one: no pair of its parentheses can go. */
module ParserMin {
  import opened Wrappers
  import opened Parser
  import opened ParserProof

  /** No compound assignment from `pos` to `end`; it is the one shorthand of the grammar. */
  ghost predicate Plain(toks: seq<Token>, pos: nat, end: nat) {
    forall i :: pos <= i < end && i < |toks| ==> !IsCompound(toks[i])
  }

  lemma Wider(e: Expr, lv: nat, lv2: nat)
    requires lv <= lv2
    ensures |Print(e, lv)| <= |Print(e, lv2)| <= |Print(e, 0)| + 2
  {
  }

  lemma {:induction false} MinExpr(toks: seq<Token>, pos: nat, e: Expr, end: nat)
    requires ParseExpr(toks, pos) == Some((e, end)) && Plain(toks, pos, end)
    ensures end - pos >= |Print(e, 0)|
    decreases |toks| - pos, 20
  {
    hide ParseLevel, Print;
    var r := ParseLevel(toks, pos, 1);
    var left, p := r.value.0, r.value.1;
    MinLevel(toks, pos, 1, left, p);
    Wider(left, 0, 1);
    if At(toks, p) == AssignTok {
      var s := ParseExpr(toks, p + 1);
      MinExpr(toks, p + 1, s.value.0, s.value.1);
      AssignWidth(left, s.value.0);
    }
  }

  lemma AssignWidth(l: Expr, r: Expr)
    ensures |Print(Assign(l, r), 0)| == |Print(l, 1)| + 1 + |Print(r, 0)|
  {
  }

  lemma BinaryWidth(op: Token, l: Expr, r: Expr)
    requires OpLevel(op) > 0
    ensures |Print(Binary(op, l, r), OpLevel(op))| == |Print(l, OpLevel(op))| + 1 + |Print(r, OpLevel(op) + 1)|
  {
  }

  lemma UnaryWidth(op: Token, e: Expr)
    ensures |Print(Unary(op, e), 7)| == 1 + |Print(e, 7)|
  {
  }

  lemma IndexWidth(b: Expr, i: Expr)
    ensures |Print(Index(b, i), 8)| == |Print(b, 8)| + 2 + |Print(i, 0)|
  {
  }

  lemma MemberWidth(b: Expr, f: string, arrow: bool)
    ensures |Print(Member(b, f, arrow), 8)| == |Print(b, 8)| + 2
  {
  }

  lemma CallWidth(f: string, args: seq<Expr>)
    ensures |Print(Call(f, args), 8)| == |PrintArgs(args)| + 3
  {
  }

  lemma {:induction false} MinLevel(toks: seq<Token>, pos: nat, lv: nat, e: Expr, end: nat)
    requires 1 <= lv <= 7 && ParseLevel(toks, pos, lv) == Some((e, end)) && Plain(toks, pos, end)
    ensures end - pos >= |Print(e, lv)|
    decreases |toks| - pos, 17 - lv
  {
    hide Chain, Print, ParseUnary;
    if lv == 7 {
      MinUnary(toks, pos, e, end);
    } else {
      var r := ParseLevel(toks, pos, lv + 1);
      var left, p := r.value.0, r.value.1;
      ChainOn(toks, p, lv, left);
      MinLevel(toks, pos, lv + 1, left, p);
      Wider(left, lv, lv + 1);
      MinChain(toks, p, lv, left, p - pos, e, end);
    }
  }

  lemma ChainOn(toks: seq<Token>, pos: nat, lv: nat, left: Expr)
    requires 1 <= lv <= 6 && pos <= |toks| && Chain(toks, pos, lv, left).Some?
    ensures pos <= Chain(toks, pos, lv, left).value.1
  {
  }

  /** The rest of a chain, after a left part of width `w`. */
  lemma {:induction false} MinChain(toks: seq<Token>, pos: nat, lv: nat, left: Expr, w: nat, e: Expr, end: nat)
    requires 1 <= lv <= 6 && pos <= |toks| && Chain(toks, pos, lv, left) == Some((e, end)) && Plain(toks, pos, end)
    requires w >= |Print(left, lv)|
    ensures w + (end - pos) >= |Print(e, lv)|
    decreases |toks| - pos, 18
  {
    hide ParseLevel, Print;
    if OpLevel(At(toks, pos)) == lv {
      var r := ParseLevel(toks, pos + 1, lv + 1);
      var right, p := r.value.0, r.value.1;
      ChainOn(toks, p, lv, Binary(At(toks, pos), left, right));
      MinLevel(toks, pos + 1, lv + 1, right, p);
      BinaryWidth(At(toks, pos), left, right);
      MinChain(toks, p, lv, Binary(At(toks, pos), left, right), w + (p - pos), e, end);
    }
  }

  lemma {:induction false} MinUnary(toks: seq<Token>, pos: nat, e: Expr, end: nat)
    requires ParseUnary(toks, pos) == Some((e, end)) && Plain(toks, pos, end)
    ensures end - pos >= |Print(e, 7)|
    decreases |toks| - pos, 9
  {
    hide ParsePostfix, Print;
    if IsPrefix(At(toks, pos)) {
      var r := ParseUnary(toks, pos + 1);
      MinUnary(toks, pos + 1, r.value.0, r.value.1);
      UnaryWidth(At(toks, pos), r.value.0);
    } else {
      MinPostfix(toks, pos, e, end);
      Wider(e, 7, 8);
    }
  }

  lemma {:induction false} MinPostfix(toks: seq<Token>, pos: nat, e: Expr, end: nat)
    requires ParsePostfix(toks, pos) == Some((e, end)) && Plain(toks, pos, end)
    ensures end - pos >= |Print(e, 8)|
    decreases |toks| - pos, 8
  {
    hide ParsePrimary, Suffixes, Print;
    var r := ParsePrimary(toks, pos);
    SuffixesOn(toks, r.value.1, r.value.0);
    MinPrimary(toks, pos, r.value.0, r.value.1);
    MinSuffixes(toks, r.value.1, r.value.0, r.value.1 - pos, e, end);
  }

  lemma SuffixesOn(toks: seq<Token>, pos: nat, e: Expr)
    requires pos <= |toks| && Suffixes(toks, pos, e).Some?
    ensures pos <= Suffixes(toks, pos, e).value.1
  {
  }

  /** The suffixes behind a base of width `w`. */
  lemma {:induction false} MinSuffixes(toks: seq<Token>, pos: nat, base: Expr, w: nat, e: Expr, end: nat)
    requires pos <= |toks| && Suffixes(toks, pos, base) == Some((e, end)) && Plain(toks, pos, end)
    requires w >= |Print(base, 8)|
    ensures w + (end - pos) >= |Print(e, 8)|
    decreases |toks| - pos, 7
  {
    hide ParseExpr, Print;
    match At(toks, pos) {
      case LBracket =>
        var r := ParseExpr(toks, pos + 1);
        var i, p := r.value.0, r.value.1;
        SuffixesOn(toks, p + 1, Index(base, i));
        MinExpr(toks, pos + 1, i, p);
        IndexWidth(base, i);
        MinSuffixes(toks, p + 1, Index(base, i), w + (p + 1 - pos), e, end);
      case Dot =>
        MemberWidth(base, toks[pos + 1].id, false);
        MinSuffixes(toks, pos + 2, Member(base, toks[pos + 1].id, false), w + 2, e, end);
      case Arrow =>
        MemberWidth(base, toks[pos + 1].id, true);
        MinSuffixes(toks, pos + 2, Member(base, toks[pos + 1].id, true), w + 2, e, end);
      case _ =>
    }
  }

  lemma {:induction false} MinPrimary(toks: seq<Token>, pos: nat, e: Expr, end: nat)
    requires ParsePrimary(toks, pos) == Some((e, end)) && Plain(toks, pos, end)
    ensures end - pos >= |Print(e, 8)|
    decreases |toks| - pos, 6
  {
    hide ParseExpr, ParseArgs, Print;
    match At(toks, pos) {
      case Name(id) =>
        if At(toks, pos + 1) == LParen {
          if At(toks, pos + 2) != RParen {
            var r := ParseArgs(toks, pos + 2);
            MinArgs(toks, pos + 2, r.value.0, r.value.1);
          } else {
            NoArgs();
          }
          CallWidth(id, e.args);
        } else {
          LeafWidth(e);
        }
      case LParen =>
        MinExpr(toks, pos + 1, e, end - 1);
        Wider(e, 0, 8);
      case Number(v) => LeafWidth(e);
      case Text(s) => LeafWidth(e);
      case _ =>
    }
  }

  lemma NoArgs()
    ensures |PrintArgs([])| == 0
  {
  }

  lemma LeafWidth(e: Expr)
    requires e.Num? || e.Str? || e.Ident?
    ensures |Print(e, 8)| == 1
  {
  }

  lemma {:induction false} MinArgs(toks: seq<Token>, pos: nat, args: seq<Expr>, end: nat)
    requires ParseArgs(toks, pos) == Some((args, end)) && Plain(toks, pos, end)
    ensures end - pos >= |PrintArgs(args)|
    decreases |toks| - pos, 21
  {
    hide ParseExpr, Print;
    var r := ParseExpr(toks, pos);
    var e, p := r.value.0, r.value.1;
    if At(toks, p) == Comma {
      var s := ParseArgs(toks, p + 1);
      MinExpr(toks, pos, e, p);
      MinArgs(toks, p + 1, s.value.0, s.value.1);
      assert args == [e] + s.value.0 && args[1..] == s.value.0;
      ArgsWidth(args);
    } else {
      MinExpr(toks, pos, e, p);
      ArgsWidth(args);
    }
  }

  lemma ArgsWidth(args: seq<Expr>)
    requires args != []
    ensures |PrintArgs(args)| <= |Print(args[0], 0)| + 1 + |PrintArgs(args[1..])|
    ensures |args| == 1 ==> |PrintArgs(args)| == |Print(args[0], 0)|
  {
  }

  ghost predicate NoCompound(s: seq<Token>) { forall t :: t in s ==> !IsCompound(t) }

  lemma Join(a: seq<Token>, b: seq<Token>)
    requires NoCompound(a) && NoCompound(b)
    ensures NoCompound(a + b)
  {
  }

  /** The printed text has no compound assignment. */
  lemma {:induction false} PrintPlain(e: Expr, lv: nat)
    requires WellFormed(e)
    ensures NoCompound(Print(e, lv))
    decreases e, 1
  {
    RawPlain(e);
    hide Raw, NoCompound;
    if Prec(e) < lv {
      One(LParen);
      One(RParen);
      Join([LParen], Raw(e));
      Join([LParen] + Raw(e), [RParen]);
    }
  }

  lemma One(t: Token)
    requires !IsCompound(t)
    ensures NoCompound([t])
  {
  }

  lemma {:induction false} RawPlain(e: Expr)
    requires WellFormed(e)
    ensures NoCompound(Raw(e))
    decreases e, 0
  {
    Parts(e);
    hide Print, PrintArgs, NoCompound, WellFormed;
    match e {
      case Num(v) => One(Number(v));
      case Str(s) => One(Text(s));
      case Ident(id) => One(Name(id));
      case Index(b, i) =>
        PrintPlain(b, 8);
        PrintPlain(i, 0);
        One(LBracket);
        One(RBracket);
        Join(Print(b, 8), [LBracket]);
        Join(Print(b, 8) + [LBracket], Print(i, 0));
        Join(Print(b, 8) + [LBracket] + Print(i, 0), [RBracket]);
      case Member(b, f, a) =>
        PrintPlain(b, 8);
        One(if a then Arrow else Dot);
        One(Name(f));
        Join([if a then Arrow else Dot], [Name(f)]);
        Join(Print(b, 8), [if a then Arrow else Dot, Name(f)]);
      case Unary(op, x) =>
        PrintPlain(x, 7);
        One(op);
        Join([op], Print(x, 7));
      case Binary(op, l, r) =>
        PrintPlain(l, OpLevel(op));
        PrintPlain(r, OpLevel(op) + 1);
        One(op);
        Join(Print(l, OpLevel(op)), [op]);
        Join(Print(l, OpLevel(op)) + [op], Print(r, OpLevel(op) + 1));
      case Assign(l, r) =>
        PrintPlain(l, 1);
        PrintPlain(r, 0);
        One(AssignTok);
        Join(Print(l, 1), [AssignTok]);
        Join(Print(l, 1) + [AssignTok], Print(r, 0));
      case Call(f, args) =>
        ArgsPlain(args);
        One(Name(f));
        One(LParen);
        One(RParen);
        Join([Name(f)], [LParen]);
        Join([Name(f), LParen], PrintArgs(args));
        Join([Name(f), LParen] + PrintArgs(args), [RParen]);
    }
  }

  lemma {:induction false} ArgsPlain(args: seq<Expr>)
    requires forall i :: 0 <= i < |args| ==> WellFormed(args[i])
    ensures NoCompound(PrintArgs(args))
    decreases args, 2
  {
    hide Print, WellFormed;
    if args != [] {
      PrintPlain(args[0], 0);
      if |args| > 1 {
        ArgsPlain(args[1..]);
        One(Comma);
        Join(Print(args[0], 0), [Comma]);
        Join(Print(args[0], 0) + [Comma], PrintArgs(args[1..]));
      }
    }
  }

  /** Among the texts without compound assignments that parse to `e`, the printed one is shortest. */
  lemma Shortest(toks: seq<Token>, e: Expr)
    requires ParseExpr(toks, 0) == Some((e, |toks|)) && Plain(toks, 0, |toks|)
    ensures |toks| >= |Print(e, 0)|
  {
    MinExpr(toks, 0, e, |toks|);
  }

  /** The text without the tokens at `i` and `j`. */
  function Drop(toks: seq<Token>, i: nat, j: nat): (r: seq<Token>)
    requires i < j < |toks|
    ensures |r| == |toks| - 2
  {
    toks[..i] + toks[i + 1..j] + toks[j + 1..]
  }

  /** Dropping any two tokens of the printed text, such as a pair of parentheses, changes what it parses to. */
  lemma NoneToSpare(e: Expr, i: nat, j: nat)
    requires WellFormed(e) && i < j < |Print(e, 0)|
    ensures var less := Drop(Print(e, 0), i, j); ParseExpr(less, 0) != Some((e, |less|))
  {
    var toks := Print(e, 0);
    var less := Drop(toks, i, j);
    PrintPlain(e, 0);
    forall x | 0 <= x < |less| ensures !IsCompound(less[x]) { assert less[x] in toks; }
    if ParseExpr(less, 0) == Some((e, |less|)) { Shortest(less, e); }
  }
}
