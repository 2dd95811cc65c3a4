/** Parsing undoes printing. */
module ParserProof {
  import opened Wrappers
  import opened Parser

  /** The tokens from `pos` to `end` are `s`. */
  ghost predicate Spans(toks: seq<Token>, pos: nat, end: nat, s: seq<Token>) {
    pos <= end <= |toks| && toks[pos..end] == s
  }

  lemma SpansSplit(toks: seq<Token>, pos: nat, end: nat, a: seq<Token>, b: seq<Token>) returns (m: nat)
    requires Spans(toks, pos, end, a + b)
    ensures m == pos + |a| && pos <= m <= end <= |toks| && Spans(toks, pos, m, a) && Spans(toks, m, end, b)
  {
    m := pos + |a|;
    assert toks[pos..m] == (a + b)[..|a|];
    assert toks[m..end] == (a + b)[|a|..];
  }

  lemma SpansOne(toks: seq<Token>, pos: nat, end: nat, t: Token)
    requires Spans(toks, pos, end, [t])
    ensures At(toks, pos) == t && end == pos + 1 <= |toks|
  {
    assert toks[pos] == toks[pos..end][0];
  }

  lemma SpansFirst(toks: seq<Token>, pos: nat, end: nat, s: seq<Token>)
    requires Spans(toks, pos, end, s) && s != []
    ensures At(toks, pos) == s[0] && pos < end <= |toks|
  {
    assert toks[pos] == toks[pos..end][0];
  }

  /** `a`, a token and `b`. */
  lemma SpansThree(toks: seq<Token>, pos: nat, end: nat, a: seq<Token>, t: Token, b: seq<Token>) returns (m: nat)
    requires Spans(toks, pos, end, a + ([t] + b))
    ensures pos <= m < end <= |toks| && Spans(toks, pos, m, a) && At(toks, m) == t && Spans(toks, m + 1, end, b)
  {
    m := SpansSplit(toks, pos, end, a, [t] + b);
    var n := SpansSplit(toks, m, end, [t], b);
    SpansOne(toks, m, n, t);
  }

  /** The tightest place in which a token carries an expression on; -1 when it carries none on. */
  function Pull(t: Token): int {
    if t == AssignTok || IsCompound(t) then 0
    else if OpLevel(t) > 0 then OpLevel(t)
    else if t == LBracket || t == Dot || t == Arrow then 8
    else if t == LParen then 9
    else -1
  }

  /** The function of the cascade for a level. */
  function ParseAt(toks: seq<Token>, pos: nat, lv: nat): Result
    requires lv <= 8
  {
    if lv == 0 then ParseExpr(toks, pos) else if lv <= 7 then ParseLevel(toks, pos, lv) else ParsePostfix(toks, pos)
  }

  lemma PrintSome(e: Expr, lv: nat)
    ensures |Print(e, lv)| > 0
  {
  }

  /** Printing for the next tighter place is the same unless the expression has just this strength. */
  lemma PrintUp(e: Expr, lv: nat)
    requires Prec(e) != lv
    ensures Print(e, lv) == Print(e, lv + 1)
  {
  }

  /** In a suffix place the text does not start with a prefix operator. */
  lemma {:induction false} FirstToken(e: Expr)
    requires WellFormed(e)
    ensures Print(e, 8) != [] && !IsPrefix(Print(e, 8)[0])
  {
    match e {
      case Index(b, i) => FirstToken(b);
      case Member(b, f, a) => FirstToken(b);
      case _ =>
    }
  }

  lemma Parts(e: Expr)
    requires WellFormed(e)
    ensures e.Index? ==> WellFormed(e.base) && WellFormed(e.at)
    ensures e.Member? ==> WellFormed(e.base)
    ensures e.Binary? ==> WellFormed(e.left) && WellFormed(e.right) && OpLevel(e.op) > 0
    ensures e.Unary? ==> WellFormed(e.e) && IsPrefix(e.op)
    ensures e.Assign? ==> WellFormed(e.target) && WellFormed(e.source)
    ensures e.Call? ==> forall i :: 0 <= i < |e.args| ==> WellFormed(e.args[i])
  {
  }

  // ---- one step of each function ----

  lemma LevelStep(toks: seq<Token>, pos: nat, lv: nat, left: Expr, p: nat)
    requires 1 <= lv <= 6 && ParseLevel(toks, pos, lv + 1) == Some((left, p))
    ensures ParseLevel(toks, pos, lv) == Chain(toks, p, lv, left)
  {
  }

  lemma ChainStep(toks: seq<Token>, pos: nat, lv: nat, left: Expr, right: Expr, p: nat)
    requires 1 <= lv <= 6 && pos < |toks| && OpLevel(At(toks, pos)) == lv
    requires ParseLevel(toks, pos + 1, lv + 1) == Some((right, p))
    ensures Chain(toks, pos, lv, left) == Chain(toks, p, lv, Binary(At(toks, pos), left, right))
  {
    hide ParseLevel;
  }

  lemma ChainStop(toks: seq<Token>, pos: nat, lv: nat, left: Expr)
    requires 1 <= lv <= 6 && pos <= |toks| && OpLevel(At(toks, pos)) != lv
    ensures Chain(toks, pos, lv, left) == Some((left, pos))
  {
  }

  lemma SuffixStop(toks: seq<Token>, pos: nat, e: Expr)
    requires pos <= |toks| && Pull(At(toks, pos)) < 8
    ensures Suffixes(toks, pos, e) == Some((e, pos))
  {
  }

  lemma SuffixIndex(toks: seq<Token>, pos: nat, e: Expr, i: Expr, p: nat)
    requires pos < |toks| && At(toks, pos) == LBracket && ParseExpr(toks, pos + 1) == Some((i, p)) && p < |toks|
    requires At(toks, p) == RBracket
    ensures Suffixes(toks, pos, e) == Suffixes(toks, p + 1, Index(e, i))
  {
    hide ParseExpr;
  }

  lemma SuffixMember(toks: seq<Token>, pos: nat, e: Expr, field: string, arrow: bool)
    requires pos + 2 <= |toks| && At(toks, pos) == (if arrow then Arrow else Dot) && At(toks, pos + 1) == Name(field)
    ensures Suffixes(toks, pos, e) == Suffixes(toks, pos + 2, Member(e, field, arrow))
  {
  }

  lemma PostfixStep(toks: seq<Token>, pos: nat, e: Expr, p: nat)
    requires ParsePrimary(toks, pos) == Some((e, p))
    ensures ParsePostfix(toks, pos) == Suffixes(toks, p, e)
  {
    hide ParsePrimary, Suffixes;
  }

  lemma UnaryStep(toks: seq<Token>, pos: nat, e: Expr, p: nat)
    requires IsPrefix(At(toks, pos)) && ParseLevel(toks, pos + 1, 7) == Some((e, p))
    ensures ParseLevel(toks, pos, 7) == Some((Unary(At(toks, pos), e), p))
  {
  }

  lemma UnaryStop(toks: seq<Token>, pos: nat)
    requires !IsPrefix(At(toks, pos))
    ensures ParseLevel(toks, pos, 7) == ParsePostfix(toks, pos)
  {
  }

  lemma ParenStep(toks: seq<Token>, pos: nat, e: Expr, p: nat)
    requires At(toks, pos) == LParen && ParseExpr(toks, pos + 1) == Some((e, p)) && At(toks, p) == RParen
    ensures ParsePrimary(toks, pos) == Some((e, p + 1))
  {
    hide ParseExpr, ParseArgs;
  }

  lemma CallStep(toks: seq<Token>, pos: nat, f: string, args: seq<Expr>, p: nat)
    requires At(toks, pos) == Name(f) && At(toks, pos + 1) == LParen && At(toks, p) == RParen
    requires if args == [] then p == pos + 2
      else At(toks, pos + 2) != RParen && ParseArgs(toks, pos + 2) == Some((args, p))
    ensures ParsePrimary(toks, pos) == Some((Call(f, args), p + 1))
  {
    hide ParseExpr, ParseArgs;
  }

  lemma ArgsLast(toks: seq<Token>, pos: nat, e: Expr, p: nat)
    requires ParseExpr(toks, pos) == Some((e, p)) && At(toks, p) != Comma
    ensures ParseArgs(toks, pos) == Some(([e], p))
  {
    hide ParseExpr;
  }

  lemma ArgsStep(toks: seq<Token>, pos: nat, e: Expr, p: nat, es: seq<Expr>, q: nat)
    requires ParseExpr(toks, pos) == Some((e, p)) && At(toks, p) == Comma && ParseArgs(toks, p + 1) == Some((es, q))
    ensures ParseArgs(toks, pos) == Some(([e] + es, q))
  {
    hide ParseExpr;
  }

  lemma AssignStep(toks: seq<Token>, pos: nat, left: Expr, p: nat, value: Expr, q: nat)
    requires ParseLevel(toks, pos, 1) == Some((left, p)) && At(toks, p) == AssignTok
    requires ParseExpr(toks, p + 1) == Some((value, q))
    ensures ParseExpr(toks, pos) == Some((Assign(left, value), q))
  {
    hide ParseLevel;
  }

  lemma AssignStop(toks: seq<Token>, pos: nat, left: Expr, p: nat)
    requires ParseLevel(toks, pos, 1) == Some((left, p)) && Pull(At(toks, p)) != 0
    ensures ParseExpr(toks, pos) == Some((left, p))
  {
    hide ParseLevel;
  }

  // ---- the parts of a text ----

  lemma TextAssign(e: Expr, toks: seq<Token>, pos: nat, end: nat) returns (m: nat)
    requires e.Assign? && Spans(toks, pos, end, Print(e, 0))
    ensures pos <= m < end && Spans(toks, pos, m, Print(e.target, 1)) && At(toks, m) == AssignTok
    ensures Spans(toks, m + 1, end, Print(e.source, 0))
  {
    var l, r := Print(e.target, 1), Print(e.source, 0);
    assert Print(e, 0) == l + ([AssignTok] + r);
    hide Print, Spans;
    m := SpansThree(toks, pos, end, l, AssignTok, r);
  }

  lemma TextBinary(e: Expr, lv: nat, toks: seq<Token>, pos: nat, end: nat) returns (m: nat)
    requires e.Binary? && OpLevel(e.op) == lv > 0 && Spans(toks, pos, end, Print(e, lv))
    ensures pos <= m < end <= |toks| && Spans(toks, pos, m, Print(e.left, lv)) && At(toks, m) == e.op
    ensures Spans(toks, m + 1, end, Print(e.right, lv + 1))
  {
    var l, r := Print(e.left, lv), Print(e.right, lv + 1);
    assert Print(e, lv) == l + ([e.op] + r);
    hide Print, Spans;
    m := SpansThree(toks, pos, end, l, e.op, r);
  }

  lemma TextUnary(e: Expr, toks: seq<Token>, pos: nat, end: nat)
    requires e.Unary? && Spans(toks, pos, end, Print(e, 7))
    ensures pos < end && At(toks, pos) == e.op && Spans(toks, pos + 1, end, Print(e.e, 7))
  {
    var x := Print(e.e, 7);
    assert Print(e, 7) == [] + ([e.op] + x);
    hide Print;
    var m := SpansThree(toks, pos, end, [], e.op, x);
  }

  lemma TextIndex(e: Expr, toks: seq<Token>, pos: nat, end: nat) returns (m: nat, n: nat)
    requires e.Index? && Spans(toks, pos, end, Print(e, 8))
    ensures pos <= m < n < end <= |toks| && end == n + 1 && Spans(toks, pos, m, Print(e.base, 8))
    ensures At(toks, m) == LBracket
    ensures Spans(toks, m + 1, n, Print(e.at, 0)) && At(toks, n) == RBracket
  {
    var x, y := Print(e.base, 8), Print(e.at, 0);
    assert Print(e, 8) == x + ([LBracket] + (y + [RBracket]));
    PrintSome(e.at, 0);
    hide Print;
    m := SpansThree(toks, pos, end, x, LBracket, y + [RBracket]);
    n := SpansSplit(toks, m + 1, end, y, [RBracket]);
    SpansOne(toks, n, end, RBracket);
  }

  lemma TextMember(e: Expr, toks: seq<Token>, pos: nat, end: nat) returns (m: nat)
    requires e.Member? && Spans(toks, pos, end, Print(e, 8))
    ensures pos <= m && end == m + 2 <= |toks| && Spans(toks, pos, m, Print(e.base, 8))
    ensures At(toks, m) == (if e.arrow then Arrow else Dot) && At(toks, m + 1) == Name(e.field)
  {
    var x, t := Print(e.base, 8), if e.arrow then Arrow else Dot;
    assert Print(e, 8) == x + ([t] + [Name(e.field)]);
    hide Print;
    m := SpansThree(toks, pos, end, x, t, [Name(e.field)]);
    SpansOne(toks, m + 1, end, Name(e.field));
  }

  lemma TextParen(e: Expr, toks: seq<Token>, pos: nat, end: nat) returns (n: nat)
    requires Prec(e) < 8 && Spans(toks, pos, end, Print(e, 8))
    ensures pos < n && end == n + 1 <= |toks| && At(toks, pos) == LParen && Spans(toks, pos + 1, n, Print(e, 0))
    ensures At(toks, n) == RParen
  {
    var x := Print(e, 0);
    assert Print(e, 8) == [] + ([LParen] + (x + [RParen]));
    hide Print;
    var m := SpansThree(toks, pos, end, [], LParen, x + [RParen]);
    n := SpansSplit(toks, pos + 1, end, x, [RParen]);
    SpansOne(toks, n, end, RParen);
  }

  lemma TextCall(e: Expr, toks: seq<Token>, pos: nat, end: nat) returns (n: nat)
    requires e.Call? && WellFormed(e) && Spans(toks, pos, end, Print(e, 8))
    ensures pos + 2 <= n && end == n + 1 <= |toks| && At(toks, pos) == Name(e.f) && At(toks, pos + 1) == LParen
    ensures Spans(toks, pos + 2, n, PrintArgs(e.args)) && At(toks, n) == RParen
    ensures if e.args == [] then n == pos + 2 else At(toks, pos + 2) != RParen
  {
    var x := PrintArgs(e.args);
    assert Print(e, 8) == [Name(e.f)] + ([LParen] + (x + [RParen]));
    if e.args != [] { ArgsStart(e.args); }
    hide Print;
    var m := SpansThree(toks, pos, end, [Name(e.f)], LParen, x + [RParen]);
    SpansOne(toks, pos, m, Name(e.f));
    n := SpansSplit(toks, m + 1, end, x, [RParen]);
    SpansOne(toks, n, end, RParen);
    if e.args != [] { SpansFirst(toks, pos + 2, n, x); }
  }

  lemma TextArgs(args: seq<Expr>, toks: seq<Token>, pos: nat, end: nat) returns (m: nat)
    requires |args| > 1 && Spans(toks, pos, end, PrintArgs(args))
    ensures pos <= m < end <= |toks| && Spans(toks, pos, m, Print(args[0], 0)) && At(toks, m) == Comma
    ensures Spans(toks, m + 1, end, PrintArgs(args[1..]))
  {
    hide Print, PrintArgs, Spans;
    PrintArgsMore(args);
    m := SpansThree(toks, pos, end, Print(args[0], 0), Comma, PrintArgs(args[1..]));
  }

  lemma PrintArgsMore(args: seq<Expr>)
    requires |args| > 1
    ensures PrintArgs(args) == Print(args[0], 0) + ([Comma] + PrintArgs(args[1..]))
  {
    hide Print;
    assert PrintArgs(args) == Print(args[0], 0) + [Comma] + PrintArgs(args[1..]);
  }

  lemma PrintArgsOne(args: seq<Expr>)
    requires |args| == 1
    ensures PrintArgs(args) == Print(args[0], 0)
  {
  }

  lemma {:induction false} NoParenFirst(e: Expr, lv: nat)
    requires WellFormed(e)
    ensures Print(e, lv) != [] && Print(e, lv)[0] != RParen
  {
    if Prec(e) >= lv {
      match e {
        case Index(b, i) => NoParenFirst(b, 8);
        case Member(b, f, a) => NoParenFirst(b, 8);
        case Binary(op, l, r) => NoParenFirst(l, OpLevel(op));
        case Assign(l, r) => NoParenFirst(l, 1);
        case _ =>
      }
    }
  }

  lemma ArgsStart(args: seq<Expr>)
    requires args != [] && forall i :: 0 <= i < |args| ==> WellFormed(args[i])
    ensures PrintArgs(args) != [] && PrintArgs(args)[0] != RParen
  {
    NoParenFirst(args[0], 0);
  }

  lemma SpansIn(toks: seq<Token>, pos: nat, end: nat, s: seq<Token>)
    requires Spans(toks, pos, end, s)
    ensures pos <= end <= |toks|
  {
  }

  // ---- the theorem ----

  /** For every expression, in every place, whatever comes before and after: the parser gives back the
      tree and stops right behind its text, if the next token does not carry it on. */
  lemma {:induction false} RoundTrip(e: Expr, lv: nat, toks: seq<Token>, pos: nat, end: nat)
    requires WellFormed(e) && lv <= 8 && Spans(toks, pos, end, Print(e, lv)) && Pull(At(toks, end)) < lv
    ensures ParseAt(toks, pos, lv) == Some((e, end))
    decreases end - pos, 20 - lv, 3
  {
    hide Print, ParsePostfix, ParseExpr, ParseLevel, Chain, Suffixes, WellFormed, Spans;
    if lv == 0 {
      Assigned(e, toks, pos, end);
    } else if lv <= 6 {
      Chained(e, lv, toks, pos, end);
      ChainStop(toks, end, lv, e);
    } else if lv == 7 {
      Prefixed(e, toks, pos, end);
    } else {
      Suffixed(e, toks, pos, end);
      SuffixStop(toks, end, e);
    }
  }

  lemma {:induction false} Assigned(e: Expr, toks: seq<Token>, pos: nat, end: nat)
    requires WellFormed(e) && Spans(toks, pos, end, Print(e, 0)) && Pull(At(toks, end)) < 0
    ensures ParseExpr(toks, pos) == Some((e, end))
    decreases end - pos, 20, 0
  {
    hide Print, ParseExpr, ParseLevel, Spans, WellFormed;
    Parts(e);
    SpansIn(toks, pos, end, Print(e, 0));
    if e.Assign? {
      var m := TextAssign(e, toks, pos, end);
      RoundTrip(e.target, 1, toks, pos, m);
      RoundTrip(e.source, 0, toks, m + 1, end);
      AssignStep(toks, pos, e.target, m, e.source, end);
    } else {
      PrintUp(e, 0);
      RoundTrip(e, 1, toks, pos, end);
      AssignStop(toks, pos, e, end);
    }
  }

  /** A chain of one level, up to where an operator of that level may carry it on. */
  lemma {:induction false} Chained(e: Expr, lv: nat, toks: seq<Token>, pos: nat, end: nat)
    requires WellFormed(e) && 1 <= lv <= 6 && Spans(toks, pos, end, Print(e, lv)) && Pull(At(toks, end)) <= lv
    ensures end <= |toks| && ParseLevel(toks, pos, lv) == Chain(toks, end, lv, e)
    decreases end - pos, 20 - lv, 0
  {
    hide Print, ParseExpr, ParseLevel, Chain, Spans, WellFormed;
    Parts(e);
    SpansIn(toks, pos, end, Print(e, lv));
    if Prec(e) == lv {
      var m := TextBinary(e, lv, toks, pos, end);
      Chained(e.left, lv, toks, pos, m);
      RoundTrip(e.right, lv + 1, toks, m + 1, end);
      ChainStep(toks, m, lv, e.left, e.right, end);
    } else {
      PrintUp(e, lv);
      RoundTrip(e, lv + 1, toks, pos, end);
      LevelStep(toks, pos, lv, e, end);
    }
  }

  lemma {:induction false} Prefixed(e: Expr, toks: seq<Token>, pos: nat, end: nat)
    requires WellFormed(e) && Spans(toks, pos, end, Print(e, 7)) && Pull(At(toks, end)) < 7
    ensures ParseLevel(toks, pos, 7) == Some((e, end))
    decreases end - pos, 13, 0
  {
    hide Print, ParseLevel, ParsePostfix, Suffixes, Spans, WellFormed;
    Parts(e);
    SpansIn(toks, pos, end, Print(e, 7));
    if e.Unary? {
      TextUnary(e, toks, pos, end);
      Prefixed(e.e, toks, pos + 1, end);
      UnaryStep(toks, pos, e.e, end);
    } else {
      PrintUp(e, 7);
      FirstToken(e);
      SpansFirst(toks, pos, end, Print(e, 8));
      Suffixed(e, toks, pos, end);
      SuffixStop(toks, end, e);
      UnaryStop(toks, pos);
    }
  }

  /** A suffix expression, up to where a suffix may carry it on. */
  lemma {:induction false} Suffixed(e: Expr, toks: seq<Token>, pos: nat, end: nat)
    requires WellFormed(e) && Spans(toks, pos, end, Print(e, 8)) && Pull(At(toks, end)) <= 8
    ensures end <= |toks| && ParsePostfix(toks, pos) == Suffixes(toks, end, e)
    decreases end - pos, 12, 0
  {
    hide Print, ParseExpr, ParsePostfix, Suffixes, Spans, ParsePrimary, WellFormed;
    SpansIn(toks, pos, end, Print(e, 8));
    Parts(e);
    if e.Index? {
      var m, n := TextIndex(e, toks, pos, end);
      Suffixed(e.base, toks, pos, m);
      RoundTrip(e.at, 0, toks, m + 1, n);
      SuffixIndex(toks, m, e.base, e.at, n);
    } else if e.Member? {
      var m := TextMember(e, toks, pos, end);
      Suffixed(e.base, toks, pos, m);
      SuffixMember(toks, m, e.base, e.field, e.arrow);
    } else {
      Atom(e, toks, pos, end);
      PostfixStep(toks, pos, e, end);
    }
  }

  /** Primary expressions, and anything in parentheses. */
  lemma {:induction false} Atom(e: Expr, toks: seq<Token>, pos: nat, end: nat)
    requires WellFormed(e) && !e.Index? && !e.Member? && Spans(toks, pos, end, Print(e, 8)) && Pull(At(toks, end)) <= 8
    ensures ParsePrimary(toks, pos) == Some((e, end))
    decreases end - pos, 11, 0
  {
    hide Print, PrintArgs, ParseExpr, ParsePrimary, ParseArgs, Spans, WellFormed;
    Parts(e);
    if Prec(e) < 8 {
      var n := TextParen(e, toks, pos, end);
      RoundTrip(e, 0, toks, pos + 1, n);
      ParenStep(toks, pos, e, n);
    } else if e.Call? {
      var n := TextCall(e, toks, pos, end);
      if e.args != [] { Arguments(e.args, toks, pos + 2, n); }
      CallStep(toks, pos, e.f, e.args, n);
    } else {
      Literal(e, toks, pos, end);
    }
  }

  lemma Literal(e: Expr, toks: seq<Token>, pos: nat, end: nat)
    requires (e.Num? || e.Str? || e.Ident?) && Spans(toks, pos, end, Print(e, 8)) && Pull(At(toks, end)) <= 8
    ensures ParsePrimary(toks, pos) == Some((e, end))
  {
    hide ParseExpr, ParseArgs;
    SpansOne(toks, pos, end, Print(e, 8)[0]);
  }

  lemma {:induction false} Arguments(args: seq<Expr>, toks: seq<Token>, pos: nat, end: nat)
    requires args != [] && (forall i :: 0 <= i < |args| ==> WellFormed(args[i])) && Spans(toks, pos, end, PrintArgs(args))
    requires At(toks, end) == RParen
    ensures ParseArgs(toks, pos) == Some((args, end))
    decreases end - pos, 20, 4
  {
    hide Print, PrintArgs, ParseExpr, ParseArgs, WellFormed, Spans;
    SpansIn(toks, pos, end, PrintArgs(args));
    if |args| == 1 {
      PrintArgsOne(args);
      RoundTrip(args[0], 0, toks, pos, end);
      ArgsLast(toks, pos, args[0], end);
      assert args == [args[0]];
    } else {
      var m := TextArgs(args, toks, pos, end);
      RoundTrip(args[0], 0, toks, pos, m);
      Arguments(args[1..], toks, m + 1, end);
      ArgsStep(toks, pos, args[0], m, args[1..], end);
      assert args == [args[0]] + args[1..];
    }
  }

  /** The whole text of an expression, and nothing behind it. */
  lemma PrintThenParse(e: Expr)
    requires WellFormed(e)
    ensures ParseExpr(Print(e, 0), 0) == Some((e, |Print(e, 0)|))
  {
    var toks := Print(e, 0);
    assert toks[0..|toks|] == toks;
    RoundTrip(e, 0, toks, 0, |toks|);
  }
}
