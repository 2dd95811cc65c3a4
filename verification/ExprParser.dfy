/** The recursive-descent parser itself: it moves over the tokens and remembers an error. */
module ExprParser {
  import opened Wrappers
  import opened Parser

  class Cursor {
    const toks: seq<Token>
    var pos: nat
    var hadError: bool

    constructor (ts: seq<Token>)
      ensures toks == ts && pos == 0 && !hadError
    {
      toks, pos, hadError := ts, 0, false;
    }

    function Current(): Token
      reads this
    {
      At(toks, pos)
    }

    /** At the end the parser stays where it is. */
    method Advance()
      modifies this`pos
      ensures pos == if old(pos) < |toks| then old(pos) + 1 else old(pos)
    {
      if pos < |toks| {
        pos := pos + 1;
      }
    }

    /** Moves on if the current token is this one. */
    method Match(t: Token) returns (ok: bool)
      requires t != Eof
      modifies this`pos
      ensures ok <==> At(toks, old(pos)) == t
      ensures pos == if ok then old(pos) + 1 else old(pos)
    {
      ok := Current() == t;
      if ok {
        Advance();
      }
    }

    method Expect(t: Token)
      requires t != Eof && !hadError
      modifies this
      ensures hadError <==> At(toks, old(pos)) != t
      ensures pos == if hadError then old(pos) else old(pos) + 1
    {
      var ok := Match(t);
      hadError := !ok;
    }

    /** The outcome is what the grammar says: its tree and position, or an error. */
    ghost predicate Agrees(spec: Result, r: Option<Expr>)
      reads this
    {
      match spec
      case None => hadError
      case Some((e, p)) => !hadError && r == Some(e) && pos == p
    }

    method Expression() returns (r: Option<Expr>)
      requires !hadError && pos <= |toks|
      modifies this
      ensures pos <= |toks| && Agrees(ParseExpr(toks, old(pos)), r)
      decreases |toks| - pos, 20
    {
      hide ParseLevel;
      var left := Level(1);
      if hadError {
        return left;
      }
      var t := Current();
      if t == AssignTok || IsCompound(t) {
        Advance();
        hide ParseExpr;
        var value := Expression();
        if hadError {
          return None;
        }
        r := Some(Assign(left.value, if t == AssignTok then value.value else Binary(CompoundOp(t), left.value, value.value)));
      } else {
        r := left;
      }
    }

    /** The six binary levels differ only in their operators; level 7 is the prefix operators. */
    method Level(lv: nat) returns (r: Option<Expr>)
      requires 1 <= lv <= 7 && !hadError && pos <= |toks|
      modifies this
      ensures pos <= |toks| && Agrees(ParseLevel(toks, old(pos), lv), r)
      decreases |toks| - pos, 17 - lv
    {
      if lv == 7 {
        hide ParseUnary;
        r := Prefix();
        return;
      }
      r := Level(lv + 1);
      if hadError {
        return;
      }
      ghost var spec := ParseLevel(toks, old(pos), lv);
      hide ParseLevel;
      while OpLevel(Current()) == lv
        invariant !hadError && r.Some? && old(pos) < pos <= |toks| && spec == Chain(toks, pos, lv, r.value)
        decreases |toks| - pos
      {
        var op := Current();
        Advance();
        var right := Level(lv + 1);
        if hadError {
          return;
        }
        r := Some(Binary(op, r.value, right.value));
      }
    }

    method Prefix() returns (r: Option<Expr>)
      requires !hadError && pos <= |toks|
      modifies this
      ensures pos <= |toks| && Agrees(ParseUnary(toks, old(pos)), r)
      decreases |toks| - pos, 9
    {
      hide ParsePostfix;
      var t := Current();
      if IsPrefix(t) {
        Advance();
        var x := Prefix();
        r := if hadError then None else Some(Unary(t, x.value));
      } else {
        r := Suffixed();
      }
    }

    method Suffixed() returns (r: Option<Expr>)
      requires !hadError && pos <= |toks|
      modifies this
      ensures pos <= |toks| && Agrees(ParsePostfix(toks, old(pos)), r)
      decreases |toks| - pos, 8
    {
      hide ParsePrimary, ParseExpr;
      r := Primary();
      if hadError {
        return;
      }
      ghost var spec := ParsePostfix(toks, old(pos));
      while true
        invariant !hadError && r.Some? && old(pos) < pos <= |toks| && spec == Suffixes(toks, pos, r.value)
        decreases |toks| - pos
      {
        var t := Current();
        if t == LBracket {
          Advance();
          var i := Expression();
          if hadError {
            return;
          }
          Expect(RBracket);
          if hadError {
            return;
          }
          r := Some(Index(r.value, i.value));
        } else if t == Dot || t == Arrow {
          Advance();
          var f := Current();
          if !f.Name? {
            hadError := true;
            return;
          }
          Advance();
          r := Some(Member(r.value, f.id, t == Arrow));
        } else {
          return;
        }
      }
    }

    method Primary() returns (r: Option<Expr>)
      requires !hadError && pos <= |toks|
      modifies this
      ensures pos <= |toks| && Agrees(ParsePrimary(toks, old(pos)), r)
      decreases |toks| - pos, 6
    {
      hide ParseExpr, ParseArgs;
      var t := Current();
      match t {
        case Number(v) =>
          Advance();
          r := Some(Num(v));
        case Text(s) =>
          Advance();
          r := Some(Str(s));
        case Name(id) =>
          Advance();
          var call := Match(LParen);
          if call {
            r := Arguments(id);
          } else {
            r := Some(Ident(id));
          }
        case LParen =>
          Advance();
          r := Expression();
          if !hadError {
            Expect(RParen);
          }
        case _ =>
          hadError := true;
          r := None;
      }
    }

    /** The arguments of a call, up to the closing parenthesis. */
    method Arguments(id: string) returns (r: Option<Expr>)
      requires !hadError && 2 <= pos <= |toks| && At(toks, pos - 1) == LParen && At(toks, pos - 2) == Name(id)
      modifies this
      ensures pos <= |toks| && Agrees(ParsePrimary(toks, old(pos) - 2), r)
      decreases |toks| - pos, 22
    {
      hide ParseExpr, ParseArgs;
      var args := [];
      if Current() != RParen {
        args := ArgumentList();
        if hadError {
          return None;
        }
      }
      Expect(RParen);
      r := if hadError then None else Some(Call(id, args));
    }

    method ArgumentList() returns (args: seq<Expr>)
      requires !hadError && pos <= |toks|
      modifies this
      ensures pos <= |toks|
      ensures match ParseArgs(toks, old(pos)) case None => hadError case Some((es, p)) => !hadError && args == es && pos == p
      decreases |toks| - pos, 21
    {
      hide ParseExpr;
      args := [];
      ghost var spec := ParseArgs(toks, pos);
      var more := true;
      BeforeNone(spec);
      while more
        invariant pos <= |toks| && old(pos) <= pos && !hadError
        invariant more ==> spec == Before(args, ParseArgs(toks, pos))
        invariant !more ==> spec == Some((args, pos))
        decreases |toks| - pos, more
      {
        var e := Expression();
        if hadError {
          return;
        }
        BeforeStep(args, e.value, if Current() == Comma then ParseArgs(toks, pos + 1) else Some(([], pos)));
        args := args + [e.value];
        more := Match(Comma);
      }
    }
  }

  /** A list of arguments in front of the rest. */
  function Before(args: seq<Expr>, r: Option<(seq<Expr>, nat)>): Option<(seq<Expr>, nat)> {
    match r case None => None case Some((es, p)) => Some((args + es, p))
  }

  lemma BeforeNone(r: Option<(seq<Expr>, nat)>)
    ensures Before([], r) == r
  {
    match r { case None => case Some((es, p)) => assert [] + es == es; }
  }

  lemma BeforeStep(args: seq<Expr>, e: Expr, r: Option<(seq<Expr>, nat)>)
    ensures Before(args, Before([e], r)) == Before(args + [e], r)
    ensures r.Some? && r.value.0 == [] ==> Before(args, Some(([e], r.value.1))) == Some((args + [e], r.value.1))
  {
    match r { case None => case Some((es, p)) => assert args + ([e] + es) == args + [e] + es; }
  }
}
