/** The expression parser, on token sequences. */
module Parser {
  import opened Wrappers

  datatype Token = Number(value: int) | Text(s: string) | Name(id: string)
                 | LParen | RParen | LBracket | RBracket | Comma | Dot | Arrow
                 | Plus | Minus | Star | Slash | Percent | Amp | Not
                 | Lt | Gt | Le | Ge | Eq | Neq | And | Or
                 | AssignTok | PlusEq | MinusEq | StarEq | SlashEq | Other | Eof

  datatype Expr = Num(value: int) | Str(s: string) | Ident(id: string) | Call(f: string, args: seq<Expr>)
                | Index(base: Expr, at: Expr) | Member(base: Expr, field: string, arrow: bool)
                | Unary(op: Token, e: Expr) | Binary(op: Token, left: Expr, right: Expr) | Assign(target: Expr, source: Expr)

  // ---- operators ----

  /** Binding strength of a binary operator: 1 for or, up to 6 for products. */
  function OpLevel(t: Token): nat {
    match t
    case Or => 1
    case And => 2
    case Eq | Neq => 3
    case Lt | Gt | Le | Ge => 4
    case Plus | Minus => 5
    case Star | Slash | Percent => 6
    case _ => 0
  }

  predicate IsPrefix(t: Token) { t == Minus || t == Not || t == Amp || t == Star }

  predicate IsCompound(t: Token) { t == PlusEq || t == MinusEq || t == StarEq || t == SlashEq }

  function CompoundOp(t: Token): Token
    requires IsCompound(t)
  {
    match t case PlusEq => Plus case MinusEq => Minus case StarEq => Star case SlashEq => Slash
  }

  function At(toks: seq<Token>, pos: nat): Token { if pos < |toks| then toks[pos] else Eof }

  // ---- the grammar as the parser follows it ----

  /** A tree and the position after it, or an error. */
  type Result = Option<(Expr, nat)>

  ghost predicate Moves(toks: seq<Token>, pos: nat, r: Result) { r.Some? ==> pos < r.value.1 <= |toks| }

  function ParseExpr(toks: seq<Token>, pos: nat): (r: Result)
    ensures Moves(toks, pos, r)
    decreases |toks| - pos, 20
  {
    match ParseLevel(toks, pos, 1)
    case None => None
    case Some((left, p)) =>
      if At(toks, p) == AssignTok then
        match ParseExpr(toks, p + 1)
        case None => None
        case Some((value, q)) => Some((Assign(left, value), q))
      else if IsCompound(At(toks, p)) then
        match ParseExpr(toks, p + 1)
        case None => None
        case Some((value, q)) => Some((Assign(left, Binary(CompoundOp(At(toks, p)), left, value)), q))
      else Some((left, p))
  }

  /** Level 7 is the prefix operators; below it the operators of one binary level. */
  function ParseLevel(toks: seq<Token>, pos: nat, lv: nat): (r: Result)
    requires 1 <= lv <= 7
    ensures Moves(toks, pos, r)
    decreases |toks| - pos, 17 - lv
  {
    if lv == 7 then ParseUnary(toks, pos)
    else match ParseLevel(toks, pos, lv + 1)
      case None => None
      case Some((left, p)) => Chain(toks, p, lv, left)
  }

  /** The rest of a left-associated chain. */
  function Chain(toks: seq<Token>, pos: nat, lv: nat, left: Expr): (r: Result)
    requires 1 <= lv <= 6 && pos <= |toks|
    ensures r.Some? ==> pos <= r.value.1 <= |toks|
    decreases |toks| - pos, 18
  {
    if OpLevel(At(toks, pos)) == lv then
      match ParseLevel(toks, pos + 1, lv + 1)
      case None => None
      case Some((right, p)) => Chain(toks, p, lv, Binary(At(toks, pos), left, right))
    else Some((left, pos))
  }

  function ParseUnary(toks: seq<Token>, pos: nat): (r: Result)
    ensures Moves(toks, pos, r)
    decreases |toks| - pos, 9
  {
    if IsPrefix(At(toks, pos)) then
      match ParseUnary(toks, pos + 1)
      case None => None
      case Some((e, p)) => Some((Unary(At(toks, pos), e), p))
    else ParsePostfix(toks, pos)
  }

  function ParsePostfix(toks: seq<Token>, pos: nat): (r: Result)
    ensures Moves(toks, pos, r)
    decreases |toks| - pos, 8
  {
    match ParsePrimary(toks, pos)
    case None => None
    case Some((e, p)) => Suffixes(toks, p, e)
  }

  function Suffixes(toks: seq<Token>, pos: nat, e: Expr): (r: Result)
    requires pos <= |toks|
    ensures r.Some? ==> pos <= r.value.1 <= |toks|
    decreases |toks| - pos, 7
  {
    match At(toks, pos)
    case LBracket =>
      (match ParseExpr(toks, pos + 1)
       case None => None
       case Some((i, p)) => if At(toks, p) == RBracket then Suffixes(toks, p + 1, Index(e, i)) else None)
    case Dot => if At(toks, pos + 1).Name? then Suffixes(toks, pos + 2, Member(e, toks[pos + 1].id, false)) else None
    case Arrow => if At(toks, pos + 1).Name? then Suffixes(toks, pos + 2, Member(e, toks[pos + 1].id, true)) else None
    case _ => Some((e, pos))
  }

  function ParsePrimary(toks: seq<Token>, pos: nat): (r: Result)
    ensures Moves(toks, pos, r)
    decreases |toks| - pos, 6
  {
    match At(toks, pos)
    case Number(v) => Some((Num(v), pos + 1))
    case Text(s) => Some((Str(s), pos + 1))
    case Name(id) =>
      if At(toks, pos + 1) != LParen then Some((Ident(id), pos + 1))
      else if At(toks, pos + 2) == RParen then Some((Call(id, []), pos + 3))
      else (match ParseArgs(toks, pos + 2)
            case None => None
            case Some((args, p)) => if At(toks, p) == RParen then Some((Call(id, args), p + 1)) else None)
    case LParen =>
      (match ParseExpr(toks, pos + 1)
       case None => None
       case Some((e, p)) => if At(toks, p) == RParen then Some((e, p + 1)) else None)
    case _ => None
  }

  /** One or more expressions with commas between them. */
  function ParseArgs(toks: seq<Token>, pos: nat): (r: Option<(seq<Expr>, nat)>)
    ensures r.Some? ==> pos < r.value.1 <= |toks|
    decreases |toks| - pos, 21
  {
    match ParseExpr(toks, pos)
    case None => None
    case Some((e, p)) =>
      if At(toks, p) != Comma then Some(([e], p))
      else match ParseArgs(toks, p + 1)
        case None => None
        case Some((es, q)) => Some(([e] + es, q))
  }

  // ---- printing ----

  /** Binding strength of an expression: 0 for assignment, 7 prefix, 8 suffix, 9 primary. */
  function Prec(e: Expr): nat {
    match e
    case Assign(_, _) => 0
    case Binary(op, _, _) => OpLevel(op)
    case Unary(_, _) => 7
    case Index(_, _) => 8
    case Member(_, _, _) => 8
    case _ => 9
  }

  /** Prints with parentheses only where the expression binds less than its place asks for. */
  function Print(e: Expr, lv: nat): seq<Token>
    decreases e, 1
  {
    if Prec(e) < lv then [LParen] + Raw(e) + [RParen] else Raw(e)
  }

  function Raw(e: Expr): seq<Token>
    decreases e, 0
  {
    match e
    case Num(v) => [Number(v)]
    case Str(s) => [Text(s)]
    case Ident(id) => [Name(id)]
    case Call(f, args) => [Name(f), LParen] + PrintArgs(args) + [RParen]
    case Index(b, i) => Print(b, 8) + [LBracket] + Print(i, 0) + [RBracket]
    case Member(b, field, arrow) => Print(b, 8) + [if arrow then Arrow else Dot, Name(field)]
    case Unary(op, x) => [op] + Print(x, 7)
    case Binary(op, l, r) => Print(l, OpLevel(op)) + [op] + Print(r, OpLevel(op) + 1)
    case Assign(l, r) => Print(l, 1) + [AssignTok] + Print(r, 0)
  }

  function PrintArgs(args: seq<Expr>): seq<Token>
    decreases args
  {
    if args == [] then []
    else if |args| == 1 then Print(args[0], 0)
    else Print(args[0], 0) + [Comma] + PrintArgs(args[1..])
  }

  /** Trees the parser can produce: real operators, and at most 16 arguments. */
  predicate WellFormed(e: Expr) {
    match e
    case Num(_) => true
    case Str(_) => true
    case Ident(_) => true
    case Call(_, args) => |args| <= 16 && forall i :: 0 <= i < |args| ==> WellFormed(args[i])
    case Index(b, i) => WellFormed(b) && WellFormed(i)
    case Member(b, _, _) => WellFormed(b)
    case Unary(op, x) => IsPrefix(op) && WellFormed(x)
    case Binary(op, l, r) => OpLevel(op) > 0 && WellFormed(l) && WellFormed(r)
    case Assign(l, r) => WellFormed(l) && WellFormed(r)
  }
}
