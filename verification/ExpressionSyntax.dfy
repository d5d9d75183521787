/** Tokens, the expression grammar and its syntax trees. */
module ExpressionSyntax {
  import opened Wrappers

  datatype Token =
    | Number(value: real) | Variable(name: string) | Identifier(name: string) | StringLiteral
    | Semicolon | Comma | LeftParen | RightParen | Question | Colon | Assign
    | Plus | Minus | Star | Slash | Bang | Arrow
    | Less | LessEqual | Greater | GreaterEqual | EqualEqual | NotEqual | AndAnd | OrOr
    | End

  datatype BinaryOp =
    | Or | And | Eq | Ne | Lt | Le | Gt | Ge | Add | Sub | Mul | Div

  /** A ramp point as written; its interpolation is still an arbitrary number. */
  datatype Knot = Knot(position: real, value: real, interpolation: real)

  /** Calls list their arguments in order; the receiver of a `->` call is its first argument. */
  datatype Expr =
    | Constant(value: real)
    | Name(name: string, bare: bool)
    | Negate(arg: Expr)
    | Not(arg: Expr)
    | Binary(op: BinaryOp, left: Expr, right: Expr)
    | Select(cond: Expr, yes: Expr, no: Expr)
    | Apply(name: string, args: seq<Expr>)
    | Ramp(knots: seq<Knot>)

  datatype Function = Hash | Rand | Stray | Min | Max | ClampTo | Fit | Gamma | Contrast | Smoothstep

  function FunctionNamed(name: string): Option<Function> {
    if name == "hash" then Some(Hash)
    else if name == "rand" then Some(Rand)
    else if name == "stray" then Some(Stray)
    else if name == "min" then Some(Min)
    else if name == "max" then Some(Max)
    else if name == "clamp" then Some(ClampTo)
    else if name == "fit" then Some(Fit)
    else if name == "gamma" then Some(Gamma)
    else if name == "contrast" then Some(Contrast)
    else if name == "smoothstep" then Some(Smoothstep)
    else None
  }

  datatype Statement = Statement(target: Option<string>, expr: Expr)

  /** What the tokenizer delivers: the end token closes the sequence and occurs nowhere else. */
  ghost predicate Terminated(ts: seq<Token>) {
    |ts| > 0 && forall i | 0 <= i < |ts| :: ts[i] == End <==> i == |ts| - 1
  }

  const LEVELS: nat := 6

  /** The binary operators of each precedence level, loosest first. */
  function LevelOp(level: nat, t: Token): (r: Option<BinaryOp>)
    ensures r.Some? ==> t != End
  {
    match t
    case OrOr => if level == 0 then Some(Or) else None
    case AndAnd => if level == 1 then Some(And) else None
    case EqualEqual => if level == 2 then Some(Eq) else None
    case NotEqual => if level == 2 then Some(Ne) else None
    case Less => if level == 3 then Some(Lt) else None
    case LessEqual => if level == 3 then Some(Le) else None
    case Greater => if level == 3 then Some(Gt) else None
    case GreaterEqual => if level == 3 then Some(Ge) else None
    case Plus => if level == 4 then Some(Add) else None
    case Minus => if level == 4 then Some(Sub) else None
    case Star => if level == 5 then Some(Mul) else None
    case Slash => if level == 5 then Some(Div) else None
    case _ => None
  }

  ghost function ParseTernary(ts: seq<Token>, c: nat): (r: Option<(Expr, nat)>)
    requires Terminated(ts) && c < |ts|
    ensures r.Some? ==> c < r.value.1 < |ts|
    decreases |ts| - c, 10
  {
    var (cond, c1) :- ParseLevel(ts, c, 0);
    if ts[c1] != Question then Some((cond, c1)) else ParseBranches(ts, c1 + 1, cond)
  }

  /** The two branches after a question mark; the second extends as far as possible. */
  ghost function ParseBranches(ts: seq<Token>, c: nat, cond: Expr): (r: Option<(Expr, nat)>)
    requires Terminated(ts) && c < |ts|
    ensures r.Some? ==> c < r.value.1 < |ts|
    decreases |ts| - c, 11
  {
    var (yes, c1) :- ParseTernary(ts, c);
    if ts[c1] != Colon then None
    else
      var (no, c2) :- ParseTernary(ts, c1 + 1);
      Some((Select(cond, yes, no), c2))
  }

  ghost function ParseLevel(ts: seq<Token>, c: nat, level: nat): (r: Option<(Expr, nat)>)
    requires Terminated(ts) && c < |ts| && level <= LEVELS
    ensures r.Some? ==> c < r.value.1 < |ts|
    decreases |ts| - c, 9 - level
  {
    if level == LEVELS then ParsePrefix(ts, c)
    else
      var (left, c1) :- ParseLevel(ts, c, level + 1);
      ParseRest(ts, c1, level, left)
  }

  /** The rest of a left-associative chain whose left part has been read. */
  ghost function ParseRest(ts: seq<Token>, c: nat, level: nat, left: Expr): (r: Option<(Expr, nat)>)
    requires Terminated(ts) && c < |ts| && level < LEVELS
    ensures r.Some? ==> c <= r.value.1 < |ts|
    decreases |ts| - c, 9 - level
  {
    var op := LevelOp(level, ts[c]);
    if op.None? then Some((left, c))
    else
      var (right, c1) :- ParseLevel(ts, c + 1, level + 1);
      ParseRest(ts, c1, level, Binary(op.value, left, right))
  }

  ghost function ParsePrefix(ts: seq<Token>, c: nat): (r: Option<(Expr, nat)>)
    requires Terminated(ts) && c < |ts|
    ensures r.Some? ==> c < r.value.1 < |ts|
    decreases |ts| - c, 2
  {
    if ts[c] == Plus then ParsePrefix(ts, c + 1)
    else if ts[c] == Minus then
      var (e, c1) :- ParsePrefix(ts, c + 1);
      Some((Negate(e), c1))
    else if ts[c] == Bang then
      var (e, c1) :- ParsePrefix(ts, c + 1);
      Some((Not(e), c1))
    else
      var (e, c1) :- ParsePrimary(ts, c);
      ParseMethods(ts, c1, e)
  }

  /** Any number of `->name(arguments)` after an operand. */
  ghost function ParseMethods(ts: seq<Token>, c: nat, e: Expr): (r: Option<(Expr, nat)>)
    requires Terminated(ts) && c < |ts|
    ensures r.Some? ==> c <= r.value.1 < |ts|
    decreases |ts| - c, 1
  {
    if ts[c] != Arrow then Some((e, c))
    else if !ts[c + 1].Identifier? || ts[c + 2] != LeftParen then None
    else
      var (args, c1) :- ParseArguments(ts, c + 3, [e]);
      ParseMethods(ts, c1, Apply(ts[c + 1].name, args))
  }

  /** The argument list after an opening parenthesis, added to the arguments already known. */
  ghost function ParseArguments(ts: seq<Token>, c: nat, known: seq<Expr>): (r: Option<(seq<Expr>, nat)>)
    requires Terminated(ts) && c < |ts|
    ensures r.Some? ==> c < r.value.1 < |ts| && known <= r.value.0
    decreases |ts| - c, 13
  {
    if ts[c] == RightParen then Some((known, c + 1)) else ParseArgumentList(ts, c, known)
  }

  ghost function ParseArgumentList(ts: seq<Token>, c: nat, known: seq<Expr>): (r: Option<(seq<Expr>, nat)>)
    requires Terminated(ts) && c < |ts|
    ensures r.Some? ==> c < r.value.1 < |ts| && known <= r.value.0
    decreases |ts| - c, 12
  {
    var (e, c1) :- ParseTernary(ts, c);
    if ts[c1] == Comma then ParseArgumentList(ts, c1 + 1, known + [e])
    else if ts[c1] == RightParen then Some((known + [e], c1 + 1))
    else None
  }

  /** An optionally signed number. */
  function ParseSigned(ts: seq<Token>, c: nat): (r: Option<(real, nat)>)
    requires Terminated(ts) && c < |ts|
    ensures r.Some? ==> c < r.value.1 < |ts|
  {
    var signed := ts[c] == Plus || ts[c] == Minus;
    var c1 := if signed then c + 1 else c;
    if !ts[c1].Number? then None
    else Some((if ts[c] == Minus then -ts[c1].value else ts[c1].value, c1 + 1))
  }

  function ParseKnot(ts: seq<Token>, c: nat): (r: Option<(Knot, nat)>)
    requires Terminated(ts) && c < |ts|
    ensures r.Some? ==> c < r.value.1 < |ts|
  {
    var (position, c1) :- ParseSigned(ts, c);
    if ts[c1] != Comma then None
    else
      var (value, c2) :- ParseSigned(ts, c1 + 1);
      if ts[c2] != Comma then None
      else
        var (interpolation, c3) :- ParseSigned(ts, c2 + 1);
        Some((Knot(position, value, interpolation), c3))
  }

  /** `position,value,interpolation` triples separated by colons, up to the closing parenthesis. */
  ghost function ParseKnots(ts: seq<Token>, c: nat, known: seq<Knot>): (r: Option<(seq<Knot>, nat)>)
    requires Terminated(ts) && c < |ts|
    ensures r.Some? ==> c < r.value.1 < |ts| && known < r.value.0
    decreases |ts| - c
  {
    var (k, c1) :- ParseKnot(ts, c);
    if ts[c1] == Colon then ParseKnots(ts, c1 + 1, known + [k])
    else if ts[c1] == RightParen then Some((known + [k], c1 + 1))
    else None
  }

  ghost function ParsePrimary(ts: seq<Token>, c: nat): (r: Option<(Expr, nat)>)
    requires Terminated(ts) && c < |ts|
    ensures r.Some? ==> c < r.value.1 < |ts|
    decreases |ts| - c, 0
  {
    match ts[c]
    case Number(value) => Some((Constant(value), c + 1))
    case Variable(name) => Some((Name(name, false), c + 1))
    case LeftParen =>
      var (e, c1) :- ParseTernary(ts, c + 1);
      if ts[c1] == RightParen then Some((e, c1 + 1)) else None
    case Identifier(name) =>
      if name == "true" then Some((Constant(1.0), c + 1))
      else if name == "false" then Some((Constant(0.0), c + 1))
      else if ts[c + 1] != LeftParen then Some((Name(name, true), c + 1))
      else if name == "rampUI" then
        var (knots, c1) :- ParseKnots(ts, c + 2, []);
        Some((Ramp(knots), c1))
      else
        var (args, c1) :- ParseArguments(ts, c + 2, []);
        Some((Apply(name, args), c1))
    case _ => None
  }

  /** Statements separated by semicolons, the last one optionally closed by some; empty statements are skipped. */
  ghost function ParseStatements(ts: seq<Token>, c: nat, known: seq<Statement>): (r: Option<seq<Statement>>)
    requires Terminated(ts) && c < |ts|
    ensures r.Some? ==> known <= r.value && r.value != []
    decreases |ts| - c
  {
    if ts[c] == End then (if known == [] then None else Some(known))
    else if ts[c] == Semicolon then ParseStatements(ts, c + 1, known)
    else
      var assigns := (ts[c].Variable? || ts[c].Identifier?) && ts[c + 1] == Assign;
      var (e, c1) :- ParseTernary(ts, if assigns then c + 2 else c);
      if ts[c1] != Semicolon && ts[c1] != End then None
      else ParseStatements(ts, c1, known + [Statement(if assigns then Some(ts[c].name) else None, e)])
  }

  ghost function ParseProgram(ts: seq<Token>): Option<seq<Statement>>
    requires Terminated(ts)
  {
    ParseStatements(ts, 0, [])
  }
}
