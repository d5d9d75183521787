/**
 Written expressions, token by token, without any parser: how each construct is written, and which operands it
 takes without parentheses. The grammar reads exactly these, and reads each as its own tree.
 */
module ExpressionPhrases {
  import opened Wrappers
  import opened ExpressionSyntax

  datatype Sign = Unsigned | Positive | Negative

  /** A number with an optional sign, as ramps write them. */
  datatype SignedNumber = SignedNumber(sign: Sign, size: real)

  datatype WrittenKnot = WrittenKnot(position: SignedNumber, value: SignedNumber, interpolation: SignedNumber)

  datatype PrefixOp = Plain | Minused | Banged

  /** An expression as it is written; parentheses are part of it. */
  datatype Phrase =
    | Numeral(value: real)
    | TruthWord(truth: bool)
    | Dollar(name: string)
    | Bare(name: string)
    | Group(inner: Phrase)
    | Prefixed(prefix: PrefixOp, arg: Phrase)
    | Infix(op: BinaryOp, left: Phrase, right: Phrase)
    | Conditional(cond: Phrase, yes: Phrase, no: Phrase)
    | Call(name: string, args: seq<Phrase>)
    | MethodCall(receiver: Phrase, name: string, args: seq<Phrase>)
    | RampCall(knots: seq<WrittenKnot>)

  // ---------------------------------------------------------------- how phrases are written

  function OpToken(op: BinaryOp): Token {
    match op
    case Or => OrOr
    case And => AndAnd
    case Eq => EqualEqual
    case Ne => NotEqual
    case Lt => Less
    case Le => LessEqual
    case Gt => Greater
    case Ge => GreaterEqual
    case Add => Plus
    case Sub => Minus
    case Mul => Star
    case Div => Slash
  }

  function PrefixToken(prefix: PrefixOp): Token {
    match prefix
    case Plain => Plus
    case Minused => Minus
    case Banged => Bang
  }

  function SignedTokens(n: SignedNumber): (s: seq<Token>)
    ensures s != []
  {
    match n.sign
    case Unsigned => [Number(n.size)]
    case Positive => [Plus, Number(n.size)]
    case Negative => [Minus, Number(n.size)]
  }

  function KnotTokens(k: WrittenKnot): seq<Token> {
    SignedTokens(k.position) + ([Comma] + (SignedTokens(k.value) + ([Comma] + SignedTokens(k.interpolation))))
  }

  function KnotsTokens(knots: seq<WrittenKnot>): seq<Token>
    requires knots != []
  {
    if |knots| == 1 then KnotTokens(knots[0]) else KnotTokens(knots[0]) + ([Colon] + KnotsTokens(knots[1..]))
  }

  function Tokens(s: Phrase): seq<Token>
    decreases s
  {
    match s
    case Numeral(value) => [Number(value)]
    case TruthWord(truth) => [Identifier(if truth then "true" else "false")]
    case Dollar(name) => [Variable(name)]
    case Bare(name) => [Identifier(name)]
    case Group(inner) => [LeftParen] + (Tokens(inner) + [RightParen])
    case Prefixed(prefix, arg) => [PrefixToken(prefix)] + Tokens(arg)
    case Infix(op, left, right) => Tokens(left) + ([OpToken(op)] + Tokens(right))
    case Conditional(cond, yes, no) => Tokens(cond) + ([Question] + (Tokens(yes) + ([Colon] + Tokens(no))))
    case Call(name, args) => [Identifier(name), LeftParen] + ArgumentTokens(args)
    case MethodCall(receiver, name, args) => Tokens(receiver) + ([Arrow, Identifier(name), LeftParen] + ArgumentTokens(args))
    case RampCall(knots) => [Identifier("rampUI"), LeftParen] + ((if knots == [] then [] else KnotsTokens(knots)) + [RightParen])
  }

  /** Arguments with commas between them, and the closing parenthesis. */
  function ArgumentTokens(args: seq<Phrase>): seq<Token>
    decreases args
  {
    if args == [] then [RightParen]
    else if |args| == 1 then Tokens(args[0]) + [RightParen]
    else Tokens(args[0]) + ([Comma] + ArgumentTokens(args[1..]))
  }

  // ---------------------------------------------------------------- what binds tighter

  /** The rank of an operator: a higher one binds tighter. */
  function OpRank(op: BinaryOp): (r: nat)
    ensures 1 <= r <= 6
  {
    match op
    case Or => 1
    case And => 2
    case Eq => 3
    case Ne => 3
    case Lt => 4
    case Le => 4
    case Gt => 4
    case Ge => 4
    case Add => 5
    case Sub => 5
    case Mul => 6
    case Div => 6
  }

  function Rank(s: Phrase): nat {
    match s
    case Conditional(_, _, _) => 0
    case Infix(op, _, _) => OpRank(op)
    case Prefixed(_, _) => 7
    case _ => 8
  }

  /**
   Operands stand without parentheses only where they bind tightly enough: operators group to the left, a conditional
   takes another one only behind its question mark, and what is called with an arrow is no operator expression.
   */
  predicate Legal(s: Phrase)
    decreases s
  {
    match s
    case Bare(name) => name != "true" && name != "false"
    case Group(inner) => Legal(inner)
    case Prefixed(_, arg) => Legal(arg) && Rank(arg) >= 7
    case Infix(op, left, right) => Legal(left) && Legal(right) && Rank(left) >= OpRank(op) && Rank(right) > OpRank(op)
    case Conditional(cond, yes, no) => Legal(cond) && Legal(yes) && Legal(no) && Rank(cond) >= 1
    case Call(name, args) => AllLegal(args) && name != "true" && name != "false" && name != "rampUI"
    case MethodCall(receiver, _, args) => Legal(receiver) && Rank(receiver) >= 8 && AllLegal(args)
    case RampCall(knots) => knots != []
    case _ => true
  }

  predicate AllLegal(args: seq<Phrase>)
    decreases args
  {
    args == [] || (Legal(args[0]) && AllLegal(args[1..]))
  }

  // ---------------------------------------------------------------- what phrases stand for

  function SignedValue(n: SignedNumber): real {
    if n.sign.Negative? then -n.size else n.size
  }

  function KnotOf(k: WrittenKnot): Knot {
    Knot(SignedValue(k.position), SignedValue(k.value), SignedValue(k.interpolation))
  }

  function KnotsOf(knots: seq<WrittenKnot>): (r: seq<Knot>)
    ensures |r| == |knots|
  {
    if knots == [] then [] else [KnotOf(knots[0])] + KnotsOf(knots[1..])
  }

  function PrefixTree(prefix: PrefixOp, arg: Expr): Expr {
    match prefix
    case Plain => arg
    case Minused => Negate(arg)
    case Banged => Not(arg)
  }

  /** The tree of a phrase. */
  function TreeOf(s: Phrase): Expr
    decreases s
  {
    match s
    case Numeral(value) => Constant(value)
    case TruthWord(truth) => Constant(if truth then 1.0 else 0.0)
    case Dollar(name) => Name(name, false)
    case Bare(name) => Name(name, true)
    case Group(inner) => TreeOf(inner)
    case Prefixed(prefix, arg) => PrefixTree(prefix, TreeOf(arg))
    case Infix(op, left, right) => Binary(op, TreeOf(left), TreeOf(right))
    case Conditional(cond, yes, no) => Select(TreeOf(cond), TreeOf(yes), TreeOf(no))
    case Call(name, args) => Apply(name, TreesOf(args))
    case MethodCall(receiver, name, args) => Apply(name, [TreeOf(receiver)] + TreesOf(args))
    case RampCall(knots) => Ramp(KnotsOf(knots))
  }

  function TreesOf(args: seq<Phrase>): (r: seq<Expr>)
    ensures |r| == |args|
    decreases args
  {
    if args == [] then [] else [TreeOf(args[0])] + TreesOf(args[1..])
  }

  // ---------------------------------------------------------------- tokens in their places

  ghost predicate At(ts: seq<Token>, c: nat, part: seq<Token>) {
    c + |part| <= |ts| && ts[c..c + |part|] == part
  }

  lemma AtSplit(ts: seq<Token>, c: nat, a: seq<Token>, b: seq<Token>)
    requires At(ts, c, a + b)
    ensures At(ts, c, a) && At(ts, c + |a|, b)
  {
    var whole := ts[c..c + |a + b|];
    assert ts[c..c + |a|] == whole[..|a|] == a;
    assert ts[c + |a|..c + |a| + |b|] == whole[|a|..] == b;
  }

  lemma AtFirst(ts: seq<Token>, c: nat, t: Token, rest: seq<Token>)
    requires At(ts, c, [t] + rest)
    ensures c < |ts| && ts[c] == t && At(ts, c + 1, rest)
  {
    AtSplit(ts, c, [t], rest);
    assert ts[c..c + 1][0] == t;
  }

  lemma Regroup<T>(a: seq<T>, b: seq<T>, c: seq<T>)
    ensures a + b + c == a + (b + c)
  {
  }

  /** How tightly a token holds on to the phrase in front of it; a stopper does not at all. */
  function Grip(t: Token): (g: int)
    ensures -1 <= g <= 9
  {
    match t
    case Arrow => 9
    case LeftParen => 9
    case Star => 6
    case Slash => 6
    case Plus => 5
    case Minus => 5
    case Less => 4
    case LessEqual => 4
    case Greater => 4
    case GreaterEqual => 4
    case EqualEqual => 3
    case NotEqual => 3
    case AndAnd => 2
    case OrOr => 1
    case Question => 0
    case _ => -1
  }

  /** The grammar's levels are the ranks. */
  lemma LevelsAreRanks(level: nat, t: Token)
    requires level < LEVELS
    ensures LevelOp(level, t).Some? <==> Grip(t) == level + 1
    ensures LevelOp(level, t).Some? ==> OpToken(LevelOp(level, t).value) == t && OpRank(LevelOp(level, t).value) == level + 1
  {
  }

  lemma OpLevels(op: BinaryOp)
    ensures LevelOp(OpRank(op) - 1, OpToken(op)) == Some(op) && Grip(OpToken(op)) == OpRank(op)
  {
  }

  /** A phrase starts with something that no operator starts with, and has no end or assignment in it. */
  lemma {:induction false} Starts(s: Phrase)
    requires Legal(s)
    ensures Tokens(s) != []
    ensures var t := Tokens(s)[0];
      t != RightParen && t != Semicolon && t != End && (Rank(s) == 8 ==> t != Plus && t != Minus && t != Bang)
    decreases s
  {
    match s
    case Infix(_, left, _) => Starts(left);
    case Conditional(cond, _, _) => Starts(cond);
    case MethodCall(receiver, _, _) => Starts(receiver);
    case _ =>
  }

  // ---------------------------------------------------------------- the grammar reads phrases

  ghost function ParsePostfix(ts: seq<Token>, c: nat): Option<(Expr, nat)>
    requires Terminated(ts) && c < |ts|
  {
    var (e, c1) :- ParsePrimary(ts, c);
    ParseMethods(ts, c1, e)
  }

  /** The parser of a rank. */
  ghost function ParseRank(ts: seq<Token>, c: nat, rank: nat): Option<(Expr, nat)>
    requires Terminated(ts) && c < |ts| && rank <= 8
  {
    if rank == 0 then ParseTernary(ts, c) else if rank == 8 then ParsePostfix(ts, c) else ParseLevel(ts, c, rank - 1)
  }

  lemma SignedReads(ts: seq<Token>, c: nat, n: SignedNumber)
    requires Terminated(ts) && At(ts, c, SignedTokens(n)) && c + |SignedTokens(n)| < |ts|
    ensures ParseSigned(ts, c) == Some((SignedValue(n), c + |SignedTokens(n)|))
  {
    var part := ts[c..c + |SignedTokens(n)|];
    assert ts[c] == part[0] && (n.sign.Unsigned? || ts[c + 1] == part[1]);
  }

  lemma KnotReads(ts: seq<Token>, c: nat, k: WrittenKnot)
    requires Terminated(ts) && At(ts, c, KnotTokens(k)) && c + |KnotTokens(k)| < |ts|
    ensures ParseKnot(ts, c) == Some((KnotOf(k), c + |KnotTokens(k)|))
  {
    hide ParseSigned, SignedTokens, SignedValue, At, Terminated;
    var a, b, d := SignedTokens(k.position), SignedTokens(k.value), SignedTokens(k.interpolation);
    AtSplit(ts, c, a, [Comma] + (b + ([Comma] + d)));
    AtFirst(ts, c + |a|, Comma, b + ([Comma] + d));
    AtSplit(ts, c + |a| + 1, b, [Comma] + d);
    AtFirst(ts, c + |a| + 1 + |b|, Comma, d);
    SignedReads(ts, c, k.position);
    SignedReads(ts, c + |a| + 1, k.value);
    SignedReads(ts, c + |a| + 1 + |b| + 1, k.interpolation);
  }

  lemma {:induction false} KnotsRead(ts: seq<Token>, c: nat, knots: seq<WrittenKnot>, known: seq<Knot>)
    requires Terminated(ts) && knots != [] && At(ts, c, KnotsTokens(knots) + [RightParen]) && c + |KnotsTokens(knots)| + 1 < |ts|
    ensures ParseKnots(ts, c, known) == Some((known + KnotsOf(knots), c + |KnotsTokens(knots)| + 1))
    decreases |knots|
  {
    hide *;
    KnotsParts(knots);
    var first, k := KnotTokens(knots[0]), KnotOf(knots[0]);
    if |knots| == 1 {
      AtSplit(ts, c, first, [RightParen] + []);
      AtFirst(ts, c + |first|, RightParen, []);
      KnotReads(ts, c, knots[0]);
      LastKnot(ts, c, known, k, c + |first|);
    } else {
      var rest := KnotsTokens(knots[1..]) + [RightParen];
      AtSplit(ts, c, first, [Colon] + rest);
      AtFirst(ts, c + |first|, Colon, rest);
      KnotReads(ts, c, knots[0]);
      KnotsRead(ts, c + |first| + 1, knots[1..], known + [k]);
      Regroup(known, [k], KnotsOf(knots[1..]));
      MoreKnots(ts, c, known, k, c + |first|);
    }
  }

  lemma KnotsParts(knots: seq<WrittenKnot>)
    requires knots != []
    ensures KnotsOf(knots) == [KnotOf(knots[0])] + KnotsOf(knots[1..])
    ensures |knots| == 1 ==> KnotsTokens(knots) + [RightParen] == KnotTokens(knots[0]) + ([RightParen] + [])
    ensures |knots| == 1 ==> KnotsOf(knots) == [KnotOf(knots[0])] && KnotsTokens(knots) == KnotTokens(knots[0])
    ensures |knots| > 1 ==> KnotsTokens(knots) + [RightParen] == KnotTokens(knots[0]) + ([Colon] + (KnotsTokens(knots[1..]) + [RightParen]))
    ensures |knots| > 1 ==> |KnotsTokens(knots)| == |KnotTokens(knots[0])| + 1 + |KnotsTokens(knots[1..])|
  {
    hide KnotTokens, KnotOf;
  }

  lemma LastKnot(ts: seq<Token>, c: nat, known: seq<Knot>, k: Knot, next: nat)
    requires Terminated(ts) && c < |ts| && ParseKnot(ts, c) == Some((k, next)) && next < |ts| && ts[next] == RightParen
    ensures ParseKnots(ts, c, known) == Some((known + [k], next + 1))
  {
    hide ParseKnot;
  }

  lemma MoreKnots(ts: seq<Token>, c: nat, known: seq<Knot>, k: Knot, next: nat)
    requires Terminated(ts) && c < |ts| && ParseKnot(ts, c) == Some((k, next)) && next + 1 < |ts| && ts[next] == Colon
    ensures ParseKnots(ts, c, known) == ParseKnots(ts, next + 1, known + [k])
  {
    hide ParseKnot;
  }

  /** Below the prefix operators stands a postfix expression. */
  lemma PostfixBelow(ts: seq<Token>, c: nat)
    requires Terminated(ts) && c < |ts| && ts[c] != Plus && ts[c] != Minus && ts[c] != Bang
    ensures ParseLevel(ts, c, LEVELS) == ParsePostfix(ts, c)
  {
    hide ParsePrimary, ParseMethods;
  }

  /** A phrase is read as its tree wherever what follows does not hold on to it more tightly than the rank asked for. */
  lemma {:induction false} Reads(ts: seq<Token>, c: nat, s: Phrase, rank: nat)
    requires Terminated(ts) && At(ts, c, Tokens(s)) && c + |Tokens(s)| < |ts|
    requires Legal(s) && rank <= Rank(s) && Grip(ts[c + |Tokens(s)|]) < rank
    ensures c < |ts| && ParseRank(ts, c, rank) == Some((TreeOf(s), c + |Tokens(s)|))
    decreases s, 20 - 2 * rank
  {
    hide ParseLevel, ParsePrefix, ParseTernary, ParsePrimary, ParseMethods, Tokens, TreeOf, Legal, Grip, At, Terminated, ParsePostfix;
    StartsInside(ts, c, s);
    if rank == 0 {
      if s.Conditional? { ConditionalReads(ts, c, s); } else {
        RankPositive(s);
        Reads(ts, c, s, 1);
        NoBranches(ts, c, TreeOf(s), c + |Tokens(s)|);
      }
    } else if rank < 7 {
      Chain(ts, c, s, rank - 1);
      ChainEnds(ts, c + |Tokens(s)|, rank - 1, TreeOf(s));
    } else if rank == 7 {
      if s.Prefixed? { PrefixReads(ts, c, s); } else {
        RankTop(s);
        Reads(ts, c, s, 8);
        StartsPostfix(ts, c, s);
        PostfixBelow(ts, c);
      }
    } else {
      NoCall(ts[c + |Tokens(s)|]);
      Postfix(ts, c, s);
      MethodsEnd(ts, c + |Tokens(s)|, TreeOf(s));
    }
  }

  /** At a place, a level reads every written phrase of a tighter rank that nothing behind it holds on to more tightly. */
  ghost predicate LevelReads(ts: seq<Token>, c: nat, level: nat)
    requires Terminated(ts) && c < |ts| && level <= LEVELS
  {
    forall s: Phrase | Legal(s) && Rank(s) > level && WrittenBefore(ts, c, s, level) ::
      ParseLevel(ts, c, level) == Some((TreeOf(s), c + |Tokens(s)|))
  }

  ghost predicate WrittenBefore(ts: seq<Token>, c: nat, s: Phrase, grip: int) {
    At(ts, c, Tokens(s)) && c + |Tokens(s)| < |ts| && Grip(ts[c + |Tokens(s)|]) <= grip
  }

  lemma LevelsRead(ts: seq<Token>, c: nat, level: nat)
    requires Terminated(ts) && c < |ts| && level <= LEVELS
    ensures LevelReads(ts, c, level)
  {
    hide ParseLevel, Tokens, TreeOf, Legal, Grip, At, Terminated;
    forall s: Phrase | Legal(s) && Rank(s) > level && WrittenBefore(ts, c, s, level)
      ensures ParseLevel(ts, c, level) == Some((TreeOf(s), c + |Tokens(s)|))
    {
      Reads(ts, c, s, level + 1);
    }
  }

  lemma NoCall(t: Token)
    requires Grip(t) < 9
    ensures t != LeftParen && t != Arrow
  {
  }

  lemma StartsInside(ts: seq<Token>, c: nat, s: Phrase)
    requires At(ts, c, Tokens(s)) && Legal(s)
    ensures Tokens(s) != [] && c < |ts| && ts[c] == Tokens(s)[0] && ts[c] != RightParen && ts[c] != Semicolon && ts[c] != End
  {
    hide Tokens, Legal;
    Starts(s);
    assert ts[c..c + |Tokens(s)|][0] == ts[c];
  }

  lemma StartsPostfix(ts: seq<Token>, c: nat, s: Phrase)
    requires At(ts, c, Tokens(s)) && Legal(s) && Rank(s) == 8
    ensures c < |ts| && ts[c] != Plus && ts[c] != Minus && ts[c] != Bang
  {
    hide Tokens, Legal;
    Starts(s);
    StartsInside(ts, c, s);
  }

  lemma RankPositive(s: Phrase)
    ensures !s.Conditional? ==> Rank(s) >= 1
  {
  }

  lemma RankTop(s: Phrase)
    ensures Rank(s) >= 7 && !s.Prefixed? ==> Rank(s) == 8
  {
  }

  lemma NoBranches(ts: seq<Token>, c: nat, e: Expr, next: nat)
    requires Terminated(ts) && c < |ts| && ParseRank(ts, c, 1) == Some((e, next)) && next < |ts| && Grip(ts[next]) < 0
    ensures ParseTernary(ts, c) == Some((e, next))
  {
    hide ParseLevel;
  }

  lemma {:induction false} ConditionalReads(ts: seq<Token>, c: nat, s: Phrase)
    requires Terminated(ts) && s.Conditional? && Legal(s) && At(ts, c, Tokens(s)) && c + |Tokens(s)| < |ts|
    requires Grip(ts[c + |Tokens(s)|]) < 0
    ensures c < |ts| && ParseTernary(ts, c) == Some((TreeOf(s), c + |Tokens(s)|))
    decreases s, 0
  {
    hide *;
    ConditionalParts(s);
    var a, b, d := Tokens(s.cond), Tokens(s.yes), Tokens(s.no);
    AtSplit(ts, c, a, [Question] + (b + ([Colon] + d)));
    var q := c + |a|;
    AtFirst(ts, q, Question, b + ([Colon] + d));
    AtSplit(ts, q + 1, b, [Colon] + d);
    var k := q + 1 + |b|;
    AtFirst(ts, k, Colon, d);
    Reads(ts, c, s.cond, 1);
    Reads(ts, q + 1, s.yes, 0);
    Reads(ts, k + 1, s.no, 0);
    TakeBranches(ts, c, q, k, TreeOf(s.cond), TreeOf(s.yes), TreeOf(s.no), k + 1 + |d|);
  }

  lemma ConditionalParts(s: Phrase)
    requires s.Conditional? && Legal(s)
    ensures var a, b, d := Tokens(s.cond), Tokens(s.yes), Tokens(s.no);
      Tokens(s) == a + ([Question] + (b + ([Colon] + d))) && |Tokens(s)| == |a| + 1 + |b| + 1 + |d|
    ensures TreeOf(s) == Select(TreeOf(s.cond), TreeOf(s.yes), TreeOf(s.no))
    ensures Legal(s.cond) && Legal(s.yes) && Legal(s.no) && Rank(s.cond) >= 1
    ensures Grip(Question) == 0 && Grip(Colon) == -1
  {
  }

  lemma TakeBranches(ts: seq<Token>, c: nat, q: nat, k: nat, cond: Expr, yes: Expr, no: Expr, next: nat)
    requires Terminated(ts) && c < |ts| && q + 1 < |ts| && k + 1 < |ts| && ts[q] == Question && ts[k] == Colon
    requires ParseRank(ts, c, 1) == Some((cond, q)) && ParseRank(ts, q + 1, 0) == Some((yes, k))
    requires ParseRank(ts, k + 1, 0) == Some((no, next))
    ensures ParseTernary(ts, c) == Some((Select(cond, yes, no), next))
  {
    hide ParseLevel;
  }

  lemma {:induction false} PrefixReads(ts: seq<Token>, c: nat, s: Phrase)
    requires Terminated(ts) && s.Prefixed? && Legal(s) && At(ts, c, Tokens(s)) && c + |Tokens(s)| < |ts|
    requires Grip(ts[c + |Tokens(s)|]) < 7
    ensures c < |ts| && ParseRank(ts, c, 7) == Some((TreeOf(s), c + |Tokens(s)|))
    decreases s, 0
  {
    hide *;
    PrefixParts(s);
    AtFirst(ts, c, PrefixToken(s.prefix), Tokens(s.arg));
    Reads(ts, c + 1, s.arg, 7);
    PrefixStep(ts, c, s.prefix, TreeOf(s.arg), c + 1 + |Tokens(s.arg)|);
  }

  lemma PrefixParts(s: Phrase)
    requires s.Prefixed? && Legal(s)
    ensures Tokens(s) == [PrefixToken(s.prefix)] + Tokens(s.arg) && |Tokens(s)| == 1 + |Tokens(s.arg)|
    ensures Legal(s.arg) && Rank(s.arg) >= 7 && TreeOf(s) == PrefixTree(s.prefix, TreeOf(s.arg))
  {
  }

  lemma PrefixStep(ts: seq<Token>, c: nat, prefix: PrefixOp, e: Expr, next: nat)
    requires Terminated(ts) && c + 1 < |ts| && ts[c] == PrefixToken(prefix) && ParseRank(ts, c + 1, 7) == Some((e, next))
    ensures ParseRank(ts, c, 7) == Some((PrefixTree(prefix, e), next))
  {
    hide ParsePrimary, ParseMethods;
    assert ParseLevel(ts, c + 1, LEVELS) == ParsePrefix(ts, c + 1) && ParseLevel(ts, c, LEVELS) == ParsePrefix(ts, c);
  }

  /** A chain of a level continues behind any phrase of its rank or a higher one. */
  lemma {:induction false} Chain(ts: seq<Token>, c: nat, s: Phrase, level: nat)
    requires Terminated(ts) && level < LEVELS && At(ts, c, Tokens(s)) && c + |Tokens(s)| < |ts|
    requires Legal(s) && Rank(s) > level && Grip(ts[c + |Tokens(s)|]) <= level + 1
    ensures c < |ts| && ParseLevel(ts, c, level) == ParseRest(ts, c + |Tokens(s)|, level, TreeOf(s))
    decreases s, 19 - 2 * (level + 1)
  {
    hide ParseLevel, ParseRest, ParsePrefix, ParseTernary, ParsePrimary, ParseMethods, Tokens, TreeOf, Legal, Grip, At, Terminated,
      ParsePostfix;
    StartsInside(ts, c, s);
    if Rank(s) == level + 1 {
      InfixRank(s);
      InfixChain(ts, c, s, level);
    } else {
      Reads(ts, c, s, level + 2);
      ChainBegins(ts, c, level, TreeOf(s), c + |Tokens(s)|);
    }
  }

  lemma InfixRank(s: Phrase)
    ensures 1 <= Rank(s) <= 6 <==> s.Infix?
  {
  }

  lemma ChainBegins(ts: seq<Token>, c: nat, level: nat, e: Expr, next: nat)
    requires Terminated(ts) && level < LEVELS && c < |ts| && ParseRank(ts, c, level + 2) == Some((e, next)) && next < |ts|
    ensures ParseLevel(ts, c, level) == ParseRest(ts, next, level, e)
  {
    hide ParseRest, ParsePrefix;
  }

  lemma ChainEnds(ts: seq<Token>, c: nat, level: nat, e: Expr)
    requires Terminated(ts) && level < LEVELS && c < |ts| && Grip(ts[c]) < level + 1
    ensures ParseRest(ts, c, level, e) == Some((e, c))
  {
    LevelsAreRanks(level, ts[c]);
    hide ParseLevel, LevelOp;
  }

  lemma {:induction false} InfixChain(ts: seq<Token>, c: nat, s: Phrase, level: nat)
    requires Terminated(ts) && level < LEVELS && s.Infix? && Legal(s) && OpRank(s.op) == level + 1
    requires At(ts, c, Tokens(s)) && c + |Tokens(s)| < |ts| && Grip(ts[c + |Tokens(s)|]) <= level + 1
    ensures c < |ts| && ParseLevel(ts, c, level) == ParseRest(ts, c + |Tokens(s)|, level, TreeOf(s))
    decreases s, 0
  {
    hide *;
    var l, r, t := Tokens(s.left), Tokens(s.right), OpToken(s.op);
    InfixParts(s, level);
    AtSplit(ts, c, l, [t] + r);
    var k := c + |l|;
    AtFirst(ts, k, t, r);
    Chain(ts, c, s.left, level);
    Reads(ts, k + 1, s.right, level + 2);
    ChainStep(ts, k, level, s.op, TreeOf(s.left), TreeOf(s.right), k + 1 + |r|);
  }

  lemma InfixParts(s: Phrase, level: nat)
    requires s.Infix? && Legal(s) && OpRank(s.op) == level + 1
    ensures Tokens(s) == Tokens(s.left) + ([OpToken(s.op)] + Tokens(s.right)) && |Tokens(s)| == |Tokens(s.left)| + 1 + |Tokens(s.right)|
    ensures TreeOf(s) == Binary(s.op, TreeOf(s.left), TreeOf(s.right))
    ensures Legal(s.left) && Legal(s.right) && Rank(s.left) > level && Rank(s.right) > level + 1 && level < LEVELS && LEVELS == 6
    ensures LevelOp(level, OpToken(s.op)) == Some(s.op) && Grip(OpToken(s.op)) == level + 1
  {
    OpLevels(s.op);
  }

  lemma ChainStep(ts: seq<Token>, c: nat, level: nat, op: BinaryOp, left: Expr, right: Expr, next: nat)
    requires Terminated(ts) && level < LEVELS && c + 1 < |ts| && LevelOp(level, ts[c]) == Some(op) && next < |ts|
    requires ParseRank(ts, c + 1, level + 2) == Some((right, next))
    ensures ParseRest(ts, c, level, left) == ParseRest(ts, next, level, Binary(op, left, right))
  {
    hide LevelOp, ParseLevel;
  }

  lemma MethodsEnd(ts: seq<Token>, c: nat, e: Expr)
    requires Terminated(ts) && c < |ts| && Grip(ts[c]) < 8
    ensures ParseMethods(ts, c, e) == Some((e, c))
  {
    hide ParseArguments;
  }

  /** A postfix expression leaves any arrow behind it to the grammar's loop. */
  lemma {:induction false} Postfix(ts: seq<Token>, c: nat, s: Phrase)
    requires Terminated(ts) && At(ts, c, Tokens(s)) && c + |Tokens(s)| < |ts| && ts[c + |Tokens(s)|] != LeftParen
    requires Legal(s) && Rank(s) == 8
    ensures c < |ts| && ParsePostfix(ts, c) == ParseMethods(ts, c + |Tokens(s)|, TreeOf(s))
    decreases s, 2
  {
    hide Tokens, TreeOf, At, Terminated, Legal;
    StartsInside(ts, c, s);
    if s.MethodCall? {
      MethodReads(ts, c, s);
    } else {
      hide ParsePrimary, ParseMethods, Tokens, TreeOf, At, Terminated, Legal, Rank;
      PrimaryReads(ts, c, s);
    }
  }

  lemma {:induction false} MethodReads(ts: seq<Token>, c: nat, s: Phrase)
    requires Terminated(ts) && s.MethodCall? && Legal(s) && At(ts, c, Tokens(s)) && c + |Tokens(s)| < |ts|
    ensures c < |ts| && ParsePostfix(ts, c) == ParseMethods(ts, c + |Tokens(s)|, TreeOf(s))
    decreases s, 1
  {
    hide *;
    var e, known := TreeOf(s.receiver), [TreeOf(s.receiver)];
    MethodParts(s);
    var a, args := Tokens(s.receiver), ArgumentTokens(s.args);
    AtSplit(ts, c, a, [Arrow] + ([Identifier(s.name)] + ([LeftParen] + args)));
    var k := c + |a|;
    AtFirst(ts, k, Arrow, [Identifier(s.name)] + ([LeftParen] + args));
    AtFirst(ts, k + 1, Identifier(s.name), [LeftParen] + args);
    AtFirst(ts, k + 2, LeftParen, args);
    Postfix(ts, c, s.receiver);
    ArgumentsRead(ts, k + 3, s.args, known);
    MethodStep(ts, k, e, known + TreesOf(s.args), k + 3 + |args|);
  }

  lemma MethodParts(s: Phrase)
    requires s.MethodCall? && Legal(s)
    ensures Tokens(s) == Tokens(s.receiver) + ([Arrow] + ([Identifier(s.name)] + ([LeftParen] + ArgumentTokens(s.args))))
    ensures |Tokens(s)| == |Tokens(s.receiver)| + 3 + |ArgumentTokens(s.args)|
    ensures TreeOf(s) == Apply(s.name, [TreeOf(s.receiver)] + TreesOf(s.args))
    ensures Legal(s.receiver) && AllLegal(s.args) && Rank(s.receiver) == 8
  {
    var args := ArgumentTokens(s.args);
    assert [Arrow, Identifier(s.name), LeftParen] + args == [Arrow] + ([Identifier(s.name)] + ([LeftParen] + args));
  }

  lemma MethodStep(ts: seq<Token>, c: nat, e: Expr, args: seq<Expr>, next: nat)
    requires Terminated(ts) && c + 3 < |ts| && ts[c] == Arrow && ts[c + 1].Identifier? && ts[c + 2] == LeftParen && next < |ts|
    requires ParseArguments(ts, c + 3, [e]) == Some((args, next))
    ensures ParseMethods(ts, c, e) == ParseMethods(ts, next, Apply(ts[c + 1].name, args))
  {
    hide ParseArguments;
  }

  lemma {:induction false} PrimaryReads(ts: seq<Token>, c: nat, s: Phrase)
    requires Terminated(ts) && At(ts, c, Tokens(s)) && c + |Tokens(s)| < |ts| && ts[c + |Tokens(s)|] != LeftParen
    requires Legal(s) && Rank(s) == 8 && !s.MethodCall?
    ensures c < |ts| && ParsePrimary(ts, c) == Some((TreeOf(s), c + |Tokens(s)|))
    decreases s, 1
  {
    match s {
      case Group(inner) => GroupReads(ts, c, inner);
      case Call(name, args) => CallReads(ts, c, s);
      case RampCall(knots) => RampReads(ts, c, s);
      case _ => WordReads(ts, c, s);
    }
  }

  lemma WordReads(ts: seq<Token>, c: nat, s: Phrase)
    requires Terminated(ts) && At(ts, c, Tokens(s)) && c + |Tokens(s)| < |ts| && ts[c + |Tokens(s)|] != LeftParen && Legal(s)
    requires s.Numeral? || s.TruthWord? || s.Dollar? || s.Bare?
    ensures c < |ts| && ParsePrimary(ts, c) == Some((TreeOf(s), c + |Tokens(s)|))
  {
    assert ts[c] == ts[c..c + 1][0];
    hide ParseTernary, ParseArguments, ParseKnots;
  }

  lemma {:induction false} GroupReads(ts: seq<Token>, c: nat, inner: Phrase)
    requires Terminated(ts) && Legal(inner) && At(ts, c, Tokens(Group(inner))) && c + |Tokens(Group(inner))| < |ts|
    ensures c < |ts| && ParsePrimary(ts, c) == Some((TreeOf(inner), c + |Tokens(Group(inner))|))
    decreases inner, 30
  {
    hide *;
    GroupParts(inner);
    var a := Tokens(inner);
    AtFirst(ts, c, LeftParen, a + ([RightParen] + []));
    AtSplit(ts, c + 1, a, [RightParen] + []);
    AtFirst(ts, c + 1 + |a|, RightParen, []);
    Stoppers();
    Reads(ts, c + 1, inner, 0);
    GroupStep(ts, c, TreeOf(inner), c + 1 + |a|);
  }

  lemma GroupParts(inner: Phrase)
    ensures Tokens(Group(inner)) == [LeftParen] + (Tokens(inner) + ([RightParen] + [])) && |Tokens(Group(inner))| == |Tokens(inner)| + 2
  {
    hide TreeOf;
  }

  lemma GroupStep(ts: seq<Token>, c: nat, e: Expr, next: nat)
    requires Terminated(ts) && c + 1 < |ts| && ts[c] == LeftParen && ParseRank(ts, c + 1, 0) == Some((e, next)) && next < |ts|
    requires ts[next] == RightParen
    ensures ParsePrimary(ts, c) == Some((e, next + 1))
  {
    hide ParseTernary, ParseKnots, ParseArguments;
  }

  lemma {:induction false} CallReads(ts: seq<Token>, c: nat, s: Phrase)
    requires Terminated(ts) && s.Call? && Legal(s) && At(ts, c, Tokens(s)) && c + |Tokens(s)| < |ts|
    ensures c < |ts| && ParsePrimary(ts, c) == Some((TreeOf(s), c + |Tokens(s)|))
    decreases s, 0
  {
    hide *;
    CallParts(s);
    var args := ArgumentTokens(s.args);
    AtFirst(ts, c, Identifier(s.name), [LeftParen] + args);
    AtFirst(ts, c + 1, LeftParen, args);
    ArgumentsRead(ts, c + 2, s.args, []);
    CallStep(ts, c, TreesOf(s.args), c + |Tokens(s)|);
  }

  lemma CallParts(s: Phrase)
    requires s.Call? && Legal(s)
    ensures Tokens(s) == [Identifier(s.name)] + ([LeftParen] + ArgumentTokens(s.args)) && |Tokens(s)| == 2 + |ArgumentTokens(s.args)|
    ensures TreeOf(s) == Apply(s.name, TreesOf(s.args)) && [] + TreesOf(s.args) == TreesOf(s.args) && AllLegal(s.args)
    ensures s.name != "true" && s.name != "false" && s.name != "rampUI"
  {
    hide ArgumentTokens, TreesOf, AllLegal;
  }

  lemma CallStep(ts: seq<Token>, c: nat, args: seq<Expr>, next: nat)
    requires Terminated(ts) && c + 2 < |ts| && ts[c].Identifier? && ts[c + 1] == LeftParen
    requires ts[c].name != "true" && ts[c].name != "false" && ts[c].name != "rampUI"
    requires ParseArguments(ts, c + 2, []) == Some((args, next))
    ensures ParsePrimary(ts, c) == Some((Apply(ts[c].name, args), next))
  {
    hide ParseKnots, ParseArguments, ParseTernary;
  }

  lemma RampReads(ts: seq<Token>, c: nat, s: Phrase)
    requires Terminated(ts) && s.RampCall? && Legal(s) && At(ts, c, Tokens(s)) && c + |Tokens(s)| < |ts|
    ensures c < |ts| && ParsePrimary(ts, c) == Some((TreeOf(s), c + |Tokens(s)|))
  {
    hide *;
    RampParts(s);
    var body := KnotsTokens(s.knots) + [RightParen];
    AtFirst(ts, c, Identifier("rampUI"), [LeftParen] + body);
    AtFirst(ts, c + 1, LeftParen, body);
    KnotsRead(ts, c + 2, s.knots, []);
    RampStep(ts, c, KnotsOf(s.knots), c + |Tokens(s)|);
  }

  lemma RampParts(s: Phrase)
    requires s.RampCall? && Legal(s)
    ensures s.knots != [] && Tokens(s) == [Identifier("rampUI")] + ([LeftParen] + (KnotsTokens(s.knots) + [RightParen]))
    ensures |Tokens(s)| == 2 + |KnotsTokens(s.knots)| + 1 && TreeOf(s) == Ramp(KnotsOf(s.knots)) && [] + KnotsOf(s.knots) == KnotsOf(s.knots)
  {
    hide KnotsTokens, KnotsOf;
  }

  lemma RampStep(ts: seq<Token>, c: nat, knots: seq<Knot>, next: nat)
    requires Terminated(ts) && c + 2 < |ts| && ts[c] == Identifier("rampUI") && ts[c + 1] == LeftParen
    requires ParseKnots(ts, c + 2, []) == Some((knots, next))
    ensures ParsePrimary(ts, c) == Some((Ramp(knots), next))
  {
    hide ParseKnots, ParseArguments, ParseTernary;
  }

  /** Arguments up to the closing parenthesis. */
  lemma {:induction false} ArgumentsRead(ts: seq<Token>, c: nat, args: seq<Phrase>, known: seq<Expr>)
    requires Terminated(ts) && AllLegal(args) && At(ts, c, ArgumentTokens(args)) && c + |ArgumentTokens(args)| < |ts|
    ensures c < |ts| && ParseArguments(ts, c, known) == Some((known + TreesOf(args), c + |ArgumentTokens(args)|))
    decreases args, 1
  {
    hide At, Terminated, Tokens, ParseTernary, ParseArgumentList;
    if args == [] {
      assert ArgumentTokens(args) == [RightParen] + [];
      AtFirst(ts, c, RightParen, []);
      assert known + TreesOf(args) == known;
    } else {
      ArgumentListReads(ts, c, args, known);
      FirstArgument(ts, c, args);
    }
  }

  lemma FirstArgument(ts: seq<Token>, c: nat, args: seq<Phrase>)
    requires AllLegal(args) && args != [] && At(ts, c, ArgumentTokens(args))
    ensures c < |ts| && ts[c] != RightParen
  {
    hide Tokens, At, Legal;
    if |args| == 1 {
      AtSplit(ts, c, Tokens(args[0]), [RightParen]);
    } else {
      AtSplit(ts, c, Tokens(args[0]), [Comma] + ArgumentTokens(args[1..]));
    }
    StartsInside(ts, c, args[0]);
  }

  lemma {:induction false} ArgumentListReads(ts: seq<Token>, c: nat, args: seq<Phrase>, known: seq<Expr>)
    requires Terminated(ts) && AllLegal(args) && args != [] && At(ts, c, ArgumentTokens(args)) && c + |ArgumentTokens(args)| < |ts|
    ensures c < |ts| && ParseArgumentList(ts, c, known) == Some((known + TreesOf(args), c + |ArgumentTokens(args)|))
    decreases args, 0
  {
    hide *;
    ArgumentParts(args);
    Stoppers();
    var a, e := Tokens(args[0]), TreeOf(args[0]);
    if |args| == 1 {
      AtSplit(ts, c, a, [RightParen] + []);
      AtFirst(ts, c + |a|, RightParen, []);
      Reads(ts, c, args[0], 0);
      LastArgument(ts, c, known, e, c + |a|);
    } else {
      var rest := ArgumentTokens(args[1..]);
      AtSplit(ts, c, a, [Comma] + rest);
      AtFirst(ts, c + |a|, Comma, rest);
      Reads(ts, c, args[0], 0);
      ArgumentListReads(ts, c + |a| + 1, args[1..], known + [e]);
      Regroup(known, [e], TreesOf(args[1..]));
      MoreArguments(ts, c, known, e, c + |a|);
    }
  }

  lemma ArgumentParts(args: seq<Phrase>)
    requires AllLegal(args) && args != []
    ensures Legal(args[0]) && AllLegal(args[1..])
    ensures |args| == 1 ==> ArgumentTokens(args) == Tokens(args[0]) + ([RightParen] + []) && TreesOf(args) == [TreeOf(args[0])]
    ensures |args| == 1 ==> |ArgumentTokens(args)| == |Tokens(args[0])| + 1
    ensures |args| > 1 ==> ArgumentTokens(args) == Tokens(args[0]) + ([Comma] + ArgumentTokens(args[1..]))
    ensures |args| > 1 ==> |ArgumentTokens(args)| == |Tokens(args[0])| + 1 + |ArgumentTokens(args[1..])|
    ensures TreesOf(args) == [TreeOf(args[0])] + TreesOf(args[1..])
  {
    hide Tokens, TreeOf, Legal;
  }

  lemma LastArgument(ts: seq<Token>, c: nat, known: seq<Expr>, e: Expr, next: nat)
    requires Terminated(ts) && c < |ts| && ParseRank(ts, c, 0) == Some((e, next)) && next < |ts| && ts[next] == RightParen
    ensures ParseArgumentList(ts, c, known) == Some((known + [e], next + 1))
  {
    hide ParseTernary;
  }

  lemma MoreArguments(ts: seq<Token>, c: nat, known: seq<Expr>, e: Expr, next: nat)
    requires Terminated(ts) && c < |ts| && ParseRank(ts, c, 0) == Some((e, next)) && next + 1 < |ts| && ts[next] == Comma
    ensures ParseArgumentList(ts, c, known) == ParseArgumentList(ts, next + 1, known + [e])
  {
    hide ParseTernary;
  }

  lemma Stoppers()
    ensures Grip(RightParen) < 0 && Grip(Comma) < 0 && Grip(Semicolon) < 0 && Grip(End) < 0 && Grip(Colon) < 0
  {
  }

  // ---------------------------------------------------------------- the grammar reads nothing else

  /** A legal phrase written between two places. */
  ghost predicate Spells(ts: seq<Token>, c: nat, next: nat, s: Phrase) {
    c <= next <= |ts| && ts[c..next] == Tokens(s) && Legal(s)
  }

  lemma Join(ts: seq<Token>, a: nat, b: nat, c: nat)
    requires a <= b <= c <= |ts|
    ensures ts[a..c] == ts[a..b] + ts[b..c]
  {
  }

  lemma JoinToken(ts: seq<Token>, a: nat, c: nat)
    requires a < c <= |ts|
    ensures ts[a..c] == [ts[a]] + ts[a + 1..c]
  {
  }

  lemma WrittenSigned(ts: seq<Token>, c: nat) returns (n: SignedNumber)
    requires Terminated(ts) && c < |ts| && ParseSigned(ts, c).Some?
    ensures var (value, next) := ParseSigned(ts, c).value; SignedValue(n) == value && ts[c..next] == SignedTokens(n)
  {
    n := if ts[c] == Plus then SignedNumber(Positive, ts[c + 1].value)
         else if ts[c] == Minus then SignedNumber(Negative, ts[c + 1].value)
         else SignedNumber(Unsigned, ts[c].value);
  }

  lemma WrittenKnotAt(ts: seq<Token>, c: nat) returns (k: WrittenKnot)
    requires Terminated(ts) && c < |ts| && ParseKnot(ts, c).Some?
    ensures var (knot, next) := ParseKnot(ts, c).value; KnotOf(k) == knot && ts[c..next] == KnotTokens(k)
  {
    var (_, c1) := ParseSigned(ts, c).value;
    var (_, c2) := ParseSigned(ts, c1 + 1).value;
    var (_, c3) := ParseSigned(ts, c2 + 1).value;
    var a := WrittenSigned(ts, c);
    var b := WrittenSigned(ts, c1 + 1);
    var d := WrittenSigned(ts, c2 + 1);
    k := WrittenKnot(a, b, d);
    hide ParseSigned, SignedTokens, SignedValue, Terminated;
    Join(ts, c, c1, c3);
    JoinToken(ts, c1, c3);
    Join(ts, c1 + 1, c2, c3);
    JoinToken(ts, c2, c3);
  }

  lemma {:induction false} WrittenKnots(ts: seq<Token>, c: nat, known: seq<Knot>) returns (knots: seq<WrittenKnot>)
    requires Terminated(ts) && c < |ts| && ParseKnots(ts, c, known).Some?
    ensures var (all, next) := ParseKnots(ts, c, known).value;
      knots != [] && all == known + KnotsOf(knots) && ts[c..next] == KnotsTokens(knots) + [RightParen]
    decreases |ts| - c
  {
    hide ParseKnot, KnotTokens, KnotOf, KnotsOf, KnotsTokens, Terminated;
    var (knot, c1) := ParseKnot(ts, c).value;
    var k := WrittenKnotAt(ts, c);
    if ts[c1] == Colon {
      var (_, next) := ParseKnots(ts, c1 + 1, known + [knot]).value;
      var rest := WrittenKnots(ts, c1 + 1, known + [knot]);
      knots := [k] + rest;
      KnotSpelt(ts, c, c1, next, k, rest);
      assert known + [knot] + KnotsOf(rest) == known + ([knot] + KnotsOf(rest));
    } else {
      knots := [k];
      LastKnotSpelt(ts, c, c1, k);
    }
  }

  lemma KnotSpelt(ts: seq<Token>, c: nat, c1: nat, next: nat, k: WrittenKnot, rest: seq<WrittenKnot>)
    requires c <= c1 && c1 + 1 <= next <= |ts| && ts[c..c1] == KnotTokens(k) && ts[c1] == Colon && rest != []
    requires ts[c1 + 1..next] == KnotsTokens(rest) + [RightParen]
    ensures KnotsOf([k] + rest) == [KnotOf(k)] + KnotsOf(rest) && ts[c..next] == KnotsTokens([k] + rest) + [RightParen]
  {
    assert ([k] + rest)[1..] == rest;
    hide KnotTokens, KnotOf;
    Join(ts, c, c1, next);
    JoinToken(ts, c1, next);
  }

  lemma LastKnotSpelt(ts: seq<Token>, c: nat, c1: nat, k: WrittenKnot)
    requires c <= c1 < |ts| && ts[c..c1] == KnotTokens(k) && ts[c1] == RightParen
    ensures KnotsOf([k]) == [KnotOf(k)] && ts[c..c1 + 1] == KnotsTokens([k]) + [RightParen]
  {
    assert [k][1..] == [];
    hide KnotTokens, KnotOf;
    Join(ts, c, c1, c1 + 1);
    assert ts[c1..c1 + 1] == [RightParen];
  }

  /** Every expression that the grammar reads is a legal phrase. */
  lemma {:induction false} WrittenTernary(ts: seq<Token>, c: nat) returns (s: Phrase)
    requires Terminated(ts) && c < |ts| && ParseTernary(ts, c).Some?
    ensures var (e, next) := ParseTernary(ts, c).value; Spells(ts, c, next, s) && TreeOf(s) == e
    decreases |ts| - c, 10
  {
    hide ParseLevel, Spells, Tokens, TreeOf, Legal, Rank, Terminated;
    var (cond, c1) := ParseLevel(ts, c, 0).value;
    s := WrittenLevel(ts, c, 0);
    if ts[c1] == Question {
      var (_, c2) := ParseTernary(ts, c1 + 1).value;
      var (_, next) := ParseTernary(ts, c2 + 1).value;
      var yes := WrittenTernary(ts, c1 + 1);
      var no := WrittenTernary(ts, c2 + 1);
      ConditionalSpelt(ts, c, c1, c2, next, s, yes, no);
      s := Conditional(s, yes, no);
    }
  }

  lemma ConditionalSpelt(ts: seq<Token>, c: nat, c1: nat, c2: nat, next: nat, a: Phrase, b: Phrase, d: Phrase)
    requires Spells(ts, c, c1, a) && c1 < |ts| && ts[c1] == Question && Spells(ts, c1 + 1, c2, b)
    requires c2 < |ts| && ts[c2] == Colon && Spells(ts, c2 + 1, next, d) && Rank(a) >= 1
    ensures Spells(ts, c, next, Conditional(a, b, d)) && TreeOf(Conditional(a, b, d)) == Select(TreeOf(a), TreeOf(b), TreeOf(d))
  {
    hide Tokens, TreeOf, Legal, Rank;
    Join(ts, c, c1, next);
    JoinToken(ts, c1, next);
    Join(ts, c1 + 1, c2, next);
    JoinToken(ts, c2, next);
    ConditionalMade(a, b, d);
  }

  lemma ConditionalMade(a: Phrase, b: Phrase, d: Phrase)
    requires Legal(a) && Legal(b) && Legal(d) && Rank(a) >= 1
    ensures var s := Conditional(a, b, d);
      && Tokens(s) == Tokens(a) + ([Question] + (Tokens(b) + ([Colon] + Tokens(d)))) && Legal(s)
      && TreeOf(s) == Select(TreeOf(a), TreeOf(b), TreeOf(d))
  {
  }

  lemma {:induction false} WrittenLevel(ts: seq<Token>, c: nat, level: nat) returns (s: Phrase)
    requires Terminated(ts) && c < |ts| && level <= LEVELS && ParseLevel(ts, c, level).Some?
    ensures var (e, next) := ParseLevel(ts, c, level).value; Spells(ts, c, next, s) && TreeOf(s) == e && Rank(s) > level
    decreases |ts| - c, 9 - level
  {
    hide ParsePrefix, ParseRest, Spells, Tokens, TreeOf, Legal, Rank, Terminated;
    if level == LEVELS {
      s := WrittenPrefix(ts, c);
    } else {
      var (_, c1) := ParseLevel(ts, c, level + 1).value;
      var left := WrittenLevel(ts, c, level + 1);
      s := WrittenRest(ts, c, c1, level, left);
    }
  }

  lemma {:induction false} WrittenRest(ts: seq<Token>, c0: nat, c: nat, level: nat, left: Phrase) returns (s: Phrase)
    requires Terminated(ts) && c0 < c < |ts| && level < LEVELS && Spells(ts, c0, c, left) && Rank(left) > level
    requires ParseRest(ts, c, level, TreeOf(left)).Some?
    ensures var (e, next) := ParseRest(ts, c, level, TreeOf(left)).value; Spells(ts, c0, next, s) && TreeOf(s) == e && Rank(s) > level
    decreases |ts| - c, 9 - level
  {
    hide ParseLevel, Spells, Tokens, TreeOf, Legal, Rank, Terminated, LevelOp;
    s := left;
    var op := LevelOp(level, ts[c]);
    if op.Some? {
      var (_, c1) := ParseLevel(ts, c + 1, level + 1).value;
      var right := WrittenLevel(ts, c + 1, level + 1);
      LevelsAreRanks(level, ts[c]);
      InfixSpelt(ts, c0, c, c1, op.value, level, left, right);
      s := WrittenRest(ts, c0, c1, level, Infix(op.value, left, right));
    }
  }

  lemma InfixSpelt(ts: seq<Token>, c0: nat, c: nat, next: nat, op: BinaryOp, level: nat, a: Phrase, b: Phrase)
    requires Spells(ts, c0, c, a) && c < |ts| && ts[c] == OpToken(op) && OpRank(op) == level + 1 && Spells(ts, c + 1, next, b)
    requires Rank(a) > level && Rank(b) > level + 1
    ensures Spells(ts, c0, next, Infix(op, a, b)) && TreeOf(Infix(op, a, b)) == Binary(op, TreeOf(a), TreeOf(b))
    ensures Rank(Infix(op, a, b)) > level
  {
    Join(ts, c0, c, next);
    JoinToken(ts, c, next);
  }

  lemma {:induction false} WrittenPrefix(ts: seq<Token>, c: nat) returns (s: Phrase)
    requires Terminated(ts) && c < |ts| && ParsePrefix(ts, c).Some?
    ensures var (e, next) := ParsePrefix(ts, c).value; Spells(ts, c, next, s) && TreeOf(s) == e && Rank(s) >= 7
    decreases |ts| - c, 2
  {
    hide ParsePrimary, ParseMethods, Spells, Tokens, TreeOf, Legal, Terminated;
    var (_, next) := ParsePrefix(ts, c).value;
    if ts[c] == Plus || ts[c] == Minus || ts[c] == Bang {
      var arg := WrittenPrefix(ts, c + 1);
      var prefix := if ts[c] == Plus then Plain else if ts[c] == Minus then Minused else Banged;
      PrefixSpelt(ts, c, next, prefix, arg);
      s := Prefixed(prefix, arg);
    } else {
      var (_, c1) := ParsePrimary(ts, c).value;
      var receiver := WrittenPrimary(ts, c);
      s := WrittenMethods(ts, c, c1, receiver);
    }
  }

  lemma PrefixSpelt(ts: seq<Token>, c: nat, next: nat, prefix: PrefixOp, arg: Phrase)
    requires c < |ts| && Spells(ts, c + 1, next, arg) && Rank(arg) >= 7 && ts[c] == PrefixToken(prefix)
    ensures Spells(ts, c, next, Prefixed(prefix, arg)) && TreeOf(Prefixed(prefix, arg)) == PrefixTree(prefix, TreeOf(arg))
  {
    JoinToken(ts, c, next);
  }

  lemma {:induction false} WrittenMethods(ts: seq<Token>, c0: nat, c: nat, receiver: Phrase) returns (s: Phrase)
    requires Terminated(ts) && c0 < c < |ts| && Spells(ts, c0, c, receiver) && Rank(receiver) == 8
    requires ParseMethods(ts, c, TreeOf(receiver)).Some?
    ensures var (e, next) := ParseMethods(ts, c, TreeOf(receiver)).value; Spells(ts, c0, next, s) && TreeOf(s) == e && Rank(s) == 8
    decreases |ts| - c, 1
  {
    hide ParseArguments, Spells, Tokens, TreeOf, TreesOf, Legal, AllLegal, ArgumentTokens;
    s := receiver;
    if ts[c] == Arrow {
      var (_, c1) := ParseArguments(ts, c + 3, [TreeOf(receiver)]).value;
      var args := WrittenArguments(ts, c + 3, [TreeOf(receiver)]);
      MethodSpelt(ts, c0, c, c1, receiver, args);
      s := WrittenMethods(ts, c0, c1, MethodCall(receiver, ts[c + 1].name, args));
    }
  }

  lemma MethodSpelt(ts: seq<Token>, c0: nat, c: nat, next: nat, receiver: Phrase, args: seq<Phrase>)
    requires Spells(ts, c0, c, receiver) && Rank(receiver) == 8 && c + 3 <= next <= |ts|
    requires ts[c] == Arrow && ts[c + 1].Identifier? && ts[c + 2] == LeftParen && AllLegal(args) && ts[c + 3..next] == ArgumentTokens(args)
    ensures var s := MethodCall(receiver, ts[c + 1].name, args);
      Spells(ts, c0, next, s) && Rank(s) == 8 && TreeOf(s) == Apply(ts[c + 1].name, [TreeOf(receiver)] + TreesOf(args))
  {
    Join(ts, c0, c, next);
    Join(ts, c, c + 3, next);
    assert ts[c..c + 3] == [Arrow, Identifier(ts[c + 1].name), LeftParen];
  }

  lemma {:induction false} WrittenArguments(ts: seq<Token>, c: nat, known: seq<Expr>) returns (args: seq<Phrase>)
    requires Terminated(ts) && c < |ts| && ParseArguments(ts, c, known).Some?
    ensures var (all, next) := ParseArguments(ts, c, known).value;
      AllLegal(args) && all == known + TreesOf(args) && ts[c..next] == ArgumentTokens(args)
    decreases |ts| - c, 13
  {
    hide ParseArgumentList, Tokens, TreeOf, Legal, Terminated;
    if ts[c] == RightParen {
      args := [];
      assert ts[c..c + 1] == [RightParen];
      assert known + TreesOf(args) == known;
    } else {
      args := WrittenArgumentList(ts, c, known);
    }
  }

  lemma {:induction false} WrittenArgumentList(ts: seq<Token>, c: nat, known: seq<Expr>) returns (args: seq<Phrase>)
    requires Terminated(ts) && c < |ts| && ParseArgumentList(ts, c, known).Some?
    ensures var (all, next) := ParseArgumentList(ts, c, known).value;
      args != [] && AllLegal(args) && all == known + TreesOf(args) && ts[c..next] == ArgumentTokens(args)
    decreases |ts| - c, 12
  {
    hide ParseTernary, Spells, Tokens, TreeOf, Legal, Terminated, ArgumentTokens, TreesOf, AllLegal;
    var (e, c1) := ParseTernary(ts, c).value;
    var (_, next) := ParseArgumentList(ts, c, known).value;
    var s := WrittenTernary(ts, c);
    if ts[c1] == Comma {
      var rest := WrittenArgumentList(ts, c1 + 1, known + [e]);
      args := [s] + rest;
      ArgumentSpelt(ts, c, c1, next, s, rest);
      assert known + [e] + TreesOf(rest) == known + TreesOf(args);
    } else {
      args := [s];
      LastArgumentSpelt(ts, c, c1, s);
    }
  }

  lemma ArgumentSpelt(ts: seq<Token>, c: nat, c1: nat, next: nat, s: Phrase, rest: seq<Phrase>)
    requires Spells(ts, c, c1, s) && c1 + 1 <= next <= |ts| && ts[c1] == Comma && rest != [] && AllLegal(rest)
    requires ts[c1 + 1..next] == ArgumentTokens(rest)
    ensures AllLegal([s] + rest) && TreesOf([s] + rest) == [TreeOf(s)] + TreesOf(rest) && ts[c..next] == ArgumentTokens([s] + rest)
  {
    assert ([s] + rest)[1..] == rest;
    Join(ts, c, c1, next);
    JoinToken(ts, c1, next);
  }

  lemma LastArgumentSpelt(ts: seq<Token>, c: nat, c1: nat, s: Phrase)
    requires Spells(ts, c, c1, s) && c1 < |ts| && ts[c1] == RightParen
    ensures AllLegal([s]) && TreesOf([s]) == [TreeOf(s)] && ts[c..c1 + 1] == ArgumentTokens([s])
  {
    assert [s][1..] == [];
    Join(ts, c, c1, c1 + 1);
    assert ts[c1..c1 + 1] == [RightParen];
  }

  lemma {:induction false} WrittenPrimary(ts: seq<Token>, c: nat) returns (s: Phrase)
    requires Terminated(ts) && c < |ts| && ParsePrimary(ts, c).Some?
    ensures var (e, next) := ParsePrimary(ts, c).value; Spells(ts, c, next, s) && TreeOf(s) == e && Rank(s) == 8
    decreases |ts| - c, 1
  {
    hide ParseTernary, ParseArguments, ParseKnots, Spells, Tokens, TreeOf, Legal;
    if ts[c] == LeftParen {
      var inner := WrittenTernary(ts, c + 1);
      var (_, c1) := ParseTernary(ts, c + 1).value;
      GroupSpelt(ts, c, c1, inner);
      s := Group(inner);
    } else if ts[c].Identifier? && ts[c].name != "true" && ts[c].name != "false" && ts[c + 1] == LeftParen {
      s := WrittenCall(ts, c);
    } else {
      s := WrittenWord(ts, c);
    }
  }

  lemma WrittenWord(ts: seq<Token>, c: nat) returns (s: Phrase)
    requires Terminated(ts) && c < |ts| && ParsePrimary(ts, c).Some? && ts[c] != LeftParen
    requires !(ts[c].Identifier? && ts[c].name != "true" && ts[c].name != "false" && ts[c + 1] == LeftParen)
    ensures var (e, next) := ParsePrimary(ts, c).value; Spells(ts, c, next, s) && TreeOf(s) == e && Rank(s) == 8
  {
    hide ParseTernary, ParseArguments, ParseKnots;
    assert ts[c..c + 1] == [ts[c]];
    s := match ts[c]
      case Number(value) => Numeral(value)
      case Variable(name) => Dollar(name)
      case Identifier(name) => if name == "true" then TruthWord(true) else if name == "false" then TruthWord(false) else Bare(name)
      case _ => Numeral(0.0);
  }

  lemma GroupSpelt(ts: seq<Token>, c: nat, c1: nat, inner: Phrase)
    requires c < |ts| && ts[c] == LeftParen && Spells(ts, c + 1, c1, inner) && c1 < |ts| && ts[c1] == RightParen
    ensures Spells(ts, c, c1 + 1, Group(inner)) && TreeOf(Group(inner)) == TreeOf(inner)
  {
    JoinToken(ts, c, c1 + 1);
    Join(ts, c + 1, c1, c1 + 1);
    assert ts[c1..c1 + 1] == [RightParen];
  }

  lemma {:induction false} WrittenCall(ts: seq<Token>, c: nat) returns (s: Phrase)
    requires Terminated(ts) && c < |ts| && ParsePrimary(ts, c).Some?
    requires ts[c].Identifier? && ts[c].name != "true" && ts[c].name != "false" && ts[c + 1] == LeftParen
    ensures var (e, next) := ParsePrimary(ts, c).value; Spells(ts, c, next, s) && TreeOf(s) == e && Rank(s) == 8
    decreases |ts| - c, 0
  {
    hide ParseArguments, ParseKnots, ArgumentTokens, KnotsTokens, TreesOf, KnotsOf, AllLegal;
    var (_, next) := ParsePrimary(ts, c).value;
    Join(ts, c, c + 2, next);
    assert ts[c..c + 2] == [ts[c], LeftParen];
    if ts[c].name == "rampUI" {
      var knots := WrittenKnots(ts, c + 2, []);
      assert [] + KnotsOf(knots) == KnotsOf(knots);
      s := RampCall(knots);
    } else {
      var args := WrittenArguments(ts, c + 2, []);
      assert [] + TreesOf(args) == TreesOf(args);
      s := Call(ts[c].name, args);
    }
  }

  // ---------------------------------------------------------------- whole sources

  /** A source is written as expressions, some assigned to a name, and semicolons. */
  datatype Piece =
    | Break
    | Clause(target: Option<Token>, phrase: Phrase)

  function PieceTokens(p: Piece): (s: seq<Token>) {
    match p
    case Break => [Semicolon]
    case Clause(None, phrase) => Tokens(phrase)
    case Clause(Some(name), phrase) => [name, Assign] + Tokens(phrase)
  }

  function SourceTokens(pieces: seq<Piece>): seq<Token> {
    if pieces == [] then [] else PieceTokens(pieces[0]) + SourceTokens(pieces[1..])
  }

  predicate LegalPiece(p: Piece) {
    p.Clause? ==> Legal(p.phrase) && (p.target.Some? ==> p.target.value.Variable? || p.target.value.Identifier?)
  }

  /** Clauses are legal, and semicolons stand between them. */
  predicate LegalSource(pieces: seq<Piece>) {
    && (forall k :: 0 <= k < |pieces| ==> LegalPiece(pieces[k]))
    && (forall k :: 0 <= k < |pieces| - 1 && pieces[k].Clause? ==> pieces[k + 1].Break?)
  }

  lemma LegalTail(pieces: seq<Piece>)
    requires LegalSource(pieces) && pieces != []
    ensures LegalPiece(pieces[0]) && LegalSource(pieces[1..])
  {
    hide LegalPiece;
    var rest := pieces[1..];
    assert forall k :: 0 <= k < |rest| ==> rest[k] == pieces[k + 1];
  }

  function StatementOf(p: Piece): Statement
    requires LegalPiece(p) && p.Clause?
  {
    Statement(if p.target.None? then None else Some(p.target.value.name), TreeOf(p.phrase))
  }

  function OwnStatement(p: Piece): seq<Statement>
    requires LegalPiece(p)
  {
    if p.Clause? then [StatementOf(p)] else []
  }

  /** What a source says. */
  function StatementsOf(pieces: seq<Piece>): seq<Statement>
    requires LegalSource(pieces)
  {
    if pieces == [] then []
    else
      assert LegalSource(pieces[1..]) by { LegalTail(pieces); }
      OwnStatement(pieces[0]) + StatementsOf(pieces[1..])
  }

  /** Phrases contain neither assignments nor ends. */
  lemma {:induction false} Clean(s: Phrase)
    ensures Assign !in Tokens(s) && End !in Tokens(s) && Semicolon !in Tokens(s)
    decreases s, 0
  {
    hide ArgumentTokens, KnotsTokens;
    match s
    case Group(inner) => Clean(inner);
    case Prefixed(_, arg) => Clean(arg);
    case Infix(_, left, right) =>
      Clean(left);
      Clean(right);
    case Conditional(cond, yes, no) =>
      Clean(cond);
      Clean(yes);
      Clean(no);
      CleanBranches(Tokens(cond), Tokens(yes), Tokens(no));
    case Call(_, args) => CleanArguments(args);
    case MethodCall(receiver, _, args) =>
      Clean(receiver);
      CleanArguments(args);
    case RampCall(knots) => if knots != [] { CleanKnots(knots); }
    case _ =>
  }

  lemma CleanBranches(a: seq<Token>, b: seq<Token>, d: seq<Token>)
    ensures forall t :: t in a + ([Question] + (b + ([Colon] + d))) ==> t in a || t in b || t in d || t == Question || t == Colon
  {
  }

  lemma {:induction false} CleanArguments(args: seq<Phrase>)
    ensures var s := ArgumentTokens(args); Assign !in s && End !in s && Semicolon !in s
    decreases args, 0
  {
    if args != [] {
      Clean(args[0]);
      CleanArguments(args[1..]);
    }
  }

  lemma CleanKnot(k: WrittenKnot)
    ensures var s := KnotTokens(k); Assign !in s && End !in s && Semicolon !in s
  {
  }

  lemma {:induction false} CleanKnots(knots: seq<WrittenKnot>)
    requires knots != []
    ensures var s := KnotsTokens(knots); Assign !in s && End !in s && Semicolon !in s
    decreases |knots|
  {
    CleanKnot(knots[0]);
    hide KnotTokens;
    if |knots| > 1 { CleanKnots(knots[1..]); }
  }

  lemma {:induction false} CleanSource(pieces: seq<Piece>)
    requires LegalSource(pieces)
    ensures End !in SourceTokens(pieces)
  {
    if pieces != [] {
      LegalTail(pieces);
      CleanSource(pieces[1..]);
      if pieces[0].Clause? { Clean(pieces[0].phrase); }
      hide Tokens;
    }
  }

  lemma SourceTerminated(pieces: seq<Piece>)
    requires LegalSource(pieces)
    ensures Terminated(SourceTokens(pieces) + [End])
  {
    CleanSource(pieces);
    hide SourceTokens;
    var s := SourceTokens(pieces);
    forall i | 0 <= i < |s| ensures s[i] != End { assert s[i] in s; }
  }

  /** A written source is read as its statements, in order. */
  lemma {:induction false} SourceReads(ts: seq<Token>, c: nat, pieces: seq<Piece>, known: seq<Statement>)
    requires Terminated(ts) && LegalSource(pieces) && At(ts, c, SourceTokens(pieces)) && c + |SourceTokens(pieces)| + 1 == |ts|
    ensures c < |ts|
    ensures ParseStatements(ts, c, known)
         == if known + StatementsOf(pieces) == [] then None else Some(known + StatementsOf(pieces))
    decreases |pieces|
  {
    hide *;
    if pieces == [] {
      NoPieces(known);
      NothingReads(ts, c, known);
    } else {
      var p, rest := pieces[0], pieces[1..];
      SourceParts(pieces);
      PieceReads(ts, c, p, rest, known);
      SourceReads(ts, c + |PieceTokens(p)|, rest, known + OwnStatement(p));
      Regroup(known, OwnStatement(p), StatementsOf(rest));
    }
  }

  lemma PieceReads(ts: seq<Token>, c: nat, p: Piece, rest: seq<Piece>, known: seq<Statement>)
    requires Terminated(ts) && LegalSource([p] + rest) && LegalPiece(p) && LegalSource(rest)
    requires At(ts, c, PieceTokens(p) + SourceTokens(rest)) && c + |PieceTokens(p)| + |SourceTokens(rest)| + 1 == |ts|
    ensures At(ts, c + |PieceTokens(p)|, SourceTokens(rest))
    ensures ParseStatements(ts, c, known) == ParseStatements(ts, c + |PieceTokens(p)|, known + OwnStatement(p))
  {
    hide *;
    AtSplit(ts, c, PieceTokens(p), SourceTokens(rest));
    if p.Clause? {
      AfterClause(ts, c + |PieceTokens(p)|, p, rest);
      ClauseReads(ts, c, p, known);
    } else {
      BreakReads(ts, c, known);
    }
  }

  lemma NoPieces(known: seq<Statement>)
    ensures |SourceTokens([])| == 0 && LegalSource([]) && known + StatementsOf([]) == known
  {
  }

  lemma NothingReads(ts: seq<Token>, c: nat, known: seq<Statement>)
    requires Terminated(ts) && c + 1 == |ts|
    ensures ParseStatements(ts, c, known) == if known == [] then None else Some(known)
  {
    hide ParseTernary;
  }

  lemma SourceParts(pieces: seq<Piece>)
    requires LegalSource(pieces) && pieces != []
    ensures LegalPiece(pieces[0]) && LegalSource(pieces[1..]) && pieces == [pieces[0]] + pieces[1..]
    ensures SourceTokens(pieces) == PieceTokens(pieces[0]) + SourceTokens(pieces[1..])
    ensures StatementsOf(pieces) == OwnStatement(pieces[0]) + StatementsOf(pieces[1..])
  {
    hide PieceTokens, LegalPiece, OwnStatement, LegalSource;
    LegalTail(pieces);
  }

  lemma BreakReads(ts: seq<Token>, c: nat, known: seq<Statement>)
    requires Terminated(ts) && At(ts, c, PieceTokens(Break)) && c + |PieceTokens(Break)| < |ts|
    ensures |PieceTokens(Break)| == 1 && ParseStatements(ts, c, known) == ParseStatements(ts, c + 1, known + OwnStatement(Break))
  {
    assert ts[c] == ts[c..c + 1][0] && known + OwnStatement(Break) == known;
    hide ParseTernary;
  }

  /** A clause is followed by a semicolon or by the end. */
  lemma AfterClause(ts: seq<Token>, next: nat, p: Piece, rest: seq<Piece>)
    requires Terminated(ts) && LegalSource([p] + rest) && p.Clause?
    requires At(ts, next, SourceTokens(rest)) && next + |SourceTokens(rest)| + 1 == |ts|
    ensures next < |ts| && (ts[next] == Semicolon || ts[next] == End)
  {
    if rest != [] {
      assert ([p] + rest)[1] == rest[0] && ([p] + rest)[0] == p;
      assert rest[0].Break?;
      assert ts[next] == ts[next..next + |SourceTokens(rest)|][0];
    }
  }

  lemma ClauseReads(ts: seq<Token>, c: nat, p: Piece, known: seq<Statement>)
    requires Terminated(ts) && LegalPiece(p) && p.Clause? && At(ts, c, PieceTokens(p))
    requires var next := c + |PieceTokens(p)|; next < |ts| && (ts[next] == Semicolon || ts[next] == End)
    ensures c < |ts| && ParseStatements(ts, c, known) == ParseStatements(ts, c + |PieceTokens(p)|, known + OwnStatement(p))
  {
    hide *;
    ClauseParts(p);
    Stoppers();
    var s := p.phrase;
    if p.target.Some? {
      AtFirst(ts, c, p.target.value, [Assign] + Tokens(s));
      AtFirst(ts, c + 1, Assign, Tokens(s));
      Reads(ts, c + 2, s, 0);
      AssignmentStep(ts, c, known, TreeOf(s), c + |PieceTokens(p)|);
    } else {
      NoAssignment(ts, c, s);
      StartsInside(ts, c, s);
      Reads(ts, c, s, 0);
      ExpressionStep(ts, c, known, TreeOf(s), c + |PieceTokens(p)|);
    }
  }

  lemma ClauseParts(p: Piece)
    requires LegalPiece(p) && p.Clause?
    ensures Legal(p.phrase) && OwnStatement(p) == [Statement(if p.target.None? then None else Some(p.target.value.name), TreeOf(p.phrase))]
    ensures p.target.None? ==> PieceTokens(p) == Tokens(p.phrase)
    ensures p.target.Some? ==> p.target.value.Variable? || p.target.value.Identifier?
    ensures p.target.Some? ==> PieceTokens(p) == [p.target.value] + ([Assign] + Tokens(p.phrase)) && |PieceTokens(p)| == 2 + |Tokens(p.phrase)|
  {
    hide Tokens, TreeOf, Legal;
  }

  lemma AssignmentStep(ts: seq<Token>, c: nat, known: seq<Statement>, e: Expr, next: nat)
    requires Terminated(ts) && c + 2 < |ts| && (ts[c].Variable? || ts[c].Identifier?) && ts[c + 1] == Assign
    requires ParseRank(ts, c + 2, 0) == Some((e, next)) && next < |ts| && (ts[next] == Semicolon || ts[next] == End)
    ensures ParseStatements(ts, c, known) == ParseStatements(ts, next, known + [Statement(Some(ts[c].name), e)])
  {
    hide ParseTernary;
  }

  lemma ExpressionStep(ts: seq<Token>, c: nat, known: seq<Statement>, e: Expr, next: nat)
    requires Terminated(ts) && c + 1 < |ts| && ts[c + 1] != Assign && ts[c] != Semicolon && ts[c] != End
    requires ParseRank(ts, c, 0) == Some((e, next)) && next < |ts| && (ts[next] == Semicolon || ts[next] == End)
    ensures ParseStatements(ts, c, known) == ParseStatements(ts, next, known + [Statement(None, e)])
  {
    hide ParseTernary;
  }

  lemma NoAssignment(ts: seq<Token>, c: nat, s: Phrase)
    requires Legal(s) && At(ts, c, Tokens(s)) && c + |Tokens(s)| < |ts|
    requires ts[c + |Tokens(s)|] == Semicolon || ts[c + |Tokens(s)|] == End
    ensures c + 1 < |ts| && ts[c + 1] != Assign
  {
    Starts(s);
    Clean(s);
    hide Tokens, Legal;
    if |Tokens(s)| > 1 {
      assert ts[c + 1] == ts[c..c + |Tokens(s)|][1];
      assert ts[c + 1] in Tokens(s);
    }
  }

  /** Every source that the grammar reads is a written one. */
  lemma {:induction false} WrittenStatements(ts: seq<Token>, c: nat, known: seq<Statement>) returns (pieces: seq<Piece>)
    requires Terminated(ts) && c < |ts| && ParseStatements(ts, c, known).Some?
    ensures LegalSource(pieces) && ts[c..] == SourceTokens(pieces) + [End]
    ensures ParseStatements(ts, c, known).value == known + StatementsOf(pieces)
    ensures ts[c] == Semicolon || ts[c] == End ==> pieces == [] || pieces[0].Break?
    decreases |ts| - c
  {
    hide ParseStatements, PieceTokens, SourceTokens, StatementsOf, OwnStatement, LegalPiece, LegalSource;
    if ts[c] == End {
      pieces := [];
      NothingWritten(ts, c);
      NoPieces(known);
      NothingReads(ts, c, known);
    } else {
      var p, next;
      if ts[c] == Semicolon {
        p, next := Break, c + 1;
        BreakWritten(ts, c, known);
      } else {
        p, next := WrittenClause(ts, c, known);
      }
      var rest := WrittenStatements(ts, next, known + OwnStatement(p));
      pieces := [p] + rest;
      PieceLegal(ts, c, next, p, rest);
      assert known + OwnStatement(p) + StatementsOf(rest) == known + (OwnStatement(p) + StatementsOf(rest));
    }
  }

  lemma NothingWritten(ts: seq<Token>, c: nat)
    requires Terminated(ts) && c < |ts| && ts[c] == End
    ensures c + 1 == |ts| && LegalSource([]) && ts[c..] == SourceTokens([]) + [End]
  {
  }

  lemma BreakWritten(ts: seq<Token>, c: nat, known: seq<Statement>)
    requires Terminated(ts) && c < |ts| && ts[c] == Semicolon
    ensures c + 1 < |ts| && LegalPiece(Break) && ts[c..c + 1] == PieceTokens(Break)
    ensures ParseStatements(ts, c, known) == ParseStatements(ts, c + 1, known + OwnStatement(Break))
  {
    assert known + OwnStatement(Break) == known;
    hide ParseTernary;
  }

  lemma PieceLegal(ts: seq<Token>, c: nat, next: nat, p: Piece, rest: seq<Piece>)
    requires LegalPiece(p) && LegalSource(rest) && (p.Clause? ==> rest == [] || rest[0].Break?)
    requires c <= next <= |ts| && ts[c..next] == PieceTokens(p) && ts[next..] == SourceTokens(rest) + [End]
    ensures LegalSource([p] + rest) && StatementsOf([p] + rest) == OwnStatement(p) + StatementsOf(rest)
    ensures ts[c..] == SourceTokens([p] + rest) + [End]
  {
    hide LegalPiece, PieceTokens, OwnStatement;
    var pieces := [p] + rest;
    assert forall k :: 1 <= k < |pieces| ==> pieces[k] == rest[k - 1];
    assert pieces[1..] == rest;
    assert ts[c..] == ts[c..next] + ts[next..];
  }

  lemma WrittenClause(ts: seq<Token>, c: nat, known: seq<Statement>) returns (p: Piece, next: nat)
    requires Terminated(ts) && c < |ts| && ts[c] != End && ts[c] != Semicolon && ParseStatements(ts, c, known).Some?
    ensures c < next < |ts| && (ts[next] == Semicolon || ts[next] == End) && LegalPiece(p) && p.Clause? && ts[c..next] == PieceTokens(p)
    ensures ParseStatements(ts, c, known) == ParseStatements(ts, next, known + OwnStatement(p))
  {
    var assigns := (ts[c].Variable? || ts[c].Identifier?) && ts[c + 1] == Assign;
    var at := if assigns then c + 2 else c;
    next := ParseTernary(ts, at).value.1;
    var s := WrittenTernary(ts, at);
    p := Clause(if assigns then Some(ts[c]) else None, s);
    Join(ts, c, at, next);
    assert assigns ==> ts[c..at] == [ts[c], Assign];
    assert !assigns ==> ts[c..at] == [];
    hide Tokens, Legal, ParseTernary, TreeOf;
  }

  /** The tokens are those of a legal source and an end. */
  ghost predicate Writes(pieces: seq<Piece>, ts: seq<Token>) {
    LegalSource(pieces) && ts == SourceTokens(pieces) + [End]
  }

  lemma WritesLegal(ts: seq<Token>)
    ensures forall pieces :: Writes(pieces, ts) ==> LegalSource(pieces)
  {
    hide LegalSource, SourceTokens;
  }

  /** A source and its reading: the grammar accepts exactly the written sources, and reads their statements. */
  lemma GrammarIsWriting(ts: seq<Token>)
    requires Terminated(ts)
    ensures forall pieces :: Writes(pieces, ts) ==>
      ParseProgram(ts) == if StatementsOf(pieces) == [] then None else Some(StatementsOf(pieces))
    ensures ParseProgram(ts).Some? ==> exists pieces :: Writes(pieces, ts) && StatementsOf(pieces) == ParseProgram(ts).value
  {
    forall pieces | Writes(pieces, ts)
      ensures ParseProgram(ts) == if StatementsOf(pieces) == [] then None else Some(StatementsOf(pieces))
    {
      hide SourceTokens, StatementsOf, LegalSource;
      assert ts[0..0 + |SourceTokens(pieces)|] == SourceTokens(pieces);
      SourceReads(ts, 0, pieces, []);
      assert [] + StatementsOf(pieces) == StatementsOf(pieces);
    }
    if ParseProgram(ts).Some? {
      var pieces := WrittenStatements(ts, 0, []);
      assert ts[0..] == ts && [] + StatementsOf(pieces) == StatementsOf(pieces);
      assert Writes(pieces, ts);
    }
  }

  // ---------------------------------------------------------------- the sparing printer

  /** A tree that can be written: names are not taken for words, and calls by name are not ramps. */
  predicate Writable(e: Expr)
    decreases e
  {
    match e
    case Name(name, bare) => bare ==> name != "true" && name != "false"
    case Negate(a) => Writable(a)
    case Not(a) => Writable(a)
    case Binary(_, l, r) => Writable(l) && Writable(r)
    case Select(c, t, f) => Writable(c) && Writable(t) && Writable(f)
    case Apply(name, args) => name != "true" && name != "false" && name != "rampUI" && AllWritable(args)
    case Ramp(knots) => knots != []
    case _ => true
  }

  predicate AllWritable(args: seq<Expr>)
    decreases args
  {
    args == [] || (Writable(args[0]) && AllWritable(args[1..]))
  }

  function PlainNumber(x: real): SignedNumber { SignedNumber(Unsigned, x) }

  function PlainKnots(knots: seq<Knot>): (r: seq<WrittenKnot>)
    ensures |r| == |knots|
  {
    if knots == [] then []
    else [WrittenKnot(PlainNumber(knots[0].position), PlainNumber(knots[0].value), PlainNumber(knots[0].interpolation))]
         + PlainKnots(knots[1..])
  }

  /** Parentheses only where an operand binds too loosely. */
  function Held(s: Phrase, rank: nat): Phrase {
    if Rank(s) < rank then Group(s) else s
  }

  function Written(e: Expr): Phrase
    decreases e
  {
    match e
    case Constant(v) => Numeral(v)
    case Name(name, bare) => if bare then Bare(name) else Dollar(name)
    case Negate(a) => Prefixed(Minused, Held(Written(a), 7))
    case Not(a) => Prefixed(Banged, Held(Written(a), 7))
    case Binary(op, l, r) => Infix(op, Held(Written(l), OpRank(op)), Held(Written(r), OpRank(op) + 1))
    case Select(c, t, f) => Conditional(Held(Written(c), 1), Written(t), Written(f))
    case Apply(name, args) => Call(name, AllWritten(args))
    case Ramp(knots) => RampCall(PlainKnots(knots))
  }

  function AllWritten(args: seq<Expr>): (r: seq<Phrase>)
    ensures |r| == |args|
    decreases args
  {
    if args == [] then [] else [Written(args[0])] + AllWritten(args[1..])
  }

  lemma {:induction false} WrittenIsLegal(e: Expr)
    requires Writable(e)
    ensures Legal(Written(e)) && TreeOf(Written(e)) == e
    decreases e, 0
  {
    match e
    case Negate(a) => WrittenIsLegal(a);
    case Not(a) => WrittenIsLegal(a);
    case Binary(_, l, r) =>
      WrittenIsLegal(l);
      WrittenIsLegal(r);
    case Select(c, t, f) =>
      WrittenIsLegal(c);
      WrittenIsLegal(t);
      WrittenIsLegal(f);
    case Apply(_, args) => AllWrittenLegal(args);
    case Ramp(knots) => PlainKnotsOf(knots);
    case _ =>
  }

  lemma {:induction false} AllWrittenLegal(args: seq<Expr>)
    requires AllWritable(args)
    ensures AllLegal(AllWritten(args)) && TreesOf(AllWritten(args)) == args
    decreases args, 0
  {
    if args != [] {
      WrittenIsLegal(args[0]);
      AllWrittenLegal(args[1..]);
      assert AllWritten(args)[1..] == AllWritten(args[1..]);
    }
  }

  lemma {:induction false} PlainKnotsOf(knots: seq<Knot>)
    ensures KnotsOf(PlainKnots(knots)) == knots
  {
    if knots != [] {
      PlainKnotsOf(knots[1..]);
      assert PlainKnots(knots)[1..] == PlainKnots(knots[1..]);
    }
  }

  /** Any tree, printed with as few parentheses as its operators allow, parses back to itself. */
  lemma PrintedTreeReads(e: Expr)
    requires Writable(e)
    ensures Terminated(Tokens(Written(e)) + [End])
    ensures ParseProgram(Tokens(Written(e)) + [End]) == Some([Statement(None, e)])
  {
    WrittenIsLegal(e);
    var p := Clause(None, Written(e));
    assert SourceTokens([p]) == Tokens(Written(e)) by { assert [p][1..] == []; }
    assert StatementsOf([p]) == [Statement(None, e)] by { assert [p][1..] == []; }
    hide Written, Tokens, TreeOf, Legal, SourceTokens, StatementsOf, ParseProgram;
    SourceTerminated([p]);
    assert Writes([p], Tokens(Written(e)) + [End]);
    GrammarIsWriting(Tokens(Written(e)) + [End]);
  }
}
