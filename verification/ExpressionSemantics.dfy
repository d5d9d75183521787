/**
 The meaning of a syntax tree, independent of any instruction encoding. Every branch and
 argument is evaluated; an assignment binds a value; `rand` calls are numbered in the
 order in which their argument lists close. None means that some value is not finite. For a
 ramp the meaning is the evaluator's function of the ramp's points, which `Ramps` describes.
 */
module ExpressionSemantics {
  import opened Wrappers
  import opened ExpressionSyntax
  import P = ExpressionProgram

  /** What a name, the seeds and the library functions stand for. */
  datatype World = World(lookup: string -> real, context: P.Context, math: P.Math, expressionSeed: nat, straySeed: nat)

  /** How many `rand` calls a tree contains. */
  ghost function RandCalls(e: Expr): nat
    decreases e
  {
    match e
    case Negate(a) => RandCalls(a)
    case Not(a) => RandCalls(a)
    case Binary(_, l, r) => RandCalls(l) + RandCalls(r)
    case Select(a, b, c) => RandCalls(a) + RandCalls(b) + RandCalls(c)
    case Apply(name, args) => RandCallsIn(args) + if FunctionNamed(name) == Some(Rand) then 1 else 0
    case _ => 0
  }

  ghost function RandCallsIn(args: seq<Expr>): nat
    decreases args
  {
    if args == [] then 0 else RandCallsIn(args[..|args| - 1]) + RandCalls(args[|args| - 1])
  }

  function Divided(a: real, b: real): Option<real> {
    if b != 0.0 then Some(a / b) else None
  }

  function Bit(b: bool): real {
    if b then 1.0 else 0.0
  }

  ghost function BinaryMeaning(op: BinaryOp, x: real, y: real): Option<real> {
    match op
    case Or => Some(Bit(!(x == 0.0 && y == 0.0)))
    case And => Some(Bit(x != 0.0 && y != 0.0))
    case Eq => Some(Bit(x == y))
    case Ne => Some(Bit(x != y))
    case Lt => Some(Bit(x < y))
    case Le => Some(Bit(x <= y))
    case Gt => Some(Bit(y < x))
    case Ge => Some(Bit(y <= x))
    case Add => Some(x + y)
    case Sub => Some(x - y)
    case Mul => Some(P.Product(x, y))
    case Div => Divided(x, y)
  }

  /** `rand(lo, hi, seed)`, every part optional; `site` numbers the call in the source. */
  ghost function RandMeaning(w: World, args: seq<real>, site: nat): real
    requires |args| <= 3
  {
    var c := w.context;
    var siteSeed := w.math.hash([w.expressionSeed as real, site as real]);
    var base := [c.u, c.v, c.faceSeed, siteSeed];
    var x := w.math.hash(if |args| % 2 == 1 then base + [args[|args| - 1]] else base);
    if |args| < 2 then x else args[0] + P.Product(args[1] - args[0], x)
  }

  ghost function SmoothstepMeaning(x: real, lo: real, hi: real): Option<real> {
    if lo != hi then
      var t := (x - lo) / (hi - lo);
      Some(if t < 0.0 then 0.0 else if t > 1.0 then 1.0 else P.SmoothCurve(t))
    else if x < lo then Some(0.0) else if x > lo then Some(1.0) else None
  }

  /** The meaning of a call with evaluated arguments; a `rand` is the `site`-th random call. */
  ghost function CallMeaning(w: World, f: Function, args: seq<real>, site: nat): Option<real> {
    match f
    case Hash => Some(w.math.hash(args))
    case Rand => if |args| <= 3 then Some(RandMeaning(w, args, site)) else None
    case Stray =>
      var c, seed := w.context, w.math.hash([w.straySeed as real, 0.0]);
      Some(Bit(100.0 * w.math.hash([c.u, c.v, c.faceSeed, seed]) < c.strayPercentage))
    case Min => if |args| != 2 then None else Some(if args[0] <= args[1] then args[0] else args[1])
    case Max => if |args| != 2 then None else Some(if args[0] <= args[1] then args[1] else args[0])
    case ClampTo => if |args| != 3 then None else Some(P.Clamp(args[0], args[1], args[2]))
    case Gamma => if |args| != 2 then None else w.math.gamma(args[0], args[1])
    case Contrast => if |args| != 2 then None else w.math.contrast(args[0], args[1])
    case Smoothstep => if |args| != 3 then None else SmoothstepMeaning(args[0], args[1], args[2])
    case Fit =>
      // From the interval (args[1], args[2]) to the interval (args[3], args[4]).
      if |args| != 5 then None else
      var q :- Divided(P.Product(args[0] - args[1], args[4] - args[3]), args[2] - args[1]);
      Some(q + args[3])
  }

  function KnotPoints(knots: seq<Knot>): (r: seq<P.RampPoint>)
    ensures |r| == |knots|
  {
    seq(|knots|, k requires 0 <= k < |knots| =>
      var z := knots[k].interpolation.Floor;
      P.RampPoint(knots[k].position, knots[k].value, if z < 0 then 0 else z))
  }

  /** The value of a tree whose `rand` calls are numbered from `site`. */
  ghost function Eval(w: World, locals: map<string, real>, e: Expr, site: nat): Option<real>
    decreases e
  {
    match e
    case Constant(v) => Some(v)
    case Name(name, _) => Some(if name in locals then locals[name] else w.lookup(name))
    case Negate(a) =>
      var x :- Eval(w, locals, a, site);
      Some(0.0 - x)
    case Not(a) =>
      var x :- Eval(w, locals, a, site);
      Some(Bit(x == 0.0))
    case Binary(op, l, r) =>
      var x :- Eval(w, locals, l, site);
      var y :- Eval(w, locals, r, site + RandCalls(l));
      BinaryMeaning(op, x, y)
    case Select(a, b, c) =>
      var x :- Eval(w, locals, a, site);
      var y :- Eval(w, locals, b, site + RandCalls(a));
      var z :- Eval(w, locals, c, site + RandCalls(a) + RandCalls(b));
      Some(if x == 0.0 then z else y)
    case Apply(name, args) =>
      var xs :- EvalAll(w, locals, args, site);
      var f :- FunctionNamed(name);
      CallMeaning(w, f, xs, site + RandCallsIn(args))
    case Ramp(knots) =>
      var r := P.RampValue(KnotPoints(knots), w.context.t);
      if r.Ok? then Some(r.value) else None
  }

  ghost function EvalAll(w: World, locals: map<string, real>, args: seq<Expr>, site: nat): (r: Option<seq<real>>)
    ensures r.Some? ==> |r.value| == |args|
    decreases args
  {
    if args == [] then Some([])
    else
      var init := args[..|args| - 1];
      var xs :- EvalAll(w, locals, init, site);
      var x :- Eval(w, locals, args[|args| - 1], site + RandCallsIn(init));
      Some(xs + [x])
  }

  /** The bindings, the number of `rand` calls and the last value after a list of statements. */
  datatype Outcome = Outcome(locals: map<string, real>, site: nat, result: real)

  ghost function EvalStatements(w: World, statements: seq<Statement>): Option<Outcome>
  {
    if statements == [] then Some(Outcome(map[], 0, 0.0))
    else
      var s := statements[|statements| - 1];
      var o :- EvalStatements(w, statements[..|statements| - 1]);
      var x :- Eval(w, o.locals, s.expr, o.site);
      Some(Outcome(if s.target.Some? then o.locals[s.target.value := x] else o.locals, o.site + RandCalls(s.expr), x))
  }

  /** The value of a program: that of its last statement, provided every value on the way is finite. */
  ghost function EvalProgram(w: World, statements: seq<Statement>): Option<real> {
    var o :- EvalStatements(w, statements);
    Some(o.result)
  }
}
