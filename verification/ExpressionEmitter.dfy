/** Emission of SSA instructions for a syntax tree, and the proof that they compute its meaning. */
module ExpressionEmitter {
  import opened Wrappers
  import opened ExpressionSyntax
  import opened ExpressionProgram
  import S = ExpressionSemantics

  /** `Unsupported` covers the syntax errors, `SsaOrder` the internal consistency error. */
  datatype CompileError = Unsupported | LimitExceeded | SsaOrder

  /** Limits, and the seeds and hash that determine each random call's site seed. */
  datatype Options = Options(maxInstructions: nat, maxLocals: nat, maxRampPoints: nat,
                             expressionSeed: nat, straySeed: nat, hash: seq<real> -> real)

  const MAX_OPERANDS: nat := 65535
  const MAX_OFFSET: nat := 0xFFFF_FFFF

  /** The state of a compilation: the program so far and the SSA values bound to local names. */
  datatype Builder = Builder(program: Program, locals: map<string, nat>)

  type Emitted = Result<(nat, Builder), CompileError>

  function Fresh(o: Options): Builder {
    Builder(Program([], [], [], [], [], 0, o.expressionSeed, 0), map[])
  }

  function Emit(o: Options, b: Builder, op: Op, operands: seq<nat>, immediate: real, auxiliary: nat): Emitted {
    var p := b.program;
    if |p.instructions| >= o.maxInstructions || |operands| > MAX_OPERANDS || |p.operands| > MAX_OFFSET then
      Err(LimitExceeded)
    else if exists k :: 0 <= k < |operands| && operands[k] >= |p.instructions| then
      Err(SsaOrder)
    else
      Ok((|p.instructions|,
          b.(program := p.(instructions := p.instructions
                             + [Instruction(op, |p.operands|, |operands|, auxiliary, immediate)],
                           operands := p.operands + operands))))
  }

  function BinaryCode(op: BinaryOp): (r: Op)
    ensures ArityFits(r, 2) && r != OpInput && r != OpRamp
  {
    match op
    case Or => OpOr
    case And => OpAnd
    case Eq => OpEqual
    case Ne => OpNotEqual
    case Lt => OpLess
    case Le => OpLessEqual
    case Gt => OpGreater
    case Ge => OpGreaterEqual
    case Add => OpAdd
    case Sub => OpSubtract
    case Mul => OpMultiply
    case Div => OpDivide
  }

  function IndexOf(names: seq<string>, name: string): (k: nat)
    ensures k <= |names| && (k < |names| ==> names[k] == name)
    ensures forall i | 0 <= i < k :: names[i] != name
  {
    if names == [] || names[0] == name then 0 else 1 + IndexOf(names[1..], name)
  }

  /** A local's value, or the input of that name, registered at its first use; bare names must be locals. */
  function EmitName(o: Options, b: Builder, name: string, bare: bool): Emitted {
    if name in b.locals then Ok((b.locals[name], b))
    else if bare then Err(Unsupported)
    else
      var k := IndexOf(b.program.inputs, name);
      var b' := if k < |b.program.inputs| then b
                else b.(program := b.program.(inputs := b.program.inputs + [name]));
      Emit(o, b', OpInput, [], 0.0, k)
  }

  /** The check of one ramp point against the limit and the point before it. */
  predicate KnotAccepted(o: Options, stored: nat, knots: seq<Knot>, k: nat)
    requires k < |knots|
  {
    var q := knots[k];
    && q.interpolation == q.interpolation.Floor as real && 0.0 <= q.interpolation <= 3.0
    && 0.0 <= q.position <= 1.0
    && stored + k < o.maxRampPoints
    && (k > 0 ==> q.position > knots[k - 1].position)
  }

  /** Appends a ramp's points and its range. */
  function WithRamp(b: Builder, knots: seq<Knot>): Builder {
    var p := b.program;
    b.(program := p.(rampPoints := p.rampPoints + S.KnotPoints(knots),
                     ramps := p.ramps + [RampRange(|p.rampPoints|, |knots|)]))
  }

  function EmitRamp(o: Options, b: Builder, knots: seq<Knot>): Emitted {
    var p := b.program;
    if exists k :: 0 <= k < |knots| && !KnotAccepted(o, |p.rampPoints|, knots, k) then Err(Unsupported)
    else if |knots| == 0 || |knots| > MAX_OPERANDS || |p.rampPoints| > MAX_OFFSET || |p.ramps| >= MAX_OFFSET then
      Err(LimitExceeded)
    else Emit(o, WithRamp(b, knots), OpRamp, [], 0.0, |p.ramps|)
  }

  /** Number of arguments and operation of the functions with a fixed argument count. */
  function FixedCall(f: Function): (r: Option<(nat, Op)>)
    ensures r.Some? ==> ArityFits(r.value.1, r.value.0) && r.value.1 != OpInput && r.value.1 != OpRamp
  {
    match f
    case Min => Some((2, OpMinimum))
    case Max => Some((2, OpMaximum))
    case ClampTo => Some((3, OpClamp))
    case Fit => Some((5, OpFit))
    case Gamma => Some((2, OpGamma))
    case Contrast => Some((2, OpContrast))
    case Smoothstep => Some((3, OpSmoothstep))
    case _ => None
  }

  function CountRandom(b: Builder): Builder {
    b.(program := b.program.(randomCalls := b.program.randomCalls + 1))
  }

  function EmitFunction(o: Options, b: Builder, f: Function, args: seq<nat>): Emitted {
    match f
    case Hash => if args == [] then Err(Unsupported) else Emit(o, b, OpHash, args, 0.0, 0)
    case Rand =>
      if |args| > 3 then Err(Unsupported)
      else
        Emit(o, CountRandom(b), OpRandom, args,
             o.hash([b.program.expressionSeed as real, b.program.randomCalls as real]), 0)
    case Stray =>
      if args != [] then Err(Unsupported)
      else Emit(o, b, OpStray, [], o.hash([o.straySeed as real, 0.0]), 0)
    case _ =>
      var (count, op) := FixedCall(f).value;
      if |args| != count then Err(Unsupported) else Emit(o, b, op, args, 0.0, 0)
  }

  function EmitCall(o: Options, b: Builder, name: string, args: seq<nat>): Emitted {
    var f := FunctionNamed(name);
    if f.None? then Err(Unsupported) else EmitFunction(o, b, f.value, args)
  }

  ghost function EmitExpr(o: Options, b: Builder, e: Expr): Emitted
    decreases e
  {
    match e
    case Constant(v) => Emit(o, b, OpConstant, [], v, 0)
    case Name(name, bare) => EmitName(o, b, name, bare)
    case Negate(a) =>
      var (x, b1) :- EmitExpr(o, b, a);
      Emit(o, b1, OpNegate, [x], 0.0, 0)
    case Not(a) =>
      var (x, b1) :- EmitExpr(o, b, a);
      Emit(o, b1, OpNot, [x], 0.0, 0)
    case Binary(op, l, r) =>
      var (x, b1) :- EmitExpr(o, b, l);
      var (y, b2) :- EmitExpr(o, b1, r);
      Emit(o, b2, BinaryCode(op), [x, y], 0.0, 0)
    case Select(c, t, f) =>
      var (x, b1) :- EmitExpr(o, b, c);
      var (y, b2) :- EmitExpr(o, b1, t);
      var (z, b3) :- EmitExpr(o, b2, f);
      Emit(o, b3, OpSelect, [x, y, z], 0.0, 0)
    case Apply(name, args) =>
      var (xs, b1) :- EmitAll(o, b, args);
      EmitCall(o, b1, name, xs)
    case Ramp(knots) => EmitRamp(o, b, knots)
  }

  ghost function EmitAll(o: Options, b: Builder, args: seq<Expr>): (r: Result<(seq<nat>, Builder), CompileError>)
    ensures r.Ok? ==> |r.value.0| == |args|
    decreases args
  {
    if args == [] then Ok(([], b))
    else
      var (xs, b1) :- EmitAll(o, b, args[..|args| - 1]);
      var (x, b2) :- EmitExpr(o, b1, args[|args| - 1]);
      Ok((xs + [x], b2))
  }

  /** The builder after a statement whose value is x. */
  function Bound(b: Builder, x: nat, target: Option<string>): Builder {
    Builder(b.program.(result := x), if target.Some? then b.locals[target.value := x] else b.locals)
  }

  /** Compiles statements in order; each one's value becomes the result, and a target is bound to it. */
  ghost function EmitStatements(o: Options, statements: seq<Statement>): Result<Builder, CompileError>
  {
    if statements == [] then Ok(Fresh(o))
    else
      var b :- EmitStatements(o, statements[..|statements| - 1]);
      var s := statements[|statements| - 1];
      var (x, b1) :- EmitExpr(o, b, s.expr);
      if s.target.Some? && s.target.value !in b1.locals && |b1.locals| >= o.maxLocals then Err(LimitExceeded)
      else
        Ok(Bound(b1, x, s.target))
  }

  // -- what emitting a tree does with its parts

  lemma SelectEmitted(o: Options, b: Builder, c: Expr, t: Expr, f: Expr)
    ensures var r, r1 := EmitExpr(o, b, Select(c, t, f)), EmitExpr(o, b, c);
      && (r1.Err? ==> r.Err?)
      && (r1.Ok? ==> var r2 := EmitExpr(o, r1.value.1, t);
            && (r2.Err? ==> r.Err?)
            && (r2.Ok? ==> var r3 := EmitExpr(o, r2.value.1, f);
                  && (r3.Err? ==> r.Err?)
                  && (r3.Ok? ==> r == Emit(o, r3.value.1, OpSelect, [r1.value.0, r2.value.0, r3.value.0], 0.0, 0))))
  {
    hide Emit, EmitName, EmitRamp, EmitCall;
  }

  lemma BinaryEmitted(o: Options, b: Builder, op: BinaryOp, left: Expr, right: Expr)
    ensures var r, r1 := EmitExpr(o, b, Binary(op, left, right)), EmitExpr(o, b, left);
      && (r1.Err? ==> r.Err?)
      && (r1.Ok? ==> var r2 := EmitExpr(o, r1.value.1, right);
            && (r2.Err? ==> r.Err?)
            && (r2.Ok? ==> r == Emit(o, r2.value.1, BinaryCode(op), [r1.value.0, r2.value.0], 0.0, 0)))
  {
    hide Emit, EmitName, EmitRamp, EmitCall;
  }

  lemma UnaryEmitted(o: Options, b: Builder, a: Expr)
    ensures var r1 := EmitExpr(o, b, a);
      && (r1.Err? ==> EmitExpr(o, b, Negate(a)).Err? && EmitExpr(o, b, Not(a)).Err?)
      && (r1.Ok? ==>
            && EmitExpr(o, b, Negate(a)) == Emit(o, r1.value.1, OpNegate, [r1.value.0], 0.0, 0)
            && EmitExpr(o, b, Not(a)) == Emit(o, r1.value.1, OpNot, [r1.value.0], 0.0, 0))
  {
    hide Emit, EmitName, EmitRamp, EmitCall;
  }

  lemma ApplyEmitted(o: Options, b: Builder, name: string, args: seq<Expr>)
    ensures var r, r1 := EmitExpr(o, b, Apply(name, args)), EmitAll(o, b, args);
      r == if r1.Err? then Err(r1.error) else EmitCall(o, r1.value.1, name, r1.value.0)
  {
    hide Emit, EmitName, EmitRamp, EmitCall;
  }

  lemma MoreArguments(o: Options, b: Builder, args: seq<Expr>, e: Expr)
    ensures var r, r1 := EmitAll(o, b, args + [e]), EmitAll(o, b, args);
      && (r1.Err? ==> r.Err?)
      && (r1.Ok? ==> var r2 := EmitExpr(o, r1.value.1, e);
            && (r2.Err? ==> r.Err?)
            && (r2.Ok? ==> r == Ok((r1.value.0 + [r2.value.0], r2.value.1))))
  {
    hide EmitExpr;
    assert (args + [e])[..|args|] == args;
  }

  // ---------------------------------------------------------------- compiled programs are well formed

  /** Operands in range and in SSA order, arity, and input and ramp indices. */
  ghost predicate InstructionFits(p: Program, n: nat)
    requires n < |p.instructions|
  {
    var i := p.instructions[n];
    && i.offset + i.count <= |p.operands| && ArityFits(i.op, i.count)
    && (forall k | i.offset <= k < i.offset + i.count :: p.operands[k] < n)
    && (i.op == OpInput ==> i.auxiliary < |p.inputs|)
    && (i.op == OpRamp ==> i.auxiliary < |p.ramps|)
  }

  ghost predicate RampFits(p: Program, r: RampRange) {
    && r.count > 0 && r.offset + r.count <= |p.rampPoints|
    && Increasing(p.rampPoints[r.offset..r.offset + r.count])
  }

  ghost predicate Increasing(points: seq<RampPoint>) {
    && (forall k | 0 <= k < |points| :: points[k].interpolation <= 3)
    && (forall k, l | 0 <= k < l < |points| :: points[k].position < points[l].position)
  }

  ghost predicate WellFormed(b: Builder) {
    var p := b.program;
    && (forall n | 0 <= n < |p.instructions| :: InstructionFits(p, n))
    && (forall k | 0 <= k < |p.ramps| :: RampFits(p, p.ramps[k]))
    && (forall name | name in b.locals :: b.locals[name] < |p.instructions|)
    && (forall k, l | 0 <= k < l < |p.inputs| :: p.inputs[k] != p.inputs[l])
  }

  /** Later programs only append. */
  ghost predicate Extends(p: Program, p': Program) {
    && p.instructions <= p'.instructions && p.operands <= p'.operands && p.inputs <= p'.inputs
    && p.rampPoints <= p'.rampPoints && p.ramps <= p'.ramps
    && p'.expressionSeed == p.expressionSeed
  }

  lemma ExtendsKeepsForm(b: Builder, b': Builder)
    requires WellFormed(b) && Extends(b.program, b'.program)
    ensures forall n | 0 <= n < |b.program.instructions| :: InstructionFits(b'.program, n)
    ensures forall k | 0 <= k < |b.program.ramps| :: RampFits(b'.program, b.program.ramps[k])
  {
    var p, p' := b.program, b'.program;
    forall n | 0 <= n < |p.instructions| ensures InstructionFits(p', n) {
      assert InstructionFits(p, n);
      assert p'.instructions[n] == p.instructions[n];
    }
    forall k | 0 <= k < |p.ramps| ensures RampFits(p', p.ramps[k]) {
      var r := p.ramps[k];
      assert p'.rampPoints[r.offset..r.offset + r.count] == p.rampPoints[r.offset..r.offset + r.count];
    }
  }

  /** The value of a good instruction does not change when the program grows. */
  lemma SameInstructionValue(p: Program, p': Program, n: nat, values: seq<real>, c: Context, m: Math)
    requires Extends(p, p') && n < |p.instructions| && InstructionFits(p, n)
    requires forall k | 0 <= k < |p.ramps| :: RampFits(p, p.ramps[k])
    ensures EvalInstruction(p', p'.instructions[n], values, c, m) == EvalInstruction(p, p.instructions[n], values, c, m)
  {
    var i := p.instructions[n];
    assert p'.instructions[n] == i;
    var s, s' := Site(p, i, values), Site(p', i, values);
    forall k ensures s'.Arg(k) == s.Arg(k) {}
    SameArgs(s, s', i.count);
    if i.op == OpRamp {
      var r := p.ramps[i.auxiliary];
      assert RampFits(p, r);
      assert p'.rampPoints[r.offset..r.offset + r.count] == p.rampPoints[r.offset..r.offset + r.count];
    } else {
      SameOp(s, s', c, m);
    }
  }

  lemma SameOp(s: Site, s': Site, c: Context, m: Math)
    requires s.i == s'.i && s.i.op != OpRamp && (forall k: nat :: s'.Arg(k) == s.Arg(k)) && s'.Args(s.i.count) == s.Args(s.i.count)
    ensures EvalOp(s', c, m) == EvalOp(s, c, m)
  {
    match s.i.op case _ =>
  }

  lemma {:induction false} SameArgs(s: Site, s': Site, n: nat)
    requires forall k :: s'.Arg(k) == s.Arg(k)
    ensures s'.Args(n) == s.Args(n)
  {
    if n > 0 { SameArgs(s, s', n - 1); }
  }

  lemma {:induction false} SameValues(b: Builder, p': Program, c: Context, m: Math, n: nat)
    requires WellFormed(b) && Extends(b.program, p') && n <= |b.program.instructions|
    ensures Values(p', c, m, n) == Values(b.program, c, m, n)
  {
    if n > 0 {
      SameValues(b, p', c, m, n - 1);
      var v := Values(b.program, c, m, n - 1);
      assert InstructionFits(b.program, n - 1);
      if v.Ok? { SameInstructionValue(b.program, p', n - 1, v.value, c, m); }
    }
  }

  ghost predicate Grown(b: Builder, b': Builder) {
    WellFormed(b') && Extends(b.program, b'.program) && b'.locals == b.locals
    && b.program.randomCalls <= b'.program.randomCalls
  }

  /** What emission may rely on for its operands and auxiliary index. */
  ghost predicate Emittable(p: Program, op: Op, operands: seq<nat>, auxiliary: nat) {
    && ArityFits(op, |operands|) && (forall k | 0 <= k < |operands| :: operands[k] < |p.instructions|)
    && (op == OpInput ==> auxiliary < |p.inputs|) && (op == OpRamp ==> auxiliary < |p.ramps|)
  }

  lemma EmitGrown(o: Options, b: Builder, op: Op, operands: seq<nat>, immediate: real, auxiliary: nat)
    requires WellFormed(b) && Emittable(b.program, op, operands, auxiliary)
    ensures var r := Emit(o, b, op, operands, immediate, auxiliary);
      && r != Err(SsaOrder)
      && (r.Ok? ==> Grown(b, r.value.1) && r.value.0 + 1 == |r.value.1.program.instructions|
                    && r.value.1.program.randomCalls == b.program.randomCalls
                    && r.value.1.program.inputs == b.program.inputs)
  {
    var r := Emit(o, b, op, operands, immediate, auxiliary);
    if r.Ok? {
      var b' := r.value.1;
      ExtendsKeepsForm(b, b');
      assert InstructionFits(b'.program, r.value.0);
    }
  }

  ghost predicate Describes(r: Emitted, b: Builder, calls: nat) {
    r != Err(SsaOrder) &&
    (r.Ok? ==>
      && Grown(b, r.value.1) && r.value.0 < |r.value.1.program.instructions|
      && r.value.1.program.randomCalls == b.program.randomCalls + calls)
  }

  lemma EmitNameGrown(o: Options, b: Builder, name: string, bare: bool)
    requires WellFormed(b)
    ensures Describes(EmitName(o, b, name, bare), b, 0)
  {
    var k := IndexOf(b.program.inputs, name);
    var b' := if k < |b.program.inputs| then b else b.(program := b.program.(inputs := b.program.inputs + [name]));
    ExtendsKeepsForm(b, b');
    EmitGrown(o, b', OpInput, [], 0.0, k);
  }

  lemma WithRampGrown(o: Options, b: Builder, knots: seq<Knot>)
    requires WellFormed(b) && |knots| > 0
    requires forall k | 0 <= k < |knots| :: KnotAccepted(o, |b.program.rampPoints|, knots, k)
    ensures WellFormed(WithRamp(b, knots)) && Extends(b.program, WithRamp(b, knots).program)
    ensures var p := b.program;
      WithRamp(b, knots).program.rampPoints[|p.rampPoints|..|p.rampPoints| + |knots|] == S.KnotPoints(knots)
  {
    ExtendsKeepsForm(b, WithRamp(b, knots));
    KnotsIncrease(o, |b.program.rampPoints|, knots);
  }

  lemma EmitRampGrown(o: Options, b: Builder, knots: seq<Knot>)
    requires WellFormed(b)
    ensures Describes(EmitRamp(o, b, knots), b, 0)
  {
    if |knots| > 0 && forall k | 0 <= k < |knots| :: KnotAccepted(o, |b.program.rampPoints|, knots, k) {
      WithRampGrown(o, b, knots);
      EmitGrown(o, WithRamp(b, knots), OpRamp, [], 0.0, |b.program.ramps|);
    }
  }

  lemma KnotsIncrease(o: Options, stored: nat, knots: seq<Knot>)
    requires forall k | 0 <= k < |knots| :: KnotAccepted(o, stored, knots, k)
    ensures Increasing(S.KnotPoints(knots))
  {
    var points := S.KnotPoints(knots);
    forall k | 0 <= k < |points| ensures points[k].interpolation <= 3 { assert KnotAccepted(o, stored, knots, k); }
    forall k, l | 0 <= k < l < |points| ensures points[k].position < points[l].position {
      KnotsBetween(o, stored, knots, k, l);
    }
  }

  lemma {:induction false} KnotsBetween(o: Options, stored: nat, knots: seq<Knot>, k: nat, l: nat)
    requires k < l < |knots| && forall i | 0 <= i < |knots| :: KnotAccepted(o, stored, knots, i)
    ensures knots[k].position < knots[l].position
  {
    assert KnotAccepted(o, stored, knots, l);
    if k + 1 < l { KnotsBetween(o, stored, knots, k, l - 1); }
  }

  lemma EmitCallGrown(o: Options, b: Builder, name: string, args: seq<nat>)
    requires WellFormed(b) && forall k | 0 <= k < |args| :: args[k] < |b.program.instructions|
    ensures Describes(EmitCall(o, b, name, args), b, if FunctionNamed(name) == Some(Rand) then 1 else 0)
  {
    hide Emit, InstructionFits, RampFits;
    if FunctionNamed(name).Some? {
      match FunctionNamed(name).value
      case Rand =>
        ExtendsKeepsForm(b, CountRandom(b));
        if |args| <= 3 {
          EmitGrown(o, CountRandom(b), OpRandom, args,
                    o.hash([b.program.expressionSeed as real, b.program.randomCalls as real]), 0);
        }
      case Hash => if args != [] { EmitGrown(o, b, OpHash, args, 0.0, 0); }
      case Stray => EmitGrown(o, b, OpStray, [], o.hash([o.straySeed as real, 0.0]), 0);
      case f =>
        var (count, op) := FixedCall(f).value;
        if |args| == count { EmitGrown(o, b, op, args, 0.0, 0); }
    }
  }

  /** Compilation only appends, stays well formed, never breaks SSA order and counts the random calls of the source. */
  lemma {:induction false} EmitExprGrown(o: Options, b: Builder, e: Expr)
    requires WellFormed(b)
    ensures Describes(EmitExpr(o, b, e), b, S.RandCalls(e))
    decreases e, 1
  {
    hide WellFormed, Emit, EmitName, EmitRamp, EmitCall, FunctionNamed;
    match e
    case Constant(v) => EmitGrown(o, b, OpConstant, [], v, 0);
    case Name(name, bare) => EmitNameGrown(o, b, name, bare);
    case Negate(a) => EmitUnaryGrown(o, b, a, OpNegate);
    case Not(a) => EmitUnaryGrown(o, b, a, OpNot);
    case Binary(op, l, r) =>
      var r1, r2 := EmitPairGrown(o, b, e, l, r);
      if r1.Ok? && r2.Ok? { EmitGrown(o, r2.value.1, BinaryCode(op), [r1.value.0, r2.value.0], 0.0, 0); }
    case Select(c, t, f) =>
      var r1, r2 := EmitPairGrown(o, b, e, c, t);
      if r1.Ok? && r2.Ok? {
        EmitExprGrown(o, r2.value.1, f);
        var r3 := EmitExpr(o, r2.value.1, f);
        if r3.Ok? { EmitGrown(o, r3.value.1, OpSelect, [r1.value.0, r2.value.0, r3.value.0], 0.0, 0); }
      }
    case Apply(name, args) =>
      EmitAllGrown(o, b, args);
      var r := EmitAll(o, b, args);
      if r.Ok? { EmitCallGrown(o, r.value.1, name, r.value.0); }
    case Ramp(knots) => EmitRampGrown(o, b, knots);
  }

  lemma {:induction false} EmitPairGrown(o: Options, b: Builder, whole: Expr, l: Expr, r: Expr)
    returns (r1: Emitted, r2: Emitted)
    requires WellFormed(b) && l < whole && r < whole
    ensures r1 == EmitExpr(o, b, l) && Describes(r1, b, S.RandCalls(l))
    ensures r1.Ok? ==>
      r2 == EmitExpr(o, r1.value.1, r) && Describes(r2, b, S.RandCalls(l) + S.RandCalls(r))
      && (r2.Ok? ==> r1.value.0 < |r2.value.1.program.instructions|)
    decreases whole, 0
  {
    EmitExprGrown(o, b, l);
    r1 := EmitExpr(o, b, l);
    r2 := r1;
    if r1.Ok? {
      EmitExprGrown(o, r1.value.1, r);
      r2 := EmitExpr(o, r1.value.1, r);
    }
  }

  lemma {:induction false} EmitUnaryGrown(o: Options, b: Builder, a: Expr, op: Op)
    requires WellFormed(b) && op in {OpNegate, OpNot}
    ensures var r := EmitExpr(o, b, a);
      && Describes(r, b, S.RandCalls(a))
      && (r.Ok? ==> Describes(Emit(o, r.value.1, op, [r.value.0], 0.0, 0), b, S.RandCalls(a)))
    decreases a, 2
  {
    EmitExprGrown(o, b, a);
    var r := EmitExpr(o, b, a);
    if r.Ok? { EmitGrown(o, r.value.1, op, [r.value.0], 0.0, 0); }
  }

  lemma {:induction false} EmitAllGrown(o: Options, b: Builder, args: seq<Expr>)
    requires WellFormed(b)
    ensures var r := EmitAll(o, b, args);
      && r != Err(SsaOrder)
      && (r.Ok? ==>
        && Grown(b, r.value.1) && r.value.1.program.randomCalls == b.program.randomCalls + S.RandCallsIn(args)
        && forall k | 0 <= k < |args| :: r.value.0[k] < |r.value.1.program.instructions|)
    decreases args
  {
    if args != [] {
      var init := args[..|args| - 1];
      EmitAllGrown(o, b, init);
      var r1 := EmitAll(o, b, init);
      if r1.Ok? { EmitExprGrown(o, r1.value.1, args[|args| - 1]); }
    }
  }

  // ---------------------------------------------------------------- compiled programs compute the meaning

  /** Running the program gives the meaning x at value `index`, after the earlier values, or fails as not finite. */
  ghost predicate Computes(p: Program, c: Context, m: Math, index: nat, x: Option<real>, earlier: seq<real>) {
    var r := Values(p, c, m, |p.instructions|);
    match x
    case None => r == Err(NonFinite)
    case Some(v) => r.Ok? && earlier <= r.value && index < |r.value| && r.value[index] == v
  }

  ghost predicate Picks(values: seq<real>, operands: seq<nat>, xs: seq<real>) {
    |xs| == |operands| && forall k | 0 <= k < |operands| :: operands[k] < |values| && values[operands[k]] == xs[k]
  }

  lemma {:induction false} SiteArgs(s: Site, operands: seq<nat>, xs: seq<real>, n: nat)
    requires Picks(s.values, operands, xs) && s.i.count == |operands| && n <= |operands|
    requires s.i.offset + s.i.count <= |s.p.operands|
    requires s.p.operands[s.i.offset..s.i.offset + s.i.count] == operands
    ensures forall k | 0 <= k < n :: s.Arg(k) == Ok(xs[k])
    ensures s.Args(n) == Ok(xs[..n])
  {
    if n > 0 {
      SiteArgs(s, operands, xs, n - 1);
      assert s.p.operands[s.i.offset + n - 1] == operands[n - 1];
      assert xs[..n - 1] + [xs[n - 1]] == xs[..n];
    }
  }

  /** The values after a freshly emitted instruction. */
  lemma EmitStep(o: Options, b: Builder, op: Op, operands: seq<nat>, immediate: real, auxiliary: nat,
                 c: Context, m: Math, values: seq<real>)
    requires WellFormed(b) && Emittable(b.program, op, operands, auxiliary)
    requires Emit(o, b, op, operands, immediate, auxiliary).Ok?
    requires Values(b.program, c, m, |b.program.instructions|) == Ok(values)
    ensures var (i, b') := Emit(o, b, op, operands, immediate, auxiliary).value;
      var s := Site(b'.program, Instruction(op, |b.program.operands|, |operands|, auxiliary, immediate), values);
      var v := EvalOp(s, c, m);
      && s.i.offset + s.i.count <= |s.p.operands| && s.p.operands[s.i.offset..s.i.offset + s.i.count] == operands
      && Values(b'.program, c, m, |b'.program.instructions|) == if v.Ok? then Ok(values + [v.value]) else Err(v.error)
  {
    hide WellFormed, EvalOp, Emittable;
    EmitGrown(o, b, op, operands, immediate, auxiliary);
    var (i, b') := Emit(o, b, op, operands, immediate, auxiliary).value;
    SameValues(b, b'.program, c, m, i);
  }

  /** The value of a freshly emitted instruction follows from the values of its operands. */
  lemma EmitValue(o: Options, b: Builder, op: Op, operands: seq<nat>, immediate: real, auxiliary: nat,
                  c: Context, m: Math, values: seq<real>, xs: seq<real>)
    returns (s: Site, v: Value)
    requires WellFormed(b) && Emittable(b.program, op, operands, auxiliary)
    requires Emit(o, b, op, operands, immediate, auxiliary).Ok?
    requires Values(b.program, c, m, |b.program.instructions|) == Ok(values) && Picks(values, operands, xs)
    ensures var (i, b') := Emit(o, b, op, operands, immediate, auxiliary).value;
      && s == Site(b'.program, Instruction(op, |b.program.operands|, |operands|, auxiliary, immediate), values)
      && v == EvalOp(s, c, m) && s.Args(|xs|) == Ok(xs) && (forall k | 0 <= k < |xs| :: s.Arg(k) == Ok(xs[k]))
      && (v.Ok? ==> Computes(b'.program, c, m, i, Some(v.value), values))
      && (v == Err(NonFinite) ==> Computes(b'.program, c, m, i, None, values))
  {
    EmitStep(o, b, op, operands, immediate, auxiliary, c, m, values);
    hide WellFormed, EvalOp, Emittable, Values;
    var (i, b') := Emit(o, b, op, operands, immediate, auxiliary).value;
    s := Site(b'.program, Instruction(op, |b.program.operands|, |operands|, auxiliary, immediate), values);
    v := EvalOp(s, c, m);
    SiteArgs(s, operands, xs, |operands|);
    assert xs[..|operands|] == xs;
  }

  ghost predicate Represents(b: Builder, values: seq<real>, locals: map<string, real>) {
    && |values| == |b.program.instructions| && locals.Keys == b.locals.Keys
    && forall name | name in b.locals :: b.locals[name] < |values| && values[b.locals[name]] == locals[name]
  }

  /** The world's names, seeds and functions are those the program was compiled for and is run with. */
  ghost predicate Fits(w: S.World, o: Options, p: Program) {
    && w.expressionSeed == o.expressionSeed == p.expressionSeed && w.straySeed == o.straySeed && w.math.hash == o.hash
    && |p.inputs| <= |w.context.inputs|
    && forall k | 0 <= k < |p.inputs| :: w.context.inputs[k] == w.lookup(p.inputs[k])
  }

  lemma FitsBefore(w: S.World, o: Options, p: Program, p': Program)
    requires Fits(w, o, p') && Extends(p, p')
    ensures Fits(w, o, p)
  {
  }

  lemma FitsOperands(w: S.World, o: Options, b: Builder, op: Op, operands: seq<nat>, immediate: real, auxiliary: nat)
    requires Emit(o, b, op, operands, immediate, auxiliary).Ok?
    requires Fits(w, o, Emit(o, b, op, operands, immediate, auxiliary).value.1.program)
    ensures Fits(w, o, b.program)
  {
  }

  lemma FitsArguments(w: S.World, o: Options, b: Builder, name: string, args: seq<nat>)
    requires EmitCall(o, b, name, args).Ok? && Fits(w, o, EmitCall(o, b, name, args).value.1.program)
    ensures Fits(w, o, b.program)
  {
    match FunctionNamed(name).value case _ =>
  }

  /** If a part already fails, the whole program fails. */
  lemma FailureSpreads(b: Builder, b': Builder, c: Context, m: Math)
    requires WellFormed(b) && Extends(b.program, b'.program)
    requires Values(b.program, c, m, |b.program.instructions|) == Err(NonFinite)
    ensures Values(b'.program, c, m, |b'.program.instructions|) == Err(NonFinite)
  {
    SameValues(b, b'.program, c, m, |b.program.instructions|);
    FailureStays(b'.program, c, m, |b.program.instructions|, |b'.program.instructions|);
  }

  lemma ConstantMeans(o: Options, b: Builder, x: real, w: S.World, values: seq<real>)
    requires WellFormed(b) && Emit(o, b, OpConstant, [], x, 0).Ok?
    requires Values(b.program, w.context, w.math, |b.program.instructions|) == Ok(values)
    ensures var (i, b') := Emit(o, b, OpConstant, [], x, 0).value;
      Computes(b'.program, w.context, w.math, i, Some(x), values)
  {
    var s, v := EmitValue(o, b, OpConstant, [], x, 0, w.context, w.math, values, []);
  }

  lemma NameMeans(o: Options, b: Builder, name: string, bare: bool, w: S.World, values: seq<real>, locals: map<string, real>)
    requires WellFormed(b) && EmitName(o, b, name, bare).Ok? && Fits(w, o, EmitName(o, b, name, bare).value.1.program)
    requires Values(b.program, w.context, w.math, |b.program.instructions|) == Ok(values) && Represents(b, values, locals)
    ensures var (i, b') := EmitName(o, b, name, bare).value;
      Computes(b'.program, w.context, w.math, i, Some(if name in locals then locals[name] else w.lookup(name)), values)
  {
    if name !in b.locals {
      var k := IndexOf(b.program.inputs, name);
      var b1 := if k < |b.program.inputs| then b else b.(program := b.program.(inputs := b.program.inputs + [name]));
      ExtendsKeepsForm(b, b1);
      SameValues(b, b1.program, w.context, w.math, |b.program.instructions|);
      EmitGrown(o, b1, OpInput, [], 0.0, k);
      var s, v := EmitValue(o, b1, OpInput, [], 0.0, k, w.context, w.math, values, []);
    }
  }

  lemma EmitKeepsRamps(o: Options, b: Builder, op: Op, operands: seq<nat>, immediate: real, auxiliary: nat)
    requires Emit(o, b, op, operands, immediate, auxiliary).Ok?
    ensures var b' := Emit(o, b, op, operands, immediate, auxiliary).value.1;
      b'.program.ramps == b.program.ramps && b'.program.rampPoints == b.program.rampPoints
  {
  }

  lemma NothingPicked(values: seq<real>)
    ensures Picks(values, [], [])
  {
  }

  lemma RampOfForm(b: Builder, k: nat)
    requires WellFormed(b) && k < |b.program.ramps|
    ensures RampFits(b.program, b.program.ramps[k])
  {
    hide RampFits, InstructionFits;
  }

  lemma RampEmitMeans(o: Options, b: Builder, r: RampRange, w: S.World, values: seq<real>)
    requires WellFormed(b) && |b.program.ramps| > 0 && b.program.ramps[|b.program.ramps| - 1] == r
    requires Emit(o, b, OpRamp, [], 0.0, |b.program.ramps| - 1).Ok?
    requires Values(b.program, w.context, w.math, |b.program.instructions|) == Ok(values)
    ensures r.offset + r.count <= |b.program.rampPoints|
    ensures var (i, b') := Emit(o, b, OpRamp, [], 0.0, |b.program.ramps| - 1).value;
      var v := RampValue(b.program.rampPoints[r.offset..r.offset + r.count], w.context.t);
      v.Ok? && Computes(b'.program, w.context, w.math, i, Some(v.value), values)
  {
    hide WellFormed, InstructionFits, Emit, RampValue, Values, Computes, Picks;
    var k := |b.program.ramps| - 1;
    RampOfForm(b, k);
    EmitKeepsRamps(o, b, OpRamp, [], 0.0, k);
    NothingPicked(values);
    var points := b.program.rampPoints[r.offset..r.offset + r.count];
    IncreasingRampIsFinite(points, w.context.t);
    var s, v := EmitValue(o, b, OpRamp, [], 0.0, k, w.context, w.math, values, []);
    assert v == RampValue(points, w.context.t);
  }

  lemma RampMeans(o: Options, b: Builder, knots: seq<Knot>, w: S.World, values: seq<real>)
    requires WellFormed(b) && EmitRamp(o, b, knots).Ok?
    requires Values(b.program, w.context, w.math, |b.program.instructions|) == Ok(values)
    ensures var (i, b') := EmitRamp(o, b, knots).value;
      var r := RampValue(S.KnotPoints(knots), w.context.t);
      r.Ok? && Computes(b'.program, w.context, w.math, i, Some(r.value), values)
  {
    hide WellFormed, Values, RampValue, Extends, Computes, Emit;
    WithRampGrown(o, b, knots);
    SameValues(b, WithRamp(b, knots).program, w.context, w.math, |b.program.instructions|);
    RampEmitMeans(o, WithRamp(b, knots), RampRange(|b.program.rampPoints|, |knots|), w, values);
  }

  /** On increasing points with valid interpolation codes a ramp always has a value. */
  lemma IncreasingRampIsFinite(points: seq<RampPoint>, t: real)
    requires Increasing(points) && points != []
    ensures RampValue(points, t).Ok?
  {
    if points[0].position < t < points[|points| - 1].position {
      var upper := UpperPoint(points, t, 1);
      assert points[upper - 1].position < points[upper].position;
      var width := points[upper].position - points[upper - 1].position;
      ScaledNonzero(width, 2.0 * width);
      if upper > 1 { ScaledNonzero(width, points[upper].position - points[upper - 2].position); }
      if upper + 1 < |points| { ScaledNonzero(width, points[upper + 1].position - points[upper - 1].position); }
      assert 2.0 * points[upper].position - 2.0 * points[upper - 1].position == 2.0 * width;
    }
  }

  lemma ScaledNonzero(width: real, x: real)
    requires width > 0.0 && x > 0.0
    ensures (1.0 / width) * x != 0.0
  {
    assert 1.0 / width > 0.0;
  }

  lemma UnaryMeans(o: Options, b: Builder, op: Op, x: nat, w: S.World, values: seq<real>)
    requires WellFormed(b) && op in {OpNegate, OpNot} && x < |values| && Emit(o, b, op, [x], 0.0, 0).Ok?
    requires Values(b.program, w.context, w.math, |b.program.instructions|) == Ok(values)
    ensures var (i, b') := Emit(o, b, op, [x], 0.0, 0).value;
      Computes(b'.program, w.context, w.math, i,
               Some(if op == OpNegate then 0.0 - values[x] else S.Bit(values[x] == 0.0)), values)
  {
    var s, v := EmitValue(o, b, op, [x], 0.0, 0, w.context, w.math, values, [values[x]]);
  }

  function ValueOf(x: Option<real>): Value {
    if x.Some? then Ok(x.value) else Err(NonFinite)
  }

  lemma BinaryOpMeans(s: Site, op: BinaryOp, x: real, y: real, c: Context, m: Math)
    requires s.i.op == BinaryCode(op) && s.i.count == 2
    requires s.Arg(0) == Ok(x) && s.Arg(1) == Ok(y) && s.Args(2) == Ok([x, y])
    ensures EvalOp(s, c, m) == ValueOf(S.BinaryMeaning(op, x, y))
  {
    match op case _ =>
  }

  lemma BinaryMeans(o: Options, b: Builder, op: BinaryOp, x: nat, y: nat, w: S.World, values: seq<real>)
    requires WellFormed(b) && x < |values| && y < |values| && Emit(o, b, BinaryCode(op), [x, y], 0.0, 0).Ok?
    requires Values(b.program, w.context, w.math, |b.program.instructions|) == Ok(values)
    ensures var (i, b') := Emit(o, b, BinaryCode(op), [x, y], 0.0, 0).value;
      Computes(b'.program, w.context, w.math, i, S.BinaryMeaning(op, values[x], values[y]), values)
  {
    var xs := [values[x], values[y]];
    var s, v := EmitValue(o, b, BinaryCode(op), [x, y], 0.0, 0, w.context, w.math, values, xs);
    BinaryOpMeans(s, op, values[x], values[y], w.context, w.math);
  }

  lemma SelectMeans(o: Options, b: Builder, x: nat, y: nat, z: nat, w: S.World, values: seq<real>)
    requires WellFormed(b) && x < |values| && y < |values| && z < |values| && Emit(o, b, OpSelect, [x, y, z], 0.0, 0).Ok?
    requires Values(b.program, w.context, w.math, |b.program.instructions|) == Ok(values)
    ensures var (i, b') := Emit(o, b, OpSelect, [x, y, z], 0.0, 0).value;
      Computes(b'.program, w.context, w.math, i, Some(if values[x] == 0.0 then values[z] else values[y]), values)
  {
    var xs := [values[x], values[y], values[z]];
    var s, v := EmitValue(o, b, OpSelect, [x, y, z], 0.0, 0, w.context, w.math, values, xs);
    assert s.Arg(0) == Ok(xs[0]) && s.Arg(1) == Ok(xs[1]) && s.Arg(2) == Ok(xs[2]);
  }

  lemma RandOpMeans(w: S.World, xs: seq<real>, site: nat)
    requires |xs| <= 3
    ensures RandomValue(xs, w.math.hash([w.expressionSeed as real, site as real]), w.context, w.math)
         == S.RandMeaning(w, xs, site)
  {
    var c := w.context;
    var base := [c.u, c.v, c.faceSeed, w.math.hash([w.expressionSeed as real, site as real])];
    assert base + [] == base;
  }

  lemma RandEmitMeans(o: Options, b: Builder, args: seq<nat>, seed: real, w: S.World, values: seq<real>, xs: seq<real>)
    requires WellFormed(b) && Picks(values, args, xs) && |args| <= 3 && Emit(o, b, OpRandom, args, seed, 0).Ok?
    requires Values(b.program, w.context, w.math, |b.program.instructions|) == Ok(values)
    ensures var (i, b') := Emit(o, b, OpRandom, args, seed, 0).value;
      Computes(b'.program, w.context, w.math, i, Some(RandomValue(xs, seed, w.context, w.math)), values)
  {
    var s, v := EmitValue(o, b, OpRandom, args, seed, 0, w.context, w.math, values, xs);
  }

  lemma RandMeans(o: Options, b: Builder, args: seq<nat>, w: S.World, values: seq<real>, xs: seq<real>)
    requires WellFormed(b) && Picks(values, args, xs) && EmitFunction(o, b, Rand, args).Ok?
    requires Fits(w, o, b.program)
    requires Values(b.program, w.context, w.math, |b.program.instructions|) == Ok(values)
    ensures var (i, b') := EmitFunction(o, b, Rand, args).value;
      Computes(b'.program, w.context, w.math, i, Some(S.RandMeaning(w, xs, b.program.randomCalls)), values)
  {
    ExtendsKeepsForm(b, CountRandom(b));
    assert WellFormed(CountRandom(b)) && Extends(b.program, CountRandom(b).program);
    hide WellFormed, Computes, Emit, Values, S.RandMeaning, RandomValue, Extends;
    SameValues(b, CountRandom(b).program, w.context, w.math, |b.program.instructions|);
    RandOpMeans(w, xs, b.program.randomCalls);
    var seed := w.math.hash([w.expressionSeed as real, b.program.randomCalls as real]);
    RandEmitMeans(o, CountRandom(b), args, seed, w, values, xs);
  }

  /** The operation chosen for a function of fixed arity has that function's meaning. */
  lemma FixedMeans(w: S.World, f: Function, xs: seq<real>, site: nat)
    requires FixedCall(f).Some? && |xs| == FixedCall(f).value.0
    ensures ApplyOp(FixedCall(f).value.1, xs, 0.0, w.context, w.math) == ValueOf(S.CallMeaning(w, f, xs, site))
  {
    match f case _ =>
  }

  lemma FixedCallMeans(o: Options, b: Builder, f: Function, args: seq<nat>, w: S.World, values: seq<real>, xs: seq<real>)
    requires WellFormed(b) && Picks(values, args, xs) && FixedCall(f).Some? && |args| == FixedCall(f).value.0
    requires Emit(o, b, FixedCall(f).value.1, args, 0.0, 0).Ok?
    requires Values(b.program, w.context, w.math, |b.program.instructions|) == Ok(values)
    ensures var (i, b') := Emit(o, b, FixedCall(f).value.1, args, 0.0, 0).value;
      Computes(b'.program, w.context, w.math, i, S.CallMeaning(w, f, xs, b.program.randomCalls), values)
  {
    hide WellFormed, InstructionFits, Values, Computes, Emit, S.CallMeaning;
    FixedMeans(w, f, xs, b.program.randomCalls);
    var op := FixedCall(f).value.1;
    var s, v := EmitValue(o, b, op, args, 0.0, 0, w.context, w.math, values, xs);
  }

  lemma CallMeans(o: Options, b: Builder, f: Function, args: seq<nat>, w: S.World, values: seq<real>, xs: seq<real>)
    requires WellFormed(b) && Picks(values, args, xs) && EmitFunction(o, b, f, args).Ok? && Fits(w, o, b.program)
    requires Values(b.program, w.context, w.math, |b.program.instructions|) == Ok(values)
    ensures var (i, b') := EmitFunction(o, b, f, args).value;
      Computes(b'.program, w.context, w.math, i, S.CallMeaning(w, f, xs, b.program.randomCalls), values)
  {
    hide WellFormed, InstructionFits, Values, Computes, Emit;
    match f
    case Rand => RandMeans(o, b, args, w, values, xs);
    case Hash =>
      var s, v := EmitValue(o, b, OpHash, args, 0.0, 0, w.context, w.math, values, xs);
    case Stray =>
      var seed := w.math.hash([w.straySeed as real, 0.0]);
      var s, v := EmitValue(o, b, OpStray, [], seed, 0, w.context, w.math, values, []);
    case _ => FixedCallMeans(o, b, f, args, w, values, xs);
  }

  /** The situation before a part is compiled: the values so far exist and represent the local bindings. */
  ghost predicate Before(o: Options, b: Builder, w: S.World, values: seq<real>, locals: map<string, real>) {
    && WellFormed(b) && Represents(b, values, locals)
    && Values(b.program, w.context, w.math, |b.program.instructions|) == Ok(values)
  }

  /** After a part with a value, the situation is again one before a part, with more values. */
  lemma NextSituation(o: Options, b: Builder, b': Builder, w: S.World, values: seq<real>, locals: map<string, real>,
                      index: nat, x: real)
    returns (values': seq<real>)
    requires Before(o, b, w, values, locals) && Grown(b, b')
    requires Computes(b'.program, w.context, w.math, index, Some(x), values)
    ensures Before(o, b', w, values', locals) && values <= values' && index < |values'| && values'[index] == x
  {
    values' := Values(b'.program, w.context, w.math, |b'.program.instructions|).value;
  }

  ghost predicate Means(r: Emitted, w: S.World, x: Option<real>, values: seq<real>) {
    r.Ok? ==> Computes(r.value.1.program, w.context, w.math, r.value.0, x, values)
  }

  /** A part that follows a failing part, and one that follows a part with a value. */
  lemma Chain(b1: Builder, r2: Emitted, w: S.World, values: seq<real>, values1: seq<real>, x: Option<real>)
    requires WellFormed(b1) && (r2.Ok? ==> Extends(b1.program, r2.value.1.program)) && values <= values1
    ensures Values(b1.program, w.context, w.math, |b1.program.instructions|) == Err(NonFinite) ==> Means(r2, w, None, values)
    ensures Means(r2, w, x, values1) ==> Means(r2, w, x, values)
  {
    if r2.Ok? && Values(b1.program, w.context, w.math, |b1.program.instructions|) == Err(NonFinite) {
      FailureSpreads(b1, r2.value.1, w.context, w.math);
    }
  }

  /** Running a compiled tree gives its meaning. */
  lemma {:induction false} EmitExprMeans(o: Options, b: Builder, e: Expr, w: S.World, values: seq<real>,
                                         locals: map<string, real>)
    requires Before(o, b, w, values, locals)
    requires EmitExpr(o, b, e).Ok? ==> Fits(w, o, EmitExpr(o, b, e).value.1.program)
    ensures Means(EmitExpr(o, b, e), w, S.Eval(w, locals, e, b.program.randomCalls), values)
    decreases e, 3
  {
    if EmitExpr(o, b, e).Ok? {
      match e
      case Constant(v) => ConstantMeans(o, b, v, w, values);
      case Name(name, bare) => NameMeans(o, b, name, bare, w, values, locals);
      case Negate(a) => EmitUnaryMeans(o, b, e, a, OpNegate, w, values, locals);
      case Not(a) => EmitUnaryMeans(o, b, e, a, OpNot, w, values, locals);
      case Binary(op, l, r) => EmitBinaryMeans(o, b, op, l, r, w, values, locals);
      case Select(c, t, f) => EmitSelectMeans(o, b, c, t, f, w, values, locals);
      case Apply(name, args) => EmitApplyMeans(o, b, name, args, w, values, locals);
      case Ramp(knots) => RampMeans(o, b, knots, w, values);
    }
  }

  lemma {:induction false} EmitUnaryMeans(o: Options, b: Builder, e: Expr, a: Expr, op: Op, w: S.World,
                                          values: seq<real>, locals: map<string, real>)
    requires e == (if op == OpNegate then Negate(a) else Not(a)) && op in {OpNegate, OpNot}
    requires Before(o, b, w, values, locals)
    requires EmitExpr(o, b, e).Ok? && Fits(w, o, EmitExpr(o, b, e).value.1.program)
    ensures Means(EmitExpr(o, b, e), w, S.Eval(w, locals, e, b.program.randomCalls), values)
    decreases e, 2
  {
    EmitExprGrown(o, b, a);
    var (x, b1) := EmitExpr(o, b, a).value;
    var r := Emit(o, b1, op, [x], 0.0, 0);
    EmitGrown(o, b1, op, [x], 0.0, 0);
    FitsBefore(w, o, b1.program, r.value.1.program);
    EmitExprMeans(o, b, a, w, values, locals);
    var v := S.Eval(w, locals, a, b.program.randomCalls);
    if v.None? {
      Chain(b1, r, w, values, values, None);
    } else {
      var values1 := NextSituation(o, b, b1, w, values, locals, x, v.value);
      UnaryMeans(o, b1, op, x, w, values1);
      Chain(b1, r, w, values, values1, Some(if op == OpNegate then 0.0 - v.value else S.Bit(v.value == 0.0)));
    }
  }

  /** Two parts in a row have been compiled to values x and y of b: both have values, or the program fails. */
  ghost predicate PairMeans(o: Options, b: Builder, x: nat, y: nat, w: S.World, values: seq<real>, values2: seq<real>,
                            locals: map<string, real>, vx: Option<real>, vy: Option<real>) {
    if vx.Some? && vy.Some? then
      Before(o, b, w, values2, locals) && values <= values2
      && x < |values2| && y < |values2| && values2[x] == vx.value && values2[y] == vy.value
    else
      Values(b.program, w.context, w.math, |b.program.instructions|) == Err(NonFinite)
  }

  lemma {:induction false} EmitPairMeans(o: Options, b: Builder, whole: Expr, l: Expr, r: Expr, w: S.World,
                                         values: seq<real>, locals: map<string, real>)
    returns (values2: seq<real>)
    requires Before(o, b, w, values, locals) && l < whole && r < whole
    requires EmitExpr(o, b, l).Ok? && EmitExpr(o, EmitExpr(o, b, l).value.1, r).Ok?
    requires Fits(w, o, EmitExpr(o, EmitExpr(o, b, l).value.1, r).value.1.program)
    ensures var (x, b1) := EmitExpr(o, b, l).value;
      var (y, b2) := EmitExpr(o, b1, r).value;
      PairMeans(o, b2, x, y, w, values, values2, locals,
                S.Eval(w, locals, l, b.program.randomCalls),
                S.Eval(w, locals, r, b.program.randomCalls + S.RandCalls(l)))
    decreases whole, 1
  {
    hide WellFormed, Extends, Represents, Fits, S.Eval, EmitExpr, S.RandCalls, Values;
    EmitExprGrown(o, b, l);
    var (x, b1) := EmitExpr(o, b, l).value;
    EmitExprGrown(o, b1, r);
    var (y, b2) := EmitExpr(o, b1, r).value;
    FitsBefore(w, o, b1.program, b2.program);
    EmitExprMeans(o, b, l, w, values, locals);
    var vx := S.Eval(w, locals, l, b.program.randomCalls);
    values2 := values;
    if vx.None? {
      FailureSpreads(b1, b2, w.context, w.math);
    } else {
      var values1 := NextSituation(o, b, b1, w, values, locals, x, vx.value);
      EmitExprMeans(o, b1, r, w, values1, locals);
      var vy := S.Eval(w, locals, r, b1.program.randomCalls);
      if vy.Some? { values2 := NextSituation(o, b1, b2, w, values1, locals, y, vy.value); }
    }
  }

  lemma BinaryTail(o: Options, b: Builder, op: BinaryOp, x: nat, y: nat, w: S.World, values: seq<real>,
                   values2: seq<real>, locals: map<string, real>, vx: Option<real>, vy: Option<real>)
    requires WellFormed(b) && x < |b.program.instructions| && y < |b.program.instructions|
    requires PairMeans(o, b, x, y, w, values, values2, locals, vx, vy)
    ensures Means(Emit(o, b, BinaryCode(op), [x, y], 0.0, 0), w,
                  if vx.Some? && vy.Some? then S.BinaryMeaning(op, vx.value, vy.value) else None, values)
  {
    var r := Emit(o, b, BinaryCode(op), [x, y], 0.0, 0);
    EmitGrown(o, b, BinaryCode(op), [x, y], 0.0, 0);
    if vx.Some? && vy.Some? {
      if r.Ok? { BinaryMeans(o, b, op, x, y, w, values2); }
      Chain(b, r, w, values, values2, S.BinaryMeaning(op, vx.value, vy.value));
    } else {
      Chain(b, r, w, values, values, None);
    }
  }

  lemma BinaryParts(op: BinaryOp, l: Expr, r: Expr, w: S.World, locals: map<string, real>, site: nat)
    ensures var vx, vy := S.Eval(w, locals, l, site), S.Eval(w, locals, r, site + S.RandCalls(l));
      S.Eval(w, locals, Binary(op, l, r), site)
      == if vx.Some? && vy.Some? then S.BinaryMeaning(op, vx.value, vy.value) else None
  {
    hide S.RandCalls, S.CallMeaning, S.BinaryMeaning, RampValue;
  }

  lemma {:induction false} EmitBinaryMeans(o: Options, b: Builder, op: BinaryOp, l: Expr, r: Expr, w: S.World,
                                           values: seq<real>, locals: map<string, real>)
    requires Before(o, b, w, values, locals)
    requires EmitExpr(o, b, Binary(op, l, r)).Ok? && Fits(w, o, EmitExpr(o, b, Binary(op, l, r)).value.1.program)
    ensures Means(EmitExpr(o, b, Binary(op, l, r)), w, S.Eval(w, locals, Binary(op, l, r), b.program.randomCalls), values)
    decreases Binary(op, l, r), 2
  {
    hide EmitExpr, S.Eval, S.RandCalls, S.BinaryMeaning, Values, WellFormed, Extends, PairMeans, Computes, Represents, Fits, Emit;
    var e := Binary(op, l, r);
    BinaryEmitted(o, b, op, l, r);
    BinaryParts(op, l, r, w, locals, b.program.randomCalls);
    var r1, r2 := EmitPairGrown(o, b, e, l, r);
    FitsOperands(w, o, r2.value.1, BinaryCode(op), [r1.value.0, r2.value.0], 0.0, 0);
    var values2 := EmitPairMeans(o, b, e, l, r, w, values, locals);
    BinaryTail(o, r2.value.1, op, r1.value.0, r2.value.0, w, values, values2, locals,
               S.Eval(w, locals, l, b.program.randomCalls),
               S.Eval(w, locals, r, b.program.randomCalls + S.RandCalls(l)));
  }

  /** The last part of a conditional and its selection, after condition and first branch. */
  lemma SelectTail(o: Options, b: Builder, x: nat, y: nat, f: Expr, w: S.World, values: seq<real>, values2: seq<real>,
                   locals: map<string, real>, vx: Option<real>, vy: Option<real>, vz: Option<real>)
    requires WellFormed(b) && x < |b.program.instructions| && y < |b.program.instructions|
    requires PairMeans(o, b, x, y, w, values, values2, locals, vx, vy)
    requires EmitExpr(o, b, f).Ok? && Describes(EmitExpr(o, b, f), b, S.RandCalls(f))
    requires vx.Some? && vy.Some? ==> Means(EmitExpr(o, b, f), w, vz, values2)
    ensures var (z, b') := EmitExpr(o, b, f).value;
      Means(Emit(o, b', OpSelect, [x, y, z], 0.0, 0), w,
            if vx.Some? && vy.Some? && vz.Some? then Some(if vx.value == 0.0 then vz.value else vy.value) else None, values)
  {
    var (z, b') := EmitExpr(o, b, f).value;
    var r := Emit(o, b', OpSelect, [x, y, z], 0.0, 0);
    EmitGrown(o, b', OpSelect, [x, y, z], 0.0, 0);
    if vx.None? || vy.None? {
      Chain(b, r, w, values, values, None);
    } else if vz.None? {
      Chain(b', r, w, values, values, None);
    } else {
      var values3 := NextSituation(o, b, b', w, values2, locals, z, vz.value);
      if r.Ok? { SelectMeans(o, b', x, y, z, w, values3); }
      Chain(b', r, w, values, values3, Some(if vx.value == 0.0 then vz.value else vy.value));
    }
  }

  lemma SelectMeaning(c: Expr, t: Expr, f: Expr, w: S.World, locals: map<string, real>, site: nat)
    ensures var vx, vy := S.Eval(w, locals, c, site), S.Eval(w, locals, t, site + S.RandCalls(c));
      var vz := S.Eval(w, locals, f, site + S.RandCalls(c) + S.RandCalls(t));
      S.Eval(w, locals, Select(c, t, f), site)
      == if vx.Some? && vy.Some? && vz.Some? then Some(if vx.value == 0.0 then vz.value else vy.value) else None
  {
    hide S.RandCalls, S.CallMeaning, S.BinaryMeaning, RampValue;
  }

  lemma {:induction false} EmitSelectMeans(o: Options, b: Builder, c: Expr, t: Expr, f: Expr, w: S.World,
                                           values: seq<real>, locals: map<string, real>)
    requires Before(o, b, w, values, locals)
    requires EmitExpr(o, b, Select(c, t, f)).Ok? && Fits(w, o, EmitExpr(o, b, Select(c, t, f)).value.1.program)
    ensures Means(EmitExpr(o, b, Select(c, t, f)), w, S.Eval(w, locals, Select(c, t, f), b.program.randomCalls), values)
    decreases Select(c, t, f), 2
  {
    hide EmitExpr, S.Eval, S.RandCalls, Values, WellFormed, Extends, Computes, Represents, Fits, Emit, Means;
    var e := Select(c, t, f);
    SelectEmitted(o, b, c, t, f);
    SelectMeaning(c, t, f, w, locals, b.program.randomCalls);
    var r1, r2 := EmitPairGrown(o, b, e, c, t);
    var b2 := r2.value.1;
    EmitExprGrown(o, b2, f);
    var r3 := EmitExpr(o, b2, f);
    FitsOperands(w, o, r3.value.1, OpSelect, [r1.value.0, r2.value.0, r3.value.0], 0.0, 0);
    FitsBefore(w, o, b2.program, r3.value.1.program);
    var values2 := EmitPairMeans(o, b, e, c, t, w, values, locals);
    var vx := S.Eval(w, locals, c, b.program.randomCalls);
    var vy := S.Eval(w, locals, t, b.program.randomCalls + S.RandCalls(c));
    var vz := S.Eval(w, locals, f, b2.program.randomCalls);
    if vx.Some? && vy.Some? { EmitExprMeans(o, b2, f, w, values2, locals); }
    SelectTail(o, b2, r1.value.0, r2.value.0, f, w, values, values2, locals, vx, vy, vz);
  }

  /** The arguments of a call have been compiled to values of b: all have values, or the program fails. */
  ghost predicate AllMean(o: Options, b: Builder, args: seq<nat>, w: S.World, values: seq<real>, values': seq<real>,
                          locals: map<string, real>, vs: Option<seq<real>>) {
    if vs.Some? then Before(o, b, w, values', locals) && values <= values' && Picks(values', args, vs.value)
    else Values(b.program, w.context, w.math, |b.program.instructions|) == Err(NonFinite)
  }

  lemma ApplyTail(o: Options, b: Builder, name: string, args: seq<nat>, w: S.World, values: seq<real>,
                  values': seq<real>, locals: map<string, real>, vs: Option<seq<real>>)
    requires WellFormed(b) && (forall k | 0 <= k < |args| :: args[k] < |b.program.instructions|)
    requires AllMean(o, b, args, w, values, values', locals, vs)
    requires EmitCall(o, b, name, args).Ok? && Fits(w, o, b.program)
    ensures Means(EmitCall(o, b, name, args), w,
                  if vs.Some? then S.CallMeaning(w, FunctionNamed(name).value, vs.value, b.program.randomCalls) else None,
                  values)
  {
    var f := FunctionNamed(name).value;
    EmitCallGrown(o, b, name, args);
    if vs.Some? {
      CallMeans(o, b, f, args, w, values', vs.value);
      Chain(b, EmitCall(o, b, name, args), w, values, values', S.CallMeaning(w, f, vs.value, b.program.randomCalls));
    } else {
      Chain(b, EmitCall(o, b, name, args), w, values, values, None);
    }
  }

  lemma {:induction false} EmitApplyMeans(o: Options, b: Builder, name: string, args: seq<Expr>, w: S.World,
                                          values: seq<real>, locals: map<string, real>)
    requires Before(o, b, w, values, locals)
    requires EmitExpr(o, b, Apply(name, args)).Ok? && Fits(w, o, EmitExpr(o, b, Apply(name, args)).value.1.program)
    ensures Means(EmitExpr(o, b, Apply(name, args)), w, S.Eval(w, locals, Apply(name, args), b.program.randomCalls), values)
    decreases Apply(name, args), 2
  {
    hide Values, WellFormed, Extends, Computes, Represents, Fits, EmitFunction, Means, S.CallMeaning, FunctionNamed;
    EmitAllGrown(o, b, args);
    var (xs, b1) := EmitAll(o, b, args).value;
    FitsArguments(w, o, b1, name, xs);
    var values1 := EmitAllMeans(o, b, args, w, values, locals);
    ApplyTail(o, b1, name, xs, w, values, values1, locals, S.EvalAll(w, locals, args, b.program.randomCalls));
  }

  lemma {:induction false} EmitAllMeans(o: Options, b: Builder, args: seq<Expr>, w: S.World, values: seq<real>,
                                        locals: map<string, real>)
    returns (values': seq<real>)
    requires Before(o, b, w, values, locals) && EmitAll(o, b, args).Ok?
    requires Fits(w, o, EmitAll(o, b, args).value.1.program)
    ensures var (xs, b') := EmitAll(o, b, args).value;
      AllMean(o, b', xs, w, values, values', locals, S.EvalAll(w, locals, args, b.program.randomCalls))
    decreases args
  {
    hide WellFormed, Extends, Represents, Fits, S.Eval, EmitExpr, Values, S.RandCalls;
    values' := values;
    if args != [] {
      var init, last := args[..|args| - 1], args[|args| - 1];
      EmitAllGrown(o, b, init);
      var (xs, b1) := EmitAll(o, b, init).value;
      EmitExprGrown(o, b1, last);
      var (x, b2) := EmitExpr(o, b1, last).value;
      FitsBefore(w, o, b1.program, b2.program);
      var values1 := EmitAllMeans(o, b, init, w, values, locals);
      var vs := S.EvalAll(w, locals, init, b.program.randomCalls);
      if vs.None? {
        FailureSpreads(b1, b2, w.context, w.math);
      } else {
        EmitExprMeans(o, b1, last, w, values1, locals);
        var v := S.Eval(w, locals, last, b1.program.randomCalls);
        if v.Some? { values' := NextSituation(o, b1, b2, w, values1, locals, x, v.value); }
      }
    }
  }

  // ---------------------------------------------------------------- whole programs

  /** A context names the inputs of a program in their order of first use. */
  function WorldOf(o: Options, p: Program, c: Context, m: Math): S.World {
    S.World(name => var k := IndexOf(p.inputs, name); if k < |p.inputs| && k < |c.inputs| then c.inputs[k] else 0.0,
            c, m, o.expressionSeed, o.straySeed)
  }

  /** The values of the compiled statements represent the bindings their evaluation leaves. */
  ghost predicate Reflects(o: Options, b: Builder, w: S.World, statements: seq<Statement>, x: Option<S.Outcome>) {
    && WellFormed(b) && b.program.expressionSeed == o.expressionSeed
    && (statements != [] ==> b.program.result < |b.program.instructions|)
    && match x
       case None => Values(b.program, w.context, w.math, |b.program.instructions|) == Err(NonFinite)
       case Some(s) =>
         var r := Values(b.program, w.context, w.math, |b.program.instructions|);
         && r.Ok? && Represents(b, r.value, s.locals) && b.program.randomCalls == s.site
         && (statements != [] ==> r.value[b.program.result] == s.result)
  }

  lemma {:induction false} StatementsWellFormed(o: Options, statements: seq<Statement>)
    requires EmitStatements(o, statements).Ok?
    ensures var b := EmitStatements(o, statements).value;
      && WellFormed(b) && b.program.expressionSeed == o.expressionSeed
      && (statements != [] ==> b.program.result < |b.program.instructions|)
    ensures statements != [] ==>
      Extends(EmitStatements(o, statements[..|statements| - 1]).value.program, EmitStatements(o, statements).value.program)
  {
    if statements != [] {
      var init, s := statements[..|statements| - 1], statements[|statements| - 1];
      StatementsWellFormed(o, init);
      var b := EmitStatements(o, init).value;
      EmitExprGrown(o, b, s.expr);
      BindKeepsForm(EmitExpr(o, b, s.expr).value.1, EmitExpr(o, b, s.expr).value.0, s.target);
    }
  }

  lemma BindKeepsForm(b: Builder, x: nat, target: Option<string>)
    requires WellFormed(b) && x < |b.program.instructions|
    ensures WellFormed(Bound(b, x, target)) && Extends(b.program, Bound(b, x, target).program)
  {
    ExtendsKeepsForm(b, Bound(b, x, target));
  }

  lemma {:induction false} StatementsMean(o: Options, statements: seq<Statement>, w: S.World)
    requires EmitStatements(o, statements).Ok? && Fits(w, o, EmitStatements(o, statements).value.program)
    ensures Reflects(o, EmitStatements(o, statements).value, w, statements, S.EvalStatements(w, statements))
  {
    StatementsWellFormed(o, statements);
    if statements != [] {
      var init, s := statements[..|statements| - 1], statements[|statements| - 1];
      var b := EmitStatements(o, init).value;
      FitsBefore(w, o, b.program, EmitStatements(o, statements).value.program);
      StatementsMean(o, init, w);
      StatementsWellFormed(o, init);
      EmitExprGrown(o, b, s.expr);
      var (x, b1) := EmitExpr(o, b, s.expr).value;
      StatementMeans(o, b, b1, x, init, s, w, S.EvalStatements(w, init));
    }
  }

  lemma StatementMeans(o: Options, b: Builder, b1: Builder, x: nat, init: seq<Statement>, s: Statement, w: S.World,
                       before: Option<S.Outcome>)
    requires Reflects(o, b, w, init, before) && EmitExpr(o, b, s.expr) == Ok((x, b1)) && Fits(w, o, b1.program)
    requires Describes(Ok((x, b1)), b, S.RandCalls(s.expr))
    ensures var v := if before.None? then None else S.Eval(w, before.value.locals, s.expr, before.value.site);
      Reflects(o, Bound(b1, x, s.target), w, init + [s],
               if v.None? then None
               else Some(S.Outcome(if s.target.Some? then before.value.locals[s.target.value := v.value]
                                   else before.value.locals,
                                   before.value.site + S.RandCalls(s.expr), v.value)))
  {
    var b2 := Bound(b1, x, s.target);
    BindKeepsForm(b1, x, s.target);
    SameValues(b1, b2.program, w.context, w.math, |b1.program.instructions|);
    if before.None? {
      FailureSpreads(b, b2, w.context, w.math);
    } else {
      var values := Values(b.program, w.context, w.math, |b.program.instructions|).value;
      EmitExprMeans(o, b, s.expr, w, values, before.value.locals);
      var v := S.Eval(w, before.value.locals, s.expr, before.value.site);
      if v.Some? {
        var values' := NextSituation(o, b, b1, w, values, before.value.locals, x, v.value);
      }
    }
  }

  /**
   Compiler correctness: in every context with one value per input of the program, the
   strict evaluator gives the meaning of the source, or fails as not finite exactly when
   some value of the source is not finite. It never reports a malformed program.
   */
  lemma CompiledMeans(o: Options, statements: seq<Statement>, c: Context, m: Math)
    requires statements != [] && EmitStatements(o, statements).Ok? && m.hash == o.hash
    requires |c.inputs| == |EmitStatements(o, statements).value.program.inputs|
    ensures var p := EmitStatements(o, statements).value.program;
      Run(p, c, m) == ValueOf(S.EvalProgram(WorldOf(o, p, c, m), statements))
  {
    var b := EmitStatements(o, statements).value;
    var w := WorldOf(o, b.program, c, m);
    StatementsWellFormed(o, statements);
    forall k | 0 <= k < |b.program.inputs| ensures c.inputs[k] == w.lookup(b.program.inputs[k]) {
      assert IndexOf(b.program.inputs, b.program.inputs[k]) == k;
    }
    StatementsMean(o, statements, w);
  }
}
