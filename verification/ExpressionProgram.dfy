/** The SSA form of a compiled expression and its strict evaluator. */
module ExpressionProgram {
  import opened Wrappers

  datatype Op =
    | OpConstant | OpInput | OpNegate | OpNot
    | OpAdd | OpSubtract | OpMultiply | OpDivide
    | OpLess | OpLessEqual | OpGreater | OpGreaterEqual | OpEqual | OpNotEqual | OpAnd | OpOr
    | OpSelect | OpHash | OpRandom | OpStray
    | OpMinimum | OpMaximum | OpClamp | OpFit | OpGamma | OpContrast | OpSmoothstep | OpRamp

  datatype RampPoint = RampPoint(position: real, value: real, interpolation: nat)

  datatype RampRange = RampRange(offset: nat, count: nat)

  datatype Instruction = Instruction(op: Op, offset: nat, count: nat, auxiliary: nat, immediate: real)

  datatype Program = Program(
    instructions: seq<Instruction>,
    operands: seq<nat>,
    inputs: seq<string>,
    rampPoints: seq<RampPoint>,
    ramps: seq<RampRange>,
    result: nat,
    expressionSeed: nat,
    randomCalls: nat)

  /** `Malformed` covers the operand range, SSA order, arity, input index, ramp and result index checks. */
  datatype EvalError = InputMismatch | ScratchTooSmall | Malformed | NonFinite

  datatype Context = Context(inputs: seq<real>, u: real, v: real, faceSeed: real, t: real, strayPercentage: real)

  /** The library functions the evaluator calls; None stands for a result that is not finite. */
  datatype Math = Math(hash: seq<real> -> real,
                       gamma: (real, real) -> Option<real>,
                       contrast: (real, real) -> Option<real>)

  type Value = Result<real, EvalError>

  function Truth(b: bool): real {
    if b then 1.0 else 0.0
  }

  function Clamp(x: real, lo: real, hi: real): real {
    if x < lo then lo else if hi < x then hi else x
  }

  function Finite(x: Option<real>): Value {
    if x.Some? then Ok(x.value) else Err(NonFinite)
  }

  function Quotient(a: real, b: real): Value {
    if b == 0.0 then Err(NonFinite) else Ok(a / b)
  }

  function Product(a: real, b: real): real {
    a * b
  }

  /** The cubic that rises smoothly from 0 to 1. */
  function SmoothCurve(t: real): real {
    t * t * (3.0 - 2.0 * t)
  }

  // ---------------------------------------------------------------- ramps

  /** The first point, from `from` on, that lies beyond t. */
  function UpperPoint(points: seq<RampPoint>, t: real, from: nat): (k: nat)
    requires from <= |points|
    ensures from <= k <= |points|
    ensures forall i | from <= i < k :: points[i].position <= t
    ensures k < |points| ==> t < points[k].position
    decreases |points| - from
  {
    if from < |points| && t >= points[from].position then UpperPoint(points, t, from + 1) else from
  }

  function HermiteBlend(k0: real, k1: real, u: real): real {
    k0 * (u - 1.0) * (u - 1.0) * (2.0 * u + 1.0) + k1 * u * u * (3.0 - 2.0 * u)
  }

  /** The share s of the way from k0 to k1. */
  function Mixed(k0: real, k1: real, s: real): real {
    k0 + s * (k1 - k0)
  }

  /** The cubic with slopes d0 and d1 at its ends. */
  function Cubic(k0: real, k1: real, d0: real, d1: real, u: real): real {
    HermiteBlend(k0, k1, u) + d0 * u * (u - 1.0) * (u - 1.0) + d1 * u * u * (u - 1.0)
  }

  /** A ramp's value at the share u of the span in front of a point. */
  function SpanValue(points: seq<RampPoint>, upper: nat, u: real): (r: Value)
    requires 0 < upper < |points|
    ensures r.Ok? ==> 0.0 <= r.value <= 1.0
  {
    var p0, p1 := points[upper - 1].position, points[upper].position;
    var k0, k1 := points[upper - 1].value, points[upper].value;
    match points[upper - 1].interpolation
    case 0 => Ok(Clamp(k0, 0.0, 1.0))
    case 1 => Ok(Clamp(Mixed(k0, k1, u), 0.0, 1.0))
    case 2 => Ok(Clamp(HermiteBlend(k0, k1, u), 0.0, 1.0))
    case 3 =>
      var scale :- Quotient(1.0, p1 - p0);
      var d0 :- if upper == 1 then Quotient(k1 - k0, Product(scale, 2.0 * p1 - 2.0 * p0))
                else Quotient(k1 - points[upper - 2].value, Product(scale, p1 - points[upper - 2].position));
      var d1 :- if upper + 1 == |points| then Quotient(k1 - k0, Product(scale, 2.0 * p1 - 2.0 * p0))
                else Quotient(points[upper + 1].value - k0, Product(scale, points[upper + 1].position - p0));
      Ok(Clamp(Cubic(k0, k1, d0, d1, u), 0.0, 1.0))
    case _ => Err(Malformed)
  }

  function RampValue(points: seq<RampPoint>, t: real): (r: Value)
    ensures r.Ok? ==> 0.0 <= r.value <= 1.0
  {
    if points == [] then Err(Malformed)
    else if t <= points[0].position then Ok(Clamp(points[0].value, 0.0, 1.0))
    else if t >= points[|points| - 1].position then Ok(Clamp(points[|points| - 1].value, 0.0, 1.0))
    else
      var upper := UpperPoint(points, t, 1);
      var p0, p1 := points[upper - 1].position, points[upper].position;
      var u :- Quotient(t - p0, p1 - p0);
      SpanValue(points, upper, u)
  }

  // ---------------------------------------------------------------- one instruction

  /** An instruction with its operand fetcher: the program's packed operands and the values computed so far. */
  datatype Site = Site(p: Program, i: Instruction, values: seq<real>) {
    function Arg(k: nat): Value {
      if k >= i.count || i.offset + k >= |p.operands| then Err(Malformed)
      else
        var index := p.operands[i.offset + k];
        if index >= |values| then Err(Malformed) else Ok(values[index])
    }

    function Args(n: nat): (r: Result<seq<real>, EvalError>)
      ensures r.Ok? ==> |r.value| == n
    {
      if n == 0 then Ok([])
      else
        var rest :- Args(n - 1);
        var a :- Arg(n - 1);
        Ok(rest + [a])
    }
  }

  /** The operand counts each operation accepts. */
  predicate ArityFits(op: Op, count: nat) {
    match op
    case OpConstant => count == 0
    case OpInput => count == 0
    case OpStray => count == 0
    case OpRamp => count == 0
    case OpNegate => count == 1
    case OpNot => count == 1
    case OpSelect => count == 3
    case OpClamp => count == 3
    case OpSmoothstep => count == 3
    case OpFit => count == 5
    case OpHash => count > 0
    case OpRandom => count <= 3
    case _ => count == 2
  }

  function RandomValue(a: seq<real>, siteSeed: real, c: Context, m: Math): real
    requires |a| <= 3
  {
    var explicitSeed := |a| == 1 || |a| == 3;
    var r := m.hash([c.u, c.v, c.faceSeed, siteSeed] + if explicitSeed then [a[|a| - 1]] else []);
    if |a| >= 2 then Product(a[1] - a[0], r) + a[0] else r
  }

  function SmoothstepValue(x: real, lo: real, hi: real): Value {
    // A zero-length interval divides by zero: an infinity, which clamps, or a NaN, which does not.
    if hi == lo then (if x == lo then Err(NonFinite) else Ok(Truth(x > lo)))
    else
      Ok(SmoothCurve(Clamp((x - lo) / (hi - lo), 0.0, 1.0)))
  }

  /** An operation that uses all of its operands. */
  function ApplyOp(op: Op, a: seq<real>, immediate: real, c: Context, m: Math): Value
    requires ArityFits(op, |a|)
  {
    match op
    case OpConstant => Ok(immediate)
    case OpNegate => Ok(-a[0])
    case OpNot => Ok(Truth(a[0] == 0.0))
    case OpAdd => Ok(a[0] + a[1])
    case OpSubtract => Ok(a[0] - a[1])
    case OpMultiply => Ok(Product(a[0], a[1]))
    case OpDivide => Quotient(a[0], a[1])
    case OpLess => Ok(Truth(a[0] < a[1]))
    case OpLessEqual => Ok(Truth(a[0] <= a[1]))
    case OpGreater => Ok(Truth(a[0] > a[1]))
    case OpGreaterEqual => Ok(Truth(a[0] >= a[1]))
    case OpEqual => Ok(Truth(a[0] == a[1]))
    case OpNotEqual => Ok(Truth(a[0] != a[1]))
    case OpHash => Ok(m.hash(a))
    case OpRandom => Ok(RandomValue(a, immediate, c, m))
    case OpStray => Ok(Truth(m.hash([c.u, c.v, c.faceSeed, immediate]) * 100.0 < c.strayPercentage))
    case OpMinimum => Ok(if a[1] < a[0] then a[1] else a[0])
    case OpMaximum => Ok(if a[0] < a[1] then a[1] else a[0])
    case OpClamp => Ok(Clamp(a[0], a[1], a[2]))
    case OpFit =>
      var q :- Quotient(Product(a[0] - a[1], a[4] - a[3]), a[2] - a[1]);
      Ok(a[3] + q)
    case OpGamma => Finite(m.gamma(a[0], a[1]))
    case OpContrast => Finite(m.contrast(a[0], a[1]))
    case OpSmoothstep => SmoothstepValue(a[0], a[1], a[2])
    case _ => Err(Malformed)
  }

  function EvalOp(s: Site, c: Context, m: Math): Value {
    var i := s.i;
    if !ArityFits(i.op, i.count) then Err(Malformed)
    else
      match i.op
      case OpInput => if i.auxiliary < |c.inputs| then Ok(c.inputs[i.auxiliary]) else Err(Malformed)
      case OpAnd =>
        var a :- s.Arg(0);
        if a == 0.0 then Ok(0.0) else
        var b :- s.Arg(1);
        Ok(Truth(b != 0.0))
      case OpOr =>
        var a :- s.Arg(0);
        if a != 0.0 then Ok(1.0) else
        var b :- s.Arg(1);
        Ok(Truth(b != 0.0))
      case OpSelect =>
        var a :- s.Arg(0);
        if a != 0.0 then s.Arg(1) else s.Arg(2)
      case OpRamp =>
        if i.auxiliary >= |s.p.ramps| then Err(Malformed) else
        var range := s.p.ramps[i.auxiliary];
        if range.offset + range.count > |s.p.rampPoints| then Err(Malformed)
        else RampValue(s.p.rampPoints[range.offset..range.offset + range.count], c.t)
      case _ =>
        var a :- s.Args(i.count);
        ApplyOp(i.op, a, i.immediate, c, m)
  }

  function EvalInstruction(p: Program, i: Instruction, values: seq<real>, c: Context, m: Math): Value {
    if i.offset + i.count > |p.operands| then Err(Malformed) else EvalOp(Site(p, i, values), c, m)
  }

  // ---------------------------------------------------------------- the evaluator

  /** The values of the first n instructions. */
  function Values(p: Program, c: Context, m: Math, n: nat): (r: Result<seq<real>, EvalError>)
    requires n <= |p.instructions|
    ensures r.Ok? ==> |r.value| == n
  {
    if n == 0 then Ok([])
    else
      var values :- Values(p, c, m, n - 1);
      var value :- EvalInstruction(p, p.instructions[n - 1], values, c, m);
      Ok(values + [value])
  }

  function Run(p: Program, c: Context, m: Math): Value {
    if |c.inputs| != |p.inputs| then Err(InputMismatch)
    else
      var values :- Values(p, c, m, |p.instructions|);
      if p.result >= |values| then Err(Malformed) else Ok(values[p.result])
  }

  /** Once a prefix fails, so does the whole run, with the same error; prefixes of good runs are good. */
  lemma {:induction false} FailureStays(p: Program, c: Context, m: Math, n: nat, k: nat)
    requires n <= k <= |p.instructions|
    ensures Values(p, c, m, n).Err? ==> Values(p, c, m, k) == Values(p, c, m, n)
    ensures Values(p, c, m, k).Ok? ==> Values(p, c, m, n).Ok? && Values(p, c, m, n).value <= Values(p, c, m, k).value
    decreases k
  {
    if n < k { FailureStays(p, c, m, n, k - 1); }
  }

  /** Strict evaluation in a caller-provided scratch buffer. */
  method Evaluate(p: Program, c: Context, m: Math, scratch: array<real>) returns (r: Value)
    modifies scratch
    ensures |c.inputs| != |p.inputs| ==> r == Err(InputMismatch)
    ensures |c.inputs| == |p.inputs| && scratch.Length < |p.instructions| ==> r == Err(ScratchTooSmall)
    ensures |c.inputs| == |p.inputs| && scratch.Length >= |p.instructions| ==> r == Run(p, c, m)
  {
    if |c.inputs| != |p.inputs| { return Err(InputMismatch); }
    if scratch.Length < |p.instructions| { return Err(ScratchTooSmall); }
    for n := 0 to |p.instructions|
      invariant Values(p, c, m, n) == Ok(scratch[..n])
    {
      var value := EvalInstruction(p, p.instructions[n], scratch[..n], c, m);
      FailureStays(p, c, m, n + 1, |p.instructions|);
      if value.Err? { return Err(value.error); }
      ghost var before := scratch[..n];
      scratch[n] := value.value;
      assert scratch[..n + 1] == before + [value.value];
    }
    if p.result >= |p.instructions| { return Err(Malformed); }
    r := Ok(scratch[p.result]);
  }
}
