/** When a source compiles: what it may call and name, and how its size compares with the limits. */
module ExpressionLimits {
  import opened Wrappers
  import opened ExpressionSyntax
  import opened ExpressionProgram
  import opened ExpressionEmitter
  import S = ExpressionSemantics

  // ---------------------------------------------------------------- the size of a tree

  datatype Sizes = Sizes(instructions: nat, operands: nat, rampPoints: nat, ramps: nat)

  const NOTHING := Sizes(0, 0, 0, 0)

  function Plus(a: Sizes, b: Sizes): Sizes {
    Sizes(a.instructions + b.instructions, a.operands + b.operands, a.rampPoints + b.rampPoints, a.ramps + b.ramps)
  }

  /** One instruction with so many operands. */
  function OneWith(operands: nat): Sizes { Sizes(1, operands, 0, 0) }

  /** The parts of a tree that take room: everything but a name that is already bound. */
  function SizesOf(bound: set<string>, e: Expr): Sizes
    decreases e
  {
    match e
    case Constant(_) => OneWith(0)
    case Name(name, _) => if name in bound then NOTHING else OneWith(0)
    case Negate(a) => Plus(SizesOf(bound, a), OneWith(1))
    case Not(a) => Plus(SizesOf(bound, a), OneWith(1))
    case Binary(_, l, r) => Plus(Plus(SizesOf(bound, l), SizesOf(bound, r)), OneWith(2))
    case Select(c, t, f) => Plus(Plus(Plus(SizesOf(bound, c), SizesOf(bound, t)), SizesOf(bound, f)), OneWith(3))
    case Apply(_, args) => Plus(SizesOfAll(bound, args), OneWith(|args|))
    case Ramp(knots) => Sizes(1, 0, |knots|, 1)
  }

  function SizesOfAll(bound: set<string>, args: seq<Expr>): Sizes
    decreases args
  {
    if args == [] then NOTHING
    else Plus(SizesOfAll(bound, args[..|args| - 1]), SizesOf(bound, args[|args| - 1]))
  }

  // ---------------------------------------------------------------- what a tree may say

  /** How many arguments the functions take; there are no others. */
  predicate Takes(name: string, count: nat) {
    || (name == "hash" && count >= 1) || (name == "rand" && count <= 3) || (name == "stray" && count == 0)
    || ((name == "min" || name == "max" || name == "gamma" || name == "contrast") && count == 2)
    || ((name == "clamp" || name == "smoothstep") && count == 3) || (name == "fit" && count == 5)
  }

  predicate KnotInside(q: Knot) {
    0.0 <= q.position <= 1.0 && (q.interpolation == 0.0 || q.interpolation == 1.0 || q.interpolation == 2.0 || q.interpolation == 3.0)
  }

  /** Ramp points lie from 0 to 1, one after the other, with one of the four interpolations. */
  ghost predicate Rises(knots: seq<Knot>) {
    && (forall k :: 0 <= k < |knots| ==> KnotInside(knots[k]))
    && (forall i, j :: 0 <= i < j < |knots| ==> knots[i].position < knots[j].position)
  }

  /** Bare names are bound, functions get their arguments, and ramps rise. */
  ghost predicate Sensible(bound: set<string>, e: Expr)
    decreases e
  {
    match e
    case Constant(_) => true
    case Name(name, bare) => bare ==> name in bound
    case Negate(a) => Sensible(bound, a)
    case Not(a) => Sensible(bound, a)
    case Binary(_, l, r) => Sensible(bound, l) && Sensible(bound, r)
    case Select(c, t, f) => Sensible(bound, c) && Sensible(bound, t) && Sensible(bound, f)
    case Apply(name, args) => AllSensible(bound, args) && Takes(name, |args|) && |args| <= MAX_OPERANDS
    case Ramp(knots) => knots != [] && Rises(knots) && |knots| <= MAX_OPERANDS
  }

  ghost predicate AllSensible(bound: set<string>, args: seq<Expr>)
    decreases args
  {
    args == [] || (AllSensible(bound, args[..|args| - 1]) && Sensible(bound, args[|args| - 1]))
  }

  // ---------------------------------------------------------------- emission by sizes

  function SizeOf(b: Builder): Sizes {
    Sizes(|b.program.instructions|, |b.program.operands|, |b.program.rampPoints|, |b.program.ramps|)
  }

  predicate Within(o: Options, s: Sizes) {
    s.instructions <= o.maxInstructions && s.rampPoints <= o.maxRampPoints
  }

  /** Sizes that 32-bit offsets reach. */
  predicate Small(s: Sizes) {
    s.operands <= MAX_OFFSET && s.rampPoints <= MAX_OFFSET && s.ramps <= MAX_OFFSET
  }

  lemma PlusRegroups(a: Sizes, b: Sizes, c: Sizes)
    ensures Plus(a, Plus(b, c)) == Plus(Plus(a, b), c) && Plus(a, NOTHING) == a
  {
  }

  lemma PlusSmall(o: Options, a: Sizes, b: Sizes)
    ensures Small(Plus(a, b)) ==> Small(a)
    ensures Within(o, Plus(a, b)) ==> Within(o, a)
  {
  }

  /** What an emission does to a builder of so many sizes: it succeeds exactly when it fits. */
  ghost predicate FitsAs(o: Options, b: Builder, r: Emitted, sensible: bool, more: Sizes) {
    && (r.Ok? <==> sensible && Within(o, Plus(SizeOf(b), more)))
    && (r.Ok? ==> SizeOf(r.value.1) == Plus(SizeOf(b), more) && r.value.1.locals == b.locals && WellFormed(r.value.1)
                  && r.value.0 < |r.value.1.program.instructions|)
  }

  lemma EmitFits(o: Options, b: Builder, op: Op, operands: seq<nat>, immediate: real, auxiliary: nat)
    requires Small(Plus(SizeOf(b), OneWith(|operands|))) && Within(o, SizeOf(b))
    requires |operands| <= MAX_OPERANDS && forall k | 0 <= k < |operands| :: operands[k] < |b.program.instructions|
    ensures var r := Emit(o, b, op, operands, immediate, auxiliary);
      && (r.Ok? <==> Within(o, Plus(SizeOf(b), OneWith(|operands|))))
      && (r.Ok? ==> SizeOf(r.value.1) == Plus(SizeOf(b), OneWith(|operands|)) && r.value.1.locals == b.locals)
      && (r.Ok? ==> r.value.0 < |r.value.1.program.instructions|)
  {
  }

  lemma TooMany(o: Options, b: Builder, op: Op, operands: seq<nat>, immediate: real, auxiliary: nat)
    requires |operands| > MAX_OPERANDS
    ensures Emit(o, b, op, operands, immediate, auxiliary).Err?
  {
  }

  lemma {:induction false} NameFits(o: Options, b: Builder, name: string, bare: bool)
    requires WellFormed(b) && Within(o, SizeOf(b)) && Small(Plus(SizeOf(b), SizesOf(b.locals.Keys, Name(name, bare))))
    ensures FitsAs(o, b, EmitName(o, b, name, bare), bare ==> name in b.locals, SizesOf(b.locals.Keys, Name(name, bare)))
  {
    EmitNameGrown(o, b, name, bare);
    hide Emit, WellFormed;
    if name in b.locals {
      NamedBefore(b, name);
    } else if !bare {
      var k := IndexOf(b.program.inputs, name);
      var b' := if k < |b.program.inputs| then b else b.(program := b.program.(inputs := b.program.inputs + [name]));
      EmitFits(o, b', OpInput, [], 0.0, k);
    }
  }

  lemma NamedBefore(b: Builder, name: string)
    requires WellFormed(b) && name in b.locals
    ensures b.locals[name] < |b.program.instructions|
  {
  }

  lemma {:induction false} KnotsAccepted(o: Options, stored: nat, knots: seq<Knot>)
    requires knots != []
    ensures (forall k | 0 <= k < |knots| :: KnotAccepted(o, stored, knots, k)) <==> Rises(knots) && stored + |knots| <= o.maxRampPoints
  {
    if forall k | 0 <= k < |knots| :: KnotAccepted(o, stored, knots, k) {
      forall k | 0 <= k < |knots| ensures KnotInside(knots[k]) { KnotIs(o, stored, knots, k); }
      forall i, j | 0 <= i < j < |knots| ensures knots[i].position < knots[j].position { KnotsBetween(o, stored, knots, i, j); }
      KnotIs(o, stored, knots, |knots| - 1);
    } else if Rises(knots) && stored + |knots| <= o.maxRampPoints {
      forall k | 0 <= k < |knots| ensures KnotAccepted(o, stored, knots, k) {
        assert KnotInside(knots[k]);
        KnotIs(o, stored, knots, k);
      }
    }
  }

  lemma KnotIs(o: Options, stored: nat, knots: seq<Knot>, k: nat)
    requires k < |knots|
    ensures KnotAccepted(o, stored, knots, k) <==>
      && KnotInside(knots[k]) && stored + k < o.maxRampPoints && (k > 0 ==> knots[k].position > knots[k - 1].position)
  {
    var z := knots[k].interpolation;
    if z == z.Floor as real && 0.0 <= z <= 3.0 { assert z.Floor == 0 || z.Floor == 1 || z.Floor == 2 || z.Floor == 3; }
  }

  lemma {:induction false} RampFitsIn(o: Options, b: Builder, knots: seq<Knot>)
    requires WellFormed(b) && Within(o, SizeOf(b)) && Small(Plus(SizeOf(b), SizesOf(b.locals.Keys, Ramp(knots))))
    ensures FitsAs(o, b, EmitRamp(o, b, knots), Sensible(b.locals.Keys, Ramp(knots)), SizesOf(b.locals.Keys, Ramp(knots)))
  {
    EmitRampGrown(o, b, knots);
    if knots != [] {
      KnotsAccepted(o, |b.program.rampPoints|, knots);
      hide KnotAccepted, Rises, WellFormed, Emit;
      if Rises(knots) && |b.program.rampPoints| + |knots| <= o.maxRampPoints && |knots| <= MAX_OPERANDS {
        EmitFits(o, WithRamp(b, knots), OpRamp, [], 0.0, |b.program.ramps|);
      }
    }
  }

  lemma NamesTaken(name: string, count: nat)
    ensures Takes(name, count) <==>
      FunctionNamed(name).Some? &&
      match FunctionNamed(name).value
      case Hash => count >= 1
      case Rand => count <= 3
      case Stray => count == 0
      case f => FixedCall(f).value.0 == count
  {
  }

  lemma CallFits(o: Options, b: Builder, name: string, args: seq<nat>)
    requires WellFormed(b) && Within(o, SizeOf(b)) && Small(Plus(SizeOf(b), OneWith(|args|)))
    requires forall k | 0 <= k < |args| :: args[k] < |b.program.instructions|
    ensures FitsAs(o, b, EmitCall(o, b, name, args), Takes(name, |args|) && |args| <= MAX_OPERANDS, OneWith(|args|))
  {
    NamesTaken(name, |args|);
    EmitCallGrown(o, b, name, args);
    hide Emit, WellFormed, FunctionNamed, Takes;
    if FunctionNamed(name).Some? { FunctionFits(o, b, FunctionNamed(name).value, args); }
  }

  lemma FunctionFits(o: Options, b: Builder, f: Function, args: seq<nat>)
    requires Within(o, SizeOf(b)) && Small(Plus(SizeOf(b), OneWith(|args|)))
    requires forall k | 0 <= k < |args| :: args[k] < |b.program.instructions|
    ensures var r := EmitFunction(o, b, f, args);
      var taken := match f
        case Hash => |args| >= 1
        case Rand => |args| <= 3
        case Stray => |args| == 0
        case g => FixedCall(g).value.0 == |args|;
      && (r.Ok? <==> taken && |args| <= MAX_OPERANDS && Within(o, Plus(SizeOf(b), OneWith(|args|))))
      && (r.Ok? ==> SizeOf(r.value.1) == Plus(SizeOf(b), OneWith(|args|)) && r.value.1.locals == b.locals)
  {
    hide Emit;
    match f
    case Hash =>
      if |args| > MAX_OPERANDS { TooMany(o, b, OpHash, args, 0.0, 0); } else { EmitFits(o, b, OpHash, args, 0.0, 0); }
    case Rand =>
      if |args| <= 3 {
        EmitFits(o, CountRandom(b), OpRandom, args, o.hash([b.program.expressionSeed as real, b.program.randomCalls as real]), 0);
      }
    case Stray => if args == [] { EmitFits(o, b, OpStray, [], o.hash([o.straySeed as real, 0.0]), 0); }
    case g => if |args| == FixedCall(g).value.0 { EmitFits(o, b, FixedCall(g).value.1, args, 0.0, 0); }
  }

  // ---------------------------------------------------------------- trees

  ghost predicate Ready(o: Options, b: Builder, more: Sizes) {
    WellFormed(b) && Within(o, SizeOf(b)) && Small(Plus(SizeOf(b), more))
  }

  lemma ReadyPart(o: Options, b: Builder, first: Sizes, rest: Sizes)
    requires Ready(o, b, Plus(first, rest))
    ensures Ready(o, b, first)
  {
    hide WellFormed;
  }

  /** After a part that fits, the builder is ready for the rest. */
  lemma ReadyNext(o: Options, b: Builder, r: Emitted, sensible: bool, first: Sizes, rest: Sizes)
    requires Ready(o, b, Plus(first, rest)) && FitsAs(o, b, r, sensible, first) && r.Ok?
    ensures Ready(o, r.value.1, rest) && Plus(SizeOf(r.value.1), rest) == Plus(SizeOf(b), Plus(first, rest))
  {
    hide WellFormed;
    PlusRegroups(SizeOf(b), first, rest);
  }

  lemma LastFits(o: Options, b: Builder, op: Op, operands: seq<nat>, b0: Builder, first: Sizes)
    requires Ready(o, b, OneWith(|operands|)) && ArityFits(op, |operands|) && |operands| <= 3 && op != OpInput && op != OpRamp
    requires forall k | 0 <= k < |operands| :: operands[k] < |b.program.instructions|
    requires b.locals == b0.locals && Plus(SizeOf(b), OneWith(|operands|)) == Plus(SizeOf(b0), Plus(first, OneWith(|operands|)))
    ensures FitsAs(o, b0, Emit(o, b, op, operands, 0.0, 0), true, Plus(first, OneWith(|operands|)))
  {
    EmitGrown(o, b, op, operands, 0.0, 0);
    EmitFits(o, b, op, operands, 0.0, 0);
    hide Emit, WellFormed;
  }

  /** A tree can be emitted exactly when it is sensible and its size keeps to the limits. */
  lemma {:induction false} ExprFits(o: Options, b: Builder, e: Expr)
    requires Ready(o, b, SizesOf(b.locals.Keys, e))
    ensures FitsAs(o, b, EmitExpr(o, b, e), Sensible(b.locals.Keys, e), SizesOf(b.locals.Keys, e))
    decreases e, 3
  {
    hide *;
    var k := b.locals.Keys;
    match e
    case Constant(v) =>
      LeafIs(o, b, v, "", false, []);
      ConstantFits(o, b, v);
    case Name(name, bare) =>
      LeafIs(o, b, 0.0, name, bare, []);
      NameReady(o, b, name, bare);
    case Negate(a) =>
      UnaryIs(k, a);
      UnaryFits(o, b, e, a, OpNegate);
    case Not(a) =>
      UnaryIs(k, a);
      UnaryFits(o, b, e, a, OpNot);
    case Binary(op, l, r) =>
      BinaryIs(k, op, l, r);
      BinaryFits(o, b, op, l, r);
    case Select(c, t, f) =>
      SelectIs(k, c, t, f);
      SelectFits(o, b, c, t, f);
    case Apply(name, args) =>
      ApplyIs(k, name, args);
      ApplyFits(o, b, name, args);
    case Ramp(knots) =>
      LeafIs(o, b, 0.0, "", false, knots);
      RampReady(o, b, knots);
  }

  lemma {:induction false} LeafIs(o: Options, b: Builder, v: real, name: string, bare: bool, knots: seq<Knot>)
    ensures EmitExpr(o, b, Constant(v)) == Emit(o, b, OpConstant, [], v, 0)
    ensures SizesOf(b.locals.Keys, Constant(v)) == OneWith(0) && Sensible(b.locals.Keys, Constant(v))
    ensures EmitExpr(o, b, Name(name, bare)) == EmitName(o, b, name, bare) && EmitExpr(o, b, Ramp(knots)) == EmitRamp(o, b, knots)
  {
    hide Emit, EmitName, EmitRamp, Takes, Rises, Plus, OneWith;
  }

  lemma {:induction false} UnaryIs(k: set<string>, a: Expr)
    ensures SizesOf(k, Negate(a)) == Plus(SizesOf(k, a), OneWith(1)) && (Sensible(k, Negate(a)) <==> Sensible(k, a))
    ensures SizesOf(k, Not(a)) == Plus(SizesOf(k, a), OneWith(1)) && (Sensible(k, Not(a)) <==> Sensible(k, a))
  {
    hide Takes, Rises, Plus, OneWith;
  }

  lemma {:induction false} BinaryIs(k: set<string>, op: BinaryOp, l: Expr, r: Expr)
    ensures SizesOf(k, Binary(op, l, r)) == Plus(Plus(SizesOf(k, l), SizesOf(k, r)), OneWith(2))
    ensures Sensible(k, Binary(op, l, r)) <==> Sensible(k, l) && Sensible(k, r)
  {
    hide Takes, Rises, Plus, OneWith;
  }

  lemma {:induction false} SelectIs(k: set<string>, c: Expr, t: Expr, f: Expr)
    ensures SizesOf(k, Select(c, t, f)) == Plus(Plus(Plus(SizesOf(k, c), SizesOf(k, t)), SizesOf(k, f)), OneWith(3))
    ensures Sensible(k, Select(c, t, f)) <==> Sensible(k, c) && Sensible(k, t) && Sensible(k, f)
  {
    hide Takes, Rises, Plus, OneWith;
  }

  lemma {:induction false} ApplyIs(k: set<string>, name: string, args: seq<Expr>)
    ensures SizesOf(k, Apply(name, args)) == Plus(SizesOfAll(k, args), OneWith(|args|))
    ensures Sensible(k, Apply(name, args)) <==> AllSensible(k, args) && Takes(name, |args|) && |args| <= MAX_OPERANDS
  {
    hide Takes, Rises, Plus, OneWith;
  }

  lemma ConstantFits(o: Options, b: Builder, v: real)
    requires Ready(o, b, OneWith(0))
    ensures FitsAs(o, b, Emit(o, b, OpConstant, [], v, 0), true, OneWith(0))
  {
    EmitGrown(o, b, OpConstant, [], v, 0);
    EmitFits(o, b, OpConstant, [], v, 0);
    hide Emit, WellFormed;
  }

  lemma {:induction false} NameReady(o: Options, b: Builder, name: string, bare: bool)
    requires Ready(o, b, SizesOf(b.locals.Keys, Name(name, bare)))
    ensures FitsAs(o, b, EmitName(o, b, name, bare), Sensible(b.locals.Keys, Name(name, bare)), SizesOf(b.locals.Keys, Name(name, bare)))
  {
    hide WellFormed, Emit, EmitName;
    NameFits(o, b, name, bare);
  }

  lemma {:induction false} RampReady(o: Options, b: Builder, knots: seq<Knot>)
    requires Ready(o, b, SizesOf(b.locals.Keys, Ramp(knots)))
    ensures FitsAs(o, b, EmitRamp(o, b, knots), Sensible(b.locals.Keys, Ramp(knots)), SizesOf(b.locals.Keys, Ramp(knots)))
  {
    hide WellFormed, Emit, EmitRamp;
    RampFitsIn(o, b, knots);
  }

  /** A part that cannot be emitted makes the whole impossible. */
  lemma PartFails(o: Options, b: Builder, r: Emitted, sensible: bool, first: Sizes, rest: Sizes, whole: Emitted, more: bool)
    requires FitsAs(o, b, r, sensible, first) && r.Err? && whole.Err?
    ensures FitsAs(o, b, whole, sensible && more, Plus(first, rest))
  {
    hide WellFormed;
    PlusRegroups(SizeOf(b), first, rest);
    PlusSmall(o, Plus(SizeOf(b), first), rest);
  }

  lemma {:induction false} UnaryFits(o: Options, b: Builder, e: Expr, a: Expr, op: Op)
    requires (e == Negate(a) && op == OpNegate) || (e == Not(a) && op == OpNot)
    requires Ready(o, b, Plus(SizesOf(b.locals.Keys, a), OneWith(1)))
    ensures FitsAs(o, b, EmitExpr(o, b, e), Sensible(b.locals.Keys, a), Plus(SizesOf(b.locals.Keys, a), OneWith(1)))
    decreases e, 0
  {
    hide *;
    var x, s := EmitExpr(o, b, a), SizesOf(b.locals.Keys, a);
    UnaryEmitted(o, b, a);
    ReadyPart(o, b, s, OneWith(1));
    ExprFits(o, b, a);
    if x.Ok? {
      ReadyNext(o, b, x, Sensible(b.locals.Keys, a), s, OneWith(1));
      Parts(o, b, x, Sensible(b.locals.Keys, a), s);
      UnaryOps();
      LastFits(o, x.value.1, op, [x.value.0], b, s);
    } else {
      PartFails(o, b, x, Sensible(b.locals.Keys, a), s, OneWith(1), EmitExpr(o, b, e), true);
    }
  }

  lemma UnaryOps()
    ensures ArityFits(OpNegate, 1) && ArityFits(OpNot, 1) && ArityFits(OpSelect, 3)
  {
  }

  lemma Parts(o: Options, b: Builder, r: Emitted, sensible: bool, s: Sizes)
    requires FitsAs(o, b, r, sensible, s) && r.Ok?
    ensures sensible && r.value.1.locals == b.locals && r.value.0 < |r.value.1.program.instructions|
    ensures SizeOf(r.value.1) == Plus(SizeOf(b), s) && SizeOf(b).instructions <= |r.value.1.program.instructions|
  {
    hide WellFormed;
  }

  /** Two parts one after the other, and something behind them. */
  lemma {:induction false} PairFits(o: Options, b: Builder, e: Expr, l: Expr, r: Expr, rest: Sizes) returns (x: Emitted, y: Emitted)
    requires l < e && r < e
    requires Ready(o, b, Plus(Plus(SizesOf(b.locals.Keys, l), SizesOf(b.locals.Keys, r)), rest))
    ensures x == EmitExpr(o, b, l) && (x.Ok? ==> y == EmitExpr(o, x.value.1, r))
    ensures var both := Sensible(b.locals.Keys, l) && Sensible(b.locals.Keys, r);
      var s := Plus(SizesOf(b.locals.Keys, l), SizesOf(b.locals.Keys, r));
      if x.Ok? && y.Ok? then
        && FitsAs(o, b, y, both, s) && Ready(o, y.value.1, rest) && Plus(SizeOf(y.value.1), rest) == Plus(SizeOf(b), Plus(s, rest))
        && x.value.0 < |y.value.1.program.instructions|
      else !(both && Within(o, Plus(SizeOf(b), s)))
    decreases e, 1
  {
    hide *;
    var k := b.locals.Keys;
    var sl, sr := SizesOf(k, l), SizesOf(k, r);
    x, y := EmitExpr(o, b, l), EmitExpr(o, b, l);
    PlusRegroups(sl, sr, rest);
    ReadyPart(o, b, sl, Plus(sr, rest));
    ExprFits(o, b, l);
    if x.Ok? {
      Parts(o, b, x, Sensible(k, l), sl);
      ReadyNext(o, b, x, Sensible(k, l), sl, Plus(sr, rest));
      ReadyPart(o, x.value.1, sr, rest);
      y := EmitExpr(o, x.value.1, r);
      ExprFits(o, x.value.1, r);
      Chained(o, b, x, y, Sensible(k, l), Sensible(k, r), sl, sr);
      if y.Ok? { ReadyNext(o, b, y, Sensible(k, l) && Sensible(k, r), Plus(sl, sr), rest); }
    } else {
      FirstFails(o, b, x, Sensible(k, l), sl, sr);
    }
  }

  lemma Chained(o: Options, b: Builder, x: Emitted, y: Emitted, first: bool, second: bool, sl: Sizes, sr: Sizes)
    requires FitsAs(o, b, x, first, sl) && x.Ok? && FitsAs(o, x.value.1, y, second, sr)
    ensures FitsAs(o, b, y, first && second, Plus(sl, sr))
    ensures y.Ok? ==> x.value.0 < |y.value.1.program.instructions|
    ensures y.Err? ==> !(first && second && Within(o, Plus(SizeOf(b), Plus(sl, sr))))
  {
    hide WellFormed;
    PlusRegroups(SizeOf(b), sl, sr);
  }

  lemma FirstFails(o: Options, b: Builder, x: Emitted, first: bool, sl: Sizes, sr: Sizes)
    requires FitsAs(o, b, x, first, sl) && x.Err?
    ensures !(first && Within(o, Plus(SizeOf(b), Plus(sl, sr))))
  {
    hide WellFormed;
    PlusRegroups(SizeOf(b), sl, sr);
    PlusSmall(o, Plus(SizeOf(b), sl), sr);
  }

  /** What cannot be emitted does not fit, with more behind it neither. */
  lemma Refused(o: Options, b: Builder, r: Emitted, sensible: bool, s: Sizes, rest: Sizes)
    requires r.Err? && !(sensible && Within(o, Plus(SizeOf(b), s)))
    ensures FitsAs(o, b, r, sensible, Plus(s, rest))
  {
    hide WellFormed;
    PlusRegroups(SizeOf(b), s, rest);
    PlusSmall(o, Plus(SizeOf(b), s), rest);
  }

  lemma {:induction false} BinaryFits(o: Options, b: Builder, op: BinaryOp, l: Expr, r: Expr)
    requires Ready(o, b, Plus(Plus(SizesOf(b.locals.Keys, l), SizesOf(b.locals.Keys, r)), OneWith(2)))
    ensures FitsAs(o, b, EmitExpr(o, b, Binary(op, l, r)), Sensible(b.locals.Keys, l) && Sensible(b.locals.Keys, r),
                   Plus(Plus(SizesOf(b.locals.Keys, l), SizesOf(b.locals.Keys, r)), OneWith(2)))
    decreases Binary(op, l, r), 2
  {
    hide *;
    var k := b.locals.Keys;
    var s := Plus(SizesOf(k, l), SizesOf(k, r));
    BinaryEmitted(o, b, op, l, r);
    var x, y := PairFits(o, b, Binary(op, l, r), l, r, OneWith(2));
    if x.Ok? && y.Ok? {
      Parts(o, b, y, Sensible(k, l) && Sensible(k, r), s);
      LastFits(o, y.value.1, BinaryCode(op), [x.value.0, y.value.0], b, s);
    } else {
      Refused(o, b, EmitExpr(o, b, Binary(op, l, r)), Sensible(k, l) && Sensible(k, r), s, OneWith(2));
    }
  }

  lemma {:induction false} SelectFits(o: Options, b: Builder, c: Expr, t: Expr, f: Expr)
    requires var k := b.locals.Keys;
      Ready(o, b, Plus(Plus(Plus(SizesOf(k, c), SizesOf(k, t)), SizesOf(k, f)), OneWith(3)))
    ensures var k := b.locals.Keys;
      FitsAs(o, b, EmitExpr(o, b, Select(c, t, f)), Sensible(k, c) && Sensible(k, t) && Sensible(k, f),
             Plus(Plus(Plus(SizesOf(k, c), SizesOf(k, t)), SizesOf(k, f)), OneWith(3)))
    decreases Select(c, t, f), 2
  {
    hide *;
    var k := b.locals.Keys;
    var s, sf := Plus(SizesOf(k, c), SizesOf(k, t)), SizesOf(k, f);
    var two, whole := Sensible(k, c) && Sensible(k, t), EmitExpr(o, b, Select(c, t, f));
    SelectEmitted(o, b, c, t, f);
    PlusRegroups(s, sf, OneWith(3));
    var x, y := PairFits(o, b, Select(c, t, f), c, t, Plus(sf, OneWith(3)));
    if x.Ok? && y.Ok? {
      Parts(o, b, y, two, s);
      ReadyPart(o, y.value.1, sf, OneWith(3));
      ExprFits(o, y.value.1, f);
      var z := EmitExpr(o, y.value.1, f);
      Chained(o, b, y, z, two, Sensible(k, f), s, sf);
      if z.Ok? {
        Parts(o, b, z, two && Sensible(k, f), Plus(s, sf));
        Parts(o, y.value.1, z, Sensible(k, f), sf);
        ReadyNext(o, b, z, two && Sensible(k, f), Plus(s, sf), OneWith(3));
        UnaryOps();
        SizeIs(y.value.1);
        LastFits(o, z.value.1, OpSelect, [x.value.0, y.value.0, z.value.0], b, Plus(s, sf));
      } else {
        Refused(o, b, whole, two && Sensible(k, f), Plus(s, sf), OneWith(3));
      }
    } else {
      Refused(o, b, whole, two, s, Plus(sf, OneWith(3)));
      LessSensible(o, b, whole, two, Sensible(k, f), Plus(s, Plus(sf, OneWith(3))));
    }
  }

  lemma SizeIs(b: Builder)
    ensures SizeOf(b).instructions == |b.program.instructions|
  {
  }

  lemma LessSensible(o: Options, b: Builder, r: Emitted, sensible: bool, more: bool, s: Sizes)
    requires FitsAs(o, b, r, sensible, s) && r.Err?
    ensures FitsAs(o, b, r, sensible && more, s)
  {
    hide WellFormed;
  }

  /** The same for arguments, whose values all stand before what follows. */
  ghost predicate AllFitAs(o: Options, b: Builder, r: Result<(seq<nat>, Builder), CompileError>, sensible: bool, more: Sizes) {
    && (r.Ok? <==> sensible && Within(o, Plus(SizeOf(b), more)))
    && (r.Ok? ==> SizeOf(r.value.1) == Plus(SizeOf(b), more) && r.value.1.locals == b.locals && WellFormed(r.value.1)
                  && forall k | 0 <= k < |r.value.0| :: r.value.0[k] < |r.value.1.program.instructions|)
  }

  lemma {:induction false} ArgumentsFit(o: Options, b: Builder, args: seq<Expr>, rest: Sizes)
    requires Ready(o, b, Plus(SizesOfAll(b.locals.Keys, args), rest))
    ensures AllFitAs(o, b, EmitAll(o, b, args), AllSensible(b.locals.Keys, args), SizesOfAll(b.locals.Keys, args))
    decreases args
  {
    if args == [] {
      NoArguments(o, b, rest);
    } else {
      hide *;
      var k := b.locals.Keys;
      var init, last := args[..|args| - 1], args[|args| - 1];
      ArgumentParts(o, b, args);
      var si, sl := SizesOfAll(k, init), SizesOf(k, last);
      PlusRegroups(si, sl, rest);
      ArgumentsFit(o, b, init, Plus(sl, rest));
      var x := EmitAll(o, b, init);
      if x.Ok? {
        AllParts(o, b, x, AllSensible(k, init), si, Plus(sl, rest));
        ReadyPart(o, x.value.1, sl, rest);
        ExprFits(o, x.value.1, last);
        AllChained(o, b, x, EmitExpr(o, x.value.1, last), EmitAll(o, b, args), AllSensible(k, init), Sensible(k, last), si, sl);
      } else {
        AllFail(o, b, x, EmitAll(o, b, args), AllSensible(k, init), Sensible(k, last), si, sl);
      }
    }
  }

  lemma NoArguments(o: Options, b: Builder, rest: Sizes)
    requires Ready(o, b, Plus(SizesOfAll(b.locals.Keys, []), rest))
    ensures AllFitAs(o, b, EmitAll(o, b, []), AllSensible(b.locals.Keys, []), SizesOfAll(b.locals.Keys, []))
  {
    hide WellFormed;
  }

  lemma {:induction false} ArgumentParts(o: Options, b: Builder, args: seq<Expr>)
    requires args != []
    ensures var k, n := b.locals.Keys, |args| - 1;
      && SizesOfAll(k, args) == Plus(SizesOfAll(k, args[..n]), SizesOf(k, args[n]))
      && (AllSensible(k, args) <==> AllSensible(k, args[..n]) && Sensible(k, args[n]))
      && (EmitAll(o, b, args[..n]).Err? ==> EmitAll(o, b, args).Err?)
      && (EmitAll(o, b, args[..n]).Ok? ==>
            var x, y := EmitAll(o, b, args[..n]).value, EmitExpr(o, EmitAll(o, b, args[..n]).value.1, args[n]);
            && (y.Err? ==> EmitAll(o, b, args).Err?)
            && (y.Ok? ==> EmitAll(o, b, args) == Ok((x.0 + [y.value.0], y.value.1))))
  {
    hide EmitExpr, Sensible, SizesOf;
  }

  lemma AllParts(o: Options, b: Builder, x: Result<(seq<nat>, Builder), CompileError>, sensible: bool, s: Sizes, rest: Sizes)
    requires AllFitAs(o, b, x, sensible, s) && x.Ok? && Ready(o, b, Plus(s, rest))
    ensures sensible && x.value.1.locals == b.locals && Ready(o, x.value.1, rest)
    ensures forall k | 0 <= k < |x.value.0| :: x.value.0[k] < |x.value.1.program.instructions|
    ensures SizeOf(x.value.1) == Plus(SizeOf(b), s)
  {
    hide WellFormed;
    PlusRegroups(SizeOf(b), s, rest);
  }

  lemma AllChained(o: Options, b: Builder, x: Result<(seq<nat>, Builder), CompileError>, y: Emitted,
                   all: Result<(seq<nat>, Builder), CompileError>, first: bool, second: bool, si: Sizes, sl: Sizes)
    requires AllFitAs(o, b, x, first, si) && x.Ok? && FitsAs(o, x.value.1, y, second, sl)
    requires (y.Err? ==> all.Err?) && (y.Ok? ==> all == Ok((x.value.0 + [y.value.0], y.value.1)))
    ensures AllFitAs(o, b, all, first && second, Plus(si, sl))
  {
    hide WellFormed;
    PlusRegroups(SizeOf(b), si, sl);
  }

  lemma AllFail(o: Options, b: Builder, x: Result<(seq<nat>, Builder), CompileError>, all: Result<(seq<nat>, Builder), CompileError>,
                first: bool, second: bool, si: Sizes, sl: Sizes)
    requires AllFitAs(o, b, x, first, si) && x.Err? && all.Err?
    ensures AllFitAs(o, b, all, first && second, Plus(si, sl))
  {
    hide WellFormed;
    PlusRegroups(SizeOf(b), si, sl);
    PlusSmall(o, Plus(SizeOf(b), si), sl);
  }

  lemma {:induction false} ApplyFits(o: Options, b: Builder, name: string, args: seq<Expr>)
    requires Ready(o, b, Plus(SizesOfAll(b.locals.Keys, args), OneWith(|args|)))
    ensures FitsAs(o, b, EmitExpr(o, b, Apply(name, args)),
                   AllSensible(b.locals.Keys, args) && Takes(name, |args|) && |args| <= MAX_OPERANDS,
                   Plus(SizesOfAll(b.locals.Keys, args), OneWith(|args|)))
    decreases Apply(name, args), 2
  {
    hide *;
    var k, n := b.locals.Keys, |args|;
    var s, x := SizesOfAll(k, args), EmitAll(o, b, args);
    ApplyEmitted(o, b, name, args);
    ArgumentsFit(o, b, args, OneWith(n));
    if x.Ok? {
      AllParts(o, b, x, AllSensible(k, args), s, OneWith(n));
      ReadyIs(o, x.value.1, OneWith(n));
      CallFits(o, x.value.1, name, x.value.0);
      CallChained(o, b, x, EmitCall(o, x.value.1, name, x.value.0), AllSensible(k, args), Takes(name, n) && n <= MAX_OPERANDS, s, OneWith(n));
    } else {
      ApplyFails(o, b, x, EmitExpr(o, b, Apply(name, args)), AllSensible(k, args), Takes(name, n) && n <= MAX_OPERANDS, s, OneWith(n));
    }
  }

  lemma ReadyIs(o: Options, b: Builder, more: Sizes)
    requires Ready(o, b, more)
    ensures WellFormed(b) && Within(o, SizeOf(b)) && Small(Plus(SizeOf(b), more))
  {
  }

  lemma CallChained(o: Options, b: Builder, x: Result<(seq<nat>, Builder), CompileError>, y: Emitted, first: bool, second: bool,
                    s: Sizes, rest: Sizes)
    requires AllFitAs(o, b, x, first, s) && x.Ok? && FitsAs(o, x.value.1, y, second, rest)
    ensures FitsAs(o, b, y, first && second, Plus(s, rest))
  {
    hide WellFormed;
    PlusRegroups(SizeOf(b), s, rest);
  }

  lemma ApplyFails(o: Options, b: Builder, x: Result<(seq<nat>, Builder), CompileError>, whole: Emitted, first: bool, second: bool,
                   s: Sizes, rest: Sizes)
    requires AllFitAs(o, b, x, first, s) && x.Err? && whole.Err?
    ensures FitsAs(o, b, whole, first && second, Plus(s, rest))
  {
    hide WellFormed;
    PlusRegroups(SizeOf(b), s, rest);
    PlusSmall(o, Plus(SizeOf(b), s), rest);
  }

  // ---------------------------------------------------------------- sources

  /** The names that statements bind. */
  function Targets(source: seq<Statement>): set<string> {
    if source == [] then {}
    else
      var s := source[|source| - 1];
      Targets(source[..|source| - 1]) + if s.target.Some? then {s.target.value} else {}
  }

  /** The size of a source: each statement's, with the names bound before it. */
  function SourceSizes(source: seq<Statement>): Sizes {
    if source == [] then NOTHING
    else
      var init := source[..|source| - 1];
      Plus(SourceSizes(init), SizesOf(Targets(init), source[|source| - 1].expr))
  }

  ghost predicate SourceSensible(source: seq<Statement>) {
    forall k :: 0 <= k < |source| ==> Sensible(Targets(source[..k]), source[k].expr)
  }

  /** A source that keeps to the limits. */
  predicate KeepsLimits(o: Options, source: seq<Statement>) {
    Within(o, SourceSizes(source)) && |Targets(source)| <= o.maxLocals
  }

  lemma {:induction false} SourceStep(source: seq<Statement>)
    requires source != []
    ensures var n := |source| - 1;
      && SourceSizes(source) == Plus(SourceSizes(source[..n]), SizesOf(Targets(source[..n]), source[n].expr))
      && (SourceSensible(source) <==> SourceSensible(source[..n]) && Sensible(Targets(source[..n]), source[n].expr))
      && Targets(source) == Targets(source[..n]) + (if source[n].target.Some? then {source[n].target.value} else {})
  {
    SensibleStep(source);
    hide Sensible, SizesOf, SourceSensible;
  }

  lemma {:induction false} SensibleStep(source: seq<Statement>)
    requires source != []
    ensures var n := |source| - 1;
      SourceSensible(source) <==> SourceSensible(source[..n]) && Sensible(Targets(source[..n]), source[n].expr)
  {
    hide Sensible, SizesOf, Targets;
    var n := |source| - 1;
    var init := source[..n];
    forall k | 0 <= k < n ensures init[..k] == source[..k] && init[k] == source[k] {}
    if SourceSensible(init) && Sensible(Targets(init), source[n].expr) {
      forall k | 0 <= k < |source| ensures Sensible(Targets(source[..k]), source[k].expr) {
        if k < n { assert Sensible(Targets(init[..k]), init[k].expr); }
      }
    }
    if SourceSensible(source) {
      forall k | 0 <= k < n ensures Sensible(Targets(init[..k]), init[k].expr) {
        assert Sensible(Targets(source[..k]), source[k].expr);
      }
      assert Sensible(Targets(source[..n]), source[n].expr);
    }
  }

  ghost predicate BuiltAs(b: Builder, source: seq<Statement>) {
    SizeOf(b) == SourceSizes(source) && b.locals.Keys == Targets(source) && WellFormed(b)
  }

  /** Statements can be emitted exactly when they are sensible and keep the limits, as long as 32-bit offsets reach. */
  lemma {:induction false} SourceFits(o: Options, source: seq<Statement>)
    requires Small(SourceSizes(source))
    ensures var r := EmitStatements(o, source);
      && (r.Ok? <==> SourceSensible(source) && KeepsLimits(o, source))
      && (r.Ok? ==> BuiltAs(r.value, source))
  {
    if source == [] {
      NoSource(o);
    } else {
      hide *;
      var n := |source| - 1;
      var init, s := source[..n], source[n];
      SourceStep(source);
      PlusSmall(o, SourceSizes(init), SizesOf(Targets(init), s.expr));
      SourceFits(o, init);
      StatementsEmitted(o, source);
      var r := EmitStatements(o, init);
      if r.Ok? {
        BuilderReady(o, r.value, init, SizesOf(Targets(init), s.expr));
        ExprFits(o, r.value, s.expr);
        StatementFits(o, r.value, source);
      } else {
        StatementFails(o, source);
      }
    }
  }

  lemma NoSource(o: Options)
    ensures EmitStatements(o, []) == Ok(Fresh(o)) && SourceSensible([]) && KeepsLimits(o, []) && BuiltAs(Fresh(o), [])
  {
  }

  lemma {:induction false} StatementsEmitted(o: Options, source: seq<Statement>)
    requires source != []
    ensures var n := |source| - 1;
      var r, s := EmitStatements(o, source[..n]), source[n];
      && (r.Err? ==> EmitStatements(o, source).Err?)
      && (r.Ok? ==>
            var x := EmitExpr(o, r.value, s.expr);
            && (x.Err? ==> EmitStatements(o, source).Err?)
            && (x.Ok? ==>
                  EmitStatements(o, source) ==
                    if s.target.Some? && s.target.value !in x.value.1.locals && |x.value.1.locals| >= o.maxLocals then Err(LimitExceeded)
                    else Ok(Bound(x.value.1, x.value.0, s.target))))
  {
    hide EmitExpr, Bound;
  }

  lemma {:induction false} BuilderReady(o: Options, b: Builder, init: seq<Statement>, more: Sizes)
    requires BuiltAs(b, init) && KeepsLimits(o, init) && Small(Plus(SourceSizes(init), more))
    ensures Ready(o, b, more) && b.locals.Keys == Targets(init)
  {
    hide WellFormed;
  }

  lemma {:induction false} StatementFits(o: Options, b: Builder, source: seq<Statement>)
    requires source != []
    requires var n := |source| - 1;
      var init, s := source[..n], source[n];
      && EmitStatements(o, init) == Ok(b) && BuiltAs(b, init) && SourceSensible(init) && KeepsLimits(o, init)
      && FitsAs(o, b, EmitExpr(o, b, s.expr), Sensible(b.locals.Keys, s.expr), SizesOf(b.locals.Keys, s.expr))
    ensures var r := EmitStatements(o, source);
      && (r.Ok? <==> SourceSensible(source) && KeepsLimits(o, source))
      && (r.Ok? ==> BuiltAs(r.value, source))
  {
    SourceStep(source);
    StatementsEmitted(o, source);
    hide WellFormed, EmitExpr, EmitStatements, Sensible, SizesOf, SourceSensible, SourceSizes, Targets, Bound;
    var n := |source| - 1;
    var init, s, x := source[..n], source[n], EmitExpr(o, b, source[n].expr);
    assert |b.locals| == |b.locals.Keys|;
    if x.Ok? {
      BoundIs(x.value.1, x.value.0, s.target);
      if s.target.Some? {
        OneMore(Targets(init), s.target.value);
      } else {
        assert Targets(source) == Targets(init);
      }
    }
  }

  lemma OneMore(names: set<string>, name: string)
    ensures name in names ==> names + {name} == names
    ensures name !in names ==> |names + {name}| == |names| + 1
  {
  }

  lemma BoundIs(b: Builder, x: nat, target: Option<string>)
    requires WellFormed(b) && x < |b.program.instructions|
    ensures var r := Bound(b, x, target);
      && SizeOf(r) == SizeOf(b) && WellFormed(r)
      && r.locals.Keys == b.locals.Keys + if target.Some? then {target.value} else {}
  {
    var r := Bound(b, x, target);
    ExtendsKeepsForm(b, r);
    hide InstructionFits, RampFits;
  }

  lemma {:induction false} StatementFails(o: Options, source: seq<Statement>)
    requires source != [] && EmitStatements(o, source[..|source| - 1]).Err?
    requires var init := source[..|source| - 1]; !(SourceSensible(init) && KeepsLimits(o, init))
    ensures EmitStatements(o, source).Err? && !(SourceSensible(source) && KeepsLimits(o, source))
  {
    SourceStep(source);
    StatementsEmitted(o, source);
    var n := |source| - 1;
    PlusSmall(o, SourceSizes(source[..n]), SizesOf(Targets(source[..n]), source[n].expr));
    hide EmitStatements, Sensible, SizesOf, SourceSensible, SourceSizes, Targets, EmitExpr;
    Smaller(Targets(source[..n]), Targets(source));
  }

  lemma Smaller(a: set<string>, b: set<string>)
    ensures a <= b ==> |a| <= |b|
  {
    if a <= b { assert b == a + (b - a); }
  }
}
