/** What calls and operators mean, name by name and sign by sign, apart from how the meaning is defined or computed. */
module ExpressionLaws {
  import opened Wrappers
  import opened ExpressionSyntax
  import opened ExpressionSemantics
  import P = ExpressionProgram

  // ---------------------------------------------------------------- names

  lemma ShortNames()
    ensures FunctionNamed("min") == Some(Min) && FunctionNamed("max") == Some(Max) && FunctionNamed("fit") == Some(Fit)
    ensures FunctionNamed("hash") == Some(Hash) && FunctionNamed("rand") == Some(Rand) && FunctionNamed("stray") == Some(Stray)
  {
    assert "min"[1] == 'i' && "max"[1] == 'a';
    assert "hash"[0] == 'h' && "rand"[0] == 'r';
  }

  lemma LongNames()
    ensures FunctionNamed("clamp") == Some(ClampTo) && FunctionNamed("gamma") == Some(Gamma)
    ensures FunctionNamed("contrast") == Some(Contrast) && FunctionNamed("smoothstep") == Some(Smoothstep)
  {
    assert "clamp"[0] == 'c' && "gamma"[0] == 'g' && "stray"[0] == 's';
  }

  ghost predicate Known(name: string) {
    || name == "hash" || name == "rand" || name == "stray" || name == "min" || name == "max"
    || name == "clamp" || name == "fit" || name == "gamma" || name == "contrast" || name == "smoothstep"
  }

  lemma OtherNames(name: string)
    ensures FunctionNamed(name).Some? <==> Known(name)
  {
  }

  /** A call whose arguments have values. */
  ghost function Called(w: World, locals: map<string, real>, name: string, args: seq<Expr>, site: nat): Option<real> {
    Eval(w, locals, Apply(name, args), site)
  }

  lemma CallIs(w: World, locals: map<string, real>, name: string, args: seq<Expr>, site: nat, xs: seq<real>)
    requires EvalAll(w, locals, args, site) == Some(xs)
    ensures Called(w, locals, name, args, site)
         == if FunctionNamed(name).None? then None else CallMeaning(w, FunctionNamed(name).value, xs, site + RandCallsIn(args))
  {
    hide FunctionNamed, CallMeaning, RandCallsIn;
  }

  // ---------------------------------------------------------------- the functions

  ghost predicate IsLeast(r: real, xs: seq<real>) {
    r in xs && forall x :: x in xs ==> r <= x
  }

  ghost predicate IsGreatest(r: real, xs: seq<real>) {
    r in xs && forall x :: x in xs ==> x <= r
  }

  /** `min` and `max` take two arguments and give the smaller and the larger; names that are not known give nothing. */
  lemma Extremes(w: World, locals: map<string, real>, args: seq<Expr>, site: nat, xs: seq<real>, other: string)
    requires EvalAll(w, locals, args, site) == Some(xs) && !Known(other)
    ensures var least, greatest := Called(w, locals, "min", args, site), Called(w, locals, "max", args, site);
      && (least.Some? <==> |xs| == 2) && (greatest.Some? <==> |xs| == 2)
      && (|xs| == 2 ==> IsLeast(least.value, xs) && IsGreatest(greatest.value, xs))
    ensures Called(w, locals, other, args, site) == None
  {
    ShortNames();
    OtherNames(other);
    CallIs(w, locals, "min", args, site, xs);
    CallIs(w, locals, "max", args, site, xs);
    CallIs(w, locals, other, args, site, xs);
    hide FunctionNamed, Called, Known;
    if |xs| == 2 { assert xs[0] in xs && xs[1] in xs; }
  }

  /** `clamp` keeps what lies between its bounds and gives the bound that is passed otherwise. */
  lemma Clamps(w: World, locals: map<string, real>, args: seq<Expr>, site: nat, xs: seq<real>)
    requires EvalAll(w, locals, args, site) == Some(xs)
    ensures var r := Called(w, locals, "clamp", args, site);
      && (r.Some? <==> |xs| == 3)
      && (r.Some? && xs[1] <= xs[2] ==>
            && xs[1] <= r.value <= xs[2] && (xs[1] <= xs[0] <= xs[2] ==> r.value == xs[0])
            && (xs[0] <= xs[1] ==> r.value == xs[1]) && (xs[0] >= xs[2] ==> r.value == xs[2]))
  {
    LongNames();
    CallIs(w, locals, "clamp", args, site, xs);
    hide FunctionNamed, Called;
  }

  /** `fit` takes the first interval evenly to the second, also beyond its ends; an interval of no length gives nothing. */
  lemma Fits(w: World, locals: map<string, real>, args: seq<Expr>, site: nat, xs: seq<real>)
    requires EvalAll(w, locals, args, site) == Some(xs)
    ensures var r := Called(w, locals, "fit", args, site);
      && (r.Some? <==> |xs| == 5 && xs[1] != xs[2])
      && (r.Some? ==> (r.value - xs[3]) * (xs[2] - xs[1]) == (xs[0] - xs[1]) * (xs[4] - xs[3]))
      && (r.Some? && xs[0] == xs[1] ==> r.value == xs[3]) && (r.Some? && xs[0] == xs[2] ==> r.value == xs[4])
  {
    ShortNames();
    CallIs(w, locals, "fit", args, site, xs);
    hide FunctionNamed, Called;
    if |xs| == 5 && xs[1] != xs[2] { Interpolated(xs[0] - xs[1], xs[4] - xs[3], xs[2] - xs[1]); }
  }

  lemma Interpolated(a: real, b: real, d: real)
    requires d != 0.0
    ensures P.Product(a, b) / d * d == a * b
    ensures a == 0.0 ==> P.Product(a, b) / d == 0.0
    ensures a == d ==> P.Product(a, b) / d == b
  {
    var q := P.Product(a, b) / d;
    assert q * d == a * b;
    if a == 0.0 { assert q * d == 0.0; }
    if a == d { assert (q - b) * d == 0.0; }
  }

  /** `smoothstep` rises from 0 to 1 between its bounds along 3 t t - 2 t t t and stays level outside. */
  lemma Smooth(w: World, locals: map<string, real>, args: seq<Expr>, site: nat, xs: seq<real>, t: real)
    requires EvalAll(w, locals, args, site) == Some(xs)
    ensures var r := Called(w, locals, "smoothstep", args, site);
      && (r.Some? <==> |xs| == 3 && !(xs[0] == xs[1] == xs[2]))
      && (r.Some? && xs[1] < xs[2] ==>
            && (xs[0] <= xs[1] ==> r.value == 0.0) && (xs[0] >= xs[2] ==> r.value == 1.0)
            && (xs[1] <= xs[0] <= xs[2] && t * (xs[2] - xs[1]) == xs[0] - xs[1] ==> r.value == 3.0 * (t * t) - 2.0 * (t * t * t)))
      && (r.Some? && xs[1] == xs[2] ==> r.value == if xs[0] > xs[1] then 1.0 else 0.0)
  {
    LongNames();
    CallIs(w, locals, "smoothstep", args, site, xs);
    hide FunctionNamed, Called;
    if |xs| == 3 && xs[1] < xs[2] { Share(xs[0] - xs[1], xs[2] - xs[1], t); }
  }

  lemma Share(a: real, d: real, t: real)
    requires d > 0.0
    ensures a < 0.0 <==> a / d < 0.0
    ensures a > d <==> a / d > 1.0
    ensures a == 0.0 ==> a / d == 0.0
    ensures a == d ==> a / d == 1.0
    ensures t * d == a ==> a / d == t
    ensures P.SmoothCurve(0.0) == 0.0 && P.SmoothCurve(1.0) == 1.0 && P.SmoothCurve(t) == 3.0 * (t * t) - 2.0 * (t * t * t)
  {
    var q := a / d;
    assert q * d == a;
    if t * d == a { assert (q - t) * d == 0.0; }
    if q < 0.0 { assert (-q) * d > 0.0; } else { assert q * d >= 0.0; }
    if q > 1.0 { assert (q - 1.0) * d > 0.0; } else { assert (1.0 - q) * d >= 0.0; }
  }

  /** `hash` hashes all its values, and `gamma` and `contrast` take two and are the library's. */
  lemma LibraryCalls(w: World, locals: map<string, real>, args: seq<Expr>, site: nat, xs: seq<real>)
    requires EvalAll(w, locals, args, site) == Some(xs)
    ensures Called(w, locals, "hash", args, site) == Some(w.math.hash(xs))
    ensures Called(w, locals, "gamma", args, site) == if |xs| == 2 then w.math.gamma(xs[0], xs[1]) else None
    ensures Called(w, locals, "contrast", args, site) == if |xs| == 2 then w.math.contrast(xs[0], xs[1]) else None
  {
    ShortNames();
    LongNames();
    CallIs(w, locals, "hash", args, site, xs);
    CallIs(w, locals, "gamma", args, site, xs);
    CallIs(w, locals, "contrast", args, site, xs);
    hide FunctionNamed, Called;
  }

  /**
   `rand` hashes the place on the face, the face's seed and the seed of its own site, and a seed of the call's own
   where the number of arguments is odd; two or three arguments start with the interval it is spread over.
   */
  lemma RandomCalls(w: World, locals: map<string, real>, args: seq<Expr>, site: nat, xs: seq<real>)
    requires EvalAll(w, locals, args, site) == Some(xs)
    ensures var r, c := Called(w, locals, "rand", args, site), w.context;
      var place := [c.u, c.v, c.faceSeed, w.math.hash([w.expressionSeed as real, (site + RandCallsIn(args)) as real])];
      && (r.Some? <==> |xs| <= 3)
      && (|xs| == 0 ==> r.value == w.math.hash(place))
      && (|xs| == 1 ==> r.value == w.math.hash(place + [xs[0]]))
      && (|xs| == 2 ==> r.value == xs[0] + (xs[1] - xs[0]) * w.math.hash(place))
      && (|xs| == 3 ==> r.value == xs[0] + (xs[1] - xs[0]) * w.math.hash(place + [xs[2]]))
  {
    ShortNames();
    CallIs(w, locals, "rand", args, site, xs);
    hide FunctionNamed, Called, RandCallsIn;
  }

  /** `stray` asks whether a hash of the place on the face falls below the percentage. */
  lemma StrayCalls(w: World, locals: map<string, real>, args: seq<Expr>, site: nat, xs: seq<real>)
    requires EvalAll(w, locals, args, site) == Some(xs)
    ensures var r, c := Called(w, locals, "stray", args, site), w.context;
      && r.Some?
      && r.value == if 100.0 * w.math.hash([c.u, c.v, c.faceSeed, w.math.hash([w.straySeed as real, 0.0])]) < c.strayPercentage
                    then 1.0 else 0.0
  {
    ShortNames();
    CallIs(w, locals, "stray", args, site, xs);
    hide FunctionNamed, Called, RandCallsIn;
  }

  // ---------------------------------------------------------------- the operators

  /** Truth is any value but zero; comparisons and connectives give 1 or 0, and a quotient by zero gives nothing. */
  lemma Operators(x: real, y: real)
    ensures BinaryMeaning(Add, x, y) == Some(x + y) && BinaryMeaning(Sub, x, y) == Some(x - y)
    ensures BinaryMeaning(Mul, x, y) == Some(x * y)
    ensures var q := BinaryMeaning(Div, x, y); (q.Some? <==> y != 0.0) && (q.Some? ==> q.value * y == x)
    ensures BinaryMeaning(Lt, x, y) == BinaryMeaning(Gt, y, x) && BinaryMeaning(Le, x, y) == BinaryMeaning(Ge, y, x)
    ensures BinaryMeaning(Lt, x, y) == Some(1.0) <==> x < y
    ensures BinaryMeaning(Lt, x, y) != Some(1.0) ==> BinaryMeaning(Lt, x, y) == Some(0.0) && BinaryMeaning(Ge, x, y) == Some(1.0)
    ensures BinaryMeaning(Lt, x, y) == Some(1.0) ==> BinaryMeaning(Ge, x, y) == Some(0.0)
    ensures BinaryMeaning(Eq, x, y) == if x == y then Some(1.0) else Some(0.0)
    ensures BinaryMeaning(Ne, x, y) == if x == y then Some(0.0) else Some(1.0)
    ensures BinaryMeaning(And, x, y) == if x == 0.0 || y == 0.0 then Some(0.0) else Some(1.0)
    ensures BinaryMeaning(Or, x, y) == if x == 0.0 && y == 0.0 then Some(0.0) else Some(1.0)
  {
  }
}
