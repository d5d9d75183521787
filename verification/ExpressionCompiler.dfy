/** The one-pass recursive-descent compiler: it emits instructions while it reads tokens, without a syntax tree. */
module ExpressionCompiler {
  import opened Wrappers
  import opened ExpressionSyntax
  import opened ExpressionProgram
  import opened ExpressionEmitter
  import S = ExpressionSemantics
  import W = ExpressionPhrases
  import L = ExpressionLimits

  // ---------------------------------------------------------------- a failed part fails the whole

  lemma {:induction false} RestFails(ts: seq<Token>, c: nat, level: nat, left: Expr, o: Options, b: Builder)
    requires Terminated(ts) && c < |ts| && level < LEVELS && EmitExpr(o, b, left).Err?
    ensures var r := ParseRest(ts, c, level, left); r.Some? ==> EmitExpr(o, b, r.value.0).Err?
    decreases |ts| - c
  {
    var op := LevelOp(level, ts[c]);
    if op.Some? {
      var right := ParseLevel(ts, c + 1, level + 1);
      if right.Some? { RestFails(ts, right.value.1, level, Binary(op.value, left, right.value.0), o, b); }
    }
  }

  lemma {:induction false} MethodsFail(ts: seq<Token>, c: nat, e: Expr, o: Options, b: Builder)
    requires Terminated(ts) && c < |ts| && EmitExpr(o, b, e).Err?
    ensures var r := ParseMethods(ts, c, e); r.Some? ==> EmitExpr(o, b, r.value.0).Err?
    decreases |ts| - c
  {
    if ts[c] == Arrow && ts[c + 1].Identifier? && ts[c + 2] == LeftParen {
      var args := ParseArguments(ts, c + 3, [e]);
      if args.Some? {
        assert EmitAll(o, b, []) == Ok(([], b));
        ArgumentsFail(o, b, [e], args.value.0);
        MethodsFail(ts, args.value.1, Apply(ts[c + 1].name, args.value.0), o, b);
      }
    }
  }

  lemma {:induction false} ArgumentsFail(o: Options, b: Builder, some: seq<Expr>, all: seq<Expr>)
    requires some <= all && EmitAll(o, b, some).Err?
    ensures EmitAll(o, b, all).Err?
    decreases all
  {
    if some != all { ArgumentsFail(o, b, some, all[..|all| - 1]); }
  }

  // ---------------------------------------------------------------- trees and their parts

  lemma TernaryParse(ts: seq<Token>, c: nat)
    requires Terminated(ts) && c < |ts|
    ensures var r, cond := ParseTernary(ts, c), ParseLevel(ts, c, 0);
      r == if cond.None? then None
           else if ts[cond.value.1] == Question then ParseBranches(ts, cond.value.1 + 1, cond.value.0)
           else cond
  {
    hide ParseLevel, ParseBranches;
  }

  lemma BranchesFail(ts: seq<Token>, c: nat, cond: Expr, o: Options, b: Builder)
    requires Terminated(ts) && c < |ts| && EmitExpr(o, b, cond).Err?
    ensures var r := ParseBranches(ts, c, cond); r.Some? ==> EmitExpr(o, b, r.value.0).Err?
  {
    hide EmitExpr, ParseTernary;
    var r := ParseBranches(ts, c, cond);
    if r.Some? { SelectEmitted(o, b, r.value.0.cond, r.value.0.yes, r.value.0.no); }
  }

  /** The first operand of a level: without it there is nothing, and if it cannot be emitted neither can the chain. */
  lemma ChainBegin(ts: seq<Token>, c: nat, level: nat, o: Options, b: Builder)
    requires Terminated(ts) && c < |ts| && level < LEVELS
    ensures var first, all := ParseLevel(ts, c, level + 1), ParseLevel(ts, c, level);
      && (first.None? ==> all.None?)
      && (first.Some? ==> all == ParseRest(ts, first.value.1, level, first.value.0))
      && (first.Some? && EmitExpr(o, b, first.value.0).Err? && all.Some? ==> EmitExpr(o, b, all.value.0).Err?)
  {
    hide ParseRest, ParsePrefix, EmitExpr;
    var first := ParseLevel(ts, c, level + 1);
    if first.Some? && EmitExpr(o, b, first.value.0).Err? { RestFails(ts, first.value.1, level, first.value.0, o, b); }
  }

  /** One more operand: without it there is nothing, and if it cannot be emitted neither can the chain. */
  lemma ChainStep(ts: seq<Token>, c: nat, level: nat, left: Expr, o: Options, b: Builder)
    requires Terminated(ts) && c < |ts| && level < LEVELS && LevelOp(level, ts[c]).Some?
    ensures var op, right, all := LevelOp(level, ts[c]).value, ParseLevel(ts, c + 1, level + 1), ParseRest(ts, c, level, left);
      && (right.None? ==> all.None?)
      && (right.Some? ==> all == ParseRest(ts, right.value.1, level, Binary(op, left, right.value.0)))
      && (right.Some? && EmitExpr(o, b, Binary(op, left, right.value.0)).Err? && all.Some? ==> EmitExpr(o, b, all.value.0).Err?)
  {
    hide ParseRest, ParseLevel, EmitExpr, LevelOp;
    RestParse(ts, c, level, left);
    var op, right := LevelOp(level, ts[c]).value, ParseLevel(ts, c + 1, level + 1);
    if right.Some? && EmitExpr(o, b, Binary(op, left, right.value.0)).Err? {
      RestFails(ts, right.value.1, level, Binary(op, left, right.value.0), o, b);
    }
  }

  lemma RestParse(ts: seq<Token>, c: nat, level: nat, left: Expr)
    requires Terminated(ts) && c < |ts| && level < LEVELS
    ensures var r, op := ParseRest(ts, c, level, left), LevelOp(level, ts[c]);
      if op.None? then r == Some((left, c))
      else
        var right := ParseLevel(ts, c + 1, level + 1);
        r == if right.None? then None
             else ParseRest(ts, right.value.1, level, Binary(op.value, left, right.value.0))
  {
    hide ParseLevel;
  }

  lemma PrefixParse(ts: seq<Token>, c: nat)
    requires Terminated(ts) && c < |ts|
    ensures var r := ParsePrefix(ts, c);
      if ts[c] == Plus then r == ParsePrefix(ts, c + 1)
      else if ts[c] == Minus || ts[c] == Bang then
        var a := ParsePrefix(ts, c + 1);
        r == if a.None? then None
             else Some((if ts[c] == Minus then Negate(a.value.0) else Not(a.value.0), a.value.1))
      else
        var a := ParsePrimary(ts, c);
        r == if a.None? then None else ParseMethods(ts, a.value.1, a.value.0)
  {
    hide ParsePrimary, ParseMethods;
  }

  /** One method call on `e`. */
  ghost function ParseMethod(ts: seq<Token>, c: nat, e: Expr): (r: Option<(Expr, nat)>)
    requires Terminated(ts) && c < |ts| && ts[c] == Arrow
    ensures r.Some? ==> c < r.value.1 < |ts|
  {
    if !ts[c + 1].Identifier? || ts[c + 2] != LeftParen then None
    else
      var (args, c1) :- ParseArguments(ts, c + 3, [e]);
      Some((Apply(ts[c + 1].name, args), c1))
  }

  lemma MethodsParse(ts: seq<Token>, c: nat, e: Expr)
    requires Terminated(ts) && c < |ts|
    ensures var r := ParseMethods(ts, c, e);
      if ts[c] != Arrow then r == Some((e, c))
      else
        var m := ParseMethod(ts, c, e);
        r == if m.None? then None else ParseMethods(ts, m.value.1, m.value.0)
  {
    hide ParseArguments;
  }

  // ---------------------------------------------------------------- the compiler

  class Compiler {
    const tokens: seq<Token>
    const options: Options
    var cursor: nat
    var program: Program
    var locals: map<string, nat>

    constructor (tokens: seq<Token>, options: Options)
      requires Terminated(tokens)
      ensures this.tokens == tokens && this.options == options && cursor == 0
      ensures Valid() && State() == Fresh(options)
    {
      this.tokens, this.options := tokens, options;
      cursor := 0;
      program, locals := Fresh(options).program, map[];
    }

    ghost predicate Valid()
      reads this
    {
      Terminated(tokens) && cursor < |tokens| && WellFormed(State())
    }

    ghost function State(): Builder
      reads this
    {
      Builder(program, locals)
    }

    /** r and the new state are what emitting `e` from b gives; a failed emission is a failure. */
    ghost predicate Emits(b: Builder, e: Expr, end: nat, r: Result<nat, CompileError>)
      reads this
    {
      var x := EmitExpr(options, b, e);
      if x.Ok? then r == Ok(x.value.0) && State() == x.value.1 && cursor == end else r.Err?
    }

    /** The outcome for a part of the source: it fails if the part does not parse, and else emits its tree. */
    ghost predicate Compiled(parse: Option<(Expr, nat)>, b: Builder, r: Result<nat, CompileError>)
      reads this
    {
      && (if parse.None? then r.Err? else Emits(b, parse.value.0, parse.value.1, r))
      && (r.Ok? ==> Valid() && r.value < |program.instructions| && |b.program.instructions| <= |program.instructions|)
      && r != Err(SsaOrder)
    }

    /** The same for an argument list, added to arguments already emitted from b. */
    ghost predicate CompiledAll(parse: Option<(seq<Expr>, nat)>, b: Builder, r: Result<seq<nat>, CompileError>)
      reads this
    {
      && (if parse.None? then r.Err?
          else
            var x := EmitAll(options, b, parse.value.0);
            if x.Ok? then r == Ok(x.value.0) && State() == x.value.1 && cursor == parse.value.1 else r.Err?)
      && (r.Ok? ==> Valid() && |b.program.instructions| <= |program.instructions|
                    && forall k | 0 <= k < |r.value| :: r.value[k] < |program.instructions|)
      && r != Err(SsaOrder)
    }

    method EmitInstruction(op: Op, operands: seq<nat>, immediate: real, auxiliary: nat)
      returns (r: Result<nat, CompileError>)
      requires Valid() && Emittable(program, op, operands, auxiliary)
      modifies this`program
      ensures var x := Emit(options, old(State()), op, operands, immediate, auxiliary);
        if x.Ok? then r == Ok(x.value.0) && State() == x.value.1 else r == Err(x.error)
      ensures r.Ok? ==> Valid() && r.value < |program.instructions| && |old(program.instructions)| <= |program.instructions|
      ensures r != Err(SsaOrder)
    {
      EmitGrown(options, State(), op, operands, immediate, auxiliary);
      ghost var b := State();
      if |program.instructions| >= options.maxInstructions { return Err(LimitExceeded); }
      if |operands| > MAX_OPERANDS { return Err(LimitExceeded); }
      var offset := |program.operands|;
      if offset > MAX_OFFSET { return Err(LimitExceeded); }
      for k := 0 to |operands|
        invariant program == b.program.(operands := b.program.operands + operands[..k])
      {
        if operands[k] >= |program.instructions| { return Err(SsaOrder); }
        program := program.(operands := program.operands + [operands[k]]);
        assert operands[..k + 1] == operands[..k] + [operands[k]];
      }
      assert operands[..|operands|] == operands;
      program := program.(instructions := program.instructions
                            + [Instruction(op, offset, |operands|, auxiliary, immediate)]);
      r := Ok(|program.instructions| - 1);
    }

    method Ternary() returns (r: Result<nat, CompileError>)
      requires Valid()
      modifies this`cursor, this`program
      ensures Compiled(ParseTernary(tokens, old(cursor)), old(State()), r)
      decreases |tokens| - cursor, 10
    {
      hide WellFormed, ParseLevel, ParseTernary, ParseBranches, EmitExpr;
      ghost var b, c := State(), cursor;
      TernaryParse(tokens, c);
      ghost var cond := ParseLevel(tokens, c, 0);
      if cond.Some? && tokens[cond.value.1] == Question && EmitExpr(options, b, cond.value.0).Err? {
        BranchesFail(tokens, cond.value.1 + 1, cond.value.0, options, b);
      }
      r := Level(0);
      if r.Err? || tokens[cursor] != Question { return; }
      cursor := cursor + 1;
      r := Branches(r.value, b, cond.value.0);
    }

    /** The branches of a conditional whose condition `cond`, emitted from b, is the value `condition`. */
    method Branches(condition: nat, ghost b: Builder, ghost cond: Expr) returns (r: Result<nat, CompileError>)
      requires Valid() && EmitExpr(options, b, cond) == Ok((condition, State()))
      requires condition < |program.instructions| && |b.program.instructions| <= |program.instructions|
      modifies this`cursor, this`program
      ensures Compiled(ParseBranches(tokens, old(cursor), cond), b, r)
      decreases |tokens| - cursor, 11
    {
      hide WellFormed, Emit, ParseTernary, EmitExpr;
      ghost var c := cursor;
      ghost var parse := ParseBranches(tokens, c, cond);
      if parse.Some? { SelectEmitted(options, b, cond, parse.value.0.yes, parse.value.0.no); }
      r := Ternary();
      if r.Err? { return; }
      var yes := r.value;
      if tokens[cursor] != Colon { return Err(Unsupported); }
      cursor := cursor + 1;
      r := OtherBranch(condition, yes, b, cond, ParseTernary(tokens, c).value.0);
    }

    /** The second branch of a conditional, behind the colon, and the instruction that selects. */
    method OtherBranch(condition: nat, yes: nat, ghost b: Builder, ghost cond: Expr, ghost first: Expr)
      returns (r: Result<nat, CompileError>)
      requires Valid() && EmitExpr(options, b, cond).Ok? && EmitExpr(options, b, cond).value.0 == condition
      requires EmitExpr(options, EmitExpr(options, b, cond).value.1, first) == Ok((yes, State()))
      requires condition < |program.instructions| && yes < |program.instructions|
      requires |b.program.instructions| <= |program.instructions|
      modifies this`cursor, this`program
      ensures var no := ParseTernary(tokens, old(cursor));
        Compiled(if no.None? then None else Some((Select(cond, first, no.value.0), no.value.1)), b, r)
      decreases |tokens| - cursor, 11
    {
      hide WellFormed, Emit, ParseTernary, EmitExpr;
      ghost var no := ParseTernary(tokens, cursor);
      if no.Some? { SelectEmitted(options, b, cond, first, no.value.0); }
      r := Ternary();
      if r.Err? { return; }
      r := EmitInstruction(OpSelect, [condition, yes, r.value], 0.0, 0);
    }

    /** One precedence level: a left-associative chain of operands of the next level. */
    method Level(level: nat) returns (r: Result<nat, CompileError>)
      requires Valid() && level <= LEVELS
      modifies this`cursor, this`program
      ensures Compiled(ParseLevel(tokens, old(cursor), level), old(State()), r)
      decreases |tokens| - cursor, 9 - level
    {
      hide WellFormed, LevelOp, ParsePrefix, ParseTernary, ParseRest, EmitExpr, Emit, BinaryCode;
      if level == LEVELS {
        r := Prefix();
        return;
      }
      ghost var b, c := State(), cursor;
      ghost var first := ParseLevel(tokens, c, level + 1);
      ChainBegin(tokens, c, level, options, b);
      r := Level(level + 1);
      if r.Err? { return; }
      ghost var left := first.value.0;
      while LevelOp(level, tokens[cursor]).Some?
        invariant r.Ok? && Valid() && r.value < |program.instructions|
        invariant |b.program.instructions| <= |program.instructions|
        invariant c < cursor && ParseLevel(tokens, c, level) == ParseRest(tokens, cursor, level, left)
        invariant EmitExpr(options, b, left) == Ok((r.value, State()))
        decreases |tokens| - cursor
      {
        ghost var op, right := LevelOp(level, tokens[cursor]).value, ParseLevel(tokens, cursor + 1, level + 1);
        ChainStep(tokens, cursor, level, left, options, b);
        r := Operand(level, r.value, b, left);
        if r.Err? { return; }
        left := Binary(op, left, right.value.0);
      }
      RestParse(tokens, cursor, level, left);
    }

    /** One operator of a level and its right operand, applied to the value of `left`. */
    method Operand(level: nat, value: nat, ghost b: Builder, ghost left: Expr) returns (r: Result<nat, CompileError>)
      requires Valid() && level < LEVELS && LevelOp(level, tokens[cursor]).Some?
      requires EmitExpr(options, b, left) == Ok((value, State()))
      requires value < |program.instructions| && |b.program.instructions| <= |program.instructions|
      modifies this`cursor, this`program
      ensures var op, right := LevelOp(level, tokens[old(cursor)]).value, ParseLevel(tokens, old(cursor) + 1, level + 1);
        Compiled(if right.None? then None else Some((Binary(op, left, right.value.0), right.value.1)), b, r)
      decreases |tokens| - cursor, 9 - level
    {
      hide WellFormed, Emit, LevelOp, ParseLevel, BinaryCode, EmitExpr;
      var op := LevelOp(level, tokens[cursor]).value;
      ghost var right := ParseLevel(tokens, cursor + 1, level + 1);
      if right.Some? { BinaryEmitted(options, b, op, left, right.value.0); }
      cursor := cursor + 1;
      r := Level(level + 1);
      if r.Err? { return; }
      r := EmitInstruction(BinaryCode(op), [value, r.value], 0.0, 0);
    }

    method Prefix() returns (r: Result<nat, CompileError>)
      requires Valid()
      modifies this`cursor, this`program
      ensures Compiled(ParsePrefix(tokens, old(cursor)), old(State()), r)
      decreases |tokens| - cursor, 2
    {
      hide WellFormed, Emit, ParsePrefix, EmitExpr;
      ghost var b, c := State(), cursor;
      PrefixParse(tokens, c);
      if tokens[cursor] == Plus {
        cursor := cursor + 1;
        r := Prefix();
      } else if tokens[cursor] == Minus || tokens[cursor] == Bang {
        var op := if tokens[cursor] == Minus then OpNegate else OpNot;
        cursor := cursor + 1;
        r := Prefix();
        ghost var parse := ParsePrefix(tokens, c + 1);
        if parse.Some? { UnaryEmitted(options, b, parse.value.0); }
        if r.Ok? { r := EmitInstruction(op, [r.value], 0.0, 0); }
      } else {
        r := Postfix();
      }
    }

    /** A primary operand followed by any number of method calls on it. */
    method Postfix() returns (r: Result<nat, CompileError>)
      requires Valid() && tokens[cursor] !in {Plus, Minus, Bang}
      modifies this`cursor, this`program
      ensures Compiled(ParsePrefix(tokens, old(cursor)), old(State()), r)
      decreases |tokens| - cursor, 1
    {
      hide WellFormed, ParsePrefix, ParsePrimary, ParseMethods, ParseArguments, EmitExpr;
      ghost var b, c := State(), cursor;
      PrefixParse(tokens, c);
      ghost var first := ParsePrimary(tokens, c);
      if first.Some? && EmitExpr(options, b, first.value.0).Err? {
        MethodsFail(tokens, first.value.1, first.value.0, options, b);
      }
      r := Primary();
      if r.Err? { return; }
      ghost var e := first.value.0;
      while tokens[cursor] == Arrow
        invariant r.Ok? && Valid() && r.value < |program.instructions|
        invariant |b.program.instructions| <= |program.instructions|
        invariant c < cursor && ParsePrefix(tokens, c) == ParseMethods(tokens, cursor, e)
        invariant EmitExpr(options, b, e) == Ok((r.value, State()))
        decreases |tokens| - cursor
      {
        MethodsParse(tokens, cursor, e);
        ghost var call := ParseMethod(tokens, cursor, e);
        if call.Some? && EmitExpr(options, b, call.value.0).Err? {
          MethodsFail(tokens, call.value.1, call.value.0, options, b);
        }
        r := MethodCall(r.value, b, e);
        if r.Err? { return; }
        e := call.value.0;
      }
      MethodsParse(tokens, cursor, e);
    }

    /** One `->name(arguments)` on the value of `e`. */
    method MethodCall(receiver: nat, ghost b: Builder, ghost e: Expr) returns (r: Result<nat, CompileError>)
      requires Valid() && tokens[cursor] == Arrow && EmitExpr(options, b, e) == Ok((receiver, State()))
      requires receiver < |program.instructions| && |b.program.instructions| <= |program.instructions|
      modifies this`cursor, this`program
      ensures Compiled(ParseMethod(tokens, old(cursor), e), b, r)
      decreases |tokens| - cursor
    {
      hide WellFormed, ParseArguments, EmitCall, EmitExpr, EmitAll;
      cursor := cursor + 1;
      if !tokens[cursor].Identifier? { return Err(Unsupported); }
      var name := tokens[cursor].name;
      cursor := cursor + 1;
      if tokens[cursor] != LeftParen { return Err(Unsupported); }
      cursor := cursor + 1;
      ghost var all := ParseArguments(tokens, cursor, [e]);
      if all.Some? { ApplyEmitted(options, b, name, all.value.0); }
      SingleArgument(options, b, e);
      var args := Arguments([receiver], b, [e]);
      if args.Err? { return Err(args.error); }
      r := Call(name, args.value);
    }

    /** The arguments up to the closing parenthesis, after those in `known`, which `exprs` compiled to from b. */
    method Arguments(known: seq<nat>, ghost b: Builder, ghost exprs: seq<Expr>) returns (r: Result<seq<nat>, CompileError>)
      requires Valid() && EmitAll(options, b, exprs) == Ok((known, State()))
      requires |b.program.instructions| <= |program.instructions|
      requires forall k | 0 <= k < |known| :: known[k] < |program.instructions|
      modifies this`cursor, this`program
      ensures CompiledAll(ParseArguments(tokens, old(cursor), exprs), b, r)
      decreases |tokens| - cursor, 13
    {
      hide WellFormed, EmitAll, ParseArgumentList;
      if tokens[cursor] == RightParen {
        cursor := cursor + 1;
        r := Ok(known);
      } else {
        r := ArgumentList(known, b, exprs);
      }
    }

    method ArgumentList(known: seq<nat>, ghost b: Builder, ghost exprs: seq<Expr>) returns (r: Result<seq<nat>, CompileError>)
      requires Valid() && EmitAll(options, b, exprs) == Ok((known, State()))
      requires |b.program.instructions| <= |program.instructions|
      requires forall k | 0 <= k < |known| :: known[k] < |program.instructions|
      modifies this`cursor, this`program
      ensures CompiledAll(ParseArgumentList(tokens, old(cursor), exprs), b, r)
      decreases |tokens| - cursor, 12, 1
    {
      hide WellFormed, ParseTernary, EmitExpr, EmitAll, ParseArgumentList;
      var args := known;
      ghost var some := exprs;
      ghost var all := ParseArgumentList(tokens, cursor, exprs);
      var more := true;
      while more
        invariant Valid() && |b.program.instructions| <= |program.instructions| && old(cursor) <= cursor
        invariant forall k | 0 <= k < |args| :: args[k] < |program.instructions|
        invariant EmitAll(options, b, some) == Ok((args, State()))
        invariant more ==> all == ParseArgumentList(tokens, cursor, some)
        invariant !more ==> all == if tokens[cursor] == RightParen then Some((some, cursor + 1)) else None
        decreases |tokens| - cursor, more
      {
        ListParse(tokens, cursor, some);
        ghost var parse := ParseTernary(tokens, cursor);
        if parse.Some? { ArgumentListFails(tokens, cursor, some, options, b); }
        args := Argument(args, b, some);
        if args == [] { return Err(Unsupported); }
        some := some + [parse.value.0];
        more := tokens[cursor] == Comma;
        if more { cursor := cursor + 1; }
      }
      if tokens[cursor] != RightParen { return Err(Unsupported); }
      cursor := cursor + 1;
      r := Ok(args);
    }

    /** Appends the value of one more argument; the empty sequence stands for a failure. */
    method Argument(args: seq<nat>, ghost b: Builder, ghost some: seq<Expr>) returns (args': seq<nat>)
      requires Valid() && EmitAll(options, b, some) == Ok((args, State()))
      requires |b.program.instructions| <= |program.instructions|
      requires forall k | 0 <= k < |args| :: args[k] < |program.instructions|
      modifies this`cursor, this`program
      ensures var parse := ParseTernary(tokens, old(cursor));
        if parse.None? || EmitAll(options, b, some + [parse.value.0]).Err? then args' == []
        else
          && args' != [] && EmitAll(options, b, some + [parse.value.0]) == Ok((args', State()))
          && cursor == parse.value.1 && Valid() && |b.program.instructions| <= |program.instructions|
          && forall k | 0 <= k < |args'| :: args'[k] < |program.instructions|
      decreases |tokens| - cursor, 12, 0
    {
      hide WellFormed, ParseTernary, EmitExpr, EmitAll;
      ghost var parse := ParseTernary(tokens, cursor);
      if parse.Some? { MoreArguments(options, b, some, parse.value.0); }
      var x := Ternary();
      args' := if x.Ok? then args + [x.value] else [];
    }

    /** Numbers one more call of rand and gives its seed. */
    method CountCall() returns (seed: real)
      requires Valid()
      modifies this`program
      ensures State() == CountRandom(old(State())) && Valid()
      ensures |program.instructions| == |old(program.instructions)|
      ensures seed == options.hash([old(program.expressionSeed) as real, old(program.randomCalls) as real])
    {
      hide WellFormed;
      seed := options.hash([program.expressionSeed as real, program.randomCalls as real]);
      ExtendsKeepsForm(State(), CountRandom(State()));
      CountRandomKeepsForm(State());
      program := program.(randomCalls := program.randomCalls + 1);
    }

    /** Emits a named function call, checking its name and number of arguments. */
    method Call(name: string, args: seq<nat>) returns (r: Result<nat, CompileError>)
      requires Valid() && forall k | 0 <= k < |args| :: args[k] < |program.instructions|
      modifies this`program
      ensures var x := EmitCall(options, old(State()), name, args);
        if x.Ok? then r == Ok(x.value.0) && State() == x.value.1 else r.Err?
      ensures r.Ok? ==> Valid() && r.value < |program.instructions| && |old(program.instructions)| <= |program.instructions|
      ensures r != Err(SsaOrder)
    {
      hide WellFormed, Emit, FunctionNamed;
      var f := FunctionNamed(name);
      if f.None? { return Err(Unsupported); }
      match f.value
      case Hash =>
        if args == [] { return Err(Unsupported); }
        r := EmitInstruction(OpHash, args, 0.0, 0);
      case Rand =>
        if |args| > 3 { return Err(Unsupported); }
        var seed := CountCall();
        r := EmitInstruction(OpRandom, args, seed, 0);
      case Stray =>
        if args != [] { return Err(Unsupported); }
        r := EmitInstruction(OpStray, [], options.hash([options.straySeed as real, 0.0]), 0);
      case _ =>
        var (count, op) := FixedCall(f.value).value;
        if |args| != count { return Err(Unsupported); }
        r := EmitInstruction(op, args, 0.0, 0);
    }

    /** A local's value, or the input of that name. */
    method Variable(name: string, bare: bool) returns (r: Result<nat, CompileError>)
      requires Valid()
      modifies this`program
      ensures var x := EmitName(options, old(State()), name, bare);
        if x.Ok? then r == Ok(x.value.0) && State() == x.value.1 else r.Err?
      ensures r.Ok? ==> Valid() && r.value < |program.instructions| && |old(program.instructions)| <= |program.instructions|
      ensures r != Err(SsaOrder)
    {
      hide Emit;
      if name in locals { return Ok(locals[name]); }
      if bare { return Err(Unsupported); }
      var k := IndexOf(program.inputs, name);
      if k == |program.inputs| {
        ghost var b := State();
        program := program.(inputs := program.inputs + [name]);
        ExtendsKeepsForm(b, State());
      }
      r := EmitInstruction(OpInput, [], 0.0, k);
    }

    /** A number with an optional sign. */
    method RampNumber() returns (r: Result<real, CompileError>)
      requires Terminated(tokens) && cursor < |tokens|
      modifies this`cursor
      ensures var x := ParseSigned(tokens, old(cursor));
        if x.Some? then r == Ok(x.value.0) && cursor == x.value.1 else r == Err(Unsupported)
    {
      var sign := 1.0;
      if tokens[cursor] == Plus {
        cursor := cursor + 1;
      } else if tokens[cursor] == Minus {
        cursor := cursor + 1;
        sign := -1.0;
      }
      if !tokens[cursor].Number? { return Err(Unsupported); }
      r := Ok(sign * tokens[cursor].value);
      cursor := cursor + 1;
    }

    /** `position,value,interpolation`. */
    method RampKnot() returns (r: Result<Knot, CompileError>)
      requires Terminated(tokens) && cursor < |tokens|
      modifies this`cursor
      ensures var x := ParseKnot(tokens, old(cursor));
        if x.Some? then r == Ok(x.value.0) && cursor == x.value.1 else r == Err(Unsupported)
    {
      hide ParseSigned;
      var position :- RampNumber();
      if tokens[cursor] != Comma { return Err(Unsupported); }
      cursor := cursor + 1;
      var value :- RampNumber();
      if tokens[cursor] != Comma { return Err(Unsupported); }
      cursor := cursor + 1;
      var interpolation :- RampNumber();
      r := Ok(Knot(position, value, interpolation));
    }

    /** Reads one more ramp point, checks it against the limit and the points before it, and stores it. */
    method StoreKnot(offset: nat, ghost b: Builder, ghost knots: seq<Knot>) returns (r: Result<(), CompileError>)
      requires Terminated(tokens) && cursor < |tokens| && offset == |b.program.rampPoints|
      requires program == b.program.(rampPoints := b.program.rampPoints + S.KnotPoints(knots))
      modifies this`cursor, this`program
      ensures var x := ParseKnot(tokens, old(cursor));
        if x.None? then r == Err(Unsupported)
        else
          var more := knots + [x.value.0];
          if KnotAccepted(options, offset, more, |knots|) then
            && r == Ok(()) && cursor == x.value.1
            && program == b.program.(rampPoints := b.program.rampPoints + S.KnotPoints(more))
          else r.Err? && r != Err(SsaOrder)
    {
      hide ParseKnot;
      var k :- RampKnot();
      var z := k.interpolation.Floor;
      if k.interpolation != z as real || z < 0 || z > 3 { return Err(Unsupported); }
      if k.position < 0.0 || k.position > 1.0 { return Err(Unsupported); }
      if |program.rampPoints| >= options.maxRampPoints { return Err(LimitExceeded); }
      if |program.rampPoints| != offset && k.position <= program.rampPoints[|program.rampPoints| - 1].position {
        return Err(Unsupported);
      }
      assert S.KnotPoints(knots + [k]) == S.KnotPoints(knots) + [RampPoint(k.position, k.value, z)];
      program := program.(rampPoints := program.rampPoints + [RampPoint(k.position, k.value, z)]);
      r := Ok(());
    }

    /** The points of a ramp, and the instruction that evaluates it. */
    method RampPoints() returns (r: Result<nat, CompileError>)
      requires Valid()
      modifies this`cursor, this`program
      ensures var x := ParseKnots(tokens, old(cursor), []);
        Compiled(if x.None? then None else Some((Ramp(x.value.0), x.value.1)), old(State()), r)
    {
      hide WellFormed, Emit, ParseKnot, ParseKnots, KnotAccepted, EmitExpr;
      ghost var b, c := State(), cursor;
      ghost var knots: seq<Knot> := [];
      ghost var all := ParseKnots(tokens, c, []);
      var offset := |program.rampPoints|;
      assert program.rampPoints == b.program.rampPoints + S.KnotPoints([]);
      var more := true;
      while more
        invariant Terminated(tokens) && c <= cursor < |tokens| && offset == |b.program.rampPoints|
        invariant program == b.program.(rampPoints := b.program.rampPoints + S.KnotPoints(knots))
        invariant forall k | 0 <= k < |knots| :: KnotAccepted(options, offset, knots, k)
        invariant more ==> all == ParseKnots(tokens, cursor, knots)
        invariant !more ==> knots != [] && all == if tokens[cursor] == RightParen then Some((knots, cursor + 1)) else None
        decreases |tokens| - cursor, more
      {
        KnotsParse(tokens, cursor, knots);
        ghost var x := ParseKnot(tokens, cursor);
        if x.Some? && all.Some? { RejectedKnot(options, b, knots + [x.value.0], all.value.0); }
        var stored := StoreKnot(offset, b, knots);
        if stored.Err? { return Err(stored.error); }
        AcceptedKnots(options, offset, knots, x.value.0);
        knots := knots + [x.value.0];
        more := tokens[cursor] == Colon;
        if more { cursor := cursor + 1; }
      }
      if tokens[cursor] != RightParen { return Err(Unsupported); }
      cursor := cursor + 1;
      r := FinishRamp(offset, b, knots);
    }

    method FinishRamp(offset: nat, ghost b: Builder, ghost knots: seq<Knot>) returns (r: Result<nat, CompileError>)
      requires Terminated(tokens) && cursor < |tokens| && offset == |b.program.rampPoints| && knots != [] && WellFormed(b)
      requires State() == b.(program := b.program.(rampPoints := b.program.rampPoints + S.KnotPoints(knots)))
      requires forall k | 0 <= k < |knots| :: KnotAccepted(options, offset, knots, k)
      modifies this`program
      ensures Compiled(Some((Ramp(knots), cursor)), b, r)
    {
      hide WellFormed, Emit, KnotAccepted;
      WithRampGrown(options, b, knots);
      var count := |program.rampPoints| - offset;
      if count == 0 || count > MAX_OPERANDS || offset > MAX_OFFSET { return Err(Unsupported); }
      if |program.ramps| >= MAX_OFFSET { return Err(LimitExceeded); }
      program := program.(ramps := program.ramps + [RampRange(offset, count)]);
      assert State() == WithRamp(b, knots);
      r := EmitInstruction(OpRamp, [], 0.0, |program.ramps| - 1);
    }

    method Primary() returns (r: Result<nat, CompileError>)
      requires Valid()
      modifies this`cursor, this`program
      ensures Compiled(ParsePrimary(tokens, old(cursor)), old(State()), r)
      decreases |tokens| - cursor, 0, 1
    {
      hide WellFormed, Emit, ParseTernary, EmitExpr, EmitName;
      ghost var b := State();
      match tokens[cursor]
      case Number(value) =>
        LeafEmitted(options, b, value, "", false);
        cursor := cursor + 1;
        r := EmitInstruction(OpConstant, [], value, 0);
      case Variable(name) =>
        LeafEmitted(options, b, 0.0, name, false);
        cursor := cursor + 1;
        r := Variable(name, false);
      case LeftParen =>
        cursor := cursor + 1;
        r := Ternary();
        if r.Ok? {
          if tokens[cursor] != RightParen { return Err(Unsupported); }
          cursor := cursor + 1;
        }
      case Identifier(_) => r := Named();
      case _ => r := Err(Unsupported);
    }

    /** An identifier: a truth value, a bare local, a ramp or a function call. */
    method Named() returns (r: Result<nat, CompileError>)
      requires Valid() && tokens[cursor].Identifier?
      modifies this`cursor, this`program
      ensures Compiled(ParsePrimary(tokens, old(cursor)), old(State()), r)
      decreases |tokens| - cursor, 0, 0
    {
      hide WellFormed, Emit, ParseArguments, ParseKnots, EmitExpr, EmitAll, EmitName, EmitCall;
      ghost var b := State();
      var name := tokens[cursor].name;
      cursor := cursor + 1;
      LeafEmitted(options, b, 1.0, name, true);
      LeafEmitted(options, b, 0.0, name, true);
      if name == "true" {
        r := EmitInstruction(OpConstant, [], 1.0, 0);
      } else if name == "false" {
        r := EmitInstruction(OpConstant, [], 0.0, 0);
      } else if tokens[cursor] != LeftParen {
        r := Variable(name, true);
      } else if name == "rampUI" {
        cursor := cursor + 1;
        r := RampPoints();
      } else {
        cursor := cursor + 1;
        ghost var all := ParseArguments(tokens, cursor, []);
        if all.Some? { ApplyEmitted(options, b, name, all.value.0); }
        NoArguments(options, b);
        var args := Arguments([], b, []);
        if args.Err? { return Err(args.error); }
        r := Call(name, args.value);
      }
    }

    /** The body of a statement, with the number of locals it may still bind. */
    method StatementValue(target: Option<string>) returns (r: Result<nat, CompileError>)
      requires Valid()
      modifies this
      ensures var parse := ParseTernary(tokens, old(cursor));
        if parse.None? then r.Err?
        else
          var x := EmitExpr(options, old(State()), parse.value.0);
          if x.Err? || (target.Some? && target.value !in old(locals) && |old(locals)| >= options.maxLocals) then r.Err?
          else r == Ok(x.value.0) && cursor == parse.value.1 && Valid() && State() == Bound(x.value.1, x.value.0, target)
      ensures r != Err(SsaOrder)
    {
      hide WellFormed, ParseTernary, EmitExpr;
      r := Ternary();
      if r.Err? { return; }
      if target.Some? && target.value !in locals && |locals| >= options.maxLocals { return Err(LimitExceeded); }
      BindKeepsForm(State(), r.value, target);
      program := program.(result := r.value);
      if target.Some? { locals := locals[target.value := r.value]; }
    }

    /**
     Compiles the whole source. It succeeds exactly when the source parses and its
     statements can be emitted, and the program then has the meaning of the source in
     every context with one value per input. What is compiled is what is written: the
     tokens are then those of some pieces, and the program means the statements of any
     pieces that are written so.
     */
    method Compile() returns (r: Result<Program, CompileError>)
      requires Valid() && cursor == 0 && State() == Fresh(options)
      modifies this
      ensures var source := ParseProgram(tokens);
        if source.None? then r.Err?
        else
          var x := EmitStatements(options, source.value);
          if x.Ok? then r == Ok(x.value.program) else r.Err?
      ensures r.Ok? ==> MeansSource(options, r.value, ParseProgram(tokens).value)
      ensures AsWritten(options, tokens, r)
      ensures r != Err(SsaOrder)
    {
      hide WellFormed, ParseTernary, EmitExpr, ParseStatements, EmitStatements, MeansSource, AsWritten;
      WrittenIsRead(options, tokens);
      var haveResult := false;
      ghost var known: seq<Statement> := [];
      NoStatements(options);
      while tokens[cursor] != End
        invariant Valid() && ParseProgram(tokens) == ParseStatements(tokens, cursor, known)
        invariant EmitStatements(options, known) == Ok(State()) && haveResult == (known != [])
        decreases |tokens| - cursor
      {
        if tokens[cursor] == Semicolon {
          StatementsParse(tokens, cursor, known);
          cursor := cursor + 1;
        } else {
          var assigns := (tokens[cursor].Variable? || tokens[cursor].Identifier?) && tokens[cursor + 1] == Assign;
          var target := if assigns then Some(tokens[cursor].name) else None;
          ghost var parse := ParseTernary(tokens, if assigns then cursor + 2 else cursor);
          ClauseStep(options, tokens, cursor, known, target, parse);
          if assigns { cursor := cursor + 2; }
          var x := StatementValue(target);
          if x.Err? { return Err(x.error); }
          if tokens[cursor] != Semicolon && tokens[cursor] != End { return Err(Unsupported); }
          known := known + [Statement(target, parse.value.0)];
          haveResult := true;
        }
      }
      StatementsParse(tokens, cursor, known);
      if !haveResult { return Err(Unsupported); }
      r := Ok(program);
      ProgramMeans(options, known);
    }
  }

  // ---------------------------------------------------------------- what is compiled

  /** A program has the meaning of statements in every context with one value per input. */
  ghost predicate MeansSource(o: Options, p: Program, source: seq<Statement>) {
    forall c: Context, m: Math | m.hash == o.hash && |c.inputs| == |p.inputs| ::
      Run(p, c, m) == ValueOf(S.EvalProgram(WorldOf(o, p, c, m), source))
  }

  lemma ProgramMeans(o: Options, source: seq<Statement>)
    requires source != [] && EmitStatements(o, source).Ok?
    ensures MeansSource(o, EmitStatements(o, source).value.program, source)
  {
    hide EmitStatements, Run, S.EvalProgram, WorldOf, ValueOf;
    var p := EmitStatements(o, source).value.program;
    forall c: Context, m: Math | m.hash == o.hash && |c.inputs| == |p.inputs|
      ensures Run(p, c, m) == ValueOf(S.EvalProgram(WorldOf(o, p, c, m), source))
    {
      CompiledMeans(o, source, c, m);
    }
  }

  /**
   Only a written source compiles, and however the tokens are written as pieces, the result is a program that means
   their statements; an error says that there are none or that they cannot be emitted. Within the reach of 32-bit
   offsets they can be emitted exactly when they are sensible and keep the limits.
   */
  ghost predicate AsWritten(o: Options, ts: seq<Token>, r: Result<Program, CompileError>) {
    && (r.Ok? ==> exists pieces :: W.Writes(pieces, ts))
    && forall pieces | W.Writes(pieces, ts) :: var source := W.StatementsOf(pieces);
         && (r.Ok? <==> source != [] && EmitStatements(o, source).Ok?)
         && (L.Small(L.SourceSizes(source)) ==> (r.Ok? <==> source != [] && L.SourceSensible(source) && L.KeepsLimits(o, source)))
         && (r.Ok? ==> MeansSource(o, r.value, source))
  }

  lemma WrittenIsRead(o: Options, ts: seq<Token>)
    requires Terminated(ts)
    ensures forall r: Result<Program, CompileError> ::
      (var source := ParseProgram(ts);
       if source.None? || EmitStatements(o, source.value).Err? then r.Err? else r.Ok? && MeansSource(o, r.value, source.value)) ==>
      AsWritten(o, ts, r)
  {
    hide W.Writes, W.StatementsOf, W.LegalSource, ParseProgram, EmitStatements, MeansSource, L.Small, L.SourceSizes,
      L.SourceSensible, L.KeepsLimits;
    W.GrammarIsWriting(ts);
    W.WritesLegal(ts);
    forall source | L.Small(L.SourceSizes(source))
      ensures EmitStatements(o, source).Ok? <==> L.SourceSensible(source) && L.KeepsLimits(o, source)
    {
      L.SourceFits(o, source);
    }
  }

  lemma LeafEmitted(o: Options, b: Builder, x: real, name: string, bare: bool)
    ensures EmitExpr(o, b, Constant(x)) == Emit(o, b, OpConstant, [], x, 0)
    ensures EmitExpr(o, b, Name(name, bare)) == EmitName(o, b, name, bare)
  {
  }

  lemma NoArguments(o: Options, b: Builder)
    ensures EmitAll(o, b, []) == Ok(([], b))
  {
  }

  lemma NoStatements(o: Options)
    ensures EmitStatements(o, []) == Ok(Fresh(o)) && WellFormed(Fresh(o))
  {
  }

  lemma MoreStatements(o: Options, known: seq<Statement>, s: Statement)
    requires EmitStatements(o, known).Ok?
    ensures var b := EmitStatements(o, known).value;
      var x := EmitExpr(o, b, s.expr);
      var r := EmitStatements(o, known + [s]);
      && (x.Err? ==> r.Err?)
      && (x.Ok? ==> r == if s.target.Some? && s.target.value !in x.value.1.locals && |x.value.1.locals| >= o.maxLocals
                          then Err(LimitExceeded) else Ok(Bound(x.value.1, x.value.0, s.target)))
      && (x.Ok? ==> x.value.1.locals == b.locals)
  {
    assert (known + [s])[..|known|] == known;
    StatementsWellFormed(o, known);
    EmitExprGrown(o, EmitStatements(o, known).value, s.expr);
    hide EmitExpr, WellFormed;
  }

  lemma {:induction false} StatementsFail(o: Options, some: seq<Statement>, all: seq<Statement>)
    requires some <= all && EmitStatements(o, some).Err?
    ensures EmitStatements(o, all).Err?
    decreases all
  {
    if some != all { StatementsFail(o, some, all[..|all| - 1]); }
  }

  lemma StatementsParse(ts: seq<Token>, c: nat, known: seq<Statement>)
    requires Terminated(ts) && c < |ts|
    ensures var r := ParseStatements(ts, c, known);
      if ts[c] == End then r == if known == [] then None else Some(known)
      else if ts[c] == Semicolon then r == ParseStatements(ts, c + 1, known)
      else
        var assigns := (ts[c].Variable? || ts[c].Identifier?) && ts[c + 1] == Assign;
        var x := ParseTernary(ts, if assigns then c + 2 else c);
        && (x.None? ==> r == None)
        && (x.Some? ==>
              var more := known + [Statement(if assigns then Some(ts[c].name) else None, x.value.0)];
              && (r.Some? ==> more <= r.value)
              && r == if ts[x.value.1] != Semicolon && ts[x.value.1] != End then None
                      else ParseStatements(ts, x.value.1, more))
  {
    hide ParseTernary;
  }

  /** One clause of the source, at a place where neither an end nor a semicolon stands. */
  lemma ClauseStep(o: Options, ts: seq<Token>, c: nat, known: seq<Statement>, target: Option<string>, x: Option<(Expr, nat)>)
    requires Terminated(ts) && c < |ts| && ts[c] != End && ts[c] != Semicolon && EmitStatements(o, known).Ok?
    requires var assigns := (ts[c].Variable? || ts[c].Identifier?) && ts[c + 1] == Assign;
      target == (if assigns then Some(ts[c].name) else None) && x == ParseTernary(ts, if assigns then c + 2 else c)
    ensures x.None? ==> ParseStatements(ts, c, known).None?
    ensures x.Some? ==>
      var all := ParseStatements(ts, c, known);
      var more := known + [Statement(target, x.value.0)];
      var b := EmitStatements(o, known).value;
      var y := EmitExpr(o, b, x.value.0);
      var fails := y.Err? || (target.Some? && target.value !in b.locals && |b.locals| >= o.maxLocals);
      && (fails ==> all.None? || EmitStatements(o, all.value).Err?)
      && (!fails ==> EmitStatements(o, more) == Ok(Bound(y.value.1, y.value.0, target)))
      && all == if ts[x.value.1] != Semicolon && ts[x.value.1] != End then None else ParseStatements(ts, x.value.1, more)
  {
    hide ParseTernary, EmitExpr, ParseStatements, EmitStatements, Bound;
    StatementsParse(ts, c, known);
    if x.Some? {
      var more, all := known + [Statement(target, x.value.0)], ParseStatements(ts, c, known);
      MoreStatements(o, known, Statement(target, x.value.0));
      if all.Some? && EmitStatements(o, more).Err? { StatementsFail(o, more, all.value); }
    }
  }

  /** A ramp with a rejected point is not emitted, whatever points follow. */
  lemma RejectedKnot(o: Options, b: Builder, some: seq<Knot>, all: seq<Knot>)
    requires some != []
    ensures some <= all && !KnotAccepted(o, |b.program.rampPoints|, some, |some| - 1) ==> EmitExpr(o, b, Ramp(all)).Err?
  {
    if some <= all && !KnotAccepted(o, |b.program.rampPoints|, some, |some| - 1) {
      assert !KnotAccepted(o, |b.program.rampPoints|, all, |some| - 1);
    }
  }

  lemma AcceptedKnots(o: Options, stored: nat, knots: seq<Knot>, k: Knot)
    requires forall i | 0 <= i < |knots| :: KnotAccepted(o, stored, knots, i)
    requires KnotAccepted(o, stored, knots + [k], |knots|)
    ensures forall i | 0 <= i < |knots| + 1 :: KnotAccepted(o, stored, knots + [k], i)
  {
    forall i | 0 <= i < |knots| ensures KnotAccepted(o, stored, knots + [k], i) {
      assert KnotAccepted(o, stored, knots, i);
    }
  }

  lemma KnotsParse(ts: seq<Token>, c: nat, known: seq<Knot>)
    requires Terminated(ts) && c < |ts|
    ensures var r, k := ParseKnots(ts, c, known), ParseKnot(ts, c);
      && (k.None? ==> r.None?)
      && (k.Some? ==> r == if ts[k.value.1] == Colon then ParseKnots(ts, k.value.1 + 1, known + [k.value.0])
                           else if ts[k.value.1] == RightParen then Some((known + [k.value.0], k.value.1 + 1))
                           else None)
      && (r.Some? ==> k.Some? && known + [k.value.0] <= r.value.0)
  {
    hide ParseKnot;
  }

  lemma CountRandomKeepsForm(b: Builder)
    requires WellFormed(b)
    ensures WellFormed(CountRandom(b))
  {
    ExtendsKeepsForm(b, CountRandom(b));
  }

  lemma SingleArgument(o: Options, b: Builder, e: Expr)
    requires EmitExpr(o, b, e).Ok?
    ensures EmitAll(o, b, [e]) == Ok(([EmitExpr(o, b, e).value.0], EmitExpr(o, b, e).value.1))
  {
    MoreArguments(o, b, [], e);
    var x := EmitExpr(o, b, e).value.0;
    assert [] + [e] == [e] && [] + [x] == [x];
  }

  lemma ArgumentListFails(ts: seq<Token>, c: nat, some: seq<Expr>, o: Options, b: Builder)
    requires Terminated(ts) && c < |ts| && ParseTernary(ts, c).Some?
    ensures var all := ParseArgumentList(ts, c, some);
      all.Some? && EmitAll(o, b, some + [ParseTernary(ts, c).value.0]).Err? ==> EmitAll(o, b, all.value.0).Err?
  {
    hide EmitAll, ParseTernary, ParseArgumentList;
    ListParse(ts, c, some);
    var all, more := ParseArgumentList(ts, c, some), some + [ParseTernary(ts, c).value.0];
    if all.Some? && EmitAll(o, b, more).Err? { ArgumentsFail(o, b, more, all.value.0); }
  }

  /** A parsed argument list starts with the known arguments and the first one read. */
  lemma ListParse(ts: seq<Token>, c: nat, known: seq<Expr>)
    requires Terminated(ts) && c < |ts|
    ensures var r, x := ParseArgumentList(ts, c, known), ParseTernary(ts, c);
      && (x.None? ==> r.None?)
      && (x.Some? ==> r == if ts[x.value.1] == Comma then ParseArgumentList(ts, x.value.1 + 1, known + [x.value.0])
                           else if ts[x.value.1] == RightParen then Some((known + [x.value.0], x.value.1 + 1))
                           else None)
      && (r.Some? ==> x.Some? && known + [x.value.0] <= r.value.0)
  {
    hide ParseTernary;
  }
}
