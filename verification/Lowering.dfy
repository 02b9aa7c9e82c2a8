/** Lowering of syntax trees to the intermediate representation (src/ir.cpp:43-319), and the proof
    that it keeps their meaning. */
module Lowering {
  import opened Syntax
  import opened Meaning
  import opened Ir

  /** What lowering asks the semantic context for: an expression's type and the Unit type. */
  datatype Types = Types(typeOf: Expr -> TypeId, unit: TypeId)

  function Lower(e: Expr, types: Types): IR
    decreases e, 1
  {
    match e
    case Number(text) => NumberIR(types.typeOf(e), text)
    case Str(text) => StringIR(types.typeOf(e), text)
    case Bool(b) => BoolIR(types.typeOf(e), b)
    case UnitLiteral => UnitIR(types.typeOf(e))
    case ListLiteral(es) =>
      var elements := LowerAll(es, types);
      if Null in elements then Null else ListIR(types.typeOf(e), elements)
    case Ident(x) => IdentIR(types.typeOf(e), x)
    case Call(callee, args) =>
      if callee.Ident? then CallIR(types.typeOf(e), callee.name, LowerArgs(args, types)) else Null
    case Pipe(target, stages) =>
      var first := Lower(target, types);
      if first == Null then Null else LowerStages(first, stages, types)
    case If(c, t, f) =>
      var cond, thenBranch := Lower(c, types), Lower(t, types);
      var elseBranch := if f.Some? then Lower(f.value, types) else UnitIR(types.unit);
      if cond == Null || thenBranch == Null || elseBranch == Null then Null
      else IfIR(types.typeOf(e), cond, thenBranch, elseBranch)
    case While(c, b) =>
      var cond, body := Lower(c, types), Lower(b, types);
      if cond == Null || body == Null then Null else WhileIR(types.typeOf(e), cond, body)
    case Block(es) =>
      if |es| == 0 then UnitIR(types.unit)
      else if |es| == 1 then Lower(es[0], types)
      else
        var items := LowerAll(es, types);
        if Null in items then Null else SequenceIR(types.typeOf(e), items)
    case Paren(inner) => Lower(inner, types)
    case Match(s, arms) =>
      var scrutinee, lowered := Lower(s, types), LowerArms(arms, types);
      if scrutinee == Null || (exists arm :: arm in lowered && arm.body == Null) then Null
      else MatchIR(types.typeOf(e), scrutinee, lowered)
    case Async(inner) => Lower(inner, types)
    case Await(inner) => Lower(inner, types)
    case Effect(inner) => Lower(inner, types)
    case Lambda(_, _) => Null
  }

  function LowerAll(es: seq<Expr>, types: Types): seq<IR>
    decreases es, 0
  {
    if es == [] then [] else [Lower(es[0], types)] + LowerAll(es[1..], types)
  }

  /** lower_call keeps a null argument where lowering the argument failed. */
  function LowerArgs(args: seq<Arg>, types: Types): seq<IR>
    decreases args, 0
  {
    if args == [] then []
    else
      assert args[0].value < args[0];
      [Lower(args[0].value, types)] + LowerArgs(args[1..], types)
  }

  function LowerArms(arms: seq<Arm>, types: Types): seq<IRArm>
    decreases arms, 0
  {
    if arms == [] then []
    else [IRArm(arms[0].name, Names(arms[0].bindings), Lower(arms[0].body, types))] + LowerArms(arms[1..], types)
  }

  /** The loop of lower_pipeline: each stage becomes a call whose first argument is what the stages
      before it were lowered to. */
  function LowerStages(current: IR, stages: seq<Expr>, types: Types): IR
    decreases stages, 0
  {
    if stages == [] then current
    else
      var call := LowerStage(current, stages[0], types);
      if call == Null then Null else LowerStages(call, stages[1..], types)
  }

  function LowerStage(current: IR, stage: Expr, types: Types): IR
    decreases stage, 0
  {
    var callee := if stage.Call? then stage.callee else stage;
    var args := if stage.Call? then LowerArgs(stage.args, types) else [];
    if !callee.Ident? || Null in args then Null
    else CallIR(types.typeOf(stage), callee.name, [current] + args)
  }

  /** lower_pipeline as the loop it is, giving up at the first stage it cannot lower. */
  method LowerPipeline(target: Expr, stages: seq<Expr>, types: Types) returns (ir: IR)
    ensures ir == Lower(Pipe(target, stages), types)
  {
    var current := Lower(target, types);
    if current == Null {
      return Null;
    }
    var i := 0;
    while i < |stages|
      invariant 0 <= i <= |stages| && current != Null
      invariant LowerStages(current, stages[i..], types) == Lower(Pipe(target, stages), types)
    {
      var stage := stages[i];
      assert stages[i..][0] == stage && stages[i..][1..] == stages[i + 1..];
      var callee, args := stage, [];
      if stage.Call? {
        callee, args := stage.callee, LowerArgs(stage.args, types);
      }
      if !callee.Ident? || Null in args {
        return Null;
      }
      current := CallIR(types.typeOf(stage), callee.name, [current] + args);
      i := i + 1;
    }
    return current;
  }

  /** The trees lowering is meant for: no lambda, and every callee and stage names a function. */
  predicate Lowerable(e: Expr)
    decreases e, 1
  {
    match e
    case ListLiteral(es) => AllLowerable(es)
    case Call(callee, args) => callee.Ident? && ArgsLowerable(args)
    case Pipe(target, stages) => Lowerable(target) && StagesLowerable(stages)
    case If(c, t, f) => Lowerable(c) && Lowerable(t) && (f.Some? ==> Lowerable(f.value))
    case While(c, b) => Lowerable(c) && Lowerable(b)
    case Block(es) => AllLowerable(es)
    case Paren(inner) => Lowerable(inner)
    case Match(s, arms) => Lowerable(s) && ArmsLowerable(arms)
    case Async(inner) => Lowerable(inner)
    case Await(inner) => Lowerable(inner)
    case Effect(inner) => Lowerable(inner)
    case Lambda(_, _) => false
    case _ => true
  }

  predicate AllLowerable(es: seq<Expr>)
    decreases es, 0
  {
    es == [] || (Lowerable(es[0]) && AllLowerable(es[1..]))
  }

  predicate ArgsLowerable(args: seq<Arg>)
    decreases args, 0
  {
    args == [] || (assert args[0].value < args[0]; Lowerable(args[0].value) && ArgsLowerable(args[1..]))
  }

  predicate ArmsLowerable(arms: seq<Arm>)
    decreases arms, 0
  {
    arms == [] || (Lowerable(arms[0].body) && ArmsLowerable(arms[1..]))
  }

  predicate StagesLowerable(stages: seq<Expr>)
    decreases stages, 0
  {
    stages == [] || (StageLowerable(stages[0]) && StagesLowerable(stages[1..]))
  }

  predicate StageLowerable(stage: Expr)
    decreases stage, 0
  {
    stage.Ident? || (stage.Call? && stage.callee.Ident? && ArgsLowerable(stage.args))
  }

  // ----- exactly the lowerable trees lower to whole ones -----

  /** Lowering yields a tree without null pointers if and only if the source is lowerable. */
  lemma {:induction false} LowersWhole(e: Expr, types: Types)
    ensures Whole(Lower(e, types)) <==> Lowerable(e)
    decreases e, 1
  {
    match e
    case ListLiteral(es) =>
      AllLowerWhole(es, types);
    case Call(callee, args) => ArgsLowerWhole(args, types);
    case Pipe(_, _) => PipeLowersWhole(e, types);
    case If(_, _, _) => IfLowersWhole(e, types);
    case While(_, _) => WhileLowersWhole(e, types);
    case Block(es) => BlockLowersWhole(es, types);
    case Match(_, _) => MatchLowersWhole(e, types);
    case Paren(inner) => LowersWhole(inner, types);
    case Async(inner) => LowersWhole(inner, types);
    case Await(inner) => LowersWhole(inner, types);
    case Effect(inner) => LowersWhole(inner, types);
    case _ =>
  }

  lemma {:induction false} PipeLowersWhole(e: Expr, types: Types)
    requires e.Pipe?
    ensures Whole(Lower(e, types)) <==> Lowerable(e)
    decreases e, 0
  {
    LowersWhole(e.target, types);
    if Lower(e.target, types) != Null { StagesLowerWhole(Lower(e.target, types), e.stages, types); }
  }

  lemma {:induction false} WhileLowersWhole(e: Expr, types: Types)
    requires e.While?
    ensures Whole(Lower(e, types)) <==> Lowerable(e)
    decreases e, 0
  {
    LowersWhole(e.cond, types);
    LowersWhole(e.body, types);
  }

  lemma {:induction false} MatchLowersWhole(e: Expr, types: Types)
    requires e.Match?
    ensures Whole(Lower(e, types)) <==> Lowerable(e)
    decreases e, 0
  {
    LowersWhole(e.scrutinee, types);
    ArmsLowerWhole(e.arms, types);
  }

  lemma {:induction false} IfLowersWhole(e: Expr, types: Types)
    requires e.If?
    ensures Whole(Lower(e, types)) <==> Lowerable(e)
    decreases e, 0
  {
    LowersWhole(e.cond, types);
    LowersWhole(e.thenBranch, types);
    if e.elseBranch.Some? {
      LowersWhole(e.elseBranch.value, types);
    } else {
      assert Whole(UnitIR(types.unit));
    }
  }

  lemma {:induction false} BlockLowersWhole(es: seq<Expr>, types: Types)
    ensures Whole(Lower(Block(es), types)) <==> Lowerable(Block(es))
    decreases Block(es), 0
  {
    AllLowerWhole(es, types);
    if |es| == 1 {
      LowersWhole(es[0], types);
      assert AllLowerable(es[1..]);
    }
  }

  lemma {:induction false} AllLowerWhole(es: seq<Expr>, types: Types)
    ensures AllWhole(LowerAll(es, types)) <==> AllLowerable(es)
    ensures AllLowerable(es) ==> Null !in LowerAll(es, types)
    decreases es, 0
  {
    if es != [] {
      LowersWhole(es[0], types);
      AllLowerWhole(es[1..], types);
      assert LowerAll(es, types)[1..] == LowerAll(es[1..], types);
    }
  }

  lemma {:induction false} ArgsLowerWhole(args: seq<Arg>, types: Types)
    ensures AllWhole(LowerArgs(args, types)) <==> ArgsLowerable(args)
    ensures ArgsLowerable(args) ==> Null !in LowerArgs(args, types)
    decreases args, 0
  {
    if args != [] {
      assert args[0].value < args[0];
      LowersWhole(args[0].value, types);
      ArgsLowerWhole(args[1..], types);
      assert LowerArgs(args, types)[1..] == LowerArgs(args[1..], types);
    }
  }

  lemma {:induction false} ArmsLowerWhole(arms: seq<Arm>, types: Types)
    ensures ArmsWhole(LowerArms(arms, types)) <==> ArmsLowerable(arms)
    ensures ArmsLowerable(arms) ==> forall arm :: arm in LowerArms(arms, types) ==> arm.body != Null
    decreases arms, 0
  {
    if arms != [] {
      LowersWhole(arms[0].body, types);
      ArmsLowerWhole(arms[1..], types);
      assert LowerArms(arms, types)[1..] == LowerArms(arms[1..], types);
    }
  }

  lemma {:induction false} StagesLowerWhole(current: IR, stages: seq<Expr>, types: Types)
    requires current != Null
    ensures Whole(LowerStages(current, stages, types)) <==> Whole(current) && StagesLowerable(stages)
    decreases stages, 0
  {
    if stages != [] {
      StageLowersWhole(current, stages[0], types);
      var call := LowerStage(current, stages[0], types);
      if call != Null {
        StagesLowerWhole(call, stages[1..], types);
      }
    }
  }

  lemma {:induction false} StageLowersWhole(current: IR, stage: Expr, types: Types)
    ensures Whole(LowerStage(current, stage, types)) <==> Whole(current) && StageLowerable(stage)
    decreases stage, 0
  {
    var args := if stage.Call? then LowerArgs(stage.args, types) else [];
    if stage.Call? {
      ArgsLowerWhole(stage.args, types);
    }
    assert ([current] + args)[1..] == args && AllWhole([]);
  }

  // ----- lowering keeps the meaning -----

  lemma RunCall(current: IR, args: seq<IR>, oracle: Oracle, env: Env, h: History, fuel: nat)
    ensures var first := Run(current, oracle, env, h, fuel);
      EvalAll([current] + args, oracle, env, h, fuel, false) ==
        if !first.Done? then Stopped(first)
        else
          var others := EvalAll(args, oracle, env, first.history, fuel, false);
          if others.AllDone? then AllDone([first.value] + others.values, others.history) else others
  {
    assert ([current] + args)[1..] == args;
  }

  /** The lowered tree has the source's value and the source's calls, in the source's order, and
      runs out of fuel, or goes wrong, exactly where the source does. */
  lemma {:induction false} LoweringKeepsMeaning(e: Expr, types: Types, oracle: Oracle, env: Env, h: History, fuel: nat)
    requires Lowerable(e)
    ensures Run(Lower(e, types), oracle, env, h, fuel) == EvalExpr(e, oracle, env, h, fuel)
    decreases fuel, e, 1
  {
    LowersWhole(e, types);
    match e
    case ListLiteral(es) => AllKeepMeaning(es, types, oracle, env, h, fuel);
    case Call(callee, args) => ArgsKeepMeaning(args, types, oracle, env, h, fuel);
    case Pipe(target, stages) =>
      LoweringKeepsMeaning(target, types, oracle, env, h, fuel);
      LowersWhole(target, types);
      StagesKeepMeaning(Lower(target, types), stages, types, oracle, env, h, fuel);
    case If(c, t, f) => IfKeepsMeaning(c, t, f, types, oracle, env, h, fuel);
    case While(c, b) => WhileKeepsMeaning(c, b, types, oracle, env, h, fuel);
    case Block(_) => BlockKeepsMeaning(e, types, oracle, env, h, fuel);
    case Match(s, arms) => MatchKeepsMeaning(e, types, oracle, env, h, fuel);
    case Paren(inner) => LoweringKeepsMeaning(inner, types, oracle, env, h, fuel);
    case Async(inner) => LoweringKeepsMeaning(inner, types, oracle, env, h, fuel);
    case Await(inner) => LoweringKeepsMeaning(inner, types, oracle, env, h, fuel);
    case Effect(inner) => LoweringKeepsMeaning(inner, types, oracle, env, h, fuel);
    case _ =>
  }

  lemma {:induction false} BlockKeepsMeaning(e: Expr, types: Types, oracle: Oracle, env: Env, h: History, fuel: nat)
    requires e.Block? && Lowerable(e)
    ensures Run(Lower(e, types), oracle, env, h, fuel) == EvalExpr(e, oracle, env, h, fuel)
    decreases fuel, e, 0
  {
    LowersWhole(e, types);
    AllKeepMeaning(e.items, types, oracle, env, h, fuel);
    if |e.items| == 1 {
      LoweringKeepsMeaning(e.items[0], types, oracle, env, h, fuel);
      assert e.items[1..] == [];
    }
  }

  lemma {:induction false} MatchKeepsMeaning(e: Expr, types: Types, oracle: Oracle, env: Env, h: History, fuel: nat)
    requires e.Match? && Lowerable(e)
    ensures Run(Lower(e, types), oracle, env, h, fuel) == EvalExpr(e, oracle, env, h, fuel)
    decreases fuel, e, 0
  {
    LowersWhole(e, types);
    LoweringKeepsMeaning(e.scrutinee, types, oracle, env, h, fuel);
    var scrutinee := EvalExpr(e.scrutinee, oracle, env, h, fuel);
    if scrutinee.Done? && scrutinee.value.VariantV? {
      ArmsKeepMeaning(e.arms, scrutinee.value.tag, scrutinee.value.payload, types, oracle, env, scrutinee.history, fuel);
    }
  }

  lemma IfLowered(c: Expr, t: Expr, f: Option<Expr>, types: Types)
    requires Lowerable(If(c, t, f))
    ensures Lowerable(c) && Lowerable(t) && (f.Some? ==> Lowerable(f.value))
    ensures Lower(If(c, t, f), types) ==
      IfIR(types.typeOf(If(c, t, f)), Lower(c, types), Lower(t, types), if f.Some? then Lower(f.value, types) else UnitIR(types.unit))
  {
    LowersWhole(If(c, t, f), types);
  }

  lemma {:induction false} IfKeepsMeaning(c: Expr, t: Expr, f: Option<Expr>, types: Types, oracle: Oracle, env: Env, h: History, fuel: nat)
    requires Lowerable(If(c, t, f))
    ensures Run(Lower(If(c, t, f), types), oracle, env, h, fuel) == EvalExpr(If(c, t, f), oracle, env, h, fuel)
    decreases fuel, If(c, t, f), 0
  {
    IfLowered(c, t, f, types);
    hide Lower, Lowerable;
    LoweringKeepsMeaning(c, types, oracle, env, h, fuel);
    var o := EvalExpr(c, oracle, env, h, fuel);
    if o.Done? && o.value == BoolV(true) {
      LoweringKeepsMeaning(t, types, oracle, env, o.history, fuel);
    } else if o.Done? && f.Some? {
      LoweringKeepsMeaning(f.value, types, oracle, env, o.history, fuel);
    } else if o.Done? {
      assert Run(UnitIR(types.unit), oracle, env, o.history, fuel) == Done(UnitV, o.history);
    }
  }

  lemma {:induction false} WhileKeepsMeaning(c: Expr, b: Expr, types: Types, oracle: Oracle, env: Env, h: History, fuel: nat)
    requires Lowerable(While(c, b))
    ensures Run(Lower(While(c, b), types), oracle, env, h, fuel) == EvalExpr(While(c, b), oracle, env, h, fuel)
    decreases fuel, While(c, b), 0
  {
    LowersWhole(While(c, b), types);
    LoweringKeepsMeaning(c, types, oracle, env, h, fuel);
    var o := EvalExpr(c, oracle, env, h, fuel);
    if o.Done? && o.value == BoolV(true) && fuel > 0 {
      LoweringKeepsMeaning(b, types, oracle, env, o.history, fuel);
      var turned := EvalExpr(b, oracle, env, o.history, fuel);
      if turned.Done? {
        WhileKeepsMeaning(c, b, types, oracle, env, turned.history, fuel - 1);
      }
    }
  }

  lemma {:induction false} AllKeepMeaning(es: seq<Expr>, types: Types, oracle: Oracle, env: Env, h: History, fuel: nat)
    requires AllLowerable(es)
    ensures EvalAll(LowerAll(es, types), oracle, env, h, fuel, false) == EvalExprs(es, oracle, env, h, fuel)
    decreases fuel, es, 0
  {
    if es != [] {
      LoweringKeepsMeaning(es[0], types, oracle, env, h, fuel);
      assert LowerAll(es, types)[1..] == LowerAll(es[1..], types);
      var first := EvalExpr(es[0], oracle, env, h, fuel);
      if first.Done? {
        AllKeepMeaning(es[1..], types, oracle, env, first.history, fuel);
      }
    }
  }

  lemma {:induction false} ArgsKeepMeaning(args: seq<Arg>, types: Types, oracle: Oracle, env: Env, h: History, fuel: nat)
    requires ArgsLowerable(args)
    ensures EvalAll(LowerArgs(args, types), oracle, env, h, fuel, false) == EvalArgs(args, oracle, env, h, fuel)
    decreases fuel, args, 0
  {
    if args != [] {
      assert args[0].value < args[0];
      LoweringKeepsMeaning(args[0].value, types, oracle, env, h, fuel);
      assert LowerArgs(args, types)[1..] == LowerArgs(args[1..], types);
      var first := EvalExpr(args[0].value, oracle, env, h, fuel);
      if first.Done? {
        ArgsKeepMeaning(args[1..], types, oracle, env, first.history, fuel);
      }
    }
  }

  lemma {:induction false} ArmsKeepMeaning(arms: seq<Arm>, tag: string, payload: seq<Value>, types: Types, oracle: Oracle,
                                               env: Env, h: History, fuel: nat)
    requires ArmsLowerable(arms)
    ensures EvalIRArms(LowerArms(arms, types), tag, payload, oracle, env, h, fuel, false) ==
            EvalArms(arms, tag, payload, oracle, env, h, fuel)
    decreases fuel, arms, 0
  {
    if arms != [] {
      assert LowerArms(arms, types)[1..] == LowerArms(arms[1..], types);
      if arms[0].name == tag {
        var inner := Bind(env, Names(arms[0].bindings), payload);
        if inner.Some? {
          LoweringKeepsMeaning(arms[0].body, types, oracle, inner.value, h, fuel);
        }
      } else {
        ArmsKeepMeaning(arms[1..], tag, payload, types, oracle, env, h, fuel);
      }
    }
  }

  /** Nested calls run like a pipeline: whatever `current` stands for is the stages' input. */
  lemma {:induction false} StagesKeepMeaning(current: IR, stages: seq<Expr>, types: Types, oracle: Oracle, env: Env, h: History, fuel: nat)
    requires Whole(current) && StagesLowerable(stages)
    ensures var input := Run(current, oracle, env, h, fuel);
      Run(LowerStages(current, stages, types), oracle, env, h, fuel) ==
        if input.Done? then EvalStages(input.value, stages, oracle, env, input.history, fuel) else input
    decreases fuel, stages, 0
  {
    if stages != [] {
      var call := LowerStage(current, stages[0], types);
      StageLowersWhole(current, stages[0], types);
      StageKeepsMeaning(current, stages[0], types, oracle, env, h, fuel);
      StagesKeepMeaning(call, stages[1..], types, oracle, env, h, fuel);
    }
  }

  lemma {:induction false} StageKeepsMeaning(current: IR, stage: Expr, types: Types, oracle: Oracle, env: Env, h: History, fuel: nat)
    requires Whole(current) && StageLowerable(stage)
    ensures var input := Run(current, oracle, env, h, fuel);
      Run(LowerStage(current, stage, types), oracle, env, h, fuel) ==
        if input.Done? then EvalStage(input.value, stage, oracle, env, input.history, fuel) else input
    decreases fuel, stage, 0
  {
    StageLowersWhole(current, stage, types);
    var args := if stage.Call? then LowerArgs(stage.args, types) else [];
    RunCall(current, args, oracle, env, h, fuel);
    var first := Run(current, oracle, env, h, fuel);
    if first.Done? && stage.Call? {
      ArgsKeepMeaning(stage.args, types, oracle, env, first.history, fuel);
    } else if first.Done? {
      assert EvalAll([], oracle, env, first.history, fuel, false) == AllDone([], first.history);
      assert [first.value] + [] == [first.value];
    }
  }
}
