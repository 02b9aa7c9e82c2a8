/** Every node of a lowered tree has the type that was found for the source node it comes from. */
module LoweringTypes {
  import opened Syntax
  import opened Ir
  import opened Lowering

  // ----- the types of a lowered tree, from the root down and from left to right -----

  function NodeTypes(e: IR): seq<TypeId>
    decreases e, 0
  {
    match e
    case Null => []
    case CallIR(typ, _, args) => [typ] + AllNodeTypes(args)
    case SequenceIR(typ, items) => [typ] + AllNodeTypes(items)
    case ListIR(typ, elements) => [typ] + AllNodeTypes(elements)
    case IfIR(typ, c, yes, no) => [typ] + (NodeTypes(c) + (NodeTypes(yes) + NodeTypes(no)))
    case WhileIR(typ, c, b) => [typ] + (NodeTypes(c) + NodeTypes(b))
    case MatchIR(typ, s, arms) => [typ] + (NodeTypes(s) + ArmNodeTypes(arms))
    case _ => [e.typ]
  }

  function AllNodeTypes(es: seq<IR>): seq<TypeId>
    decreases es, 0
  {
    if es == [] then [] else NodeTypes(es[0]) + AllNodeTypes(es[1..])
  }

  function ArmNodeTypes(arms: seq<IRArm>): seq<TypeId>
    decreases arms, 0
  {
    if arms == [] then [] else NodeTypes(arms[0].body) + ArmNodeTypes(arms[1..])
  }

  // ----- the types found for the source nodes that stand for something -----

  /** Parentheses, `async`, `await`, `!`, blocks of one expression and the names of callees leave no node; an
      empty block and a missing else part are Unit. A stage's node has all before it below it. */
  function SourceTypes(e: Expr, types: Types): seq<TypeId>
    decreases e, 1
  {
    match e
    case ListLiteral(es) => [types.typeOf(e)] + AllSourceTypes(es, types)
    case Call(_, args) => [types.typeOf(e)] + ArgSourceTypes(args, types)
    case Pipe(target, stages) => StageSourceTypes(SourceTypes(target, types), stages, types)
    case If(c, yes, no) =>
      [types.typeOf(e)] + (SourceTypes(c, types) + (SourceTypes(yes, types)
                        + (if no.Some? then SourceTypes(no.value, types) else [types.unit])))
    case While(c, b) => [types.typeOf(e)] + (SourceTypes(c, types) + SourceTypes(b, types))
    case Block(es) =>
      if es == [] then [types.unit] else if |es| == 1 then SourceTypes(es[0], types) else [types.typeOf(e)] + AllSourceTypes(es, types)
    case Match(s, arms) => [types.typeOf(e)] + (SourceTypes(s, types) + ArmSourceTypes(arms, types))
    case Paren(inner) => SourceTypes(inner, types)
    case Async(inner) => SourceTypes(inner, types)
    case Await(inner) => SourceTypes(inner, types)
    case Effect(inner) => SourceTypes(inner, types)
    case _ => [types.typeOf(e)]
  }

  function AllSourceTypes(es: seq<Expr>, types: Types): seq<TypeId>
    decreases es, 0
  {
    if es == [] then [] else SourceTypes(es[0], types) + AllSourceTypes(es[1..], types)
  }

  function ArgSourceTypes(args: seq<Arg>, types: Types): seq<TypeId>
    decreases args, 0
  {
    if args == [] then []
    else
      assert args[0].value < args[0];
      SourceTypes(args[0].value, types) + ArgSourceTypes(args[1..], types)
  }

  function ArmSourceTypes(arms: seq<Arm>, types: Types): seq<TypeId>
    decreases arms, 0
  {
    if arms == [] then [] else SourceTypes(arms[0].body, types) + ArmSourceTypes(arms[1..], types)
  }

  function StageSourceTypes(before: seq<TypeId>, stages: seq<Expr>, types: Types): seq<TypeId>
    decreases stages, 0
  {
    if stages == [] then before
    else StageSourceTypes([types.typeOf(stages[0])] + (before + ArgumentTypes(stages[0], types)), stages[1..], types)
  }

  function ArgumentTypes(stage: Expr, types: Types): seq<TypeId>
    decreases stage, 0
  {
    if stage.Call? then ArgSourceTypes(stage.args, types) else []
  }

  // ----- they are the same -----

  lemma {:induction false} LoweringKeepsTypes(e: Expr, types: Types)
    requires Lowerable(e)
    ensures NodeTypes(Lower(e, types)) == SourceTypes(e, types)
    decreases e, 1
  {
    LowersWhole(e, types);
    match e
    case ListLiteral(es) => AllKeepTypes(es, types);
    case Call(_, args) => ArgsKeepTypes(args, types);
    case Pipe(target, stages) =>
      LoweringKeepsTypes(target, types);
      LowersWhole(target, types);
      StagesKeepTypes(Lower(target, types), stages, types);
    case If(_, _, _) => IfKeepsTypes(e, types);
    case While(c, b) =>
      LoweringKeepsTypes(c, types);
      LoweringKeepsTypes(b, types);
    case Block(es) => if |es| == 1 { LoweringKeepsTypes(es[0], types); } else { AllKeepTypes(es, types); }
    case Match(s, arms) =>
      LoweringKeepsTypes(s, types);
      ArmsKeepTypes(arms, types);
    case Paren(inner) => LoweringKeepsTypes(inner, types);
    case Async(inner) => LoweringKeepsTypes(inner, types);
    case Await(inner) => LoweringKeepsTypes(inner, types);
    case Effect(inner) => LoweringKeepsTypes(inner, types);
    case _ =>
  }

  lemma {:induction false} IfKeepsTypes(e: Expr, types: Types)
    requires e.If? && Lowerable(e)
    ensures NodeTypes(Lower(e, types)) == SourceTypes(e, types)
    decreases e, 0
  {
    LowersWhole(e, types);
    LoweringKeepsTypes(e.cond, types);
    LoweringKeepsTypes(e.thenBranch, types);
    if e.elseBranch.Some? { LoweringKeepsTypes(e.elseBranch.value, types); }
  }

  lemma {:induction false} AllKeepTypes(es: seq<Expr>, types: Types)
    requires AllLowerable(es)
    ensures AllNodeTypes(LowerAll(es, types)) == AllSourceTypes(es, types)
    decreases es, 0
  {
    if es != [] {
      LoweringKeepsTypes(es[0], types);
      AllKeepTypes(es[1..], types);
    }
  }

  lemma {:induction false} ArgsKeepTypes(args: seq<Arg>, types: Types)
    requires ArgsLowerable(args)
    ensures AllNodeTypes(LowerArgs(args, types)) == ArgSourceTypes(args, types)
    decreases args, 0
  {
    if args != [] {
      assert args[0].value < args[0];
      LoweringKeepsTypes(args[0].value, types);
      ArgsKeepTypes(args[1..], types);
    }
  }

  lemma {:induction false} ArmsKeepTypes(arms: seq<Arm>, types: Types)
    requires ArmsLowerable(arms)
    ensures ArmNodeTypes(LowerArms(arms, types)) == ArmSourceTypes(arms, types)
    decreases arms, 0
  {
    if arms != [] {
      LoweringKeepsTypes(arms[0].body, types);
      ArmsKeepTypes(arms[1..], types);
    }
  }

  lemma {:induction false} StagesKeepTypes(current: IR, stages: seq<Expr>, types: Types)
    requires StagesLowerable(stages) && Whole(current)
    ensures NodeTypes(LowerStages(current, stages, types)) == StageSourceTypes(NodeTypes(current), stages, types)
    decreases stages, 0
  {
    if stages != [] {
      var call := LowerStage(current, stages[0], types);
      StageLowersWhole(current, stages[0], types);
      StageKeepsTypes(current, stages[0], types);
      StagesKeepTypes(call, stages[1..], types);
    }
  }

  lemma {:induction false} StageKeepsTypes(current: IR, stage: Expr, types: Types)
    requires StageLowerable(stage) && Whole(current) && LowerStage(current, stage, types) != Null
    ensures NodeTypes(LowerStage(current, stage, types)) == [types.typeOf(stage)] + (NodeTypes(current) + ArgumentTypes(stage, types))
    decreases stage, 0
  {
    var args := if stage.Call? then LowerArgs(stage.args, types) else [];
    if stage.Call? { ArgsKeepTypes(stage.args, types); }
    assert ([current] + args)[1..] == args;
    assert AllNodeTypes([current] + args) == NodeTypes(current) + ArgumentTypes(stage, types);
  }
}
