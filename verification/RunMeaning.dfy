/** Runs and meanings agree: what EffectRuns finds when it runs the declared functions is what
    Meaning finds when an oracle answers the calls as those runs do. */
module RunMeaning {
  import opened Syntax
  import opened Meaning
  import opened EffectAnalysis
  import opened EffectRuns
  import opened Lowering

  // ----- more fuel changes nothing that has come to an end -----

  lemma {:induction false} ApplyMore(f: string, vs: seq<Value>, p: Program, fuel: nat)
    requires Apply(f, vs, p, fuel).value.Some?
    ensures Apply(f, vs, p, fuel + 1) == Apply(f, vs, p, fuel)
    decreases fuel
  {
    var d := FunctionOf(p.decls, f);
    if d.Some? && |d.value.params| == |vs| {
      ExecMore(d.value.body, p, BindAll(p.globals, Names(d.value.params), vs), fuel);
    }
  }

  lemma {:induction false} ExecMore(e: Expr, p: Program, env: Env, fuel: nat)
    requires Exec(e, p, env, fuel).value.Some?
    ensures Exec(e, p, env, fuel + 1) == Exec(e, p, env, fuel)
    decreases fuel, e, 1
  {
    hide Apply, ExecAll, ExecArgs, ExecStages, ExecArms;
    match e
    case ListLiteral(es) => AllMore(es, p, env, fuel);
    case Block(es) => AllMore(es, p, env, fuel);
    case Call(callee, args) =>
      ArgsMore(args, p, env, fuel);
      ApplyMore(Stripped(callee).name, ExecArgs(args, p, env, fuel).values.value, p, fuel - 1);
    case Pipe(target, stages) =>
      ExecMore(target, p, env, fuel);
      StagesMore(Exec(target, p, env, fuel).value.value, stages, p, env, fuel);
    case If(_, _, _) => IfMore(e, p, env, fuel);
    case While(_, _) => WhileMore(e, p, env, fuel);
    case Match(m, arms) =>
      ExecMore(m, p, env, fuel);
      var v := Exec(m, p, env, fuel).value.value;
      ArmsMore(arms, v.tag, v.payload, p, env, fuel);
    case Paren(inner) => ExecMore(inner, p, env, fuel);
    case Async(inner) => ExecMore(inner, p, env, fuel);
    case Await(inner) => ExecMore(inner, p, env, fuel);
    case Effect(inner) => ExecMore(inner, p, env, fuel);
    case _ =>
  }

  lemma {:induction false} IfMore(e: Expr, p: Program, env: Env, fuel: nat)
    requires e.If? && Exec(e, p, env, fuel).value.Some?
    ensures Exec(e, p, env, fuel + 1) == Exec(e, p, env, fuel)
    decreases fuel, e, 0
  {
    ExecMore(e.cond, p, env, fuel);
    if Exec(e.cond, p, env, fuel).value == Some(BoolV(true)) {
      ExecMore(e.thenBranch, p, env, fuel);
    } else if e.elseBranch.Some? {
      ExecMore(e.elseBranch.value, p, env, fuel);
    }
  }

  lemma {:induction false} WhileMore(e: Expr, p: Program, env: Env, fuel: nat)
    requires e.While? && Exec(e, p, env, fuel).value.Some?
    ensures Exec(e, p, env, fuel + 1) == Exec(e, p, env, fuel)
    decreases fuel, e, 0
  {
    ExecMore(e.cond, p, env, fuel);
    if Exec(e.cond, p, env, fuel).value == Some(BoolV(true)) {
      ExecMore(e.body, p, env, fuel);
      WhileMore(e, p, env, fuel - 1);
    }
  }

  lemma {:induction false} AllMore(es: seq<Expr>, p: Program, env: Env, fuel: nat)
    requires ExecAll(es, p, env, fuel).values.Some?
    ensures ExecAll(es, p, env, fuel + 1) == ExecAll(es, p, env, fuel)
    decreases fuel, es, 0
  {
    if es != [] {
      ExecMore(es[0], p, env, fuel);
      AllMore(es[1..], p, env, fuel);
    }
  }

  lemma {:induction false} ArgsMore(args: seq<Arg>, p: Program, env: Env, fuel: nat)
    requires ExecArgs(args, p, env, fuel).values.Some?
    ensures ExecArgs(args, p, env, fuel + 1) == ExecArgs(args, p, env, fuel)
    decreases fuel, args, 0
  {
    if args != [] {
      assert args[0].value < args[0];
      ExecMore(args[0].value, p, env, fuel);
      ArgsMore(args[1..], p, env, fuel);
    }
  }

  lemma {:induction false} StagesMore(v: Value, stages: seq<Expr>, p: Program, env: Env, fuel: nat)
    requires ExecStages(v, stages, p, env, fuel).value.Some?
    ensures ExecStages(v, stages, p, env, fuel + 1) == ExecStages(v, stages, p, env, fuel)
    decreases fuel, stages, 0
  {
    if stages != [] {
      StageMore(v, stages[0], p, env, fuel);
      StagesMore(ExecStage(v, stages[0], p, env, fuel).value.value, stages[1..], p, env, fuel);
    }
  }

  lemma {:induction false} StageMore(v: Value, stage: Expr, p: Program, env: Env, fuel: nat)
    requires ExecStage(v, stage, p, env, fuel).value.Some?
    ensures ExecStage(v, stage, p, env, fuel + 1) == ExecStage(v, stage, p, env, fuel)
    decreases fuel, stage, 1
  {
    var callee := if stage.Call? then stage.callee else stage;
    if stage.Call? { ArgsMore(stage.args, p, env, fuel); }
    var all := if stage.Call? then ExecArgs(stage.args, p, env, fuel) else RanAll(Some([]), NONE);
    ApplyMore(Stripped(callee).name, [v] + all.values.value, p, fuel - 1);
  }

  lemma {:induction false} ArmsMore(arms: seq<Arm>, tag: string, payload: seq<Value>, p: Program, env: Env, fuel: nat)
    requires ExecArms(arms, tag, payload, p, env, fuel).value.Some?
    ensures ExecArms(arms, tag, payload, p, env, fuel + 1) == ExecArms(arms, tag, payload, p, env, fuel)
    decreases fuel, arms, 0
  {
    if arms[0].name == tag {
      ExecMore(arms[0].body, p, Bind(env, Names(arms[0].bindings), payload).value, fuel);
    } else {
      ArmsMore(arms[1..], tag, payload, p, env, fuel);
    }
  }

  lemma {:induction false} ApplyMuchMore(f: string, vs: seq<Value>, p: Program, fuel: nat, more: nat)
    requires Apply(f, vs, p, fuel).value.Some? && fuel <= more
    ensures Apply(f, vs, p, more) == Apply(f, vs, p, fuel)
    decreases more
  {
    if fuel < more {
      ApplyMuchMore(f, vs, p, fuel, more - 1);
      ApplyMore(f, vs, p, more - 1);
    }
  }

  // ----- the oracle that runs the functions -----

  /** The oracle answers every call that comes to an end with what it comes to. */
  ghost predicate Answers(oracle: Oracle, p: Program) {
    forall h: History, f: string, vs: seq<Value>, fuel: nat ::
      Apply(f, vs, p, fuel).value.Some? ==> oracle(h, f, vs) == Apply(f, vs, p, fuel).value.value
  }

  ghost predicate Ends(f: string, vs: seq<Value>, p: Program, fuel: nat) {
    Apply(f, vs, p, fuel).value.Some?
  }

  ghost function AnswerOf(f: string, vs: seq<Value>, p: Program): Value {
    if fuel: nat :| Ends(f, vs, p, fuel) then Apply(f, vs, p, fuel).value.value else UnitV
  }

  /** There is such an oracle. */
  lemma SomeOracleAnswers(p: Program)
    ensures exists oracle: Oracle :: Answers(oracle, p)
  {
    ghost var oracle: Oracle := (h, f, vs) => AnswerOf(f, vs, p);
    forall h: History, f: string, vs: seq<Value>, fuel: nat | Apply(f, vs, p, fuel).value.Some?
      ensures oracle(h, f, vs) == Apply(f, vs, p, fuel).value.value
    {
      assert Ends(f, vs, p, fuel);
      OneAnswer(f, vs, p, fuel);
    }
    assert Answers(oracle, p);
  }

  lemma OneAnswer(f: string, vs: seq<Value>, p: Program, fuel: nat)
    requires Ends(f, vs, p, fuel)
    ensures AnswerOf(f, vs, p) == Apply(f, vs, p, fuel).value.value
  {
    forall other: nat | Ends(f, vs, p, other) ensures Apply(f, vs, p, other).value == Apply(f, vs, p, fuel).value {
      ApplyMuchMore(f, vs, p, fuel, if fuel < other then other else fuel);
      ApplyMuchMore(f, vs, p, other, if fuel < other then other else fuel);
    }
  }

  // ----- runs have the value that the expression means -----

  ghost predicate Agrees(o: Outcome, r: Ran) {
    r.value.Some? ==> o.Done? && o.value == r.value.value
  }

  ghost predicate AllAgree(o: Outcomes, r: RanAll) {
    r.values.Some? ==> o.AllDone? && o.values == r.values.value
  }

  /** A run that comes to an end has the value that the expression means, whatever was called before. */
  lemma {:induction false} ExecMeans(e: Expr, p: Program, oracle: Oracle, env: Env, h: History, fuel: nat)
    requires Lowerable(e) && Answers(oracle, p)
    ensures Agrees(EvalExpr(e, oracle, env, h, fuel), Exec(e, p, env, fuel))
    decreases fuel, e, 1
  {
    hide Answers, Apply, ExecAll, ExecArgs, ExecStages, ExecArms, EvalExprs, EvalArgs, EvalStages, EvalArms;
    match e
    case ListLiteral(es) => AllMean(es, p, oracle, env, h, fuel);
    case Block(es) => AllMean(es, p, oracle, env, h, fuel);
    case Call(callee, args) => CallMeans(e, p, oracle, env, h, fuel);
    case Pipe(target, stages) =>
      ExecMeans(target, p, oracle, env, h, fuel);
      var first := EvalExpr(target, oracle, env, h, fuel);
      if first.Done? { StagesMean(first.value, stages, p, oracle, env, first.history, fuel); }
    case If(_, _, _) => IfMeans(e, p, oracle, env, h, fuel);
    case While(_, _) => WhileMeans(e, p, oracle, env, h, fuel);
    case Match(m, arms) =>
      ExecMeans(m, p, oracle, env, h, fuel);
      var s := EvalExpr(m, oracle, env, h, fuel);
      if s.Done? && s.value.VariantV? { ArmsMean(arms, s.value.tag, s.value.payload, p, oracle, env, s.history, fuel); }
    case Paren(inner) => ExecMeans(inner, p, oracle, env, h, fuel);
    case Async(inner) => ExecMeans(inner, p, oracle, env, h, fuel);
    case Await(inner) => ExecMeans(inner, p, oracle, env, h, fuel);
    case Effect(inner) => ExecMeans(inner, p, oracle, env, h, fuel);
    case _ =>
  }

  lemma {:induction false} CallMeans(e: Expr, p: Program, oracle: Oracle, env: Env, h: History, fuel: nat)
    requires e.Call? && Lowerable(e) && Answers(oracle, p)
    ensures Agrees(EvalExpr(e, oracle, env, h, fuel), Exec(e, p, env, fuel))
    decreases fuel, e, 0
  {
    hide Apply;
    ArgsMean(e.args, p, oracle, env, h, fuel);
  }

  lemma {:induction false} IfMeans(e: Expr, p: Program, oracle: Oracle, env: Env, h: History, fuel: nat)
    requires e.If? && Lowerable(e) && Answers(oracle, p)
    ensures Agrees(EvalExpr(e, oracle, env, h, fuel), Exec(e, p, env, fuel))
    decreases fuel, e, 0
  {
    hide Answers;
    ExecMeans(e.cond, p, oracle, env, h, fuel);
    var o := EvalExpr(e.cond, oracle, env, h, fuel);
    if o.Done? {
      ExecMeans(e.thenBranch, p, oracle, env, o.history, fuel);
      if e.elseBranch.Some? { ExecMeans(e.elseBranch.value, p, oracle, env, o.history, fuel); }
    }
  }

  lemma {:induction false} WhileMeans(e: Expr, p: Program, oracle: Oracle, env: Env, h: History, fuel: nat)
    requires e.While? && Lowerable(e) && Answers(oracle, p)
    ensures Agrees(EvalExpr(e, oracle, env, h, fuel), Exec(e, p, env, fuel))
    decreases fuel, e, 0
  {
    hide Answers;
    ExecMeans(e.cond, p, oracle, env, h, fuel);
    var o := EvalExpr(e.cond, oracle, env, h, fuel);
    if o.Done? && o.value == BoolV(true) && fuel > 0 {
      ExecMeans(e.body, p, oracle, env, o.history, fuel);
      var turn := EvalExpr(e.body, oracle, env, o.history, fuel);
      if turn.Done? { WhileMeans(e, p, oracle, env, turn.history, fuel - 1); }
    }
  }

  lemma {:induction false} AllMean(es: seq<Expr>, p: Program, oracle: Oracle, env: Env, h: History, fuel: nat)
    requires AllLowerable(es) && Answers(oracle, p)
    ensures AllAgree(EvalExprs(es, oracle, env, h, fuel), ExecAll(es, p, env, fuel))
    decreases fuel, es, 0
  {
    hide Answers;
    if es != [] {
      ExecMeans(es[0], p, oracle, env, h, fuel);
      var first := EvalExpr(es[0], oracle, env, h, fuel);
      if first.Done? { AllMean(es[1..], p, oracle, env, first.history, fuel); }
    }
  }

  lemma {:induction false} ArgsMean(args: seq<Arg>, p: Program, oracle: Oracle, env: Env, h: History, fuel: nat)
    requires ArgsLowerable(args) && Answers(oracle, p)
    ensures AllAgree(EvalArgs(args, oracle, env, h, fuel), ExecArgs(args, p, env, fuel))
    decreases fuel, args, 0
  {
    hide Answers;
    if args != [] {
      assert args[0].value < args[0];
      ExecMeans(args[0].value, p, oracle, env, h, fuel);
      var first := EvalExpr(args[0].value, oracle, env, h, fuel);
      if first.Done? { ArgsMean(args[1..], p, oracle, env, first.history, fuel); }
    }
  }

  lemma {:induction false} StagesMean(v: Value, stages: seq<Expr>, p: Program, oracle: Oracle, env: Env, h: History, fuel: nat)
    requires StagesLowerable(stages) && Answers(oracle, p)
    ensures Agrees(EvalStages(v, stages, oracle, env, h, fuel), ExecStages(v, stages, p, env, fuel))
    decreases fuel, stages, 0
  {
    hide Answers;
    if stages != [] {
      StageMeans(v, stages[0], p, oracle, env, h, fuel);
      var first := EvalStage(v, stages[0], oracle, env, h, fuel);
      if first.Done? { StagesMean(first.value, stages[1..], p, oracle, env, first.history, fuel); }
    }
  }

  lemma {:induction false} StageMeans(v: Value, stage: Expr, p: Program, oracle: Oracle, env: Env, h: History, fuel: nat)
    requires StageLowerable(stage) && Answers(oracle, p)
    ensures Agrees(EvalStage(v, stage, oracle, env, h, fuel), ExecStage(v, stage, p, env, fuel))
    decreases fuel, stage, 1
  {
    hide Apply;
    if stage.Call? {
      ArgsMean(stage.args, p, oracle, env, h, fuel);
    } else {
      assert [v] + [] == [v];
    }
  }

  lemma {:induction false} ArmsMean(arms: seq<Arm>, tag: string, payload: seq<Value>, p: Program, oracle: Oracle, env: Env, h: History, fuel: nat)
    requires ArmsLowerable(arms) && Answers(oracle, p)
    ensures Agrees(EvalArms(arms, tag, payload, oracle, env, h, fuel), ExecArms(arms, tag, payload, p, env, fuel))
    decreases fuel, arms, 0
  {
    hide Answers;
    if arms != [] {
      if arms[0].name == tag {
        var inner := Bind(env, Names(arms[0].bindings), payload);
        if inner.Some? { ExecMeans(arms[0].body, p, oracle, inner.value, h, fuel); }
      } else {
        ArmsMean(arms[1..], tag, payload, p, oracle, env, h, fuel);
      }
    }
  }
}
