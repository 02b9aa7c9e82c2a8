/** The stored masks are honest: whatever a call of a function performs, finished or not, its mask
    allows. Here calls run the bodies of the declared functions. */
module EffectRuns {
  import opened Syntax
  import opened Meaning
  import opened EffectAnalysis
  import opened EffectSolutions

  /** The value, if there is one in the end, and the effects performed until then. */
  datatype Ran = Ran(value: Option<Value>, mask: Mask)

  datatype RanAll = RanAll(values: Option<seq<Value>>, mask: Mask)

  function FunctionOf(decls: seq<Decl>, name: string): (d: Option<Decl>)
    ensures d.Some? ==> d.value in decls && d.value.FunDecl? && d.value.name == name
  {
    if decls == [] then None
    else if decls[0].FunDecl? && decls[0].name == name then Some(decls[0])
    else FunctionOf(decls[1..], name)
  }

  datatype Program = Program(decls: seq<Decl>, globals: Env)

  /** A call of a declared function, or else of a constructor. */
  function Apply(f: string, vs: seq<Value>, p: Program, fuel: nat): Ran
    decreases fuel
  {
    match FunctionOf(p.decls, f)
    case None => Ran(Some(VariantV(f, vs)), NONE)
    case Some(d) =>
      if |d.params| != |vs| then Ran(None, NONE)
      else Exec(d.body, p, BindAll(p.globals, Names(d.params), vs), fuel)
  }

  function Exec(e: Expr, p: Program, env: Env, fuel: nat): Ran
    decreases fuel, e, 0
  {
    match e
    case Number(text) => Ran(Some(NumberV(text)), NONE)
    case Str(text) => Ran(Some(StringV(text)), NONE)
    case Bool(b) => Ran(Some(BoolV(b)), NONE)
    case UnitLiteral => Ran(Some(UnitV), NONE)
    case Ident(x) => Ran(if x in env then Some(env[x]) else None, NONE)
    case ListLiteral(es) =>
      var all := ExecAll(es, p, env, fuel);
      Ran(if all.values.Some? then Some(ListV(all.values.value)) else None, all.mask)
    case Call(callee, args) =>
      var all := ExecArgs(args, p, env, fuel);
      if all.values.None? || !Stripped(callee).Ident? || fuel == 0 then Ran(None, all.mask)
      else Also(all.mask, Apply(Stripped(callee).name, all.values.value, p, fuel - 1))
    case Pipe(target, stages) =>
      var first := Exec(target, p, env, fuel);
      if first.value.None? then first
      else Also(first.mask, ExecStages(first.value.value, stages, p, env, fuel))
    case If(c, t, f) =>
      var cond := Exec(c, p, env, fuel);
      if cond.value == Some(BoolV(true)) then Also(cond.mask, Exec(t, p, env, fuel))
      else if cond.value == Some(BoolV(false)) then
        Also(cond.mask, if f.Some? then Exec(f.value, p, env, fuel) else Ran(Some(UnitV), NONE))
      else Ran(None, cond.mask)
    case While(c, b) =>
      var cond := Exec(c, p, env, fuel);
      if cond.value == Some(BoolV(false)) then Ran(Some(UnitV), cond.mask)
      else if cond.value == Some(BoolV(true)) && fuel > 0 then
        var turn := Exec(b, p, env, fuel);
        if turn.value.None? then Ran(None, Or(cond.mask, turn.mask))
        else Also(Or(cond.mask, turn.mask), Exec(e, p, env, fuel - 1))
      else Ran(None, cond.mask)
    case Block(es) =>
      var all := ExecAll(es, p, env, fuel);
      Ran(if all.values.None? then None
          else Some(if all.values.value == [] then UnitV else all.values.value[|all.values.value| - 1]), all.mask)
    case Match(s, arms) =>
      var scrutinee := Exec(s, p, env, fuel);
      if scrutinee.value.Some? && scrutinee.value.value.VariantV? then
        Also(scrutinee.mask, ExecArms(arms, scrutinee.value.value.tag, scrutinee.value.value.payload, p, env, fuel))
      else Ran(None, scrutinee.mask)
    case Paren(inner) => Exec(inner, p, env, fuel)
    case Async(inner) => Also(ASYNC, Exec(inner, p, env, fuel))
    case Await(inner) => Exec(inner, p, env, fuel)
    case Effect(inner) => Also(IMPURE, Exec(inner, p, env, fuel))
    case Lambda(_, _) => Ran(None, NONE)
  }

  function Also(mask: Mask, r: Ran): Ran {
    Ran(r.value, Or(mask, r.mask))
  }

  function ExecAll(es: seq<Expr>, p: Program, env: Env, fuel: nat): RanAll
    decreases fuel, es, 0
  {
    if es == [] then RanAll(Some([]), NONE)
    else
      var first := Exec(es[0], p, env, fuel);
      if first.value.None? then RanAll(None, first.mask)
      else
        var rest := ExecAll(es[1..], p, env, fuel);
        RanAll(if rest.values.Some? then Some([first.value.value] + rest.values.value) else None, Or(first.mask, rest.mask))
  }

  function ExecArgs(args: seq<Arg>, p: Program, env: Env, fuel: nat): RanAll
    decreases fuel, args, 0
  {
    if args == [] then RanAll(Some([]), NONE)
    else
      assert args[0].value < args[0];
      var first := Exec(args[0].value, p, env, fuel);
      if first.value.None? then RanAll(None, first.mask)
      else
        var rest := ExecArgs(args[1..], p, env, fuel);
        RanAll(if rest.values.Some? then Some([first.value.value] + rest.values.value) else None, Or(first.mask, rest.mask))
  }

  function ExecStages(v: Value, stages: seq<Expr>, p: Program, env: Env, fuel: nat): Ran
    decreases fuel, stages, 0
  {
    if stages == [] then Ran(Some(v), NONE)
    else
      var first := ExecStage(v, stages[0], p, env, fuel);
      if first.value.None? then first
      else Also(first.mask, ExecStages(first.value.value, stages[1..], p, env, fuel))
  }

  function ExecStage(v: Value, stage: Expr, p: Program, env: Env, fuel: nat): Ran
    decreases fuel, stage, 1
  {
    var callee := if stage.Call? then stage.callee else stage;
    var all := if stage.Call? then ExecArgs(stage.args, p, env, fuel) else RanAll(Some([]), NONE);
    if all.values.None? || !Stripped(callee).Ident? || fuel == 0 then Ran(None, all.mask)
    else Also(all.mask, Apply(Stripped(callee).name, [v] + all.values.value, p, fuel - 1))
  }

  function ExecArms(arms: seq<Arm>, tag: string, payload: seq<Value>, p: Program, env: Env, fuel: nat): Ran
    decreases fuel, arms, 0
  {
    if arms == [] then Ran(None, NONE)
    else if arms[0].name == tag then
      match Bind(env, Names(arms[0].bindings), payload)
      case Some(inner) => Exec(arms[0].body, p, inner, fuel)
      case None => Ran(None, NONE)
    else ExecArms(arms[1..], tag, payload, p, env, fuel)
  }

  // ----- masks cover runs -----

  /** A scope reached from the global one by binding values over it. */
  ghost predicate Over(t: Scope, s: Scope) {
    forall x :: x in t ==> t[x].ValueEntry? || (x in s && s[x] == t[x])
  }

  ghost predicate Analysed(p: Program, s: Scope, binds: Typing) {
    Solves(p.decls, s, binds) && AllDeclsResolved(p.decls, s, binds)
  }

  lemma OverBound(t: Scope, s: Scope, names: seq<string>)
    requires Over(t, s)
    ensures Over(Bound(t, names), s)
  {
  }

  lemma {:induction false} CallCovered(callee: Expr, vs: seq<Value>, p: Program, s: Scope, t: Scope, binds: Typing, fuel: nat)
    requires Analysed(p, s, binds) && Over(t, s) && CalleeMask(callee, t).Some?
    ensures Within(Apply(Stripped(callee).name, vs, p, fuel).mask, CalleeMask(callee, t).value)
    decreases fuel
  {
    var d := FunctionOf(p.decls, Stripped(callee).name);
    if d.Some? && |d.value.params| == |vs| {
      var i :| 0 <= i < |p.decls| && p.decls[i] == d.value;
      assert KindOf(p.decls[i], s) && DeclResolved(p.decls[i], s, binds);
      OverBound(s, s, Names(d.value.params));
      ExecCovered(d.value.body, p, BindAll(p.globals, Names(d.value.params), vs), s, Bound(s, Names(d.value.params)), binds, fuel);
    }
  }

  lemma {:induction false} ExecCovered(e: Expr, p: Program, env: Env, s: Scope, t: Scope, binds: Typing, fuel: nat)
    requires Analysed(p, s, binds) && Over(t, s) && Resolved(e, t, binds)
    ensures Within(Exec(e, p, env, fuel).mask, Effects(e, t, binds))
    decreases fuel, e, 1
  {
    hide Analysed, Over, CalleeMask, CalleeArity, NameMask, Bound, Apply;
    match e
    case ListLiteral(es) => AllCovered(es, p, env, s, t, binds, fuel);
    case Call(callee, args) =>
      ArgsCovered(args, p, env, s, t, binds, fuel);
      var all := ExecArgs(args, p, env, fuel);
      if all.values.Some? && fuel > 0 { CallCovered(callee, all.values.value, p, s, t, binds, fuel - 1); }
    case Pipe(target, stages) =>
      ExecCovered(target, p, env, s, t, binds, fuel);
      var first := Exec(target, p, env, fuel);
      if first.value.Some? { StagesCovered(first.value.value, stages, p, env, s, t, binds, fuel); }
    case If(_, _, _) => IfCovered(e, p, env, s, t, binds, fuel);
    case While(_, _) => WhileCovered(e, p, env, s, t, binds, fuel);
    case Block(es) => AllCovered(es, p, env, s, t, binds, fuel);
    case Match(m, arms) =>
      ExecCovered(m, p, env, s, t, binds, fuel);
      var o := Exec(m, p, env, fuel).value;
      if o.Some? && o.value.VariantV? { ArmsCovered(arms, o.value.tag, o.value.payload, p, env, s, t, binds, fuel); }
    case Paren(inner) => ExecCovered(inner, p, env, s, t, binds, fuel);
    case Async(inner) => ExecCovered(inner, p, env, s, t, binds, fuel);
    case Await(inner) => ExecCovered(inner, p, env, s, t, binds, fuel);
    case Effect(inner) => ExecCovered(inner, p, env, s, t, binds, fuel);
    case _ =>
  }

  lemma {:induction false} IfCovered(e: Expr, p: Program, env: Env, s: Scope, t: Scope, binds: Typing, fuel: nat)
    requires Analysed(p, s, binds) && Over(t, s) && Resolved(e, t, binds) && e.If?
    ensures Within(Exec(e, p, env, fuel).mask, Effects(e, t, binds))
    decreases fuel, e, 0
  {
    hide Analysed, Over;
    ExecCovered(e.cond, p, env, s, t, binds, fuel);
    ExecCovered(e.thenBranch, p, env, s, t, binds, fuel);
    if e.elseBranch.Some? { ExecCovered(e.elseBranch.value, p, env, s, t, binds, fuel); }
  }

  lemma {:induction false} WhileCovered(e: Expr, p: Program, env: Env, s: Scope, t: Scope, binds: Typing, fuel: nat)
    requires Analysed(p, s, binds) && Over(t, s) && Resolved(e, t, binds) && e.While?
    ensures Within(Exec(e, p, env, fuel).mask, Effects(e, t, binds))
    decreases fuel, e, 0
  {
    hide Analysed, Over;
    ExecCovered(e.cond, p, env, s, t, binds, fuel);
    ExecCovered(e.body, p, env, s, t, binds, fuel);
    if fuel > 0 { WhileCovered(e, p, env, s, t, binds, fuel - 1); }
  }

  lemma {:induction false} AllCovered(es: seq<Expr>, p: Program, env: Env, s: Scope, t: Scope, binds: Typing, fuel: nat)
    requires Analysed(p, s, binds) && Over(t, s) && AllResolved(es, t, binds)
    ensures Within(ExecAll(es, p, env, fuel).mask, EffectsAll(es, t, binds))
    decreases fuel, es, 0
  {
    if es != [] {
      ExecCovered(es[0], p, env, s, t, binds, fuel);
      AllCovered(es[1..], p, env, s, t, binds, fuel);
    }
  }

  lemma {:induction false} ArgsCovered(args: seq<Arg>, p: Program, env: Env, s: Scope, t: Scope, binds: Typing, fuel: nat)
    requires Analysed(p, s, binds) && Over(t, s) && ArgsResolved(args, t, binds)
    ensures Within(ExecArgs(args, p, env, fuel).mask, EffectsArgs(args, t, binds))
    decreases fuel, args, 0
  {
    if args != [] {
      assert args[0].value < args[0];
      ExecCovered(args[0].value, p, env, s, t, binds, fuel);
      ArgsCovered(args[1..], p, env, s, t, binds, fuel);
    }
  }

  lemma {:induction false} StagesCovered(v: Value, stages: seq<Expr>, p: Program, env: Env, s: Scope, t: Scope, binds: Typing, fuel: nat)
    requires Analysed(p, s, binds) && Over(t, s) && StagesResolved(stages, t, binds)
    ensures Within(ExecStages(v, stages, p, env, fuel).mask, EffectsStages(stages, t, binds))
    decreases fuel, stages, 0
  {
    if stages != [] {
      StageCovered(v, stages[0], p, env, s, t, binds, fuel);
      var first := ExecStage(v, stages[0], p, env, fuel);
      if first.value.Some? { StagesCovered(first.value.value, stages[1..], p, env, s, t, binds, fuel); }
    }
  }

  lemma {:induction false} StageCovered(v: Value, stage: Expr, p: Program, env: Env, s: Scope, t: Scope, binds: Typing, fuel: nat)
    requires Analysed(p, s, binds) && Over(t, s) && StageResolved(stage, t, binds)
    ensures Within(ExecStage(v, stage, p, env, fuel).mask, EffectsStage(stage, t, binds))
    decreases fuel, stage, 1
  {
    var callee := if stage.Call? then stage.callee else stage;
    if stage.Call? { ArgsCovered(stage.args, p, env, s, t, binds, fuel); }
    var all := if stage.Call? then ExecArgs(stage.args, p, env, fuel) else RanAll(Some([]), NONE);
    if all.values.Some? && fuel > 0 { CallCovered(callee, [v] + all.values.value, p, s, t, binds, fuel - 1); }
  }

  lemma {:induction false} ArmsCovered(arms: seq<Arm>, tag: string, payload: seq<Value>, p: Program, env: Env,
                                           s: Scope, t: Scope, binds: Typing, fuel: nat)
    requires Analysed(p, s, binds) && Over(t, s) && ArmsResolved(arms, t, binds)
    ensures Within(ExecArms(arms, tag, payload, p, env, fuel).mask, EffectsArms(arms, t, binds))
    decreases fuel, arms, 0
  {
    if arms != [] {
      if arms[0].name == tag {
        OverBound(t, s, Names(arms[0].bindings));
        var inner := Bind(env, Names(arms[0].bindings), payload);
        if inner.Some? { ExecCovered(arms[0].body, p, inner.value, s, ArmScope(t, arms[0], binds), binds, fuel); }
      } else {
        ArmsCovered(arms[1..], tag, payload, p, env, s, t, binds, fuel);
      }
    }
  }

  /** For a program without diagnostics, any call of any declared function, with any arguments and
      cut off after any number of nested calls and turns, performs only what its mask allows. */
  lemma CallsStayWithinMasks(p: Program, constructors: Scope, binds: Typing, f: string, vs: seq<Value>, fuel: nat)
    requires Clean(p.decls, constructors, binds) && FunctionOf(p.decls, f).Some?
    ensures var s := Analyze(p.decls, constructors, binds);
            f in s && s[f].FunctionEntry? && Within(Apply(f, vs, p, fuel).mask, s[f].mask)
  {
    var s := Analyze(p.decls, constructors, binds);
    AnalysisSolves(p.decls, constructors, binds);
    var d := FunctionOf(p.decls, f).value;
    var i :| 0 <= i < |p.decls| && p.decls[i] == d;
    assert KindOf(p.decls[i], s);
    CallCovered(Ident(f), vs, p, s, s, binds, fuel);
  }
}
