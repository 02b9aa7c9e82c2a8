/** One pass is enough: the masks the analysis stores are the least solution of the program's
    effect equations, self-recursion included. */
module EffectSolutions {
  import opened Syntax
  import opened EffectAnalysis

  predicate SameKind(a: Entry, b: Entry) {
    match a
    case FunctionEntry(arity, _) => b.FunctionEntry? && b.arity == arity
    case ConstructorEntry(_) => b == a
    case ValueEntry(_) => b.ValueEntry?
  }

  function EntryMask(a: Entry): Mask {
    if a.ConstructorEntry? then NONE else a.mask
  }

  /** The same names of the same kinds, and no mask of `s` exceeds that of `t` by more than `extra`. */
  ghost predicate BoundedBy(s: Scope, t: Scope, extra: Mask) {
    s.Keys == t.Keys && forall x :: x in s ==> SameKind(s[x], t[x]) && Within(EntryMask(s[x]), Or(EntryMask(t[x]), extra))
  }

  ghost predicate Extends(s: Scope, t: Scope) {
    forall x :: x in s ==> x in t && t[x] == s[x]
  }

  lemma ArmScopesBounded(s: Scope, t: Scope, extra: Mask, names: seq<string>)
    requires BoundedBy(s, t, extra)
    ensures BoundedBy(Bound(s, names), Bound(t, names), extra)
  {
  }

  lemma ArmScopesExtend(s: Scope, t: Scope, names: seq<string>)
    requires Extends(s, t)
    ensures Extends(Bound(s, names), Bound(t, names))
  {
  }

  // ----- effects grow with the scope's masks, and by no more than those do -----

  lemma CalleeBounded(callee: Expr, s: Scope, t: Scope, extra: Mask)
    requires BoundedBy(s, t, extra)
    ensures CalleeMask(callee, s).Some? <==> CalleeMask(callee, t).Some?
    ensures CalleeArity(callee, s) == CalleeArity(callee, t)
    ensures CalleeMask(callee, s).Some? ==> Within(CalleeMask(callee, s).value, Or(CalleeMask(callee, t).value, extra))
  {
    var f := Stripped(callee);
    if f.Ident? && f.name in s { assert SameKind(s[f.name], t[f.name]); }
  }

  lemma NameBounded(x: string, s: Scope, t: Scope, extra: Mask)
    requires BoundedBy(s, t, extra)
    ensures x in s <==> x in t
    ensures Within(NameMask(x, s), Or(NameMask(x, t), extra))
  {
    if x in s { assert SameKind(s[x], t[x]); }
  }

  lemma {:induction false} EffectsBounded(e: Expr, s: Scope, t: Scope, extra: Mask, binds: Typing)
    requires BoundedBy(s, t, extra)
    ensures Within(Effects(e, s, binds), Or(Effects(e, t, binds), extra))
    ensures Resolved(e, s, binds) <==> Resolved(e, t, binds)
    decreases e, 1
  {
    hide BoundedBy, CalleeMask, CalleeArity, NameMask, Bound, EffectsAll, EffectsArgs, EffectsArms, EffectsStages,
         AllResolved, ArgsResolved, ArmsResolved, StagesResolved;
    match e
    case ListLiteral(es) => AllBounded(es, s, t, extra, binds);
    case Ident(x) => NameBounded(x, s, t, extra);
    case Call(_, _) => CallBounded(e, s, t, extra, binds);
    case Pipe(_, _) => PipeBounded(e, s, t, extra, binds);
    case If(_, _, _) => IfBounded(e, s, t, extra, binds);
    case While(_, _) => WhileBounded(e, s, t, extra, binds);
    case Block(es) => AllBounded(es, s, t, extra, binds);
    case Paren(inner) => EffectsBounded(inner, s, t, extra, binds);
    case Match(_, _) => MatchBounded(e, s, t, extra, binds);
    case Async(inner) => EffectsBounded(inner, s, t, extra, binds);
    case Await(inner) => EffectsBounded(inner, s, t, extra, binds);
    case Effect(inner) => EffectsBounded(inner, s, t, extra, binds);
    case Lambda(params, body) =>
      ArmScopesBounded(s, t, extra, Names(params));
      EffectsBounded(body, Bound(s, Names(params)), Bound(t, Names(params)), extra, binds);
    case _ =>
  }

  lemma {:induction false} CallBounded(e: Expr, s: Scope, t: Scope, extra: Mask, binds: Typing)
    requires BoundedBy(s, t, extra) && e.Call?
    ensures Within(Effects(e, s, binds), Or(Effects(e, t, binds), extra))
    ensures Resolved(e, s, binds) <==> Resolved(e, t, binds)
    decreases e, 0
  {
    hide BoundedBy, CalleeMask, CalleeArity, EffectsArgs, ArgsResolved;
    CalleeBounded(e.callee, s, t, extra);
    EffectsBounded(e.callee, s, t, extra, binds);
    ArgsBounded(e.args, s, t, extra, binds);
  }

  lemma {:induction false} PipeBounded(e: Expr, s: Scope, t: Scope, extra: Mask, binds: Typing)
    requires BoundedBy(s, t, extra) && e.Pipe?
    ensures Within(Effects(e, s, binds), Or(Effects(e, t, binds), extra))
    ensures Resolved(e, s, binds) <==> Resolved(e, t, binds)
    decreases e, 0
  {
    hide BoundedBy;
    EffectsBounded(e.target, s, t, extra, binds);
    StagesBounded(e.stages, s, t, extra, binds);
  }

  lemma {:induction false} WhileBounded(e: Expr, s: Scope, t: Scope, extra: Mask, binds: Typing)
    requires BoundedBy(s, t, extra) && e.While?
    ensures Within(Effects(e, s, binds), Or(Effects(e, t, binds), extra))
    ensures Resolved(e, s, binds) <==> Resolved(e, t, binds)
    decreases e, 0
  {
    hide BoundedBy;
    EffectsBounded(e.cond, s, t, extra, binds);
    EffectsBounded(e.body, s, t, extra, binds);
  }

  lemma {:induction false} MatchBounded(e: Expr, s: Scope, t: Scope, extra: Mask, binds: Typing)
    requires BoundedBy(s, t, extra) && e.Match?
    ensures Within(Effects(e, s, binds), Or(Effects(e, t, binds), extra))
    ensures Resolved(e, s, binds) <==> Resolved(e, t, binds)
    decreases e, 0
  {
    hide BoundedBy;
    EffectsBounded(e.scrutinee, s, t, extra, binds);
    ArmsBounded(e.arms, s, t, extra, binds);
  }

  lemma {:induction false} IfBounded(e: Expr, s: Scope, t: Scope, extra: Mask, binds: Typing)
    requires BoundedBy(s, t, extra) && e.If?
    ensures Within(Effects(e, s, binds), Or(Effects(e, t, binds), extra))
    ensures Resolved(e, s, binds) <==> Resolved(e, t, binds)
    decreases e, 0
  {
    hide BoundedBy;
    EffectsBounded(e.cond, s, t, extra, binds);
    EffectsBounded(e.thenBranch, s, t, extra, binds);
    if e.elseBranch.Some? { EffectsBounded(e.elseBranch.value, s, t, extra, binds); }
  }

  lemma {:induction false} AllBounded(es: seq<Expr>, s: Scope, t: Scope, extra: Mask, binds: Typing)
    requires BoundedBy(s, t, extra)
    ensures Within(EffectsAll(es, s, binds), Or(EffectsAll(es, t, binds), extra))
    ensures AllResolved(es, s, binds) <==> AllResolved(es, t, binds)
    decreases es, 0
  {
    if es != [] {
      EffectsBounded(es[0], s, t, extra, binds);
      AllBounded(es[1..], s, t, extra, binds);
    }
  }

  lemma {:induction false} ArgsBounded(args: seq<Arg>, s: Scope, t: Scope, extra: Mask, binds: Typing)
    requires BoundedBy(s, t, extra)
    ensures Within(EffectsArgs(args, s, binds), Or(EffectsArgs(args, t, binds), extra))
    ensures ArgsResolved(args, s, binds) <==> ArgsResolved(args, t, binds)
    decreases args, 0
  {
    if args != [] {
      assert args[0].value < args[0];
      EffectsBounded(args[0].value, s, t, extra, binds);
      ArgsBounded(args[1..], s, t, extra, binds);
    }
  }

  lemma {:induction false} ArmsBounded(arms: seq<Arm>, s: Scope, t: Scope, extra: Mask, binds: Typing)
    requires BoundedBy(s, t, extra)
    ensures Within(EffectsArms(arms, s, binds), Or(EffectsArms(arms, t, binds), extra))
    ensures ArmsResolved(arms, s, binds) <==> ArmsResolved(arms, t, binds)
    decreases arms, 0
  {
    if arms != [] {
      ArmScopesBounded(s, t, extra, Names(arms[0].bindings));
      EffectsBounded(arms[0].body, ArmScope(s, arms[0], binds), ArmScope(t, arms[0], binds), extra, binds);
      ArmsBounded(arms[1..], s, t, extra, binds);
    }
  }

  lemma {:induction false} StagesBounded(stages: seq<Expr>, s: Scope, t: Scope, extra: Mask, binds: Typing)
    requires BoundedBy(s, t, extra)
    ensures Within(EffectsStages(stages, s, binds), Or(EffectsStages(stages, t, binds), extra))
    ensures StagesResolved(stages, s, binds) <==> StagesResolved(stages, t, binds)
    decreases stages, 0
  {
    if stages != [] {
      StageBounded(stages[0], s, t, extra, binds);
      StagesBounded(stages[1..], s, t, extra, binds);
    }
  }

  lemma {:induction false} StageBounded(stage: Expr, s: Scope, t: Scope, extra: Mask, binds: Typing)
    requires BoundedBy(s, t, extra)
    ensures Within(EffectsStage(stage, s, binds), Or(EffectsStage(stage, t, binds), extra))
    ensures StageResolved(stage, s, binds) <==> StageResolved(stage, t, binds)
    decreases stage, 2
  {
    var callee := if stage.Call? then stage.callee else stage;
    CalleeBounded(callee, s, t, extra);
    EffectsBounded(callee, s, t, extra, binds);
    if stage.Call? { ArgsBounded(stage.args, s, t, extra, binds); }
  }

  // ----- effects depend on the names that occur only -----

  lemma CalleeLocal(callee: Expr, s: Scope, t: Scope, binds: Typing)
    requires CalleeMask(callee, s).Some? && Extends(s, t)
    ensures CalleeMask(callee, t) == CalleeMask(callee, s) && CalleeArity(callee, t) == CalleeArity(callee, s)
    ensures Resolved(callee, s, binds)
  {
    CalleeIsResolved(callee, s, binds);
  }

  lemma {:induction false} EffectsLocal(e: Expr, s: Scope, t: Scope, binds: Typing)
    requires Resolved(e, s, binds) && Extends(s, t)
    ensures Effects(e, t, binds) == Effects(e, s, binds) && Resolved(e, t, binds)
    decreases e, 1
  {
    hide CalleeMask, CalleeArity, Bound;
    match e
    case ListLiteral(es) => AllLocal(es, s, t, binds);
    case Call(callee, args) =>
      CalleeLocal(callee, s, t, binds);
      EffectsLocal(callee, s, t, binds);
      ArgsLocal(args, s, t, binds);
    case Pipe(target, stages) =>
      EffectsLocal(target, s, t, binds);
      StagesLocal(stages, s, t, binds);
    case If(_, _, _) => IfLocal(e, s, t, binds);
    case While(c, b) =>
      EffectsLocal(c, s, t, binds);
      EffectsLocal(b, s, t, binds);
    case Block(es) => AllLocal(es, s, t, binds);
    case Paren(inner) => EffectsLocal(inner, s, t, binds);
    case Match(m, arms) =>
      EffectsLocal(m, s, t, binds);
      ArmsLocal(arms, s, t, binds);
    case Async(inner) => EffectsLocal(inner, s, t, binds);
    case Await(inner) => EffectsLocal(inner, s, t, binds);
    case Effect(inner) => EffectsLocal(inner, s, t, binds);
    case Lambda(params, body) =>
      ArmScopesExtend(s, t, Names(params));
      EffectsLocal(body, Bound(s, Names(params)), Bound(t, Names(params)), binds);
    case _ =>
  }

  lemma {:induction false} IfLocal(e: Expr, s: Scope, t: Scope, binds: Typing)
    requires e.If? && Resolved(e, s, binds) && Extends(s, t)
    ensures Effects(e, t, binds) == Effects(e, s, binds) && Resolved(e, t, binds)
    decreases e, 0
  {
    hide Extends;
    EffectsLocal(e.cond, s, t, binds);
    EffectsLocal(e.thenBranch, s, t, binds);
    if e.elseBranch.Some? { EffectsLocal(e.elseBranch.value, s, t, binds); }
  }

  lemma {:induction false} AllLocal(es: seq<Expr>, s: Scope, t: Scope, binds: Typing)
    requires AllResolved(es, s, binds) && Extends(s, t)
    ensures EffectsAll(es, t, binds) == EffectsAll(es, s, binds) && AllResolved(es, t, binds)
    decreases es, 0
  {
    if es != [] {
      EffectsLocal(es[0], s, t, binds);
      AllLocal(es[1..], s, t, binds);
    }
  }

  lemma {:induction false} ArgsLocal(args: seq<Arg>, s: Scope, t: Scope, binds: Typing)
    requires ArgsResolved(args, s, binds) && Extends(s, t)
    ensures EffectsArgs(args, t, binds) == EffectsArgs(args, s, binds) && ArgsResolved(args, t, binds)
    decreases args, 0
  {
    if args != [] {
      assert args[0].value < args[0];
      EffectsLocal(args[0].value, s, t, binds);
      ArgsLocal(args[1..], s, t, binds);
    }
  }

  lemma {:induction false} ArmsLocal(arms: seq<Arm>, s: Scope, t: Scope, binds: Typing)
    requires ArmsResolved(arms, s, binds) && Extends(s, t)
    ensures EffectsArms(arms, t, binds) == EffectsArms(arms, s, binds) && ArmsResolved(arms, t, binds)
    decreases arms, 0
  {
    if arms != [] {
      ArmScopesExtend(s, t, Names(arms[0].bindings));
      EffectsLocal(arms[0].body, ArmScope(s, arms[0], binds), ArmScope(t, arms[0], binds), binds);
      ArmsLocal(arms[1..], s, t, binds);
    }
  }

  lemma {:induction false} StagesLocal(stages: seq<Expr>, s: Scope, t: Scope, binds: Typing)
    requires StagesResolved(stages, s, binds) && Extends(s, t)
    ensures EffectsStages(stages, t, binds) == EffectsStages(stages, s, binds) && StagesResolved(stages, t, binds)
    decreases stages, 0
  {
    hide CalleeMask, CalleeArity;
    if stages != [] {
      var stage := stages[0];
      var callee := if stage.Call? then stage.callee else stage;
      CalleeLocal(callee, s, t, binds);
      EffectsLocal(callee, s, t, binds);
      if stage.Call? { ArgsLocal(stage.args, s, t, binds); }
      StagesLocal(stages[1..], s, t, binds);
    }
  }

  // ----- the equations -----

  /** The mask the equation of `d` asks for, in terms of the masks in `s`. */
  function Demanded(d: Decl, s: Scope, binds: Typing): Mask {
    if d.FunDecl? then Effects(d.body, Bound(s, Names(d.params)), binds) else Effects(d.value, s, binds)
  }

  predicate DeclResolved(d: Decl, s: Scope, binds: Typing) {
    if d.FunDecl? then Resolved(d.body, Bound(s, Names(d.params)), binds) else Resolved(d.value, s, binds)
  }

  ghost predicate AllDeclsResolved(decls: seq<Decl>, s: Scope, binds: Typing) {
    forall i :: 0 <= i < |decls| ==> DeclResolved(decls[i], s, binds)
  }

  ghost predicate KindOf(d: Decl, s: Scope) {
    d.name in s && if d.FunDecl? then s[d.name].FunctionEntry? && s[d.name].arity == |d.params| else s[d.name].ValueEntry?
  }

  /** Every declaration's mask is what its own body or value demands. */
  ghost predicate Solves(decls: seq<Decl>, s: Scope, binds: Typing) {
    forall i :: 0 <= i < |decls| ==> KindOf(decls[i], s) && EntryMask(s[decls[i].name]) == Demanded(decls[i], s, binds)
  }

  /** At least what they demand. */
  ghost predicate Suffices(decls: seq<Decl>, s: Scope, binds: Typing) {
    forall i :: 0 <= i < |decls| ==> KindOf(decls[i], s) && Within(Demanded(decls[i], s, binds), EntryMask(s[decls[i].name]))
  }

  /** The stored mask, computed while the function itself counted as having no effects, is what the
      body demands when the function has that mask. */
  lemma SelfCallsAddNothing(d: Decl, s: Scope, binds: Typing)
    requires CleanDecl(d, s, binds)
    ensures var after := After(d, s, binds);
            KindOf(d, after) && EntryMask(after[d.name]) == Demanded(d, after, binds)
    ensures DeclResolved(d, After(d, s, binds), binds)
    ensures Extends(s, After(d, s, binds))
  {
    var after := After(d, s, binds);
    if d.FunDecl? {
      var without := s[d.name := FunctionEntry(|d.params|, NONE)];
      var mask := after[d.name].mask;
      assert BoundedBy(after, without, mask) && BoundedBy(without, after, NONE);
      ArmScopesBounded(after, without, mask, Names(d.params));
      ArmScopesBounded(without, after, NONE, Names(d.params));
      EffectsBounded(d.body, Bound(after, Names(d.params)), Bound(without, Names(d.params)), mask, binds);
      EffectsBounded(d.body, Bound(without, Names(d.params)), Bound(after, Names(d.params)), NONE, binds);
    } else {
      EffectsLocal(d.value, s, after, binds);
    }
  }

  lemma DemandIsLocal(d: Decl, s: Scope, t: Scope, binds: Typing)
    requires Extends(s, t)
    requires DeclResolved(d, s, binds)
    ensures Demanded(d, t, binds) == Demanded(d, s, binds) && DeclResolved(d, t, binds)
  {
    if d.FunDecl? {
      ArmScopesExtend(s, t, Names(d.params));
      EffectsLocal(d.body, Bound(s, Names(d.params)), Bound(t, Names(d.params)), binds);
    } else {
      EffectsLocal(d.value, s, t, binds);
    }
  }

  /** The analysis solves the equations. */
  lemma {:induction false} AnalysisSolves(decls: seq<Decl>, scope: Scope, binds: Typing)
    requires Clean(decls, scope, binds)
    ensures var s := Analyze(decls, scope, binds);
            Solves(decls, s, binds) && AllDeclsResolved(decls, s, binds) && Extends(scope, s)
    decreases decls
  {
    hide Effects, Resolved, Bound;
    if decls != [] {
      var d, rest := decls[0], decls[1..];
      var after := After(d, scope, binds);
      var s := Analyze(decls, scope, binds);
      AnalysisSolves(rest, after, binds);
      SelfCallsAddNothing(d, scope, binds);
      DemandIsLocal(d, after, s, binds);
      forall i | 0 <= i < |decls|
        ensures KindOf(decls[i], s) && EntryMask(s[decls[i].name]) == Demanded(decls[i], s, binds) && DeclResolved(decls[i], s, binds)
      {
        if i > 0 { assert decls[i] == rest[i - 1]; }
      }
    }
  }

  /** `t` has at least the masks of `s` on the names of `s`. */
  ghost predicate Below(s: Scope, t: Scope) {
    forall x :: x in s ==> x in t && SameKind(s[x], t[x]) && Within(EntryMask(s[x]), EntryMask(t[x]))
  }

  function Restricted(t: Scope, names: set<string>): Scope {
    map x | x in t && x in names :: t[x]
  }

  lemma DemandBelow(d: Decl, s: Scope, t: Scope, binds: Typing)
    requires CleanDecl(d, s, binds) && Below(s, t) && KindOf(d, t)
    ensures Within(EntryMask(After(d, s, binds)[d.name]), Demanded(d, t, binds))
  {
    if d.FunDecl? {
      var without := s[d.name := FunctionEntry(|d.params|, NONE)];
      var part := Restricted(t, without.Keys);
      assert BoundedBy(without, part, NONE);
      ArmScopesBounded(without, part, NONE, Names(d.params));
      EffectsBounded(d.body, Bound(without, Names(d.params)), Bound(part, Names(d.params)), NONE, binds);
      ArmScopesExtend(part, t, Names(d.params));
      EffectsLocal(d.body, Bound(part, Names(d.params)), Bound(t, Names(d.params)), binds);
    } else {
      var part := Restricted(t, s.Keys);
      assert BoundedBy(s, part, NONE);
      EffectsBounded(d.value, s, part, NONE, binds);
      EffectsLocal(d.value, part, t, binds);
    }
  }

  /** No scope that gives every declaration at least the mask it demands gives any name a smaller
      mask than the analysis does. */
  lemma {:induction false} AnalysisIsLeast(decls: seq<Decl>, scope: Scope, t: Scope, binds: Typing)
    requires Clean(decls, scope, binds) && Below(scope, t) && Suffices(decls, t, binds)
    ensures Below(Analyze(decls, scope, binds), t)
    decreases decls
  {
    hide Effects, Resolved, Bound;
    if decls != [] {
      var d, rest := decls[0], decls[1..];
      DemandBelow(d, scope, t, binds);
      assert forall i :: 0 <= i < |rest| ==> rest[i] == decls[i + 1];
      assert KindOf(decls[0], t) && Within(Demanded(decls[0], t, binds), EntryMask(t[d.name]));
      AnalysisIsLeast(rest, After(d, scope, binds), t, binds);
    }
  }
}
