/** Effect analysis (src/semantic.cpp:388-750): which of async and `!` an expression or a function
    may perform, as one pass over the declarations computes it. Types appear only as far as they
    decide this: a name stands for a function, for a constructor, or for a value. */
module EffectAnalysis {
  import opened Syntax

  datatype Mask = Mask(isAsync: bool, impure: bool)

  const NONE := Mask(false, false)
  const ASYNC := Mask(true, false)
  const IMPURE := Mask(false, true)

  function Or(a: Mask, b: Mask): Mask {
    Mask(a.isAsync || b.isAsync, a.impure || b.impure)
  }

  predicate Within(a: Mask, b: Mask) {
    (a.isAsync ==> b.isAsync) && (a.impure ==> b.impure)
  }

  /** What a name in scope stands for: a function with its number of parameters and the mask stored
      in its type, a constructor with its number of fields, or a value whose computation had these
      effects. */
  datatype Entry = FunctionEntry(arity: nat, mask: Mask) | ConstructorEntry(arity: nat) | ValueEntry(mask: Mask)

  type Scope = map<string, Entry>

  datatype Decl =
    | FunDecl(name: string, params: seq<Param>, body: Expr)
    | LetDecl(name: string, value: Expr)

  /** Inner scopes bind names to values without effects; the first definition of a name counts. */
  function Bound(scope: Scope, names: seq<string>): Scope {
    map x | x in scope.Keys + (set y | y in names) :: if x in names then ValueEntry(NONE) else scope[x]
  }

  /** scope_define reports a name that its scope has already. */
  predicate DistinctNames(names: seq<string>) {
    forall i, j :: 0 <= i < j < |names| ==> names[i] != names[j]
  }

  /** The arms whose bindings the analysis defines: those of a variant it knows, with as many names
      as the variant has fields. */
  type Typing = Arm -> bool

  function ArmScope(scope: Scope, arm: Arm, binds: Typing): Scope {
    if binds(arm) then Bound(scope, Names(arm.bindings)) else scope
  }

  /** A parenthesised expression has the type of what is inside. */
  function Stripped(e: Expr): (r: Expr)
    ensures !r.Paren?
  {
    if e.Paren? then Stripped(e.inner) else e
  }

  function CalleeMask(callee: Expr, scope: Scope): Option<Mask> {
    var f := Stripped(callee);
    if !f.Ident? || f.name !in scope then None
    else
      match scope[f.name]
      case FunctionEntry(_, mask) => Some(mask)
      case ConstructorEntry(arity) => if arity > 0 then Some(NONE) else None
      case ValueEntry(_) => None
  }

  function CalleeArity(callee: Expr, scope: Scope): nat {
    var f := Stripped(callee);
    if f.Ident? && f.name in scope && !scope[f.name].ValueEntry? then scope[f.name].arity else 0
  }

  function NameMask(x: string, scope: Scope): Mask {
    if x in scope && scope[x].ValueEntry? then scope[x].mask else NONE
  }

  /** The mask analyze_expr merges into its out-parameter. */
  function Effects(e: Expr, scope: Scope, binds: Typing): Mask
    decreases e, 0
  {
    match e
    case ListLiteral(es) => EffectsAll(es, scope, binds)
    case Ident(x) => NameMask(x, scope)
    case Call(callee, args) =>
      var mask := CalleeMask(callee, scope);
      var callees := Effects(callee, scope, binds);
      if mask.None? then callees else Or(Or(callees, EffectsArgs(args, scope, binds)), mask.value)
    case Pipe(target, stages) => Or(Effects(target, scope, binds), EffectsStages(stages, scope, binds))
    case If(c, t, f) =>
      var both := Or(Effects(c, scope, binds), Effects(t, scope, binds));
      if f.Some? then Or(both, Effects(f.value, scope, binds)) else both
    case While(c, b) => Or(Effects(c, scope, binds), Effects(b, scope, binds))
    case Block(es) => EffectsAll(es, scope, binds)
    case Paren(inner) => Effects(inner, scope, binds)
    case Match(s, arms) => Or(Effects(s, scope, binds), EffectsArms(arms, scope, binds))
    case Async(inner) => Or(ASYNC, Effects(inner, scope, binds))
    case Await(inner) => Effects(inner, scope, binds)
    case Effect(inner) => Or(IMPURE, Effects(inner, scope, binds))
    case _ => NONE
  }

  function EffectsAll(es: seq<Expr>, scope: Scope, binds: Typing): Mask
    decreases es, 0
  {
    if es == [] then NONE else Or(Effects(es[0], scope, binds), EffectsAll(es[1..], scope, binds))
  }

  function EffectsArgs(args: seq<Arg>, scope: Scope, binds: Typing): Mask
    decreases args, 0
  {
    if args == [] then NONE
    else
      assert args[0].value < args[0];
      Or(Effects(args[0].value, scope, binds), EffectsArgs(args[1..], scope, binds))
  }

  function EffectsArms(arms: seq<Arm>, scope: Scope, binds: Typing): Mask
    decreases arms, 0
  {
    if arms == [] then NONE
    else Or(Effects(arms[0].body, ArmScope(scope, arms[0], binds), binds), EffectsArms(arms[1..], scope, binds))
  }

  function EffectsStages(stages: seq<Expr>, scope: Scope, binds: Typing): Mask
    decreases stages, 0
  {
    if stages == [] then NONE else Or(EffectsStage(stages[0], scope, binds), EffectsStages(stages[1..], scope, binds))
  }

  function EffectsStage(stage: Expr, scope: Scope, binds: Typing): Mask
    decreases stage, 1
  {
    var callee := if stage.Call? then stage.callee else stage;
    var mask := CalleeMask(callee, scope);
    var callees := Effects(callee, scope, binds);
    if mask.None? || CalleeArity(callee, scope) == 0 then callees
    else if stage.Call? then Or(Or(callees, EffectsArgs(stage.args, scope, binds)), mask.value)
    else Or(callees, mask.value)
  }

  // ----- no diagnostics -----

  /** Every name is in scope, no scope binds a name twice, and every callee and stage names a function
      or a constructor that takes so many arguments; a stage may leave some out. */
  predicate Resolved(e: Expr, scope: Scope, binds: Typing)
    decreases e, 0
  {
    match e
    case ListLiteral(es) => AllResolved(es, scope, binds)
    case Ident(x) => x in scope
    case Call(callee, args) =>
      CalleeMask(callee, scope).Some? && CalleeArity(callee, scope) == |args| && ArgsResolved(args, scope, binds)
    case Pipe(target, stages) => Resolved(target, scope, binds) && StagesResolved(stages, scope, binds)
    case If(c, t, f) =>
      Resolved(c, scope, binds) && Resolved(t, scope, binds) && (f.Some? ==> Resolved(f.value, scope, binds))
    case While(c, b) => Resolved(c, scope, binds) && Resolved(b, scope, binds)
    case Block(es) => AllResolved(es, scope, binds)
    case Paren(inner) => Resolved(inner, scope, binds)
    case Match(s, arms) => Resolved(s, scope, binds) && ArmsResolved(arms, scope, binds)
    case Async(inner) => Resolved(inner, scope, binds)
    case Await(inner) => Resolved(inner, scope, binds)
    case Effect(inner) => Resolved(inner, scope, binds)
    case Lambda(params, body) => DistinctNames(Names(params)) && Resolved(body, Bound(scope, Names(params)), binds)
    case _ => true
  }

  predicate AllResolved(es: seq<Expr>, scope: Scope, binds: Typing)
    decreases es, 0
  {
    es == [] || (Resolved(es[0], scope, binds) && AllResolved(es[1..], scope, binds))
  }

  predicate ArgsResolved(args: seq<Arg>, scope: Scope, binds: Typing)
    decreases args, 0
  {
    args == [] || (assert args[0].value < args[0]; Resolved(args[0].value, scope, binds) && ArgsResolved(args[1..], scope, binds))
  }

  predicate ArmBindsOnce(arm: Arm, binds: Typing) {
    binds(arm) ==> DistinctNames(Names(arm.bindings))
  }

  predicate ArmsResolved(arms: seq<Arm>, scope: Scope, binds: Typing)
    decreases arms, 0
  {
    arms == [] ||
    (ArmBindsOnce(arms[0], binds) && Resolved(arms[0].body, ArmScope(scope, arms[0], binds), binds)
     && ArmsResolved(arms[1..], scope, binds))
  }

  predicate StagesResolved(stages: seq<Expr>, scope: Scope, binds: Typing)
    decreases stages, 0
  {
    stages == [] || (StageResolved(stages[0], scope, binds) && StagesResolved(stages[1..], scope, binds))
  }

  predicate StageResolved(stage: Expr, scope: Scope, binds: Typing)
    decreases stage, 1
  {
    if stage.Call? then
      CalleeMask(stage.callee, scope).Some? && CalleeArity(stage.callee, scope) > |stage.args| && ArgsResolved(stage.args, scope, binds)
    else CalleeMask(stage, scope).Some? && CalleeArity(stage, scope) > 0
  }

  /** Only names in scope can be called. */
  lemma {:induction false} CalleeIsResolved(callee: Expr, scope: Scope, binds: Typing)
    requires CalleeMask(callee, scope).Some?
    ensures Resolved(callee, scope, binds)
  {
    if callee.Paren? { CalleeIsResolved(callee.inner, scope, binds); }
  }

  // ----- declarations -----

  /** analyze_fun: the function is in scope, without effects, while its own body is analysed. */
  function AfterFun(d: Decl, scope: Scope, binds: Typing): Scope
    requires d.FunDecl?
  {
    if d.name in scope then scope
    else scope[d.name := FunctionEntry(|d.params|, Effects(d.body, BodyScope(d, scope), binds))]
  }

  function BodyScope(d: Decl, scope: Scope): Scope
    requires d.FunDecl?
  {
    Bound(if d.name in scope then scope else scope[d.name := FunctionEntry(|d.params|, NONE)], Names(d.params))
  }

  /** analyze_let */
  function AfterLet(d: Decl, scope: Scope, binds: Typing): Scope
    requires d.LetDecl?
  {
    if d.name in scope then scope else scope[d.name := ValueEntry(Effects(d.value, scope, binds))]
  }

  function After(d: Decl, scope: Scope, binds: Typing): Scope {
    if d.FunDecl? then AfterFun(d, scope, binds) else AfterLet(d, scope, binds)
  }

  /** A declaration without diagnostics: its name is new, its parameters have different names, and
      everything in it is resolved. */
  predicate CleanDecl(d: Decl, scope: Scope, binds: Typing) {
    d.name !in scope
    && if d.FunDecl? then DistinctNames(Names(d.params)) && Resolved(d.body, BodyScope(d, scope), binds)
       else Resolved(d.value, scope, binds)
  }

  /** nova_semantic_analyze_program, once the constructors are in scope. */
  function Analyze(decls: seq<Decl>, scope: Scope, binds: Typing): Scope {
    if decls == [] then scope else Analyze(decls[1..], After(decls[0], scope, binds), binds)
  }

  predicate Clean(decls: seq<Decl>, scope: Scope, binds: Typing) {
    decls == [] || (CleanDecl(decls[0], scope, binds) && Clean(decls[1..], After(decls[0], scope, binds), binds))
  }
}
