/** What it means that the analysis reports nothing: every name that occurs is bound where it occurs,
    and every callee and stage is a function or constructor that takes what it is given; and that no
    run of such a program comes upon a name that stands for nothing. */
module CleanPrograms {
  import opened Syntax
  import opened Meaning
  import opened EffectAnalysis
  import opened EffectSolutions
  import opened EffectRuns

  // ----- places in an expression -----

  /** An expression inside another, as a stage or not, and the names bound around it. */
  datatype Site = Site(expr: Expr, stage: bool, locals: set<string>)

  function ToSet(names: seq<string>): set<string> {
    set x | x in names
  }

  /** What stands directly inside, apart from callees. */
  function Inside(s: Site, binds: Typing): (parts: seq<Site>)
    ensures forall p :: p in parts ==> p.expr < s.expr
  {
    var l := s.locals;
    match s.expr
    case ListLiteral(es) => seq(|es|, i requires 0 <= i < |es| => Site(es[i], false, l))
    case Block(es) => seq(|es|, i requires 0 <= i < |es| => Site(es[i], false, l))
    case Call(_, args) => seq(|args|, i requires 0 <= i < |args| => assert args[i].value < args[i]; Site(args[i].value, false, l))
    case Pipe(target, stages) => [Site(target, false, l)] + seq(|stages|, i requires 0 <= i < |stages| => Site(stages[i], true, l))
    case If(c, yes, no) => [Site(c, false, l), Site(yes, false, l)] + if no.Some? then [Site(no.value, false, l)] else []
    case While(c, b) => [Site(c, false, l), Site(b, false, l)]
    case Paren(inner) => if s.stage then [] else [Site(inner, false, l)]
    case Match(m, arms) =>
      [Site(m, false, l)] +
      seq(|arms|, i requires 0 <= i < |arms| =>
        assert arms[i].body < arms[i];
        Site(arms[i].body, false, if binds(arms[i]) then l + ToSet(Names(arms[i].bindings)) else l))
    case Async(inner) => if s.stage then [] else [Site(inner, false, l)]
    case Await(inner) => if s.stage then [] else [Site(inner, false, l)]
    case Effect(inner) => if s.stage then [] else [Site(inner, false, l)]
    case Lambda(params, body) => if s.stage then [] else [Site(body, false, l + ToSet(Names(params)))]
    case _ => []
  }

  function SiteAt(s: Site, path: seq<nat>, binds: Typing): Option<Site>
    decreases |path|
  {
    if path == [] then Some(s)
    else
      var parts := Inside(s, binds);
      if path[0] < |parts| then SiteAt(parts[path[0]], path[1..], binds) else None
  }

  /** `callee` names, in parentheses or not, a function or constructor of the global scope with `arity`
      parameters, and no local name hides it. A constructor without fields cannot be called. */
  ghost predicate Takes(callee: Expr, arity: nat, scope: Scope, locals: set<string>) {
    var f := Stripped(callee);
    && f.Ident? && f.name !in locals && f.name in scope
    && (scope[f.name] == ConstructorEntry(arity) || (scope[f.name].FunctionEntry? && scope[f.name].arity == arity))
    && (scope[f.name].ConstructorEntry? ==> arity > 0)
  }

  /** Nothing to report at this place: a name is bound, a call gives its callee as many arguments as it
      takes, a stage's callee takes the value and at least the arguments written, and no binder binds a
      name twice. */
  ghost predicate IsFine(s: Site, scope: Scope, binds: Typing) {
    if s.stage then
      if s.expr.Call? then exists n: nat :: Takes(s.expr.callee, n, scope, s.locals) && n >= 1 + |s.expr.args|
      else exists n: nat :: Takes(s.expr, n, scope, s.locals) && n >= 1
    else
      match s.expr
      case Ident(x) => x in s.locals || x in scope
      case Call(callee, args) => Takes(callee, |args|, scope, s.locals)
      case Lambda(params, _) => DistinctNames(Names(params))
      case Match(_, arms) => forall i :: 0 <= i < |arms| && binds(arms[i]) ==> DistinctNames(Names(arms[i].bindings))
      case _ => true
  }

  ghost predicate FineEverywhere(s: Site, scope: Scope, binds: Typing) {
    forall path :: SiteAt(s, path, binds).Some? ==> IsFine(SiteAt(s, path, binds).value, scope, binds)
  }

  // ----- fine everywhere is what the analysis asks -----

  /** The scope at a place. */
  function Local(scope: Scope, locals: set<string>): Scope {
    map x | x in scope.Keys + locals :: if x in locals then ValueEntry(NONE) else scope[x]
  }

  lemma LocalBound(scope: Scope, locals: set<string>, names: seq<string>)
    ensures Bound(Local(scope, locals), names) == Local(scope, locals + ToSet(names))
  {
  }

  lemma TakesIff(callee: Expr, scope: Scope, locals: set<string>)
    ensures CalleeMask(callee, Local(scope, locals)).Some? <==> exists n: nat :: Takes(callee, n, scope, locals)
    ensures forall n: nat :: Takes(callee, n, scope, locals) ==> CalleeArity(callee, Local(scope, locals)) == n
  {
    var f := Stripped(callee);
    if CalleeMask(callee, Local(scope, locals)).Some? {
      assert Takes(callee, scope[f.name].arity, scope, locals);
    }
  }

  ghost predicate SiteResolved(s: Site, scope: Scope, binds: Typing) {
    var t := Local(scope, s.locals);
    if s.stage then StageResolved(s.expr, t, binds) else Resolved(s.expr, t, binds)
  }

  ghost predicate PartsResolved(s: Site, scope: Scope, binds: Typing) {
    forall i :: 0 <= i < |Inside(s, binds)| ==> SiteResolved(Inside(s, binds)[i], scope, binds)
  }

  lemma {:induction false} AllResolvedIff(es: seq<Expr>, t: Scope, binds: Typing)
    ensures AllResolved(es, t, binds) <==> forall i :: 0 <= i < |es| ==> Resolved(es[i], t, binds)
  {
    hide Resolved;
    if es != [] {
      AllResolvedIff(es[1..], t, binds);
      assert forall i :: 0 < i < |es| ==> es[i] == es[1..][i - 1];
    }
  }

  lemma {:induction false} ArgsResolvedIff(args: seq<Arg>, t: Scope, binds: Typing)
    ensures ArgsResolved(args, t, binds) <==> forall i :: 0 <= i < |args| ==> Resolved(args[i].value, t, binds)
  {
    hide Resolved;
    if args != [] {
      ArgsResolvedIff(args[1..], t, binds);
      assert forall i :: 0 < i < |args| ==> args[i] == args[1..][i - 1];
    }
  }

  lemma {:induction false} StagesResolvedIff(stages: seq<Expr>, t: Scope, binds: Typing)
    ensures StagesResolved(stages, t, binds) <==> forall i :: 0 <= i < |stages| ==> StageResolved(stages[i], t, binds)
  {
    hide StageResolved;
    if stages != [] {
      StagesResolvedIff(stages[1..], t, binds);
      assert forall i :: 0 < i < |stages| ==> stages[i] == stages[1..][i - 1];
    }
  }

  lemma {:induction false} ArmsResolvedIff(arms: seq<Arm>, t: Scope, binds: Typing)
    ensures ArmsResolved(arms, t, binds) <==>
      forall i :: 0 <= i < |arms| ==> ArmBindsOnce(arms[i], binds) && Resolved(arms[i].body, ArmScope(t, arms[i], binds), binds)
  {
    hide Resolved, ArmBindsOnce, ArmScope;
    if arms != [] {
      ArmsResolvedIff(arms[1..], t, binds);
      assert forall i :: 0 < i < |arms| ==> arms[i] == arms[1..][i - 1];
    }
  }

  /** One level: nothing to report in an expression means nothing to report at it and in its parts. */
  lemma ResolvedByParts(s: Site, scope: Scope, binds: Typing)
    ensures SiteResolved(s, scope, binds) <==> IsFine(s, scope, binds) && PartsResolved(s, scope, binds)
  {
    if s.stage { StageByParts(s, scope, binds); } else { ExprByParts(s, scope, binds); }
  }

  lemma CallParts(s: Site, scope: Scope, binds: Typing)
    requires s.expr.Call?
    ensures PartsResolved(s, scope, binds) <==> ArgsResolved(s.expr.args, Local(scope, s.locals), binds)
  {
    hide Resolved, Local;
    var parts, args := Inside(s, binds), s.expr.args;
    ArgsResolvedIff(args, Local(scope, s.locals), binds);
    assert |parts| == |args|;
    assert forall i :: 0 <= i < |args| ==> parts[i] == Site(args[i].value, false, s.locals);
  }

  lemma StageByParts(s: Site, scope: Scope, binds: Typing)
    requires s.stage
    ensures SiteResolved(s, scope, binds) <==> IsFine(s, scope, binds) && PartsResolved(s, scope, binds)
  {
    hide Resolved, Local, Takes;
    if s.expr.Call? {
      TakesIff(s.expr.callee, scope, s.locals);
      CallParts(s, scope, binds);
    } else {
      TakesIff(s.expr, scope, s.locals);
      NoParts(s, scope, binds);
    }
  }

  /** The other stages are never callable, so what is inside them does not matter. */
  lemma NoParts(s: Site, scope: Scope, binds: Typing)
    requires s.stage && !s.expr.Call?
    ensures IsFine(s, scope, binds) ==> PartsResolved(s, scope, binds)
  {
    if IsFine(s, scope, binds) {
      assert s.expr.Ident? || s.expr.Paren?;
    }
  }

  lemma ExprByParts(s: Site, scope: Scope, binds: Typing)
    requires !s.stage
    ensures SiteResolved(s, scope, binds) <==> IsFine(s, scope, binds) && PartsResolved(s, scope, binds)
  {
    var parts, t := Inside(s, binds), Local(scope, s.locals);
    match s.expr
    case ListLiteral(es) => ItemsByParts(s, es, scope, binds);
    case Block(es) => ItemsByParts(s, es, scope, binds);
    case Call(callee, args) =>
      TakesIff(callee, scope, s.locals);
      CallParts(s, scope, binds);
      hide Takes, Local, ArgsResolved;
    case Pipe(_, _) => PipeByParts(s, scope, binds);
    case If(c, yes, no) =>
      hide Resolved, Local;
      assert no.Some? ==> parts[2] == Site(no.value, false, s.locals);
      assert parts[0] == Site(c, false, s.locals) && parts[1] == Site(yes, false, s.locals);
      IfResolvedIff(s.expr, t, binds);
    case While(c, b) =>
      assert parts[0] == Site(c, false, s.locals) && parts[1] == Site(b, false, s.locals);
    case Match(_, _) => MatchByParts(s, scope, binds);
    case Paren(inner) => assert parts[0] == Site(inner, false, s.locals);
    case Async(inner) => assert parts[0] == Site(inner, false, s.locals);
    case Await(inner) => assert parts[0] == Site(inner, false, s.locals);
    case Effect(inner) => assert parts[0] == Site(inner, false, s.locals);
    case Lambda(params, body) =>
      LocalBound(scope, s.locals, Names(params));
      assert parts[0] == Site(body, false, s.locals + ToSet(Names(params)));
    case _ =>
  }

  lemma IfResolvedIff(e: Expr, t: Scope, binds: Typing)
    requires e.If?
    ensures Resolved(e, t, binds) <==>
      Resolved(e.cond, t, binds) && Resolved(e.thenBranch, t, binds) && (e.elseBranch.Some? ==> Resolved(e.elseBranch.value, t, binds))
  {
  }

  lemma ItemsByParts(s: Site, es: seq<Expr>, scope: Scope, binds: Typing)
    requires !s.stage && (s.expr == ListLiteral(es) || s.expr == Block(es))
    ensures SiteResolved(s, scope, binds) <==> PartsResolved(s, scope, binds)
  {
    var parts, t := Inside(s, binds), Local(scope, s.locals);
    assert Resolved(s.expr, t, binds) <==> AllResolved(es, t, binds);
    hide Resolved, Local;
    AllResolvedIff(es, t, binds);
    assert |parts| == |es|;
    assert forall i :: 0 <= i < |es| ==> parts[i] == Site(es[i], false, s.locals);
  }

  lemma PipeByParts(s: Site, scope: Scope, binds: Typing)
    requires !s.stage && s.expr.Pipe?
    ensures SiteResolved(s, scope, binds) <==> PartsResolved(s, scope, binds)
  {
    var parts, t := Inside(s, binds), Local(scope, s.locals);
    var target, stages := s.expr.target, s.expr.stages;
    assert Resolved(s.expr, t, binds) <==> Resolved(target, t, binds) && StagesResolved(stages, t, binds);
    hide Resolved, StageResolved, Local;
    StagesResolvedIff(stages, t, binds);
    assert |parts| == 1 + |stages| && parts[0] == Site(target, false, s.locals);
    assert forall i :: 0 <= i < |stages| ==> parts[i + 1] == Site(stages[i], true, s.locals);
    if PartsResolved(s, scope, binds) {
      forall i | 0 <= i < |stages| ensures StageResolved(stages[i], t, binds) {
        assert SiteResolved(parts[i + 1], scope, binds);
      }
    }
  }

  lemma ArmPart(s: Site, i: nat, scope: Scope, binds: Typing)
    requires !s.stage && s.expr.Match? && i < |s.expr.arms|
    ensures |Inside(s, binds)| == 1 + |s.expr.arms|
    ensures SiteResolved(Inside(s, binds)[i + 1], scope, binds) <==>
      Resolved(s.expr.arms[i].body, ArmScope(Local(scope, s.locals), s.expr.arms[i], binds), binds)
  {
    hide Resolved;
    LocalBound(scope, s.locals, Names(s.expr.arms[i].bindings));
  }

  lemma FirstPart(s: Site, scope: Scope, binds: Typing)
    requires !s.stage && s.expr.Match?
    ensures |Inside(s, binds)| == 1 + |s.expr.arms|
    ensures SiteResolved(Inside(s, binds)[0], scope, binds) <==> Resolved(s.expr.scrutinee, Local(scope, s.locals), binds)
  {
    hide Resolved, Local;
    assert Inside(s, binds)[0] == Site(s.expr.scrutinee, false, s.locals);
  }

  lemma MatchByParts(s: Site, scope: Scope, binds: Typing)
    requires !s.stage && s.expr.Match?
    ensures SiteResolved(s, scope, binds) <==> IsFine(s, scope, binds) && PartsResolved(s, scope, binds)
  {
    var parts, t := Inside(s, binds), Local(scope, s.locals);
    var m, arms := s.expr.scrutinee, s.expr.arms;
    assert Resolved(s.expr, t, binds) <==> Resolved(m, t, binds) && ArmsResolved(arms, t, binds);
    hide Resolved, Local, ArmScope, DistinctNames;
    ArmsResolvedIff(arms, t, binds);
    FirstPart(s, scope, binds);
    hide Inside;
    forall i | 0 <= i < |arms|
      ensures SiteResolved(parts[i + 1], scope, binds) <==> Resolved(arms[i].body, ArmScope(t, arms[i], binds), binds)
    {
      ArmPart(s, i, scope, binds);
    }
    assert SiteResolved(s, scope, binds) <==> Resolved(s.expr, t, binds);
    hide SiteResolved;
    if PartsResolved(s, scope, binds) {
      forall i | 0 <= i < |arms| ensures Resolved(arms[i].body, ArmScope(t, arms[i], binds), binds) {
        assert SiteResolved(parts[i + 1], scope, binds);
      }
    }
  }

  lemma SiteBelow(s: Site, binds: Typing, k: nat, path: seq<nat>)
    requires k < |Inside(s, binds)|
    ensures SiteAt(s, [k] + path, binds) == SiteAt(Inside(s, binds)[k], path, binds)
  {
    assert ([k] + path)[1..] == path;
  }

  lemma FineByParts(s: Site, scope: Scope, binds: Typing)
    ensures FineEverywhere(s, scope, binds) <==>
      IsFine(s, scope, binds) && forall k :: 0 <= k < |Inside(s, binds)| ==> FineEverywhere(Inside(s, binds)[k], scope, binds)
  {
    hide IsFine, Inside;
    var parts := Inside(s, binds);
    if FineEverywhere(s, scope, binds) {
      assert SiteAt(s, [], binds) == Some(s);
      forall k, path: seq<nat> | 0 <= k < |parts| && SiteAt(parts[k], path, binds).Some?
        ensures IsFine(SiteAt(parts[k], path, binds).value, scope, binds)
      {
        SiteBelow(s, binds, k, path);
        assert SiteAt(s, [k] + path, binds).Some?;
      }
    }
    if IsFine(s, scope, binds) && forall k :: 0 <= k < |parts| ==> FineEverywhere(parts[k], scope, binds) {
      forall path: seq<nat> | SiteAt(s, path, binds).Some? ensures IsFine(SiteAt(s, path, binds).value, scope, binds) {
        if path != [] { assert FineEverywhere(parts[path[0]], scope, binds); }
      }
    }
  }

  /** The analysis of an expression reports nothing if and only if nothing is to be reported at any
      place in it. */
  lemma {:induction false} ResolvedIffFine(s: Site, scope: Scope, binds: Typing)
    ensures SiteResolved(s, scope, binds) <==> FineEverywhere(s, scope, binds)
    decreases s.expr
  {
    hide SiteResolved, FineEverywhere, IsFine, Inside;
    var parts := Inside(s, binds);
    ResolvedByParts(s, scope, binds);
    FineByParts(s, scope, binds);
    forall k | 0 <= k < |parts| ensures SiteResolved(parts[k], scope, binds) <==> FineEverywhere(parts[k], scope, binds) {
      assert parts[k] in parts;
      ResolvedIffFine(parts[k], scope, binds);
    }
  }

  // ----- declarations -----

  /** A declaration in the scope of those before it: its name is new, and nothing is to be reported in
      it, where a function knows itself. */
  ghost predicate DeclIsFine(d: Decl, scope: Scope, binds: Typing) {
    d.name !in scope
    && if d.FunDecl? then
         DistinctNames(Names(d.params))
         && FineEverywhere(Site(d.body, false, ToSet(Names(d.params))), scope[d.name := FunctionEntry(|d.params|, NONE)], binds)
       else FineEverywhere(Site(d.value, false, {}), scope, binds)
  }

  lemma DeclIsFineIff(d: Decl, scope: Scope, binds: Typing)
    ensures CleanDecl(d, scope, binds) <==> DeclIsFine(d, scope, binds)
  {
    hide Resolved, FineEverywhere;
    if d.FunDecl? {
      var inner := scope[d.name := FunctionEntry(|d.params|, NONE)];
      var s := Site(d.body, false, ToSet(Names(d.params)));
      assert Local(inner, {}) == inner;
      LocalBound(inner, {}, Names(d.params));
      assert {} + ToSet(Names(d.params)) == ToSet(Names(d.params));
      ResolvedIffFine(s, inner, binds);
      if d.name !in scope { assert BodyScope(d, scope) == Local(inner, s.locals); }
    } else {
      assert Local(scope, {}) == scope;
      ResolvedIffFine(Site(d.value, false, {}), scope, binds);
    }
  }

  /** The analysis of a program reports nothing if and only if each declaration is fine in the scope of
      those before it. */
  lemma {:induction false} CleanIffFine(decls: seq<Decl>, scope: Scope, binds: Typing)
    ensures Clean(decls, scope, binds) <==>
      forall i :: 0 <= i < |decls| ==> DeclIsFine(decls[i], Analyze(decls[..i], scope, binds), binds)
    decreases decls
  {
    hide CleanDecl, DeclIsFine, After;
    if decls != [] {
      var next := After(decls[0], scope, binds);
      DeclIsFineIff(decls[0], scope, binds);
      CleanIffFine(decls[1..], next, binds);
      assert decls[..0] == [] && Analyze(decls[..0], scope, binds) == scope;
      forall i | 0 < i < |decls|
        ensures decls[i] == decls[1..][i - 1] && Analyze(decls[..i], scope, binds) == Analyze(decls[1..][..i - 1], next, binds)
      {
        assert decls[..i][1..] == decls[1..][..i - 1];
      }
      if forall i :: 0 <= i < |decls| ==> DeclIsFine(decls[i], Analyze(decls[..i], scope, binds), binds) {
        forall i | 0 <= i < |decls[1..]| ensures DeclIsFine(decls[1..][i], Analyze(decls[1..][..i], next, binds), binds) {
          assert DeclIsFine(decls[i + 1], Analyze(decls[..i + 1], scope, binds), binds);
        }
      }
    }
  }

  function DeclNames(decls: seq<Decl>): set<string> {
    if decls == [] then {} else {decls[0].name} + DeclNames(decls[1..])
  }

  lemma {:induction false} NamesOfDecls(decls: seq<Decl>, scope: Scope, binds: Typing)
    ensures Analyze(decls, scope, binds).Keys == scope.Keys + DeclNames(decls)
    decreases decls
  {
    hide Effects;
    if decls != [] { NamesOfDecls(decls[1..], After(decls[0], scope, binds), binds); }
  }

  /** A name stands for what it was first defined as, also where the analysis reports a second definition. */
  lemma {:induction false} FirstDefinitionCounts(decls: seq<Decl>, scope: Scope, binds: Typing, x: string)
    ensures x in scope ==> x in Analyze(decls, scope, binds) && Analyze(decls, scope, binds)[x] == scope[x]
    ensures decls != [] && x == decls[0].name && x !in scope ==>
      && x in Analyze(decls, scope, binds) && x in After(decls[0], scope, binds)
      && Analyze(decls, scope, binds)[x] == After(decls[0], scope, binds)[x]
    decreases decls
  {
    hide Effects;
    if decls != [] { FirstDefinitionCounts(decls[1..], After(decls[0], scope, binds), binds, x); }
  }

  /** That scope: the constructors and the names of the declarations before, functions with the number of
      their parameters. */
  lemma ScopeOfDecls(decls: seq<Decl>, scope: Scope, binds: Typing)
    requires Clean(decls, scope, binds)
    ensures var s := Analyze(decls, scope, binds);
      && s.Keys == scope.Keys + DeclNames(decls)
      && (forall x :: x in scope ==> s[x] == scope[x])
      && forall i :: 0 <= i < |decls| ==> KindOf(decls[i], s)
  {
    hide Analyze, Clean, Effects, Resolved, Bound;
    NamesOfDecls(decls, scope, binds);
    AnalysisSolves(decls, scope, binds);
  }

  // ----- runs -----

  /** What a program can call: its functions, and constructors. */
  predicate IsCallable(x: string, p: Program, constructors: set<string>) {
    FunctionOf(p.decls, x).Some? || x in constructors
  }

  /** Running `e` comes upon a name that stands for nothing, or calls what is no function and no
      constructor. Functions and constructors are not values here, but they are something. */
  predicate Strays(e: Expr, p: Program, cs: set<string>, env: Env, fuel: nat)
    decreases fuel, e, 0
  {
    match e
    case Ident(x) => x !in env && !IsCallable(x, p, cs)
    case ListLiteral(es) => AllStray(es, p, cs, env, fuel)
    case Call(callee, args) =>
      ArgsStray(args, p, cs, env, fuel)
      || (ExecArgs(args, p, env, fuel).values.Some? && fuel > 0
          && CallStrays(callee, ExecArgs(args, p, env, fuel).values.value, p, cs, fuel - 1))
    case Pipe(target, stages) =>
      var first := Exec(target, p, env, fuel);
      Strays(target, p, cs, env, fuel) || (first.value.Some? && StagesStray(first.value.value, stages, p, cs, env, fuel))
    case If(c, yes, no) =>
      var cond := Exec(c, p, env, fuel).value;
      Strays(c, p, cs, env, fuel)
      || (cond == Some(BoolV(true)) && Strays(yes, p, cs, env, fuel))
      || (cond == Some(BoolV(false)) && no.Some? && Strays(no.value, p, cs, env, fuel))
    case While(c, b) =>
      Strays(c, p, cs, env, fuel)
      || (Exec(c, p, env, fuel).value == Some(BoolV(true)) && fuel > 0
          && (Strays(b, p, cs, env, fuel) || (Exec(b, p, env, fuel).value.Some? && Strays(e, p, cs, env, fuel - 1))))
    case Block(es) => AllStray(es, p, cs, env, fuel)
    case Match(m, arms) =>
      var v := Exec(m, p, env, fuel).value;
      Strays(m, p, cs, env, fuel) || (v.Some? && v.value.VariantV? && ArmsStray(arms, v.value.tag, v.value.payload, p, cs, env, fuel))
    case Paren(inner) => Strays(inner, p, cs, env, fuel)
    case Async(inner) => Strays(inner, p, cs, env, fuel)
    case Await(inner) => Strays(inner, p, cs, env, fuel)
    case Effect(inner) => Strays(inner, p, cs, env, fuel)
    case _ => false
  }

  predicate CallStrays(callee: Expr, vs: seq<Value>, p: Program, cs: set<string>, fuel: nat)
    decreases fuel
  {
    var f := Stripped(callee);
    if !f.Ident? || !IsCallable(f.name, p, cs) then true
    else
      var d := FunctionOf(p.decls, f.name);
      d.Some? && |d.value.params| == |vs| && Strays(d.value.body, p, cs, BindAll(p.globals, Names(d.value.params), vs), fuel)
  }

  predicate AllStray(es: seq<Expr>, p: Program, cs: set<string>, env: Env, fuel: nat)
    decreases fuel, es, 0
  {
    es != []
    && (Strays(es[0], p, cs, env, fuel) || (Exec(es[0], p, env, fuel).value.Some? && AllStray(es[1..], p, cs, env, fuel)))
  }

  predicate ArgsStray(args: seq<Arg>, p: Program, cs: set<string>, env: Env, fuel: nat)
    decreases fuel, args, 0
  {
    args != []
    && (assert args[0].value < args[0];
        Strays(args[0].value, p, cs, env, fuel)
        || (Exec(args[0].value, p, env, fuel).value.Some? && ArgsStray(args[1..], p, cs, env, fuel)))
  }

  predicate StagesStray(v: Value, stages: seq<Expr>, p: Program, cs: set<string>, env: Env, fuel: nat)
    decreases fuel, stages, 0
  {
    stages != []
    && (StageStrays(v, stages[0], p, cs, env, fuel)
        || (var first := ExecStage(v, stages[0], p, env, fuel);
            first.value.Some? && StagesStray(first.value.value, stages[1..], p, cs, env, fuel)))
  }

  predicate StageStrays(v: Value, stage: Expr, p: Program, cs: set<string>, env: Env, fuel: nat)
    decreases fuel, stage, 1
  {
    var callee := if stage.Call? then stage.callee else stage;
    var all := if stage.Call? then ExecArgs(stage.args, p, env, fuel) else RanAll(Some([]), NONE);
    (stage.Call? && ArgsStray(stage.args, p, cs, env, fuel))
    || (all.values.Some? && fuel > 0 && CallStrays(callee, [v] + all.values.value, p, cs, fuel - 1))
  }

  predicate ArmsStray(arms: seq<Arm>, tag: string, payload: seq<Value>, p: Program, cs: set<string>, env: Env, fuel: nat)
    decreases fuel, arms, 0
  {
    arms != []
    && if arms[0].name == tag then
         var inner := Bind(env, Names(arms[0].bindings), payload);
         inner.Some? && Strays(arms[0].body, p, cs, inner.value, fuel)
       else ArmsStray(arms[1..], tag, payload, p, cs, env, fuel)
  }

  /** Every local name has a value, and every global value is a local name or has one. */
  ghost predicate Holds(env: Env, t: Scope) {
    forall x :: x in t && t[x].ValueEntry? ==> x in env
  }

  /** The global scope is the program's. */
  ghost predicate Known(p: Program, s: Scope, cs: set<string>) {
    && Holds(p.globals, s)
    && forall x :: x in s && !s[x].ValueEntry? ==> IsCallable(x, p, cs)
  }

  lemma CalleeIsKnown(callee: Expr, p: Program, s: Scope, t: Scope, cs: set<string>)
    requires Known(p, s, cs) && Over(t, s) && CalleeMask(callee, t).Some?
    ensures Stripped(callee).Ident? && IsCallable(Stripped(callee).name, p, cs)
  {
  }

  lemma {:induction false} BindAllKeys(env: Env, names: seq<string>, values: seq<Value>)
    requires |names| == |values|
    ensures BindAll(env, names, values).Keys == env.Keys + ToSet(names)
    decreases names
  {
    if names != [] { BindAllKeys(env[names[0] := values[0]], names[1..], values[1..]); }
  }

  lemma HoldsBound(env: Env, t: Scope, names: seq<string>, values: seq<Value>)
    requires Holds(env, t) && |names| == |values|
    ensures Holds(BindAll(env, names, values), Bound(t, names)) && Holds(BindAll(env, names, values), t)
  {
    BindAllKeys(env, names, values);
  }

  lemma {:induction false} CallStaysKnown(callee: Expr, vs: seq<Value>, p: Program, cs: set<string>, s: Scope, t: Scope, binds: Typing, fuel: nat)
    requires Analysed(p, s, binds) && Known(p, s, cs) && Over(t, s) && CalleeMask(callee, t).Some?
    ensures !CallStrays(callee, vs, p, cs, fuel)
    decreases fuel
  {
    CalleeIsKnown(callee, p, s, t, cs);
    hide IsCallable;
    var d := FunctionOf(p.decls, Stripped(callee).name);
    if d.Some? && |d.value.params| == |vs| {
      var i :| 0 <= i < |p.decls| && p.decls[i] == d.value;
      assert DeclResolved(p.decls[i], s, binds);
      var names := Names(d.value.params);
      OverBound(s, s, names);
      HoldsBound(p.globals, s, names, vs);
      RunStaysKnown(d.value.body, p, cs, BindAll(p.globals, names, vs), s, Bound(s, names), binds, fuel);
    }
  }

  /** No run of a resolved expression strays. */
  lemma {:induction false} RunStaysKnown(e: Expr, p: Program, cs: set<string>, env: Env, s: Scope, t: Scope, binds: Typing, fuel: nat)
    requires Analysed(p, s, binds) && Known(p, s, cs) && Over(t, s) && Holds(env, t) && Resolved(e, t, binds)
    ensures !Strays(e, p, cs, env, fuel)
    decreases fuel, e, 1
  {
    match e
    case Ident(x) =>
      hide Analysed, FunctionOf;
    case ListLiteral(es) => AllStayKnown(es, p, cs, env, s, t, binds, fuel);
    case Block(es) => AllStayKnown(es, p, cs, env, s, t, binds, fuel);
    case Call(_, _) => CallerStaysKnown(e, p, cs, env, s, t, binds, fuel);
    case Pipe(_, _) => PipeStaysKnown(e, p, cs, env, s, t, binds, fuel);
    case If(_, _, _) => IfStaysKnown(e, p, cs, env, s, t, binds, fuel);
    case While(_, _) => WhileStaysKnown(e, p, cs, env, s, t, binds, fuel);
    case Match(_, _) => MatchStaysKnown(e, p, cs, env, s, t, binds, fuel);
    case Paren(inner) => RunStaysKnown(inner, p, cs, env, s, t, binds, fuel);
    case Async(inner) => RunStaysKnown(inner, p, cs, env, s, t, binds, fuel);
    case Await(inner) => RunStaysKnown(inner, p, cs, env, s, t, binds, fuel);
    case Effect(inner) => RunStaysKnown(inner, p, cs, env, s, t, binds, fuel);
    case _ =>
  }

  lemma {:induction false} CallerStaysKnown(e: Expr, p: Program, cs: set<string>, env: Env, s: Scope, t: Scope, binds: Typing, fuel: nat)
    requires e.Call? && Analysed(p, s, binds) && Known(p, s, cs) && Over(t, s) && Holds(env, t) && Resolved(e, t, binds)
    ensures !Strays(e, p, cs, env, fuel)
    decreases fuel, e, 0
  {
    hide Analysed, Known, Over, Holds, Exec, ExecArgs, CalleeMask, CallStrays;
    ArgsStayKnown(e.args, p, cs, env, s, t, binds, fuel);
    var all := ExecArgs(e.args, p, env, fuel).values;
    if all.Some? && fuel > 0 { CallStaysKnown(e.callee, all.value, p, cs, s, t, binds, fuel - 1); }
  }

  lemma {:induction false} PipeStaysKnown(e: Expr, p: Program, cs: set<string>, env: Env, s: Scope, t: Scope, binds: Typing, fuel: nat)
    requires e.Pipe? && Analysed(p, s, binds) && Known(p, s, cs) && Over(t, s) && Holds(env, t) && Resolved(e, t, binds)
    ensures !Strays(e, p, cs, env, fuel)
    decreases fuel, e, 0
  {
    hide Analysed, Known, Over, Holds, Exec;
    RunStaysKnown(e.target, p, cs, env, s, t, binds, fuel);
    var first := Exec(e.target, p, env, fuel);
    if first.value.Some? { StagesStayKnown(first.value.value, e.stages, p, cs, env, s, t, binds, fuel); }
  }

  lemma {:induction false} IfStaysKnown(e: Expr, p: Program, cs: set<string>, env: Env, s: Scope, t: Scope, binds: Typing, fuel: nat)
    requires e.If? && Analysed(p, s, binds) && Known(p, s, cs) && Over(t, s) && Holds(env, t) && Resolved(e, t, binds)
    ensures !Strays(e, p, cs, env, fuel)
    decreases fuel, e, 0
  {
    hide Analysed, Known, Over, Holds, Exec;
    RunStaysKnown(e.cond, p, cs, env, s, t, binds, fuel);
    RunStaysKnown(e.thenBranch, p, cs, env, s, t, binds, fuel);
    if e.elseBranch.Some? { RunStaysKnown(e.elseBranch.value, p, cs, env, s, t, binds, fuel); }
  }

  lemma {:induction false} WhileStaysKnown(e: Expr, p: Program, cs: set<string>, env: Env, s: Scope, t: Scope, binds: Typing, fuel: nat)
    requires e.While? && Analysed(p, s, binds) && Known(p, s, cs) && Over(t, s) && Holds(env, t) && Resolved(e, t, binds)
    ensures !Strays(e, p, cs, env, fuel)
    decreases fuel, e, 0
  {
    hide Analysed, Known, Over, Holds, Exec;
    RunStaysKnown(e.cond, p, cs, env, s, t, binds, fuel);
    RunStaysKnown(e.body, p, cs, env, s, t, binds, fuel);
    if fuel > 0 { WhileStaysKnown(e, p, cs, env, s, t, binds, fuel - 1); }
  }

  lemma {:induction false} MatchStaysKnown(e: Expr, p: Program, cs: set<string>, env: Env, s: Scope, t: Scope, binds: Typing, fuel: nat)
    requires e.Match? && Analysed(p, s, binds) && Known(p, s, cs) && Over(t, s) && Holds(env, t) && Resolved(e, t, binds)
    ensures !Strays(e, p, cs, env, fuel)
    decreases fuel, e, 0
  {
    hide Analysed, Known, Over, Holds, Exec;
    RunStaysKnown(e.scrutinee, p, cs, env, s, t, binds, fuel);
    var v := Exec(e.scrutinee, p, env, fuel).value;
    if v.Some? && v.value.VariantV? { ArmsStayKnown(e.arms, v.value.tag, v.value.payload, p, cs, env, s, t, binds, fuel); }
  }

  lemma {:induction false} AllStayKnown(es: seq<Expr>, p: Program, cs: set<string>, env: Env, s: Scope, t: Scope, binds: Typing, fuel: nat)
    requires Analysed(p, s, binds) && Known(p, s, cs) && Over(t, s) && Holds(env, t) && AllResolved(es, t, binds)
    ensures !AllStray(es, p, cs, env, fuel)
    decreases fuel, es, 0
  {
    hide Analysed, Known, Over, Holds, Exec, Strays, Resolved;
    if es != [] {
      RunStaysKnown(es[0], p, cs, env, s, t, binds, fuel);
      AllStayKnown(es[1..], p, cs, env, s, t, binds, fuel);
    }
  }

  lemma {:induction false} ArgsStayKnown(args: seq<Arg>, p: Program, cs: set<string>, env: Env, s: Scope, t: Scope, binds: Typing, fuel: nat)
    requires Analysed(p, s, binds) && Known(p, s, cs) && Over(t, s) && Holds(env, t) && ArgsResolved(args, t, binds)
    ensures !ArgsStray(args, p, cs, env, fuel)
    decreases fuel, args, 0
  {
    hide Analysed, Known, Over, Holds, Exec, Strays, Resolved;
    if args != [] {
      assert args[0].value < args[0];
      RunStaysKnown(args[0].value, p, cs, env, s, t, binds, fuel);
      ArgsStayKnown(args[1..], p, cs, env, s, t, binds, fuel);
    }
  }

  lemma {:induction false} StagesStayKnown(v: Value, stages: seq<Expr>, p: Program, cs: set<string>, env: Env,
                                               s: Scope, t: Scope, binds: Typing, fuel: nat)
    requires Analysed(p, s, binds) && Known(p, s, cs) && Over(t, s) && Holds(env, t) && StagesResolved(stages, t, binds)
    ensures !StagesStray(v, stages, p, cs, env, fuel)
    decreases fuel, stages, 0
  {
    hide Analysed, Known, Over, Holds, ExecStage, StageStrays, StageResolved;
    if stages != [] {
      StageStaysKnown(v, stages[0], p, cs, env, s, t, binds, fuel);
      var first := ExecStage(v, stages[0], p, env, fuel);
      if first.value.Some? { StagesStayKnown(first.value.value, stages[1..], p, cs, env, s, t, binds, fuel); }
    }
  }

  lemma {:induction false} StageStaysKnown(v: Value, stage: Expr, p: Program, cs: set<string>, env: Env,
                                               s: Scope, t: Scope, binds: Typing, fuel: nat)
    requires Analysed(p, s, binds) && Known(p, s, cs) && Over(t, s) && Holds(env, t) && StageResolved(stage, t, binds)
    ensures !StageStrays(v, stage, p, cs, env, fuel)
    decreases fuel, stage, 1
  {
    hide Analysed, Known, Over, Holds, CalleeMask, CallStrays, ExecArgs;
    var callee := if stage.Call? then stage.callee else stage;
    if stage.Call? { ArgsStayKnown(stage.args, p, cs, env, s, t, binds, fuel); }
    var all := if stage.Call? then ExecArgs(stage.args, p, env, fuel) else RanAll(Some([]), NONE);
    if all.values.Some? && fuel > 0 { CallStaysKnown(callee, [v] + all.values.value, p, cs, s, t, binds, fuel - 1); }
  }

  lemma {:induction false} ArmsStayKnown(arms: seq<Arm>, tag: string, payload: seq<Value>, p: Program, cs: set<string>, env: Env,
                                             s: Scope, t: Scope, binds: Typing, fuel: nat)
    requires Analysed(p, s, binds) && Known(p, s, cs) && Over(t, s) && Holds(env, t) && ArmsResolved(arms, t, binds)
    ensures !ArmsStray(arms, tag, payload, p, cs, env, fuel)
    decreases fuel, arms, 0
  {
    hide Analysed, Known, Strays, Resolved;
    if arms != [] {
      if arms[0].name == tag {
        var names := Names(arms[0].bindings);
        var inner := Bind(env, names, payload);
        if inner.Some? {
          OverBound(t, s, names);
          ArmHolds(env, t, arms[0], payload, binds);
          RunStaysKnown(arms[0].body, p, cs, inner.value, s, ArmScope(t, arms[0], binds), binds, fuel);
        }
      } else {
        ArmsStayKnown(arms[1..], tag, payload, p, cs, env, s, t, binds, fuel);
      }
    }
  }

  lemma ArmHolds(env: Env, t: Scope, arm: Arm, payload: seq<Value>, binds: Typing)
    requires Holds(env, t) && Bind(env, Names(arm.bindings), payload).Some?
    ensures Holds(Bind(env, Names(arm.bindings), payload).value, ArmScope(t, arm, binds))
  {
    var names := Names(arm.bindings);
    if names != [] { HoldsBound(env, t, names, payload); }
  }

  /** In a program without diagnostics no call of any of its functions, cut off anywhere, comes upon a name
      that stands for nothing or calls what cannot be called. */
  lemma CleanProgramsNeverStray(p: Program, constructors: Scope, binds: Typing, f: string, vs: seq<Value>, fuel: nat)
    requires Clean(p.decls, constructors, binds) && FunctionOf(p.decls, f).Some?
    requires forall x :: x in constructors ==> constructors[x].ConstructorEntry?
    requires forall i :: 0 <= i < |p.decls| && p.decls[i].LetDecl? ==> p.decls[i].name in p.globals
    ensures !CallStrays(Ident(f), vs, p, constructors.Keys, fuel)
  {
    var s := Analyze(p.decls, constructors, binds);
    AnalysisSolves(p.decls, constructors, binds);
    ScopeIsKnown(p, constructors, binds);
    FunctionIsCallable(p.decls, s, f);
    hide *;
    assert Over(s, s) by { OverItself(s); }
    assert Analysed(p, s, binds) by { AnalysedIs(p, s, binds); }
    CallStaysKnown(Ident(f), vs, p, constructors.Keys, s, s, binds, fuel);
  }

  lemma OverItself(s: Scope)
    ensures Over(s, s)
  {
  }

  lemma AnalysedIs(p: Program, s: Scope, binds: Typing)
    ensures Solves(p.decls, s, binds) && AllDeclsResolved(p.decls, s, binds) ==> Analysed(p, s, binds)
  {
  }

  lemma FunctionIsCallable(decls: seq<Decl>, s: Scope, f: string)
    requires (forall i :: 0 <= i < |decls| ==> KindOf(decls[i], s)) && FunctionOf(decls, f).Some?
    ensures CalleeMask(Ident(f), s).Some?
  {
    hide FunctionOf;
    var d := FunctionOf(decls, f).value;
    var i :| 0 <= i < |decls| && decls[i] == d;
    assert KindOf(decls[i], s);
  }

  lemma ScopeIsKnown(p: Program, constructors: Scope, binds: Typing)
    requires Clean(p.decls, constructors, binds)
    requires forall x :: x in constructors ==> constructors[x].ConstructorEntry?
    requires forall i :: 0 <= i < |p.decls| && p.decls[i].LetDecl? ==> p.decls[i].name in p.globals
    ensures var s := Analyze(p.decls, constructors, binds);
      Known(p, s, constructors.Keys) && forall i :: 0 <= i < |p.decls| ==> KindOf(p.decls[i], s)
  {
    var s := Analyze(p.decls, constructors, binds);
    ScopeOfDecls(p.decls, constructors, binds);
    hide Clean, Analyze, FunctionOf;
    forall x | x in s && x !in constructors
      ensures if s[x].ValueEntry? then x in p.globals else FunctionOf(p.decls, x).Some?
    {
      NameIsDeclared(p.decls, x);
      var i :| 0 <= i < |p.decls| && p.decls[i].name == x;
      assert KindOf(p.decls[i], s);
      if p.decls[i].FunDecl? { FunctionIsFound(p.decls, i); }
    }
  }

  lemma {:induction false} NameIsDeclared(decls: seq<Decl>, x: string)
    requires x in DeclNames(decls)
    ensures exists i :: 0 <= i < |decls| && decls[i].name == x
  {
    if decls[0].name != x {
      NameIsDeclared(decls[1..], x);
      var i :| 0 <= i < |decls[1..]| && decls[1..][i].name == x;
      assert decls[i + 1].name == x;
    }
  }

  lemma {:induction false} FunctionIsFound(decls: seq<Decl>, i: nat)
    requires i < |decls| && decls[i].FunDecl?
    ensures FunctionOf(decls, decls[i].name).Some?
  {
    if i > 0 { FunctionIsFound(decls[1..], i - 1); }
  }
}
