/** What the stored masks mean without any equation: a function's mask has a bit exactly when its
    body, or something it leads to through calls and global names, contains the construct. */
module EffectReachability {
  import opened Syntax
  import opened EffectAnalysis
  import opened EffectSolutions

  datatype Bit = AsyncBit | ImpureBit

  predicate Has(mask: Mask, b: Bit) {
    if b.AsyncBit? then mask.isAsync else mask.impure
  }

  datatype Use = Calls(name: string) | Reads(name: string)

  // ----- what an expression contains, and what it uses -----

  /** An `async` or a `!` in `e`, not inside a lambda. */
  predicate Contains(e: Expr, b: Bit)
    decreases e, 0
  {
    match e
    case ListLiteral(es) => SomeContains(es, b)
    case Call(_, args) => ArgsContain(args, b)
    case Pipe(target, stages) => Contains(target, b) || StagesContain(stages, b)
    case If(c, t, f) => Contains(c, b) || Contains(t, b) || (f.Some? && Contains(f.value, b))
    case While(c, body) => Contains(c, b) || Contains(body, b)
    case Block(es) => SomeContains(es, b)
    case Paren(inner) => Contains(inner, b)
    case Match(s, arms) => Contains(s, b) || ArmsContain(arms, b)
    case Async(inner) => b.AsyncBit? || Contains(inner, b)
    case Await(inner) => Contains(inner, b)
    case Effect(inner) => b.ImpureBit? || Contains(inner, b)
    case _ => false
  }

  predicate SomeContains(es: seq<Expr>, b: Bit)
    decreases es, 0
  {
    es != [] && (Contains(es[0], b) || SomeContains(es[1..], b))
  }

  predicate ArgsContain(args: seq<Arg>, b: Bit)
    decreases args, 0
  {
    args != [] && (assert args[0].value < args[0]; Contains(args[0].value, b) || ArgsContain(args[1..], b))
  }

  predicate ArmsContain(arms: seq<Arm>, b: Bit)
    decreases arms, 0
  {
    arms != [] && (Contains(arms[0].body, b) || ArmsContain(arms[1..], b))
  }

  predicate StagesContain(stages: seq<Expr>, b: Bit)
    decreases stages, 0
  {
    stages != [] && ((stages[0].Call? && ArgsContain(stages[0].args, b)) || StagesContain(stages[1..], b))
  }

  /** The names `e` calls and reads, not inside a lambda and not bound inside `e`. */
  function Uses(e: Expr, binds: Typing): set<Use>
    decreases e, 0
  {
    match e
    case Ident(x) => {Reads(x)}
    case ListLiteral(es) => AllUses(es, binds)
    case Call(callee, args) => CalleeUse(callee) + ArgsUses(args, binds)
    case Pipe(target, stages) => Uses(target, binds) + StagesUses(stages, binds)
    case If(c, t, f) => Uses(c, binds) + Uses(t, binds) + if f.Some? then Uses(f.value, binds) else {}
    case While(c, body) => Uses(c, binds) + Uses(body, binds)
    case Block(es) => AllUses(es, binds)
    case Paren(inner) => Uses(inner, binds)
    case Match(s, arms) => Uses(s, binds) + ArmsUses(arms, binds)
    case Async(inner) => Uses(inner, binds)
    case Await(inner) => Uses(inner, binds)
    case Effect(inner) => Uses(inner, binds)
    case _ => {}
  }

  function CalleeUse(callee: Expr): set<Use> {
    var f := Stripped(callee);
    if f.Ident? then {Calls(f.name)} else {}
  }

  function AllUses(es: seq<Expr>, binds: Typing): set<Use>
    decreases es, 0
  {
    if es == [] then {} else Uses(es[0], binds) + AllUses(es[1..], binds)
  }

  function ArgsUses(args: seq<Arg>, binds: Typing): set<Use>
    decreases args, 0
  {
    if args == [] then {}
    else
      assert args[0].value < args[0];
      Uses(args[0].value, binds) + ArgsUses(args[1..], binds)
  }

  function ArmsUses(arms: seq<Arm>, binds: Typing): set<Use>
    decreases arms, 0
  {
    if arms == [] then {}
    else
      var body := Uses(arms[0].body, binds);
      (if binds(arms[0]) then Unbound(body, Names(arms[0].bindings)) else body) + ArmsUses(arms[1..], binds)
  }

  function StagesUses(stages: seq<Expr>, binds: Typing): set<Use>
    decreases stages, 0
  {
    if stages == [] then {} else StageUses(stages[0], binds) + StagesUses(stages[1..], binds)
  }

  function StageUses(stage: Expr, binds: Typing): set<Use>
    decreases stage, 1
  {
    if stage.Call? then CalleeUse(stage.callee) + ArgsUses(stage.args, binds) else CalleeUse(stage)
  }

  function Unbound(uses: set<Use>, names: seq<string>): set<Use> {
    set u | u in uses && u.name !in names
  }

  // ----- effects are what is contained and what is used -----

  function UseMask(u: Use, scope: Scope): Mask {
    if u.Reads? then NameMask(u.name, scope)
    else if u.name in scope && scope[u.name].FunctionEntry? then scope[u.name].mask
    else NONE
  }

  ghost predicate SomeUseHas(uses: set<Use>, scope: Scope, b: Bit) {
    exists u :: u in uses && Has(UseMask(u, scope), b)
  }

  lemma BoundUses(uses: set<Use>, scope: Scope, names: seq<string>, b: Bit)
    ensures SomeUseHas(uses, Bound(scope, names), b) <==> SomeUseHas(Unbound(uses, names), scope, b)
  {
    var inner := Bound(scope, names);
    forall u | u in uses ensures Has(UseMask(u, inner), b) <==> u.name !in names && Has(UseMask(u, scope), b) {
      if u.name in names { assert inner[u.name] == ValueEntry(NONE); }
    }
    if SomeUseHas(uses, inner, b) {
      var u :| u in uses && Has(UseMask(u, inner), b);
      assert u in Unbound(uses, names);
    }
  }

  lemma {:induction false} StrippedEffects(e: Expr, scope: Scope, binds: Typing)
    ensures Effects(e, scope, binds) == Effects(Stripped(e), scope, binds)
  {
    if e.Paren? { StrippedEffects(e.inner, scope, binds); }
  }

  lemma CalleeExplained(callee: Expr, scope: Scope, binds: Typing, b: Bit)
    requires CalleeMask(callee, scope).Some?
    ensures !Has(Effects(callee, scope, binds), b)
    ensures Has(CalleeMask(callee, scope).value, b) <==> SomeUseHas(CalleeUse(callee), scope, b)
  {
    StrippedEffects(callee, scope, binds);
    assert Calls(Stripped(callee).name) in CalleeUse(callee);
  }

  lemma {:induction false} EffectsExplained(e: Expr, scope: Scope, binds: Typing, b: Bit)
    requires Resolved(e, scope, binds)
    ensures Has(Effects(e, scope, binds), b) <==> Contains(e, b) || SomeUseHas(Uses(e, binds), scope, b)
    decreases e, 2
  {
    hide CalleeMask, CalleeArity, CalleeUse, UseMask;
    match e
    case ListLiteral(es) => AllExplained(es, scope, binds, b);
    case Ident(x) => IdentExplained(x, scope, b);
    case Call(callee, args) =>
      CalleeExplained(callee, scope, binds, b);
      ArgsExplained(args, scope, binds, b);
    case Pipe(target, stages) =>
      EffectsExplained(target, scope, binds, b);
      StagesExplained(stages, scope, binds, b);
    case If(_, _, _) => IfExplained(e, scope, binds, b);
    case While(c, body) =>
      EffectsExplained(c, scope, binds, b);
      EffectsExplained(body, scope, binds, b);
    case Block(es) => AllExplained(es, scope, binds, b);
    case Match(s, arms) =>
      EffectsExplained(s, scope, binds, b);
      ArmsExplained(arms, scope, binds, b);
    case Paren(inner) => EffectsExplained(inner, scope, binds, b);
    case Async(inner) => EffectsExplained(inner, scope, binds, b);
    case Await(inner) => EffectsExplained(inner, scope, binds, b);
    case Effect(inner) => EffectsExplained(inner, scope, binds, b);
    case _ =>
  }

  lemma IdentExplained(x: string, scope: Scope, b: Bit)
    ensures Has(NameMask(x, scope), b) <==> SomeUseHas({Reads(x)}, scope, b)
  {
    assert Reads(x) in {Reads(x)};
  }

  lemma {:induction false} IfExplained(e: Expr, scope: Scope, binds: Typing, b: Bit)
    requires e.If? && Resolved(e, scope, binds)
    ensures Has(Effects(e, scope, binds), b) <==> Contains(e, b) || SomeUseHas(Uses(e, binds), scope, b)
    decreases e, 1
  {
    hide UseMask;
    EffectsExplained(e.cond, scope, binds, b);
    EffectsExplained(e.thenBranch, scope, binds, b);
    if e.elseBranch.Some? { EffectsExplained(e.elseBranch.value, scope, binds, b); }
  }

  lemma {:induction false} AllExplained(es: seq<Expr>, scope: Scope, binds: Typing, b: Bit)
    requires AllResolved(es, scope, binds)
    ensures Has(EffectsAll(es, scope, binds), b) <==> SomeContains(es, b) || SomeUseHas(AllUses(es, binds), scope, b)
    decreases es, 0
  {
    hide UseMask;
    if es != [] {
      EffectsExplained(es[0], scope, binds, b);
      AllExplained(es[1..], scope, binds, b);
    }
  }

  lemma {:induction false} ArgsExplained(args: seq<Arg>, scope: Scope, binds: Typing, b: Bit)
    requires ArgsResolved(args, scope, binds)
    ensures Has(EffectsArgs(args, scope, binds), b) <==> ArgsContain(args, b) || SomeUseHas(ArgsUses(args, binds), scope, b)
    decreases args, 0
  {
    hide UseMask;
    if args != [] {
      assert args[0].value < args[0];
      EffectsExplained(args[0].value, scope, binds, b);
      ArgsExplained(args[1..], scope, binds, b);
    }
  }

  lemma {:induction false} ArmsExplained(arms: seq<Arm>, scope: Scope, binds: Typing, b: Bit)
    requires ArmsResolved(arms, scope, binds)
    ensures Has(EffectsArms(arms, scope, binds), b) <==> ArmsContain(arms, b) || SomeUseHas(ArmsUses(arms, binds), scope, b)
    decreases arms, 0
  {
    hide UseMask;
    if arms != [] {
      EffectsExplained(arms[0].body, ArmScope(scope, arms[0], binds), binds, b);
      BoundUses(Uses(arms[0].body, binds), scope, Names(arms[0].bindings), b);
      ArmsExplained(arms[1..], scope, binds, b);
    }
  }

  lemma {:induction false} StagesExplained(stages: seq<Expr>, scope: Scope, binds: Typing, b: Bit)
    requires StagesResolved(stages, scope, binds)
    ensures Has(EffectsStages(stages, scope, binds), b) <==> StagesContain(stages, b) || SomeUseHas(StagesUses(stages, binds), scope, b)
    decreases stages, 0
  {
    hide UseMask, CalleeMask, CalleeArity, CalleeUse;
    if stages != [] {
      var stage := stages[0];
      CalleeExplained(if stage.Call? then stage.callee else stage, scope, binds, b);
      if stage.Call? { ArgsExplained(stage.args, scope, binds, b); }
      StagesExplained(stages[1..], scope, binds, b);
    }
  }

  // ----- reachability between declarations -----

  function BodyOf(d: Decl): Expr {
    if d.FunDecl? then d.body else d.value
  }

  function DeclUses(d: Decl, binds: Typing): set<Use> {
    if d.FunDecl? then Unbound(Uses(d.body, binds), Names(d.params)) else Uses(d.value, binds)
  }

  /** Calling is for functions, reading for values. */
  predicate Leads(u: Use, d: Decl) {
    u.name == d.name && (u.Calls? <==> d.FunDecl?)
  }

  /** Declaration `i` leads to the construct in at most `n` steps. */
  ghost predicate Reaches(decls: seq<Decl>, i: nat, b: Bit, binds: Typing, n: nat)
    decreases n
  {
    i < |decls|
    && (Contains(BodyOf(decls[i]), b)
        || (n > 0 && exists u, j: nat :: u in DeclUses(decls[i], binds) && j < |decls| && Leads(u, decls[j])
                                        && Reaches(decls, j, b, binds, n - 1)))
  }

  ghost predicate ReachesSome(decls: seq<Decl>, i: nat, b: Bit, binds: Typing) {
    exists n: nat :: Reaches(decls, i, b, binds, n)
  }

  lemma DemandExplained(d: Decl, s: Scope, binds: Typing, b: Bit)
    requires DeclResolved(d, s, binds)
    ensures Has(Demanded(d, s, binds), b) <==> Contains(BodyOf(d), b) || SomeUseHas(DeclUses(d, binds), s, b)
  {
    if d.FunDecl? {
      EffectsExplained(d.body, Bound(s, Names(d.params)), binds, b);
      BoundUses(Uses(d.body, binds), s, Names(d.params), b);
    } else {
      EffectsExplained(d.value, s, binds, b);
    }
  }

  /** What is reached is in the mask. */
  lemma {:induction false} ReachedIsInMask(decls: seq<Decl>, s: Scope, i: nat, b: Bit, binds: Typing, n: nat)
    requires Solves(decls, s, binds) && AllDeclsResolved(decls, s, binds) && Reaches(decls, i, b, binds, n)
    ensures decls[i].name in s && Has(EntryMask(s[decls[i].name]), b)
    decreases n
  {
    hide Contains, DeclUses, Demanded, DeclResolved;
    assert KindOf(decls[i], s) && DeclResolved(decls[i], s, binds);
    DemandExplained(decls[i], s, binds, b);
    if !Contains(BodyOf(decls[i]), b) {
      var u, j: nat :| u in DeclUses(decls[i], binds) && j < |decls| && Leads(u, decls[j]) && Reaches(decls, j, b, binds, n - 1);
      ReachedIsInMask(decls, s, j, b, binds, n - 1);
      assert KindOf(decls[j], s);
      assert Has(UseMask(u, s), b);
    }
  }

  lemma {:induction false} NamesAreNew(decls: seq<Decl>, scope: Scope, binds: Typing)
    requires Clean(decls, scope, binds)
    ensures forall i :: 0 <= i < |decls| ==> decls[i].name !in scope
    ensures forall i, j :: 0 <= i < j < |decls| ==> decls[i].name != decls[j].name
    ensures Analyze(decls, scope, binds).Keys == scope.Keys + set i | 0 <= i < |decls| :: decls[i].name
    decreases decls
  {
    if decls != [] {
      var rest := decls[1..];
      NamesAreNew(rest, After(decls[0], scope, binds), binds);
      assert forall i :: 0 < i < |decls| ==> decls[i] == rest[i - 1];
      assert forall i :: 0 <= i < |rest| ==> rest[i] == decls[i + 1];
    }
  }

  /** The scope whose masks are what is reached. */
  ghost function ReachedScope(decls: seq<Decl>, s: Scope, binds: Typing): Scope {
    map x | x in s :: ReachedEntry(decls, s[x], x, binds)
  }

  ghost function ReachedMask(decls: seq<Decl>, x: string, binds: Typing): Mask {
    Mask(exists i: nat :: i < |decls| && decls[i].name == x && ReachesSome(decls, i, AsyncBit, binds),
         exists i: nat :: i < |decls| && decls[i].name == x && ReachesSome(decls, i, ImpureBit, binds))
  }

  ghost function ReachedEntry(decls: seq<Decl>, entry: Entry, x: string, binds: Typing): Entry {
    match entry
    case FunctionEntry(arity, _) => FunctionEntry(arity, ReachedMask(decls, x, binds))
    case ConstructorEntry(arity) => entry
    case ValueEntry(_) => ValueEntry(ReachedMask(decls, x, binds))
  }

  /** What a declaration demands of that scope it reaches. */
  lemma DemandIsReached(decls: seq<Decl>, s: Scope, i: nat, b: Bit, binds: Typing)
    requires i < |decls| && AllDeclsResolved(decls, s, binds)
    requires forall k :: 0 <= k < |decls| ==> KindOf(decls[k], s)
    requires Has(Demanded(decls[i], ReachedScope(decls, s, binds), binds), b)
    ensures ReachesSome(decls, i, b, binds)
  {
    hide Contains, DeclUses, Demanded, Effects, Resolved, Bound;
    var d, t := decls[i], ReachedScope(decls, s, binds);
    ReachedIsResolved(decls, s, d, binds);
    DemandExplained(d, t, binds, b);
    if Contains(BodyOf(d), b) {
      assert Reaches(decls, i, b, binds, 0);
    } else {
      var u :| u in DeclUses(d, binds) && Has(UseMask(u, t), b);
      var j: nat :| j < |decls| && decls[j].name == u.name && ReachesSome(decls, j, b, binds);
      assert KindOf(decls[j], s);
      var n: nat :| Reaches(decls, j, b, binds, n);
      assert Leads(u, decls[j]);
      assert Reaches(decls, i, b, binds, n + 1);
    }
  }

  lemma ReachedIsResolved(decls: seq<Decl>, s: Scope, d: Decl, binds: Typing)
    requires DeclResolved(d, s, binds)
    ensures DeclResolved(d, ReachedScope(decls, s, binds), binds)
  {
    var t := ReachedScope(decls, s, binds);
    var any := Mask(true, true);
    assert BoundedBy(s, t, any);
    if d.FunDecl? {
      ArmScopesBounded(s, t, any, Names(d.params));
      EffectsBounded(d.body, Bound(s, Names(d.params)), Bound(t, Names(d.params)), any, binds);
    } else {
      EffectsBounded(d.value, s, t, any, binds);
    }
  }

  /** In a program without diagnostics the mask of a declaration has a bit if and only if the
      declaration leads to that construct in some number of steps. */
  lemma MaskIsReachability(decls: seq<Decl>, constructors: Scope, binds: Typing, i: nat, b: Bit)
    requires Clean(decls, constructors, binds) && i < |decls|
    requires forall x :: x in constructors ==> constructors[x].ConstructorEntry?
    ensures var s := Analyze(decls, constructors, binds);
            decls[i].name in s && (Has(EntryMask(s[decls[i].name]), b) <==> ReachesSome(decls, i, b, binds))
  {
    hide Demanded, DeclResolved, DeclUses, Contains, Clean, Analyze, Reaches;
    var s := Analyze(decls, constructors, binds);
    AnalysisSolves(decls, constructors, binds);
    NamesAreNew(decls, constructors, binds);
    assert KindOf(decls[i], s);
    if ReachesSome(decls, i, b, binds) {
      var n: nat :| Reaches(decls, i, b, binds, n);
      ReachedIsInMask(decls, s, i, b, binds, n);
    }
    var t := ReachedScope(decls, s, binds);
    assert Below(constructors, t);
    forall k | 0 <= k < |decls|
      ensures KindOf(decls[k], t) && Within(Demanded(decls[k], t, binds), EntryMask(t[decls[k].name]))
    {
      assert KindOf(decls[k], s);
      if Has(Demanded(decls[k], t, binds), AsyncBit) { DemandIsReached(decls, s, k, AsyncBit, binds); }
      if Has(Demanded(decls[k], t, binds), ImpureBit) { DemandIsReached(decls, s, k, ImpureBit, binds); }
    }
    AnalysisIsLeast(decls, constructors, t, binds);
    if Has(EntryMask(s[decls[i].name]), b) {
      assert Has(EntryMask(t[decls[i].name]), b);
    }
  }
}
