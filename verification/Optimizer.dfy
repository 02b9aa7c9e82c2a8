/** The optimiser of src/ir.cpp:321-433 as a function on trees: that it terminates, never grows a
    tree, reaches a normal form at every depth and keeps the meaning. OptimizerStore.dfy proves
    that the in-place optimiser computes this function. */
module Optimizer {
  import opened Syntax
  import opened Meaning
  import opened Ir

  function Size(e: IR): (n: nat)
    ensures n > 0
    decreases e, 0
  {
    match e
    case CallIR(_, _, args) => 1 + SizeAll(args)
    case SequenceIR(_, items) => 1 + SizeAll(items)
    case ListIR(_, elements) => 1 + SizeAll(elements)
    case IfIR(_, c, t, f) => 1 + Size(c) + Size(t) + Size(f)
    case WhileIR(_, c, b) => 1 + Size(c) + Size(b)
    case MatchIR(_, s, arms) => 1 + Size(s) + SizeArms(arms)
    case _ => 1
  }

  function SizeAll(es: seq<IR>): nat
    decreases es, 0
  {
    if es == [] then 0 else Size(es[0]) + SizeAll(es[1..])
  }

  function SizeArms(arms: seq<IRArm>): nat
    decreases arms, 0
  {
    if arms == [] then 0 else Size(arms[0].body) + SizeArms(arms[1..])
  }

  /** optimize_ir_expr. A rewritten node is optimised once more, which terminates because every
      rewriting makes the tree smaller. */
  function Optimize(e: IR): (r: IR)
    ensures Size(r) <= Size(e)
    decreases Size(e), 0
  {
    match e
    case CallIR(typ, callee, args) => CallIR(typ, callee, OptimizeAll(args))
    case SequenceIR(typ, items) =>
      var optimized := OptimizeAll(items);
      if |optimized| == 0 then UnitIR(typ)
      else if |optimized| == 1 then Optimize(optimized[0])
      else SequenceIR(typ, optimized)
    case ListIR(typ, elements) => ListIR(typ, OptimizeAll(elements))
    case IfIR(typ, c, t, f) =>
      var cond, thenBranch, elseBranch := Optimize(c), Optimize(t), Optimize(f);
      if cond.BoolIR? then Optimize(if cond.value then thenBranch else elseBranch)
      else IfIR(typ, cond, thenBranch, elseBranch)
    case WhileIR(typ, c, b) =>
      var cond, body := Optimize(c), Optimize(b);
      if cond.BoolIR? && !cond.value then UnitIR(typ) else WhileIR(typ, cond, body)
    case MatchIR(typ, s, arms) =>
      var scrutinee, optimized := Optimize(s), OptimizeArms(arms);
      if Collapsible(optimized) then Optimize(optimized[0].body) else MatchIR(typ, scrutinee, optimized)
    case _ => e
  }

  function OptimizeAll(es: seq<IR>): (r: seq<IR>)
    ensures |r| == |es| && SizeAll(r) <= SizeAll(es)
    ensures |es| == 1 ==> Size(r[0]) <= Size(es[0]) == SizeAll(es)
    decreases SizeAll(es), 1
  {
    if es == [] then [] else [Optimize(es[0])] + OptimizeAll(es[1..])
  }

  function OptimizeArms(arms: seq<IRArm>): (r: seq<IRArm>)
    ensures |r| == |arms| && SizeArms(r) <= SizeArms(arms)
    ensures |arms| == 1 ==> Size(r[0].body) <= Size(arms[0].body) == SizeArms(arms)
    decreases SizeArms(arms), 1
  {
    if arms == [] then []
    else [arms[0].(body := Optimize(arms[0].body))] + OptimizeArms(arms[1..])
  }

  // ----- the normal form -----

  /** At no depth is there a sequence of fewer than two items, an `if` whose condition is a
      constant, a `while false`, or a collapsible match. */
  predicate Normal(e: IR)
    decreases e, 0
  {
    match e
    case CallIR(_, _, args) => AllNormal(args)
    case SequenceIR(_, items) => |items| >= 2 && AllNormal(items)
    case ListIR(_, elements) => AllNormal(elements)
    case IfIR(_, c, t, f) => !c.BoolIR? && Normal(c) && Normal(t) && Normal(f)
    case WhileIR(_, c, b) => !(c.BoolIR? && !c.value) && Normal(c) && Normal(b)
    case MatchIR(_, s, arms) => !Collapsible(arms) && Normal(s) && ArmsNormal(arms)
    case _ => true
  }

  predicate AllNormal(es: seq<IR>)
    decreases es, 0
  {
    es == [] || (Normal(es[0]) && AllNormal(es[1..]))
  }

  predicate ArmsNormal(arms: seq<IRArm>)
    decreases arms, 0
  {
    arms == [] || (Normal(arms[0].body) && ArmsNormal(arms[1..]))
  }

  lemma {:induction false} NormalIsFixed(e: IR)
    requires Normal(e)
    ensures Optimize(e) == e
    decreases e, 1
  {
    match e
    case CallIR(_, _, args) => AllNormalFixed(args);
    case SequenceIR(_, items) => AllNormalFixed(items);
    case ListIR(_, elements) => AllNormalFixed(elements);
    case IfIR(_, c, t, f) =>
      NormalIsFixed(c);
      NormalIsFixed(t);
      NormalIsFixed(f);
    case WhileIR(_, c, b) =>
      NormalIsFixed(c);
      NormalIsFixed(b);
    case MatchIR(_, s, arms) =>
      NormalIsFixed(s);
      ArmsNormalFixed(arms);
    case _ =>
  }

  lemma {:induction false} AllNormalFixed(es: seq<IR>)
    requires AllNormal(es)
    ensures OptimizeAll(es) == es
    decreases es, 0
  {
    if es != [] {
      NormalIsFixed(es[0]);
      AllNormalFixed(es[1..]);
    }
  }

  lemma {:induction false} ArmsNormalFixed(arms: seq<IRArm>)
    requires ArmsNormal(arms)
    ensures OptimizeArms(arms) == arms
    decreases arms, 0
  {
    if arms != [] {
      NormalIsFixed(arms[0].body);
      ArmsNormalFixed(arms[1..]);
    }
  }

  /** Optimising reaches the normal form everywhere, so a second pass changes nothing. */
  lemma {:induction false} OptimizeNormalizes(e: IR)
    ensures Normal(Optimize(e)) && Optimize(Optimize(e)) == Optimize(e)
    decreases Size(e), 1
  {
    match e {
    case CallIR(_, _, args) => AllNormalize(args);
    case SequenceIR(_, items) =>
      AllNormalize(items);
      if |items| == 1 {
        OptimizeNormalizes(items[0]);
      }
    case ListIR(_, elements) => AllNormalize(elements);
    case IfIR(_, c, t, f) =>
      OptimizeNormalizes(c);
      OptimizeNormalizes(t);
      OptimizeNormalizes(f);
    case WhileIR(_, c, b) =>
      OptimizeNormalizes(c);
      OptimizeNormalizes(b);
    case MatchIR(_, s, arms) =>
      OptimizeNormalizes(s);
      ArmsNormalize(arms);
      if |arms| == 1 {
        OptimizeNormalizes(arms[0].body);
      }
    case _ =>
    }
    NormalIsFixed(Optimize(e));
  }

  lemma {:induction false} AllNormalize(es: seq<IR>)
    ensures AllNormal(OptimizeAll(es))
    decreases SizeAll(es), 2
  {
    if es != [] {
      OptimizeNormalizes(es[0]);
      AllNormalize(es[1..]);
      assert OptimizeAll(es)[1..] == OptimizeAll(es[1..]);
    }
  }

  lemma {:induction false} ArmsNormalize(arms: seq<IRArm>)
    ensures ArmsNormal(OptimizeArms(arms))
    decreases SizeArms(arms), 2
  {
    if arms != [] {
      OptimizeNormalizes(arms[0].body);
      ArmsNormalize(arms[1..]);
      assert OptimizeArms(arms)[1..] == OptimizeArms(arms[1..]);
    }
  }

  // ----- the meaning -----

  /** Strict evaluation that is not Unsafe is ordinary evaluation. */
  lemma {:induction false} StrictIsOrdinary(e: IR, oracle: Oracle, env: Env, h: History, fuel: nat)
    requires Eval(e, oracle, env, h, fuel, true) != Unsafe
    ensures Eval(e, oracle, env, h, fuel, true) == Run(e, oracle, env, h, fuel)
    decreases fuel, e, 1
  {
    match e
    case CallIR(_, _, args) => AllStrict(args, oracle, env, h, fuel);
    case SequenceIR(_, items) => AllStrict(items, oracle, env, h, fuel);
    case ListIR(_, elements) => AllStrict(elements, oracle, env, h, fuel);
    case IfIR(_, c, t, f) =>
      StrictIsOrdinary(c, oracle, env, h, fuel);
      var o := Run(c, oracle, env, h, fuel);
      if o.Done? && o.value.BoolV? {
        StrictIsOrdinary(if o.value.value then t else f, oracle, env, o.history, fuel);
      }
    case WhileIR(_, c, b) =>
      StrictIsOrdinary(c, oracle, env, h, fuel);
      var o := Run(c, oracle, env, h, fuel);
      if o.Done? && o.value == BoolV(true) && fuel > 0 {
        StrictIsOrdinary(b, oracle, env, o.history, fuel);
        var turned := Run(b, oracle, env, o.history, fuel);
        if turned.Done? {
          StrictIsOrdinary(e, oracle, env, turned.history, fuel - 1);
        }
      }
    case MatchIR(_, s, arms) =>
      StrictIsOrdinary(s, oracle, env, h, fuel);
      var o := Run(s, oracle, env, h, fuel);
      if o.Done? && o.value.VariantV? {
        ArmsStrict(arms, o.value.tag, o.value.payload, oracle, env, o.history, fuel);
      }
    case _ =>
  }

  lemma {:induction false} AllStrict(es: seq<IR>, oracle: Oracle, env: Env, h: History, fuel: nat)
    requires EvalAll(es, oracle, env, h, fuel, true) != Stopped(Unsafe)
    ensures EvalAll(es, oracle, env, h, fuel, true) == EvalAll(es, oracle, env, h, fuel, false)
    decreases fuel, es, 0
  {
    if es != [] {
      StrictIsOrdinary(es[0], oracle, env, h, fuel);
      var first := Run(es[0], oracle, env, h, fuel);
      if first.Done? {
        AllStrict(es[1..], oracle, env, first.history, fuel);
      }
    }
  }

  lemma {:induction false} ArmsStrict(arms: seq<IRArm>, tag: string, payload: seq<Value>, oracle: Oracle, env: Env, h: History, fuel: nat)
    requires EvalIRArms(arms, tag, payload, oracle, env, h, fuel, true) != Unsafe
    ensures EvalIRArms(arms, tag, payload, oracle, env, h, fuel, true) == EvalIRArms(arms, tag, payload, oracle, env, h, fuel, false)
    decreases fuel, arms, 0
  {
    if arms != [] {
      if arms[0].ctor == tag {
        var inner := Bind(env, arms[0].bindings, payload);
        if inner.Some? {
          StrictIsOrdinary(arms[0].body, oracle, inner.value, h, fuel);
        }
      } else {
        ArmsStrict(arms[1..], tag, payload, oracle, env, h, fuel);
      }
    }
  }

  /** Optimising an already optimised tree changes nothing, so each rule is one rewriting. */
  lemma OptimizeRules(e: IR)
    ensures e.SequenceIR? && |e.items| == 1 ==> Optimize(e) == Optimize(e.items[0])
    ensures e.IfIR? && Optimize(e.cond).BoolIR? ==>
      Optimize(e) == if Optimize(e.cond).value then Optimize(e.thenBranch) else Optimize(e.elseBranch)
    ensures e.MatchIR? && Collapsible(e.arms) ==> Optimize(e) == Optimize(e.arms[0].body)
  {
    if e.SequenceIR? && |e.items| == 1 {
      OptimizeNormalizes(e.items[0]);
    } else if e.IfIR? {
      OptimizeNormalizes(e.thenBranch);
      OptimizeNormalizes(e.elseBranch);
    } else if e.MatchIR? && Collapsible(e.arms) {
      OptimizeNormalizes(e.arms[0].body);
      assert OptimizeArms(e.arms)[0].body == Optimize(e.arms[0].body);
    }
  }

  /** Wherever strict evaluation does not report Unsafe, that is, wherever each collapsible match
      that is reached has a scrutinee that makes no call, terminates and selects the arm, the
      optimised tree has the same value, the same history of calls and the same divergence. */
  lemma {:induction false} OptimizeKeepsMeaning(e: IR, oracle: Oracle, env: Env, h: History, fuel: nat)
    requires Eval(e, oracle, env, h, fuel, true) != Unsafe
    ensures Run(Optimize(e), oracle, env, h, fuel) == Run(e, oracle, env, h, fuel)
    decreases fuel, e, 2
  {
    match e
    case CallIR(_, _, args) => AllKeepMeaning(args, oracle, env, h, fuel);
    case SequenceIR(_, items) => SequenceKeepsMeaning(e, oracle, env, h, fuel);
    case ListIR(_, elements) => AllKeepMeaning(elements, oracle, env, h, fuel);
    case IfIR(_, _, _, _) => IfKeepsMeaning(e, oracle, env, h, fuel);
    case WhileIR(_, _, _) => WhileKeepsMeaning(e, oracle, env, h, fuel);
    case MatchIR(_, s, arms) => MatchKeepsMeaning(e, oracle, env, h, fuel);
    case _ =>
  }

  lemma {:induction false} SequenceKeepsMeaning(e: IR, oracle: Oracle, env: Env, h: History, fuel: nat)
    requires e.SequenceIR? && Eval(e, oracle, env, h, fuel, true) != Unsafe
    ensures Run(Optimize(e), oracle, env, h, fuel) == Run(e, oracle, env, h, fuel)
    decreases fuel, e, 1
  {
    AllKeepMeaning(e.items, oracle, env, h, fuel);
    if |e.items| == 1 {
      OptimizeRules(e);
      OptimizeKeepsMeaning(e.items[0], oracle, env, h, fuel);
      assert e.items[1..] == [];
    }
  }

  /** A collapsible match runs its arm after its scrutinee. */
  lemma OneArm(typ: TypeId, s: IR, arms: seq<IRArm>, oracle: Oracle, env: Env, h: History, fuel: nat)
    requires Collapsible(arms)
    ensures var o := Run(s, oracle, env, h, fuel);
      Run(MatchIR(typ, s, arms), oracle, env, h, fuel) ==
        if !o.Done? then o
        else if o.value.VariantV? && o.value.tag == arms[0].ctor then Run(arms[0].body, oracle, env, o.history, fuel)
        else Wrong(o.history)
  {
    var o := Run(s, oracle, env, h, fuel);
    assert arms[1..] == [];
    if o.Done? && o.value.VariantV? {
      var tag, payload, h1 := o.value.tag, o.value.payload, o.history;
      assert EvalIRArms(arms[1..], tag, payload, oracle, env, h1, fuel, false) == Wrong(h1);
      assert EvalIRArms(arms, tag, payload, oracle, env, h1, fuel, false) ==
        if arms[0].ctor == tag then Run(arms[0].body, oracle, env, h1, fuel) else Wrong(h1);
    }
  }

  lemma {:induction false} MatchKeepsMeaning(e: IR, oracle: Oracle, env: Env, h: History, fuel: nat)
    requires e.MatchIR? && Eval(e, oracle, env, h, fuel, true) != Unsafe
    ensures Run(Optimize(e), oracle, env, h, fuel) == Run(e, oracle, env, h, fuel)
    decreases fuel, e, 1
  {
    OptimizeKeepsMeaning(e.scrutinee, oracle, env, h, fuel);
    StrictIsOrdinary(e.scrutinee, oracle, env, h, fuel);
    var o := Run(e.scrutinee, oracle, env, h, fuel);
    if Collapsible(e.arms) {
      OptimizeRules(e);
      OneArm(e.typ, e.scrutinee, e.arms, oracle, env, h, fuel);
      OptimizeKeepsMeaning(e.arms[0].body, oracle, env, h, fuel);
    } else if o.Done? && o.value.VariantV? {
      ArmsKeepMeaning(e.arms, o.value.tag, o.value.payload, oracle, env, o.history, fuel);
    }
  }

  lemma {:induction false} IfKeepsMeaning(e: IR, oracle: Oracle, env: Env, h: History, fuel: nat)
    requires e.IfIR? && Eval(e, oracle, env, h, fuel, true) != Unsafe
    ensures Run(Optimize(e), oracle, env, h, fuel) == Run(e, oracle, env, h, fuel)
    decreases fuel, e, 1
  {
    OptimizeKeepsMeaning(e.cond, oracle, env, h, fuel);
    StrictIsOrdinary(e.cond, oracle, env, h, fuel);
    OptimizeRules(e);
    var o := Run(e.cond, oracle, env, h, fuel);
    if o.Done? && o.value.BoolV? {
      OptimizeKeepsMeaning(if o.value.value then e.thenBranch else e.elseBranch, oracle, env, o.history, fuel);
    }
  }

  lemma {:induction false} WhileKeepsMeaning(e: IR, oracle: Oracle, env: Env, h: History, fuel: nat)
    requires e.WhileIR? && Eval(e, oracle, env, h, fuel, true) != Unsafe
    ensures Run(Optimize(e), oracle, env, h, fuel) == Run(e, oracle, env, h, fuel)
    decreases fuel, e, 1
  {
    OptimizeKeepsMeaning(e.cond, oracle, env, h, fuel);
    StrictIsOrdinary(e.cond, oracle, env, h, fuel);
    var o := Run(e.cond, oracle, env, h, fuel);
    if o.Done? && o.value == BoolV(true) && fuel > 0 {
      OptimizeKeepsMeaning(e.body, oracle, env, o.history, fuel);
      StrictIsOrdinary(e.body, oracle, env, o.history, fuel);
      var turned := Run(e.body, oracle, env, o.history, fuel);
      if turned.Done? {
        WhileKeepsMeaning(e, oracle, env, turned.history, fuel - 1);
      }
    }
  }

  lemma {:induction false} AllKeepMeaning(es: seq<IR>, oracle: Oracle, env: Env, h: History, fuel: nat)
    requires EvalAll(es, oracle, env, h, fuel, true) != Stopped(Unsafe)
    ensures EvalAll(OptimizeAll(es), oracle, env, h, fuel, false) == EvalAll(es, oracle, env, h, fuel, false)
    decreases fuel, es, 0
  {
    if es != [] {
      OptimizeKeepsMeaning(es[0], oracle, env, h, fuel);
      StrictIsOrdinary(es[0], oracle, env, h, fuel);
      assert OptimizeAll(es)[1..] == OptimizeAll(es[1..]);
      var first := Run(es[0], oracle, env, h, fuel);
      if first.Done? {
        AllKeepMeaning(es[1..], oracle, env, first.history, fuel);
      }
    }
  }

  lemma {:induction false} ArmsKeepMeaning(arms: seq<IRArm>, tag: string, payload: seq<Value>, oracle: Oracle, env: Env, h: History, fuel: nat)
    requires EvalIRArms(arms, tag, payload, oracle, env, h, fuel, true) != Unsafe
    ensures EvalIRArms(OptimizeArms(arms), tag, payload, oracle, env, h, fuel, false) == EvalIRArms(arms, tag, payload, oracle, env, h, fuel, false)
    decreases fuel, arms, 0
  {
    if arms != [] {
      assert OptimizeArms(arms)[1..] == OptimizeArms(arms[1..]);
      if arms[0].ctor == tag {
        var inner := Bind(env, arms[0].bindings, payload);
        if inner.Some? {
          OptimizeKeepsMeaning(arms[0].body, oracle, inner.value, h, fuel);
        }
      } else {
        ArmsKeepMeaning(arms[1..], tag, payload, oracle, env, h, fuel);
      }
    }
  }

  /** The condition on collapsed matches is exact: replacing a one-arm, binding-free match by its
      arm is right for every arm body if and only if the scrutinee is silent. */
  lemma CollapseIsRightIffSilent(s: IR, ctor: string, oracle: Oracle, env: Env, h: History, fuel: nat)
    ensures Silent(Run(s, oracle, env, h, fuel), [IRArm(ctor, [], Null)], h) <==>
      forall body, typ :: Run(MatchIR(typ, s, [IRArm(ctor, [], body)]), oracle, env, h, fuel) == Run(body, oracle, env, h, fuel)
  {
    var o := Run(s, oracle, env, h, fuel);
    forall body, typ | Silent(o, [IRArm(ctor, [], Null)], h)
      ensures Run(MatchIR(typ, s, [IRArm(ctor, [], body)]), oracle, env, h, fuel) == Run(body, oracle, env, h, fuel)
    {
      OneArm(typ, s, [IRArm(ctor, [], body)], oracle, env, h, fuel);
    }
    // a scrutinee that is not silent shows when the body is a constant
    OneArm(0, s, [IRArm(ctor, [], UnitIR(0))], oracle, env, h, fuel);
    assert Run(UnitIR(0), oracle, env, h, fuel) == Done(UnitV, h);
    if o.Done? {
      assert Run(UnitIR(0), oracle, env, o.history, fuel) == Done(UnitV, o.history);
    }
  }
}
