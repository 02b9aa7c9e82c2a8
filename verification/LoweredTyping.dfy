/** What the backend needs of a tree survives the optimiser, so it can be asked of the tree that
    lowering hands over. */
module LoweredTyping {
  import opened Syntax
  import opened Meaning
  import opened Ir
  import opened Optimizer
  import opened Llvm
  import opened LlvmSimulation

  /** `r` has what `e` has: it is well typed, keeps the type of a value, and opens no new blocks. */
  ghost predicate Keeps(e: IR, r: IR, types: TypeTable, params: Params) {
    && WellTyped(r, types, params)
    && (TypeOf(e, types) != Void ==> TypeOf(r, types) == TypeOf(e, types))
    && (NoBlocks(e) ==> NoBlocks(r))
    && (DirectPhis(e, types) ==> DirectPhis(r, types))
  }

  lemma {:induction false} OptimizeKeepsTyping(e: IR, types: TypeTable, params: Params)
    requires WellTyped(e, types, params)
    ensures Keeps(e, Optimize(e), types, params)
    decreases e, 2
  {
    match e
    case CallIR(_, _, args) => AllKeepTyping(args, types, params);
    case SequenceIR(_, _) => SequenceKeepsTyping(e, types, params);
    case IfIR(_, _, _, _) => IfKeepsTyping(e, types, params);
    case WhileIR(_, c, b) =>
      OptimizeKeepsTyping(c, types, params);
      OptimizeKeepsTyping(b, types, params);
    case _ =>
  }

  /** A sequence of one item becomes that item. */
  lemma OneKeeps(e: IR, r: IR, types: TypeTable, params: Params)
    requires e.SequenceIR? && |e.items| == 1 && WellTyped(e, types, params) && Keeps(e.items[0], r, types, params)
    ensures Keeps(e, r, types, params)
  {
    if NoBlocks(e) { assert AllNoBlocks(e.items); }
    if DirectPhis(e, types) { assert AllDirectPhis(e.items, types); }
  }

  lemma FirstIsTyped(es: seq<IR>, types: TypeTable, params: Params)
    requires es != [] && AllWellTyped(es, types, params)
    ensures WellTyped(es[0], types, params)
  {
  }

  /** Any other sequence keeps as many items. */
  lemma ManyKeep(e: IR, kept: seq<IR>, types: TypeTable, params: Params)
    requires e.SequenceIR? && WellTyped(e, types, params) && |kept| == |e.items| && AllWellTyped(kept, types, params)
    requires forall i :: 0 <= i < |kept| && TypeOf(e.items[i], types) != Void ==> TypeOf(kept[i], types) == TypeOf(e.items[i], types)
    requires AllNoBlocks(e.items) ==> AllNoBlocks(kept)
    requires AllDirectPhis(e.items, types) ==> AllDirectPhis(kept, types)
    ensures Keeps(e, if kept == [] then UnitIR(e.typ) else SequenceIR(e.typ, kept), types, params)
  {
    hide AllWellTyped, AllNoBlocks, AllDirectPhis;
  }

  lemma ManyStayMany(e: IR)
    requires e.SequenceIR? && |e.items| != 1
    ensures Optimize(e) == if OptimizeAll(e.items) == [] then UnitIR(e.typ) else SequenceIR(e.typ, OptimizeAll(e.items))
  {
  }

  lemma {:induction false} SequenceKeepsTyping(e: IR, types: TypeTable, params: Params)
    requires e.SequenceIR? && WellTyped(e, types, params)
    ensures Keeps(e, Optimize(e), types, params)
    decreases e, 1
  {
    hide Optimize, OptimizeAll, AllWellTyped, Keeps;
    if |e.items| == 1 {
      FirstIsTyped(e.items, types, params);
      OptimizeRules(e);
      OptimizeKeepsTyping(e.items[0], types, params);
      OneKeeps(e, Optimize(e), types, params);
    } else {
      AllKeepTyping(e.items, types, params);
      ManyStayMany(e);
      ManyKeep(e, OptimizeAll(e.items), types, params);
    }
  }

  lemma {:induction false} IfKeepsTyping(e: IR, types: TypeTable, params: Params)
    requires e.IfIR? && WellTyped(e, types, params)
    ensures Keeps(e, Optimize(e), types, params)
    decreases e, 1
  {
    OptimizeKeepsTyping(e.cond, types, params);
    OptimizeKeepsTyping(e.thenBranch, types, params);
    OptimizeKeepsTyping(e.elseBranch, types, params);
    OptimizeRules(e);
  }

  lemma {:induction false} AllKeepTyping(es: seq<IR>, types: TypeTable, params: Params)
    requires AllWellTyped(es, types, params)
    ensures AllWellTyped(OptimizeAll(es), types, params)
    ensures |OptimizeAll(es)| == |es|
    ensures forall i :: 0 <= i < |es| && TypeOf(es[i], types) != Void ==> TypeOf(OptimizeAll(es)[i], types) == TypeOf(es[i], types)
    ensures AllNoBlocks(es) ==> AllNoBlocks(OptimizeAll(es))
    ensures AllDirectPhis(es, types) ==> AllDirectPhis(OptimizeAll(es), types)
    decreases es, 0
  {
    if es != [] {
      OptimizeKeepsTyping(es[0], types, params);
      AllKeepTyping(es[1..], types, params);
    }
  }

  /** A well-typed tree has no match, so nothing in it is collapsed. */
  lemma {:induction false} WellTypedIsSafe(e: IR, types: TypeTable, params: Params, oracle: Oracle, env: Env, h: History, fuel: nat)
    requires WellTyped(e, types, params)
    ensures Eval(e, oracle, env, h, fuel, true) != Unsafe
    decreases fuel, e, 1
  {
    match e
    case CallIR(_, _, args) => AllSafe(args, types, params, oracle, env, h, fuel);
    case SequenceIR(_, items) => AllSafe(items, types, params, oracle, env, h, fuel);
    case IfIR(_, c, yes, no) =>
      WellTypedIsSafe(c, types, params, oracle, env, h, fuel);
      var o := Eval(c, oracle, env, h, fuel, true);
      if o.Done? && o.value.BoolV? {
        WellTypedIsSafe(if o.value.value then yes else no, types, params, oracle, env, o.history, fuel);
      }
    case WhileIR(_, c, b) =>
      WellTypedIsSafe(c, types, params, oracle, env, h, fuel);
      var o := Eval(c, oracle, env, h, fuel, true);
      if o.Done? && o.value == BoolV(true) && fuel > 0 {
        WellTypedIsSafe(b, types, params, oracle, env, o.history, fuel);
        var turned := Eval(b, oracle, env, o.history, fuel, true);
        if turned.Done? { WellTypedIsSafe(e, types, params, oracle, env, turned.history, fuel - 1); }
      }
    case _ =>
  }

  lemma {:induction false} AllSafe(es: seq<IR>, types: TypeTable, params: Params, oracle: Oracle, env: Env, h: History, fuel: nat)
    requires AllWellTyped(es, types, params)
    ensures EvalAll(es, oracle, env, h, fuel, true) != Stopped(Unsafe)
    decreases fuel, es, 0
  {
    if es != [] {
      WellTypedIsSafe(es[0], types, params, oracle, env, h, fuel);
      var o := Eval(es[0], oracle, env, h, fuel, true);
      if o.Done? { AllSafe(es[1..], types, params, oracle, env, o.history, fuel); }
    }
  }
}
