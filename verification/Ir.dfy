/** The typed intermediate representation (include/nova/ir.h) and its meaning. `Null` stands for
    the null pointer that lowering returns when it fails. */
module Ir {
  import opened Syntax
  import opened Meaning

  type TypeId = nat

  datatype IRArm = IRArm(ctor: string, bindings: seq<string>, body: IR)

  datatype IR =
    | Null
    | NumberIR(typ: TypeId, text: string)
    | StringIR(typ: TypeId, text: string)
    | BoolIR(typ: TypeId, value: bool)
    | UnitIR(typ: TypeId)
    | IdentIR(typ: TypeId, name: string)
    | CallIR(typ: TypeId, callee: string, args: seq<IR>)
    | SequenceIR(typ: TypeId, items: seq<IR>)
    | ListIR(typ: TypeId, elements: seq<IR>)
    | IfIR(typ: TypeId, cond: IR, thenBranch: IR, elseBranch: IR)
    | WhileIR(typ: TypeId, cond: IR, body: IR)
    | MatchIR(typ: TypeId, scrutinee: IR, arms: seq<IRArm>)

  /** No null pointer at any depth. */
  predicate Whole(e: IR)
    decreases e, 0
  {
    match e
    case Null => false
    case CallIR(_, _, args) => AllWhole(args)
    case SequenceIR(_, items) => AllWhole(items)
    case ListIR(_, elements) => AllWhole(elements)
    case IfIR(_, c, t, f) => Whole(c) && Whole(t) && Whole(f)
    case WhileIR(_, c, b) => Whole(c) && Whole(b)
    case MatchIR(_, s, arms) => Whole(s) && ArmsWhole(arms)
    case _ => true
  }

  predicate AllWhole(es: seq<IR>)
    decreases es, 0
  {
    es == [] || (Whole(es[0]) && AllWhole(es[1..]))
  }

  predicate ArmsWhole(arms: seq<IRArm>)
    decreases arms, 0
  {
    arms == [] || (Whole(arms[0].body) && ArmsWhole(arms[1..]))
  }

  /** A match the optimiser replaces by its only arm. */
  predicate Collapsible(arms: seq<IRArm>) {
    |arms| == 1 && arms[0].bindings == []
  }

  /** `v` was computed without a call and selects the arm of a collapsible match. */
  predicate Silent(scrutinee: Outcome, arms: seq<IRArm>, h: History)
    requires Collapsible(arms)
  {
    scrutinee.Done? && scrutinee.history == h && scrutinee.value.VariantV? && scrutinee.value.tag == arms[0].ctor
  }

  /** The meaning of an IR tree. With `strict` set, evaluation additionally reports Unsafe when it
      reaches a collapsible match whose scrutinee is not silent. */
  function Eval(e: IR, oracle: Oracle, env: Env, h: History, fuel: nat, strict: bool): Outcome
    decreases fuel, e, 0
  {
    match e
    case Null => Wrong(h)
    case NumberIR(_, text) => Done(NumberV(text), h)
    case StringIR(_, text) => Done(StringV(text), h)
    case BoolIR(_, b) => Done(BoolV(b), h)
    case UnitIR(_) => Done(UnitV, h)
    case IdentIR(_, x) => if x in env then Done(env[x], h) else Wrong(h)
    case CallIR(_, callee, args) => Answer(oracle, callee, EvalAll(args, oracle, env, h, fuel, strict))
    case SequenceIR(_, items) =>
      (match EvalAll(items, oracle, env, h, fuel, strict)
       case AllDone(vs, h1) => Done(if vs == [] then UnitV else vs[|vs| - 1], h1)
       case Stopped(o) => o)
    case ListIR(_, elements) =>
      (match EvalAll(elements, oracle, env, h, fuel, strict)
       case AllDone(vs, h1) => Done(ListV(vs), h1)
       case Stopped(o) => o)
    case IfIR(_, c, t, f) =>
      (match Eval(c, oracle, env, h, fuel, strict)
       case Done(BoolV(b), h1) => Eval(if b then t else f, oracle, env, h1, fuel, strict)
       case Done(_, h1) => Wrong(h1)
       case o => o)
    case WhileIR(_, c, b) =>
      (match Eval(c, oracle, env, h, fuel, strict)
       case Done(BoolV(false), h1) => Done(UnitV, h1)
       case Done(BoolV(true), h1) =>
         if fuel == 0 then OutOfFuel(h1)
         else
           (match Eval(b, oracle, env, h1, fuel, strict)
            case Done(_, h2) => Eval(e, oracle, env, h2, fuel - 1, strict)
            case o => o)
       case Done(_, h1) => Wrong(h1)
       case o => o)
    case MatchIR(_, s, arms) =>
      var scrutinee := Eval(s, oracle, env, h, fuel, strict);
      if strict && Collapsible(arms) && !Silent(scrutinee, arms, h) then Unsafe
      else
        match scrutinee
        case Done(VariantV(tag, payload), h1) => EvalIRArms(arms, tag, payload, oracle, env, h1, fuel, strict)
        case Done(_, h1) => Wrong(h1)
        case o => o
  }

  function EvalAll(es: seq<IR>, oracle: Oracle, env: Env, h: History, fuel: nat, strict: bool): Outcomes
    decreases fuel, es, 0
  {
    if es == [] then AllDone([], h)
    else
      match Eval(es[0], oracle, env, h, fuel, strict)
      case Done(v, h1) =>
        (match EvalAll(es[1..], oracle, env, h1, fuel, strict)
         case AllDone(vs, h2) => AllDone([v] + vs, h2)
         case o => o)
      case o => Stopped(o)
  }

  function EvalIRArms(arms: seq<IRArm>, tag: string, payload: seq<Value>, oracle: Oracle, env: Env, h: History, fuel: nat, strict: bool): Outcome
    decreases fuel, arms, 0
  {
    if arms == [] then Wrong(h)
    else if arms[0].ctor == tag then
      match Bind(env, arms[0].bindings, payload)
      case Some(inner) => Eval(arms[0].body, oracle, inner, h, fuel, strict)
      case None => Wrong(h)
    else EvalIRArms(arms[1..], tag, payload, oracle, env, h, fuel, strict)
  }

  /** The ordinary meaning. */
  function Run(e: IR, oracle: Oracle, env: Env, h: History, fuel: nat): Outcome {
    Eval(e, oracle, env, h, fuel, false)
  }
}
