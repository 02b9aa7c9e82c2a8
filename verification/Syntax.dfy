/** The abstract syntax of NovaLang expressions (include/nova/ast.h) and the values programs
    compute. Tokens appear as their lexemes. */
module Syntax {
  datatype Option<+T> = None | Some(value: T)

  datatype Param = Param(name: string, typeName: Option<string>)

  datatype Arg = Arg(argName: Option<string>, value: Expr)

  datatype Arm = Arm(name: string, bindings: seq<Param>, body: Expr)

  datatype Expr =
    | Number(text: string)
    | Str(text: string)
    | Bool(value: bool)
    | UnitLiteral
    | ListLiteral(elements: seq<Expr>)
    | Ident(name: string)
    | Call(callee: Expr, args: seq<Arg>)
    | Pipe(target: Expr, stages: seq<Expr>)
    | If(cond: Expr, thenBranch: Expr, elseBranch: Option<Expr>)
    | While(cond: Expr, body: Expr)
    | Block(items: seq<Expr>)
    | Paren(inner: Expr)
    | Match(scrutinee: Expr, arms: seq<Arm>)
    | Async(inner: Expr)
    | Await(inner: Expr)
    | Effect(inner: Expr)
    | Lambda(params: seq<Param>, body: Expr)

  function Names(params: seq<Param>): seq<string> {
    seq(|params|, i requires 0 <= i < |params| => params[i].name)
  }
}

/** What running a NovaLang expression means. The language has no assignment: all a program does
    to the world is call functions, so an outcome is a value together with the history of calls.
    Callees are answered by an oracle that may look at everything that was called before. Loops
    get fuel: running out of it is the observation that a loop turned that often, so outcomes
    that agree at every fuel agree on values, on histories and on divergence. */
module Meaning {
  import opened Syntax

  datatype Value =
    | NumberV(text: string)
    | StringV(text: string)
    | BoolV(value: bool)
    | UnitV
    | ListV(elements: seq<Value>)
    | VariantV(tag: string, payload: seq<Value>)

  datatype Event = Called(callee: string, args: seq<Value>, result: Value)

  type History = seq<Event>
  type Env = map<string, Value>
  type Oracle = (History, string, seq<Value>) -> Value

  datatype Outcome =
    | Done(value: Value, history: History)
    | OutOfFuel(history: History)
    | Wrong(history: History)          // a value of the wrong kind, or no arm that matches
    | Unsafe                           // see Ir.Eval: a match whose collapse would be visible

  datatype Outcomes =
    | AllDone(values: seq<Value>, history: History)
    | Stopped(outcome: Outcome)

  /** The call of `callee` after its arguments have been evaluated. */
  function Answer(oracle: Oracle, callee: string, args: Outcomes): Outcome {
    match args
    case Stopped(o) => o
    case AllDone(vs, h) =>
      var v := oracle(h, callee, vs);
      Done(v, h + [Called(callee, vs, v)])
  }

  /** Binding a variant's payload to an arm's names; an arm without names binds nothing. */
  function Bind(env: Env, names: seq<string>, payload: seq<Value>): Option<Env> {
    if names == [] then Some(env)
    else if |names| == |payload| then Some(BindAll(env, names, payload))
    else None
  }

  function BindAll(env: Env, names: seq<string>, values: seq<Value>): Env
    requires |names| == |values|
    decreases names
  {
    if names == [] then env else BindAll(env[names[0] := values[0]], names[1..], values[1..])
  }

  // ----- source expressions -----

  function EvalExpr(e: Expr, oracle: Oracle, env: Env, h: History, fuel: nat): Outcome
    decreases fuel, e, 0
  {
    match e
    case Number(text) => Done(NumberV(text), h)
    case Str(text) => Done(StringV(text), h)
    case Bool(b) => Done(BoolV(b), h)
    case UnitLiteral => Done(UnitV, h)
    case Ident(x) => if x in env then Done(env[x], h) else Wrong(h)
    case ListLiteral(es) =>
      (match EvalExprs(es, oracle, env, h, fuel)
       case AllDone(vs, h1) => Done(ListV(vs), h1)
       case Stopped(o) => o)
    case Call(callee, args) =>
      if callee.Ident? then Answer(oracle, callee.name, EvalArgs(args, oracle, env, h, fuel)) else Wrong(h)
    case Pipe(target, stages) =>
      (match EvalExpr(target, oracle, env, h, fuel)
       case Done(v, h1) => EvalStages(v, stages, oracle, env, h1, fuel)
       case o => o)
    case If(c, t, f) =>
      (match EvalExpr(c, oracle, env, h, fuel)
       case Done(BoolV(true), h1) => EvalExpr(t, oracle, env, h1, fuel)
       case Done(BoolV(false), h1) => if f.Some? then EvalExpr(f.value, oracle, env, h1, fuel) else Done(UnitV, h1)
       case Done(_, h1) => Wrong(h1)
       case o => o)
    case While(c, b) =>
      (match EvalExpr(c, oracle, env, h, fuel)
       case Done(BoolV(false), h1) => Done(UnitV, h1)
       case Done(BoolV(true), h1) =>
         if fuel == 0 then OutOfFuel(h1)
         else
           (match EvalExpr(b, oracle, env, h1, fuel)
            case Done(_, h2) => EvalExpr(e, oracle, env, h2, fuel - 1)
            case o => o)
       case Done(_, h1) => Wrong(h1)
       case o => o)
    case Block(es) =>
      (match EvalExprs(es, oracle, env, h, fuel)
       case AllDone(vs, h1) => Done(if vs == [] then UnitV else vs[|vs| - 1], h1)
       case Stopped(o) => o)
    case Match(s, arms) =>
      (match EvalExpr(s, oracle, env, h, fuel)
       case Done(VariantV(tag, payload), h1) => EvalArms(arms, tag, payload, oracle, env, h1, fuel)
       case Done(_, h1) => Wrong(h1)
       case o => o)
    case Paren(inner) => EvalExpr(inner, oracle, env, h, fuel)
    case Async(inner) => EvalExpr(inner, oracle, env, h, fuel)
    case Await(inner) => EvalExpr(inner, oracle, env, h, fuel)
    case Effect(inner) => EvalExpr(inner, oracle, env, h, fuel)
    case Lambda(_, _) => Wrong(h)
  }

  function EvalExprs(es: seq<Expr>, oracle: Oracle, env: Env, h: History, fuel: nat): Outcomes
    decreases fuel, es, 0
  {
    if es == [] then AllDone([], h)
    else
      match EvalExpr(es[0], oracle, env, h, fuel)
      case Done(v, h1) =>
        (match EvalExprs(es[1..], oracle, env, h1, fuel)
         case AllDone(vs, h2) => AllDone([v] + vs, h2)
         case o => o)
      case o => Stopped(o)
  }

  function EvalArgs(args: seq<Arg>, oracle: Oracle, env: Env, h: History, fuel: nat): Outcomes
    decreases fuel, args, 0
  {
    if args == [] then AllDone([], h)
    else
      assert args[0].value < args[0];
      match EvalExpr(args[0].value, oracle, env, h, fuel)
      case Done(v, h1) =>
        (match EvalArgs(args[1..], oracle, env, h1, fuel)
         case AllDone(vs, h2) => AllDone([v] + vs, h2)
         case o => o)
      case o => Stopped(o)
  }

  /** The stages of a pipeline, each applied to the value of the stage before it. */
  function EvalStages(v: Value, stages: seq<Expr>, oracle: Oracle, env: Env, h: History, fuel: nat): Outcome
    decreases fuel, stages, 0
  {
    if stages == [] then Done(v, h)
    else
      match EvalStage(v, stages[0], oracle, env, h, fuel)
      case Done(v1, h1) => EvalStages(v1, stages[1..], oracle, env, h1, fuel)
      case o => o
  }

  function EvalStage(v: Value, stage: Expr, oracle: Oracle, env: Env, h: History, fuel: nat): Outcome
    decreases fuel, stage, 1
  {
    if stage.Ident? then Answer(oracle, stage.name, AllDone([v], h))
    else if stage.Call? && stage.callee.Ident? then
      match EvalArgs(stage.args, oracle, env, h, fuel)
      case AllDone(vs, h1) => Answer(oracle, stage.callee.name, AllDone([v] + vs, h1))
      case Stopped(o) => o
    else Wrong(h)
  }

  function EvalArms(arms: seq<Arm>, tag: string, payload: seq<Value>, oracle: Oracle, env: Env, h: History, fuel: nat): Outcome
    decreases fuel, arms, 0
  {
    if arms == [] then Wrong(h)
    else if arms[0].name == tag then
      match Bind(env, Names(arms[0].bindings), payload)
      case Some(inner) => EvalExpr(arms[0].body, oracle, inner, h, fuel)
      case None => Wrong(h)
    else EvalArms(arms[1..], tag, payload, oracle, env, h, fuel)
  }
}
