/** The LLVM backend of src/codegen.cpp:86-248 on instructions instead of text: what is emitted
    for an IR tree, and the machine that runs it. Temporaries `%t7` are Temp(7), parameters `%x`
    are Param("x"), and a block is named by its prefix and the value of the label counter. */
module Llvm {
  import opened Syntax
  import opened Meaning
  import opened Ir

  datatype LType = Double | I1 | Pointer | Void

  /** type_to_llvm composed with the semantic context's table of types. */
  type TypeTable = TypeId -> LType

  datatype Operand =
    | Literal(text: string)     // a number
    | Digit(one: bool)          // 0 or 1
    | ZeroDouble                // 0.0
    | NullPointer
    | Temp(number: nat)
    | Parameter(name: string)
    | Uninitialised             // a value buffer nobody has written to

  datatype Prefix = WhileCond | WhileBody | WhileEnd | IfThen | IfElse | IfEnd

  datatype BlockName = Entry | Numbered(prefix: Prefix, number: nat)

  datatype TypedOperand = Typed(typ: LType, operand: Operand)

  datatype Instr =
    | Label(name: BlockName)
    | Br(target: BlockName)
    | CondBr(cond: Operand, yes: BlockName, no: BlockName)
    | CallI(dst: Option<nat>, typ: LType, callee: string, args: seq<TypedOperand>)
    | Ret(ret: LType, result: Operand)    // `ret void` carries no operand
    | Phi(temp: nat, typ: LType, first: Operand, firstFrom: BlockName, second: Operand, secondFrom: BlockName)

  type Code = seq<Instr>

  function TypeOf(e: IR, types: TypeTable): LType {
    if e == Null then Double else types(e.typ)
  }

  function ZeroLiteral(typ: LType): Operand {
    match typ
    case Double => ZeroDouble
    case Pointer => NullPointer
    case _ => Digit(false)
  }

  // ----- what can be emitted -----

  /** No string, list or match where an expression or statement is emitted. */
  predicate Supported(e: IR)
    decreases e, 0
  {
    match e
    case StringIR(_, _) => false
    case ListIR(_, _) => false
    case MatchIR(_, _, _) => false
    case CallIR(_, _, args) => AllSupported(args)
    case SequenceIR(_, items) => AllSupported(items)
    case IfIR(_, c, yes, no) => Supported(c) && Supported(yes) && Supported(no)
    case WhileIR(_, c, b) => Supported(c) && Supported(b)
    case _ => true
  }

  predicate AllSupported(es: seq<IR>)
    decreases es, 0
  {
    es == [] || (Supported(es[0]) && AllSupported(es[1..]))
  }

  // ----- emission -----

  /** What emitting an expression adds to the output, the operand that names its value, and the two
      counters afterwards. When `ok` is false nothing else is meaningful. */
  datatype Emitted = Emitted(ok: bool, code: Code, value: Operand, nextTemp: nat, nextLabel: nat)

  datatype EmittedArgs = EmittedArgs(ok: bool, code: Code, values: seq<TypedOperand>, nextTemp: nat, nextLabel: nat)

  const Failed := Emitted(false, [], Uninitialised, 0, 0)
  const FailedArgs := EmittedArgs(false, [], [], 0, 0)

  /** A temporary already given out when the counter stands at `t`. */
  predicate Below(op: Operand, t: nat) {
    op.Temp? ==> op.number < t
  }

  predicate AllBelow(ops: seq<TypedOperand>, t: nat) {
    forall i :: 0 <= i < |ops| ==> Below(ops[i].operand, t)
  }

  /** emit_expr_llvm */
  function EmitExpr(e: IR, types: TypeTable, t: nat, l: nat): (r: Emitted)
    ensures r.ok <==> Supported(e)
    ensures r.ok ==> t <= r.nextTemp && l <= r.nextLabel && Below(r.value, r.nextTemp)
    decreases e, 2
  {
    match e
    case Null => Emitted(true, [], ZeroDouble, t, l)
    case NumberIR(_, text) => Emitted(true, [], Literal(text), t, l)
    case BoolIR(_, b) => Emitted(true, [], Digit(b), t, l)
    case UnitIR(_) => Emitted(true, [], Digit(false), t, l)
    case IdentIR(_, x) => Emitted(true, [], Parameter(x), t, l)
    case CallIR(_, callee, args) => FinishCall(EmitArgs(args, types, t, l), callee, TypeOf(e, types))
    case SequenceIR(_, items) =>
      if items == [] then Emitted(true, [], Digit(false), t, l)
      else EmitLast(items, types, t, l)
    case IfIR(_, _, _, _) => EmitIf(e, types, t, l)
    case WhileIR(_, _, _) => EmitWhile(e, types, t, l)
    case _ => Failed
  }

  function EmitIf(e: IR, types: TypeTable, t: nat, l: nat): (r: Emitted)
    requires e.IfIR?
    ensures r.ok <==> Supported(e)
    ensures r.ok ==> t <= r.nextTemp && l <= r.nextLabel && Below(r.value, r.nextTemp)
    decreases e, 1
  {
    var cond := EmitExpr(e.cond, types, t, l);
    if !cond.ok then Failed
    else
      var yes := EmitExpr(e.thenBranch, types, cond.nextTemp, cond.nextLabel + 3);
      if !yes.ok then Failed
      else
        var no := if e.elseBranch == Null then Emitted(true, [], ZeroLiteral(TypeOf(e, types)), yes.nextTemp, yes.nextLabel)
                  else EmitExpr(e.elseBranch, types, yes.nextTemp, yes.nextLabel);
        if !no.ok then Failed else FinishIf(cond, yes, no, TypeOf(e, types))
  }

  function FinishCall(args: EmittedArgs, callee: string, ret: LType): Emitted {
    if !args.ok then Failed
    else if ret == Void then
      Emitted(true, args.code + [CallI(None, ret, callee, args.values)], Digit(false), args.nextTemp, args.nextLabel)
    else
      Emitted(true, args.code + [CallI(Some(args.nextTemp), ret, callee, args.values)], Temp(args.nextTemp), args.nextTemp + 1, args.nextLabel)
  }

  /** The blocks of an `if`, given the code of its three parts. */
  function FinishIf(cond: Emitted, yes: Emitted, no: Emitted, typ: LType): Emitted {
    var code := IfCode(cond, yes, no);
    if typ == Void then Emitted(true, code, Digit(false), no.nextTemp, no.nextLabel)
    else Emitted(true, code + [JoinPhi(cond, yes, no, typ)], Temp(no.nextTemp), no.nextTemp + 1, no.nextLabel)
  }

  /** The phi names the blocks in which the branches begin, whatever blocks they open. */
  function JoinPhi(cond: Emitted, yes: Emitted, no: Emitted, typ: LType): Instr {
    var n := cond.nextLabel;
    Phi(no.nextTemp, typ, yes.value, Numbered(IfThen, n), no.value, Numbered(IfElse, n + 1))
  }

  function IfCode(cond: Emitted, yes: Emitted, no: Emitted): Code {
    var n := cond.nextLabel;
    cond.code
    + ([CondBr(cond.value, Numbered(IfThen, n), Numbered(IfElse, n + 1)), Label(Numbered(IfThen, n))]
    + IfBranches(yes, no, n))
  }

  function IfBranches(yes: Emitted, no: Emitted, n: nat): Code {
    var end := Numbered(IfEnd, n + 2);
    yes.code
    + ([Br(end), Label(Numbered(IfElse, n + 1))]
    + (no.code
    + [Br(end), Label(end)]))
  }

  function EmitArgs(args: seq<IR>, types: TypeTable, t: nat, l: nat): (r: EmittedArgs)
    ensures r.ok <==> AllSupported(args)
    ensures r.ok ==> t <= r.nextTemp && l <= r.nextLabel && AllBelow(r.values, r.nextTemp)
    decreases args, 0
  {
    if args == [] then EmittedArgs(true, [], [], t, l)
    else
      var first := EmitExpr(args[0], types, t, l);
      if !first.ok then FailedArgs
      else
        var rest := EmitArgs(args[1..], types, first.nextTemp, first.nextLabel);
        if !rest.ok then FailedArgs
        else EmittedArgs(true, first.code + rest.code, [Typed(TypeOf(args[0], types), first.value)] + rest.values, rest.nextTemp, rest.nextLabel)
  }

  /** All items as statements but the last, which gives the value. */
  function EmitLast(items: seq<IR>, types: TypeTable, t: nat, l: nat): (r: Emitted)
    requires items != []
    ensures r.ok <==> AllSupported(items)
    ensures r.ok ==> t <= r.nextTemp && l <= r.nextLabel && Below(r.value, r.nextTemp)
    decreases items, 0
  {
    if |items| == 1 then EmitExpr(items[0], types, t, l)
    else
      var first := EmitStatement(items[0], types, t, l);
      if !first.ok then Failed
      else
        var rest := EmitLast(items[1..], types, first.nextTemp, first.nextLabel);
        if !rest.ok then Failed else rest.(code := first.code + rest.code)
  }

  /** emit_statement_llvm */
  function EmitStatement(e: IR, types: TypeTable, t: nat, l: nat): (r: Emitted)
    ensures r.ok <==> Supported(e)
    ensures r.ok ==> t <= r.nextTemp && l <= r.nextLabel && Below(r.value, r.nextTemp)
    decreases e, 3
  {
    match e
    case Null => Emitted(true, [], Uninitialised, t, l)
    case SequenceIR(_, items) => EmitStatements(items, types, t, l)
    case WhileIR(_, _, _) => EmitWhile(e, types, t, l)
    case _ => EmitExpr(e, types, t, l)
  }

  function EmitStatements(items: seq<IR>, types: TypeTable, t: nat, l: nat): (r: Emitted)
    ensures r.ok <==> AllSupported(items)
    ensures r.ok ==> t <= r.nextTemp && l <= r.nextLabel && Below(r.value, r.nextTemp)
    decreases items, 0
  {
    if items == [] then Emitted(true, [], Uninitialised, t, l)
    else
      var first := EmitStatement(items[0], types, t, l);
      if !first.ok then Failed
      else
        var rest := EmitStatements(items[1..], types, first.nextTemp, first.nextLabel);
        if !rest.ok then Failed else rest.(code := first.code + rest.code)
  }

  function EmitWhile(e: IR, types: TypeTable, t: nat, l: nat): (r: Emitted)
    requires e.WhileIR?
    ensures r.ok <==> Supported(e)
    ensures r.ok ==> t <= r.nextTemp && l <= r.nextLabel && Below(r.value, r.nextTemp)
    decreases e, 1
  {
    var cond := EmitExpr(e.cond, types, t, l + 3);
    if !cond.ok then Failed
    else
      var body := EmitStatement(e.body, types, cond.nextTemp, cond.nextLabel);
      if !body.ok then Failed
      else Emitted(true, WhileCode(cond, body, l), Uninitialised, body.nextTemp, body.nextLabel)
  }

  function WhileCode(cond: Emitted, body: Emitted, n: nat): Code {
    var condName, bodyName, end := Numbered(WhileCond, n), Numbered(WhileBody, n + 1), Numbered(WhileEnd, n + 2);
    [Br(condName), Label(condName)]
    + (cond.code
    + ([CondBr(cond.value, bodyName, end), Label(bodyName)]
    + (body.code
    + [Br(condName), Label(end)])))
  }

  /** The function `define`d for a body, from the entry block on. */
  function EmitFunction(body: IR, ret: LType, types: TypeTable, t: nat, l: nat): Emitted {
    var r := if ret == Void then EmitStatement(body, types, t, l) else EmitExpr(body, types, t, l);
    if !r.ok then Failed
    else r.(code := r.code + [Ret(ret, if ret == Void then Uninitialised else r.value)])
  }

  // ----- the machine -----

  /** `here` is the block being run and `from` the block it was entered from. */
  datatype Machine = Machine(pc: nat, here: BlockName, from: BlockName, temps: map<nat, Value>, history: History)

  function Read(op: Operand, typ: LType, m: Machine, env: Env): Option<Value> {
    match op
    case Literal(text) => if typ == Double then Some(NumberV(text)) else None
    case Digit(one) => if typ == I1 then Some(BoolV(one)) else None
    case ZeroDouble => if typ == Double then Some(NumberV("0.0")) else None
    case Temp(n) => if n in m.temps then Some(m.temps[n]) else None
    case Parameter(x) => if x in env then Some(env[x]) else None
    case NullPointer => None
    case Uninitialised => None
  }

  function ReadAll(ops: seq<TypedOperand>, m: Machine, env: Env): Option<seq<Value>> {
    if ops == [] then Some([])
    else
      var first, rest := Read(ops[0].operand, ops[0].typ, m, env), ReadAll(ops[1..], m, env);
      if first.Some? && rest.Some? then Some([first.value] + rest.value) else None
  }

  function FindLabel(code: Code, name: BlockName): (i: nat)
    ensures i <= |code| && (i < |code| ==> code[i] == Label(name))
    ensures forall j :: 0 <= j < i ==> code[j] != Label(name)
  {
    if code == [] || code[0] == Label(name) then 0 else 1 + FindLabel(code[1..], name)
  }

  function Jump(code: Code, m: Machine, name: BlockName): Option<Machine> {
    var i := FindLabel(code, name);
    if i < |code| then Some(m.(pc := i + 1, here := name, from := m.here)) else None
  }

  /** One instruction. A block must end in a branch, so running into a label is stuck. */
  function StepMachine(code: Code, m: Machine, oracle: Oracle, env: Env): Option<Machine> {
    if m.pc >= |code| then None
    else
      match code[m.pc]
      case Label(_) => None
      case Ret(_, _) => None
      case Br(target) => Jump(code, m, target)
      case CondBr(c, yes, no) =>
        (match Read(c, I1, m, env)
         case Some(BoolV(b)) => Jump(code, m, if b then yes else no)
         case _ => None)
      case CallI(dst, ret, callee, args) =>
        (match ReadAll(args, m, env)
         case Some(vs) =>
           var v := oracle(m.history, callee, vs);
           Some(m.(pc := m.pc + 1, history := m.history + [Called(callee, vs, v)],
                   temps := if dst.Some? then m.temps[dst.value := v] else m.temps))
         case None => None)
      case Phi(temp, typ, first, firstFrom, second, secondFrom) =>
        var v := if m.from == firstFrom then Read(first, typ, m, env)
                 else if m.from == secondFrom then Read(second, typ, m, env) else None;
        if v.Some? then Some(m.(pc := m.pc + 1, temps := m.temps[temp := v.value])) else None
  }

  /** `k` instructions. */
  function RunMachine(code: Code, m: Machine, k: nat, oracle: Oracle, env: Env): Option<Machine>
    decreases k
  {
    if k == 0 then Some(m)
    else
      match StepMachine(code, m, oracle, env)
      case Some(m1) => RunMachine(code, m1, k - 1, oracle, env)
      case None => None
  }
}
