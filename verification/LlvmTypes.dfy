/** What LLVM checks of the types in what is emitted: every operand has the type it is used with, by
    the instruction that defines it, and every call has the type its callee is defined with. */
module LlvmTypes {
  import opened Syntax
  import opened Ir
  import opened Llvm
  import opened LlvmNames
  import opened LlvmEmission
  import opened LlvmSimulation
  import opened LlvmDominance

  // ----- types of operands and instructions -----

  /** The instruction defines temporary `n` with type `typ`. */
  predicate Gives(i: Instr, n: nat, typ: LType) {
    match i
    case CallI(Some(m), t, _, _) => m == n && t == typ
    case Phi(m, t, _, _, _, _) => m == n && t == typ
    case _ => false
  }

  ghost predicate HasType(op: Operand, typ: LType, code: Code, params: Params) {
    match op
    case Literal(_) => typ == Double
    case ZeroDouble => typ == Double
    case Digit(_) => typ == I1
    case NullPointer => typ == Pointer
    case Parameter(x) => x in params && params[x] == typ
    case Temp(n) => exists i :: i in code && Gives(i, n, typ)
    case Uninitialised => false
  }

  /** An instruction of `code` in a function with these parameters and this result. */
  ghost predicate InstrFits(i: Instr, code: Code, params: Params, ret: LType) {
    match i
    case CondBr(c, _, _) => HasType(c, I1, code, params)
    case CallI(dst, typ, _, args) => (dst.None? <==> typ == Void) && ArgsFit(args, code, params)
    case Phi(_, typ, first, _, second, _) => typ != Void && HasType(first, typ, code, params) && HasType(second, typ, code, params)
    case Ret(typ, v) => typ == ret && (if ret == Void then v == Uninitialised else HasType(v, ret, code, params))
    case _ => true
  }

  ghost predicate ArgsFit(args: seq<TypedOperand>, code: Code, params: Params) {
    forall k :: 0 <= k < |args| ==> args[k].typ != Void && HasType(args[k].operand, args[k].typ, code, params)
  }

  ghost predicate AllFit(part: Code, code: Code, params: Params, ret: LType) {
    forall i :: i in part ==> InstrFits(i, code, params, ret)
  }

  ghost predicate TypesFit(code: Code, params: Params, ret: LType) {
    AllFit(code, code, params, ret)
  }

  /** With one definition for each temporary there is one type for each operand. */
  lemma OneType(op: Operand, one: LType, other: LType, code: Code, params: Params)
    requires forall x :: Count(code, x) <= 1
    requires HasType(op, one, code, params) && HasType(op, other, code, params)
    ensures one == other
  {
    if op.Temp? {
      var i :| i in code && Gives(i, op.number, one);
      var j :| j in code && Gives(j, op.number, other);
      OneDefinition(code, i, j, TempNo(op.number));
    }
  }

  lemma {:induction false} OneDefinition(code: Code, i: Instr, j: Instr, x: Name)
    requires Count(code, x) <= 1 && i in code && j in code && Defines(i, x) && Defines(j, x)
    ensures i == j
  {
    if Defines(code[0], x) {
      forall k | k in code[1..] ensures !Defines(k, x) {
        if Defines(k, x) { CountsOne(code[1..], k, x); }
      }
    } else {
      OneDefinition(code[1..], i, j, x);
    }
  }

  lemma {:induction false} CountsOne(code: Code, i: Instr, x: Name)
    requires i in code && Defines(i, x)
    ensures Count(code, x) >= 1
  {
    if code[0] != i { CountsOne(code[1..], i, x); }
  }

  /** What stands for a missing else part has the type of its `if`. */
  lemma ZeroFits(typ: LType, code: Code, params: Params)
    requires typ != Void
    ensures HasType(ZeroLiteral(typ), typ, code, params)
  {
  }

  // ----- types of calls -----

  datatype Signature = Signature(args: seq<LType>, ret: LType)

  type Signatures = map<string, Signature>

  function TypesOf(args: seq<TypedOperand>): seq<LType> {
    seq(|args|, k requires 0 <= k < |args| => args[k].typ)
  }

  /** A call has the type its callee is defined with. */
  predicate CallFits(i: Instr, sigs: Signatures) {
    i.CallI? ==> i.callee in sigs && sigs[i.callee] == Signature(TypesOf(i.args), i.typ)
  }

  ghost predicate CallsFit(code: Code, sigs: Signatures) {
    forall i :: i in code ==> CallFits(i, sigs)
  }

  function TreeTypes(es: seq<IR>, types: TypeTable): seq<LType> {
    seq(|es|, k requires 0 <= k < |es| => TypeOf(es[k], types))
  }

  /** The same of a tree: each function it calls is one of `sigs`, and is given what that takes. */
  predicate CallsDeclared(e: IR, types: TypeTable, sigs: Signatures)
    decreases e, 0
  {
    match e
    case CallIR(typ, callee, args) =>
      AllCallsDeclared(args, types, sigs) && callee in sigs && sigs[callee] == Signature(TreeTypes(args, types), types(typ))
    case SequenceIR(_, items) => AllCallsDeclared(items, types, sigs)
    case IfIR(_, c, yes, no) => CallsDeclared(c, types, sigs) && CallsDeclared(yes, types, sigs) && CallsDeclared(no, types, sigs)
    case WhileIR(_, c, b) => CallsDeclared(c, types, sigs) && CallsDeclared(b, types, sigs)
    case _ => true
  }

  predicate AllCallsDeclared(es: seq<IR>, types: TypeTable, sigs: Signatures)
    decreases es, 0
  {
    es == [] || (CallsDeclared(es[0], types, sigs) && AllCallsDeclared(es[1..], types, sigs))
  }

  // ----- the types of what is emitted -----

  ghost predicate Within(part: Code, code: Code) {
    forall i :: i in part ==> i in code
  }

  lemma CallParts(args: Code, call: Instr, code: Code)
    requires Within(args + [call], code)
    ensures Within(args, code) && call in code
  {
    assert call in args + [call];
  }

  lemma {:induction false} ExprTyped(e: IR, types: TypeTable, params: Params, t: nat, l: nat, code: Code, ret: LType)
    requires WellTyped(e, types, params) && Within(EmitExpr(e, types, t, l).code, code)
    ensures var r := EmitExpr(e, types, t, l);
      AllFit(r.code, code, params, ret) && (TypeOf(e, types) != Void ==> HasType(r.value, TypeOf(e, types), code, params))
    decreases e, 2
  {
    if e.CallIR? {
      CallTyped(e, types, params, t, l, code, ret);
    } else if e.SequenceIR? && e.items != [] {
      LastTyped(e.items, types, params, t, l, code, ret);
    } else if e.IfIR? {
      IfTyped(e, types, params, t, l, code, ret);
    } else if e.WhileIR? {
      WhileTyped(e, types, params, t, l, code, ret);
    }
  }

  lemma {:induction false} CallTyped(e: IR, types: TypeTable, params: Params, t: nat, l: nat, code: Code, ret: LType)
    requires e.CallIR? && WellTyped(e, types, params) && Within(EmitExpr(e, types, t, l).code, code)
    ensures var r := EmitExpr(e, types, t, l);
      AllFit(r.code, code, params, ret) && (TypeOf(e, types) != Void ==> HasType(r.value, TypeOf(e, types), code, params))
    decreases e, 1
  {
    var args, r := EmitArgs(e.args, types, t, l), EmitExpr(e, types, t, l);
    var call := r.code[|args.code|];
    hide EmitArgs, AllWellTyped, ArgsFit;
    assert r.code == args.code + [call];
    CallParts(args.code, call, code);
    ArgsTyped(e.args, types, params, t, l, code, ret);
    if TypeOf(e, types) != Void { assert Gives(call, args.nextTemp, TypeOf(e, types)); }
  }

  lemma {:induction false} ArgsTyped(es: seq<IR>, types: TypeTable, params: Params, t: nat, l: nat, code: Code, ret: LType)
    requires AllWellTyped(es, types, params) && NoneVoid(es, types) && Within(EmitArgs(es, types, t, l).code, code)
    ensures var r := EmitArgs(es, types, t, l); AllFit(r.code, code, params, ret) && ArgsFit(r.values, code, params)
    decreases es, 0
  {
    hide HasType, InstrFits, EmitExpr, WellTyped;
    if es != [] {
      var first := EmitExpr(es[0], types, t, l);
      var rest := EmitArgs(es[1..], types, first.nextTemp, first.nextLabel);
      PartsWithin(first.code, rest.code, code);
      ExprTyped(es[0], types, params, t, l, code, ret);
      ArgsTyped(es[1..], types, params, first.nextTemp, first.nextLabel, code, ret);
      FitAppend(first.code, rest.code, code, params, ret);
    }
  }

  lemma PartsWithin(a: Code, b: Code, code: Code)
    ensures Within(a + b, code) <==> Within(a, code) && Within(b, code)
  {
    if Within(a + b, code) {
      forall i | i in a ensures i in code { assert i in a + b; }
      forall i | i in b ensures i in code { assert i in a + b; }
    }
  }

  lemma FitAppend(a: Code, b: Code, code: Code, params: Params, ret: LType)
    ensures AllFit(a + b, code, params, ret) <==> AllFit(a, code, params, ret) && AllFit(b, code, params, ret)
  {
    hide InstrFits;
    if AllFit(a + b, code, params, ret) {
      forall i | i in a ensures InstrFits(i, code, params, ret) { assert i in a + b; }
      forall i | i in b ensures InstrFits(i, code, params, ret) { assert i in a + b; }
    }
  }

  lemma {:induction false} LastTyped(items: seq<IR>, types: TypeTable, params: Params, t: nat, l: nat, code: Code, ret: LType)
    requires items != [] && AllWellTyped(items, types, params) && Within(EmitLast(items, types, t, l).code, code)
    ensures var r, typ := EmitLast(items, types, t, l), TypeOf(items[|items| - 1], types);
      AllFit(r.code, code, params, ret) && (typ != Void ==> HasType(r.value, typ, code, params))
    decreases items, 0
  {
    hide HasType, InstrFits, EmitExpr, EmitStatement, WellTyped;
    if |items| == 1 {
      ExprTyped(items[0], types, params, t, l, code, ret);
    } else {
      var first := EmitStatement(items[0], types, t, l);
      var rest := EmitLast(items[1..], types, first.nextTemp, first.nextLabel);
      PartsWithin(first.code, rest.code, code);
      StatementTyped(items[0], types, params, t, l, code, ret);
      LastTyped(items[1..], types, params, first.nextTemp, first.nextLabel, code, ret);
      FitAppend(first.code, rest.code, code, params, ret);
    }
  }

  lemma {:induction false} StatementTyped(e: IR, types: TypeTable, params: Params, t: nat, l: nat, code: Code, ret: LType)
    requires WellTyped(e, types, params) && Within(EmitStatement(e, types, t, l).code, code)
    ensures AllFit(EmitStatement(e, types, t, l).code, code, params, ret)
    decreases e, 3
  {
    hide HasType, InstrFits, EmitExpr;
    if e.SequenceIR? {
      StatementsTyped(e.items, types, params, t, l, code, ret);
    } else if e.WhileIR? {
      WhileTyped(e, types, params, t, l, code, ret);
    } else {
      ExprTyped(e, types, params, t, l, code, ret);
    }
  }

  lemma {:induction false} StatementsTyped(items: seq<IR>, types: TypeTable, params: Params, t: nat, l: nat, code: Code, ret: LType)
    requires AllWellTyped(items, types, params) && Within(EmitStatements(items, types, t, l).code, code)
    ensures AllFit(EmitStatements(items, types, t, l).code, code, params, ret)
    decreases items, 0
  {
    hide HasType, InstrFits, EmitStatement, WellTyped;
    if items != [] {
      var first := EmitStatement(items[0], types, t, l);
      var rest := EmitStatements(items[1..], types, first.nextTemp, first.nextLabel);
      PartsWithin(first.code, rest.code, code);
      StatementTyped(items[0], types, params, t, l, code, ret);
      StatementsTyped(items[1..], types, params, first.nextTemp, first.nextLabel, code, ret);
      FitAppend(first.code, rest.code, code, params, ret);
    }
  }

  lemma {:induction false} IfTyped(e: IR, types: TypeTable, params: Params, t: nat, l: nat, code: Code, ret: LType)
    requires e.IfIR? && WellTyped(e, types, params) && Within(EmitIf(e, types, t, l).code, code)
    ensures var r := EmitIf(e, types, t, l);
      AllFit(r.code, code, params, ret) && (TypeOf(e, types) != Void ==> HasType(r.value, TypeOf(e, types), code, params))
    decreases e, 1
  {
    hide EmitExpr, IfCode, HasType, InstrFits;
    var cond := EmitExpr(e.cond, types, t, l);
    var yes := EmitExpr(e.thenBranch, types, cond.nextTemp, cond.nextLabel + 3);
    var no := EmitExpr(e.elseBranch, types, yes.nextTemp, yes.nextLabel);
    FinishWithin(cond, yes, no, TypeOf(e, types), code);
    ExprTyped(e.cond, types, params, t, l, code, ret);
    ExprTyped(e.thenBranch, types, params, cond.nextTemp, cond.nextLabel + 3, code, ret);
    ExprTyped(e.elseBranch, types, params, yes.nextTemp, yes.nextLabel, code, ret);
    FinishTyped(cond, yes, no, TypeOf(e, types), code, params, ret);
  }

  lemma IfMembers(cond: Emitted, yes: Emitted, no: Emitted)
    ensures forall i :: i in IfCode(cond, yes, no) <==>
      i in cond.code || i in yes.code || i in no.code || i in IfSeams(cond)
  {
  }

  /** The instructions of an `if` besides those of its parts. */
  function IfSeams(cond: Emitted): Code {
    var n := cond.nextLabel;
    var ifThen, ifElse, end := Numbered(IfThen, n), Numbered(IfElse, n + 1), Numbered(IfEnd, n + 2);
    [CondBr(cond.value, ifThen, ifElse), Label(ifThen), Br(end), Label(ifElse), Label(end)]
  }

  lemma FinishWithin(cond: Emitted, yes: Emitted, no: Emitted, typ: LType, code: Code)
    requires Within(FinishIf(cond, yes, no, typ).code, code)
    ensures Within(cond.code, code) && Within(yes.code, code) && Within(no.code, code)
    ensures typ != Void ==> JoinPhi(cond, yes, no, typ) in code
  {
    hide IfCode;
    IfMembers(cond, yes, no);
    if typ != Void {
      PartsWithin(IfCode(cond, yes, no), [JoinPhi(cond, yes, no, typ)], code);
      assert JoinPhi(cond, yes, no, typ) in [JoinPhi(cond, yes, no, typ)];
    }
  }

  lemma FinishTyped(cond: Emitted, yes: Emitted, no: Emitted, typ: LType, code: Code, params: Params, ret: LType)
    requires AllFit(cond.code, code, params, ret) && AllFit(yes.code, code, params, ret) && AllFit(no.code, code, params, ret)
    requires HasType(cond.value, I1, code, params)
    requires typ != Void ==> HasType(yes.value, typ, code, params) && HasType(no.value, typ, code, params)
    requires typ != Void ==> JoinPhi(cond, yes, no, typ) in code
    ensures var r := FinishIf(cond, yes, no, typ);
      AllFit(r.code, code, params, ret) && (typ != Void ==> HasType(r.value, typ, code, params))
  {
    hide IfCode;
    IfMembers(cond, yes, no);
    assert AllFit(IfCode(cond, yes, no), code, params, ret);
    if typ != Void {
      var phi := JoinPhi(cond, yes, no, typ);
      FitAppend(IfCode(cond, yes, no), [phi], code, params, ret);
      assert Gives(phi, no.nextTemp, typ);
    }
  }

  lemma {:induction false} WhileTyped(e: IR, types: TypeTable, params: Params, t: nat, l: nat, code: Code, ret: LType)
    requires e.WhileIR? && WellTyped(e, types, params) && Within(EmitWhile(e, types, t, l).code, code)
    ensures AllFit(EmitWhile(e, types, t, l).code, code, params, ret)
    decreases e, 1
  {
    hide EmitExpr, EmitStatement, WhileCode, HasType;
    var cond := EmitExpr(e.cond, types, t, l + 3);
    var body := EmitStatement(e.body, types, cond.nextTemp, cond.nextLabel);
    WhileMembers(cond, body, l);
    ExprTyped(e.cond, types, params, t, l + 3, code, ret);
    StatementTyped(e.body, types, params, cond.nextTemp, cond.nextLabel, code, ret);
  }

  function WhileSeams(cond: Emitted, n: nat): Code {
    var condName, bodyName, end := Numbered(WhileCond, n), Numbered(WhileBody, n + 1), Numbered(WhileEnd, n + 2);
    [Br(condName), Label(condName), CondBr(cond.value, bodyName, end), Label(bodyName), Label(end)]
  }

  lemma WhileMembers(cond: Emitted, body: Emitted, n: nat)
    ensures forall i :: i in WhileCode(cond, body, n) <==> i in cond.code || i in body.code || i in WhileSeams(cond, n)
  {
  }

  /** In the code of a well-typed body every operand has the type it is used with. */
  lemma FunctionTypesFit(body: IR, ret: LType, types: TypeTable, params: Params, t: nat, l: nat)
    requires WellTyped(body, types, params) && (ret != Void ==> TypeOf(body, types) == ret)
    ensures TypesFit(EmitFunction(body, ret, types, t, l).code, params, ret)
  {
    hide EmitExpr, EmitStatement, HasType;
    var r := if ret == Void then EmitStatement(body, types, t, l) else EmitExpr(body, types, t, l);
    var last := Ret(ret, if ret == Void then Uninitialised else r.value);
    var code := r.code + [last];
    PartsWithin(r.code, [last], code);
    assert Within(code, code);
    if ret == Void {
      StatementTyped(body, types, params, t, l, code, ret);
    } else {
      ExprTyped(body, types, params, t, l, code, ret);
    }
    FitAppend(r.code, [last], code, params, ret);
  }

  // ----- the calls of what is emitted -----

  lemma CallsAppend(a: Code, b: Code, sigs: Signatures)
    ensures CallsFit(a + b, sigs) <==> CallsFit(a, sigs) && CallsFit(b, sigs)
  {
    hide CallFits;
    if CallsFit(a + b, sigs) {
      forall i | i in a ensures CallFits(i, sigs) { assert i in a + b; }
      forall i | i in b ensures CallFits(i, sigs) { assert i in a + b; }
    }
  }

  lemma {:induction false} ExprCalls(e: IR, types: TypeTable, t: nat, l: nat, sigs: Signatures)
    requires Supported(e)
    ensures CallsFit(EmitExpr(e, types, t, l).code, sigs) <==> CallsDeclared(e, types, sigs)
    decreases e, 2
  {
    if e.CallIR? {
      var args, r := EmitArgs(e.args, types, t, l), EmitExpr(e, types, t, l);
      var call := r.code[|args.code|];
      hide EmitArgs, AllCallsDeclared;
      assert r.code == args.code + [call];
      ArgsCalls(e.args, types, t, l, sigs);
      CallsAppend(args.code, [call], sigs);
      assert CallsFit([call], sigs) <==> CallFits(call, sigs) by { assert call in [call]; }
    } else if e.SequenceIR? && e.items != [] {
      LastCalls(e.items, types, t, l, sigs);
    } else if e.IfIR? {
      IfCalls(e, types, t, l, sigs);
    } else if e.WhileIR? {
      WhileCalls(e, types, t, l, sigs);
    }
  }

  lemma {:induction false} ArgsCalls(es: seq<IR>, types: TypeTable, t: nat, l: nat, sigs: Signatures)
    requires AllSupported(es)
    ensures var r := EmitArgs(es, types, t, l);
      (CallsFit(r.code, sigs) <==> AllCallsDeclared(es, types, sigs)) && TypesOf(r.values) == TreeTypes(es, types)
    decreases es, 0
  {
    hide EmitExpr, CallFits;
    if es != [] {
      var first := EmitExpr(es[0], types, t, l);
      var rest := EmitArgs(es[1..], types, first.nextTemp, first.nextLabel);
      ExprCalls(es[0], types, t, l, sigs);
      ArgsCalls(es[1..], types, first.nextTemp, first.nextLabel, sigs);
      CallsAppend(first.code, rest.code, sigs);
      var r := EmitArgs(es, types, t, l);
      assert TypesOf(r.values) == [TypeOf(es[0], types)] + TypesOf(rest.values);
      assert TreeTypes(es, types) == [TypeOf(es[0], types)] + TreeTypes(es[1..], types);
    }
  }

  lemma {:induction false} LastCalls(items: seq<IR>, types: TypeTable, t: nat, l: nat, sigs: Signatures)
    requires items != [] && AllSupported(items)
    ensures CallsFit(EmitLast(items, types, t, l).code, sigs) <==> AllCallsDeclared(items, types, sigs)
    decreases items, 0
  {
    hide EmitExpr, EmitStatement, CallFits;
    if |items| == 1 {
      assert items[1..] == [];
      ExprCalls(items[0], types, t, l, sigs);
    } else {
      var first := EmitStatement(items[0], types, t, l);
      var rest := EmitLast(items[1..], types, first.nextTemp, first.nextLabel);
      StatementCalls(items[0], types, t, l, sigs);
      LastCalls(items[1..], types, first.nextTemp, first.nextLabel, sigs);
      CallsAppend(first.code, rest.code, sigs);
    }
  }

  lemma {:induction false} StatementCalls(e: IR, types: TypeTable, t: nat, l: nat, sigs: Signatures)
    requires Supported(e)
    ensures CallsFit(EmitStatement(e, types, t, l).code, sigs) <==> CallsDeclared(e, types, sigs)
    decreases e, 3
  {
    hide EmitExpr, CallFits;
    if e.SequenceIR? {
      StatementsCalls(e.items, types, t, l, sigs);
    } else if e.WhileIR? {
      WhileCalls(e, types, t, l, sigs);
    } else if e != Null {
      ExprCalls(e, types, t, l, sigs);
    }
  }

  lemma {:induction false} StatementsCalls(items: seq<IR>, types: TypeTable, t: nat, l: nat, sigs: Signatures)
    requires AllSupported(items)
    ensures CallsFit(EmitStatements(items, types, t, l).code, sigs) <==> AllCallsDeclared(items, types, sigs)
    decreases items, 0
  {
    hide EmitStatement, CallFits;
    if items != [] {
      var first := EmitStatement(items[0], types, t, l);
      var rest := EmitStatements(items[1..], types, first.nextTemp, first.nextLabel);
      StatementCalls(items[0], types, t, l, sigs);
      StatementsCalls(items[1..], types, first.nextTemp, first.nextLabel, sigs);
      CallsAppend(first.code, rest.code, sigs);
    }
  }

  lemma {:induction false} IfCalls(e: IR, types: TypeTable, t: nat, l: nat, sigs: Signatures)
    requires e.IfIR? && Supported(e)
    ensures CallsFit(EmitIf(e, types, t, l).code, sigs) <==> CallsDeclared(e, types, sigs)
    decreases e, 1
  {
    hide EmitExpr, IfCode;
    var cond := EmitExpr(e.cond, types, t, l);
    var yes := EmitExpr(e.thenBranch, types, cond.nextTemp, cond.nextLabel + 3);
    ExprCalls(e.cond, types, t, l, sigs);
    ExprCalls(e.thenBranch, types, cond.nextTemp, cond.nextLabel + 3, sigs);
    if e.elseBranch != Null { ExprCalls(e.elseBranch, types, yes.nextTemp, yes.nextLabel, sigs); }
    var no := if e.elseBranch == Null then Emitted(true, [], ZeroLiteral(TypeOf(e, types)), yes.nextTemp, yes.nextLabel)
              else EmitExpr(e.elseBranch, types, yes.nextTemp, yes.nextLabel);
    IfMembers(cond, yes, no);
    if TypeOf(e, types) != Void { CallsAppend(IfCode(cond, yes, no), [JoinPhi(cond, yes, no, TypeOf(e, types))], sigs); }
  }

  lemma {:induction false} WhileCalls(e: IR, types: TypeTable, t: nat, l: nat, sigs: Signatures)
    requires e.WhileIR? && Supported(e)
    ensures CallsFit(EmitWhile(e, types, t, l).code, sigs) <==> CallsDeclared(e, types, sigs)
    decreases e, 1
  {
    hide EmitExpr, EmitStatement, WhileCode;
    var cond := EmitExpr(e.cond, types, t, l + 3);
    var body := EmitStatement(e.body, types, cond.nextTemp, cond.nextLabel);
    WhileMembers(cond, body, l);
    ExprCalls(e.cond, types, t, l + 3, sigs);
    StatementCalls(e.body, types, cond.nextTemp, cond.nextLabel, sigs);
  }

  /** The calls of an emitted function have the types of their callees if and only if those of its body do. */
  lemma FunctionCallsFitIff(body: IR, ret: LType, types: TypeTable, t: nat, l: nat, sigs: Signatures)
    requires Supported(body)
    ensures CallsFit(EmitFunction(body, ret, types, t, l).code, sigs) <==> CallsDeclared(body, types, sigs)
  {
    hide EmitExpr, EmitStatement, CallsDeclared;
    var r := if ret == Void then EmitStatement(body, types, t, l) else EmitExpr(body, types, t, l);
    var last := Ret(ret, if ret == Void then Uninitialised else r.value);
    if ret == Void { StatementCalls(body, types, t, l, sigs); } else { ExprCalls(body, types, t, l, sigs); }
    CallsAppend(r.code, [last], sigs);
  }

  // ----- functions and programs -----

  /** What LLVM checks of one function, but for its calls. */
  ghost predicate FunctionIsSound(code: Code, params: Params, ret: LType) {
    FlowIsSound(code) && TypesFit(code, params, ret)
  }

  lemma FunctionIsSoundIff(body: IR, ret: LType, types: TypeTable, params: Params, t: nat, l: nat)
    requires WellTyped(body, types, params) && (ret != Void ==> TypeOf(body, types) == ret)
    ensures FunctionIsSound(EmitFunction(body, ret, types, t, l).code, params, ret) <==> DirectPhis(body, types)
  {
    hide FlowIsSound, TypesFit, EmitFunction, DirectPhis;
    FlowIsSoundIffDirect(body, ret, types, t, l);
    FunctionTypesFit(body, ret, types, params, t, l);
  }
}
