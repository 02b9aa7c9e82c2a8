/** LLVMEmitter (src/codegen.cpp:86-248): the instructions written so far and the two counters.
    The methods write what Llvm's functions describe and fail exactly where those do. */
module LlvmEmission {
  import opened Syntax
  import opened Ir
  import opened Llvm

  datatype Formal = Formal(name: string, typ: LType)

  datatype Header = Header(name: string, params: seq<Formal>, ret: LType)

  datatype IRFunction = IRFunction(head: Header, body: IR)

  datatype FunctionCode = FunctionCode(head: Header, code: Code)

  /** What is written for one function after another, and whether all of them could be. The
      counters run on from function to function. */
  function EmitProgram(functions: seq<IRFunction>, types: TypeTable, t: nat, l: nat): (r: Option<seq<FunctionCode>>)
    ensures r.Some? ==> |r.value| == |functions|
  {
    if functions == [] then Some([])
    else
      var f := functions[0];
      var r := EmitFunction(f.body, f.head.ret, types, t, l);
      if !r.ok then None
      else
        match EmitProgram(functions[1..], types, r.nextTemp, r.nextLabel)
        case Some(rest) => Some([FunctionCode(f.head, r.code)] + rest)
        case None => None
  }

  lemma Reassociated(o: Code, a: Code, b: Code, c: Code, d: Code, e: Code)
    ensures o + a + b + c + d + e == o + (a + (b + (c + (d + e))))
  {
    assert o + a + b + c + d + e == o + a + b + c + (d + e);
    assert o + a + b + c + (d + e) == o + a + b + (c + (d + e));
    assert o + a + b + (c + (d + e)) == o + a + (b + (c + (d + e)));
  }

  function ElsePart(e: IR, types: TypeTable, t: nat, l: nat): Emitted
    requires e.IfIR?
  {
    if e.elseBranch == Null then Emitted(true, [], ZeroLiteral(TypeOf(e, types)), t, l)
    else EmitExpr(e.elseBranch, types, t, l)
  }

  lemma IfInParts(e: IR, types: TypeTable, t: nat, l: nat)
    requires e.IfIR?
    ensures var cond := EmitExpr(e.cond, types, t, l);
            var yes := EmitExpr(e.thenBranch, types, cond.nextTemp, cond.nextLabel + 3);
            var no := ElsePart(e, types, yes.nextTemp, yes.nextLabel);
            EmitIf(e, types, t, l) == if cond.ok && yes.ok && no.ok then FinishIf(cond, yes, no, TypeOf(e, types)) else Failed
  {
    hide EmitExpr, IfCode, FinishIf;
  }

  lemma BranchesReassociated(o: Code, a: Code, b: Code, c: Code, d: Code)
    ensures o + a + b + c + d == o + (a + (b + (c + d)))
  {
    assert o + a + b + c + d == o + a + b + (c + d);
    assert o + a + b + (c + d) == o + a + (b + (c + d));
  }

  lemma FinishReassociated(o: Code, cond: Emitted, yes: Emitted, no: Emitted, typ: LType)
    ensures var n := cond.nextLabel;
            var split := [CondBr(cond.value, Numbered(IfThen, n), Numbered(IfElse, n + 1)), Label(Numbered(IfThen, n))];
            var written := o + cond.code + split + IfBranches(yes, no, n);
            o + FinishIf(cond, yes, no, typ).code == if typ == Void then written else written + [JoinPhi(cond, yes, no, typ)]
  {
    hide IfBranches, JoinPhi;
    var n := cond.nextLabel;
    var split := [CondBr(cond.value, Numbered(IfThen, n), Numbered(IfElse, n + 1)), Label(Numbered(IfThen, n))];
    BranchesReassociated(o, cond.code, split, IfBranches(yes, no, n), []);
    assert o + cond.code + split + IfBranches(yes, no, n) == o + IfCode(cond, yes, no);
    if typ != Void { assert o + (IfCode(cond, yes, no) + [JoinPhi(cond, yes, no, typ)]) == o + IfCode(cond, yes, no) + [JoinPhi(cond, yes, no, typ)]; }
  }

  /** Emitting what is left completes what was to be emitted. */
  predicate Resumes(all: Emitted, left: Emitted, before: Code, now: Code) {
    all.ok == left.ok
    && (all.ok ==> before + all.code == now + left.code && all.value == left.value
                   && all.nextTemp == left.nextTemp && all.nextLabel == left.nextLabel)
  }

  lemma StatementsBegin(all: Emitted, before: Code)
    ensures Resumes(all, all, before, before)
  {
  }

  lemma StatementsStep(items: seq<IR>, i: nat, types: TypeTable, t: nat, l: nat, all: Emitted, before: Code, now: Code)
    requires i < |items| && Resumes(all, EmitStatements(items[i..], types, t, l), before, now)
    ensures var first := EmitStatement(items[i], types, t, l);
            if first.ok then
              Resumes(all, EmitStatements(items[i + 1..], types, first.nextTemp, first.nextLabel), before, now + first.code)
            else !all.ok
  {
    hide EmitStatement;
    assert items[i..][1..] == items[i + 1..];
    var first := EmitStatement(items[i], types, t, l);
    var rest := EmitStatements(items[i + 1..], types, first.nextTemp, first.nextLabel);
    assert now + (first.code + rest.code) == now + first.code + rest.code;
  }

  lemma StatementsEnd(items: seq<IR>, types: TypeTable, t: nat, l: nat, all: Emitted, before: Code, now: Code)
    requires Resumes(all, EmitStatements(items[|items|..], types, t, l), before, now)
    ensures all.ok && now == before + all.code && all.nextTemp == t && all.nextLabel == l
  {
    assert items[|items|..] == [];
  }

  lemma LastStep(items: seq<IR>, i: nat, types: TypeTable, t: nat, l: nat, all: Emitted, before: Code, now: Code)
    requires i < |items| - 1 && Resumes(all, EmitLast(items[i..], types, t, l), before, now)
    ensures var first := EmitStatement(items[i], types, t, l);
            if first.ok then
              Resumes(all, EmitLast(items[i + 1..], types, first.nextTemp, first.nextLabel), before, now + first.code)
            else !all.ok
  {
    hide EmitStatement, EmitExpr;
    assert items[i..][1..] == items[i + 1..];
    var first := EmitStatement(items[i], types, t, l);
    var rest := EmitLast(items[i + 1..], types, first.nextTemp, first.nextLabel);
    assert now + (first.code + rest.code) == now + first.code + rest.code;
  }

  lemma LastEnd(items: seq<IR>, types: TypeTable, t: nat, l: nat, all: Emitted, before: Code, now: Code)
    requires items != [] && Resumes(all, EmitLast(items[|items| - 1..], types, t, l), before, now)
    ensures var last := EmitExpr(items[|items| - 1], types, t, l);
            all.ok == last.ok
            && (all.ok ==> now + last.code == before + all.code && all.value == last.value
                           && all.nextTemp == last.nextTemp && all.nextLabel == last.nextLabel)
  {
    assert items[|items| - 1..] == [items[|items| - 1]];
  }

  predicate ArgsResume(all: EmittedArgs, left: EmittedArgs, before: Code, now: Code, values: seq<TypedOperand>) {
    all.ok == left.ok
    && (all.ok ==> before + all.code == now + left.code && all.values == values + left.values
                   && all.nextTemp == left.nextTemp && all.nextLabel == left.nextLabel)
  }

  lemma ArgsBegin(all: EmittedArgs, before: Code)
    ensures ArgsResume(all, all, before, before, [])
  {
  }

  lemma ArgsStep(args: seq<IR>, i: nat, types: TypeTable, t: nat, l: nat, all: EmittedArgs, before: Code, now: Code, values: seq<TypedOperand>)
    requires i < |args| && ArgsResume(all, EmitArgs(args[i..], types, t, l), before, now, values)
    ensures var first := EmitExpr(args[i], types, t, l);
            if first.ok then
              ArgsResume(all, EmitArgs(args[i + 1..], types, first.nextTemp, first.nextLabel), before, now + first.code,
                         values + [Typed(TypeOf(args[i], types), first.value)])
            else !all.ok
  {
    hide EmitExpr;
    assert args[i..][1..] == args[i + 1..];
    var first := EmitExpr(args[i], types, t, l);
    var rest := EmitArgs(args[i + 1..], types, first.nextTemp, first.nextLabel);
    assert now + (first.code + rest.code) == now + first.code + rest.code;
    var value := [Typed(TypeOf(args[i], types), first.value)];
    assert values + (value + rest.values) == values + value + rest.values;
  }

  lemma ArgsEnd(args: seq<IR>, types: TypeTable, t: nat, l: nat, all: EmittedArgs, before: Code, now: Code, values: seq<TypedOperand>)
    requires ArgsResume(all, EmitArgs(args[|args|..], types, t, l), before, now, values)
    ensures all.ok && now == before + all.code && values == all.values && all.nextTemp == t && all.nextLabel == l
  {
    assert args[|args|..] == [];
  }

  class LLVMEmitter {
    var out: Code
    var tempCounter: nat
    var labelCounter: nat
    const types: TypeTable

    constructor (types: TypeTable)
      ensures out == [] && tempCounter == 0 && labelCounter == 0 && this.types == types
    {
      out, tempCounter, labelCounter := [], 0, 0;
      this.types := types;
    }

    /** The emitter has written exactly `r`, beginning where `before`, `t` and `l` were. */
    twostate predicate Wrote(ok: bool, r: Emitted)
      reads this
    {
      ok == r.ok
      && (ok ==> out == old(out) + r.code && tempCounter == r.nextTemp && labelCounter == r.nextLabel)
    }

    method NewTemp() returns (n: nat)
      modifies `tempCounter
      ensures n == old(tempCounter) && tempCounter == n + 1
    {
      n := tempCounter;
      tempCounter := tempCounter + 1;
    }

    method NewLabel(prefix: Prefix) returns (name: BlockName)
      modifies `labelCounter
      ensures name == Numbered(prefix, old(labelCounter)) && labelCounter == old(labelCounter) + 1
    {
      name := Numbered(prefix, labelCounter);
      labelCounter := labelCounter + 1;
    }

    method Write(i: Instr)
      modifies `out
      ensures out == old(out) + [i]
    {
      out := out + [i];
    }

    /** The branch that ends a block and the label of the next. */
    method OpenBlock(last: Instr, name: BlockName)
      modifies `out
      ensures out == old(out) + [last, Label(name)]
    {
      Write(last);
      Write(Label(name));
    }

    method StatementOf(e: IR) returns (ok: bool)
      modifies this
      ensures Wrote(ok, EmitStatement(e, types, old(tempCounter), old(labelCounter)))
      decreases e, 3
    {
      if e == Null { return true; }
      if e.SequenceIR? {
        ok := StatementsOf(e.items);
      } else if e.WhileIR? {
        ok := WhileOf(e);
      } else {
        var ignored;
        ok, ignored := ExprOf(e);
      }
    }

    method StatementsOf(items: seq<IR>) returns (ok: bool)
      modifies this
      ensures Wrote(ok, EmitStatements(items, types, old(tempCounter), old(labelCounter)))
      decreases items, 0
    {
      hide EmitStatement, EmitStatements, Resumes;
      ghost var all := EmitStatements(items, types, tempCounter, labelCounter);
      StatementsBegin(all, out);
      assert items[0..] == items;
      for i := 0 to |items|
        invariant Resumes(all, EmitStatements(items[i..], types, tempCounter, labelCounter), old(out), out)
      {
        StatementsStep(items, i, types, tempCounter, labelCounter, all, old(out), out);
        ok := StatementOf(items[i]);
        if !ok { return false; }
      }
      StatementsEnd(items, types, tempCounter, labelCounter, all, old(out), out);
      return true;
    }

    method WhileOf(e: IR) returns (ok: bool)
      requires e.WhileIR?
      modifies this
      ensures Wrote(ok, EmitWhile(e, types, old(tempCounter), old(labelCounter)))
      decreases e, 1
    {
      hide EmitExpr, EmitStatement;
      ghost var cond := EmitExpr(e.cond, types, tempCounter, labelCounter + 3);
      ghost var body := EmitStatement(e.body, types, cond.nextTemp, cond.nextLabel);
      var condName := NewLabel(WhileCond);
      var bodyName := NewLabel(WhileBody);
      var end := NewLabel(WhileEnd);
      OpenBlock(Br(condName), condName);
      var condValue;
      ok, condValue := ExprOf(e.cond);
      if !ok { return; }
      OpenBlock(CondBr(condValue, bodyName, end), bodyName);
      ok := StatementOf(e.body);
      if !ok { return; }
      OpenBlock(Br(condName), end);
      Reassociated(old(out), [Br(condName), Label(condName)], cond.code,
                   [CondBr(condValue, bodyName, end), Label(bodyName)], body.code, [Br(condName), Label(end)]);
    }

    /** emit_expr_llvm; `value` is what it leaves in the caller's value buffer. */
    method ExprOf(e: IR) returns (ok: bool, value: Operand)
      modifies this
      ensures Wrote(ok, EmitExpr(e, types, old(tempCounter), old(labelCounter)))
      ensures ok ==> value == EmitExpr(e, types, old(tempCounter), old(labelCounter)).value
      decreases e, 2
    {
      ok, value := true, Uninitialised;
      match e
      case Null => value := ZeroDouble;
      case NumberIR(_, text) => value := Literal(text);
      case BoolIR(_, b) => value := Digit(b);
      case UnitIR(_) => value := Digit(false);
      case IdentIR(_, x) => value := Parameter(x);
      case CallIR(_, callee, args) =>
        var values;
        ok, values := ArgsOf(args);
        if !ok { return; }
        var ret := TypeOf(e, types);
        if ret == Void {
          Write(CallI(None, ret, callee, values));
          value := Digit(false);
        } else {
          var n := NewTemp();
          Write(CallI(Some(n), ret, callee, values));
          value := Temp(n);
        }
      case SequenceIR(_, items) =>
        if items == [] {
          value := Digit(false);
        } else {
          ok, value := LastOf(items);
        }
      case IfIR(_, _, _, _) => ok, value := IfOf(e);
      case WhileIR(_, _, _) => ok := WhileOf(e);
      case _ => ok := false;
    }

    method ArgsOf(args: seq<IR>) returns (ok: bool, values: seq<TypedOperand>)
      modifies this
      ensures var r := EmitArgs(args, types, old(tempCounter), old(labelCounter));
              ok == r.ok
              && (ok ==> out == old(out) + r.code && tempCounter == r.nextTemp && labelCounter == r.nextLabel
                         && values == r.values)
      decreases args, 0
    {
      hide EmitExpr, EmitArgs, ArgsResume;
      values := [];
      ghost var all := EmitArgs(args, types, tempCounter, labelCounter);
      ArgsBegin(all, out);
      assert args[0..] == args;
      for i := 0 to |args|
        invariant ArgsResume(all, EmitArgs(args[i..], types, tempCounter, labelCounter), old(out), out, values)
      {
        ArgsStep(args, i, types, tempCounter, labelCounter, all, old(out), out, values);
        var value;
        ok, value := ExprOf(args[i]);
        if !ok { return; }
        values := values + [Typed(TypeOf(args[i], types), value)];
      }
      ArgsEnd(args, types, tempCounter, labelCounter, all, old(out), out, values);
      ok := true;
    }

    method LastOf(items: seq<IR>) returns (ok: bool, value: Operand)
      requires items != []
      modifies this
      ensures Wrote(ok, EmitLast(items, types, old(tempCounter), old(labelCounter)))
      ensures ok ==> value == EmitLast(items, types, old(tempCounter), old(labelCounter)).value
      decreases items, 0
    {
      hide EmitExpr, EmitStatement, EmitLast, Resumes;
      value := Uninitialised;
      ghost var all := EmitLast(items, types, tempCounter, labelCounter);
      StatementsBegin(all, out);
      assert items[0..] == items;
      for i := 0 to |items| - 1
        invariant Resumes(all, EmitLast(items[i..], types, tempCounter, labelCounter), old(out), out)
      {
        LastStep(items, i, types, tempCounter, labelCounter, all, old(out), out);
        ok := StatementOf(items[i]);
        if !ok { return; }
      }
      LastEnd(items, types, tempCounter, labelCounter, all, old(out), out);
      ok, value := ExprOf(items[|items| - 1]);
    }

    method IfOf(e: IR) returns (ok: bool, value: Operand)
      requires e.IfIR?
      modifies this
      ensures Wrote(ok, EmitIf(e, types, old(tempCounter), old(labelCounter)))
      ensures ok ==> value == EmitIf(e, types, old(tempCounter), old(labelCounter)).value
      decreases e, 1
    {
      hide EmitExpr, IfBranches, ElsePart, Below, Supported;
      ghost var cond := EmitExpr(e.cond, types, tempCounter, labelCounter);
      ghost var yes := EmitExpr(e.thenBranch, types, cond.nextTemp, cond.nextLabel + 3);
      ghost var no := ElsePart(e, types, yes.nextTemp, yes.nextLabel);
      IfInParts(e, types, tempCounter, labelCounter);
      var condValue;
      ok, condValue := ExprOf(e.cond);
      if !ok { return false, Uninitialised; }
      var thenName := NewLabel(IfThen);
      var elseName := NewLabel(IfElse);
      var end := NewLabel(IfEnd);
      OpenBlock(CondBr(condValue, thenName, elseName), thenName);
      var thenValue, elseValue;
      ok, thenValue, elseValue := BranchesOf(e, elseName, end, cond.nextLabel);
      if !ok { return false, Uninitialised; }
      value := JoinOf(TypeOf(e, types), thenValue, thenName, elseValue, elseName);
      FinishReassociated(old(out), cond, yes, no, TypeOf(e, types));
    }

    /** Both branches, from the block of the first to the opening of the block where they meet. */
    method BranchesOf(e: IR, elseName: BlockName, end: BlockName, ghost n: nat)
      returns (ok: bool, thenValue: Operand, elseValue: Operand)
      requires e.IfIR? && elseName == Numbered(IfElse, n + 1) && end == Numbered(IfEnd, n + 2)
      modifies this
      ensures var yes := EmitExpr(e.thenBranch, types, old(tempCounter), old(labelCounter));
              var no := ElsePart(e, types, yes.nextTemp, yes.nextLabel);
              && ok == (yes.ok && no.ok)
              && (ok ==> out == old(out) + IfBranches(yes, no, n) && thenValue == yes.value && elseValue == no.value
                         && tempCounter == no.nextTemp && labelCounter == no.nextLabel)
      decreases e, 0
    {
      hide EmitExpr, ElsePart, Below, Supported;
      elseValue := Uninitialised;
      ghost var yes := EmitExpr(e.thenBranch, types, tempCounter, labelCounter);
      ghost var no := ElsePart(e, types, yes.nextTemp, yes.nextLabel);
      ok, thenValue := ExprOf(e.thenBranch);
      if !ok { return; }
      OpenBlock(Br(end), elseName);
      ok, elseValue := ElseOf(e);
      if !ok { return; }
      OpenBlock(Br(end), end);
      BranchesReassociated(old(out), yes.code, [Br(end), Label(elseName)], no.code, [Br(end), Label(end)]);
    }

    /** The else branch, or the zero of the type where there is none. */
    method ElseOf(e: IR) returns (ok: bool, value: Operand)
      requires e.IfIR?
      modifies this
      ensures Wrote(ok, ElsePart(e, types, old(tempCounter), old(labelCounter)))
      ensures ok ==> value == ElsePart(e, types, old(tempCounter), old(labelCounter)).value
      decreases e.elseBranch, 4
    {
      if e.elseBranch == Null { return true, ZeroLiteral(TypeOf(e, types)); }
      ok, value := ExprOf(e.elseBranch);
    }

    /** What stands in the block where two branches meet. */
    method JoinOf(typ: LType, thenValue: Operand, thenName: BlockName, elseValue: Operand, elseName: BlockName) returns (value: Operand)
      modifies `out, `tempCounter
      ensures typ == Void ==> value == Digit(false) && out == old(out) && tempCounter == old(tempCounter)
      ensures typ != Void ==> value == Temp(old(tempCounter)) && tempCounter == old(tempCounter) + 1
                              && out == old(out) + [Phi(old(tempCounter), typ, thenValue, thenName, elseValue, elseName)]
    {
      if typ == Void { return Digit(false); }
      var n := NewTemp();
      value := Temp(n);
      Write(Phi(n, typ, thenValue, thenName, elseValue, elseName));
    }

    /** One `define`, with its own output. */
    method FunctionOf(body: IR, ret: LType) returns (ok: bool)
      modifies this
      ensures var r := EmitFunction(body, ret, types, old(tempCounter), old(labelCounter));
              ok == r.ok && (ok ==> out == r.code && tempCounter == r.nextTemp && labelCounter == r.nextLabel)
    {
      out := [];
      var result := Uninitialised;
      if ret == Void {
        ok := StatementOf(body);
      } else {
        ok, result := ExprOf(body);
      }
      if ok { Write(Ret(ret, result)); }
    }

    /** The loop of emit_program_llvm. On failure the output is thrown away. */
    method ProgramOf(functions: seq<IRFunction>) returns (written: Option<seq<FunctionCode>>)
      modifies this
      ensures written == EmitProgram(functions, types, old(tempCounter), old(labelCounter))
    {
      hide EmitFunction;
      var done: seq<FunctionCode> := [];
      assert functions[0..] == functions;
      ghost var all := EmitProgram(functions, types, tempCounter, labelCounter);
      for i := 0 to |functions|
        invariant var left := EmitProgram(functions[i..], types, tempCounter, labelCounter);
                  all.Some? == left.Some? && (all.Some? ==> all.value == done + left.value)
      {
        var f := functions[i];
        assert functions[i..][1..] == functions[i + 1..];
        var ok := FunctionOf(f.body, f.head.ret);
        if !ok { return None; }
        done := done + [FunctionCode(f.head, out)];
      }
      assert functions[|functions|..] == [] && done + [] == done;
      return Some(done);
    }
  }
}
