/** Fresh names: the emitter never gives a label or a temporary out twice. Every number its two
    counters pass over is defined by exactly one emitted instruction, so labels can be jumped to
    and temporaries are in single-assignment form. */
module LlvmNames {
  import opened Syntax
  import opened Ir
  import opened Llvm

  datatype Name = LabelNo(number: nat) | TempNo(number: nat)

  predicate Defines(i: Instr, x: Name) {
    match i
    case Label(Numbered(_, n)) => x == LabelNo(n)
    case CallI(Some(n), _, _, _) => x == TempNo(n)
    case Phi(n, _, _, _, _, _) => x == TempNo(n)
    case _ => false
  }

  /** How often `code` defines `x`. */
  function Count(code: Code, x: Name): nat {
    if code == [] then 0 else (if Defines(code[0], x) then 1 else 0) + Count(code[1..], x)
  }

  /** 1 for the names handed out while the counters went from (t, l) to (t1, l1), 0 for others. */
  function Once(x: Name, t: nat, l: nat, t1: nat, l1: nat): nat {
    match x
    case LabelNo(n) => if l <= n < l1 then 1 else 0
    case TempNo(n) => if t <= n < t1 then 1 else 0
  }

  lemma {:induction false} CountOfConcatenation(a: Code, b: Code, x: Name)
    ensures Count(a + b, x) == Count(a, x) + Count(b, x)
  {
    if a == [] {
      assert a + b == b;
    } else {
      assert (a + b)[1..] == a[1..] + b;
      CountOfConcatenation(a[1..], b, x);
    }
  }

  lemma CountOfTwo(i: Instr, j: Instr, x: Name)
    ensures Count([i, j], x) == (if Defines(i, x) then 1 else 0) + (if Defines(j, x) then 1 else 0)
  {
    assert [i, j][1..] == [j];
    CountOfOne(j, x);
  }

  lemma CountOfOne(i: Instr, x: Name)
    ensures Count([i], x) == if Defines(i, x) then 1 else 0
  {
    assert [i][1..] == [];
  }

  lemma {:induction false} ExprDefinesOnce(e: IR, types: TypeTable, t: nat, l: nat, x: Name)
    requires Supported(e)
    ensures var r := EmitExpr(e, types, t, l);
            Count(r.code, x) == Once(x, t, l, r.nextTemp, r.nextLabel)
    decreases e, 2
  {
    if e.CallIR? {
      ArgsDefineOnce(e.args, types, t, l, x);
      var args := EmitArgs(e.args, types, t, l);
      var call := EmitExpr(e, types, t, l).code[|args.code|];
      CountOfConcatenation(args.code, [call], x);
      CountOfOne(call, x);
    } else if e.SequenceIR? {
      if e.items != [] { LastDefinesOnce(e.items, types, t, l, x); }
    } else if e.IfIR? {
      IfDefinesOnce(e, types, t, l, x);
    } else if e.WhileIR? {
      WhileDefinesOnce(e, types, t, l, x);
    }
  }

  lemma {:induction false} IfDefinesOnce(e: IR, types: TypeTable, t: nat, l: nat, x: Name)
    requires e.IfIR? && Supported(e)
    ensures var r := EmitIf(e, types, t, l);
            Count(r.code, x) == Once(x, t, l, r.nextTemp, r.nextLabel)
    decreases e, 1
  {
    hide EmitExpr, IfCode;
    var c := EmitExpr(e.cond, types, t, l);
    var yes := EmitExpr(e.thenBranch, types, c.nextTemp, c.nextLabel + 3);
    var no := if e.elseBranch == Null then Emitted(true, [], ZeroLiteral(TypeOf(e, types)), yes.nextTemp, yes.nextLabel)
              else EmitExpr(e.elseBranch, types, yes.nextTemp, yes.nextLabel);
    ExprDefinesOnce(e.cond, types, t, l, x);
    ExprDefinesOnce(e.thenBranch, types, c.nextTemp, c.nextLabel + 3, x);
    if e.elseBranch != Null { ExprDefinesOnce(e.elseBranch, types, yes.nextTemp, yes.nextLabel, x); }
    FinishIfDefines(c, yes, no, TypeOf(e, types), x);
  }

  lemma FinishIfDefines(c: Emitted, yes: Emitted, no: Emitted, typ: LType, x: Name)
    ensures var r := FinishIf(c, yes, no, typ);
            Count(r.code, x) == Count(c.code, x) + Count(yes.code, x) + Count(no.code, x)
                                + Once(x, no.nextTemp, c.nextLabel, r.nextTemp, c.nextLabel + 3)
  {
    hide IfCode;
    IfCodeDefines(c, yes, no, x);
    if typ != Void {
      var phi := JoinPhi(c, yes, no, typ);
      CountOfConcatenation(IfCode(c, yes, no), [phi], x);
      CountOfOne(phi, x);
    }
  }

  lemma IfCodeDefines(c: Emitted, yes: Emitted, no: Emitted, x: Name)
    ensures Count(IfCode(c, yes, no), x) == Count(c.code, x) + Count(yes.code, x) + Count(no.code, x)
                                            + (if x.LabelNo? && c.nextLabel <= x.number < c.nextLabel + 3 then 1 else 0)
  {
    var n := c.nextLabel;
    var end := Numbered(IfEnd, n + 2);
    var split := [CondBr(c.value, Numbered(IfThen, n), Numbered(IfElse, n + 1)), Label(Numbered(IfThen, n))];
    var otherwise := [Br(end), Label(Numbered(IfElse, n + 1))];
    var join := [Br(end), Label(end)];
    CountOfTwo(split[0], split[1], x);
    CountOfTwo(otherwise[0], otherwise[1], x);
    CountOfTwo(join[0], join[1], x);
    CountOfConcatenation(no.code, join, x);
    CountOfConcatenation(otherwise, no.code + join, x);
    CountOfConcatenation(yes.code, otherwise + (no.code + join), x);
    CountOfConcatenation(split, IfBranches(yes, no, n), x);
    CountOfConcatenation(c.code, split + IfBranches(yes, no, n), x);
  }

  lemma {:induction false} ArgsDefineOnce(args: seq<IR>, types: TypeTable, t: nat, l: nat, x: Name)
    requires AllSupported(args)
    ensures var r := EmitArgs(args, types, t, l);
            Count(r.code, x) == Once(x, t, l, r.nextTemp, r.nextLabel)
    decreases args, 0
  {
    if args != [] {
      var first := EmitExpr(args[0], types, t, l);
      var rest := EmitArgs(args[1..], types, first.nextTemp, first.nextLabel);
      ExprDefinesOnce(args[0], types, t, l, x);
      ArgsDefineOnce(args[1..], types, first.nextTemp, first.nextLabel, x);
      CountOfConcatenation(first.code, rest.code, x);
    }
  }

  lemma {:induction false} LastDefinesOnce(items: seq<IR>, types: TypeTable, t: nat, l: nat, x: Name)
    requires items != [] && AllSupported(items)
    ensures var r := EmitLast(items, types, t, l);
            Count(r.code, x) == Once(x, t, l, r.nextTemp, r.nextLabel)
    decreases items, 0
  {
    if |items| == 1 {
      ExprDefinesOnce(items[0], types, t, l, x);
    } else {
      var first := EmitStatement(items[0], types, t, l);
      var rest := EmitLast(items[1..], types, first.nextTemp, first.nextLabel);
      StatementDefinesOnce(items[0], types, t, l, x);
      LastDefinesOnce(items[1..], types, first.nextTemp, first.nextLabel, x);
      CountOfConcatenation(first.code, rest.code, x);
    }
  }

  lemma {:induction false} StatementDefinesOnce(e: IR, types: TypeTable, t: nat, l: nat, x: Name)
    requires Supported(e)
    ensures var r := EmitStatement(e, types, t, l);
            Count(r.code, x) == Once(x, t, l, r.nextTemp, r.nextLabel)
    decreases e, 3
  {
    if e.SequenceIR? {
      StatementsDefineOnce(e.items, types, t, l, x);
    } else if e.WhileIR? {
      WhileDefinesOnce(e, types, t, l, x);
    } else if e != Null {
      ExprDefinesOnce(e, types, t, l, x);
    }
  }

  lemma {:induction false} StatementsDefineOnce(items: seq<IR>, types: TypeTable, t: nat, l: nat, x: Name)
    requires AllSupported(items)
    ensures var r := EmitStatements(items, types, t, l);
            Count(r.code, x) == Once(x, t, l, r.nextTemp, r.nextLabel)
    decreases items, 0
  {
    if items != [] {
      var first := EmitStatement(items[0], types, t, l);
      var rest := EmitStatements(items[1..], types, first.nextTemp, first.nextLabel);
      StatementDefinesOnce(items[0], types, t, l, x);
      StatementsDefineOnce(items[1..], types, first.nextTemp, first.nextLabel, x);
      CountOfConcatenation(first.code, rest.code, x);
    }
  }

  lemma {:induction false} WhileDefinesOnce(e: IR, types: TypeTable, t: nat, l: nat, x: Name)
    requires e.WhileIR? && Supported(e)
    ensures var r := EmitWhile(e, types, t, l);
            Count(r.code, x) == Once(x, t, l, r.nextTemp, r.nextLabel)
    decreases e, 1
  {
    var c := EmitExpr(e.cond, types, t, l + 3);
    var body := EmitStatement(e.body, types, c.nextTemp, c.nextLabel);
    ExprDefinesOnce(e.cond, types, t, l + 3, x);
    StatementDefinesOnce(e.body, types, c.nextTemp, c.nextLabel, x);
    var condName, bodyName, end := Numbered(WhileCond, l), Numbered(WhileBody, l + 1), Numbered(WhileEnd, l + 2);
    var enter := [Br(condName), Label(condName)];
    var decide := [CondBr(c.value, bodyName, end), Label(bodyName)];
    var again := [Br(condName), Label(end)];
    CountOfTwo(enter[0], enter[1], x);
    CountOfTwo(decide[0], decide[1], x);
    CountOfTwo(again[0], again[1], x);
    CountOfConcatenation(body.code, again, x);
    CountOfConcatenation(decide, body.code + again, x);
    CountOfConcatenation(c.code, decide + (body.code + again), x);
    CountOfConcatenation(enter, c.code + (decide + (body.code + again)), x);
  }

  lemma {:induction false} CountAtLeast(code: Code, x: Name, i: nat, j: nat)
    requires i <= j < |code| && Defines(code[i], x) && Defines(code[j], x)
    ensures Count(code, x) >= if i < j then 2 else 1
  {
    if i > 0 {
      CountAtLeast(code[1..], x, i - 1, j - 1);
    } else if j > 0 {
      CountAtLeast(code[1..], x, j - 1, j - 1);
    }
  }

  /** No label occurs twice, so a jump has one target. */
  ghost predicate DistinctLabels(code: Code) {
    forall i, j :: 0 <= i < j < |code| && code[i].Label? && code[i].name.Numbered? ==> code[i] != code[j]
  }

  /** Everything an emitted function defines it defines once. */
  lemma FunctionDefinesOnce(body: IR, ret: LType, types: TypeTable, t: nat, l: nat, x: Name)
    requires Supported(body)
    ensures var r := EmitFunction(body, ret, types, t, l);
            Count(r.code, x) == Once(x, t, l, r.nextTemp, r.nextLabel)
  {
    var r := if ret == Void then EmitStatement(body, types, t, l) else EmitExpr(body, types, t, l);
    if ret == Void { StatementDefinesOnce(body, types, t, l, x); } else { ExprDefinesOnce(body, types, t, l, x); }
    var last := Ret(ret, if ret == Void then Uninitialised else r.value);
    CountOfConcatenation(r.code, [last], x);
    CountOfOne(last, x);
  }

  lemma FunctionLabelsDistinct(body: IR, ret: LType, types: TypeTable, t: nat, l: nat)
    requires Supported(body)
    ensures DistinctLabels(EmitFunction(body, ret, types, t, l).code)
  {
    var code := EmitFunction(body, ret, types, t, l).code;
    forall i, j | 0 <= i < j < |code| && code[i].Label? && code[i].name.Numbered? ensures code[i] != code[j] {
      var x := LabelNo(code[i].name.number);
      FunctionDefinesOnce(body, ret, types, t, l, x);
      if code[i] == code[j] { CountAtLeast(code, x, i, j); }
    }
  }
}
