/** The emitted code simulates the tree: it makes the same calls in the same order, names the same
    value, is stuck where the tree goes wrong, and runs on where the tree runs on. */
module LlvmSimulation {
  import opened Syntax
  import opened Meaning
  import opened Ir
  import opened Llvm
  import opened LlvmNames
  import opened Optimizer

  // ----- the trees whose code is right -----

  /** The parameters of a function, with the types it is defined with. */
  type Params = map<string, LType>

  /** Types as the backend needs them: literals have their own type and parameters their declared one,
      conditions are i1, arguments are not void, and a node that has a value has the type of what
      computes that value. */
  predicate WellTyped(e: IR, types: TypeTable, params: Params): (r: bool)
    ensures r ==> Supported(e) && e != Null
    decreases e, 0
  {
    match e
    case NumberIR(typ, _) => types(typ) == Double
    case BoolIR(typ, _) => types(typ) == I1
    case UnitIR(typ) => types(typ) == Void
    case IdentIR(typ, x) => x in params && params[x] == types(typ)
    case CallIR(_, _, args) => AllWellTyped(args, types, params) && NoneVoid(args, types)
    case SequenceIR(typ, items) =>
      AllWellTyped(items, types, params)
      && (types(typ) != Void ==> items != [] && TypeOf(items[|items| - 1], types) == types(typ))
    case IfIR(typ, c, yes, no) =>
      WellTyped(c, types, params) && WellTyped(yes, types, params) && WellTyped(no, types, params)
      && TypeOf(c, types) == I1
      && (types(typ) != Void ==> TypeOf(yes, types) == types(typ) && TypeOf(no, types) == types(typ))
    case WhileIR(typ, c, b) =>
      WellTyped(c, types, params) && WellTyped(b, types, params) && TypeOf(c, types) == I1 && types(typ) == Void
    case _ => false
  }

  predicate AllWellTyped(es: seq<IR>, types: TypeTable, params: Params): (r: bool)
    ensures r ==> AllSupported(es)
    decreases es, 0
  {
    es == [] || (WellTyped(es[0], types, params) && AllWellTyped(es[1..], types, params))
  }

  predicate NoneVoid(es: seq<IR>, types: TypeTable) {
    forall i :: 0 <= i < |es| ==> TypeOf(es[i], types) != Void
  }

  /** The code of `e` stays in the block it begins in. */
  predicate NoBlocks(e: IR)
    decreases e, 0
  {
    match e
    case IfIR(_, _, _, _) => false
    case WhileIR(_, _, _) => false
    case CallIR(_, _, args) => AllNoBlocks(args)
    case SequenceIR(_, items) => AllNoBlocks(items)
    case _ => true
  }

  predicate AllNoBlocks(es: seq<IR>)
    decreases es, 0
  {
    es == [] || (NoBlocks(es[0]) && AllNoBlocks(es[1..]))
  }

  /** The branches of every `if` that has a value stay in the blocks its phi names. */
  predicate DirectPhis(e: IR, types: TypeTable)
    decreases e, 0
  {
    match e
    case IfIR(typ, c, yes, no) =>
      DirectPhis(c, types) && DirectPhis(yes, types) && DirectPhis(no, types)
      && (types(typ) != Void ==> NoBlocks(yes) && NoBlocks(no))
    case WhileIR(_, c, b) => DirectPhis(c, types) && DirectPhis(b, types)
    case CallIR(_, _, args) => AllDirectPhis(args, types)
    case SequenceIR(_, items) => AllDirectPhis(items, types)
    case _ => true
  }

  predicate AllDirectPhis(es: seq<IR>, types: TypeTable)
    decreases es, 0
  {
    es == [] || (DirectPhis(es[0], types) && AllDirectPhis(es[1..], types))
  }

  // ----- runs of the machine -----

  datatype Ctx = Ctx(code: Code, types: TypeTable, oracle: Oracle, params: Params, env: Env)

  /** Every parameter has a value. */
  predicate Supplied(c: Ctx) {
    c.params.Keys <= c.env.Keys
  }

  ghost predicate Ready(c: Ctx, e: IR) {
    WellTyped(e, c.types, c.params) && Supplied(c) && DirectPhis(e, c.types) && DistinctLabels(c.code)
  }

  ghost predicate AllReady(c: Ctx, es: seq<IR>) {
    AllWellTyped(es, c.types, c.params) && Supplied(c) && AllDirectPhis(es, c.types) && DistinctLabels(c.code)
  }

  predicate At(code: Code, pos: nat, part: Code) {
    pos + |part| <= |code| && code[pos..pos + |part|] == part
  }

  ghost predicate Ran(c: Ctx, m: Machine, k: nat, n: Machine) {
    RunMachine(c.code, m, k, c.oracle, c.env) == Some(n)
  }

  /** A branch on something that is neither true nor false. */
  predicate Stuck(c: Ctx, m: Machine) {
    m.pc < |c.code| && c.code[m.pc].CondBr? && StepMachine(c.code, m, c.oracle, c.env) == None
  }

  /** Temporaries below `t` have kept their values. */
  ghost predicate Kept(m: Machine, n: Machine, t: nat) {
    forall i :: i < t && i in m.temps ==> i in n.temps && n.temps[i] == m.temps[i]
  }

  /** In `k` instructions the machine goes from `m` to `n`, and that is what outcome `o` says. */
  ghost predicate Follows(c: Ctx, m: Machine, o: Outcome, k: nat, n: Machine, fuel: nat, end: nat, t: nat) {
    Ran(c, m, k, n)
    && (match o
        case Done(_, h) => n.history == h && n.pc == end && Kept(m, n, t)
        case OutOfFuel(h) => n.history == h && fuel <= k
        case Wrong(h) => n.history == h && Stuck(c, n)
        case Unsafe => false)
  }

  predicate Entered(before: BlockName, after: BlockName, noBlocks: bool, l: nat, l1: nat) {
    if noBlocks then after == before else after.Numbered? && l <= after.number < l1
  }

  ghost function Meant(c: Ctx, e: IR, m: Machine, fuel: nat): Outcome {
    Eval(e, c.oracle, c.env, m.history, fuel, false)
  }

  ghost function AllMeant(c: Ctx, es: seq<IR>, m: Machine, fuel: nat): Outcomes {
    EvalAll(es, c.oracle, c.env, m.history, fuel, false)
  }

  /** The outcome of a sequence whose items have the outcomes `os`. */
  function LastOf(os: Outcomes): Outcome {
    match os
    case AllDone(vs, h) => Done(if vs == [] then UnitV else vs[|vs| - 1], h)
    case Stopped(o) => o
  }

  // ----- small steps -----

  lemma AtConcatenation(code: Code, pos: nat, a: Code, b: Code)
    requires At(code, pos, a + b)
    ensures At(code, pos, a) && At(code, pos + |a|, b)
  {
    var ab := code[pos..pos + |a + b|];
    assert ab[..|a|] == a && ab[|a|..] == b;
  }

  lemma {:induction false} RunsCompose(c: Ctx, m: Machine, i: nat, n: Machine, j: nat, p: Machine)
    requires Ran(c, m, i, n) && Ran(c, n, j, p)
    ensures Ran(c, m, i + j, p)
    decreases i
  {
    hide StepMachine;
    if i > 0 {
      RunsCompose(c, StepMachine(c.code, m, c.oracle, c.env).value, i - 1, n, j, p);
    }
  }

  lemma Here(c: Ctx, m: Machine) returns (k: nat, n: Machine)
    ensures k == 0 && n == m && Ran(c, m, 0, m) && forall t :: Kept(m, m, t)
  {
    k, n := 0, m;
  }

  /** A finished run followed by a run with outcome `o`. */
  lemma FollowsAfter(c: Ctx, m: Machine, i: nat, n: Machine, o: Outcome, j: nat, p: Machine, fuel: nat, end: nat, t: nat, t1: nat)
    requires Ran(c, m, i, n) && Kept(m, n, t) && t <= t1
    requires Follows(c, n, o, j, p, fuel, end, t1)
    ensures Follows(c, m, o, i + j, p, fuel, end, t)
    ensures o.OutOfFuel? ==> Follows(c, m, o, i + j, p, fuel + i, end, t)
  {
    RunsCompose(c, m, i, n, j, p);
  }

  lemma {:induction false} FirstLabel(code: Code, name: BlockName, i: nat)
    requires DistinctLabels(code) && i < |code| && code[i] == Label(name) && name.Numbered?
    ensures FindLabel(code, name) == i
  {
    var j := FindLabel(code, name);
    assert j < |code| ==> code[j] == code[i];
  }

  function Jumped(m: Machine, i: nat, name: BlockName): Machine {
    m.(pc := i + 1, here := name, from := m.here)
  }

  lemma OneStep(c: Ctx, m: Machine, n: Machine)
    requires StepMachine(c.code, m, c.oracle, c.env) == Some(n)
    ensures Ran(c, m, 1, n)
  {
    assert RunMachine(c.code, n, 0, c.oracle, c.env) == Some(n);
  }

  lemma BrRuns(c: Ctx, m: Machine, name: BlockName, i: nat)
    requires DistinctLabels(c.code) && i < |c.code| && c.code[i] == Label(name) && name.Numbered?
    requires m.pc < |c.code| && c.code[m.pc] == Br(name)
    ensures Ran(c, m, 1, Jumped(m, i, name))
  {
    FirstLabel(c.code, name, i);
    OneStep(c, m, Jumped(m, i, name));
  }

  lemma CondBrRuns(c: Ctx, m: Machine, op: Operand, yes: BlockName, no: BlockName, b: bool, i: nat)
    requires m.pc < |c.code| && c.code[m.pc] == CondBr(op, yes, no)
    requires Read(op, I1, m, c.env) == Some(BoolV(b))
    requires DistinctLabels(c.code) && i < |c.code| && c.code[i] == Label(if b then yes else no) && yes.Numbered? && no.Numbered?
    ensures Ran(c, m, 1, Jumped(m, i, if b then yes else no))
  {
    FirstLabel(c.code, if b then yes else no, i);
    OneStep(c, m, Jumped(m, i, if b then yes else no));
  }

  lemma CondBrStuck(c: Ctx, m: Machine, op: Operand, yes: BlockName, no: BlockName, v: Value)
    requires m.pc < |c.code| && c.code[m.pc] == CondBr(op, yes, no)
    requires Read(op, I1, m, c.env) == Some(v) && !v.BoolV?
    ensures Stuck(c, m)
  {
  }

  lemma ReadKept(op: Operand, typ: LType, m: Machine, n: Machine, env: Env, t: nat)
    requires Below(op, t) && Kept(m, n, t) && Read(op, typ, m, env).Some?
    ensures Read(op, typ, n, env) == Read(op, typ, m, env)
  {
  }

  // ----- arguments and sequences -----

  lemma {:induction false} ArgsFollow(c: Ctx, args: seq<IR>, t: nat, l: nat, pos: nat, m: Machine, fuel: nat)
    returns (k: nat, n: Machine)
    requires AllReady(c, args) && NoneVoid(args, c.types)
    requires At(c.code, pos, EmitArgs(args, c.types, t, l).code) && m.pc == pos
    ensures var r := EmitArgs(args, c.types, t, l);
            var os := AllMeant(c, args, m, fuel);
            && Follows(c, m, LastOf(os), k, n, fuel, pos + |r.code|, t)
            && (os.Stopped? ==> !os.outcome.Done?)
            && (os.AllDone? ==> ReadAll(r.values, n, c.env) == Some(os.values)
                                && Entered(m.here, n.here, AllNoBlocks(args), l, r.nextLabel))
    decreases fuel, args, 0
  {
    hide StepMachine, RunMachine, EmitExpr, Eval, WellTyped, DirectPhis, NoBlocks, Read, At, Kept, Stuck, Supported;
    if args == [] {
      k, n := Here(c, m);
    } else {
      var r := EmitArgs(args, c.types, t, l);
      var first := EmitExpr(args[0], c.types, t, l);
      var rest := EmitArgs(args[1..], c.types, first.nextTemp, first.nextLabel);
      AtConcatenation(c.code, pos, first.code, rest.code);
      var o := Meant(c, args[0], m, fuel);
      var i, p := ExprFollows(c, args[0], t, l, pos, m, fuel);
      if !o.Done? {
        k, n := i, p;
      } else {
        var j, q := ArgsFollow(c, args[1..], first.nextTemp, first.nextLabel, pos + |first.code|, p, fuel);
        k, n := i + j, q;
        var os := AllMeant(c, args[1..], p, fuel);
        FollowsAfter(c, m, i, p, LastOf(os), j, q, fuel, pos + |r.code|, t, first.nextTemp);
        if os.AllDone? {
          ReadKept(first.value, TypeOf(args[0], c.types), p, q, c.env, first.nextTemp);
          ReadAllAppends(Typed(TypeOf(args[0], c.types), first.value), rest.values, q, c.env);
        }
        LastOfCons(o.value, os);
      }
    }
  }

  lemma ReadAllAppends(first: TypedOperand, rest: seq<TypedOperand>, m: Machine, env: Env)
    requires Read(first.operand, first.typ, m, env).Some? && ReadAll(rest, m, env).Some?
    ensures ReadAll([first] + rest, m, env) == Some([Read(first.operand, first.typ, m, env).value] + ReadAll(rest, m, env).value)
  {
    assert ([first] + rest)[1..] == rest;
  }

  /** Prefixing a value does not change when and how a list of outcomes ends. */
  lemma LastOfCons(v: Value, os: Outcomes)
    ensures os.AllDone? ==> LastOf(AllDone([v] + os.values, os.history)).history == os.history
    ensures os.AllDone? && os.values != [] ==> LastOf(AllDone([v] + os.values, os.history)) == LastOf(os)
  {
  }

  function Start(h: History): Machine {
    Machine(0, Entry, Entry, map[], h)
  }

  /** What simulating `e` by the emitted `r` at `pos` means. */
  ghost predicate Simulated(c: Ctx, e: IR, r: Emitted, t: nat, l: nat, pos: nat, m: Machine, fuel: nat, k: nat, n: Machine) {
    var o := Meant(c, e, m, fuel);
    && Follows(c, m, o, k, n, fuel, pos + |r.code|, t)
    && (o.Done? ==> Entered(m.here, n.here, NoBlocks(e), l, r.nextLabel))
  }

  ghost predicate Valued(c: Ctx, e: IR, r: Emitted, m: Machine, fuel: nat, n: Machine) {
    var o := Meant(c, e, m, fuel);
    o.Done? && TypeOf(e, c.types) != Void ==> Read(r.value, TypeOf(e, c.types), n, c.env) == Some(o.value)
  }

  lemma {:induction false} ExprFollows(c: Ctx, e: IR, t: nat, l: nat, pos: nat, m: Machine, fuel: nat)
    returns (k: nat, n: Machine)
    requires Ready(c, e)
    requires At(c.code, pos, EmitExpr(e, c.types, t, l).code) && m.pc == pos
    ensures Simulated(c, e, EmitExpr(e, c.types, t, l), t, l, pos, m, fuel, k, n)
    ensures Valued(c, e, EmitExpr(e, c.types, t, l), m, fuel, n)
    decreases fuel, e, 4
  {
    hide StepMachine, RunMachine, EmitIf, EmitWhile, EmitArgs, EmitLast, Kept, Stuck, Supported, At;
    if e.CallIR? {
      k, n := CallFollows(c, e, t, l, pos, m, fuel);
    } else if e.SequenceIR? && e.items != [] {
      k, n := LastFollows(c, e.items, t, l, pos, m, fuel);
    } else if e.IfIR? {
      k, n := IfFollows(c, e, t, l, pos, m, fuel);
    } else if e.WhileIR? {
      k, n := WhileFollows(c, e, t, l, pos, m, fuel);
    } else {
      k, n := Here(c, m);
      LeafIsDone(c, e, t, l, m, fuel);
    }
  }

  lemma LeafIsDone(c: Ctx, e: IR, t: nat, l: nat, m: Machine, fuel: nat)
    requires Ready(c, e) && !e.CallIR? && !e.IfIR? && !e.WhileIR? && (e.SequenceIR? ==> e.items == [])
    ensures var r := EmitExpr(e, c.types, t, l);
            var o := Meant(c, e, m, fuel);
            && r.code == [] && NoBlocks(e) && o.Done? && o.history == m.history
            && (TypeOf(e, c.types) != Void ==> Read(r.value, TypeOf(e, c.types), m, c.env) == Some(o.value))
  {
    match e {
      case IdentIR(_, x) => assert x in c.env;
      case SequenceIR(_, items) => assert AllMeant(c, items, m, fuel) == AllDone([], m.history);
      case NumberIR(_, _) =>
      case BoolIR(_, _) =>
      case UnitIR(_) =>
      case _ => assert false;
    }
  }

  lemma {:induction false} CallFollows(c: Ctx, e: IR, t: nat, l: nat, pos: nat, m: Machine, fuel: nat)
    returns (k: nat, n: Machine)
    requires Ready(c, e) && e.CallIR?
    requires At(c.code, pos, EmitExpr(e, c.types, t, l).code) && m.pc == pos
    ensures Simulated(c, e, EmitExpr(e, c.types, t, l), t, l, pos, m, fuel, k, n)
    ensures Valued(c, e, EmitExpr(e, c.types, t, l), m, fuel, n)
    decreases fuel, e, 3
  {
    hide StepMachine, RunMachine, EmitArgs, Stuck, Supported, At, ReadAll, EvalAll;
    var args := EmitArgs(e.args, c.types, t, l);
    var typ := TypeOf(e, c.types);
    var dst := if typ == Void then None else Some(args.nextTemp);
    var call := CallI(dst, typ, e.callee, args.values);
    assert EmitExpr(e, c.types, t, l).code == args.code + [call];
    AtConcatenation(c.code, pos, args.code, [call]);
    var i, p := ArgsFollow(c, e.args, t, l, pos, m, fuel);
    var os := AllMeant(c, e.args, m, fuel);
    if os.Stopped? {
      k, n := i, p;
    } else {
      n := CallRuns(c, p, dst, typ, e.callee, args.values, os.values);
      k := i + 1;
      RunsCompose(c, m, i, p, 1, n);
    }
  }

  lemma CallRuns(c: Ctx, m: Machine, dst: Option<nat>, typ: LType, callee: string, args: seq<TypedOperand>, vs: seq<Value>)
    returns (n: Machine)
    requires At(c.code, m.pc, [CallI(dst, typ, callee, args)]) && ReadAll(args, m, c.env) == Some(vs)
    ensures Ran(c, m, 1, n)
    ensures var v := c.oracle(m.history, callee, vs);
            && n.pc == m.pc + 1 && n.here == m.here && n.history == m.history + [Called(callee, vs, v)]
            && n.temps == if dst.Some? then m.temps[dst.value := v] else m.temps
  {
    assert c.code[m.pc] == c.code[m.pc..m.pc + 1][0];
    n := StepMachine(c.code, m, c.oracle, c.env).value;
    OneStep(c, m, n);
  }

  lemma {:induction false} LastFollows(c: Ctx, items: seq<IR>, t: nat, l: nat, pos: nat, m: Machine, fuel: nat)
    returns (k: nat, n: Machine)
    requires AllReady(c, items) && items != []
    requires At(c.code, pos, EmitLast(items, c.types, t, l).code) && m.pc == pos
    ensures var r := EmitLast(items, c.types, t, l);
            var o := LastOf(AllMeant(c, items, m, fuel));
            var typ := TypeOf(items[|items| - 1], c.types);
            && Follows(c, m, o, k, n, fuel, pos + |r.code|, t)
            && (o.Done? ==> Entered(m.here, n.here, AllNoBlocks(items), l, r.nextLabel))
            && (o.Done? && typ != Void ==> Read(r.value, typ, n, c.env) == Some(o.value))
    ensures var os := AllMeant(c, items, m, fuel);
            if os.AllDone? then os.values != [] else !os.outcome.Done?
    decreases fuel, items, 0
  {
    hide StepMachine, RunMachine, EmitExpr, EmitStatement, Eval, WellTyped, DirectPhis, NoBlocks, Read, At, Kept, Stuck, Supported;
    if |items| == 1 {
      k, n := ExprFollows(c, items[0], t, l, pos, m, fuel);
      assert items[1..] == [] && AllMeant(c, [], n, fuel) == AllDone([], n.history);
    } else {
      var r := EmitLast(items, c.types, t, l);
      var first := EmitStatement(items[0], c.types, t, l);
      var rest := EmitLast(items[1..], c.types, first.nextTemp, first.nextLabel);
      AtConcatenation(c.code, pos, first.code, rest.code);
      var i, p := StatementFollows(c, items[0], t, l, pos, m, fuel);
      var o := Meant(c, items[0], m, fuel);
      if !o.Done? {
        k, n := i, p;
      } else {
        var j, q := LastFollows(c, items[1..], first.nextTemp, first.nextLabel, pos + |first.code|, p, fuel);
        k, n := i + j, q;
        var os := AllMeant(c, items[1..], p, fuel);
        FollowsAfter(c, m, i, p, LastOf(os), j, q, fuel, pos + |r.code|, t, first.nextTemp);
        LastOfCons(o.value, os);
        assert items[1..][|items[1..]| - 1] == items[|items| - 1];
      }
    }
  }

  lemma {:induction false} StatementFollows(c: Ctx, e: IR, t: nat, l: nat, pos: nat, m: Machine, fuel: nat)
    returns (k: nat, n: Machine)
    requires Ready(c, e)
    requires At(c.code, pos, EmitStatement(e, c.types, t, l).code) && m.pc == pos
    ensures Simulated(c, e, EmitStatement(e, c.types, t, l), t, l, pos, m, fuel, k, n)
    decreases fuel, e, 5
  {
    hide StepMachine, RunMachine, EmitExpr, EmitWhile, EmitStatements, Kept, Stuck, Supported, At;
    if e.SequenceIR? {
      k, n := StatementsFollow(c, e.items, t, l, pos, m, fuel);
    } else if e.WhileIR? {
      k, n := WhileFollows(c, e, t, l, pos, m, fuel);
    } else {
      k, n := ExprFollows(c, e, t, l, pos, m, fuel);
    }
  }

  lemma {:induction false} StatementsFollow(c: Ctx, items: seq<IR>, t: nat, l: nat, pos: nat, m: Machine, fuel: nat)
    returns (k: nat, n: Machine)
    requires AllReady(c, items)
    requires At(c.code, pos, EmitStatements(items, c.types, t, l).code) && m.pc == pos
    ensures var r := EmitStatements(items, c.types, t, l);
            var o := LastOf(AllMeant(c, items, m, fuel));
            && Follows(c, m, o, k, n, fuel, pos + |r.code|, t)
            && (o.Done? ==> Entered(m.here, n.here, AllNoBlocks(items), l, r.nextLabel))
    ensures var os := AllMeant(c, items, m, fuel); os.Stopped? ==> !os.outcome.Done?
    decreases fuel, items, 0
  {
    hide StepMachine, RunMachine, EmitExpr, EmitStatement, Eval, WellTyped, DirectPhis, NoBlocks, Read, At, Kept, Stuck, Supported;
    if items == [] {
      k, n := Here(c, m);
    } else {
      var r := EmitStatements(items, c.types, t, l);
      var first := EmitStatement(items[0], c.types, t, l);
      var rest := EmitStatements(items[1..], c.types, first.nextTemp, first.nextLabel);
      AtConcatenation(c.code, pos, first.code, rest.code);
      var i, p := StatementFollows(c, items[0], t, l, pos, m, fuel);
      var o := Meant(c, items[0], m, fuel);
      if !o.Done? {
        k, n := i, p;
      } else {
        var j, q := StatementsFollow(c, items[1..], first.nextTemp, first.nextLabel, pos + |first.code|, p, fuel);
        k, n := i + j, q;
        var os := AllMeant(c, items[1..], p, fuel);
        FollowsAfter(c, m, i, p, LastOf(os), j, q, fuel, pos + |r.code|, t, first.nextTemp);
        LastOfCons(o.value, os);
      }
    }
  }

  // ----- if -----

  /** Where the parts of an `if` lie. */
  lemma IfLayout(code: Code, pos: nat, cond: Emitted, yes: Emitted, no: Emitted)
    requires At(code, pos, IfCode(cond, yes, no))
    ensures var n := cond.nextLabel;
            var split := pos + |cond.code|;
            && |IfCode(cond, yes, no)| == |cond.code| + 2 + |IfBranches(yes, no, n)|
            && split + 2 <= |code|
            && At(code, pos, cond.code) && At(code, split + 2, IfBranches(yes, no, n))
            && code[split] == CondBr(cond.value, Numbered(IfThen, n), Numbered(IfElse, n + 1))
            && code[split + 1] == Label(Numbered(IfThen, n))
  {
    hide At, IfBranches;
    var n := cond.nextLabel;
    AtPair(code, pos, cond.code, CondBr(cond.value, Numbered(IfThen, n), Numbered(IfElse, n + 1)),
           Label(Numbered(IfThen, n)), IfBranches(yes, no, n));
  }

  lemma BranchLayout(code: Code, pos: nat, yes: Emitted, no: Emitted, n: nat)
    requires At(code, pos, IfBranches(yes, no, n))
    ensures var end := Numbered(IfEnd, n + 2);
            var otherwise := pos + |yes.code|;
            var join := otherwise + 2 + |no.code|;
            && join + 2 == pos + |IfBranches(yes, no, n)| <= |code|
            && At(code, pos, yes.code) && At(code, otherwise + 2, no.code)
            && code[otherwise] == Br(end) && code[otherwise + 1] == Label(Numbered(IfElse, n + 1))
            && code[join] == Br(end) && code[join + 1] == Label(end)
  {
    hide At;
    var end := Numbered(IfEnd, n + 2);
    var last := no.code + [Br(end), Label(end)];
    AtPair(code, pos, yes.code, Br(end), Label(Numbered(IfElse, n + 1)), last);
    AtConcatenation(code, pos + |yes.code| + 2, no.code, [Br(end), Label(end)]);
    AtTwo(code, pos + |yes.code| + 2 + |no.code|, Br(end), Label(end));
  }

  lemma AtPair(code: Code, pos: nat, a: Code, i: Instr, j: Instr, rest: Code)
    requires At(code, pos, a + ([i, j] + rest))
    ensures At(code, pos, a) && At(code, pos + |a| + 2, rest)
    ensures pos + |a| + 2 <= |code| && code[pos + |a|] == i && code[pos + |a| + 1] == j
  {
    AtConcatenation(code, pos, a, [i, j] + rest);
    AtConcatenation(code, pos + |a|, [i, j], rest);
    AtTwo(code, pos + |a|, i, j);
  }

  lemma AtTwo(code: Code, pos: nat, a: Instr, b: Instr)
    requires At(code, pos, [a, b])
    ensures pos + 2 <= |code| && code[pos] == a && code[pos + 1] == b
  {
    var ab := code[pos..pos + 2];
    assert ab[0] == code[pos] && ab[1] == code[pos + 1];
  }

  /** From the first instruction of a branch to the block where both branches meet. */
  lemma {:induction false} BranchFollows(c: Ctx, e: IR, t: nat, l: nat, m: Machine, end: BlockName, endAt: nat, fuel: nat)
    returns (k: nat, n: Machine)
    requires Ready(c, e)
    requires At(c.code, m.pc, EmitExpr(e, c.types, t, l).code + [Br(end)])
    requires endAt < |c.code| && c.code[endAt] == Label(end) && end.Numbered?
    ensures var r := EmitExpr(e, c.types, t, l);
            var o := Meant(c, e, m, fuel);
            && Follows(c, m, o, k, n, fuel, endAt + 1, t)
            && (o.Done? ==> n.here == end && Entered(m.here, n.from, NoBlocks(e), l, r.nextLabel))
    ensures Valued(c, e, EmitExpr(e, c.types, t, l), m, fuel, n)
    decreases fuel, e, 5
  {
    hide StepMachine, RunMachine, EmitExpr, Eval, Stuck, WellTyped, DirectPhis, NoBlocks, Supported;
    var r := EmitExpr(e, c.types, t, l);
    AtConcatenation(c.code, m.pc, r.code, [Br(end)]);
    var i, p := ExprFollows(c, e, t, l, m.pc, m, fuel);
    if Meant(c, e, m, fuel).Done? {
      assert c.code[p.pc] == c.code[p.pc..p.pc + 1][0];
      BrRuns(c, p, end, endAt);
      k, n := i + 1, Jumped(p, endAt, end);
      RunsCompose(c, m, i, p, 1, n);
    } else {
      k, n := i, p;
    }
  }

  /** An `if` whose own phi may be wrong, up to the block where its branches meet. `taken` says
      which branch ran. */
  lemma {:induction false} IfMeets(c: Ctx, e: IR, cond: Emitted, yes: Emitted, no: Emitted, t: nat, l: nat, pos: nat, m: Machine, fuel: nat)
    returns (k: nat, n: Machine, taken: bool)
    requires e.IfIR? && Ready(c, e.cond) && Ready(c, e.thenBranch) && Ready(c, e.elseBranch) && TypeOf(e.cond, c.types) == I1
    requires cond == EmitExpr(e.cond, c.types, t, l)
    requires yes == EmitExpr(e.thenBranch, c.types, cond.nextTemp, cond.nextLabel + 3)
    requires no == EmitExpr(e.elseBranch, c.types, yes.nextTemp, yes.nextLabel)
    requires At(c.code, pos, IfCode(cond, yes, no)) && m.pc == pos
    ensures var o := Meant(c, e, m, fuel);
            && Follows(c, m, o, k, n, fuel, pos + |IfCode(cond, yes, no)|, t)
            && (o.Done? ==> n.here == Numbered(IfEnd, cond.nextLabel + 2)
                            && MetFrom(c, e, cond, yes, no, n, taken, o.value)
                            && Chosen(c, e.cond, m, fuel) == Some(taken))
    decreases fuel, e, 2
  {
    hide StepMachine, RunMachine, EmitExpr, Stuck, WellTyped, DirectPhis, NoBlocks, Supported, IfCode, IfBranches, At, Entered,
         DistinctLabels, MetFrom, Read, Kept;
    taken := true;
    IfLayout(c.code, pos, cond, yes, no);
    BranchLayout(c.code, pos + |cond.code| + 2, yes, no, cond.nextLabel);
    var i, p := ExprFollows(c, e.cond, t, l, pos, m, fuel);
    var o := Meant(c, e.cond, m, fuel);
    var first := cond.nextLabel;
    if !o.Done? {
      k, n := i, p;
    } else if !o.value.BoolV? {
      k, n := i, p;
      CondBrStuck(c, p, cond.value, Numbered(IfThen, first), Numbered(IfElse, first + 1), o.value);
    } else {
      taken := o.value.value;
      var j;
      j, n := TakenFollows(c, e, cond, yes, no, taken, t, l, pos, p, fuel);
      FollowsAfter(c, m, i, p, Meant(c, if taken then e.thenBranch else e.elseBranch, p, fuel), j, n, fuel,
                   pos + |IfCode(cond, yes, no)|, t, cond.nextTemp);
      k := i + j;
    }
  }

  /** The same from the conditional branch on, when the condition is known to be `taken`. */
  lemma {:induction false} TakenFollows(c: Ctx, e: IR, cond: Emitted, yes: Emitted, no: Emitted, taken: bool,
                                            t: nat, l: nat, pos: nat, m: Machine, fuel: nat)
    returns (k: nat, n: Machine)
    requires e.IfIR? && Ready(c, e.thenBranch) && Ready(c, e.elseBranch) && Supported(e.cond)
    requires cond == EmitExpr(e.cond, c.types, t, l)
    requires yes == EmitExpr(e.thenBranch, c.types, cond.nextTemp, cond.nextLabel + 3)
    requires no == EmitExpr(e.elseBranch, c.types, yes.nextTemp, yes.nextLabel)
    requires At(c.code, pos, IfCode(cond, yes, no)) && m.pc == pos + |cond.code|
    requires Read(cond.value, I1, m, c.env) == Some(BoolV(taken))
    ensures var o := Meant(c, if taken then e.thenBranch else e.elseBranch, m, fuel);
            && Follows(c, m, o, k, n, fuel, pos + |IfCode(cond, yes, no)|, cond.nextTemp)
            && (o.Done? ==> n.here == Numbered(IfEnd, cond.nextLabel + 2)
                            && MetFrom(c, e, cond, yes, no, n, taken, o.value))
    decreases fuel, e, 1
  {
    hide StepMachine, RunMachine, EmitExpr, Eval, Stuck, WellTyped, DirectPhis, NoBlocks, Supported, IfCode, IfBranches, At, Entered,
         Read, Kept, Follows, DistinctLabels;
    IfLayout(c.code, pos, cond, yes, no);
    BranchLayout(c.code, pos + |cond.code| + 2, yes, no, cond.nextLabel);
    var first := cond.nextLabel;
    var end := Numbered(IfEnd, first + 2);
    var otherwise := m.pc + 2 + |yes.code|;
    var join := otherwise + 2 + |no.code|;
    if taken {
      AtSnoc(c.code, m.pc + 2, yes.code, Br(end));
      CondBrRuns(c, m, cond.value, Numbered(IfThen, first), Numbered(IfElse, first + 1), true, m.pc + 1);
      k, n := EnteredFollows(c, e.thenBranch, cond.nextTemp, first + 3, m, Numbered(IfThen, first), m.pc + 1, end, join + 1, fuel, cond.nextTemp);
    } else {
      AtSnoc(c.code, otherwise + 2, no.code, Br(end));
      CondBrRuns(c, m, cond.value, Numbered(IfThen, first), Numbered(IfElse, first + 1), false, otherwise + 1);
      k, n := EnteredFollows(c, e.elseBranch, yes.nextTemp, yes.nextLabel, m, Numbered(IfElse, first + 1), otherwise + 1, end, join + 1, fuel, cond.nextTemp);
    }
  }

  /** A branch, from the jump to its block on. */
  lemma {:induction false} EnteredFollows(c: Ctx, e: IR, t: nat, l: nat, m: Machine, name: BlockName, at: nat,
                                          end: BlockName, endAt: nat, fuel: nat, t0: nat)
    returns (k: nat, n: Machine)
    requires Ready(c, e) && t0 <= t && Ran(c, m, 1, Jumped(m, at, name))
    requires At(c.code, at + 1, EmitExpr(e, c.types, t, l).code + [Br(end)])
    requires endAt < |c.code| && c.code[endAt] == Label(end) && end.Numbered?
    ensures var r := EmitExpr(e, c.types, t, l);
            var o := Meant(c, e, m, fuel);
            && Follows(c, m, o, k, n, fuel, endAt + 1, t0)
            && (o.Done? ==> n.here == end && Entered(name, n.from, NoBlocks(e), l, r.nextLabel))
    ensures Valued(c, e, EmitExpr(e, c.types, t, l), m, fuel, n)
    decreases fuel, e, 6
  {
    hide StepMachine, RunMachine, EmitExpr, Eval, Stuck, WellTyped, DirectPhis, NoBlocks, Supported, At, Entered, Read, Kept, Follows;
    var q := Jumped(m, at, name);
    KeptByJump(m, at, name, t0);
    var j;
    j, n := BranchFollows(c, e, t, l, q, end, endAt, fuel);
    FollowsAfter(c, m, 1, q, Meant(c, e, q, fuel), j, n, fuel, endAt + 1, t0, t);
    k := 1 + j;
  }

  /** What the condition decides, when it decides. */
  ghost function Chosen(c: Ctx, cond: IR, m: Machine, fuel: nat): Option<bool> {
    var o := Meant(c, cond, m, fuel);
    if o.Done? && o.value.BoolV? then Some(o.value.value) else None
  }

  /** Where the block in which the branches meet was entered from, and what the branch computed. */
  ghost predicate MetFrom(c: Ctx, e: IR, cond: Emitted, yes: Emitted, no: Emitted, n: Machine, taken: bool, v: Value)
    requires e.IfIR?
  {
    var first := cond.nextLabel;
    if taken then
      && Entered(Numbered(IfThen, first), n.from, NoBlocks(e.thenBranch), first + 3, yes.nextLabel)
      && (TypeOf(e.thenBranch, c.types) != Void ==> Read(yes.value, TypeOf(e.thenBranch, c.types), n, c.env) == Some(v))
    else
      && Entered(Numbered(IfElse, first + 1), n.from, NoBlocks(e.elseBranch), yes.nextLabel, no.nextLabel)
      && (TypeOf(e.elseBranch, c.types) != Void ==> Read(no.value, TypeOf(e.elseBranch, c.types), n, c.env) == Some(v))
  }

  lemma AtSnoc(code: Code, pos: nat, a: Code, i: Instr)
    requires At(code, pos, a) && pos + |a| < |code| && code[pos + |a|] == i
    ensures At(code, pos, a + [i])
  {
    assert code[pos..pos + |a + [i]|] == a + [i];
  }

  lemma {:induction false} IfFollows(c: Ctx, e: IR, t: nat, l: nat, pos: nat, m: Machine, fuel: nat)
    returns (k: nat, n: Machine)
    requires Ready(c, e) && e.IfIR?
    requires At(c.code, pos, EmitIf(e, c.types, t, l).code) && m.pc == pos
    ensures Simulated(c, e, EmitIf(e, c.types, t, l), t, l, pos, m, fuel, k, n)
    ensures Valued(c, e, EmitIf(e, c.types, t, l), m, fuel, n)
    decreases fuel, e, 3
  {
    hide StepMachine, RunMachine, EmitExpr, Eval, Stuck, Supported, IfCode;
    var cond := EmitExpr(e.cond, c.types, t, l);
    var yes := EmitExpr(e.thenBranch, c.types, cond.nextTemp, cond.nextLabel + 3);
    var no := EmitExpr(e.elseBranch, c.types, yes.nextTemp, yes.nextLabel);
    var typ := TypeOf(e, c.types);
    if typ != Void {
      AtConcatenation(c.code, pos, IfCode(cond, yes, no), [JoinPhi(cond, yes, no, typ)]);
    }
    var i, p, taken := IfMeets(c, e, cond, yes, no, t, l, pos, m, fuel);
    var o := Meant(c, e, m, fuel);
    if o.Done? && typ != Void {
      n := PhiRuns(c, p, cond, yes, no, typ, taken, o.value);
      k := i + 1;
      RunsCompose(c, m, i, p, 1, n);
    } else {
      k, n := i, p;
    }
  }

  lemma PhiRuns(c: Ctx, m: Machine, cond: Emitted, yes: Emitted, no: Emitted, typ: LType, taken: bool, v: Value)
    returns (n: Machine)
    requires At(c.code, m.pc, [JoinPhi(cond, yes, no, typ)])
    requires m.from == if taken then Numbered(IfThen, cond.nextLabel) else Numbered(IfElse, cond.nextLabel + 1)
    requires Read(if taken then yes.value else no.value, typ, m, c.env) == Some(v)
    ensures Ran(c, m, 1, n)
    ensures n == m.(pc := m.pc + 1, temps := m.temps[no.nextTemp := v])
  {
    assert c.code[m.pc] == c.code[m.pc..m.pc + 1][0];
    n := StepMachine(c.code, m, c.oracle, c.env).value;
    OneStep(c, m, n);
  }

  /** The machine comes to the phi at `at` and gets past it exactly when `right`, with value `v`. */
  ghost predicate AtPhi(c: Ctx, m: Machine, at: nat, h: History, right: bool, value: Operand, typ: LType, v: Value) {
    exists k: nat, n :: Ran(c, m, k, n) && n.pc == at && n.history == h
                        && var after := StepMachine(c.code, n, c.oracle, c.env);
                           (after.Some? <==> right) && (right ==> Read(value, typ, after.value, c.env) == Some(v))
  }

  /** What this machine, which looks at a phi only when it gets there, makes of an `if` whose branches
      may open blocks: it gets past the phi exactly when the branch that ran opened none. LLVM looks at
      both branches before anything runs; see LlvmPhis. */
  lemma PhiIsRightIff(c: Ctx, e: IR, t: nat, l: nat, pos: nat, m: Machine, fuel: nat)
    requires e.IfIR? && WellTyped(e, c.types, c.params) && Supplied(c) && TypeOf(e, c.types) != Void && DistinctLabels(c.code)
    requires DirectPhis(e.cond, c.types) && DirectPhis(e.thenBranch, c.types) && DirectPhis(e.elseBranch, c.types)
    requires At(c.code, pos, EmitIf(e, c.types, t, l).code) && m.pc == pos
    requires Meant(c, e, m, fuel).Done?
    ensures var r, o, taken := EmitIf(e, c.types, t, l), Meant(c, e, m, fuel), Chosen(c, e.cond, m, fuel);
            && taken.Some?
            && AtPhi(c, m, pos + |r.code| - 1, o.history,
                     NoBlocks(if taken.value then e.thenBranch else e.elseBranch), r.value, TypeOf(e, c.types), o.value)
  {
    hide StepMachine, RunMachine, EmitExpr, Eval, Stuck, Supported, IfCode, NoBlocks;
    var cond := EmitExpr(e.cond, c.types, t, l);
    var yes := EmitExpr(e.thenBranch, c.types, cond.nextTemp, cond.nextLabel + 3);
    var no := EmitExpr(e.elseBranch, c.types, yes.nextTemp, yes.nextLabel);
    var typ := TypeOf(e, c.types);
    AtConcatenation(c.code, pos, IfCode(cond, yes, no), [JoinPhi(cond, yes, no, typ)]);
    var k, n, taken := IfMeets(c, e, cond, yes, no, t, l, pos, m, fuel);
    if NoBlocks(if taken then e.thenBranch else e.elseBranch) {
      var after := PhiRuns(c, n, cond, yes, no, typ, taken, Meant(c, e, m, fuel).value);
      RanOnce(c, n, after);
    } else {
      PhiIsStuck(c, n, cond, yes, no, typ);
    }
  }

  lemma RanOnce(c: Ctx, m: Machine, n: Machine)
    requires Ran(c, m, 1, n)
    ensures StepMachine(c.code, m, c.oracle, c.env) == Some(n)
  {
    var p := StepMachine(c.code, m, c.oracle, c.env);
    assert p.Some? ==> RunMachine(c.code, p.value, 0, c.oracle, c.env) == p;
  }

  lemma PhiIsStuck(c: Ctx, m: Machine, cond: Emitted, yes: Emitted, no: Emitted, typ: LType)
    requires At(c.code, m.pc, [JoinPhi(cond, yes, no, typ)])
    requires m.from.Numbered? && m.from.number >= cond.nextLabel + 3
    ensures StepMachine(c.code, m, c.oracle, c.env) == None
  {
    assert c.code[m.pc] == c.code[m.pc..m.pc + 1][0];
  }

  const Inner := IfIR(0, IdentIR(1, "c"), NumberIR(0, "1"), NumberIR(0, "2"))
  const Nested := IfIR(0, IdentIR(1, "c"), Inner, NumberIR(0, "3"))

  /** `if c { if c { 1 } else { 2 } } else { 3 }`, with c a parameter, is such an `if`. The optimiser
      leaves it alone; where c is true it means 1, and its code does not get past its phi. */
  lemma NestedIfIsMiscompiled(c: Ctx, h: History)
    requires c.types(0) == Double && c.types(1) == I1 && c.params == map["c" := I1] && c.env == map["c" := BoolV(true)]
    requires c.code == EmitFunction(Nested, Double, c.types, 0, 0).code
    ensures Normal(Nested) && Optimize(Nested) == Nested
    ensures WellTyped(Nested, c.types, c.params) && Run(Nested, c.oracle, c.env, h, 0) == Done(NumberV("1"), h)
    ensures AtPhi(c, Start(h), |c.code| - 2, h, false, Temp(1), Double, NumberV("1"))
  {
    hide StepMachine, RunMachine, AtPhi, DistinctLabels, EmitFunction, EmitIf, Eval, WellTyped, DirectPhis, NoBlocks, Normal, Optimize;
    NestedIsNormal();
    NormalIsFixed(Nested);
    FunctionLabelsDistinct(Nested, Double, c.types, 0, 0);
    NestedCode(c.types);
    NestedTypes(c.types);
    NestedMeansOne(c, h);
    var r := EmitIf(Nested, c.types, 0, 0);
    assert c.code[0..0 + |r.code|] == r.code;
    PhiIsRightIff(c, Nested, 0, 0, 0, Start(h), 0);
  }

  lemma NestedIsNormal()
    ensures Normal(Nested)
  {
  }

  lemma NestedTypes(types: TypeTable)
    requires types(0) == Double && types(1) == I1
    ensures WellTyped(Nested, types, map["c" := I1]) && Supported(Nested) && TypeOf(Nested, types) == Double
    ensures DirectPhis(Nested.cond, types) && DirectPhis(Nested.thenBranch, types) && DirectPhis(Nested.elseBranch, types)
    ensures !NoBlocks(Nested.thenBranch)
  {
    assert WellTyped(Inner, types, map["c" := I1]);
  }

  lemma NestedMeansOne(c: Ctx, h: History)
    requires c.env == map["c" := BoolV(true)]
    ensures Run(Nested, c.oracle, c.env, h, 0) == Done(NumberV("1"), h)
    ensures Meant(c, Nested, Start(h), 0) == Done(NumberV("1"), h) && Chosen(c, Nested.cond, Start(h), 0) == Some(true)
    ensures c.env.Keys == {"c"}
  {
    assert Meant(c, Inner, Start(h), 0) == Done(NumberV("1"), h);
  }

  lemma NestedCode(types: TypeTable)
    requires types(0) == Double && types(1) == I1
    ensures var r := EmitIf(Nested, types, 0, 0);
            r.ok && r.value == Temp(1) && EmitFunction(Nested, Double, types, 0, 0).code == r.code + [Ret(Double, Temp(1))]
  {
    hide IfCode;
    var r := EmitIf(Nested, types, 0, 0);
    assert EmitExpr(Nested, types, 0, 0) == r;
    var inner := EmitExpr(Inner, types, 0, 3);
    assert inner.ok && inner.nextTemp == 1;
  }

  // ----- while -----

  lemma WhileLayout(code: Code, pos: nat, cond: Emitted, body: Emitted, l: nat)
    requires At(code, pos, WhileCode(cond, body, l))
    ensures var condName, bodyName, end := Numbered(WhileCond, l), Numbered(WhileBody, l + 1), Numbered(WhileEnd, l + 2);
            var decide := pos + 2 + |cond.code|;
            var again := decide + 2 + |body.code|;
            && At(code, pos + 2, cond.code) && At(code, decide + 2, body.code)
            && again + 2 == pos + |WhileCode(cond, body, l)| <= |code|
            && code[pos] == Br(condName) && code[pos + 1] == Label(condName)
            && code[decide] == CondBr(cond.value, bodyName, end) && code[decide + 1] == Label(bodyName)
            && code[again] == Br(condName) && code[again + 1] == Label(end)
  {
    hide At;
    var condName, bodyName, end := Numbered(WhileCond, l), Numbered(WhileBody, l + 1), Numbered(WhileEnd, l + 2);
    var last := body.code + [Br(condName), Label(end)];
    assert [] + WhileCode(cond, body, l) == WhileCode(cond, body, l);
    AtPair(code, pos, [], Br(condName), Label(condName), cond.code + ([CondBr(cond.value, bodyName, end), Label(bodyName)] + last));
    AtPair(code, pos + 2, cond.code, CondBr(cond.value, bodyName, end), Label(bodyName), last);
    AtConcatenation(code, pos + 2 + |cond.code| + 2, body.code, [Br(condName), Label(end)]);
    AtTwo(code, pos + 2 + |cond.code| + 2 + |body.code|, Br(condName), Label(end));
  }

  lemma {:induction false} WhileFollows(c: Ctx, e: IR, t: nat, l: nat, pos: nat, m: Machine, fuel: nat)
    returns (k: nat, n: Machine)
    requires Ready(c, e) && e.WhileIR?
    requires At(c.code, pos, EmitWhile(e, c.types, t, l).code) && m.pc == pos
    ensures Simulated(c, e, EmitWhile(e, c.types, t, l), t, l, pos, m, fuel, k, n)
    decreases fuel, e, 3
  {
    hide StepMachine, RunMachine, EmitExpr, EmitStatement, Eval, Stuck, Supported, WhileCode, At, Kept;
    var cond := EmitExpr(e.cond, c.types, t, l + 3);
    var body := EmitStatement(e.body, c.types, cond.nextTemp, cond.nextLabel);
    WhileLayout(c.code, pos, cond, body, l);
    BrRuns(c, m, Numbered(WhileCond, l), pos + 1);
    var p := Jumped(m, pos + 1, Numbered(WhileCond, l));
    var j;
    j, n := LoopFollows(c, e, cond, body, t, l, pos, p, fuel);
    k := 1 + j;
    assert Kept(m, p, t) by { KeptByJump(m, pos + 1, Numbered(WhileCond, l), t); }
    FollowsAfter(c, m, 1, p, Meant(c, e, p, fuel), j, n, fuel, pos + |WhileCode(cond, body, l)|, t, t);
  }

  lemma KeptByJump(m: Machine, i: nat, name: BlockName, t: nat)
    ensures Kept(m, Jumped(m, i, name), t)
  {
  }

  /** One turn after another, from the first instruction of the condition. */
  lemma {:induction false} LoopFollows(c: Ctx, e: IR, cond: Emitted, body: Emitted, t: nat, l: nat, pos: nat, m: Machine, fuel: nat)
    returns (k: nat, n: Machine)
    requires e.WhileIR? && Ready(c, e.cond) && Ready(c, e.body) && TypeOf(e.cond, c.types) == I1
    requires cond == EmitExpr(e.cond, c.types, t, l + 3)
    requires body == EmitStatement(e.body, c.types, cond.nextTemp, cond.nextLabel)
    requires At(c.code, pos, WhileCode(cond, body, l)) && m.pc == pos + 2
    ensures var o := Meant(c, e, m, fuel);
            && Follows(c, m, o, k, n, fuel, pos + |WhileCode(cond, body, l)|, t)
            && (o.Done? ==> n.here == Numbered(WhileEnd, l + 2))
    decreases fuel, e, 2
  {
    hide StepMachine, RunMachine, EmitExpr, EmitStatement, Stuck, Supported, WhileCode, At, WellTyped, DirectPhis, Entered, NoBlocks, DistinctLabels;
    WhileLayout(c.code, pos, cond, body, l);
    var condName, bodyName, endName := Numbered(WhileCond, l), Numbered(WhileBody, l + 1), Numbered(WhileEnd, l + 2);
    var decide := pos + 2 + |cond.code|;
    var again := decide + 2 + |body.code|;
    var i, p := ExprFollows(c, e.cond, t, l + 3, pos + 2, m, fuel);
    var o := Meant(c, e.cond, m, fuel);
    if !o.Done? {
      k, n := i, p;
    } else if !o.value.BoolV? {
      k, n := i, p;
      CondBrStuck(c, p, cond.value, bodyName, endName, o.value);
    } else if !o.value.value {
      CondBrRuns(c, p, cond.value, bodyName, endName, false, again + 1);
      k, n := i + 1, Jumped(p, again + 1, endName);
      RunsCompose(c, m, i, p, 1, n);
    } else {
      CondBrRuns(c, p, cond.value, bodyName, endName, true, decide + 1);
      var q := Jumped(p, decide + 1, bodyName);
      RunsCompose(c, m, i, p, 1, q);
      if fuel == 0 {
        k, n := i + 1, q;
      } else {
        var j, s := StatementFollows(c, e.body, cond.nextTemp, cond.nextLabel, decide + 2, q, fuel);
        var turn := Meant(c, e.body, q, fuel);
        FollowsAfter(c, m, i + 1, q, turn, j, s, fuel, again, t, cond.nextTemp);
        if !turn.Done? {
          k, n := i + 1 + j, s;
        } else {
          BrRuns(c, s, condName, pos + 1);
          var u := Jumped(s, pos + 1, condName);
          RunsCompose(c, m, i + 1 + j, s, 1, u);
          var x;
          x, n := LoopFollows(c, e, cond, body, t, l, pos, u, fuel - 1);
          k := i + 1 + j + 1 + x;
          FollowsAfter(c, m, i + 1 + j + 1, u, Meant(c, e, u, fuel - 1), x, n, fuel - 1, pos + |WhileCode(cond, body, l)|, t, t);
        }
      }
    }
  }

  // ----- whole functions -----

  /** The function has returned `v`; a void function returns nothing. */
  ghost predicate Returned(c: Ctx, n: Machine, ret: LType, v: Value) {
    n.pc < |c.code| && c.code[n.pc].Ret? && c.code[n.pc].ret == ret
    && (ret != Void ==> Read(c.code[n.pc].result, ret, n, c.env) == Some(v))
  }

  /** The body of a function that can be compiled to return `ret`. */
  ghost predicate Compiles(body: IR, ret: LType, c: Ctx) {
    WellTyped(body, c.types, c.params) && Supplied(c) && DirectPhis(body, c.types) && (ret != Void ==> TypeOf(body, c.types) == ret)
  }

  /** A function's code follows its body from the entry block: it returns the body's value after
      the same calls, gets stuck in a branch where the body goes wrong, and makes at least `fuel`
      steps where the body's loops use up `fuel` turns. */
  lemma FunctionFollows(c: Ctx, body: IR, ret: LType, t: nat, l: nat, h: History, fuel: nat)
    returns (k: nat, n: Machine)
    requires Compiles(body, ret, c) && c.code == EmitFunction(body, ret, c.types, t, l).code
    ensures var o := BodyMeans(c, body, h, fuel);
            && Ran(c, Start(h), k, n)
            && !o.Unsafe? && n.history == o.history
            && (o.Done? ==> Returned(c, n, ret, o.value))
            && (o.Wrong? ==> Stuck(c, n))
            && (o.OutOfFuel? ==> fuel <= k)
  {
    hide StepMachine, RunMachine, EmitExpr, EmitStatement, Eval, WellTyped, DirectPhis, NoBlocks, Read, Kept, Stuck, Supported;
    FunctionLabelsDistinct(body, ret, c.types, t, l);
    var r := if ret == Void then EmitStatement(body, c.types, t, l) else EmitExpr(body, c.types, t, l);
    assert c.code[0..0 + |r.code|] == r.code;
    if ret == Void {
      k, n := StatementFollows(c, body, t, l, 0, Start(h), fuel);
    } else {
      k, n := ExprFollows(c, body, t, l, 0, Start(h), fuel);
    }
  }

  lemma {:induction false} RunsAgree(c: Ctx, m: Machine, i: nat, n: Machine, j: nat, p: Machine)
    requires Ran(c, m, i, n) && Ran(c, m, j, p) && StepMachine(c.code, n, c.oracle, c.env) == None
    ensures j <= i && (StepMachine(c.code, p, c.oracle, c.env) == None ==> p == n)
    decreases i
  {
    if i > 0 && j > 0 {
      RunsAgree(c, StepMachine(c.code, m, c.oracle, c.env).value, i - 1, n, j - 1, p);
    }
  }

  ghost predicate Returns(c: Ctx, m: Machine, ret: LType, v: Value, h: History) {
    exists k: nat, n :: Ran(c, m, k, n) && Returned(c, n, ret, v) && n.history == h
  }

  ghost predicate GetsStuck(c: Ctx, m: Machine, h: History) {
    exists k: nat, n :: Ran(c, m, k, n) && Stuck(c, n) && n.history == h
  }

  ghost predicate RunsForever(c: Ctx, m: Machine) {
    forall k: nat :: RunMachine(c.code, m, k, c.oracle, c.env).Some?
  }

  ghost function BodyMeans(c: Ctx, body: IR, h: History, fuel: nat): Outcome {
    Run(body, c.oracle, c.env, h, fuel)
  }

  ghost predicate IsDone(c: Ctx, body: IR, ret: LType, h: History, v: Value, h1: History) {
    exists fuel: nat, w :: BodyMeans(c, body, h, fuel) == Done(w, h1) && (ret != Void ==> w == v)
  }

  ghost predicate GoesWrong(c: Ctx, body: IR, h: History, h1: History) {
    exists fuel: nat :: BodyMeans(c, body, h, fuel) == Wrong(h1)
  }

  ghost predicate Diverges(c: Ctx, body: IR, h: History) {
    forall fuel: nat :: BodyMeans(c, body, h, fuel).OutOfFuel?
  }

  /** The compiled function returns exactly when the body is done with some amount of fuel, and
      then with its value and its history of calls; it gets stuck exactly when the body goes wrong;
      and it runs forever exactly when no amount of fuel is enough. */
  lemma CompiledFunctionIsRight(c: Ctx, body: IR, ret: LType, t: nat, l: nat, h: History, v: Value, h1: History)
    requires Compiles(body, ret, c) && c.code == EmitFunction(body, ret, c.types, t, l).code
    ensures Returns(c, Start(h), ret, v, h1) <==> IsDone(c, body, ret, h, v, h1)
    ensures GetsStuck(c, Start(h), h1) <==> GoesWrong(c, body, h, h1)
    ensures RunsForever(c, Start(h)) <==> Diverges(c, body, h)
  {
    hide EmitFunction, Compiles, Returns, GetsStuck, RunsForever, IsDone, GoesWrong, Diverges;
    ReturnsIffDone(c, body, ret, t, l, h, v, h1);
    StuckIffWrong(c, body, ret, t, l, h, h1);
    DivergenceIsKept(c, body, ret, t, l, h);
  }

  lemma ReturnsIffDone(c: Ctx, body: IR, ret: LType, t: nat, l: nat, h: History, v: Value, h1: History)
    requires Compiles(body, ret, c) && c.code == EmitFunction(body, ret, c.types, t, l).code
    ensures Returns(c, Start(h), ret, v, h1) <==> IsDone(c, body, ret, h, v, h1)
  {
    hide RunMachine, EmitFunction, BodyMeans, Compiles, Read;
    if Returns(c, Start(h), ret, v, h1) {
      var k: nat, n :| Ran(c, Start(h), k, n) && Returned(c, n, ret, v) && n.history == h1;
      HaltsAs(c, body, ret, t, l, h, k, n);
    }
    if IsDone(c, body, ret, h, v, h1) {
      var fuel: nat, w :| BodyMeans(c, body, h, fuel) == Done(w, h1) && (ret != Void ==> w == v);
      var k, n := FunctionFollows(c, body, ret, t, l, h, fuel);
    }
  }

  lemma StuckIffWrong(c: Ctx, body: IR, ret: LType, t: nat, l: nat, h: History, h1: History)
    requires Compiles(body, ret, c) && c.code == EmitFunction(body, ret, c.types, t, l).code
    ensures GetsStuck(c, Start(h), h1) <==> GoesWrong(c, body, h, h1)
  {
    hide RunMachine, EmitFunction, BodyMeans, Compiles, Read;
    if GetsStuck(c, Start(h), h1) {
      var k: nat, n :| Ran(c, Start(h), k, n) && Stuck(c, n) && n.history == h1;
      HaltsAs(c, body, ret, t, l, h, k, n);
    }
    if GoesWrong(c, body, h, h1) {
      var fuel: nat :| BodyMeans(c, body, h, fuel) == Wrong(h1);
      var k, n := FunctionFollows(c, body, ret, t, l, h, fuel);
    }
  }

  /** A machine that has halted after `k` instructions tells the body's outcome with more fuel than that. */
  lemma HaltsAs(c: Ctx, body: IR, ret: LType, t: nat, l: nat, h: History, k: nat, n: Machine)
    requires Compiles(body, ret, c) && c.code == EmitFunction(body, ret, c.types, t, l).code
    requires Ran(c, Start(h), k, n) && StepMachine(c.code, n, c.oracle, c.env) == None
    ensures var o := BodyMeans(c, body, h, k + 1);
            && !o.OutOfFuel? && !o.Unsafe? && o.history == n.history
            && (if o.Done? then Returned(c, n, ret, o.value) else Stuck(c, n))
  {
    hide RunMachine, EmitFunction, BodyMeans, Compiles;
    var i, p := FunctionFollows(c, body, ret, t, l, h, k + 1);
    RunsAgree(c, Start(h), k, n, i, p);
  }

  lemma {:induction false} RunsPrefix(c: Ctx, m: Machine, k: nat, j: nat)
    requires j <= k && RunMachine(c.code, m, k, c.oracle, c.env).Some?
    ensures RunMachine(c.code, m, j, c.oracle, c.env).Some?
    decreases j
  {
    if j > 0 {
      RunsPrefix(c, StepMachine(c.code, m, c.oracle, c.env).value, k - 1, j - 1);
    }
  }

  lemma DivergenceIsKept(c: Ctx, body: IR, ret: LType, t: nat, l: nat, h: History)
    requires Compiles(body, ret, c) && c.code == EmitFunction(body, ret, c.types, t, l).code
    ensures RunsForever(c, Start(h)) <==> Diverges(c, body, h)
  {
    hide RunMachine, EmitFunction, BodyMeans, Compiles;
    if RunsForever(c, Start(h)) {
      forall fuel: nat ensures BodyMeans(c, body, h, fuel).OutOfFuel? {
        var k, n := FunctionFollows(c, body, ret, t, l, h, fuel);
        var p := RunMachine(c.code, Start(h), k + 1, c.oracle, c.env).value;
        if StepMachine(c.code, n, c.oracle, c.env) == None { RunsAgree(c, Start(h), k, n, k + 1, p); }
      }
    }
    if Diverges(c, body, h) {
      forall j: nat ensures RunMachine(c.code, Start(h), j, c.oracle, c.env).Some? {
        assert BodyMeans(c, body, h, j).OutOfFuel?;
        var k, n := FunctionFollows(c, body, ret, t, l, h, j);
        RunsPrefix(c, Start(h), k, j);
      }
    }
  }
}
