/** The compiler as a whole: from syntax trees through lowering and the optimiser to the machine. */
module Compiler {
  import opened Syntax
  import opened Meaning
  import opened Ir
  import opened Lowering
  import opened Optimizer
  import opened Llvm
  import opened LlvmEmission
  import opened LlvmSimulation
  import opened LlvmNames
  import opened LlvmPhis
  import opened LlvmDominance
  import opened LlvmTypes
  import opened LoweredTyping
  import Printer

  ghost function SourceMeans(c: Ctx, e: Expr, h: History, fuel: nat): Outcome {
    EvalExpr(e, c.oracle, c.env, h, fuel)
  }

  /** No collapsible match is reached whose scrutinee has an effect, diverges, or does not match. */
  ghost predicate CollapsesSilently(c: Ctx, e: IR, h: History) {
    forall fuel: nat :: Eval(e, c.oracle, c.env, h, fuel, true) != Unsafe
  }

  /** What lowering and the optimiser leave means what the source means, at every fuel. */
  lemma MiddleKeepsMeaning(c: Ctx, e: Expr, types: Types, h: History, fuel: nat)
    requires Lowerable(e) && CollapsesSilently(c, Lower(e, types), h)
    ensures BodyMeans(c, Optimize(Lower(e, types)), h, fuel) == SourceMeans(c, e, h, fuel)
  {
    LowersWhole(e, types);
    LoweringKeepsMeaning(e, types, c.oracle, c.env, h, fuel);
    OptimizeKeepsMeaning(Lower(e, types), c.oracle, c.env, h, fuel);
  }

  ghost predicate SourceIsDone(c: Ctx, e: Expr, ret: LType, h: History, v: Value, h1: History) {
    exists fuel: nat, w :: SourceMeans(c, e, h, fuel) == Done(w, h1) && (ret != Void ==> w == v)
  }

  ghost predicate SourceGoesWrong(c: Ctx, e: Expr, h: History, h1: History) {
    exists fuel: nat :: SourceMeans(c, e, h, fuel) == Wrong(h1)
  }

  ghost predicate SourceDiverges(c: Ctx, e: Expr, h: History) {
    forall fuel: nat :: SourceMeans(c, e, h, fuel).OutOfFuel?
  }

  /** From source to machine: the compiled function returns, gets stuck or runs forever exactly when
      the source expression is done, goes wrong or diverges, with the same value and calls. */
  lemma CompilerIsRight(c: Ctx, e: Expr, types: Types, ret: LType, t: nat, l: nat, h: History, v: Value, h1: History)
    requires Lowerable(e) && CollapsesSilently(c, Lower(e, types), h)
    requires Compiles(Optimize(Lower(e, types)), ret, c)
    requires c.code == EmitFunction(Optimize(Lower(e, types)), ret, c.types, t, l).code
    ensures Returns(c, Start(h), ret, v, h1) <==> SourceIsDone(c, e, ret, h, v, h1)
    ensures GetsStuck(c, Start(h), h1) <==> SourceGoesWrong(c, e, h, h1)
    ensures RunsForever(c, Start(h)) <==> SourceDiverges(c, e, h)
  {
    hide Lower, Optimize, Lowerable, CollapsesSilently, Compiles, EmitFunction, Returns, GetsStuck, RunsForever, BodyMeans, SourceMeans;
    var body := Optimize(Lower(e, types));
    CompiledFunctionIsRight(c, body, ret, t, l, h, v, h1);
    forall fuel: nat ensures BodyMeans(c, body, h, fuel) == SourceMeans(c, e, h, fuel) {
      MiddleKeepsMeaning(c, e, types, h, fuel);
    }
    SameMeanings(c, body, e, ret, h, v, h1);
  }

  lemma SameMeanings(c: Ctx, body: IR, e: Expr, ret: LType, h: History, v: Value, h1: History)
    requires forall fuel: nat :: BodyMeans(c, body, h, fuel) == SourceMeans(c, e, h, fuel)
    ensures IsDone(c, body, ret, h, v, h1) <==> SourceIsDone(c, e, ret, h, v, h1)
    ensures GoesWrong(c, body, h, h1) <==> SourceGoesWrong(c, e, h, h1)
    ensures Diverges(c, body, h) <==> SourceDiverges(c, e, h)
  {
    hide BodyMeans, SourceMeans;
  }

  /** Asked of the tree that lowering hands over, being well typed with direct phis is enough: the
      optimiser keeps it, and without a match nothing is collapsed. */
  lemma LoweredCompiles(c: Ctx, e: Expr, types: Types, ret: LType, h: History)
    requires Compiles(Lower(e, types), ret, c)
    ensures Compiles(Optimize(Lower(e, types)), ret, c) && CollapsesSilently(c, Lower(e, types), h)
  {
    hide Lower, Optimize, WellTyped, DirectPhis;
    var body := Lower(e, types);
    OptimizeKeepsTyping(body, c.types, c.params);
    forall fuel: nat ensures Eval(body, c.oracle, c.env, h, fuel, true) != Unsafe {
      WellTypedIsSafe(body, c.types, c.params, c.oracle, c.env, h, fuel);
    }
  }

  /** The same theorem with all conditions on the source and on what lowering makes of it. */
  lemma CompilerIsRightOnLowered(c: Ctx, e: Expr, types: Types, ret: LType, t: nat, l: nat, h: History, v: Value, h1: History)
    requires Lowerable(e) && Compiles(Lower(e, types), ret, c)
    requires c.code == EmitFunction(Optimize(Lower(e, types)), ret, c.types, t, l).code
    ensures Returns(c, Start(h), ret, v, h1) <==> SourceIsDone(c, e, ret, h, v, h1)
    ensures GetsStuck(c, Start(h), h1) <==> SourceGoesWrong(c, e, h, h1)
    ensures RunsForever(c, Start(h)) <==> SourceDiverges(c, e, h)
  {
    hide Lower, Optimize, Lowerable, CollapsesSilently, Compiles, EmitFunction, Returns, GetsStuck, RunsForever,
         SourceIsDone, SourceGoesWrong, SourceDiverges;
    LoweredCompiles(c, e, types, ret, h);
    CompilerIsRight(c, e, types, ret, t, l, h, v, h1);
  }

  // ----- the failing inputs, from their sources -----

  /** `if c { if c { 1 } else { 2 } } else { 3 }` */
  const NestedSource := If(Ident("c"), Block([InnerSource]), Some(Block([Number("3")])))
  const InnerSource := If(Ident("c"), Block([Number("1")]), Some(Block([Number("2")])))

  function NamesAreConditions(unit: TypeId): Types {
    Types((e: Expr) => if e.Ident? then 1 else 0, unit)
  }

  /** The tree LlvmSimulation.NestedIfIsMiscompiled is about is what lowering and the optimiser make
      of a source the parser builds, where names have type 1 and all else has type 0. */
  lemma NestedHasASource(unit: TypeId)
    ensures Printer.Printable(NestedSource) && Lowerable(NestedSource)
    ensures Optimize(Lower(NestedSource, NamesAreConditions(unit))) == Nested
  {
    hide Printer.Printable, Lowerable, Lower, Optimize, Normal;
    NestedIsPrintable();
    NestedLowers(unit);
    NestedIsNormal();
    NormalIsFixed(Nested);
  }

  /** `if c { 1 } else if c { 2 } else { 3 }` */
  const ElseIfSource := If(Ident("c"), Block([Number("1")]), Some(InElseSource))
  const InElseSource := If(Ident("c"), Block([Number("2")]), Some(Block([Number("3")])))

  lemma ElseIfHasASource(unit: TypeId)
    ensures Printer.Printable(ElseIfSource) && Lowerable(ElseIfSource)
    ensures Optimize(Lower(ElseIfSource, NamesAreConditions(unit))) == ElseIf
  {
    hide Printer.Printable, Lowerable, Lower, Optimize, Normal;
    ElseIfIsPrintable();
    ElseIfLowers(unit);
    ElseIfIsNormal();
    NormalIsFixed(ElseIf);
  }

  lemma ElseIfIsPrintable()
    ensures Printer.Printable(ElseIfSource) && Lowerable(ElseIfSource)
  {
    BlockOfOne(Number("1"));
    BlockOfOne(Number("2"));
    BlockOfOne(Number("3"));
    assert Printer.Printable(InElseSource) && Lowerable(InElseSource);
  }

  lemma ElseIfLowers(unit: TypeId)
    ensures Lower(ElseIfSource, NamesAreConditions(unit)) == ElseIf
  {
    var types := NamesAreConditions(unit);
    assert Lower(Block([Number("1")]), types) == NumberIR(0, "1");
    assert Lower(InElseSource, types) == InElse by {
      assert Lower(Block([Number("2")]), types) == NumberIR(0, "2");
      assert Lower(Block([Number("3")]), types) == NumberIR(0, "3");
    }
  }

  lemma NestedIsPrintable()
    ensures Printer.Printable(NestedSource) && Lowerable(NestedSource)
  {
    BlockOfOne(Number("1"));
    BlockOfOne(Number("2"));
    BlockOfOne(Number("3"));
    assert Printer.Printable(InnerSource) && Lowerable(InnerSource);
    BlockOfOne(InnerSource);
  }

  lemma BlockOfOne(e: Expr)
    ensures Printer.Printable(Block([e])) == Printer.Printable(e) && Lowerable(Block([e])) == Lowerable(e)
  {
    assert [e][1..] == [];
    assert Printer.AllPrintable([]) && AllLowerable([]);
  }

  lemma NestedLowers(unit: TypeId)
    ensures Lower(NestedSource, NamesAreConditions(unit)) == Nested
  {
    var types := NamesAreConditions(unit);
    assert Lower(InnerSource, types) == Inner by {
      assert Lower(Block([Number("1")]), types) == NumberIR(0, "1");
      assert Lower(Block([Number("2")]), types) == NumberIR(0, "2");
    }
    assert Lower(Block([InnerSource]), types) == Inner;
    assert Lower(Block([Number("3")]), types) == NumberIR(0, "3");
  }

  /** `match f() { A -> 1 }` */
  const CollapsedSource := Expr.Match(Call(Ident("f"), []), [Arm("A", [], Number("1"))])

  /** A source whose meaning the optimiser changes: the call of `f` disappears, whatever it answers. */
  lemma CollapseChangesMeaning(types: Types, oracle: Oracle, env: Env, h: History, fuel: nat)
    ensures Printer.Printable(CollapsedSource) && Lowerable(CollapsedSource)
    ensures Run(Optimize(Lower(CollapsedSource, types)), oracle, env, h, fuel) == Done(NumberV("1"), h)
    ensures EvalExpr(CollapsedSource, oracle, env, h, fuel) != Done(NumberV("1"), h)
  {
    hide Lower, EvalExpr, Optimize, Printer.Printable, Lowerable;
    CollapsedLowers(types);
    var s, arm := CollapsedScrutinee(types), IRArm("A", [], NumberIR(types.typeOf(Number("1")), "1"));
    OptimizeRules(Lower(CollapsedSource, types));
    NumberStays(arm.body, oracle, env, h, fuel);
    LoweringKeepsMeaning(CollapsedSource, types, oracle, env, h, fuel);
    OneArm(types.typeOf(CollapsedSource), s, [arm], oracle, env, h, fuel);
    CallIsSeen(s, oracle, env, h, fuel);
  }

  function CollapsedScrutinee(types: Types): IR {
    CallIR(types.typeOf(Call(Ident("f"), [])), "f", [])
  }

  lemma CollapsedLowers(types: Types)
    ensures Printer.Printable(CollapsedSource) && Lowerable(CollapsedSource)
    ensures var arm := IRArm("A", [], NumberIR(types.typeOf(Number("1")), "1"));
            Lower(CollapsedSource, types) == MatchIR(types.typeOf(CollapsedSource), CollapsedScrutinee(types), [arm])
  {
    var arms := CollapsedSource.arms;
    assert arms[1..] == [] && Names([]) == [];
    assert Printer.ArmsPrintable([]) && ArmsLowerable([]);
    assert LowerArms(arms, types) == [IRArm("A", [], NumberIR(types.typeOf(Number("1")), "1"))];
  }

  lemma NumberStays(e: IR, oracle: Oracle, env: Env, h: History, fuel: nat)
    requires e.NumberIR?
    ensures Optimize(e) == e && Run(e, oracle, env, h, fuel) == Done(NumberV(e.text), h)
  {
  }

  lemma CallIsSeen(e: IR, oracle: Oracle, env: Env, h: History, fuel: nat)
    requires e.CallIR? && e.args == []
    ensures var o := Run(e, oracle, env, h, fuel); o.Done? && |o.history| == |h| + 1
  {
    assert EvalAll([], oracle, env, h, fuel, false) == AllDone([], h);
  }

  /** `code` is the code of `f`, emitted when the counters stood at `t` and `l`. */
  predicate IsCodeOf(code: FunctionCode, f: IRFunction, types: TypeTable, t: nat, l: nat) {
    code.head == f.head && Supported(f.body)
    && code.code == EmitFunction(f.body, f.head.ret, types, t, l).code
  }

  ghost predicate HasCodeOf(code: FunctionCode, f: IRFunction, types: TypeTable) {
    exists t: nat, l: nat :: IsCodeOf(code, f, types, t, l)
  }

  /** Every function of an emitted program has the code its body calls for, so CompilerIsRight
      applies to each of them; one unsupported body and nothing is emitted. */
  lemma {:induction false} ProgramHasItsFunctions(functions: seq<IRFunction>, types: TypeTable, t: nat, l: nat)
    ensures var codes := EmitProgram(functions, types, t, l);
            && (codes.Some? <==> forall i :: 0 <= i < |functions| ==> Supported(functions[i].body))
            && (codes.Some? ==> forall i :: 0 <= i < |functions| ==> HasCodeOf(codes.value[i], functions[i], types))
    decreases functions
  {
    hide Supported;
    if functions != [] {
      var f := functions[0];
      var r := EmitFunction(f.body, f.head.ret, types, t, l);
      assert r.ok <==> Supported(f.body);
      var codes := EmitProgram(functions, types, t, l);
      if r.ok {
        ProgramHasItsFunctions(functions[1..], types, r.nextTemp, r.nextLabel);
        var rest := EmitProgram(functions[1..], types, r.nextTemp, r.nextLabel);
        if codes.Some? {
          assert IsCodeOf(codes.value[0], f, types, t, l);
          forall i | 0 < i < |functions|
            ensures Supported(functions[i].body) && HasCodeOf(codes.value[i], functions[i], types)
          {
            assert functions[i] == functions[1..][i - 1] && codes.value[i] == rest.value[i - 1];
          }
        } else {
          var i :| 0 <= i < |functions[1..]| && !Supported(functions[1..][i].body);
          assert functions[i + 1] == functions[1..][i];
        }
      }
    }
  }

  // ----- what LLVM checks of a program -----

  /** The types of the parameters; a name has one in a header that fits. */
  function Declared(params: seq<Formal>): Params {
    if params == [] then map[] else Declared(params[1..])[params[0].name := params[0].typ]
  }

  function FormalTypes(params: seq<Formal>): seq<LType> {
    seq(|params|, i requires 0 <= i < |params| => params[i].typ)
  }

  predicate HeaderFits(head: Header) {
    && (forall i :: 0 <= i < |head.params| ==> head.params[i].typ != Void)
    && forall i, j :: 0 <= i < j < |head.params| ==> head.params[i].name != head.params[j].name
  }

  predicate HeadersFit(heads: seq<Header>) {
    && (forall i :: 0 <= i < |heads| ==> HeaderFits(heads[i]))
    && forall i, j :: 0 <= i < j < |heads| ==> heads[i].name != heads[j].name
  }

  function DefinedBy(heads: seq<Header>): Signatures {
    if heads == [] then map[]
    else DefinedBy(heads[1..])[heads[0].name := Signature(FormalTypes(heads[0].params), heads[0].ret)]
  }

  function Heads(functions: seq<IRFunction>): seq<Header> {
    seq(|functions|, i requires 0 <= i < |functions| => functions[i].head)
  }

  function CodeHeads(codes: seq<FunctionCode>): seq<Header> {
    seq(|codes|, i requires 0 <= i < |codes| => codes[i].head)
  }

  /** One function of a program in which `sigs` are defined. */
  ghost predicate CodeIsSound(f: FunctionCode, sigs: Signatures) {
    FunctionIsSound(f.code, Declared(f.head.params), f.head.ret) && CallsFit(f.code, sigs)
  }

  /** LLVM takes the program: its functions have different names and fit, and all they call is
      defined in it. */
  ghost predicate ProgramIsSound(codes: seq<FunctionCode>) {
    HeadersFit(CodeHeads(codes)) && forall i :: 0 <= i < |codes| ==> CodeIsSound(codes[i], DefinedBy(CodeHeads(codes)))
  }

  predicate BodyIsTyped(f: IRFunction, types: TypeTable) {
    WellTyped(f.body, types, Declared(f.head.params)) && (f.head.ret != Void ==> TypeOf(f.body, types) == f.head.ret)
  }

  /** What it takes of a tree: direct phis, and calls of what is defined. */
  predicate BodyIsDirect(f: IRFunction, types: TypeTable, sigs: Signatures) {
    DirectPhis(f.body, types) && CallsDeclared(f.body, types, sigs)
  }

  /** LLVM takes a program of well-typed functions if and only if their names and parameters are in order,
      every call is one of a function of the program with its types, and all bodies have direct phis:
      one wrong phi, in a branch that runs or not, and the program is rejected as a whole. */
  lemma ProgramIsSoundIff(functions: seq<IRFunction>, types: TypeTable, t: nat, l: nat)
    requires EmitProgram(functions, types, t, l).Some?
    requires forall i :: 0 <= i < |functions| ==> BodyIsTyped(functions[i], types)
    ensures ProgramIsSound(EmitProgram(functions, types, t, l).value)
            <==> HeadersFit(Heads(functions))
                 && forall i :: 0 <= i < |functions| ==> BodyIsDirect(functions[i], types, DefinedBy(Heads(functions)))
  {
    hide EmitProgram, BodyIsTyped, CodeIsSound, HeadersFit, BodyIsDirect, DefinedBy;
    ProgramHasItsFunctions(functions, types, t, l);
    var codes, heads := EmitProgram(functions, types, t, l).value, Heads(functions);
    forall i | 0 <= i < |functions|
      ensures codes[i].head == heads[i] && (CodeIsSound(codes[i], DefinedBy(heads)) <==> BodyIsDirect(functions[i], types, DefinedBy(heads)))
    {
      assert HasCodeOf(codes[i], functions[i], types);
      var t1: nat, l1: nat :| IsCodeOf(codes[i], functions[i], types, t1, l1);
      CodeIsSoundIff(codes[i], functions[i], types, t1, l1, DefinedBy(heads));
    }
    assert CodeHeads(codes) == heads;
  }

  lemma CodeIsSoundIff(code: FunctionCode, f: IRFunction, types: TypeTable, t: nat, l: nat, sigs: Signatures)
    requires IsCodeOf(code, f, types, t, l) && BodyIsTyped(f, types)
    ensures CodeIsSound(code, sigs) <==> BodyIsDirect(f, types, sigs)
  {
    hide WellTyped, Supported, EmitFunction, FunctionIsSound, CallsFit, DirectPhis, CallsDeclared, Declared;
    FunctionIsSoundIff(f.body, f.head.ret, types, Declared(f.head.params), t, l);
    FunctionCallsFitIff(f.body, f.head.ret, types, t, l, sigs);
  }
}
