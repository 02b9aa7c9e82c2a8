/** Single assignment is sound in what is emitted: along every way through the branches of a function,
    taken or not when it runs, a temporary is defined before it is used. A phi uses each of its
    operands on the edge from the block it names. */
module LlvmDominance {
  import opened Syntax
  import opened Ir
  import opened Llvm
  import opened LlvmNames
  import opened LlvmSimulation
  import opened LlvmPhis

  // ----- ways through a function -----

  /** A place a run may come to, whatever its conditions yield. */
  datatype Place = Place(pc: nat, here: BlockName, from: BlockName)

  predicate Follows(code: Code, x: Place, y: Place)
    requires x.pc < |code|
  {
    var i := code[x.pc];
    if i.Br? || i.CondBr? then
      Targets(i, y.here) && y.from == x.here && 0 < y.pc <= |code| && code[y.pc - 1] == Label(y.here)
    else !i.Label? && !i.Ret? && y == x.(pc := x.pc + 1)
  }

  /** A way from the beginning of the function, branch by branch. */
  ghost predicate IsWay(code: Code, way: seq<Place>) {
    && way != [] && way[0] == Place(0, Entry, Entry)
    && forall k :: 0 <= k < |way| ==> GoesOnAt(code, way, k)
  }

  predicate GoesOnAt(code: Code, way: seq<Place>, k: nat)
    requires k < |way|
  {
    way[k].pc <= |code| && (k + 1 < |way| ==> way[k].pc < |code| && Follows(code, way[k], way[k + 1]))
  }

  /** Some instruction that the way has left behind defines temporary `n`. */
  ghost predicate Passed(code: Code, way: seq<Place>, n: nat) {
    exists k :: 0 <= k < |way| - 1 && way[k].pc < |code| && Defines(code[way[k].pc], TempNo(n))
  }

  ghost predicate Known(code: Code, way: seq<Place>, op: Operand) {
    op.Temp? ==> Passed(code, way, op.number)
  }

  /** What the instruction at the end of the way uses has been defined on it. */
  ghost predicate UsesKnown(code: Code, way: seq<Place>)
    requires way != []
  {
    var x := way[|way| - 1];
    x.pc < |code| ==>
      match code[x.pc]
      case CondBr(c, _, _) => Known(code, way, c)
      case CallI(_, _, _, args) => forall k :: 0 <= k < |args| ==> Known(code, way, args[k].operand)
      case Ret(_, v) => Known(code, way, v)
      case Phi(_, _, first, firstFrom, second, secondFrom) =>
        (x.from == firstFrom ==> Known(code, way, first)) && (x.from == secondFrom ==> Known(code, way, second))
      case _ => true
  }

  /** Definitions dominate uses. */
  ghost predicate DefinitionsDominate(code: Code) {
    forall way: seq<Place> :: IsWay(code, way) ==> UsesKnown(code, way)
  }

  // ----- plans: what is defined where -----

  /** The temporaries defined whenever a block is entered, and those defined when it is entered from
      one of the blocks its phi names. */
  datatype Gate = Gate(always: set<nat>, entries: map<BlockName, set<nat>>)

  type Plan = map<BlockName, Gate>

  predicate Available(op: Operand, a: set<nat>) {
    op.Temp? ==> op.number in a
  }

  predicate Opens(to: BlockName, here: BlockName, a: set<nat>, p: Plan) {
    to in p && p[to].always <= a && (here in p[to].entries ==> p[to].entries[here] <= a)
  }

  predicate Enters(op: Operand, from: BlockName, gate: Gate) {
    op.Temp? ==> from in gate.entries && op.number in gate.entries[from]
  }

  ghost predicate FlowsAt(i: Instr, here: BlockName, a: set<nat>, p: Plan) {
    match i
    case Label(b) => b in p
    case Br(target) => Opens(target, here, a, p)
    case CondBr(c, yes, no) => Available(c, a) && Opens(yes, here, a, p) && Opens(no, here, a, p)
    case CallI(_, _, _, args) => forall k :: 0 <= k < |args| ==> Available(args[k].operand, a)
    case Ret(_, v) => Available(v, a)
    case Phi(_, _, first, firstFrom, second, secondFrom) =>
      here in p && Enters(first, firstFrom, p[here]) && Enters(second, secondFrom, p[here])
  }

  function Past(i: Instr, a: set<nat>, p: Plan): set<nat> {
    match i
    case Label(b) => if b in p then p[b].always else {}
    case CallI(Some(n), _, _, _) => a + {n}
    case Phi(n, _, _, _, _, _) => a + {n}
    case _ => a
  }

  /** What is defined behind `code` if `a` is in front of it. */
  function PastAll(code: Code, a: set<nat>, p: Plan): set<nat> {
    if code == [] then a
    else var n := |code| - 1; Past(code[n], PastAll(code[..n], a, p), p)
  }

  function DefinedAt(code: Code, i: nat, a: set<nat>, p: Plan): set<nat>
    requires i <= |code|
  {
    PastAll(code[..i], a, p)
  }

  /** The plan is kept by every instruction. */
  ghost predicate Flows(code: Code, start: BlockName, a: set<nat>, p: Plan) {
    forall i :: 0 <= i < |code| ==> FlowsAt(code[i], BlockAt(code, i, start), DefinedAt(code, i, a, p), p)
  }

  // ----- a plan that is kept shows dominance -----

  ghost predicate AllPassed(code: Code, way: seq<Place>, a: set<nat>) {
    forall n :: n in a ==> Passed(code, way, n)
  }

  /** What a way has behind it, by the plan. */
  ghost predicate Keeps(code: Code, way: seq<Place>, p: Plan)
    requires way != []
  {
    var x := way[|way| - 1];
    && x.pc <= |code|
    && x.here == BlockAt(code, x.pc, Entry)
    && AllPassed(code, way, DefinedAt(code, x.pc, {}, p))
    && (x.here in p && x.from in p[x.here].entries ==> AllPassed(code, way, p[x.here].entries[x.from]))
  }

  lemma PassedLonger(code: Code, way: seq<Place>, y: Place, n: nat)
    requires Passed(code, way, n)
    ensures Passed(code, way + [y], n)
  {
    var k :| 0 <= k < |way| - 1 && way[k].pc < |code| && Defines(code[way[k].pc], TempNo(n));
    assert (way + [y])[k] == way[k];
  }

  lemma AllPassedLonger(code: Code, way: seq<Place>, y: Place, a: set<nat>)
    requires AllPassed(code, way, a)
    ensures AllPassed(code, way + [y], a)
  {
    forall n | n in a ensures Passed(code, way + [y], n) {
      PassedLonger(code, way, y, n);
    }
  }

  lemma PassedNow(code: Code, way: seq<Place>, y: Place, n: nat)
    requires way != [] && way[|way| - 1].pc < |code| && Defines(code[way[|way| - 1].pc], TempNo(n))
    ensures Passed(code, way + [y], n)
  {
    assert (way + [y])[|way| - 1] == way[|way| - 1];
  }

  /** Behind one more instruction. */
  lemma DefinedNext(code: Code, i: nat, start: BlockName, a: set<nat>, p: Plan)
    requires i < |code|
    ensures DefinedAt(code, i + 1, a, p) == Past(code[i], DefinedAt(code, i, a, p), p)
    ensures BlockAt(code, i + 1, start) == if code[i].Label? then code[i].name else BlockAt(code, i, start)
  {
    assert code[..i + 1][..i] == code[..i];
  }

  lemma StepKeeps(code: Code, way: seq<Place>, y: Place, p: Plan)
    requires way != [] && way[|way| - 1].pc < |code| && Follows(code, way[|way| - 1], y)
    requires Flows(code, Entry, {}, p) && Keeps(code, way, p)
    ensures Keeps(code, way + [y], p)
  {
    var x := way[|way| - 1];
    var i, a := code[x.pc], DefinedAt(code, x.pc, {}, p);
    assert (way + [y])[|way|] == y;
    DefinedNext(code, x.pc, Entry, {}, p);
    assert FlowsAt(i, x.here, a, p);
    if i.Br? || i.CondBr? {
      DefinedNext(code, y.pc - 1, Entry, {}, p);
      hide Passed, AllPassed, Flows, DefinedAt, BlockAt;
      JumpKeeps(code, way, y, a, p);
    } else {
      hide Passed, Flows, DefinedAt, BlockAt, FlowsAt;
      AllPassedLonger(code, way, y, a);
      forall n | n in Past(i, a, p) ensures Passed(code, way + [y], n) {
        if n !in a { PassedNow(code, way, y, n); }
      }
      if x.here in p && x.from in p[x.here].entries { AllPassedLonger(code, way, y, p[x.here].entries[x.from]); }
    }
  }

  lemma JumpKeeps(code: Code, way: seq<Place>, y: Place, a: set<nat>, p: Plan)
    requires way != [] && AllPassed(code, way, a) && Opens(y.here, y.from, a, p)
    ensures AllPassed(code, way + [y], p[y.here].always)
    ensures y.from in p[y.here].entries ==> AllPassed(code, way + [y], p[y.here].entries[y.from])
  {
    hide Passed;
    AllPassedLonger(code, way, y, a);
  }

  lemma ShorterWay(code: Code, way: seq<Place>, n: nat)
    requires IsWay(code, way) && 0 < n <= |way|
    ensures IsWay(code, way[..n])
  {
    hide Follows;
    forall k | 0 <= k < n ensures GoesOnAt(code, way[..n], k) {
      assert GoesOnAt(code, way, k);
    }
  }

  lemma {:induction false} WayKeeps(code: Code, way: seq<Place>, p: Plan)
    requires IsWay(code, way) && Flows(code, Entry, {}, p) && Entry !in p
    ensures Keeps(code, way, p)
    decreases |way|
  {
    var n := |way| - 1;
    assert GoesOnAt(code, way, n);
    if n == 0 {
      assert code[..0] == [];
    } else {
      var before := way[..n];
      ShorterWay(code, way, n);
      assert GoesOnAt(code, way, n - 1);
      WayKeeps(code, before, p);
      assert before[n - 1] == way[n - 1] && way == before + [way[n]];
      hide IsWay, Flows, Keeps;
      StepKeeps(code, before, way[n], p);
    }
  }

  lemma PlanShowsDominance(code: Code, p: Plan)
    requires Flows(code, Entry, {}, p) && Entry !in p
    ensures DefinitionsDominate(code)
  {
    forall way: seq<Place> | IsWay(code, way) ensures UsesKnown(code, way) {
      WayKeeps(code, way, p);
      var x := way[|way| - 1];
      if x.pc < |code| { assert FlowsAt(code[x.pc], x.here, DefinedAt(code, x.pc, {}, p), p); }
      hide IsWay, Flows, Passed;
    }
  }

  // ----- plans of pieces -----

  predicate Extends(q: Plan, p: Plan) {
    forall b :: b in p ==> b in q && q[b] == p[b]
  }

  /** A plan for the labels numbered from `l` to `l1`. */
  predicate Covers(p: Plan, l: nat, l1: nat) {
    forall b :: b in p ==> b.Numbered? && l <= b.number < l1
  }

  lemma {:induction false} PastAppend(x: Code, y: Code, a: set<nat>, p: Plan)
    ensures PastAll(x + y, a, p) == PastAll(y, PastAll(x, a, p), p)
    decreases |y|
  {
    if y == [] {
      assert x + y == x;
    } else {
      var n := |y| - 1;
      assert (x + y)[..|x| + n] == x + y[..n];
      PastAppend(x, y[..n], a, p);
    }
  }

  lemma DefinedInSecond(x: Code, y: Code, i: nat, a: set<nat>, p: Plan)
    requires i <= |y|
    ensures DefinedAt(x + y, |x| + i, a, p) == DefinedAt(y, i, PastAll(x, a, p), p)
  {
    assert (x + y)[..|x| + i] == x + y[..i];
    PastAppend(x, y[..i], a, p);
  }

  lemma FlowsAppend(x: Code, y: Code, start: BlockName, a: set<nat>, p: Plan)
    requires Flows(x, start, a, p) && Flows(y, LastBlock(x, start), PastAll(x, a, p), p)
    ensures Flows(x + y, start, a, p)
    ensures PastAll(x + y, a, p) == PastAll(y, PastAll(x, a, p), p) && LastBlock(x + y, start) == LastBlock(y, LastBlock(x, start))
  {
    PastAppend(x, y, a, p);
    LastBlockAppend(x, y, start);
    hide LastBlock, PastAll, FlowsAt;
    forall i | 0 <= i < |x + y| ensures FlowsAt((x + y)[i], BlockAt(x + y, i, start), DefinedAt(x + y, i, a, p), p) {
      if i < |x| {
        assert (x + y)[..i] == x[..i];
        assert FlowsAt(x[i], BlockAt(x, i, start), DefinedAt(x, i, a, p), p);
      } else {
        BlockInSecond(x, y, i - |x|, start);
        DefinedInSecond(x, y, i - |x|, a, p);
        assert FlowsAt(y[i - |x|], BlockAt(y, i - |x|, LastBlock(x, start)), DefinedAt(y, i - |x|, PastAll(x, a, p), p), p);
      }
    }
  }

  /** A larger plan is kept as well. */
  lemma {:induction false} PastWider(code: Code, start: BlockName, a: set<nat>, p: Plan, q: Plan)
    requires Flows(code, start, a, p) && Extends(q, p)
    ensures PastAll(code, a, q) == PastAll(code, a, p)
    decreases |code|
  {
    if code != [] {
      var n := |code| - 1;
      assert FlowsAt(code[n], BlockAt(code, n, start), DefinedAt(code, n, a, p), p);
      FlowsTake(code, n, start, a, p);
      PastWider(code[..n], start, a, p, q);
    }
  }

  lemma FlowsTake(code: Code, n: nat, start: BlockName, a: set<nat>, p: Plan)
    requires n <= |code| && Flows(code, start, a, p)
    ensures Flows(code[..n], start, a, p)
  {
    hide FlowsAt;
    forall i | 0 <= i < n ensures FlowsAt(code[..n][i], BlockAt(code[..n], i, start), DefinedAt(code[..n], i, a, p), p) {
      assert code[..n][..i] == code[..i];
      assert FlowsAt(code[i], BlockAt(code, i, start), DefinedAt(code, i, a, p), p);
    }
  }

  lemma FlowsWider(code: Code, start: BlockName, a: set<nat>, p: Plan, q: Plan)
    requires Flows(code, start, a, p) && Extends(q, p)
    ensures Flows(code, start, a, q) && PastAll(code, a, q) == PastAll(code, a, p)
  {
    PastWider(code, start, a, p, q);
    forall i | 0 <= i < |code| ensures FlowsAt(code[i], BlockAt(code, i, start), DefinedAt(code, i, a, q), q) {
      FlowsTake(code, i, start, a, p);
      PastWider(code[..i], start, a, p, q);
      assert FlowsAt(code[i], BlockAt(code, i, start), DefinedAt(code, i, a, p), p);
    }
  }

  /** `code` was emitted while the label counter went from `l` to `l1`; it keeps the plan and loses
      nothing that was defined in front of it. */
  ghost predicate IsFlow(code: Code, start: BlockName, a: set<nat>, p: Plan, l: nat, l1: nat) {
    && l <= l1 && Covers(p, l, l1) && Flows(code, start, a, p) && a <= PastAll(code, a, p)
    && EndsIn(start, LastBlock(code, start), l, l1)
  }

  lemma EmptyFlow(start: BlockName, a: set<nat>, l: nat)
    ensures IsFlow([], start, a, map[], l, l) && PastAll([], a, map[]) == a
  {
  }

  lemma FlowAppend(x: Code, y: Code, start: BlockName, a: set<nat>, p: Plan, q: Plan, l: nat, m: nat, l1: nat)
    requires IsFlow(x, start, a, p, l, m) && IsFlow(y, LastBlock(x, start), PastAll(x, a, p), q, m, l1)
    ensures IsFlow(x + y, start, a, p + q, l, l1) && PastAll(x + y, a, p + q) == PastAll(y, PastAll(x, a, p), q)
  {
    hide Flows, PastAll, LastBlock;
    var both := p + q;
    assert Extends(both, p) && Extends(both, q);
    FlowsWider(x, start, a, p, both);
    FlowsWider(y, LastBlock(x, start), PastAll(x, a, p), q, both);
    FlowsAppend(x, y, start, a, both);
  }

  // ----- ifs and loops -----

  /** Two instructions between pieces: a branch, and the label of the next block. */
  lemma SeamFlows(branch: Instr, next: BlockName, start: BlockName, a: set<nat>, p: Plan)
    requires (branch.Br? || branch.CondBr?) && FlowsAt(branch, start, a, p) && next in p
    ensures var code := [branch, Label(next)];
      Flows(code, start, a, p) && PastAll(code, a, p) == p[next].always && LastBlock(code, start) == next
  {
    hide FlowsAt;
    var code := [branch, Label(next)];
    assert code[..0] == [] && code[..1] == [branch] && [branch][..0] == [];
    assert forall i :: 0 <= i < 2 ==> FlowsAt(code[i], BlockAt(code, i, start), DefinedAt(code, i, a, p), p) by {
      assert FlowsAt(Label(next), start, a, p) by { LabelFlows(next, start, a, p); }
    }
  }

  lemma LabelFlows(next: BlockName, here: BlockName, a: set<nat>, p: Plan)
    requires next in p
    ensures FlowsAt(Label(next), here, a, p)
  {
  }

  /** The gates of an `if`: its branches see what the condition has defined, and so does what follows;
      the phi sees what each branch has defined as well. */
  function IfGates(n: nat, a: set<nat>, afterYes: set<nat>, afterNo: set<nat>): Plan {
    var ifThen, ifElse, end := Numbered(IfThen, n), Numbered(IfElse, n + 1), Numbered(IfEnd, n + 2);
    map[ifThen := Gate(a, map[]), ifElse := Gate(a, map[]), end := Gate(a, map[ifThen := afterYes, ifElse := afterNo])]
  }

  lemma IfBranchesFlow(yes: Emitted, no: Emitted, n: nat, a: set<nat>, p: Plan, y: nat, z: nat)
    requires n + 3 <= y <= z
    requires var ifThen, ifElse := Numbered(IfThen, n), Numbered(IfElse, n + 1);
      && Flows(yes.code, ifThen, a, p) && Flows(no.code, ifElse, a, p)
      && a <= PastAll(yes.code, a, p) && a <= PastAll(no.code, a, p)
      && EndsIn(ifThen, LastBlock(yes.code, ifThen), n + 3, y) && EndsIn(ifElse, LastBlock(no.code, ifElse), y, z)
      && Extends(p, IfGates(n, a, PastAll(yes.code, a, p), PastAll(no.code, a, p)))
    ensures var ifThen, end := Numbered(IfThen, n), Numbered(IfEnd, n + 2);
      var code := IfBranches(yes, no, n);
      Flows(code, ifThen, a, p) && PastAll(code, a, p) == a && LastBlock(code, ifThen) == end
  {
    hide Flows, PastAll, LastBlock;
    var ifThen, ifElse, end := Numbered(IfThen, n), Numbered(IfElse, n + 1), Numbered(IfEnd, n + 2);
    var gates := IfGates(n, a, PastAll(yes.code, a, p), PastAll(no.code, a, p));
    assert ifThen in gates && ifElse in gates && end in gates;
    var otherwise, join := [Br(end), Label(ifElse)], [Br(end), Label(end)];
    SeamFlows(Br(end), ifElse, LastBlock(yes.code, ifThen), PastAll(yes.code, a, p), p);
    SeamFlows(Br(end), end, LastBlock(no.code, ifElse), PastAll(no.code, a, p), p);
    FlowsAppend(no.code, join, ifElse, a, p);
    FlowsAppend(otherwise, no.code + join, LastBlock(yes.code, ifThen), PastAll(yes.code, a, p), p);
    FlowsAppend(yes.code, otherwise + (no.code + join), ifThen, a, p);
  }

  lemma IfCodeFlows(cond: Emitted, yes: Emitted, no: Emitted, start: BlockName, a0: set<nat>, a: set<nat>, p: Plan)
    requires var n := cond.nextLabel;
      var ifThen := Numbered(IfThen, n);
      && Flows(cond.code, start, a0, p) && PastAll(cond.code, a0, p) == a && Available(cond.value, a)
      && Flows(IfBranches(yes, no, n), ifThen, a, p)
      && Extends(p, map[ifThen := Gate(a, map[]), Numbered(IfElse, n + 1) := Gate(a, map[])])
    ensures var n := cond.nextLabel;
      var code, rest := IfCode(cond, yes, no), IfBranches(yes, no, n);
      && Flows(code, start, a0, p) && PastAll(code, a0, p) == PastAll(rest, a, p)
      && LastBlock(code, start) == LastBlock(rest, Numbered(IfThen, n))
  {
    hide Flows, PastAll, LastBlock, IfBranches;
    var n := cond.nextLabel;
    var ifThen, ifElse := Numbered(IfThen, n), Numbered(IfElse, n + 1);
    var gates := map[ifThen := Gate(a, map[]), ifElse := Gate(a, map[])];
    assert ifThen in gates && ifElse in gates;
    var split := [CondBr(cond.value, ifThen, ifElse), Label(ifThen)];
    SeamFlows(split[0], ifThen, LastBlock(cond.code, start), a, p);
    FlowsAppend(split, IfBranches(yes, no, n), LastBlock(cond.code, start), a, p);
    FlowsAppend(cond.code, split + IfBranches(yes, no, n), start, a0, p);
  }

  lemma PhiFlows(code: Code, phi: Instr, start: BlockName, a0: set<nat>, p: Plan)
    requires phi.Phi? && Flows(code, start, a0, p) && FlowsAt(phi, LastBlock(code, start), PastAll(code, a0, p), p)
    ensures Flows(code + [phi], start, a0, p)
    ensures PastAll(code + [phi], a0, p) == PastAll(code, a0, p) + {phi.temp} && LastBlock(code + [phi], start) == LastBlock(code, start)
  {
    hide FlowsAt;
    assert [phi][..0] == [];
    assert Flows([phi], LastBlock(code, start), PastAll(code, a0, p), p);
    FlowsAppend(code, [phi], start, a0, p);
  }

  /** What is emitted for an `if`, given plans for its parts. */
  lemma IfFlows(cond: Emitted, yes: Emitted, no: Emitted, typ: LType, start: BlockName, a0: set<nat>, l: nat, y: nat, z: nat,
                pc: Plan, py: Plan, pn: Plan) returns (p: Plan)
    requires var n, a := cond.nextLabel, PastAll(cond.code, a0, pc);
      && IsFlow(cond.code, start, a0, pc, l, n) && Available(cond.value, a)
      && IsFlow(yes.code, Numbered(IfThen, n), a, py, n + 3, y) && Available(yes.value, PastAll(yes.code, a, py))
      && IsFlow(no.code, Numbered(IfElse, n + 1), a, pn, y, z) && Available(no.value, PastAll(no.code, a, pn))
    ensures var r := FinishIf(cond, yes, no, typ);
      IsFlow(r.code, start, a0, p, l, z) && Available(r.value, PastAll(r.code, a0, p))
  {
    hide Flows, PastAll, LastBlock, IfCode, IfBranches;
    var n, a := cond.nextLabel, PastAll(cond.code, a0, pc);
    var ifThen, ifElse, end := Numbered(IfThen, n), Numbered(IfElse, n + 1), Numbered(IfEnd, n + 2);
    var gates := IfGates(n, a, PastAll(yes.code, a, py), PastAll(no.code, a, pn));
    p := pc + gates + py + pn;
    GatesCover(n, gates, a, PastAll(yes.code, a, py), PastAll(no.code, a, pn));
    PlansMerge(pc, gates, py, pn, l, n, y, z);
    FlowsWider(cond.code, start, a0, pc, p);
    FlowsWider(yes.code, ifThen, a, py, p);
    FlowsWider(no.code, ifElse, a, pn, p);
    IfBranchesFlow(yes, no, n, a, p, y, z);
    assert ifThen in gates && ifElse in gates && end in gates;
    IfCodeFlows(cond, yes, no, start, a0, a, p);
    if typ != Void { PhiFlows(IfCode(cond, yes, no), JoinPhi(cond, yes, no, typ), start, a0, p); }
  }

  lemma GatesCover(n: nat, gates: Plan, a: set<nat>, afterYes: set<nat>, afterNo: set<nat>)
    requires gates == IfGates(n, a, afterYes, afterNo)
    ensures Covers(gates, n, n + 3)
  {
  }

  lemma PlansMerge(pc: Plan, gates: Plan, py: Plan, pn: Plan, l: nat, n: nat, y: nat, z: nat)
    requires l <= n && n + 3 <= y <= z
    requires Covers(pc, l, n) && Covers(gates, n, n + 3) && Covers(py, n + 3, y) && Covers(pn, y, z)
    ensures var p := pc + gates + py + pn;
      Covers(p, l, z) && Extends(p, pc) && Extends(p, gates) && Extends(p, py) && Extends(p, pn)
  {
  }

  function WhileGates(n: nat, a0: set<nat>, a: set<nat>): Plan {
    map[Numbered(WhileCond, n) := Gate(a0, map[]), Numbered(WhileBody, n + 1) := Gate(a, map[]), Numbered(WhileEnd, n + 2) := Gate(a, map[])]
  }

  lemma WhileCodeFlows(cond: Emitted, body: Emitted, n: nat, start: BlockName, a0: set<nat>, a: set<nat>, p: Plan)
    requires var condName, bodyName := Numbered(WhileCond, n), Numbered(WhileBody, n + 1);
      && Flows(cond.code, condName, a0, p) && PastAll(cond.code, a0, p) == a && a0 <= a && Available(cond.value, a)
      && Flows(body.code, bodyName, a, p) && a <= PastAll(body.code, a, p)
      && Extends(p, WhileGates(n, a0, a))
    ensures var code := WhileCode(cond, body, n);
      Flows(code, start, a0, p) && PastAll(code, a0, p) == a && LastBlock(code, start) == Numbered(WhileEnd, n + 2)
  {
    hide Flows, PastAll, LastBlock;
    var condName, bodyName, end := Numbered(WhileCond, n), Numbered(WhileBody, n + 1), Numbered(WhileEnd, n + 2);
    var gates := WhileGates(n, a0, a);
    assert condName in gates && bodyName in gates && end in gates;
    var into, split, again := [Br(condName), Label(condName)], [CondBr(cond.value, bodyName, end), Label(bodyName)], [Br(condName), Label(end)];
    SeamFlows(into[0], condName, start, a0, p);
    SeamFlows(split[0], bodyName, LastBlock(cond.code, condName), a, p);
    SeamFlows(again[0], end, LastBlock(body.code, bodyName), PastAll(body.code, a, p), p);
    FlowsAppend(body.code, again, bodyName, a, p);
    FlowsAppend(split, body.code + again, LastBlock(cond.code, condName), a, p);
    FlowsAppend(cond.code, split + (body.code + again), condName, a0, p);
    FlowsAppend(into, cond.code + (split + (body.code + again)), start, a0, p);
  }

  lemma WhileFlows(cond: Emitted, body: Emitted, start: BlockName, a0: set<nat>, l: nat, b: nat, pc: Plan, pb: Plan) returns (p: Plan)
    requires var m, a := cond.nextLabel, PastAll(cond.code, a0, pc);
      && IsFlow(cond.code, Numbered(WhileCond, l), a0, pc, l + 3, m) && Available(cond.value, a)
      && IsFlow(body.code, Numbered(WhileBody, l + 1), a, pb, m, b)
    ensures IsFlow(WhileCode(cond, body, l), start, a0, p, l, b)
  {
    hide Flows, PastAll, LastBlock, WhileCode;
    var m, a := cond.nextLabel, PastAll(cond.code, a0, pc);
    var gates := WhileGates(l, a0, a);
    p := map[] + gates + pc + pb;
    assert Covers(map[], l, l) && Covers(gates, l, l + 3);
    PlansMerge(map[], gates, pc, pb, l, l, m, b);
    FlowsWider(cond.code, Numbered(WhileCond, l), a0, pc, p);
    FlowsWider(body.code, Numbered(WhileBody, l + 1), a, pb, p);
    WhileCodeFlows(cond, body, l, start, a0, a, p);
  }

  // ----- every tree -----

  ghost predicate AllAvailable(ops: seq<TypedOperand>, a: set<nat>) {
    forall k :: 0 <= k < |ops| ==> Available(ops[k].operand, a)
  }

  lemma CallFlows(call: Instr, start: BlockName, a: set<nat>, l: nat)
    requires call.CallI? && AllAvailable(call.args, a)
    ensures IsFlow([call], start, a, map[], l, l) && PastAll([call], a, map[]) == if call.dst.Some? then a + {call.dst.value} else a
  {
    assert [call][..0] == [];
  }

  lemma {:induction false} ExprFlows(e: IR, types: TypeTable, t: nat, l: nat, start: BlockName, a: set<nat>) returns (p: Plan)
    requires Supported(e)
    ensures var r := EmitExpr(e, types, t, l); IsFlow(r.code, start, a, p, l, r.nextLabel) && Available(r.value, PastAll(r.code, a, p))
    decreases e, 2
  {
    hide IsFlow, PastAll;
    if e.CallIR? {
      p := ArgsFlow(e.args, types, t, l, start, a);
      var args := EmitArgs(e.args, types, t, l);
      var call := EmitExpr(e, types, t, l).code[|args.code|];
      CallFlows(call, LastBlock(args.code, start), PastAll(args.code, a, p), args.nextLabel);
      FlowAppend(args.code, [call], start, a, p, map[], l, args.nextLabel, args.nextLabel);
      p := p + map[];
    } else if e.SequenceIR? && e.items != [] {
      p := LastFlows(e.items, types, t, l, start, a);
    } else if e.IfIR? {
      p := IfTreeFlows(e, types, t, l, start, a);
    } else if e.WhileIR? {
      p := WhileTreeFlows(e, types, t, l, start, a);
    } else {
      EmptyFlow(start, a, l);
      p := map[];
    }
  }

  lemma {:induction false} IfTreeFlows(e: IR, types: TypeTable, t: nat, l: nat, start: BlockName, a: set<nat>) returns (p: Plan)
    requires e.IfIR? && Supported(e)
    ensures var r := EmitIf(e, types, t, l); IsFlow(r.code, start, a, p, l, r.nextLabel) && Available(r.value, PastAll(r.code, a, p))
    decreases e, 1
  {
    hide EmitExpr, IfCode, IsFlow, PastAll;
    var cond := EmitExpr(e.cond, types, t, l);
    var yes := EmitExpr(e.thenBranch, types, cond.nextTemp, cond.nextLabel + 3);
    var no := if e.elseBranch == Null then Emitted(true, [], ZeroLiteral(TypeOf(e, types)), yes.nextTemp, yes.nextLabel)
              else EmitExpr(e.elseBranch, types, yes.nextTemp, yes.nextLabel);
    var ifThen, ifElse := Numbered(IfThen, cond.nextLabel), Numbered(IfElse, cond.nextLabel + 1);
    var pc := ExprFlows(e.cond, types, t, l, start, a);
    var b := PastAll(cond.code, a, pc);
    var py := ExprFlows(e.thenBranch, types, cond.nextTemp, cond.nextLabel + 3, ifThen, b);
    var pn: Plan := map[];
    if e.elseBranch != Null {
      pn := ExprFlows(e.elseBranch, types, yes.nextTemp, yes.nextLabel, ifElse, b);
    } else {
      EmptyFlow(ifElse, b, yes.nextLabel);
    }
    p := IfFlows(cond, yes, no, TypeOf(e, types), start, a, l, yes.nextLabel, no.nextLabel, pc, py, pn);
  }

  lemma {:induction false} WhileTreeFlows(e: IR, types: TypeTable, t: nat, l: nat, start: BlockName, a: set<nat>) returns (p: Plan)
    requires e.WhileIR? && Supported(e)
    ensures var r := EmitWhile(e, types, t, l); IsFlow(r.code, start, a, p, l, r.nextLabel) && Available(r.value, PastAll(r.code, a, p))
    decreases e, 1
  {
    hide EmitExpr, EmitStatement, WhileCode, IsFlow, PastAll;
    var cond := EmitExpr(e.cond, types, t, l + 3);
    var body := EmitStatement(e.body, types, cond.nextTemp, cond.nextLabel);
    var pc := ExprFlows(e.cond, types, t, l + 3, Numbered(WhileCond, l), a);
    var pb := StatementFlows(e.body, types, cond.nextTemp, cond.nextLabel, Numbered(WhileBody, l + 1), PastAll(cond.code, a, pc));
    p := WhileFlows(cond, body, start, a, l, body.nextLabel, pc, pb);
  }

  lemma {:induction false} ArgsFlow(args: seq<IR>, types: TypeTable, t: nat, l: nat, start: BlockName, a: set<nat>) returns (p: Plan)
    requires AllSupported(args)
    ensures var r := EmitArgs(args, types, t, l); IsFlow(r.code, start, a, p, l, r.nextLabel) && AllAvailable(r.values, PastAll(r.code, a, p))
    decreases args, 0
  {
    hide PastAll, Flows, LastBlock, IsFlow;
    if args == [] {
      EmptyFlow(start, a, l);
      p := map[];
    } else {
      var first := EmitExpr(args[0], types, t, l);
      var rest := EmitArgs(args[1..], types, first.nextTemp, first.nextLabel);
      var pf := ExprFlows(args[0], types, t, l, start, a);
      var b := PastAll(first.code, a, pf);
      var pr := ArgsFlow(args[1..], types, first.nextTemp, first.nextLabel, LastBlock(first.code, start), b);
      FlowAppend(first.code, rest.code, start, a, pf, pr, l, first.nextLabel, rest.nextLabel);
      FlowGrows(rest.code, LastBlock(first.code, start), b, pr, first.nextLabel, rest.nextLabel);
      p := pf + pr;
    }
  }

  lemma FlowGrows(code: Code, start: BlockName, a: set<nat>, p: Plan, l: nat, l1: nat)
    requires IsFlow(code, start, a, p, l, l1)
    ensures a <= PastAll(code, a, p)
  {
  }

  lemma {:induction false} LastFlows(items: seq<IR>, types: TypeTable, t: nat, l: nat, start: BlockName, a: set<nat>) returns (p: Plan)
    requires items != [] && AllSupported(items)
    ensures var r := EmitLast(items, types, t, l); IsFlow(r.code, start, a, p, l, r.nextLabel) && Available(r.value, PastAll(r.code, a, p))
    decreases items, 0
  {
    hide IsFlow, PastAll, LastBlock;
    if |items| == 1 {
      p := ExprFlows(items[0], types, t, l, start, a);
    } else {
      var first := EmitStatement(items[0], types, t, l);
      var rest := EmitLast(items[1..], types, first.nextTemp, first.nextLabel);
      var pf := StatementFlows(items[0], types, t, l, start, a);
      var pr := LastFlows(items[1..], types, first.nextTemp, first.nextLabel, LastBlock(first.code, start), PastAll(first.code, a, pf));
      FlowAppend(first.code, rest.code, start, a, pf, pr, l, first.nextLabel, rest.nextLabel);
      p := pf + pr;
    }
  }

  lemma {:induction false} StatementFlows(e: IR, types: TypeTable, t: nat, l: nat, start: BlockName, a: set<nat>) returns (p: Plan)
    requires Supported(e)
    ensures var r := EmitStatement(e, types, t, l); IsFlow(r.code, start, a, p, l, r.nextLabel) && Available(r.value, PastAll(r.code, a, p))
    decreases e, 3
  {
    hide IsFlow, PastAll;
    if e.SequenceIR? {
      p := StatementsFlow(e.items, types, t, l, start, a);
    } else if e.WhileIR? {
      p := WhileTreeFlows(e, types, t, l, start, a);
    } else if e == Null {
      EmptyFlow(start, a, l);
      p := map[];
    } else {
      p := ExprFlows(e, types, t, l, start, a);
    }
  }

  lemma {:induction false} StatementsFlow(items: seq<IR>, types: TypeTable, t: nat, l: nat, start: BlockName, a: set<nat>) returns (p: Plan)
    requires AllSupported(items)
    ensures var r := EmitStatements(items, types, t, l); IsFlow(r.code, start, a, p, l, r.nextLabel) && Available(r.value, PastAll(r.code, a, p))
    decreases items, 0
  {
    hide IsFlow, PastAll, LastBlock;
    if items == [] {
      EmptyFlow(start, a, l);
      p := map[];
    } else {
      var first := EmitStatement(items[0], types, t, l);
      var rest := EmitStatements(items[1..], types, first.nextTemp, first.nextLabel);
      var pf := StatementFlows(items[0], types, t, l, start, a);
      var pr := StatementsFlow(items[1..], types, first.nextTemp, first.nextLabel, LastBlock(first.code, start), PastAll(first.code, a, pf));
      FlowAppend(first.code, rest.code, start, a, pf, pr, l, first.nextLabel, rest.nextLabel);
      p := pf + pr;
    }
  }

  /** In every emitted function definitions dominate uses. */
  lemma FunctionDominates(body: IR, ret: LType, types: TypeTable, t: nat, l: nat)
    requires Supported(body)
    ensures DefinitionsDominate(EmitFunction(body, ret, types, t, l).code)
  {
    hide IsFlow, Flows, PastAll, LastBlock, EmitExpr, EmitStatement, DefinitionsDominate;
    var r := if ret == Void then EmitStatement(body, types, t, l) else EmitExpr(body, types, t, l);
    var p: Plan;
    if ret == Void {
      p := StatementFlows(body, types, t, l, Entry, {});
    } else {
      p := ExprFlows(body, types, t, l, Entry, {});
    }
    RetFlows(r.code, Ret(ret, if ret == Void then Uninitialised else r.value), p, l, r.nextLabel);
  }

  lemma RetFlows(code: Code, last: Instr, p: Plan, l: nat, l1: nat)
    requires last.Ret? && IsFlow(code, Entry, {}, p, l, l1) && Available(last.result, PastAll(code, {}, p))
    ensures DefinitionsDominate(code + [last])
  {
    hide DefinitionsDominate;
    assert [last][..0] == [];
    assert Flows([last], LastBlock(code, Entry), PastAll(code, {}, p), p);
    FlowsAppend(code, [last], Entry, {}, p);
    PlanShowsDominance(code + [last], p);
  }

  // ----- what LLVM checks -----

  /** What LLVM checks of the control flow and the names of a function before anything runs. */
  ghost predicate FlowIsSound(code: Code) {
    && BlocksFit(code) && PhisFit(code) && DefinitionsDominate(code)
    && forall x :: Count(code, x) <= 1
  }

  /** Of all that, only the phis can be wrong. */
  lemma FlowIsSoundIffDirect(body: IR, ret: LType, types: TypeTable, t: nat, l: nat)
    requires Supported(body)
    ensures FlowIsSound(EmitFunction(body, ret, types, t, l).code) <==> DirectPhis(body, types)
  {
    hide EmitFunction, BlocksFit, PhisFit, DefinitionsDominate, Count, DirectPhis;
    FunctionBlocksFit(body, ret, types, t, l);
    FunctionDominates(body, ret, types, t, l);
    PhisFitIffDirect(body, ret, types, t, l);
    var code := EmitFunction(body, ret, types, t, l).code;
    forall x ensures Count(code, x) <= 1 {
      FunctionDefinesOnce(body, ret, types, t, l, x);
    }
  }
}
