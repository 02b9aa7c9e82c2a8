/** What LLVM checks of an emitted function before anything runs: blocks end in a branch and begin
    with a label, branches lead to labels of the function, and every phi names exactly the blocks
    that branch to its own. The last of these holds exactly for trees whose phis are direct. */
module LlvmPhis {
  import opened Syntax
  import opened Meaning
  import opened Ir
  import opened Optimizer
  import opened Llvm
  import opened LlvmNames
  import opened LlvmSimulation

  predicate Targets(i: Instr, b: BlockName) {
    match i
    case Br(target) => target == b
    case CondBr(_, yes, no) => yes == b || no == b
    case _ => false
  }

  predicate Terminates(i: Instr) {
    i.Br? || i.CondBr? || i.Ret?
  }

  /** The block in which what follows `code` stands, if `code` begins in the block `start`. */
  function LastBlock(code: Code, start: BlockName): BlockName {
    if code == [] then start
    else
      var last := code[|code| - 1];
      if last.Label? then last.name else LastBlock(code[..|code| - 1], start)
  }

  function BlockAt(code: Code, i: nat, start: BlockName): BlockName
    requires i <= |code|
  {
    LastBlock(code[..i], start)
  }

  /** Some instruction standing in block `b` branches to `target`. */
  ghost predicate IsPredecessor(code: Code, start: BlockName, b: BlockName, target: BlockName) {
    exists j :: 0 <= j < |code| && Targets(code[j], target) && BlockAt(code, j, start) == b
  }

  /** The phi at `i` has an entry for each predecessor of its block, and no other. */
  ghost predicate FitsAt(code: Code, start: BlockName, i: nat)
    requires i < |code| && code[i].Phi?
  {
    forall b :: b == code[i].firstFrom || b == code[i].secondFrom <==> IsPredecessor(code, start, b, BlockAt(code, i, start))
  }

  ghost predicate PhisFitFrom(code: Code, start: BlockName) {
    forall i :: 0 <= i < |code| && code[i].Phi? ==> FitsAt(code, start, i)
  }

  /** The phis of a function are as LLVM demands. */
  ghost predicate PhisFit(code: Code) {
    PhisFitFrom(code, Entry)
  }

  /** Every block but the last ends in a branch, each label begins a block, and nothing returns. */
  ghost predicate Blocked(code: Code) {
    forall i :: 0 <= i < |code| ==> BlockedAt(code, i)
  }

  predicate BlockedAt(code: Code, i: nat)
    requires i < |code|
  {
    && (code[i].Br? || code[i].CondBr? ==> i + 1 < |code| && code[i + 1].Label?)
    && (code[i].Label? ==> i > 0 && (code[i - 1].Br? || code[i - 1].CondBr?))
    && !code[i].Ret?
  }

  /** Every branch in `part` leads to a label of `code`. */
  ghost predicate TargetsHeld(part: Code, code: Code) {
    forall j, b :: 0 <= j < |part| && Targets(part[j], b) ==> Label(b) in code
  }

  /** The blocks of a function: each ends in a branch or the one return, phis come first in theirs,
      and every branch has a target. */
  ghost predicate BlocksFit(code: Code) {
    && code != [] && !code[0].Label?
    && (forall i :: 0 <= i < |code| ==> (Terminates(code[i]) <==> i + 1 == |code| || code[i + 1].Label?))
    && (forall i :: 0 <= i < |code| ==> (code[i].Ret? <==> i + 1 == |code|))
    && (forall i :: 0 <= i < |code| && code[i].Phi? ==> i > 0 && code[i - 1].Label?)
    && TargetsHeld(code, code)
  }

  // ----- parts of code -----

  lemma {:induction false} LastBlockAppend(a: Code, b: Code, start: BlockName)
    ensures LastBlock(a + b, start) == LastBlock(b, LastBlock(a, start))
    decreases |b|
  {
    if b == [] {
      assert a + b == a;
    } else {
      var n := |b| - 1;
      assert (a + b)[..|a| + n] == a + b[..n];
      LastBlockAppend(a, b[..n], start);
    }
  }

  /** The numbers of the blocks that a piece of code branches to, and of those that hold its phis. */
  datatype Spans = Spans(t: nat, t1: nat, p: nat, p1: nat)

  predicate Includes(x: Spans, y: Spans) {
    x.t <= y.t && y.t1 <= x.t1 && x.p <= y.p && y.p1 <= x.p1
  }

  /** Neither of two pieces branches to the phis of the other. */
  predicate Apart(x: Spans, y: Spans) {
    (x.t1 <= y.p || y.p1 <= x.t) && (y.t1 <= x.p || x.p1 <= y.t)
  }

  /** The branches and phis of `code` keep to `x`, and every phi follows the label of its block. */
  ghost predicate Shaped(code: Code, x: Spans) {
    && (forall j, b :: 0 <= j < |code| && Targets(code[j], b) ==> b.Numbered? && x.t <= b.number < x.t1)
    && (forall i :: 0 <= i < |code| && code[i].Phi? ==>
          i > 0 && code[i - 1].Label? && code[i - 1].name.Numbered? && x.p <= code[i - 1].name.number < x.p1)
  }

  lemma PhiBlock(code: Code, i: nat, start: BlockName)
    requires 0 < i < |code| && code[i - 1].Label?
    ensures BlockAt(code, i, start) == code[i - 1].name
  {
    assert code[..i][|code[..i]| - 1] == code[i - 1];
  }

  lemma BlockInFirst(a: Code, b: Code, i: nat, start: BlockName)
    requires i <= |a|
    ensures BlockAt(a + b, i, start) == BlockAt(a, i, start)
  {
    assert (a + b)[..i] == a[..i];
  }

  lemma BlockInSecond(a: Code, b: Code, i: nat, start: BlockName)
    requires i <= |b|
    ensures BlockAt(a + b, |a| + i, start) == BlockAt(b, i, LastBlock(a, start))
  {
    assert (a + b)[..|a| + i] == a + b[..i];
    LastBlockAppend(a, b[..i], start);
  }

  /** The predecessors in a concatenation are those in its two parts. */
  lemma PredecessorsAppend(a: Code, b: Code, start: BlockName, from: BlockName, target: BlockName)
    ensures IsPredecessor(a + b, start, from, target) <==>
      IsPredecessor(a, start, from, target) || IsPredecessor(b, LastBlock(a, start), from, target)
  {
    hide Targets, BlockAt;
    if IsPredecessor(a + b, start, from, target) {
      var j :| 0 <= j < |a + b| && Targets((a + b)[j], target) && BlockAt(a + b, j, start) == from;
      if j < |a| {
        BlockInFirst(a, b, j, start);
        assert Targets(a[j], target);
      } else {
        BlockInSecond(a, b, j - |a|, start);
        assert Targets(b[j - |a|], target);
      }
    }
    if IsPredecessor(a, start, from, target) {
      var j :| 0 <= j < |a| && Targets(a[j], target) && BlockAt(a, j, start) == from;
      BlockInFirst(a, b, j, start);
      assert Targets((a + b)[j], target);
    }
    if IsPredecessor(b, LastBlock(a, start), from, target) {
      var j :| 0 <= j < |b| && Targets(b[j], target) && BlockAt(b, j, LastBlock(a, start)) == from;
      BlockInSecond(a, b, j, start);
      assert Targets((a + b)[|a| + j], target);
    }
  }

  lemma NoPredecessor(code: Code, x: Spans, start: BlockName, from: BlockName, target: BlockName)
    requires Shaped(code, x) && !(target.Numbered? && x.t <= target.number < x.t1)
    ensures !IsPredecessor(code, start, from, target)
  {
    hide Targets, BlockAt;
  }

  /** Two parts fit together when neither branches to the blocks of the other's phis. */
  lemma FitAppend(a: Code, b: Code, start: BlockName, x: Spans, y: Spans)
    requires Shaped(a, x) && Shaped(b, y) && Apart(x, y)
    ensures PhisFitFrom(a + b, start) <==> PhisFitFrom(a, start) && PhisFitFrom(b, LastBlock(a, start))
  {
    hide Targets, BlockAt, IsPredecessor;
    var c := a + b;
    forall i | 0 <= i < |a| && a[i].Phi? ensures FitsAt(c, start, i) <==> FitsAt(a, start, i) {
      var target := a[i - 1].name;
      PhiBlock(a, i, start);
      BlockInFirst(a, b, i, start);
      forall from ensures IsPredecessor(c, start, from, target) <==> IsPredecessor(a, start, from, target) {
        PredecessorsAppend(a, b, start, from, target);
        NoPredecessor(b, y, LastBlock(a, start), from, target);
      }
    }
    forall i | 0 <= i < |b| && b[i].Phi? ensures FitsAt(c, start, |a| + i) <==> FitsAt(b, LastBlock(a, start), i) {
      var target := b[i - 1].name;
      PhiBlock(b, i, LastBlock(a, start));
      BlockInSecond(a, b, i, start);
      forall from ensures IsPredecessor(c, start, from, target) <==> IsPredecessor(b, LastBlock(a, start), from, target) {
        PredecessorsAppend(a, b, start, from, target);
        NoPredecessor(a, x, start, from, target);
      }
    }
    if PhisFitFrom(c, start) {
      forall i | 0 <= i < |a| && a[i].Phi? ensures FitsAt(a, start, i) {
        assert c[i] == a[i];
      }
      forall i | 0 <= i < |b| && b[i].Phi? ensures FitsAt(b, LastBlock(a, start), i) {
        assert c[|a| + i] == b[i];
      }
    }
    if PhisFitFrom(a, start) && PhisFitFrom(b, LastBlock(a, start)) {
      forall i | 0 <= i < |c| && c[i].Phi? ensures FitsAt(c, start, i) {
        if i < |a| { assert a[i].Phi?; } else { assert b[i - |a|].Phi? && i == |a| + (i - |a|); }
      }
    }
  }

  lemma ShapeAppend(a: Code, b: Code, x: Spans, y: Spans, z: Spans)
    requires Shaped(a, x) && Shaped(b, y) && Includes(z, x) && Includes(z, y)
    ensures Shaped(a + b, z)
  {
    hide Targets;
    var c := a + b;
    forall j, b0 | 0 <= j < |c| && Targets(c[j], b0) ensures b0.Numbered? && z.t <= b0.number < z.t1 {
      if j >= |a| { assert c[j] == b[j - |a|]; }
    }
    forall i | 0 <= i < |c| && c[i].Phi?
      ensures i > 0 && c[i - 1].Label? && c[i - 1].name.Numbered? && z.p <= c[i - 1].name.number < z.p1
    {
      if i >= |a| { assert c[i] == b[i - |a|]; }
    }
  }

  lemma BlockedAppend(a: Code, b: Code)
    requires Blocked(a) && Blocked(b)
    ensures Blocked(a + b)
  {
    forall i | 0 <= i < |a + b| ensures BlockedAt(a + b, i) {
      if i < |a| {
        assert BlockedAt(a, i) && (a + b)[i] == a[i];
        assert i + 1 < |a| ==> (a + b)[i + 1] == a[i + 1];
        assert i > 0 ==> (a + b)[i - 1] == a[i - 1];
      } else {
        var k := i - |a|;
        assert BlockedAt(b, k) && (a + b)[i] == b[k];
        assert k + 1 < |b| ==> (a + b)[i + 1] == b[k + 1];
        assert k > 0 ==> (a + b)[i - 1] == b[k - 1];
      }
    }
  }

  lemma HeldAppend(a: Code, b: Code, code: Code)
    requires TargetsHeld(a, code) && TargetsHeld(b, code)
    ensures TargetsHeld(a + b, code)
  {
    hide Targets;
    forall j, t | 0 <= j < |a + b| && Targets((a + b)[j], t) ensures Label(t) in code {
      if j >= |a| { assert (a + b)[j] == b[j - |a|]; }
    }
  }

  lemma HeldWider(part: Code, small: Code, code: Code)
    requires TargetsHeld(part, small) && forall i :: i in small ==> i in code
    ensures TargetsHeld(part, code)
  {
    hide Targets;
  }

  // ----- the pieces that are emitted -----

  /** `code`, entered in the block `start`, ends in the block `after`; its branches and phis keep to
      `x`; and its phis fit exactly when `direct`. */
  ghost predicate IsPart(code: Code, start: BlockName, after: BlockName, direct: bool, x: Spans) {
    Shaped(code, x) && Blocked(code) && LastBlock(code, start) == after && (PhisFitFrom(code, start) <==> direct)
  }

  lemma PartAppend(a: Code, b: Code, start: BlockName, middle: BlockName, after: BlockName, d1: bool, d2: bool,
                   x: Spans, y: Spans, z: Spans)
    requires IsPart(a, start, middle, d1, x) && IsPart(b, middle, after, d2, y)
    requires Apart(x, y) && Includes(z, x) && Includes(z, y)
    ensures IsPart(a + b, start, after, d1 && d2, z)
  {
    hide Shaped, PhisFitFrom, Blocked;
    LastBlockAppend(a, b, start);
    FitAppend(a, b, start, x, y);
    ShapeAppend(a, b, x, y, z);
    BlockedAppend(a, b);
  }

  /** Two instructions between pieces: a branch, and the label of the next block. */
  lemma Seam(branch: Instr, next: BlockName, start: BlockName, x: Spans)
    requires branch.Br? || branch.CondBr?
    requires forall b :: Targets(branch, b) ==> b.Numbered? && x.t <= b.number < x.t1
    ensures IsPart([branch, Label(next)], start, next, true, x)
  {
  }

  /** All the numbers from `l` to `l1`. */
  function Own(l: nat, l1: nat): Spans {
    Spans(l, l1, l, l1)
  }

  /** The pieces of an `if`, up to its last label. */
  lemma IfCodeFits(cond: Emitted, yes: Emitted, no: Emitted, start: BlockName, afterCond: BlockName, afterYes: BlockName,
                   afterNo: BlockName, dc: bool, dy: bool, dn: bool, l: nat, y: nat, z: nat)
    requires var n := cond.nextLabel;
      && l <= n && n + 3 <= y <= z
      && IsPart(cond.code, start, afterCond, dc, Own(l, n))
      && IsPart(yes.code, Numbered(IfThen, n), afterYes, dy, Own(n + 3, y))
      && IsPart(no.code, Numbered(IfElse, n + 1), afterNo, dn, Own(y, z))
    ensures IsPart(IfCode(cond, yes, no), start, Numbered(IfEnd, cond.nextLabel + 2), dc && dy && dn, Own(l, z))
  {
    hide IsPart;
    var n := cond.nextLabel;
    var ifThen, ifElse, end := Numbered(IfThen, n), Numbered(IfElse, n + 1), Numbered(IfEnd, n + 2);
    var split, otherwise, join := [CondBr(cond.value, ifThen, ifElse), Label(ifThen)], [Br(end), Label(ifElse)], [Br(end), Label(end)];
    var seam, one, both := Spans(n, n + 3, z, z), Spans(n, y, n + 3, y), Spans(n, z, n + 3, z);
    Seam(split[0], ifThen, afterCond, seam);
    Seam(otherwise[0], ifElse, afterYes, Spans(n, n + 3, y, y));
    Seam(join[0], end, afterNo, seam);
    var a := yes.code + otherwise;
    PartAppend(yes.code, otherwise, ifThen, afterYes, ifElse, dy, true, Own(n + 3, y), Spans(n, n + 3, y, y), one);
    PartAppend(a, no.code, ifThen, ifElse, afterNo, dy, dn, one, Own(y, z), both);
    PartAppend(a + no.code, join, ifThen, afterNo, end, dy && dn, true, both, seam, both);
    PartAppend(split, a + no.code + join, afterCond, ifThen, end, true, dy && dn, seam, both, both);
    PartAppend(cond.code, split + (a + no.code + join), start, afterCond, end, dc, dy && dn, Own(l, n), both, Own(l, z));
    assert a + no.code + join == IfBranches(yes, no, n);
  }

  lemma SeamPredecessor(branch: Instr, next: BlockName, start: BlockName, from: BlockName, target: BlockName)
    requires branch.Br? || branch.CondBr?
    ensures IsPredecessor([branch, Label(next)], start, from, target) <==> from == start && Targets(branch, target)
  {
    hide Targets;
    var code := [branch, Label(next)];
    assert code[..0] == [];
    if Targets(branch, target) { assert Targets(code[0], target) && BlockAt(code, 0, start) == start; }
    assert !Targets(code[1], target) by { LabelTargetsNothing(next, target); }
  }

  lemma LabelTargetsNothing(next: BlockName, target: BlockName)
    ensures !Targets(Label(next), target)
  {
  }

  /** The blocks that branch to the end of an `if` are those its branches end in. */
  lemma IfPredecessors(cond: Emitted, yes: Emitted, no: Emitted, start: BlockName, afterCond: BlockName, afterYes: BlockName,
                       afterNo: BlockName, dc: bool, dy: bool, dn: bool, l: nat, y: nat, z: nat, from: BlockName)
    requires var n := cond.nextLabel;
      && l <= n && n + 3 <= y <= z
      && IsPart(cond.code, start, afterCond, dc, Own(l, n))
      && IsPart(yes.code, Numbered(IfThen, n), afterYes, dy, Own(n + 3, y))
      && IsPart(no.code, Numbered(IfElse, n + 1), afterNo, dn, Own(y, z))
    ensures IsPredecessor(IfCode(cond, yes, no), start, from, Numbered(IfEnd, cond.nextLabel + 2)) <==>
      from == afterYes || from == afterNo
  {
    hide Shaped, PhisFitFrom, IsPredecessor, Blocked;
    var n := cond.nextLabel;
    var ifThen, ifElse, end := Numbered(IfThen, n), Numbered(IfElse, n + 1), Numbered(IfEnd, n + 2);
    var split, otherwise, join := [CondBr(cond.value, ifThen, ifElse), Label(ifThen)], [Br(end), Label(ifElse)], [Br(end), Label(end)];
    PredecessorsAppend(cond.code, split + IfBranches(yes, no, n), start, from, end);
    PredecessorsAppend(split, IfBranches(yes, no, n), afterCond, from, end);
    PredecessorsAppend(yes.code, otherwise + (no.code + join), ifThen, from, end);
    PredecessorsAppend(otherwise, no.code + join, afterYes, from, end);
    PredecessorsAppend(no.code, join, ifElse, from, end);
    NoPredecessor(cond.code, Own(l, n), start, from, end);
    NoPredecessor(yes.code, Own(n + 3, y), ifThen, from, end);
    NoPredecessor(no.code, Own(y, z), ifElse, from, end);
    SeamPredecessor(split[0], ifThen, afterCond, from, end);
    SeamPredecessor(otherwise[0], ifElse, afterYes, from, end);
    SeamPredecessor(join[0], end, afterNo, from, end);
  }

  /** A phi at the end of `code` changes nothing before it. */
  lemma PhiAppend(code: Code, phi: Instr, start: BlockName, x: Spans)
    requires phi.Phi? && Shaped(code, x)
    ensures LastBlock(code + [phi], start) == LastBlock(code, start)
    ensures PhisFitFrom(code + [phi], start) <==> PhisFitFrom(code, start) && FitsAt(code + [phi], start, |code|)
    ensures FitsAt(code + [phi], start, |code|) <==>
      forall b :: b == phi.firstFrom || b == phi.secondFrom <==> IsPredecessor(code, start, b, LastBlock(code, start))
  {
    hide Targets, BlockAt, IsPredecessor;
    var all := code + [phi];
    assert all[..|code|] == code;
    forall b, target ensures IsPredecessor(all, start, b, target) <==> IsPredecessor(code, start, b, target) {
      PredecessorsAppend(code, [phi], start, b, target);
      PhiTargetsNothing(phi, LastBlock(code, start), b, target);
    }
    BlockOfAll(code, phi, start);
    forall i | 0 <= i < |code| && code[i].Phi? ensures FitsAt(all, start, i) <==> FitsAt(code, start, i) {
      BlockInFirst(code, [phi], i, start);
    }
    forall i | 0 <= i < |code| ensures all[i] == code[i] {
    }
  }

  lemma BlockOfAll(code: Code, phi: Instr, start: BlockName)
    requires phi.Phi?
    ensures LastBlock(code + [phi], start) == BlockAt(code + [phi], |code|, start) == LastBlock(code, start)
  {
    assert (code + [phi])[..|code|] == code;
  }

  lemma PhiTargetsNothing(phi: Instr, start: BlockName, from: BlockName, target: BlockName)
    requires phi.Phi?
    ensures !IsPredecessor([phi], start, from, target)
  {
  }

  /** Where a branch ends: in the block it begins in, or in one of its own. */
  predicate EndsIn(first: BlockName, after: BlockName, l: nat, l1: nat) {
    after == first || (after.Numbered? && l <= after.number < l1)
  }

  lemma IfFits(cond: Emitted, yes: Emitted, no: Emitted, typ: LType, start: BlockName, afterCond: BlockName, afterYes: BlockName,
               afterNo: BlockName, dc: bool, dy: bool, dn: bool, l: nat, y: nat, z: nat)
    requires var n := cond.nextLabel;
      && l <= n && n + 3 <= y <= z
      && IsPart(cond.code, start, afterCond, dc, Own(l, n))
      && IsPart(yes.code, Numbered(IfThen, n), afterYes, dy, Own(n + 3, y)) && EndsIn(Numbered(IfThen, n), afterYes, n + 3, y)
      && IsPart(no.code, Numbered(IfElse, n + 1), afterNo, dn, Own(y, z)) && EndsIn(Numbered(IfElse, n + 1), afterNo, y, z)
    ensures var n := cond.nextLabel;
      IsPart(FinishIf(cond, yes, no, typ).code, start, Numbered(IfEnd, n + 2),
             dc && dy && dn && (typ != Void ==> afterYes == Numbered(IfThen, n) && afterNo == Numbered(IfElse, n + 1)), Own(l, z))
  {
    hide Shaped, PhisFitFrom, IfCode, FitsAt, Blocked;
    IfCodeFits(cond, yes, no, start, afterCond, afterYes, afterNo, dc, dy, dn, l, y, z);
    if typ != Void {
      var n := cond.nextLabel;
      var code, phi, end := IfCode(cond, yes, no), JoinPhi(cond, yes, no, typ), Numbered(IfEnd, n + 2);
      PhiAppend(code, phi, start, Own(l, z));
      forall b ensures IsPredecessor(code, start, b, end) <==> b == afterYes || b == afterNo {
        IfPredecessors(cond, yes, no, start, afterCond, afterYes, afterNo, dc, dy, dn, l, y, z, b);
      }
      hide IsPredecessor;
      assert IsPredecessor(code, start, afterYes, end) && IsPredecessor(code, start, afterNo, end);
      IfCodeEnds(cond, yes, no);
      PhiShape(code, phi, n, Own(l, z));
    }
  }

  lemma IfCodeEnds(cond: Emitted, yes: Emitted, no: Emitted)
    ensures var code := IfCode(cond, yes, no); code != [] && code[|code| - 1] == Label(Numbered(IfEnd, cond.nextLabel + 2))
  {
  }

  lemma PhiShape(code: Code, phi: Instr, n: nat, x: Spans)
    requires phi.Phi? && Shaped(code, x) && Blocked(code) && x.p <= n + 2 < x.p1 && code != [] && code[|code| - 1] == Label(Numbered(IfEnd, n + 2))
    ensures Shaped(code + [phi], x) && Blocked(code + [phi])
  {
    var all := code + [phi];
    forall i | 0 <= i < |all| ensures BlockedAt(all, i) {
      if i < |code| { assert BlockedAt(code, i) && all[i] == code[i]; }
    }
  }

  lemma WhileFits(cond: Emitted, body: Emitted, start: BlockName, afterCond: BlockName, afterBody: BlockName,
                  dc: bool, db: bool, l: nat, m: nat, z: nat)
    requires l + 3 <= m <= z
    requires IsPart(cond.code, Numbered(WhileCond, l), afterCond, dc, Own(l + 3, m))
    requires IsPart(body.code, Numbered(WhileBody, l + 1), afterBody, db, Own(m, z))
    ensures IsPart(WhileCode(cond, body, l), start, Numbered(WhileEnd, l + 2), dc && db, Own(l, z))
  {
    hide IsPart;
    var condName, bodyName, end := Numbered(WhileCond, l), Numbered(WhileBody, l + 1), Numbered(WhileEnd, l + 2);
    var enter, decide, again := [Br(condName), Label(condName)], [CondBr(cond.value, bodyName, end), Label(bodyName)], [Br(condName), Label(end)];
    var seam, one, all := Spans(l, l + 3, m, m), Spans(l, m, l + 3, m), Spans(l, z, l + 3, z);
    Seam(enter[0], condName, start, seam);
    Seam(decide[0], bodyName, afterCond, seam);
    Seam(again[0], end, afterBody, Spans(l, l + 3, z, z));
    PartAppend(enter, cond.code, start, condName, afterCond, true, dc, seam, Own(l + 3, m), one);
    PartAppend(enter + cond.code, decide, start, afterCond, bodyName, dc, true, one, seam, one);
    PartAppend(enter + cond.code + decide, body.code, start, bodyName, afterBody, dc, db, one, Own(m, z), all);
    PartAppend(enter + cond.code + decide + body.code, again, start, afterBody, end, dc && db, true,
               all, Spans(l, l + 3, z, z), Own(l, z));
    assert enter + cond.code + decide + body.code + again == WhileCode(cond, body, l);
  }

  /** The labels that the branches of an `if` and of a loop lead to are there. */
  lemma IfHolds(cond: Emitted, yes: Emitted, no: Emitted, typ: LType)
    requires TargetsHeld(cond.code, cond.code) && TargetsHeld(yes.code, yes.code) && TargetsHeld(no.code, no.code)
    ensures var code := FinishIf(cond, yes, no, typ).code; TargetsHeld(code, code)
  {
    hide TargetsHeld;
    var n, code := cond.nextLabel, FinishIf(cond, yes, no, typ).code;
    var ifThen, ifElse, end := Numbered(IfThen, n), Numbered(IfElse, n + 1), Numbered(IfEnd, n + 2);
    var split, otherwise, join := [CondBr(cond.value, ifThen, ifElse), Label(ifThen)], [Br(end), Label(ifElse)], [Br(end), Label(end)];
    IfMembers(cond, yes, no, typ);
    HeldWider(cond.code, cond.code, code);
    HeldWider(yes.code, yes.code, code);
    HeldWider(no.code, no.code, code);
    assert Label(ifThen) in split && Label(ifElse) in otherwise && Label(end) in join;
    SeamHolds(split[0], ifThen, code);
    SeamHolds(otherwise[0], ifElse, code);
    SeamHolds(join[0], end, code);
    HeldAppend(no.code, join, code);
    HeldAppend(otherwise, no.code + join, code);
    HeldAppend(yes.code, otherwise + (no.code + join), code);
    HeldAppend(split, IfBranches(yes, no, n), code);
    HeldAppend(cond.code, split + IfBranches(yes, no, n), code);
    if typ != Void {
      PhiHolds(JoinPhi(cond, yes, no, typ), code);
      HeldAppend(IfCode(cond, yes, no), [JoinPhi(cond, yes, no, typ)], code);
    }
  }

  lemma IfMembers(cond: Emitted, yes: Emitted, no: Emitted, typ: LType)
    ensures var n, code := cond.nextLabel, FinishIf(cond, yes, no, typ).code;
      && (forall i :: i in cond.code || i in yes.code || i in no.code ==> i in code)
      && Label(Numbered(IfThen, n)) in code && Label(Numbered(IfElse, n + 1)) in code && Label(Numbered(IfEnd, n + 2)) in code
  {
  }

  lemma PhiHolds(phi: Instr, code: Code)
    requires phi.Phi?
    ensures TargetsHeld([phi], code)
  {
  }

  lemma SeamHolds(branch: Instr, next: BlockName, code: Code)
    requires forall b :: Targets(branch, b) ==> Label(b) in code
    ensures TargetsHeld([branch, Label(next)], code)
  {
  }

  lemma WhileHolds(cond: Emitted, body: Emitted, l: nat)
    requires TargetsHeld(cond.code, cond.code) && TargetsHeld(body.code, body.code)
    ensures var code := WhileCode(cond, body, l); TargetsHeld(code, code)
  {
    hide TargetsHeld;
    var code := WhileCode(cond, body, l);
    var condName, bodyName, end := Numbered(WhileCond, l), Numbered(WhileBody, l + 1), Numbered(WhileEnd, l + 2);
    var enter, decide, again := [Br(condName), Label(condName)], [CondBr(cond.value, bodyName, end), Label(bodyName)], [Br(condName), Label(end)];
    WhileMembers(cond, body, l);
    HeldWider(cond.code, cond.code, code);
    HeldWider(body.code, body.code, code);
    SeamHolds(enter[0], condName, code);
    SeamHolds(decide[0], bodyName, code);
    SeamHolds(again[0], end, code);
    HeldAppend(body.code, again, code);
    HeldAppend(decide, body.code + again, code);
    HeldAppend(cond.code, decide + (body.code + again), code);
    HeldAppend(enter, cond.code + (decide + (body.code + again)), code);
  }

  lemma WhileMembers(cond: Emitted, body: Emitted, l: nat)
    ensures var code := WhileCode(cond, body, l);
      && (forall i :: i in cond.code || i in body.code ==> i in code)
      && Label(Numbered(WhileCond, l)) in code && Label(Numbered(WhileBody, l + 1)) in code && Label(Numbered(WhileEnd, l + 2)) in code
  {
    var condName, bodyName, end := Numbered(WhileCond, l), Numbered(WhileBody, l + 1), Numbered(WhileEnd, l + 2);
    assert Label(condName) in [Br(condName), Label(condName)];
    assert Label(bodyName) in [CondBr(cond.value, bodyName, end), Label(bodyName)];
    assert Label(end) in [Br(condName), Label(end)];
  }

  // ----- every tree -----

  /** `code` was emitted while the label counter went from `l` to `l1`: it ends in the block it
      begins in exactly when `straight`, and its phis fit exactly when `direct`. */
  ghost predicate IsPiece(code: Code, start: BlockName, straight: bool, direct: bool, l: nat, l1: nat) {
    var after := LastBlock(code, start);
    && l <= l1 && IsPart(code, start, after, direct, Own(l, l1)) && Entered(start, after, straight, l, l1)
    && TargetsHeld(code, code)
  }

  lemma EmptyPiece(start: BlockName, l: nat)
    ensures IsPiece([], start, true, true, l, l)
  {
  }

  lemma CallPiece(i: Instr, start: BlockName, l: nat)
    requires i.CallI?
    ensures IsPiece([i], start, true, true, l, l)
  {
    assert [i][..0] == [];
  }

  lemma PieceAppend(a: Code, b: Code, start: BlockName, s1: bool, d1: bool, s2: bool, d2: bool, l: nat, m: nat, l1: nat)
    requires IsPiece(a, start, s1, d1, l, m) && IsPiece(b, LastBlock(a, start), s2, d2, m, l1)
    ensures IsPiece(a + b, start, s1 && s2, d1 && d2, l, l1)
  {
    hide IsPart, TargetsHeld;
    var middle := LastBlock(a, start);
    LastBlockAppend(a, b, start);
    PartAppend(a, b, start, middle, LastBlock(b, middle), d1, d2, Own(l, m), Own(m, l1), Own(l, l1));
    HeldWider(a, a, a + b);
    HeldWider(b, b, a + b);
    HeldAppend(a, b, a + b);
  }

  lemma {:induction false} ExprFits(e: IR, types: TypeTable, t: nat, l: nat, start: BlockName)
    requires Supported(e)
    ensures var r := EmitExpr(e, types, t, l); IsPiece(r.code, start, NoBlocks(e), DirectPhis(e, types), l, r.nextLabel)
    decreases e, 2
  {
    hide IsPiece;
    if e.CallIR? {
      ArgsFit(e.args, types, t, l, start);
      var args := EmitArgs(e.args, types, t, l);
      var call := EmitExpr(e, types, t, l).code[|args.code|];
      CallPiece(call, LastBlock(args.code, start), args.nextLabel);
      PieceAppend(args.code, [call], start, AllNoBlocks(e.args), AllDirectPhis(e.args, types), true, true, l, args.nextLabel, args.nextLabel);
    } else if e.SequenceIR? && e.items != [] {
      LastFits(e.items, types, t, l, start);
    } else if e.IfIR? {
      IfTreeFits(e, types, t, l, start);
    } else if e.WhileIR? {
      WhileTreeFits(e, types, t, l, start);
    } else {
      EmptyPiece(start, l);
    }
  }

  lemma {:induction false} IfTreeFits(e: IR, types: TypeTable, t: nat, l: nat, start: BlockName)
    requires e.IfIR? && Supported(e)
    ensures var r := EmitIf(e, types, t, l); IsPiece(r.code, start, false, DirectPhis(e, types), l, r.nextLabel)
    decreases e, 1
  {
    hide EmitExpr, IfCode, IsPart, NoBlocks, TargetsHeld;
    var cond := EmitExpr(e.cond, types, t, l);
    var yes := EmitExpr(e.thenBranch, types, cond.nextTemp, cond.nextLabel + 3);
    var no := if e.elseBranch == Null then Emitted(true, [], ZeroLiteral(TypeOf(e, types)), yes.nextTemp, yes.nextLabel)
              else EmitExpr(e.elseBranch, types, yes.nextTemp, yes.nextLabel);
    var ifThen, ifElse := Numbered(IfThen, cond.nextLabel), Numbered(IfElse, cond.nextLabel + 1);
    ExprFits(e.cond, types, t, l, start);
    ExprFits(e.thenBranch, types, cond.nextTemp, cond.nextLabel + 3, ifThen);
    if e.elseBranch != Null {
      ExprFits(e.elseBranch, types, yes.nextTemp, yes.nextLabel, ifElse);
    } else {
      EmptyPiece(ifElse, yes.nextLabel);
      NullIsDirect(types);
    }
    IfFits(cond, yes, no, TypeOf(e, types), start, LastBlock(cond.code, start), LastBlock(yes.code, ifThen), LastBlock(no.code, ifElse),
           DirectPhis(e.cond, types), DirectPhis(e.thenBranch, types), DirectPhis(e.elseBranch, types), l, yes.nextLabel, no.nextLabel);
    LastOfIf(cond, yes, no, TypeOf(e, types), start);
    IfHolds(cond, yes, no, TypeOf(e, types));
  }

  lemma LastOfIf(cond: Emitted, yes: Emitted, no: Emitted, typ: LType, start: BlockName)
    ensures LastBlock(FinishIf(cond, yes, no, typ).code, start) == Numbered(IfEnd, cond.nextLabel + 2)
  {
    IfCodeEnds(cond, yes, no);
    if typ != Void {
      var code, phi := IfCode(cond, yes, no), JoinPhi(cond, yes, no, typ);
      BlockOfAll(code, phi, start);
    }
  }

  lemma NullIsDirect(types: TypeTable)
    ensures NoBlocks(Null) && DirectPhis(Null, types)
  {
  }

  lemma {:induction false} WhileTreeFits(e: IR, types: TypeTable, t: nat, l: nat, start: BlockName)
    requires e.WhileIR? && Supported(e)
    ensures var r := EmitWhile(e, types, t, l); IsPiece(r.code, start, false, DirectPhis(e, types), l, r.nextLabel)
    decreases e, 1
  {
    hide EmitExpr, EmitStatement, WhileCode, IsPart, TargetsHeld;
    var cond := EmitExpr(e.cond, types, t, l + 3);
    var body := EmitStatement(e.body, types, cond.nextTemp, cond.nextLabel);
    var condName, bodyName := Numbered(WhileCond, l), Numbered(WhileBody, l + 1);
    ExprFits(e.cond, types, t, l + 3, condName);
    StatementFits(e.body, types, cond.nextTemp, cond.nextLabel, bodyName);
    WhileFits(cond, body, start, LastBlock(cond.code, condName), LastBlock(body.code, bodyName),
              DirectPhis(e.cond, types), DirectPhis(e.body, types), l, cond.nextLabel, body.nextLabel);
    LastOfWhile(cond, body, l, start);
    WhileHolds(cond, body, l);
  }

  lemma LastOfWhile(cond: Emitted, body: Emitted, l: nat, start: BlockName)
    ensures LastBlock(WhileCode(cond, body, l), start) == Numbered(WhileEnd, l + 2)
  {
  }

  lemma {:induction false} ArgsFit(args: seq<IR>, types: TypeTable, t: nat, l: nat, start: BlockName)
    requires AllSupported(args)
    ensures var r := EmitArgs(args, types, t, l); IsPiece(r.code, start, AllNoBlocks(args), AllDirectPhis(args, types), l, r.nextLabel)
    decreases args, 0
  {
    hide IsPiece;
    if args == [] {
      EmptyPiece(start, l);
    } else {
      var first := EmitExpr(args[0], types, t, l);
      var rest := EmitArgs(args[1..], types, first.nextTemp, first.nextLabel);
      ExprFits(args[0], types, t, l, start);
      ArgsFit(args[1..], types, first.nextTemp, first.nextLabel, LastBlock(first.code, start));
      PieceAppend(first.code, rest.code, start, NoBlocks(args[0]), DirectPhis(args[0], types),
                  AllNoBlocks(args[1..]), AllDirectPhis(args[1..], types), l, first.nextLabel, rest.nextLabel);
    }
  }

  lemma {:induction false} LastFits(items: seq<IR>, types: TypeTable, t: nat, l: nat, start: BlockName)
    requires items != [] && AllSupported(items)
    ensures var r := EmitLast(items, types, t, l); IsPiece(r.code, start, AllNoBlocks(items), AllDirectPhis(items, types), l, r.nextLabel)
    decreases items, 0
  {
    hide IsPiece;
    if |items| == 1 {
      assert items[1..] == [];
      ExprFits(items[0], types, t, l, start);
    } else {
      var first := EmitStatement(items[0], types, t, l);
      var rest := EmitLast(items[1..], types, first.nextTemp, first.nextLabel);
      StatementFits(items[0], types, t, l, start);
      LastFits(items[1..], types, first.nextTemp, first.nextLabel, LastBlock(first.code, start));
      PieceAppend(first.code, rest.code, start, NoBlocks(items[0]), DirectPhis(items[0], types),
                  AllNoBlocks(items[1..]), AllDirectPhis(items[1..], types), l, first.nextLabel, rest.nextLabel);
    }
  }

  lemma {:induction false} StatementFits(e: IR, types: TypeTable, t: nat, l: nat, start: BlockName)
    requires Supported(e)
    ensures var r := EmitStatement(e, types, t, l); IsPiece(r.code, start, NoBlocks(e), DirectPhis(e, types), l, r.nextLabel)
    decreases e, 3
  {
    hide IsPiece;
    if e.SequenceIR? {
      StatementsFit(e.items, types, t, l, start);
    } else if e.WhileIR? {
      WhileTreeFits(e, types, t, l, start);
    } else if e == Null {
      EmptyPiece(start, l);
    } else {
      ExprFits(e, types, t, l, start);
    }
  }

  lemma {:induction false} StatementsFit(items: seq<IR>, types: TypeTable, t: nat, l: nat, start: BlockName)
    requires AllSupported(items)
    ensures var r := EmitStatements(items, types, t, l); IsPiece(r.code, start, AllNoBlocks(items), AllDirectPhis(items, types), l, r.nextLabel)
    decreases items, 0
  {
    hide IsPiece;
    if items == [] {
      EmptyPiece(start, l);
    } else {
      var first := EmitStatement(items[0], types, t, l);
      var rest := EmitStatements(items[1..], types, first.nextTemp, first.nextLabel);
      StatementFits(items[0], types, t, l, start);
      StatementsFit(items[1..], types, first.nextTemp, first.nextLabel, LastBlock(first.code, start));
      PieceAppend(first.code, rest.code, start, NoBlocks(items[0]), DirectPhis(items[0], types),
                  AllNoBlocks(items[1..]), AllDirectPhis(items[1..], types), l, first.nextLabel, rest.nextLabel);
    }
  }

  lemma BodyIsPiece(body: IR, ret: LType, types: TypeTable, t: nat, l: nat)
    requires Supported(body)
    ensures var r := if ret == Void then EmitStatement(body, types, t, l) else EmitExpr(body, types, t, l);
      && IsPiece(r.code, Entry, NoBlocks(body), DirectPhis(body, types), l, r.nextLabel)
      && EmitFunction(body, ret, types, t, l).code == r.code + [Ret(ret, if ret == Void then Uninitialised else r.value)]
  {
    hide IsPiece;
    if ret == Void { StatementFits(body, types, t, l, Entry); } else { ExprFits(body, types, t, l, Entry); }
  }

  /** The blocks of an emitted function are as LLVM demands, whatever the tree. */
  lemma FunctionBlocksFit(body: IR, ret: LType, types: TypeTable, t: nat, l: nat)
    requires Supported(body)
    ensures BlocksFit(EmitFunction(body, ret, types, t, l).code)
  {
    BodyIsPiece(body, ret, types, t, l);
    var r := if ret == Void then EmitStatement(body, types, t, l) else EmitExpr(body, types, t, l);
    hide EmitFunction, EmitExpr, EmitStatement, NoBlocks, DirectPhis;
    var last := Ret(ret, if ret == Void then Uninitialised else r.value);
    RetFits(r.code, last, Own(l, r.nextLabel));
  }

  lemma RetFits(code: Code, last: Instr, x: Spans)
    requires last.Ret? && Shaped(code, x) && Blocked(code) && TargetsHeld(code, code)
    ensures BlocksFit(code + [last])
  {
    var all := code + [last];
    HeldWider(code, code, all);
    HeldByRet(last, all);
    HeldAppend(code, [last], all);
    hide TargetsHeld;
    forall i | 0 <= i < |code| ensures all[i] == code[i] && BlockedAt(code, i) {
    }
  }

  lemma HeldByRet(last: Instr, code: Code)
    requires last.Ret?
    ensures TargetsHeld([last], code)
  {
  }

  /** The phis of an emitted function are as LLVM demands if and only if the branches of every `if`
      with a value, at any depth and whether they run or not, open no block. */
  lemma PhisFitIffDirect(body: IR, ret: LType, types: TypeTable, t: nat, l: nat)
    requires Supported(body)
    ensures PhisFit(EmitFunction(body, ret, types, t, l).code) <==> DirectPhis(body, types)
  {
    BodyIsPiece(body, ret, types, t, l);
    var r := if ret == Void then EmitStatement(body, types, t, l) else EmitExpr(body, types, t, l);
    hide EmitFunction, EmitExpr, EmitStatement, NoBlocks, DirectPhis, PhisFitFrom;
    var last := Ret(ret, if ret == Void then Uninitialised else r.value);
    RetAlone(last, LastBlock(r.code, Entry), r.nextLabel);
    FitAppend(r.code, [last], Entry, Own(l, r.nextLabel), Own(r.nextLabel, r.nextLabel));
  }

  lemma RetAlone(last: Instr, start: BlockName, l: nat)
    requires last.Ret?
    ensures Shaped([last], Own(l, l)) && PhisFitFrom([last], start)
  {
  }

  // ----- failing inputs -----

  const InElse := IfIR(0, IdentIR(1, "c"), NumberIR(0, "2"), NumberIR(0, "3"))
  const ElseIf := IfIR(0, IdentIR(1, "c"), NumberIR(0, "1"), InElse)

  /** `if c { 1 } else if c { 2 } else { 3 }`, with c a parameter. The optimiser leaves it alone, and
      where c is true the machine gets past its phi, since the branch that runs opens no block; but the
      phi names `if.else.1`, from which no branch leads to its block, so LLVM rejects the function. */
  lemma ElseIfIsRejected(c: Ctx, h: History)
    requires c.types(0) == Double && c.types(1) == I1 && c.params == map["c" := I1] && c.env == map["c" := BoolV(true)]
    requires c.code == EmitFunction(ElseIf, Double, c.types, 0, 0).code
    ensures Optimize(ElseIf) == ElseIf && WellTyped(ElseIf, c.types, c.params)
    ensures Run(ElseIf, c.oracle, c.env, h, 0) == Done(NumberV("1"), h)
    ensures AtPhi(c, Start(h), |c.code| - 2, h, true, Temp(1), Double, NumberV("1"))
    ensures !PhisFit(c.code)
  {
    hide StepMachine, RunMachine, AtPhi, DistinctLabels, EmitFunction, EmitIf, Eval, WellTyped, DirectPhis, NoBlocks,
         Normal, Optimize, PhisFit;
    ElseIfIsNormal();
    NormalIsFixed(ElseIf);
    FunctionLabelsDistinct(ElseIf, Double, c.types, 0, 0);
    ElseIfCode(c.types);
    ElseIfTypes(c.types);
    ElseIfMeansOne(c, h);
    var r := EmitIf(ElseIf, c.types, 0, 0);
    assert c.code[0..0 + |r.code|] == r.code;
    PhiIsRightIff(c, ElseIf, 0, 0, 0, Start(h), 0);
    PhisFitIffDirect(ElseIf, Double, c.types, 0, 0);
  }

  lemma ElseIfIsNormal()
    ensures Normal(ElseIf)
  {
  }

  lemma ElseIfTypes(types: TypeTable)
    requires types(0) == Double && types(1) == I1
    ensures WellTyped(ElseIf, types, map["c" := I1]) && Supported(ElseIf) && TypeOf(ElseIf, types) == Double
    ensures DirectPhis(ElseIf.cond, types) && DirectPhis(ElseIf.thenBranch, types) && DirectPhis(ElseIf.elseBranch, types)
    ensures NoBlocks(ElseIf.thenBranch) && !DirectPhis(ElseIf, types)
  {
    assert WellTyped(InElse, types, map["c" := I1]);
  }

  lemma ElseIfMeansOne(c: Ctx, h: History)
    requires c.env == map["c" := BoolV(true)]
    ensures Run(ElseIf, c.oracle, c.env, h, 0) == Done(NumberV("1"), h)
    ensures Meant(c, ElseIf, Start(h), 0) == Done(NumberV("1"), h) && Chosen(c, ElseIf.cond, Start(h), 0) == Some(true)
  {
  }

  lemma ElseIfCode(types: TypeTable)
    requires types(0) == Double && types(1) == I1
    ensures var r := EmitIf(ElseIf, types, 0, 0);
            r.ok && r.value == Temp(1) && EmitFunction(ElseIf, Double, types, 0, 0).code == r.code + [Ret(Double, Temp(1))]
  {
    hide IfCode;
    var r := EmitIf(ElseIf, types, 0, 0);
    assert EmitExpr(ElseIf, types, 0, 0) == r;
    var inner := EmitExpr(InElse, types, 0, 3);
    assert inner.ok && inner.nextTemp == 1;
  }

  /** The input of NestedIfIsMiscompiled is rejected as well. */
  lemma NestedIsRejected(types: TypeTable)
    requires types(0) == Double && types(1) == I1
    ensures !PhisFit(EmitFunction(Nested, Double, types, 0, 0).code)
  {
    NestedTypes(types);
    PhisFitIffDirect(Nested, Double, types, 0, 0);
  }
}
