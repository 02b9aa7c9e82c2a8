/** What the analysis records about every expression (src/semantic.cpp:388-707): which nodes are
    recorded with which effects, in the order of the analysis, and what the last record about each
    node says. A node is known by its path from the root. */
module EffectNotes {
  import opened Syntax
  import opened EffectAnalysis
  import opened EffectSolutions
  import Printer

  type Path = seq<nat>

  /** A record about the node at `at`, made because it is an expression or because it is a stage. */
  datatype Note = Note(at: Path, stage: bool, mask: Mask)

  /** An expression in its scope; a stage also has the effects of the pipeline before it. */
  datatype Job = Job(expr: Expr, scope: Scope, stage: bool, before: Mask)

  function Plain(e: Expr, scope: Scope): Job {
    Job(e, scope, false, NONE)
  }

  function CalleeOf(e: Expr): Expr {
    if e.Call? then e.callee else e
  }

  /** The analysis goes on to the arguments. */
  predicate Callable(e: Expr, scope: Scope, stage: bool) {
    CalleeMask(CalleeOf(e), scope).Some? && (stage ==> CalleeArity(CalleeOf(e), scope) > 0)
  }

  /** What the analysis of a job descends into, in order. */
  function Parts(j: Job, binds: Typing): (parts: seq<Job>)
    ensures forall p :: p in parts ==> p.expr < j.expr
  {
    var s := j.scope;
    match j.expr
    case ListLiteral(es) => seq(|es|, i requires 0 <= i < |es| => Plain(es[i], s))
    case Block(es) => seq(|es|, i requires 0 <= i < |es| => Plain(es[i], s))
    case Call(callee, args) =>
      [Plain(callee, s)] +
      if Callable(j.expr, s, j.stage)
      then seq(|args|, i requires 0 <= i < |args| => assert args[i].value < args[i]; Plain(args[i].value, s))
      else []
    case Pipe(target, stages) =>
      [Plain(target, s)] +
      seq(|stages|, i requires 0 <= i < |stages| =>
        Job(stages[i], s, true, Or(Effects(target, s, binds), EffectsStages(stages[..i], s, binds))))
    case If(c, t, f) => [Plain(c, s), Plain(t, s)] + if f.Some? then [Plain(f.value, s)] else []
    case While(c, b) => [Plain(c, s), Plain(b, s)]
    case Paren(inner) => [Plain(inner, s)]
    case Match(m, arms) =>
      [Plain(m, s)] +
      seq(|arms|, i requires 0 <= i < |arms| =>
        assert arms[i].body < arms[i]; Plain(arms[i].body, ArmScope(s, arms[i], binds)))
    case Async(inner) => [Plain(inner, s)]
    case Await(inner) => [Plain(inner, s)]
    case Effect(inner) => [Plain(inner, s)]
    case Lambda(params, body) => [Plain(body, Bound(s, Names(params)))]
    case _ => []
  }

  /** What is recorded about the node itself: nothing about a parenthesised expression, and a stage
      that is no call is recorded as an expression and again as a stage. A stage that cannot be called
      gets the effects of the pipeline so far. */
  function Own(j: Job, at: Path, binds: Typing): seq<Note> {
    (if j.expr.Paren? || (j.stage && j.expr.Call?) then [] else [Note(at, false, Effects(j.expr, j.scope, binds))])
    + if j.stage then [StageNote(j, at, binds)] else []
  }

  function StageNote(j: Job, at: Path, binds: Typing): Note {
    var mask := EffectsStage(j.expr, j.scope, binds);
    Note(at, true, if Callable(j.expr, j.scope, true) then mask else Or(j.before, mask))
  }

  function Notes(j: Job, at: Path, binds: Typing): seq<Note>
    decreases j.expr, 1, 0
  {
    NotesAll(j.expr, Parts(j, binds), at, binds) + Own(j, at, binds)
  }

  function NotesAll(parent: Expr, parts: seq<Job>, at: Path, binds: Typing): seq<Note>
    requires forall p :: p in parts ==> p.expr < parent
    decreases parent, 0, |parts|
  {
    if parts == [] then []
    else
      var n := |parts| - 1;
      assert parts[n] in parts;
      NotesAll(parent, parts[..n], at, binds) + Notes(parts[n], at + [n], binds)
  }

  /** The last note about a node. */
  function Last(notes: seq<Note>, at: Path): Option<Mask> {
    if notes == [] then None
    else
      var n := |notes| - 1;
      if notes[n].at == at then Some(notes[n].mask) else Last(notes[..n], at)
  }

  lemma {:induction false} LastAppend(xs: seq<Note>, ys: seq<Note>, at: Path)
    ensures Last(xs + ys, at) == if Last(ys, at).Some? then Last(ys, at) else Last(xs, at)
    decreases |ys|
  {
    if ys == [] {
      assert xs + ys == xs;
    } else {
      var n := |ys| - 1;
      assert (xs + ys)[..|xs| + n] == xs + ys[..n];
      LastAppend(xs, ys[..n], at);
    }
  }

  /** What should be known about the node at `path` below a job: nothing if there is no such node, or
      if it is a parenthesised expression. */
  function MaskAt(j: Job, path: Path, binds: Typing): Option<Mask>
    decreases |path|
  {
    if path == [] then
      if j.stage then Some(EffectsStage(j.expr, j.scope, binds))
      else if j.expr.Paren? then None
      else Some(Effects(j.expr, j.scope, binds))
    else
      var parts := Parts(j, binds);
      if path[0] < |parts| then MaskAt(parts[path[0]], path[1..], binds) else None
  }

  predicate JobResolved(j: Job, binds: Typing) {
    if j.stage then StageResolved(j.expr, j.scope, binds) else Resolved(j.expr, j.scope, binds)
  }

  /** Notes about other nodes do not count. */
  lemma {:induction false} NotesStayBelow(j: Job, at: Path, binds: Typing, other: Path)
    requires !(at <= other)
    ensures Last(Notes(j, at, binds), other) == None
    decreases j.expr, 1, 0
  {
    NotesAllStayBelow(j.expr, Parts(j, binds), at, binds, other);
    LastAppend(NotesAll(j.expr, Parts(j, binds), at, binds), Own(j, at, binds), other);
    OwnLast(j, at, binds, other);
  }

  lemma {:induction false} NotesAllStayBelow(parent: Expr, parts: seq<Job>, at: Path, binds: Typing, other: Path)
    requires forall p :: p in parts ==> p.expr < parent
    requires !(at < other)
    ensures Last(NotesAll(parent, parts, at, binds), other) == None
    decreases parent, 0, |parts|
  {
    if parts != [] {
      var n := |parts| - 1;
      assert parts[n] in parts;
      NotesAllStayBelow(parent, parts[..n], at, binds, other);
      LongerPrefix(at, n, other);
      NotesStayBelow(parts[n], at + [n], binds, other);
      LastAppend(NotesAll(parent, parts[..n], at, binds), Notes(parts[n], at + [n], binds), other);
    }
  }

  lemma LongerPrefix(at: Path, n: nat, other: Path)
    ensures at + [n] <= other ==> at < other && other[|at|] == n
  {
    if at + [n] <= other { assert other[..|at|] == (at + [n])[..|at|] == at; }
  }

  lemma ResolvedIsCallable(j: Job, binds: Typing)
    requires JobResolved(j, binds) && j.stage
    ensures Callable(j.expr, j.scope, true)
  {
  }

  lemma StageNoteIs(j: Job, at: Path, binds: Typing)
    ensures StageNote(j, at, binds).at == at
    ensures JobResolved(j, binds) && j.stage ==> StageNote(j, at, binds).mask == EffectsStage(j.expr, j.scope, binds)
  {
    if JobResolved(j, binds) && j.stage { ResolvedIsCallable(j, binds); }
  }

  lemma OwnLast(j: Job, at: Path, binds: Typing, other: Path)
    ensures at != other ==> Last(Own(j, at, binds), other) == None
    ensures JobResolved(j, binds) ==> Last(Own(j, at, binds), at) == MaskAt(j, [], binds)
  {
    StageNoteIs(j, at, binds);
    hide Effects, EffectsStage, Callable, StageNote, JobResolved;
    var own := Own(j, at, binds);
    var plain, staged := Note(at, false, Effects(j.expr, j.scope, binds)), StageNote(j, at, binds);
    forall x: Path ensures Last(own, x) == if own == [] || x != at then None else Some(own[|own| - 1].mask) {
      if own == [plain, staged] {
        LastOfTwo(plain, staged, x);
      } else if own == [plain] {
        LastOfOne(plain, x);
      } else if own == [staged] {
        LastOfOne(staged, x);
      }
    }
  }

  lemma LastOfOne(note: Note, at: Path)
    ensures Last([note], at) == if note.at == at then Some(note.mask) else None
  {
    assert [note][..0] == [];
  }

  lemma LastOfTwo(first: Note, second: Note, at: Path)
    ensures Last([first, second], at) ==
      if second.at == at then Some(second.mask) else if first.at == at then Some(first.mask) else None
  {
    assert [first, second][..1] == [first];
    LastOfOne(first, at);
  }

  lemma {:induction false} OneMoreStage(stages: seq<Expr>, i: nat, scope: Scope, binds: Typing)
    requires i < |stages|
    ensures EffectsStages(stages[..i + 1], scope, binds) ==
      Or(EffectsStages(stages[..i], scope, binds), EffectsStage(stages[i], scope, binds))
    decreases i
  {
    hide EffectsStage;
    if i == 0 {
      assert stages[..1][1..] == [];
    } else {
      OneMoreStage(stages[1..], i - 1, scope, binds);
      assert stages[..i + 1][1..] == stages[1..][..i] && stages[..i][1..] == stages[1..][..i - 1];
    }
  }

  /** A stage that is no call is recorded as an expression first. */
  lemma NamedStage(j: Job, at: Path, binds: Typing)
    requires j.stage && !j.expr.Call?
    ensures Parts(j, binds) == Parts(Plain(j.expr, j.scope), binds)
    ensures Notes(j, at, binds) == Notes(Plain(j.expr, j.scope), at, binds) + [StageNote(j, at, binds)]
  {
    hide Effects, EffectsStage;
    var plain := Plain(j.expr, j.scope);
    assert Own(j, at, binds) == Own(plain, at, binds) + [StageNote(j, at, binds)];
  }

  lemma ItemsFacts(e: Expr, scope: Scope, binds: Typing)
    requires e.ListLiteral? || e.Block?
    ensures var es := if e.Block? then e.items else e.elements;
      && Effects(e, scope, binds) == EffectsAll(es, scope, binds)
      && (Resolved(e, scope, binds) <==> AllResolved(es, scope, binds))
      && Parts(Plain(e, scope), binds) == seq(|es|, i requires 0 <= i < |es| => Plain(es[i], scope))
  {
  }

  lemma IfFacts(e: Expr, scope: Scope, binds: Typing)
    requires e.If?
    ensures var both := Or(Effects(e.cond, scope, binds), Effects(e.thenBranch, scope, binds));
      Effects(e, scope, binds) == if e.elseBranch.Some? then Or(both, Effects(e.elseBranch.value, scope, binds)) else both
    ensures Resolved(e, scope, binds) <==>
      && Resolved(e.cond, scope, binds) && Resolved(e.thenBranch, scope, binds)
      && (e.elseBranch.Some? ==> Resolved(e.elseBranch.value, scope, binds))
    ensures Parts(Plain(e, scope), binds) ==
      [Plain(e.cond, scope), Plain(e.thenBranch, scope)] + if e.elseBranch.Some? then [Plain(e.elseBranch.value, scope)] else []
  {
  }

  lemma PipeFacts(e: Expr, scope: Scope, binds: Typing)
    requires e.Pipe?
    ensures Effects(e, scope, binds) == Or(Effects(e.target, scope, binds), EffectsStages(e.stages, scope, binds))
    ensures Resolved(e, scope, binds) <==> Resolved(e.target, scope, binds) && StagesResolved(e.stages, scope, binds)
    ensures var parts := Parts(Plain(e, scope), binds);
      && |parts| == 1 + |e.stages| && parts[0] == Plain(e.target, scope)
      && forall i :: 0 <= i < |e.stages| ==>
           parts[1 + i] ==
           Job(e.stages[i], scope, true, Or(Effects(e.target, scope, binds), EffectsStages(e.stages[..i], scope, binds)))
  {
  }

  lemma MatchFacts(e: Expr, scope: Scope, binds: Typing)
    requires e.Match?
    ensures Effects(e, scope, binds) == Or(Effects(e.scrutinee, scope, binds), EffectsArms(e.arms, scope, binds))
    ensures Resolved(e, scope, binds) <==> Resolved(e.scrutinee, scope, binds) && ArmsResolved(e.arms, scope, binds)
    ensures var parts := Parts(Plain(e, scope), binds);
      && |parts| == 1 + |e.arms| && parts[0] == Plain(e.scrutinee, scope)
      && forall i :: 0 <= i < |e.arms| ==> parts[1 + i] == Plain(e.arms[i].body, ArmScope(scope, e.arms[i], binds))
  {
  }

  lemma CallFacts(e: Expr, scope: Scope, binds: Typing)
    requires e.Call?
    ensures var mask, own := CalleeMask(e.callee, scope), Effects(e.callee, scope, binds);
      && Effects(e, scope, binds) == (if mask.None? then own else Or(Or(own, EffectsArgs(e.args, scope, binds)), mask.value))
      && (Resolved(e, scope, binds) <==> mask.Some? && CalleeArity(e.callee, scope) == |e.args| && ArgsResolved(e.args, scope, binds))
      && (mask.Some? ==> Resolved(e.callee, scope, binds))
    ensures var parts := Parts(Plain(e, scope), binds);
      && |parts| == (if CalleeMask(e.callee, scope).Some? then 1 + |e.args| else 1) && parts[0] == Plain(e.callee, scope)
      && forall i :: 0 <= i < |parts| - 1 ==> parts[1 + i] == Plain(e.args[i].value, scope)
  {
    if CalleeMask(e.callee, scope).Some? { CalleeIsResolved(e.callee, scope, binds); }
  }

  /** A call as a stage: with a callee that cannot be called the arguments are skipped. */
  lemma SkippedStage(j: Job, at: Path, binds: Typing)
    requires j.stage && j.expr.Call? && !Callable(j.expr, j.scope, true)
    ensures Parts(j, binds) == [Plain(j.expr.callee, j.scope)] && !StageResolved(j.expr, j.scope, binds)
    ensures EffectsStage(j.expr, j.scope, binds) == Effects(j.expr.callee, j.scope, binds)
    ensures StageNote(j, at, binds) == Note(at, true, Or(j.before, Effects(j.expr.callee, j.scope, binds)))
  {
  }

  lemma CalledStage(j: Job, at: Path, binds: Typing)
    requires j.stage && j.expr.Call? && Callable(j.expr, j.scope, true)
    ensures var parts, args := Parts(j, binds), j.expr.args;
      && |parts| == 1 + |args| && parts[0] == Plain(j.expr.callee, j.scope)
      && forall i :: 0 <= i < |args| ==> parts[1 + i] == Plain(args[i].value, j.scope)
    ensures Resolved(j.expr.callee, j.scope, binds)
    ensures StageResolved(j.expr, j.scope, binds) <==>
      CalleeArity(j.expr.callee, j.scope) > |j.expr.args| && ArgsResolved(j.expr.args, j.scope, binds)
    ensures var mask := EffectsStage(j.expr, j.scope, binds);
      && mask == Or(Or(Effects(j.expr.callee, j.scope, binds), EffectsArgs(j.expr.args, j.scope, binds)),
                    CalleeMask(j.expr.callee, j.scope).value)
      && StageNote(j, at, binds) == Note(at, true, mask)
  {
    CalleeIsResolved(j.expr.callee, j.scope, binds);
  }

  // ----- the last record is the right one -----

  lemma {:induction false} NotesOfPart(parent: Expr, parts: seq<Job>, at: Path, binds: Typing, k: nat, rest: Path)
    requires forall p :: p in parts ==> p.expr < parent
    ensures Last(NotesAll(parent, parts, at, binds), at + [k] + rest) ==
      if k < |parts| then Last(Notes(parts[k], at + [k], binds), at + [k] + rest) else None
    decreases |parts|
  {
    hide Notes;
    if parts != [] {
      var n, other := |parts| - 1, at + [k] + rest;
      assert parts[n] in parts;
      NotesOfPart(parent, parts[..n], at, binds, k, rest);
      LastAppend(NotesAll(parent, parts[..n], at, binds), Notes(parts[n], at + [n], binds), other);
      if k != n {
        LongerPrefix(at, n, other);
        NotesStayBelow(parts[n], at + [n], binds, other);
      }
    }
  }

  lemma {:induction false} EachResolved(es: seq<Expr>, scope: Scope, binds: Typing)
    requires AllResolved(es, scope, binds)
    ensures forall i :: 0 <= i < |es| ==> Resolved(es[i], scope, binds)
  {
    if es != [] {
      EachResolved(es[1..], scope, binds);
      assert forall i :: 0 < i < |es| ==> es[i] == es[1..][i - 1];
    }
  }

  lemma {:induction false} EachArgResolved(args: seq<Arg>, scope: Scope, binds: Typing)
    requires ArgsResolved(args, scope, binds)
    ensures forall i :: 0 <= i < |args| ==> Resolved(args[i].value, scope, binds)
  {
    if args != [] {
      EachArgResolved(args[1..], scope, binds);
      assert forall i :: 0 < i < |args| ==> args[i] == args[1..][i - 1];
    }
  }

  lemma {:induction false} EachArmResolved(arms: seq<Arm>, scope: Scope, binds: Typing)
    requires ArmsResolved(arms, scope, binds)
    ensures forall i :: 0 <= i < |arms| ==> Resolved(arms[i].body, ArmScope(scope, arms[i], binds), binds)
  {
    if arms != [] {
      EachArmResolved(arms[1..], scope, binds);
      assert forall i :: 0 < i < |arms| ==> arms[i] == arms[1..][i - 1];
    }
  }

  lemma {:induction false} EachStageResolved(stages: seq<Expr>, scope: Scope, binds: Typing)
    requires StagesResolved(stages, scope, binds)
    ensures forall i :: 0 <= i < |stages| ==> StageResolved(stages[i], scope, binds)
  {
    if stages != [] {
      EachStageResolved(stages[1..], scope, binds);
      assert forall i :: 0 < i < |stages| ==> stages[i] == stages[1..][i - 1];
    }
  }

  lemma CallPartsResolved(j: Job, binds: Typing)
    requires JobResolved(j, binds) && j.expr.Call?
    ensures forall p :: p in Parts(j, binds) ==> JobResolved(p, binds)
  {
    CalleeIsResolved(j.expr.callee, j.scope, binds);
    EachArgResolved(j.expr.args, j.scope, binds);
    hide CalleeMask, CalleeArity;
  }

  /** Below a resolved expression everything is resolved. */
  lemma PartsResolved(j: Job, binds: Typing)
    requires JobResolved(j, binds)
    ensures forall p :: p in Parts(j, binds) ==> JobResolved(p, binds)
  {
    if j.expr.Call? {
      CallPartsResolved(j, binds);
    } else {
      if j.stage { CalleeIsResolved(j.expr, j.scope, binds); }
      OtherPartsResolved(j, binds);
    }
  }

  lemma OtherPartsResolved(j: Job, binds: Typing)
    requires Resolved(j.expr, j.scope, binds) && !j.expr.Call?
    ensures forall p :: p in Parts(j, binds) ==> JobResolved(p, binds)
  {
    hide Effects, EffectsStages, CalleeMask, CalleeArity, Bound, ArmScope, AllResolved, ArmsResolved, StagesResolved, StageResolved;
    match j.expr
    case ListLiteral(es) => EachResolved(es, j.scope, binds);
    case Block(es) => EachResolved(es, j.scope, binds);
    case Pipe(_, stages) => EachStageResolved(stages, j.scope, binds);
    case Match(_, arms) => EachArmResolved(arms, j.scope, binds);
    case _ =>
  }

  /** In an expression without diagnostics the last record about every node says what the node's
      effects are in its own scope, a stage's record what the stage adds; nothing is recorded about
      parenthesised expressions, nor about any other path. */
  lemma {:induction false} NotesAreRight(j: Job, at: Path, binds: Typing, path: Path)
    requires JobResolved(j, binds)
    ensures Last(Notes(j, at, binds), at + path) == MaskAt(j, path, binds)
    decreases |path|
  {
    hide Own, Parts, JobResolved;
    var parts := Parts(j, binds);
    LastAppend(NotesAll(j.expr, parts, at, binds), Own(j, at, binds), at + path);
    OwnLast(j, at, binds, at + path);
    if path == [] {
      assert at + path == at;
      NotesAllStayBelow(j.expr, parts, at, binds, at);
    } else {
      var k, rest := path[0], path[1..];
      assert at + path == at + [k] + rest;
      NotesOfPart(j.expr, parts, at, binds, k, rest);
      if k < |parts| {
        PartsResolved(j, binds);
        NotesAreRight(parts[k], at + [k], binds, rest);
      }
    }
  }

  // ----- whole programs -----

  function DeclJob(d: Decl, scope: Scope): Job {
    if d.FunDecl? then Plain(d.body, BodyScope(d, scope)) else Plain(d.value, scope)
  }

  /** The notes about declarations that are numbered from `k`. */
  function ProgramNotes(decls: seq<Decl>, k: nat, scope: Scope, binds: Typing): seq<Note> {
    if decls == [] then []
    else Notes(DeclJob(decls[0], scope), [k], binds) + ProgramNotes(decls[1..], k + 1, After(decls[0], scope, binds), binds)
  }

  lemma NoDecl(decls: seq<Decl>, k: nat, scope: Scope, binds: Typing)
    requires decls == []
    ensures Analyze(decls, scope, binds) == scope && Clean(decls, scope, binds) && ProgramNotes(decls, k, scope, binds) == []
  {
  }

  lemma NextDecl(decls: seq<Decl>, i: nat, scope: Scope, binds: Typing)
    requires i < |decls|
    ensures var d, after := decls[i], After(decls[i], scope, binds);
      && Analyze(decls[i..], scope, binds) == Analyze(decls[i + 1..], after, binds)
      && (Clean(decls[i..], scope, binds) <==> CleanDecl(d, scope, binds) && Clean(decls[i + 1..], after, binds))
      && ProgramNotes(decls[i..], i, scope, binds) ==
           Notes(DeclJob(d, scope), [i], binds) + ProgramNotes(decls[i + 1..], i + 1, after, binds)
  {
    hide After, CleanDecl, Notes, DeclJob;
    assert decls[i..][0] == decls[i] && decls[i..][1..] == decls[i + 1..];
  }

  lemma {:induction false} EarlierNotes(decls: seq<Decl>, k: nat, scope: Scope, binds: Typing, at: Path)
    requires at != [] && at[0] < k
    ensures Last(ProgramNotes(decls, k, scope, binds), at) == None
    decreases |decls|
  {
    hide Notes;
    if decls != [] {
      var job, after := DeclJob(decls[0], scope), After(decls[0], scope, binds);
      NotesStayBelow(job, [k], binds, at);
      EarlierNotes(decls[1..], k + 1, after, binds, at);
      LastAppend(Notes(job, [k], binds), ProgramNotes(decls[1..], k + 1, after, binds), at);
    }
  }

  /** After a program without diagnostics has been analysed, looking up any node of any declaration
      finds the node's effects in its own scope. */
  lemma {:induction false} ProgramNotesAreRight(decls: seq<Decl>, k: nat, scope: Scope, binds: Typing, i: nat, path: Path)
    requires Clean(decls, scope, binds) && i < |decls|
    ensures Last(ProgramNotes(decls, k, scope, binds), [k + i] + path) ==
      MaskAt(DeclJob(decls[i], Analyze(decls[..i], scope, binds)), path, binds)
    decreases |decls|
  {
    hide Notes, MaskAt, After;
    var job, after, rest := DeclJob(decls[0], scope), After(decls[0], scope, binds), decls[1..];
    LastAppend(Notes(job, [k], binds), ProgramNotes(rest, k + 1, after, binds), [k + i] + path);
    if i == 0 {
      EarlierNotes(rest, k + 1, after, binds, [k] + path);
      assert decls[..0] == [];
      assert JobResolved(job, binds);
      NotesAreRight(job, [k], binds, path);
    } else {
      ProgramNotesAreRight(rest, k + 1, after, binds, i - 1, path);
      assert decls[..i][0] == decls[0] && decls[..i][1..] == rest[..i - 1];
      assert [k + 1 + (i - 1)] + path == [k + i] + path;
      assert ([k + i] + path)[0] == k + i && [k][0] == k;
      NotesStayBelow(job, [k], binds, [k + i] + path);
    }
  }

  /** A stored entry is what the declaration was given when it was analysed. */
  lemma {:induction false} EntryStays(decls: seq<Decl>, scope: Scope, binds: Typing, i: nat)
    requires Clean(decls, scope, binds) && i < |decls|
    ensures var d := decls[i]; var before, s := Analyze(decls[..i], scope, binds), Analyze(decls, scope, binds);
      && CleanDecl(d, before, binds)
      && d.name in s && d.name in After(d, before, binds) && s[d.name] == After(d, before, binds)[d.name]
    decreases |decls|
  {
    hide Resolved, Effects, Bound;
    var after, rest := After(decls[0], scope, binds), decls[1..];
    if i == 0 {
      assert decls[..0] == [];
      AnalysisSolves(rest, after, binds);
    } else {
      EntryStays(rest, after, binds, i - 1);
      assert decls[..i][0] == decls[0] && decls[..i][1..] == rest[..i - 1];
    }
  }

  /** The effects lowering gives a function: those recorded about its body, or none (src/ir.cpp:531-533). */
  function LoweredEffects(found: Option<Mask>): Mask {
    if found.Some? then found.value else NONE
  }

  /** Lowering gives a function the mask that the analysis stored for it, unless the body is a
      parenthesised expression, which has no record: then the function loses its effects, and that is
      right only if it has none. */
  lemma LoweredEffectsAreRightIff(decls: seq<Decl>, scope: Scope, binds: Typing, i: nat)
    requires Clean(decls, scope, binds) && i < |decls| && decls[i].FunDecl?
    ensures var d, s := decls[i], Analyze(decls, scope, binds);
            var found := Last(ProgramNotes(decls, 0, scope, binds), [i]);
      && d.name in s && s[d.name].FunctionEntry?
      && (found.None? <==> d.body.Paren?)
      && (LoweredEffects(found) == s[d.name].mask <==> !d.body.Paren? || s[d.name].mask == NONE)
  {
    hide Effects, Resolved, Analyze, Clean, Last, ProgramNotes;
    ProgramNotesAreRight(decls, 0, scope, binds, i, []);
    EntryStays(decls, scope, binds, i);
    assert [0 + i] + [] == [i];
  }

  /** `fun f() = (!1)` */
  const Wrapped := Paren(Effect(Number("1")))

  lemma WrappedEffectIsLost(binds: Typing)
    ensures var decls := [FunDecl("f", [], Wrapped)];
      && Printer.Printable(Wrapped) && Clean(decls, map[], binds)
      && Analyze(decls, map[], binds) == map["f" := FunctionEntry(0, IMPURE)]
      && LoweredEffects(Last(ProgramNotes(decls, 0, map[], binds), [0])) == NONE
  {
    var d := FunDecl("f", [], Wrapped);
    WrappedIsClean(BodyScope(d, map[]), binds);
    hide Effects, Resolved, Printer.Printable, Notes, BodyScope;
    assert [d][1..] == [] && Names([]) == [];
    assert After(d, map[], binds) == map["f" := FunctionEntry(0, IMPURE)];
    assert Clean([], After(d, map[], binds), binds);
    LoweredEffectsAreRightIff([d], map[], binds, 0);
  }

  lemma WrappedIsClean(scope: Scope, binds: Typing)
    ensures Printer.Printable(Wrapped) && Resolved(Wrapped, scope, binds) && Effects(Wrapped, scope, binds) == IMPURE
  {
    assert Effects(Number("1"), scope, binds) == NONE;
  }
}
