/** The semantic context as far as effects go (src/semantic.cpp:388-750, 788-807): the global scope,
    with each function's mask in its type, the records about the expressions, and whether anything was
    reported. Out-parameter masks are return values. */
module EffectContext {
  import opened Syntax
  import opened EffectAnalysis
  import opened EffectNotes
  import ExprRecords
  import opened ExprIndex

  lemma OneMoreName(scope: Scope, names: seq<string>, i: nat)
    requires i < |names|
    ensures DistinctNames(names[..i + 1]) <==> DistinctNames(names[..i]) && names[i] !in names[..i]
    ensures Bound(scope, names[..i + 1]) ==
      if names[i] in names[..i] then Bound(scope, names[..i]) else Bound(scope, names[..i])[names[i] := ValueEntry(NONE)]
  {
    assert names[..i + 1] == names[..i] + [names[i]];
    if names[i] in names[..i] {
      var k :| 0 <= k < i && names[k] == names[i];
      assert names[..i + 1][k] == names[..i + 1][i];
    }
  }

  /** NOVA_EFFECT_ASYNC and NOVA_EFFECT_IMPURE are the bits 1 and 2. */
  function Code(mask: Mask): nat {
    (if mask.isAsync then 1 else 0) + if mask.impure then 2 else 0
  }

  /** The node at a path has an address; the type ids are those of the type analysis. */
  datatype Nodes = Nodes(address: Path -> Ptr, typeOf: Note -> nat)

  function EntryOf(nodes: Nodes, note: Note): ExprRecords.Info {
    ExprRecords.Info(nodes.address(note.at), nodes.typeOf(note), Code(note.mask))
  }

  function EntriesOf(nodes: Nodes, notes: seq<Note>): seq<ExprRecords.Info> {
    seq(|notes|, i requires 0 <= i < |notes| => EntryOf(nodes, notes[i]))
  }

  lemma EntriesAppend(nodes: Nodes, xs: seq<Note>, ys: seq<Note>)
    ensures EntriesOf(nodes, xs + ys) == EntriesOf(nodes, xs) + EntriesOf(nodes, ys)
  {
  }

  /** Different nodes have different addresses. */
  ghost predicate OneNodeEach(nodes: Nodes) {
    forall a: Path, b: Path :: nodes.address(a) == nodes.address(b) ==> a == b
  }

  /** The latest entry about a node's address is the last note about the node. */
  lemma {:induction false} LatestIsLast(nodes: Nodes, notes: seq<Note>, at: Path)
    requires OneNodeEach(nodes)
    ensures var found := ExprRecords.Latest(EntriesOf(nodes, notes), nodes.address(at));
      if Last(notes, at).Some? then found.Found? && found.info.effects == Code(Last(notes, at).value) else found == ExprRecords.Absent
    decreases |notes|
  {
    if notes != [] {
      var n := |notes| - 1;
      assert EntriesOf(nodes, notes)[..n] == EntriesOf(nodes, notes[..n]);
      LatestIsLast(nodes, notes[..n], at);
    }
  }

  lemma OneMorePart(parent: Expr, parts: seq<Job>, k: nat, at: Path, binds: Typing)
    requires k < |parts| && forall p :: p in parts ==> p.expr < parent
    ensures NotesAll(parent, parts[..k + 1], at, binds) == NotesAll(parent, parts[..k], at, binds) + Notes(parts[k], at + [k], binds)
  {
    assert parts[..k + 1][..k] == parts[..k];
  }

  class SemanticContext {
    var scope: Scope
    var clean: bool
    const binds: Typing
    const nodes: Nodes
    const records: ExprRecords.Records

    ghost predicate Valid()
      reads records.Repr()
    {
      records.Valid() && forall at: Path :: nodes.address(at) != 0
    }

    /** Since `history` the analysis has recorded `notes`. */
    ghost predicate Written(history: seq<ExprRecords.Info>, notes: seq<Note>)
      reads records
    {
      records.history == history + EntriesOf(nodes, notes)
    }

    constructor (constructors: Scope, binds: Typing, nodes: Nodes, hash: Ptr -> nat)
      requires forall at: Path :: nodes.address(at) != 0
      ensures scope == constructors && clean && this.binds == binds && this.nodes == nodes
      ensures Valid() && fresh(records.Repr()) && records.history == []
    {
      scope, clean, this.binds, this.nodes := constructors, true, binds, nodes;
      records := new ExprRecords.Records(hash);
    }

    method Report()
      modifies `clean
      ensures !clean
    {
      clean := false;
    }

    /** The inner scope in which `names` have been defined one by one; a second definition is reported
        and changes nothing. */
    method DefineAll(outer: Scope, names: seq<string>) returns (inner: Scope)
      modifies `clean
      ensures inner == Bound(outer, names) && clean == (old(clean) && DistinctNames(names))
    {
      inner := outer;
      for i := 0 to |names|
        invariant inner == Bound(outer, names[..i]) && clean == (old(clean) && DistinctNames(names[..i]))
      {
        OneMoreName(outer, names, i);
        if names[i] in names[..i] {
          Report();
        } else {
          inner := inner[names[i] := ValueEntry(NONE)];
        }
      }
      assert names[..|names|] == names;
    }

    lemma NothingWritten(parent: Expr, parts: seq<Job>, at: Path)
      requires forall p :: p in parts ==> p.expr < parent
      ensures Written(records.history, NotesAll(parent, parts[..0], at, binds))
    {
      assert parts[..0] == [];
    }

    method RecordNote(note: Note, ghost h0: seq<ExprRecords.Info>, ghost before: seq<Note>)
      requires Valid() && Written(h0, before)
      modifies records.Repr()
      ensures Valid() && fresh(records.Repr() - old(records.Repr()))
      ensures Written(h0, before + [note])
    {
      hide ExprRecords.Records.Valid;
      EntriesAppend(nodes, before, [note]);
      records.Record(nodes.address(note.at), nodes.typeOf(note), Code(note.mask));
    }

    /** Analyse the next part of an expression. */
    method AnalyzePart(e: Expr, inner: Scope, at: Path, k: nat,
                       ghost parent: Expr, ghost parts: seq<Job>, ghost h0: seq<ExprRecords.Info>)
      returns (mask: Mask)
      requires Valid() && (forall p :: p in parts ==> p.expr < parent) && k < |parts| && parts[k] == Plain(e, inner)
      requires Written(h0, NotesAll(parent, parts[..k], at, binds))
      modifies `clean, records.Repr()
      ensures Valid() && fresh(records.Repr() - old(records.Repr()))
      ensures mask == Effects(e, inner, binds) && clean == (old(clean) && Resolved(e, inner, binds))
      ensures Written(h0, NotesAll(parent, parts[..k + 1], at, binds))
      decreases parent, 1
    {
      hide ExprRecords.Records.Valid, Notes, NotesAll;
      assert parts[k] in parts;
      OneMorePart(parent, parts, k, at, binds);
      EntriesAppend(nodes, NotesAll(parent, parts[..k], at, binds), Notes(parts[k], at + [k], binds));
      mask := AnalyzeExpr(e, inner, at + [k]);
    }

    /** With all parts analysed, record the expression itself. */
    method RecordExpr(e: Expr, inner: Scope, at: Path, mask: Mask, ghost h0: seq<ExprRecords.Info>)
      requires Valid() && !e.Paren? && mask == Effects(e, inner, binds)
      requires Written(h0, NotesAll(e, Parts(Plain(e, inner), binds), at, binds))
      modifies records.Repr()
      ensures Valid() && fresh(records.Repr() - old(records.Repr()))
      ensures Written(h0, Notes(Plain(e, inner), at, binds))
    {
      hide ExprRecords.Records.Valid, Parts, Effects;
      RecordNote(Note(at, false, mask), h0, NotesAll(e, Parts(Plain(e, inner), binds), at, binds));
    }

    method AnalyzeExpr(e: Expr, inner: Scope, at: Path) returns (mask: Mask)
      requires Valid()
      modifies `clean, records.Repr()
      ensures Valid() && fresh(records.Repr() - old(records.Repr()))
      ensures mask == Effects(e, inner, binds) && clean == (old(clean) && Resolved(e, inner, binds))
      ensures Written(old(records.history), Notes(Plain(e, inner), at, binds))
      decreases e, 4
    {
      hide ExprRecords.Records.Valid, Notes, NotesAll, Parts;
      match e
      case Ident(_) => mask := AnalyzeIdentifier(e, inner, at);
      case Block(_) => mask := AnalyzeItems(e, inner, at);
      case ListLiteral(_) => mask := AnalyzeItems(e, inner, at);
      case Lambda(_, _) => mask := AnalyzeLambda(e, inner, at);
      case Call(_, _) => mask := AnalyzeCall(e, inner, at);
      case Pipe(_, _) => mask := AnalyzePipeline(e, inner, at);
      case If(_, _, _) => mask := AnalyzeIf(e, inner, at);
      case While(_, _) => mask := AnalyzeWhile(e, inner, at);
      case Match(_, _) => mask := AnalyzeMatch(e, inner, at);
      case Async(_) => mask := AnalyzeUnary(e, inner, at);
      case Await(_) => mask := AnalyzeUnary(e, inner, at);
      case Effect(_) => mask := AnalyzeUnary(e, inner, at);
      case Paren(_) => mask := AnalyzeParen(e, inner, at);
      case _ => mask := AnalyzeLiteral(e, inner, at);
    }

    method AnalyzeLiteral(e: Expr, inner: Scope, at: Path) returns (mask: Mask)
      requires Valid() && (e.Number? || e.Str? || e.Bool? || e.UnitLiteral?)
      modifies `clean, records.Repr()
      ensures Valid() && fresh(records.Repr() - old(records.Repr()))
      ensures mask == Effects(e, inner, binds) && clean == (old(clean) && Resolved(e, inner, binds))
      ensures Written(old(records.history), Notes(Plain(e, inner), at, binds))
      decreases e, 3
    {
      hide ExprRecords.Records.Valid, Notes;
      ghost var h0, parts := records.history, Parts(Plain(e, inner), binds);
      NothingWritten(e, parts, at);
      mask := NONE;
      RecordExpr(e, inner, at, mask, h0);
    }

    method AnalyzeIdentifier(e: Expr, inner: Scope, at: Path) returns (mask: Mask)
      requires Valid() && e.Ident?
      modifies `clean, records.Repr()
      ensures Valid() && fresh(records.Repr() - old(records.Repr()))
      ensures mask == Effects(e, inner, binds) && clean == (old(clean) && Resolved(e, inner, binds))
      ensures Written(old(records.history), Notes(Plain(e, inner), at, binds))
      decreases e, 3
    {
      hide ExprRecords.Records.Valid, Notes;
      ghost var h0, parts := records.history, Parts(Plain(e, inner), binds);
      NothingWritten(e, parts, at);
      mask := NONE;
      if e.name !in inner {
        Report();
      } else if inner[e.name].ValueEntry? {
        mask := inner[e.name].mask;
      }
      RecordExpr(e, inner, at, mask, h0);
    }

    /** The elements of a list or the items of a block. */
    method AnalyzeItems(e: Expr, inner: Scope, at: Path) returns (mask: Mask)
      requires Valid() && (e.ListLiteral? || e.Block?)
      modifies `clean, records.Repr()
      ensures Valid() && fresh(records.Repr() - old(records.Repr()))
      ensures mask == Effects(e, inner, binds) && clean == (old(clean) && Resolved(e, inner, binds))
      ensures Written(old(records.history), Notes(Plain(e, inner), at, binds))
      decreases e, 3
    {
      hide ExprRecords.Records.Valid, Notes, NotesAll, Parts, Effects, Resolved;
      ItemsFacts(e, inner, binds);
      var es := if e.Block? then e.items else e.elements;
      ghost var h0, parts := records.history, Parts(Plain(e, inner), binds);
      NothingWritten(e, parts, at);
      mask := NONE;
      for i := 0 to |es|
        invariant Valid() && fresh(records.Repr() - old(records.Repr()))
        invariant Or(mask, EffectsAll(es[i..], inner, binds)) == EffectsAll(es, inner, binds)
        invariant (clean && AllResolved(es[i..], inner, binds)) == (old(clean) && AllResolved(es, inner, binds))
        invariant Written(h0, NotesAll(e, parts[..i], at, binds))
      {
        assert es[i..][0] == es[i] && es[i..][1..] == es[i + 1..];
        var each := AnalyzePart(es[i], inner, at, i, e, parts, h0);
        mask := Or(mask, each);
      }
      assert parts[..|es|] == parts;
      RecordExpr(e, inner, at, mask, h0);
    }

    method AnalyzeLambda(e: Expr, inner: Scope, at: Path) returns (mask: Mask)
      requires Valid() && e.Lambda?
      modifies `clean, records.Repr()
      ensures Valid() && fresh(records.Repr() - old(records.Repr()))
      ensures mask == Effects(e, inner, binds) && clean == (old(clean) && Resolved(e, inner, binds))
      ensures Written(old(records.history), Notes(Plain(e, inner), at, binds))
      decreases e, 3
    {
      hide ExprRecords.Records.Valid, Notes, NotesAll, DistinctNames, Bound;
      ghost var h0, parts := records.history, Parts(Plain(e, inner), binds);
      NothingWritten(e, parts, at);
      var lambdaScope := DefineAll(inner, Names(e.params));
      var body := AnalyzePart(e.body, lambdaScope, at, 0, e, parts, h0);
      mask := NONE;
      assert parts[..1] == parts;
      RecordExpr(e, inner, at, mask, h0);
    }

    method AnalyzeIf(e: Expr, inner: Scope, at: Path) returns (mask: Mask)
      requires Valid() && e.If?
      modifies `clean, records.Repr()
      ensures Valid() && fresh(records.Repr() - old(records.Repr()))
      ensures mask == Effects(e, inner, binds) && clean == (old(clean) && Resolved(e, inner, binds))
      ensures Written(old(records.history), Notes(Plain(e, inner), at, binds))
      decreases e, 3
    {
      hide ExprRecords.Records.Valid, Notes, NotesAll, Parts, Effects, Resolved;
      IfFacts(e, inner, binds);
      ghost var h0, parts := records.history, Parts(Plain(e, inner), binds);
      NothingWritten(e, parts, at);
      mask := AnalyzePart(e.cond, inner, at, 0, e, parts, h0);
      var branch := AnalyzePart(e.thenBranch, inner, at, 1, e, parts, h0);
      mask := Or(mask, branch);
      if e.elseBranch.Some? {
        branch := AnalyzePart(e.elseBranch.value, inner, at, 2, e, parts, h0);
        mask := Or(mask, branch);
      }
      assert parts[..|parts|] == parts;
      RecordExpr(e, inner, at, mask, h0);
    }

    method AnalyzeWhile(e: Expr, inner: Scope, at: Path) returns (mask: Mask)
      requires Valid() && e.While?
      modifies `clean, records.Repr()
      ensures Valid() && fresh(records.Repr() - old(records.Repr()))
      ensures mask == Effects(e, inner, binds) && clean == (old(clean) && Resolved(e, inner, binds))
      ensures Written(old(records.history), Notes(Plain(e, inner), at, binds))
      decreases e, 3
    {
      hide ExprRecords.Records.Valid, Notes, NotesAll;
      ghost var h0, parts := records.history, Parts(Plain(e, inner), binds);
      NothingWritten(e, parts, at);
      mask := AnalyzePart(e.cond, inner, at, 0, e, parts, h0);
      var body := AnalyzePart(e.body, inner, at, 1, e, parts, h0);
      mask := Or(mask, body);
      assert parts[..2] == parts;
      RecordExpr(e, inner, at, mask, h0);
    }

    method AnalyzeUnary(e: Expr, inner: Scope, at: Path) returns (mask: Mask)
      requires Valid() && (e.Async? || e.Await? || e.Effect?)
      modifies `clean, records.Repr()
      ensures Valid() && fresh(records.Repr() - old(records.Repr()))
      ensures mask == Effects(e, inner, binds) && clean == (old(clean) && Resolved(e, inner, binds))
      ensures Written(old(records.history), Notes(Plain(e, inner), at, binds))
      decreases e, 3
    {
      hide ExprRecords.Records.Valid, Notes, NotesAll;
      ghost var h0, parts := records.history, Parts(Plain(e, inner), binds);
      NothingWritten(e, parts, at);
      mask := AnalyzePart(e.inner, inner, at, 0, e, parts, h0);
      mask := if e.Async? then Or(ASYNC, mask) else if e.Effect? then Or(IMPURE, mask) else mask;
      assert parts[..1] == parts;
      RecordExpr(e, inner, at, mask, h0);
    }

    /** Nothing is recorded about the parenthesised expression itself. */
    method AnalyzeParen(e: Expr, inner: Scope, at: Path) returns (mask: Mask)
      requires Valid() && e.Paren?
      modifies `clean, records.Repr()
      ensures Valid() && fresh(records.Repr() - old(records.Repr()))
      ensures mask == Effects(e, inner, binds) && clean == (old(clean) && Resolved(e, inner, binds))
      ensures Written(old(records.history), Notes(Plain(e, inner), at, binds))
      decreases e, 3
    {
      hide ExprRecords.Records.Valid, NotesAll;
      ghost var h0, parts := records.history, Parts(Plain(e, inner), binds);
      NothingWritten(e, parts, at);
      mask := AnalyzePart(e.inner, inner, at, 0, e, parts, h0);
      assert parts[..1] == parts;
    }

    /** The arguments of a call or a stage, behind the callee. */
    method AnalyzeArgs(args: seq<Arg>, inner: Scope, at: Path,
                       ghost parent: Expr, ghost parts: seq<Job>, ghost h0: seq<ExprRecords.Info>)
      returns (mask: Mask)
      requires Valid() && (forall p :: p in parts ==> p.expr < parent) && |parts| == 1 + |args|
      requires forall i :: 0 <= i < |args| ==> parts[1 + i] == Plain(args[i].value, inner)
      requires Written(h0, NotesAll(parent, parts[..1], at, binds))
      modifies `clean, records.Repr()
      ensures Valid() && fresh(records.Repr() - old(records.Repr()))
      ensures mask == EffectsArgs(args, inner, binds) && clean == (old(clean) && ArgsResolved(args, inner, binds))
      ensures Written(h0, NotesAll(parent, parts, at, binds))
      decreases parent, 2
    {
      hide ExprRecords.Records.Valid, NotesAll;
      mask := NONE;
      for i := 0 to |args|
        invariant Valid() && fresh(records.Repr() - old(records.Repr()))
        invariant Or(mask, EffectsArgs(args[i..], inner, binds)) == EffectsArgs(args, inner, binds)
        invariant (clean && ArgsResolved(args[i..], inner, binds)) == (old(clean) && ArgsResolved(args, inner, binds))
        invariant Written(h0, NotesAll(parent, parts[..1 + i], at, binds))
      {
        assert args[i..][0] == args[i] && args[i..][1..] == args[i + 1..];
        var each := AnalyzePart(args[i].value, inner, at, 1 + i, parent, parts, h0);
        mask := Or(mask, each);
      }
      assert parts[..1 + |args|] == parts;
    }

    /** analyze_call; a callee that cannot be called is reported and its arguments are not analysed. */
    method AnalyzeCall(e: Expr, inner: Scope, at: Path) returns (mask: Mask)
      requires Valid() && e.Call?
      modifies `clean, records.Repr()
      ensures Valid() && fresh(records.Repr() - old(records.Repr()))
      ensures mask == Effects(e, inner, binds) && clean == (old(clean) && Resolved(e, inner, binds))
      ensures Written(old(records.history), Notes(Plain(e, inner), at, binds))
      decreases e, 3
    {
      hide ExprRecords.Records.Valid, Notes, NotesAll, Parts, Effects, Resolved, CalleeMask, CalleeArity;
      CallFacts(e, inner, binds);
      ghost var h0, parts := records.history, Parts(Plain(e, inner), binds);
      NothingWritten(e, parts, at);
      mask := AnalyzePart(e.callee, inner, at, 0, e, parts, h0);
      var callee := CalleeMask(e.callee, inner);
      if callee.None? {
        Report();
        assert parts[..1] == parts;
      } else {
        if CalleeArity(e.callee, inner) != |e.args| { Report(); }
        var args := AnalyzeArgs(e.args, inner, at, e, parts, h0);
        mask := Or(Or(mask, args), callee.value);
      }
      RecordExpr(e, inner, at, mask, h0);
    }

    /** What analyze_pipeline does with one stage; `before` are the effects so far. */
    method AnalyzeStage(stage: Expr, inner: Scope, before: Mask, at: Path) returns (mask: Mask)
      requires Valid()
      modifies `clean, records.Repr()
      ensures Valid() && fresh(records.Repr() - old(records.Repr()))
      ensures mask == EffectsStage(stage, inner, binds) && clean == (old(clean) && StageResolved(stage, inner, binds))
      ensures Written(old(records.history), Notes(Job(stage, inner, true, before), at, binds))
      decreases stage, 5
    {
      hide ExprRecords.Records.Valid, Notes, NotesAll, CalleeMask, CalleeArity;
      if stage.Call? {
        mask := AnalyzeCallStage(stage, inner, before, at);
      } else {
        ghost var h0 := records.history;
        NamedStage(Job(stage, inner, true, before), at, binds);
        mask := AnalyzeExpr(stage, inner, at);
        ghost var notes := Notes(Plain(stage, inner), at, binds);
        var callee := CalleeMask(stage, inner);
        if callee.None? || CalleeArity(stage, inner) == 0 {
          Report();
          RecordNote(Note(at, true, Or(before, mask)), h0, notes);
        } else {
          CalleeIsResolved(stage, inner, binds);
          mask := Or(mask, callee.value);
          RecordNote(Note(at, true, mask), h0, notes);
        }
      }
    }

    /** With callee and arguments analysed, record the stage. */
    method RecordStage(stage: Expr, inner: Scope, before: Mask, at: Path, mask: Mask, ghost h0: seq<ExprRecords.Info>)
      requires Valid() && stage.Call?
      requires mask == StageNote(Job(stage, inner, true, before), at, binds).mask
      requires Written(h0, NotesAll(stage, Parts(Job(stage, inner, true, before), binds), at, binds))
      modifies records.Repr()
      ensures Valid() && fresh(records.Repr() - old(records.Repr()))
      ensures Written(h0, Notes(Job(stage, inner, true, before), at, binds))
    {
      hide ExprRecords.Records.Valid, Parts, EffectsStage, Callable;
      RecordNote(Note(at, true, mask), h0, NotesAll(stage, Parts(Job(stage, inner, true, before), binds), at, binds));
    }

    method AnalyzeCallStage(stage: Expr, inner: Scope, before: Mask, at: Path) returns (mask: Mask)
      requires Valid() && stage.Call?
      modifies `clean, records.Repr()
      ensures Valid() && fresh(records.Repr() - old(records.Repr()))
      ensures mask == EffectsStage(stage, inner, binds) && clean == (old(clean) && StageResolved(stage, inner, binds))
      ensures Written(old(records.history), Notes(Job(stage, inner, true, before), at, binds))
      decreases stage, 4
    {
      hide ExprRecords.Records.Valid, Notes, NotesAll, Parts, CalleeMask, CalleeArity, EffectsStage, StageResolved, StageNote;
      ghost var job := Job(stage, inner, true, before);
      ghost var h0, parts := records.history, Parts(job, binds);
      if Callable(stage, inner, true) { CalledStage(job, at, binds); } else { SkippedStage(job, at, binds); }
      NothingWritten(stage, parts, at);
      mask := AnalyzePart(stage.callee, inner, at, 0, stage, parts, h0);
      var callee := CalleeMask(stage.callee, inner);
      if callee.None? || CalleeArity(stage.callee, inner) == 0 {
        Report();
        assert parts[..1] == parts;
        RecordStage(stage, inner, before, at, Or(before, mask), h0);
      } else {
        if CalleeArity(stage.callee, inner) < |stage.args| + 1 { Report(); }
        var args := AnalyzeArgs(stage.args, inner, at, stage, parts, h0);
        mask := Or(Or(mask, args), callee.value);
        RecordStage(stage, inner, before, at, mask, h0);
      }
    }

    /** The next stage of a pipeline. */
    method AnalyzeStagePart(stage: Expr, inner: Scope, before: Mask, at: Path, k: nat,
                            ghost parent: Expr, ghost parts: seq<Job>, ghost h0: seq<ExprRecords.Info>)
      returns (mask: Mask)
      requires Valid() && (forall p :: p in parts ==> p.expr < parent) && k < |parts| && parts[k] == Job(stage, inner, true, before)
      requires Written(h0, NotesAll(parent, parts[..k], at, binds))
      modifies `clean, records.Repr()
      ensures Valid() && fresh(records.Repr() - old(records.Repr()))
      ensures mask == EffectsStage(stage, inner, binds) && clean == (old(clean) && StageResolved(stage, inner, binds))
      ensures Written(h0, NotesAll(parent, parts[..k + 1], at, binds))
      decreases parent, 1
    {
      hide ExprRecords.Records.Valid, Notes, NotesAll;
      assert parts[k] in parts;
      OneMorePart(parent, parts, k, at, binds);
      EntriesAppend(nodes, NotesAll(parent, parts[..k], at, binds), Notes(parts[k], at + [k], binds));
      mask := AnalyzeStage(stage, inner, before, at + [k]);
    }

    method AnalyzePipeline(e: Expr, inner: Scope, at: Path) returns (mask: Mask)
      requires Valid() && e.Pipe?
      modifies `clean, records.Repr()
      ensures Valid() && fresh(records.Repr() - old(records.Repr()))
      ensures mask == Effects(e, inner, binds) && clean == (old(clean) && Resolved(e, inner, binds))
      ensures Written(old(records.history), Notes(Plain(e, inner), at, binds))
      decreases e, 3
    {
      hide ExprRecords.Records.Valid, Notes, NotesAll, Parts, Effects, Resolved, EffectsStage, StageResolved;
      PipeFacts(e, inner, binds);
      var stages := e.stages;
      ghost var h0, parts := records.history, Parts(Plain(e, inner), binds);
      NothingWritten(e, parts, at);
      mask := AnalyzePart(e.target, inner, at, 0, e, parts, h0);
      for i := 0 to |stages|
        invariant Valid() && fresh(records.Repr() - old(records.Repr()))
        invariant mask == Or(Effects(e.target, inner, binds), EffectsStages(stages[..i], inner, binds))
        invariant (clean && StagesResolved(stages[i..], inner, binds)) == (old(clean) && Resolved(e, inner, binds))
        invariant Written(h0, NotesAll(e, parts[..1 + i], at, binds))
      {
        assert stages[i..][0] == stages[i] && stages[i..][1..] == stages[i + 1..];
        OneMoreStage(stages, i, inner, binds);
        var each := AnalyzeStagePart(stages[i], inner, mask, at, 1 + i, e, parts, h0);
        mask := Or(mask, each);
      }
      assert stages[..|stages|] == stages && parts[..1 + |stages|] == parts;
      RecordExpr(e, inner, at, mask, h0);
    }

    /** One arm, in a scope of its own. */
    method AnalyzeArm(arm: Arm, inner: Scope, at: Path, k: nat,
                      ghost parent: Expr, ghost parts: seq<Job>, ghost h0: seq<ExprRecords.Info>)
      returns (mask: Mask)
      requires Valid() && (forall p :: p in parts ==> p.expr < parent)
      requires k < |parts| && parts[k] == Plain(arm.body, ArmScope(inner, arm, binds))
      requires Written(h0, NotesAll(parent, parts[..k], at, binds))
      modifies `clean, records.Repr()
      ensures Valid() && fresh(records.Repr() - old(records.Repr()))
      ensures mask == Effects(arm.body, ArmScope(inner, arm, binds), binds)
      ensures clean == (old(clean) && ArmBindsOnce(arm, binds) && Resolved(arm.body, ArmScope(inner, arm, binds), binds))
      ensures Written(h0, NotesAll(parent, parts[..k + 1], at, binds))
      decreases parent, 2
    {
      hide ExprRecords.Records.Valid, NotesAll, DistinctNames, Bound;
      var armScope := inner;
      if binds(arm) { armScope := DefineAll(inner, Names(arm.bindings)); }
      mask := AnalyzePart(arm.body, armScope, at, k, parent, parts, h0);
    }

    method AnalyzeMatch(e: Expr, inner: Scope, at: Path) returns (mask: Mask)
      requires Valid() && e.Match?
      modifies `clean, records.Repr()
      ensures Valid() && fresh(records.Repr() - old(records.Repr()))
      ensures mask == Effects(e, inner, binds) && clean == (old(clean) && Resolved(e, inner, binds))
      ensures Written(old(records.history), Notes(Plain(e, inner), at, binds))
      decreases e, 3
    {
      hide ExprRecords.Records.Valid, Notes, NotesAll, ArmScope, ArmBindsOnce, Parts, Effects, Resolved;
      MatchFacts(e, inner, binds);
      var arms := e.arms;
      ghost var h0, parts := records.history, Parts(Plain(e, inner), binds);
      NothingWritten(e, parts, at);
      mask := AnalyzePart(e.scrutinee, inner, at, 0, e, parts, h0);
      for i := 0 to |arms|
        invariant Valid() && fresh(records.Repr() - old(records.Repr()))
        invariant Or(mask, EffectsArms(arms[i..], inner, binds)) == Effects(e, inner, binds)
        invariant (clean && ArmsResolved(arms[i..], inner, binds)) == (old(clean) && Resolved(e, inner, binds))
        invariant Written(h0, NotesAll(e, parts[..1 + i], at, binds))
      {
        assert arms[i..][0] == arms[i] && arms[i..][1..] == arms[i + 1..];
        var body := AnalyzeArm(arms[i], inner, at, 1 + i, e, parts, h0);
        mask := Or(mask, body);
      }
      assert parts[..1 + |arms|] == parts;
      RecordExpr(e, inner, at, mask, h0);
    }

    /** analyze_fun: the function is defined without effects first, and gets its mask at the end. */
    method AnalyzeFun(d: Decl, at: Path)
      requires Valid() && d.FunDecl?
      modifies `scope, `clean, records.Repr()
      ensures Valid() && fresh(records.Repr() - old(records.Repr()))
      ensures scope == After(d, old(scope), binds)
      ensures clean == (old(clean) && CleanDecl(d, old(scope), binds))
      ensures Written(old(records.history), Notes(DeclJob(d, old(scope)), at, binds))
    {
      hide ExprRecords.Records.Valid, Notes, Bound, DistinctNames;
      var defined := d.name !in scope;
      if defined {
        scope := scope[d.name := FunctionEntry(|d.params|, NONE)];
      } else {
        Report();
      }
      var inner := DefineAll(scope, Names(d.params));
      var mask := AnalyzeExpr(d.body, inner, at);
      if defined { scope := scope[d.name := FunctionEntry(|d.params|, mask)]; }
    }

    method AnalyzeLet(d: Decl, at: Path)
      requires Valid() && d.LetDecl?
      modifies `scope, `clean, records.Repr()
      ensures Valid() && fresh(records.Repr() - old(records.Repr()))
      ensures scope == After(d, old(scope), binds)
      ensures clean == (old(clean) && CleanDecl(d, old(scope), binds))
      ensures Written(old(records.history), Notes(DeclJob(d, old(scope)), at, binds))
    {
      hide ExprRecords.Records.Valid, Notes;
      var mask := AnalyzeExpr(d.value, scope, at);
      if d.name in scope {
        Report();
      } else {
        scope := scope[d.name := ValueEntry(mask)];
      }
    }

    method AnalyzeDecl(d: Decl, at: Path)
      requires Valid()
      modifies `scope, `clean, records.Repr()
      ensures Valid() && fresh(records.Repr() - old(records.Repr()))
      ensures scope == After(d, old(scope), binds)
      ensures clean == (old(clean) && CleanDecl(d, old(scope), binds))
      ensures Written(old(records.history), Notes(DeclJob(d, old(scope)), at, binds))
    {
      if d.FunDecl? {
        AnalyzeFun(d, at);
      } else {
        AnalyzeLet(d, at);
      }
    }

    /** nova_semantic_analyze_program, after the type declarations. */
    method AnalyzeProgram(decls: seq<Decl>)
      requires Valid()
      modifies `scope, `clean, records.Repr()
      ensures Valid() && fresh(records.Repr() - old(records.Repr()))
      ensures scope == Analyze(decls, old(scope), binds)
      ensures clean == (old(clean) && Clean(decls, old(scope), binds))
      ensures Written(old(records.history), ProgramNotes(decls, 0, old(scope), binds))
    {
      hide ExprRecords.Records.Valid, Notes, After, CleanDecl, DeclJob, Analyze, Clean, ProgramNotes;
      ghost var h0, done: seq<Note> := records.history, [];
      for i := 0 to |decls|
        invariant Valid() && fresh(records.Repr() - old(records.Repr()))
        invariant Analyze(decls[i..], scope, binds) == Analyze(decls, old(scope), binds)
        invariant (clean && Clean(decls[i..], scope, binds)) == (old(clean) && Clean(decls, old(scope), binds))
        invariant done + ProgramNotes(decls[i..], i, scope, binds) == ProgramNotes(decls, 0, old(scope), binds)
        invariant Written(h0, done)
      {
        NextDecl(decls, i, scope, binds);
        ghost var notes := Notes(DeclJob(decls[i], scope), [i], binds);
        EntriesAppend(nodes, done, notes);
        AnalyzeDecl(decls[i], [i]);
        done := done + notes;
      }
      NoDecl(decls[|decls|..], |decls|, scope, binds);
    }

    /** nova_semantic_lookup_expr, as far as effects go. */
    method LookupEffects(at: Path, ghost notes: seq<Note>) returns (effects: Option<nat>)
      requires Valid() && Written([], notes) && OneNodeEach(nodes)
      ensures effects == match Last(notes, at) { case Some(mask) => Some(Code(mask)) case None => None }
    {
      LatestIsLast(nodes, notes, at);
      assert records.history == EntriesOf(nodes, notes);
      var found := records.LookupExpr(nodes.address(at));
      return if found.Found? then Some(found.info.effects) else None;
    }

    /** The effects nova_ir_lower gives the function whose body is at `at` (src/ir.cpp:531-533). */
    method FunctionEffects(at: Path, ghost notes: seq<Note>) returns (effects: nat)
      requires Valid() && Written([], notes) && OneNodeEach(nodes)
      ensures effects == Code(LoweredEffects(Last(notes, at)))
    {
      var found := LookupEffects(at, notes);
      return if found.Some? then found.value else 0;
    }
  }
}
