/** The other half of the write barrier: a store that needs it can lose an object, by a run that only
    drops pointers and steps. With a concrete run from a fresh collector. */
module GcLostObjects {
  import opened GcModel
  import opened GcMarking
  import opened GcSweeping
  import opened GcCycle
  import opened GcRuns
  import opened GcBarrier

  /** `t` has all roots and edges of `s` but those that name `v`. */
  ghost predicate KeepsOthers(s: State, t: State, v: Ptr) {
    && (forall x :: x in s.roots.Targets() && x != v ==> x in t.roots.Targets())
    && forall q, x :: x in Edges(s.pool.heap, q) && x != v ==> x in Edges(t.pool.heap, q)
  }

  ghost predicate Unnamed(s: State, v: Ptr) {
    v !in s.roots.Targets() && forall q :: v !in Edges(s.pool.heap, q)
  }

  // ----- dropping every pointer to v -----

  ghost function Cells(heap: Heap, v: Ptr): set<(Ptr, nat)> {
    set q, i: nat | q in heap && i < |heap[q].fields| && heap[q].fields[i] == v :: (q, i)
  }

  /** Marking runs and has not come to `v`, so no root and no traced object holds it. */
  ghost predicate IsWhite(s: State, v: Ptr) {
    Safe(s) && InMarking(s) && v in s.pool.heap && v !in s.marks.marked
  }

  lemma NoneLeft(s: State, v: Ptr)
    requires IsWhite(s, v) && Cells(s.pool.heap, v) == {}
    ensures Unnamed(s, v)
  {
    WhiteIsUnnamed(s, v);
    forall q, i: nat | q in s.pool.heap && i < |s.pool.heap[q].fields| ensures s.pool.heap[q].fields[i] != v {
      assert (q, i) !in Cells(s.pool.heap, v);
    }
  }

  lemma WhiteIsUnnamed(s: State, v: Ptr)
    requires IsWhite(s, v)
    ensures v != NULL && v !in s.roots.Targets()
  {
    assert v in s.pool.List();
  }

  lemma ClearCell(s: State, q: Ptr, i: nat, v: Ptr)
    requires q in s.pool.heap && i < |s.pool.heap[q].fields| && s.pool.heap[q].fields[i] == v != NULL
    ensures var t := Apply(s, Store(q, i, NULL));
      Cells(t.pool.heap, v) == Cells(s.pool.heap, v) - {(q, i)} && t.roots == s.roots && KeepsOthers(s, t, v)
  {
    var t := Apply(s, Store(q, i, NULL));
    forall r, x | x in Edges(s.pool.heap, r) && x != v ensures x in Edges(t.pool.heap, r) {
      var k :| 0 <= k < |s.pool.heap[r].fields| && s.pool.heap[r].fields[k] == x;
      assert t.pool.heap[r].fields[k] == x;
    }
  }

  lemma StaysWhite(s: State, v: Ptr, a: Action)
    requires IsWhite(s, v) && Deletion(a) && !a.Collect?
    ensures IsWhite(Apply(s, a), v) && Apply(s, a).marks == s.marks
  {
    DeletionIsSafe(s, a);
    DropKeeps(s, a);
    hide Safe, Apply;
  }

  /** Each action nulls a field that holds `v` in `s`. */
  ghost predicate Clears(s: State, drops: seq<Action>, v: Ptr) {
    forall a :: a in drops ==> a.Store? && a.value == NULL && (a.p, a.field) in Cells(s.pool.heap, v)
  }

  lemma {:induction false} DropAll(s: State, v: Ptr) returns (drops: seq<Action>)
    requires IsWhite(s, v)
    ensures Clears(s, drops, v)
    ensures var t := Run(s, drops);
      IsWhite(t, v) && t.marks == s.marks && t.roots == s.roots && KeepsOthers(s, t, v) && Unnamed(t, v)
    decreases |Cells(s.pool.heap, v)|
  {
    hide IsWhite, Unnamed, KeepsOthers, Apply;
    WhiteIsUnnamed(s, v);
    if Cells(s.pool.heap, v) == {} {
      NoneLeft(s, v);
      KeepsOwn(s, v);
      drops := [];
    } else {
      var cell :| cell in Cells(s.pool.heap, v);
      var a := Store(cell.0, cell.1, NULL);
      ClearCell(s, cell.0, cell.1, v);
      StaysWhite(s, v, a);
      var t := Apply(s, a);
      var more := DropAll(t, v);
      drops := [a] + more;
      assert drops[1..] == more;
      KeepsBoth(s, t, Run(t, more), v);
    }
  }

  lemma KeepsOwn(s: State, v: Ptr)
    ensures KeepsOthers(s, s, v)
  {
  }

  lemma KeepsBoth(s: State, t: State, u: State, v: Ptr)
    requires KeepsOthers(s, t, v) && KeepsOthers(t, u, v)
    ensures KeepsOthers(s, u, v)
  {
  }

  lemma ClearsDeletes(s: State, drops: seq<Action>, v: Ptr)
    requires Clears(s, drops, v)
    ensures Deletions(drops)
  {
    forall i | 0 <= i < |drops| ensures Deletion(drops[i]) {
      assert drops[i] in drops;
    }
  }

  /** Dropping other pointers and adding one can be swapped. */
  lemma {:induction false} DropsFill(s: State, drops: seq<Action>, p: Ptr, f: nat, v: Ptr)
    requires forall a :: a in drops ==> a.Store? && a.value == NULL && a != Store(p, f, NULL)
    ensures Run(Fill(s, p, f, v), drops) == Fill(Run(s, drops), p, f, v)
    decreases |drops|
  {
    hide Fill, Apply;
    if drops != [] {
      assert drops[0] in drops;
      DropFills(s, drops[0], p, f, v);
      DropsFill(Apply(s, drops[0]), drops[1..], p, f, v);
    }
  }

  /** So can dropping fields and changing the roots. */
  lemma {:induction false} DropsRoots(s: State, drops: seq<Action>, roots: Roots)
    requires forall a :: a in drops ==> a.Store?
    ensures Run(s.(roots := roots), drops) == Run(s, drops).(roots := roots)
    decreases |drops|
  {
    if drops != [] {
      assert drops[0] in drops;
      assert Apply(s.(roots := roots), drops[0]) == Apply(s, drops[0]).(roots := roots);
      DropsRoots(Apply(s, drops[0]), drops[1..], roots);
    }
  }

  /** What the drops do not touch: an object keeps its kind and its number of fields. */
  lemma {:induction false} DropsKeepShape(s: State, drops: seq<Action>, p: Ptr)
    requires p in s.pool.heap && forall a :: a in drops ==> a.Store? && a.value == NULL
    ensures var t := Run(s, drops);
      p in t.pool.heap && t.pool.heap[p].traceable == s.pool.heap[p].traceable
      && |t.pool.heap[p].fields| == |s.pool.heap[p].fields|
    decreases |drops|
  {
    if drops != [] {
      assert drops[0] in drops;
      DropsKeepShape(Apply(s, drops[0]), drops[1..], p);
    }
  }

  // ----- the step that frees v -----

  lemma NeverMarked(s: State, v: Ptr, budget: nat)
    requires Safe(s) && InMarking(s) && Unnamed(s, v) && v !in s.marks.marked
    ensures var m := Trace(s.pool.heap, s.marks, budget);
      && v !in m.marked && s.marks.marked <= m.marked <= s.pool.heap.Keys
      && (budget > |s.pool.rest| ==> m.stack == [])
  {
    MarkingHoldsAll(s);
    var heap, targets, inside := s.pool.heap, s.roots.Targets(), s.pool.heap.Keys - {v};
    TraceEffect(heap, targets, s.marks, budget);
    hide Safe, Trace;
    forall q | q in inside ensures Within(Edges(heap, q), inside) {
      assert Within(Edges(heap, q), heap.Keys);
    }
    TraceStaysWithin(heap, targets, s.marks, budget, inside);
    var m := Trace(heap, s.marks, budget);
    SubsetSize(m.marked, Elements(s.pool.rest));
    ElementsSize(s.pool.rest);
    StackSize(s.marks);
  }

  lemma {:induction false} ElementsSize(ps: seq<Ptr>)
    ensures |Elements(ps)| <= |ps|
  {
    if ps == [] {
      assert Elements(ps) == {};
    } else {
      ElementsSize(ps[1..]);
      assert Elements(ps) == {ps[0]} + Elements(ps[1..]);
    }
  }

  lemma StackSize(m: Marks)
    requires StackIsMarked(m)
    ensures |m.stack| <= |m.marked|
  {
    NoDuplicatesSize(m.stack);
    SubsetSize(Elements(m.stack), m.marked);
  }

  /** A budget with which one step traces and sweeps all there is. */
  function Enough(s: State): nat {
    2 * |s.pool.rest| + 2
  }

  lemma EnoughIsEnough(s: State)
    ensures TraceBudget(Enough(s)) == SweepBudget(Enough(s)) == |s.pool.rest| + 1
  {
  }

  /** One step with that budget ends the cycle and frees `v`, but nothing that was marked. */
  lemma StepFrees(s: State, v: Ptr)
    requires Safe(s) && InMarking(s) && Unnamed(s, v) && v !in s.marks.marked && v in s.pool.heap
    ensures var t := Step(s, Enough(s));
      v !in t.pool.heap && (forall q :: q in s.marks.marked ==> q in t.pool.heap) && !t.inProgress
  {
    MarkingHoldsAll(s);
    HeapOfList(s);
    EnoughIsEnough(s);
    var n := |s.pool.rest| + 1;
    NeverMarked(s, v, n);
    var traced := TraceStep(s, n);
    assert traced.pool == s.pool && traced.marks == Trace(s.pool.heap, s.marks, n);
    hide Safe, Trace, TraceStep, Step, SweepStep, Finish, Enough, TraceBudget, SweepBudget;
    StepParts(s, Enough(s));
    SweepsAll(traced, n);
  }

  lemma StepParts(s: State, budget: nat)
    requires Started(s) == s && Trace(s.pool.heap, s.marks, TraceBudget(budget)).stack == []
    ensures Step(s, budget) == Finish(SweepStep(TraceStep(s, TraceBudget(budget)), SweepBudget(budget)))
  {
    hide Started, Trace, Sweep, Finish;
  }

  lemma HeapOfList(s: State)
    requires Safe(s)
    ensures Consistent(s.pool)
  {
  }

  lemma SweepsPool(pool: Pool, marked: set<Ptr>, budget: nat)
    requires Consistent(pool) && pool.kept == [] && budget >= |pool.rest|
    ensures var t := Sweep(pool, marked, budget).pool;
      t.rest == [] && forall q :: q in t.heap <==> q in pool.heap && q in marked
  {
    assert pool.List() == pool.rest;
    SweepEffect(pool, marked, budget);
    hide Sweep, NoDuplicates, Bytes, Finalizable, Only, Without;
    assert pool.rest[..|pool.rest|] == pool.rest;
    FilterMembers(pool.rest, marked);
  }

  lemma SweepsAll(s: State, budget: nat)
    requires Consistent(s.pool) && s.pool.kept == [] && s.marks.stack == [] && budget >= |s.pool.rest|
    ensures var t := Finish(SweepStep(s, budget));
      !t.inProgress && forall q :: q in t.pool.heap <==> q in s.pool.heap && q in s.marks.marked
  {
    SweepsPool(s.pool, s.marks.marked, budget);
    hide Sweep, Consistent;
  }

  // ----- v is still reachable -----

  /** After the drops and the step, the paths around `v` still lead to `p`, also in the state where `p`
      holds `v`. */
  lemma StillReachable(s: State, t: State, p: Ptr, f: nat, v: Ptr)
    requires Safe(s) && v in s.pool.heap && ReachableAround(s, v, p) && p != v
    requires Safe(t) && !t.inProgress && v !in t.pool.heap && p in t.pool.heap
    requires forall x :: x in s.roots.Targets() && x != v ==> x in t.roots.Targets()
    requires forall q, x :: q in t.pool.heap && x in Edges(s.pool.heap, q) && x != v ==> x in Edges(t.pool.heap, q)
    ensures var u := Fill(t, p, f, v); Reachable(u.pool.heap, u.roots.Targets(), p)
  {
    var u := Fill(t, p, f, v);
    var h, inside := s.pool.heap - {v}, set q | q in t.pool.heap && Reachable(u.pool.heap, u.roots.Targets(), q);
    IdleHoldsAll(t);
    hide Safe, FillPool, Reachable;
    if !Reachable(u.pool.heap, u.roots.Targets(), p) {
      forall x | x in s.roots.Targets() && x != NULL ensures x in inside + {v} {
        if x != v { RootIsReachable(u.pool.heap, u.roots.Targets(), x); }
      }
      forall q, x | q in inside + {v} && x in Edges(h, q) && x != NULL ensures x in inside + {v} {
        assert q != v && x in Edges(s.pool.heap, q);
        if x != v {
          assert Within(Edges(t.pool.heap, q), t.pool.heap.Keys);
          FillEdges(t.pool, p, f, v, q);
          EdgeIsReachable(u.pool.heap, u.roots.Targets(), q, x);
        }
      }
      ClosedHoldsReachable(h, s.roots.Targets(), inside + {v}, p);
    }
  }

  lemma IdleHoldsAll(s: State)
    requires Safe(s) && !s.inProgress
    ensures Closed(s.pool.heap, s.roots.Targets(), s.pool.heap.Keys)
  {
  }

  lemma {:induction false} RunAppend(s: State, xs: seq<Action>, ys: seq<Action>)
    ensures Run(s, xs + ys) == Run(Run(s, xs), ys)
    decreases |xs|
  {
    if xs == [] {
      assert xs + ys == ys;
    } else {
      assert (xs + ys)[1..] == xs[1..] + ys;
      RunAppend(Apply(s, xs[0]), xs[1..], ys);
    }
  }

  lemma RunHead(s: State, a: Action, rest: seq<Action>)
    ensures Run(s, [a] + rest) == Run(Apply(s, a), rest)
    ensures PermittedRun(s, [a] + rest) <==> Permitted(s, a) && PermittedRun(Apply(s, a), rest)
  {
    assert ([a] + rest)[1..] == rest;
  }

  lemma {:induction false} PermittedAppend(s: State, xs: seq<Action>, ys: seq<Action>)
    ensures PermittedRun(s, xs + ys) <==> PermittedRun(s, xs) && PermittedRun(Run(s, xs), ys)
    decreases |xs|
  {
    if xs == [] {
      assert xs + ys == ys;
    } else {
      assert (xs + ys)[1..] == xs[1..] + ys;
      PermittedAppend(Apply(s, xs[0]), xs[1..], ys);
    }
  }

  lemma RunStep(s: State, actions: seq<Action>, budget: nat)
    ensures Run(s, actions + [Collect(budget)]) == Step(Run(s, actions), budget)
  {
    hide Step;
    RunAppend(s, actions, [Collect(budget)]);
    var t := Run(s, actions);
    assert [Collect(budget)][1..] == [];
    assert Run(Step(t, budget), []) == Step(t, budget);
  }

  /** A traced object holds marked objects only, so the pointer is not among those to drop. */
  lemma BlackHoldsMarked(s: State, p: Ptr, f: nat, v: Ptr)
    requires Safe(s) && v in s.pool.heap && NeedsBarrier(s, p, f, v)
    ensures s.pool.heap[p].fields[f] != v && (p, f) !in Cells(s.pool.heap, v) && p != v
  {
    assert v in s.pool.List();
    assert Within(Edges(s.pool.heap, p), s.marks.marked);
    assert s.pool.heap[p].fields[f] in Edges(s.pool.heap, p);
  }

  lemma StepWithPointer(s: State, p: Ptr, f: nat, v: Ptr, budget: nat)
    requires Safe(s) && InMarking(s) && Black(s.marks, p)
    ensures Step(Fill(s, p, f, v), budget) == Fill(Step(s, budget), p, f, v)
  {
    MarkingHoldsAll(s);
    hide Safe, FillPool, Trace, Started;
    forall q | q != p ensures Edges(FillPool(s.pool, p, f, v).heap, q) == Edges(s.pool.heap, q) {
      FillEdges(s.pool, p, f, v, q);
    }
    TraceSkipsBlack(s.pool.heap, FillPool(s.pool, p, f, v).heap, s.marks, TraceBudget(budget), p);
    StepFills(s, budget, p, f, v);
  }

  /** Once they have been scanned, a step does not look at the roots. */
  lemma StepWithRoots(s: State, roots: Roots, budget: nat)
    requires s.inProgress && s.rootsScanned
    ensures Step(s.(roots := roots), budget) == Step(s, budget).(roots := roots)
  {
    hide Trace, Sweep;
    assert Started(s) == s && Started(s.(roots := roots)) == s.(roots := roots);
  }

  /** Drop every other pointer to `v`, then step. */
  lemma StoreLoses(s: State, p: Ptr, f: nat, v: Ptr) returns (actions: seq<Action>)
    requires Safe(s) && v in s.pool.heap && NeedsBarrier(s, p, f, v)
    ensures Deletions(actions)
    ensures var t := Run(Fill(s, p, f, v), actions);
      Reachable(t.pool.heap, t.roots.Targets(), v) && v !in t.pool.heap
  {
    hide Safe, Step, Run, Reachable, Fill, Enough, Unnamed, KeepsOthers, Clears;
    var drops := DropsBefore(s, p, f, v);
    var dropped := Run(s, drops);
    actions := drops + [Collect(Enough(dropped))];
    RunStep(Fill(s, p, f, v), drops, Enough(dropped));
    StepWithPointer(dropped, p, f, v, Enough(dropped));
    StepLoses(s, dropped, p, f, v);
  }

  lemma DropsBefore(s: State, p: Ptr, f: nat, v: Ptr) returns (drops: seq<Action>)
    requires Safe(s) && v in s.pool.heap && NeedsBarrier(s, p, f, v)
    ensures Deletions(drops) && p != v && Run(Fill(s, p, f, v), drops) == Fill(Run(s, drops), p, f, v)
    ensures var t := Run(s, drops);
      && IsWhite(t, v) && t.marks == s.marks && KeepsOthers(s, t, v) && Unnamed(t, v)
      && p in t.pool.heap && t.pool.heap[p].traceable && f < |t.pool.heap[p].fields|
  {
    BlackHoldsMarked(s, p, f, v);
    drops := DropAll(s, v);
    hide Safe, Run, Fill, Cells, ReachableAround, Unnamed, KeepsOthers;
    ClearsDeletes(s, drops, v);
    DropsFill(s, drops, p, f, v);
    DropsKeepShape(s, drops, p);
  }

  lemma StepLoses(s: State, dropped: State, p: Ptr, f: nat, v: Ptr)
    requires Safe(s) && v in s.pool.heap && ReachableAround(s, v, p) && p != v
    requires IsWhite(dropped, v) && KeepsOthers(s, dropped, v) && Unnamed(dropped, v)
    requires p in dropped.marks.marked && p in dropped.pool.heap
    requires dropped.pool.heap[p].traceable && f < |dropped.pool.heap[p].fields|
    ensures var t := Fill(Step(dropped, Enough(dropped)), p, f, v);
      Reachable(t.pool.heap, t.roots.Targets(), v) && v !in t.pool.heap
  {
    hide Safe, Step, Reachable, FillPool, Unnamed, Enough;
    WhiteIsUnnamed(dropped, v);
    StepFrees(dropped, v);
    StepIsSafe(dropped, Enough(dropped));
    StepShrinks(dropped, Enough(dropped));
    var t := Step(dropped, Enough(dropped));
    StepHolds(dropped, t);
    StillReachable(s, t, p, f, v);
    FillHolds(t.pool, p, f, v);
    var u := Fill(t, p, f, v);
    EdgeIsReachable(u.pool.heap, u.roots.Targets(), p, v);
  }

  lemma StepHolds(s: State, t: State)
    requires forall q :: q in t.pool.heap ==> q in s.pool.heap && t.pool.heap[q] == s.pool.heap[q]
    ensures forall q :: q in t.pool.heap ==> Edges(t.pool.heap, q) == Edges(s.pool.heap, q)
  {
  }

  lemma FillHolds(pool: Pool, p: Ptr, f: nat, v: Ptr)
    requires p in pool.heap && pool.heap[p].traceable && f < |pool.heap[p].fields|
    ensures var heap := FillPool(pool, p, f, v).heap; v in Edges(heap, p) && heap.Keys == pool.heap.Keys
  {
    assert pool.heap[p].fields[f := v][f] == v;
  }

  /** The same with a root instead of a field. */
  lemma RootLoses(s: State, roots: Roots, v: Ptr) returns (actions: seq<Action>)
    requires IsWhite(s, v) && v in roots.Targets()
    ensures Deletions(actions)
    ensures var t := Run(s.(roots := roots), actions);
      Reachable(t.pool.heap, t.roots.Targets(), v) && v !in t.pool.heap
  {
    WhiteIsUnnamed(s, v);
    var drops := DropAll(s, v);
    ClearsDeletes(s, drops, v);
    DropsRoots(s, drops, roots);
    var dropped := Run(s, drops);
    MarkingHoldsAll(dropped);
    hide Safe, Step, Run, Reachable, Enough, Cells;
    actions := drops + [Collect(Enough(dropped))];
    RunStep(s.(roots := roots), drops, Enough(dropped));
    StepWithRoots(dropped, roots, Enough(dropped));
    StepFrees(dropped, v);
    var t := Step(dropped, Enough(dropped)).(roots := roots);
    RootIsReachable(t.pool.heap, t.roots.Targets(), v);
  }

  // ----- exactly which actions can lose an object -----

  /** A store of a spared object can lose something, by pointers being dropped and steps being run
      after it, if and only if marking runs, the object stored into has been traced and is reachable
      around the stored one, and the stored one is unmarked. */
  lemma StoreLosesIff(s: State, p: Ptr, f: nat, v: Ptr)
    requires Safe(s) && v in Spared(s)
    ensures CanLose(Apply(s, Store(p, f, v))) <==> NeedsBarrier(s, p, f, v)
  {
    if NeedsBarrier(s, p, f, v) {
      SparedIsAllocated(s, v);
      hide Safe, Run, Reachable;
      var actions := StoreLoses(s, p, f, v);
      StoreFills(s, p, f, v);
      assert Loses(Run(Apply(s, Store(p, f, v)), actions));
    } else {
      OtherStoresLoseNothing(s, p, f, v);
    }
  }

  lemma PermittedNeverLoses(s: State, a: Action)
    requires Safe(s) && Permitted(s, a)
    ensures !CanLose(Apply(s, a))
  {
    hide Safe, Permitted, Apply, Loses, Run;
    ActionIsSafe(s, a);
    forall actions | Deletions(actions) ensures !Loses(Run(Apply(s, a), actions)) {
      SafeNeverLoses(Apply(s, a), actions);
    }
  }

  /** For the root variables and the root table, what Permitted forbids is exactly what can lose. */
  lemma AssignLosesIff(s: State, slot: Slot, v: Ptr)
    requires Safe(s) && v in Spared(s)
    ensures CanLose(Apply(s, Assign(slot, v))) <==> InMarking(s) && slot in s.roots.slots && v !in s.marks.marked
  {
    var a := Assign(slot, v);
    SparedIsAllocated(s, v);
    if InMarking(s) && slot in s.roots.slots && v !in s.marks.marked {
      var roots := Apply(s, a).roots;
      TargetsAre(roots);
      hide Safe, Run, Reachable;
      assert Read(roots.vars, slot) == v;
      var actions := RootLoses(s, roots, v);
      assert Loses(Run(Apply(s, a), actions));
    } else {
      hide Safe, CanLose, Apply;
      PermittedNeverLoses(s, a);
    }
  }

  lemma RegisterLosesIff(s: State, slot: Slot)
    requires Safe(s) && (Read(s.roots.vars, slot) == NULL || Read(s.roots.vars, slot) in Spared(s))
    ensures CanLose(Apply(s, Register(slot))) <==>
      InMarking(s) && Read(s.roots.vars, slot) != NULL && Read(s.roots.vars, slot) !in s.marks.marked
  {
    var a, v := Register(slot), Read(s.roots.vars, slot);
    if InMarking(s) && v != NULL && v !in s.marks.marked {
      SparedIsAllocated(s, v);
      var roots := Apply(s, a).roots;
      TargetsAre(roots);
      hide Safe, Run, Reachable;
      assert slot in roots.slots;
      var actions := RootLoses(s, roots, v);
      assert Loses(Run(Apply(s, a), actions));
    } else {
      hide Safe, CanLose, Apply;
      PermittedNeverLoses(s, a);
    }
  }

  // ----- the marking clause of Permitted is needed -----

  /** A run of permitted actions after which something reachable is no longer allocated. */
  ghost predicate LosesLater(s: State) {
    exists actions :: PermittedRun(s, actions) && Loses(Run(s, actions))
  }

  lemma {:induction false} DeletionsArePermitted(s: State, actions: seq<Action>)
    requires Deletions(actions)
    ensures PermittedRun(s, actions)
    decreases |actions|
  {
    hide Apply, Permitted;
    if actions != [] {
      DeletionShrinks(s, actions[0]);
      DeletionsArePermitted(Apply(s, actions[0]), actions[1..]);
    }
  }

  lemma {:induction false} UnusedSlot(slots: seq<Slot>) returns (slot: Slot)
    ensures slot !in slots && forall x :: x in slots ==> x < slot
  {
    if slots == [] {
      slot := 0;
    } else {
      var rest := UnusedSlot(slots[1..]);
      assert forall x :: x in slots ==> x == slots[0] || x in slots[1..];
      slot := if slots[0] < rest then rest else slots[0] + 1;
    }
  }

  lemma FillSpares(s: State, p: Ptr, f: nat, v: Ptr)
    ensures Spared(Fill(s, p, f, v)) == Spared(s)
  {
  }

  /** Naming an object that a root may hold by a new root is permitted, and it does not matter whether
      that is done before or after the store. */
  lemma NameIt(s: State, p: Ptr, f: nat, v: Ptr, slot: Slot)
    requires Safe(s) && RootMayHold(s, p) && p != NULL && slot !in s.roots.slots
    ensures var named := Apply(Apply(s, Assign(slot, p)), Register(slot));
      && Safe(named) && named == s.(roots := named.roots) && p in named.roots.Targets()
      && PermittedRun(Fill(s, p, f, v), [Assign(slot, p), Register(slot)])
      && Run(Fill(s, p, f, v), [Assign(slot, p), Register(slot)]) == Fill(named, p, f, v)
  {
    hide Safe, FillPool, Spared;
    var holding := Apply(s, Assign(slot, p));
    SameSpared(s, holding);
    ActionIsSafe(s, Assign(slot, p));
    ActionIsSafe(holding, Register(slot));
    var named := Apply(holding, Register(slot));
    TargetsAre(named.roots);
    FillSpares(holding, p, f, v);
    assert slot in named.roots.slots && Read(named.roots.vars, slot) == p;
    RunHead(Fill(s, p, f, v), Assign(slot, p), [Register(slot)]);
    RunHead(Fill(holding, p, f, v), Register(slot), []);
    assert [Assign(slot, p)] + [Register(slot)] == [Assign(slot, p), Register(slot)];
    assert [Register(slot)] + [] == [Register(slot)];
  }

  lemma SameSpared(s: State, t: State)
    requires t == s.(roots := t.roots)
    ensures Spared(t) == Spared(s)
  {
  }

  lemma MarkedIsNotNull(s: State, p: Ptr)
    requires Safe(s) && p in s.pool.heap
    ensures p != NULL
  {
    assert p in s.pool.List();
  }

  /** With `p` named by a root, the forbidden store of `v` into it is one that needs the barrier. */
  lemma NamedNeedsBarrier(s: State, named: State, p: Ptr, f: nat, v: Ptr)
    requires Safe(s) && v in Spared(s) && !MayHold(s, p, v)
    requires p in s.pool.heap && s.pool.heap[p].traceable && f < |s.pool.heap[p].fields| && p != NULL
    requires named == s.(roots := named.roots) && p in named.roots.Targets()
    ensures NeedsBarrier(named, p, f, v)
  {
    hide Safe, Reachable, Spared;
    RootIsReachable(named.pool.heap - {v}, named.roots.Targets(), p);
  }

  lemma StoreLosesLater(s: State, p: Ptr, f: nat, v: Ptr)
    requires Safe(s) && v in Spared(s) && !MayHold(s, p, v)
    requires p in s.pool.heap && s.pool.heap[p].traceable && f < |s.pool.heap[p].fields|
    ensures LosesLater(Fill(s, p, f, v))
  {
    SparedIsAllocated(s, v);
    MarkedIsNotNull(s, p);
    var slot := UnusedSlot(s.roots.slots);
    NameIt(s, p, f, v, slot);
    var naming, named := [Assign(slot, p), Register(slot)], Apply(Apply(s, Assign(slot, p)), Register(slot));
    NamedNeedsBarrier(s, named, p, f, v);
    hide Safe, Reachable, Fill, Apply, Run, PermittedRun, Spared, MayHold, NeedsBarrier;
    var actions := StoreLoses(named, p, f, v);
    DeletionsArePermitted(Fill(named, p, f, v), actions);
    PermittedAppend(Fill(s, p, f, v), naming, actions);
    RunAppend(Fill(s, p, f, v), naming, actions);
    assert Loses(Run(Fill(s, p, f, v), naming + actions));
  }

  /** A store of a spared object can be followed by permitted actions that lose something reachable if
      and only if Permitted forbids it and it adds an edge. GcForbidden drops the condition on `v`. */
  lemma ForbiddenStoreLosesIff(s: State, p: Ptr, f: nat, v: Ptr)
    requires Safe(s) && v in Spared(s)
    ensures LosesLater(Apply(s, Store(p, f, v))) <==>
      !Permitted(s, Store(p, f, v)) && p in s.pool.heap && s.pool.heap[p].traceable && f < |s.pool.heap[p].fields|
  {
    StoreFills(s, p, f, v);
    if !MayHold(s, p, v) && p in s.pool.heap && s.pool.heap[p].traceable && f < |s.pool.heap[p].fields| {
      StoreLosesLater(s, p, f, v);
    } else {
      if MayHold(s, p, v) { ActionIsSafe(s, Store(p, f, v)); } else { HarmlessFill(s, p, f, v); }
      hide Safe, Loses, Run, PermittedRun, Fill, MayHold;
      forall actions | PermittedRun(Fill(s, p, f, v), actions) ensures !Loses(Run(Fill(s, p, f, v), actions)) {
        RunIsSafe(Fill(s, p, f, v), actions);
        SafeLosesNothing(Run(Fill(s, p, f, v), actions));
      }
    }
  }

  // ----- a concrete run -----

  /** Object 1 holds 3, object 2 holds nothing; roots 10 and 11 name 1 and 2. */
  function ThreeObjects(): State {
    var heap := map[1 := Object(8, true, false, [3]), 2 := Object(8, true, false, [NULL]), 3 := Object(8, true, false, [])];
    Create(0, 0).(pool := Pool([1, 2, 3], [], heap, Tally(3, 24, 0, 0), Log([], [])),
                  roots := Roots([10, 11], map[10 := 1, 11 := 2]))
  }

  /** The program that builds it. */
  function Building(): seq<Action> {
    Allocating() + Naming()
  }

  function Allocating(): seq<Action> {
    [Allocate(3, 8, true, false, 0), Allocate(2, 8, true, false, 1), Allocate(1, 8, true, false, 1)]
  }

  function Naming(): seq<Action> {
    [Assign(10, 1), Assign(11, 2), Register(10), Register(11), Store(1, 0, 3)]
  }

  function Fresh(fields: nat): Object {
    Object(8, true, false, seq(fields, _ => NULL))
  }

  /** A fresh collector with objects that nothing names yet. */
  function Unrooted(list: seq<Ptr>, heap: Heap, bytes: nat): State {
    Create(0, 0).(pool := Pool(list, [], heap, Tally(|list|, bytes, 0, 0), Log([], [])))
  }

  lemma AllocateMore(list: seq<Ptr>, heap: Heap, bytes: nat, p: Ptr, fields: nat)
    requires bytes <= 1000
    ensures Apply(Unrooted(list, heap, bytes), Allocate(p, 8, true, false, fields)) ==
      Unrooted([p] + list, heap[p := Fresh(fields)], bytes + 8)
  {
  }

  function Allocated(): State {
    Unrooted([1, 2, 3], map[3 := Fresh(0), 2 := Fresh(1), 1 := Fresh(1)], 24)
  }

  lemma AllocatingRun()
    ensures PermittedRun(Create(0, 0), Allocating()) && Run(Create(0, 0), Allocating()) == Allocated()
  {
    hide Unrooted, Apply;
    assert Create(0, 0) == Unrooted([], map[], 0) by {
      EmptyIsUnrooted();
    }
    var one, two := map[3 := Fresh(0)], map[3 := Fresh(0), 2 := Fresh(1)];
    AllocateMore([], map[], 0, 3, 0);
    AllocateMore([3], one, 8, 2, 1);
    AllocateMore([2, 3], two, 16, 1, 1);
    UnrootedHeap([], map[], 0);
    UnrootedHeap([3], one, 8);
    UnrootedHeap([2, 3], two, 16);
    assert [3] + [] == [3] && [2] + [3] == [2, 3] && [1] + [2, 3] == [1, 2, 3];
    var last, lastTwo := [Allocate(1, 8, true, false, 1)], [Allocate(2, 8, true, false, 1), Allocate(1, 8, true, false, 1)];
    RunHead(Unrooted([], map[], 0), Allocate(3, 8, true, false, 0), lastTwo);
    RunHead(Unrooted([3], one, 8), Allocate(2, 8, true, false, 1), last);
    RunHead(Unrooted([2, 3], two, 16), Allocate(1, 8, true, false, 1), []);
    assert [Allocate(3, 8, true, false, 0)] + lastTwo == Allocating();
    assert [Allocate(2, 8, true, false, 1)] + last == lastTwo && [Allocate(1, 8, true, false, 1)] + [] == last;
  }

  lemma EmptyIsUnrooted()
    ensures Create(0, 0) == Unrooted([], map[], 0)
  {
  }

  lemma UnrootedHeap(list: seq<Ptr>, heap: Heap, bytes: nat)
    ensures Unrooted(list, heap, bytes).pool.heap == heap
  {
  }

  lemma NamingRun()
    ensures PermittedRun(Allocated(), Naming()) && Run(Allocated(), Naming()) == ThreeObjects()
  {
    var s0 := Allocated();
    var s1 := Apply(s0, Assign(10, 1));
    var s2 := Apply(s1, Assign(11, 2));
    var s3 := Apply(s2, Register(10));
    var s4 := Apply(s3, Register(11));
    var s5 := Apply(s4, Store(1, 0, 3));
    assert s4.roots == Roots([10, 11], map[10 := 1, 11 := 2]) && s4.pool == s0.pool;
    assert s5 == ThreeObjects() by {
      assert Fresh(0).fields == [] && Fresh(1).fields == [NULL];
      assert Fresh(1).fields[0 := 3] == [3];
      assert s5.pool.heap == ThreeObjects().pool.heap;
    }
    assert Spared(s0) == {1, 2, 3};
    assert Spared(s2) == Spared(s3) == Spared(s4) == Spared(s0);
    hide Apply, Allocated, ThreeObjects, Spared;
    RunHead(s4, Store(1, 0, 3), []);
    assert [Store(1, 0, 3)] + [] == [Store(1, 0, 3)];
    RunHead(s3, Register(11), [Store(1, 0, 3)]);
    RunHead(s2, Register(10), [Register(11), Store(1, 0, 3)]);
    RunHead(s1, Assign(11, 2), [Register(10), Register(11), Store(1, 0, 3)]);
    RunHead(s0, Assign(10, 1), [Assign(11, 2), Register(10), Register(11), Store(1, 0, 3)]);
  }

  lemma ThreeObjectsBuilt()
    ensures PermittedRun(Create(0, 0), Building()) && Run(Create(0, 0), Building()) == ThreeObjects()
  {
    AllocatingRun();
    NamingRun();
    hide ThreeObjects, Allocated, Allocating, Naming, Create;
    RunAppend(Create(0, 0), Allocating(), Naming());
    PermittedAppend(Create(0, 0), Allocating(), Naming());
  }

  lemma ThreeObjectsStep()
    ensures var s := Step(ThreeObjects(), 2);
      && s.marks == Marks({1, 2}, [1], 2) && s.inProgress && s.rootsScanned
      && s.pool == Pool([], [1, 2, 3], ThreeObjects().pool.heap, Tally(3, 24, 0, 0), Log([], []))
      && s.roots == ThreeObjects().roots
  {
    var s := ThreeObjects();
    assert s.roots.Targets() == [1, 2];
    var m := Marks({1, 2}, [1, 2], 2);
    assert MarkAll(Marks({1}, [1], 1), [2]) == m;
    assert Started(s).marks == m;
    assert TraceOne(s.pool.heap, m) == MarkAll(Marks({1, 2}, [1], 2), [NULL]) == Marks({1, 2}, [1], 2);
    assert Trace(s.pool.heap, m, 1) == Trace(s.pool.heap, TraceOne(s.pool.heap, m), 0);
  }

  function TamperedHeap(): Heap {
    map[1 := Object(8, true, false, [NULL]), 2 := Object(8, true, false, [3]), 3 := Object(8, true, false, [])]
  }

  lemma Tampered()
    ensures var stored := Apply(Step(ThreeObjects(), 2), Store(2, 0, 3));
      var t := Apply(stored, Store(1, 0, NULL));
      && t == Step(ThreeObjects(), 2).(pool := Pool([], [1, 2, 3], TamperedHeap(), Tally(3, 24, 0, 0), Log([], [])))
      && !Permitted(Step(ThreeObjects(), 2), Store(2, 0, 3)) && Permitted(stored, Store(1, 0, NULL))
  {
    hide Step;
    ThreeObjectsStep();
    var s := Step(ThreeObjects(), 2);
    var stored := Apply(s, Store(2, 0, 3));
    assert s.pool.heap[2].fields[0 := 3] == [3] && stored.pool.heap[1].fields[0 := NULL] == [NULL];
    assert Apply(stored, Store(1, 0, NULL)).pool.heap == TamperedHeap();
  }

  lemma TamperedTrace(t: State)
    requires t.marks == Marks({1, 2}, [1], 2) && t.inProgress && t.rootsScanned && t.pool.heap == TamperedHeap()
    ensures TraceStep(Started(t), 3) == t.(marks := Marks({1, 2}, [], 2))
  {
    assert TraceOne(t.pool.heap, t.marks) == MarkAll(Marks({1, 2}, [], 2), [NULL]) == Marks({1, 2}, [], 2);
  }

  lemma TamperedSweep(t: State)
    requires t.pool == Pool([], [1, 2, 3], TamperedHeap(), Tally(3, 24, 0, 0), Log([], [])) && t.marks.marked == {1, 2}
    ensures var heap := SweepStep(t, 3).pool.heap;
      && 3 !in heap && 2 in heap && heap[2] == Object(8, true, false, [3])
  {
    hide Sweep, Finalizable, Bytes, Only;
    SweepEffect(t.pool, {1, 2}, 3);
    assert [1, 2, 3][..3] == [1, 2, 3];
    FilterMembers([1, 2, 3], {1, 2});
  }

  lemma TamperedLoses(t: State)
    requires t.marks == Marks({1, 2}, [1], 2) && t.inProgress && t.rootsScanned && t.roots.Targets() == [1, 2]
    requires t.pool == Pool([], [1, 2, 3], TamperedHeap(), Tally(3, 24, 0, 0), Log([], []))
    ensures var s := Step(t, 6); Reachable(s.pool.heap, s.roots.Targets(), 3) && 3 !in s.pool.heap
  {
    TamperedTrace(t);
    hide SweepStep, Started, TraceStep, Trace;
    assert TraceBudget(6) == SweepBudget(6) == 3;
    var traced := TraceStep(Started(t), 3);
    TamperedSweep(traced);
    SweepStepRoots(traced, 3);
    var s := Step(t, 6);
    assert IsPath(s.pool.heap, s.roots.Targets(), [2, 3]);
  }

  /** Without the marking clause of MayHold the safety theorem is false: 2 has been traced when it
      is given 3 and 1 loses it, so the next step frees 3 although root 11 still reaches it. */
  lemma LostWithoutBarrier()
    ensures var stored := Apply(Step(ThreeObjects(), 2), Store(2, 0, 3));
      var s := Step(Apply(stored, Store(1, 0, NULL)), 6);
      && PermittedRun(Create(0, 0), Building()) && Run(Create(0, 0), Building()) == ThreeObjects()
      && !Permitted(Step(ThreeObjects(), 2), Store(2, 0, 3))
      && Permitted(stored, Store(1, 0, NULL))
      && Reachable(s.pool.heap, s.roots.Targets(), 3) && 3 !in s.pool.heap
  {
    ThreeObjectsBuilt();
    ThreeObjectsStep();
    Tampered();
    TamperedRoots();
    hide Permitted, Step, ThreeObjects, Building, Create, Run, PermittedRun;
    TamperedLoses(Apply(Apply(Step(ThreeObjects(), 2), Store(2, 0, 3)), Store(1, 0, NULL)));
  }

  lemma SweepStepRoots(s: State, budget: nat)
    ensures SweepStep(s, budget).roots == s.roots
  {
  }

  lemma TamperedRoots()
    ensures ThreeObjects().roots.Targets() == [1, 2]
  {
  }
}
