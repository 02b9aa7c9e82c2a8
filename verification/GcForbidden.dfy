/** What Permitted forbids, action by action, is what can lose an object: also when the object stored is
    one that the running cycle has condemned, as a fresh object may be (see GcAllocation). */
module GcForbidden {
  import opened GcModel
  import opened GcMarking
  import opened GcSweeping
  import opened GcCycle
  import opened GcRuns
  import opened GcBarrier
  import opened GcLostObjects

  predicate AddsEdge(s: State, p: Ptr, f: nat) {
    p in s.pool.heap && s.pool.heap[p].traceable && f < |s.pool.heap[p].fields|
  }

  /** The stores after which dropping pointers and stepping can lose something: of a spared object, those
      that need the barrier; of a condemned one, those into an object that is reachable. */
  ghost predicate Endangers(s: State, p: Ptr, f: nat, v: Ptr) {
    if v in Spared(s) then NeedsBarrier(s, p, f, v)
    else AddsEdge(s, p, f) && Reachable(s.pool.heap, s.roots.Targets(), p)
  }

  // ----- condemned objects -----

  lemma ReachIsClosed(s: State)
    requires Safe(s)
    ensures Closed(s.pool.heap, s.roots.Targets(), ReachSet(s))
  {
    var heap, targets, r := s.pool.heap, s.roots.Targets(), ReachSet(s);
    forall q | Reachable(heap, targets, q) ensures q in r {
      ReachableIsSpared(s, q);
    }
    hide Safe, Reachable;
    forall q | q in targets && q != NULL ensures q in r {
      RootIsReachable(heap, targets, q);
    }
    forall q, x | q in r && x in Edges(heap, q) && x != NULL ensures x in r {
      EdgeIsReachable(heap, targets, q, x);
    }
  }

  /** Condemned objects are on no path. */
  lemma AroundCondemned(s: State, v: Ptr, p: Ptr)
    requires Safe(s) && v !in Spared(s) && Reachable(s.pool.heap, s.roots.Targets(), p)
    ensures ReachableAround(s, v, p) && p != v
  {
    var heap, targets, around := s.pool.heap, s.roots.Targets(), Around(s, v);
    ReachableIsSpared(s, p);
    AroundIsClosed(s, v);
    SparedIsClosed(s);
    hide Safe, Spared, Reachable;
    assert Closed(heap - {v}, targets, Spared(s));
    forall q | q in around ensures q != v {
      ClosedHoldsReachable(heap - {v}, targets, Spared(s), q);
    }
    forall q | q in around ensures Within(Edges(heap, q), around) {
      assert Edges(heap - {v}, q) == Edges(heap, q);
    }
    ClosedHoldsReachable(heap, targets, around, p);
  }

  lemma SweepsRest(pool: Pool, marked: set<Ptr>, budget: nat)
    requires NoDuplicates(pool.rest) && budget >= |pool.rest|
    ensures var t := Sweep(pool, marked, budget).pool;
      t.rest == [] && forall q :: q in t.heap <==> q in pool.heap && (q !in pool.rest || q in marked)
  {
    SweepEffect(pool, marked, budget);
    hide Sweep, NoDuplicates, Bytes, Finalizable, Only, Without;
    assert pool.rest[..|pool.rest|] == pool.rest;
    FilterMembers(pool.rest, marked);
  }

  lemma SweepingStepIs(s: State, budget: nat)
    requires InSweeping(s) && s.rootsScanned
    ensures Step(s, budget) == Finish(SweepStep(s, SweepBudget(budget)))
  {
    hide Sweep;
    assert Started(s) == s && TraceStep(s, TraceBudget(budget)) == s;
  }

  /** One step with enough budget frees exactly the condemned objects and ends the cycle. */
  lemma SweepEnds(s: State)
    requires Safe(s) && InSweeping(s)
    ensures var t := Step(s, Enough(s));
      Safe(t) && !t.inProgress && t.roots == s.roots && forall q :: q in t.pool.heap <==> q in Spared(s)
  {
    StepIsSafe(s, Enough(s));
    StepShrinks(s, Enough(s));
    EnoughIsEnough(s);
    SweepingStepIs(s, Enough(s));
    NoDuplicatesAppend(s.pool.kept, s.pool.rest);
    SweepsRest(s.pool, s.marks.marked, |s.pool.rest| + 1);
    hide Sweep, Step, NoDuplicates, Bytes, Closed;
    forall q ensures q in s.pool.heap && (q !in s.pool.rest || q in s.marks.marked) <==> q in Spared(s) {
      assert q in s.pool.List() <==> q in s.pool.kept || q in s.pool.rest;
    }
  }

  lemma SweepingStepFills(s: State, budget: nat, p: Ptr, f: nat, v: Ptr)
    requires InSweeping(s) && s.rootsScanned
    ensures Step(Fill(s, p, f, v), budget) == Fill(Step(s, budget), p, f, v)
  {
    hide Sweep, FillPool;
    StepFills(s, budget, p, f, v);
  }

  lemma ScannedWhileRunning(s: State)
    requires Safe(s) && s.inProgress
    ensures s.rootsScanned
  {
  }

  lemma UnsparedIsSweeping(s: State, v: Ptr)
    requires Safe(s) && v in s.pool.heap && v !in Spared(s)
    ensures InSweeping(s) && v != NULL
  {
    assert v in s.pool.List();
  }

  lemma OneStep(s: State, budget: nat)
    ensures Deletions([Collect(budget)]) && Run(s, [Collect(budget)]) == Step(s, budget)
  {
    hide Step;
    assert [Collect(budget)][1..] == [];
    assert Run(Step(s, budget), []) == Step(s, budget);
  }

  /** The condemned object is swept and the object that holds it is not. */
  lemma CondemnedIsLost(s: State, p: Ptr, f: nat, v: Ptr)
    requires Safe(s) && v in s.pool.heap && v !in Spared(s) && AddsEdge(s, p, f)
    requires Reachable(s.pool.heap, s.roots.Targets(), p)
    ensures var u := Step(Fill(s, p, f, v), Enough(s)); Reachable(u.pool.heap, u.roots.Targets(), v) && v !in u.pool.heap
  {
    UnsparedIsSweeping(s, v);
    ScannedWhileRunning(s);
    ReachableIsSpared(s, p);
    AroundCondemned(s, v, p);
    SweepEnds(s);
    StepShrinks(s, Enough(s));
    hide Safe, Step, Reachable, FillPool, Enough, Spared;
    var t := Step(s, Enough(s));
    SweepingStepFills(s, Enough(s), p, f, v);
    StepHolds(s, t);
    StillReachable(s, t, p, f, v);
    FillHolds(t.pool, p, f, v);
    var u := Fill(t, p, f, v);
    EdgeIsReachable(u.pool.heap, u.roots.Targets(), p, v);
  }

  /** Which stores of an allocated object can lose something, in every phase. */
  lemma StoreLosesExactly(s: State, p: Ptr, f: nat, v: Ptr)
    requires Safe(s) && v in s.pool.heap
    ensures CanLose(Apply(s, Store(p, f, v))) <==> Endangers(s, p, f, v)
  {
    StoreFills(s, p, f, v);
    if v in Spared(s) {
      StoreLosesIff(s, p, f, v);
    } else {
      UnsparedIsSweeping(s, v);
      hide Safe, Run, Reachable, Loses, Fill, Spared, Step, Enough;
      if Endangers(s, p, f, v) {
        CondemnedIsLost(s, p, f, v);
        OneStep(Fill(s, p, f, v), Enough(s));
        LostIs(Step(Fill(s, p, f, v), Enough(s)), v);
        assert Loses(Run(Fill(s, p, f, v), [Collect(Enough(s))]));
      } else {
        forall actions | Deletions(actions) ensures !Loses(Run(Fill(s, p, f, v), actions)) {
          OtherCondemnedStores(s, p, f, v, actions);
        }
      }
    }
  }

  lemma LostIs(s: State, v: Ptr)
    requires Reachable(s.pool.heap, s.roots.Targets(), v) && v !in s.pool.heap
    ensures Loses(s)
  {
  }

  lemma OtherCondemnedStores(s: State, p: Ptr, f: nat, v: Ptr, actions: seq<Action>)
    requires Safe(s) && InSweeping(s) && Deletions(actions)
    requires !AddsEdge(s, p, f) || !Reachable(s.pool.heap, s.roots.Targets(), p)
    ensures !Loses(Run(Fill(s, p, f, v), actions))
  {
    if !AddsEdge(s, p, f) {
      HarmlessFill(s, p, f, v);
      SafeNeverLoses(Fill(s, p, f, v), actions);
    } else {
      ReachIsClosed(s);
      assert Elements([]) == {};
      ApartNeverLoses(s, p, ReachSet(s), f, v, actions);
    }
  }

  // ----- roots -----

  lemma RootOfCondemned(s: State, roots: Roots, v: Ptr)
    requires Safe(s) && v in s.pool.heap && v !in Spared(s) && v in roots.Targets()
    ensures CanLose(s.(roots := roots))
  {
    UnsparedIsSweeping(s, v);
    ScannedWhileRunning(s);
    SweepEnds(s);
    hide Safe, Step, Reachable, Enough, Spared, Run, Loses;
    StepWithRoots(s, roots, Enough(s));
    var t := Step(s, Enough(s)).(roots := roots);
    RootIsReachable(t.pool.heap, roots.Targets(), v);
    LostIs(t, v);
    OneStep(s.(roots := roots), Enough(s));
    assert Loses(Run(s.(roots := roots), [Collect(Enough(s))]));
  }

  lemma ForbiddenRootLoses(s: State, roots: Roots, v: Ptr)
    requires Safe(s) && v in s.pool.heap && !RootMayHold(s, v) && v in roots.Targets()
    ensures CanLose(s.(roots := roots))
  {
    if InMarking(s) {
      MarkingHoldsAll(s);
      hide Safe, Run, Reachable;
      var actions := RootLoses(s, roots, v);
      assert Loses(Run(s.(roots := roots), actions));
    } else {
      RootOfCondemned(s, roots, v);
    }
  }

  /** For the root variables and the root table, what Permitted forbids is exactly what can lose. */
  lemma AssignLosesExactly(s: State, slot: Slot, v: Ptr)
    requires Safe(s) && v in s.pool.heap
    ensures CanLose(Apply(s, Assign(slot, v))) <==> !Permitted(s, Assign(slot, v))
  {
    var a := Assign(slot, v);
    if Permitted(s, a) {
      PermittedNeverLoses(s, a);
    } else {
      var roots := Apply(s, a).roots;
      TargetsAre(roots);
      assert Read(roots.vars, slot) == v;
      hide Safe, CanLose;
      ForbiddenRootLoses(s, roots, v);
    }
  }

  lemma RegisterLosesExactly(s: State, slot: Slot)
    requires Safe(s) && (Read(s.roots.vars, slot) == NULL || Read(s.roots.vars, slot) in s.pool.heap)
    ensures CanLose(Apply(s, Register(slot))) <==> !Permitted(s, Register(slot))
  {
    var a := Register(slot);
    if Permitted(s, a) {
      PermittedNeverLoses(s, a);
    } else {
      var roots := Apply(s, a).roots;
      TargetsAre(roots);
      assert slot in roots.slots;
      hide Safe, CanLose;
      ForbiddenRootLoses(s, roots, Read(s.roots.vars, slot));
    }
  }

  // ----- any permitted continuation -----

  /** `p` itself is condemned: it will be freed before anything can lead to it. */
  ghost predicate IsDoomed(s: State, p: Ptr) {
    Safe(s) && InSweeping(s) && p in s.pool.heap && p !in Spared(s)
  }

  lemma DoomedLosesNothing(s: State, p: Ptr, f: nat, v: Ptr)
    requires IsDoomed(s, p)
    ensures !Loses(Fill(s, p, f, v))
  {
    SparedIsClosed(s);
    assert Elements([]) == {};
    ApartLosesNothing(s, p, Spared(s), f, v);
  }

  lemma SamePermits(s: State, p: Ptr, f: nat, v: Ptr, a: Action)
    ensures Permitted(Fill(s, p, f, v), a) <==> Permitted(s, a)
  {
    FillSpares(s, p, f, v);
    FillKeys(s.pool, p, f, v);
    hide FillPool, Spared;
  }

  /** Sweeping spares nothing that was condemned. */
  lemma SweepSparesNoMore(s: State, budget: nat)
    requires Safe(s) && InSweeping(s)
    ensures var t := Step(s, budget);
      forall q :: q in t.pool.heap && (!t.inProgress || q in Spared(t)) ==> q in Spared(s)
  {
    ScannedWhileRunning(s);
    SweepingStepIs(s, budget);
    StepIsSafe(s, budget);
    var t, n := Step(s, budget), SweepBudget(budget);
    NoDuplicatesAppend(s.pool.kept, s.pool.rest);
    SweepEffect(s.pool, s.marks.marked, n);
    FilterMembers(s.pool.rest[..Min(n, |s.pool.rest|)], s.marks.marked);
    HeapOfList(t);
    hide Step, Sweep, Only, Without, NoDuplicates, Bytes, Finalizable, Closed;
    assert forall q :: q in t.pool.kept ==> q in Spared(s);
    assert t.marks.marked <= s.marks.marked;
    if !t.inProgress { assert t.pool.List() == t.pool.kept + []; }
  }

  lemma DoomedStep(s: State, p: Ptr, f: nat, v: Ptr, budget: nat)
    requires IsDoomed(s, p)
    ensures var t := Step(s, budget); Safe(t) && Step(Fill(s, p, f, v), budget) == Fill(t, p, f, v) && (p in t.pool.heap ==> IsDoomed(t, p))
  {
    ScannedWhileRunning(s);
    SweepingStepFills(s, budget, p, f, v);
    SweepSparesNoMore(s, budget);
    StepIsSafe(s, budget);
    StackStaysEmpty(s, budget);
    hide Step, Safe, Fill, Spared;
  }

  lemma StackStaysEmpty(s: State, budget: nat)
    requires InSweeping(s) && s.rootsScanned
    ensures Step(s, budget).marks.stack == []
  {
    SweepingStepIs(s, budget);
    hide Sweep, Step;
  }

  lemma LinkFills(s: State, p: Ptr, f: nat, v: Ptr, q: Ptr, size: nat, traceable: bool, finalizable: bool, fields: nat)
    requires p in s.pool.heap && q != p
    ensures Link(Fill(s, p, f, v), q, size, traceable, finalizable, fields) == Fill(Link(s, q, size, traceable, finalizable, fields), p, f, v)
  {
    var a := Link(Fill(s, p, f, v), q, size, traceable, finalizable, fields);
    var b := Fill(Link(s, q, size, traceable, finalizable, fields), p, f, v);
    assert a.pool.heap == b.pool.heap;
  }

  lemma DoomedLink(s: State, p: Ptr, q: Ptr, size: nat, traceable: bool, finalizable: bool, fields: nat)
    requires IsDoomed(s, p) && q != NULL && q !in s.pool.heap
    ensures IsDoomed(Link(s, q, size, traceable, finalizable, fields), p)
  {
    LinkIsSafe(s, q, size, traceable, finalizable, fields);
    LinkSpares(s, q, size, traceable, finalizable, fields);
    LinkKeepsRest(s, q, size, traceable, finalizable, fields);
    hide Safe, Spared;
  }

  lemma DoomedAllocate(s: State, p: Ptr, f: nat, v: Ptr, q: Ptr, size: nat, traceable: bool, finalizable: bool, fields: nat)
    requires IsDoomed(s, p) && q != NULL && q !in s.pool.heap
    ensures var t := Alloc(s, q, size, traceable, finalizable, fields);
      && Safe(t) && Alloc(Fill(s, p, f, v), q, size, traceable, finalizable, fields) == Fill(t, p, f, v)
      && (p in t.pool.heap ==> IsDoomed(t, p))
  {
    LinkFills(s, p, f, v, q, size, traceable, finalizable, fields);
    DoomedLink(s, p, q, size, traceable, finalizable, fields);
    var linked := Link(s, q, size, traceable, finalizable, fields);
    DoomedStep(linked, p, f, v, 128);
    hide Link, Step, IsDoomed, Safe, FillPool;
    FillTally(linked, p, f, v);
    IsDoomedIsSafe(linked, p);
  }

  lemma FillTally(s: State, p: Ptr, f: nat, v: Ptr)
    ensures Fill(s, p, f, v).pool.tally == s.pool.tally
  {
  }

  lemma IsDoomedIsSafe(s: State, p: Ptr)
    requires IsDoomed(s, p)
    ensures Safe(s)
  {
  }

  lemma DoomedOther(s: State, p: Ptr, f: nat, v: Ptr, a: Action)
    requires IsDoomed(s, p) && Permitted(s, a) && !a.Collect? && !a.Allocate?
    ensures var t := Apply(s, a); IsDoomed(t, p) && Apply(Fill(s, p, f, v), a) == if a.Store? && a.p == p && a.field == f then t else Fill(t, p, f, v)
  {
    ActionIsSafe(s, a);
    OthersKeepPlace(s, a);
    OtherFills(s, p, f, v, a);
    hide Safe, Spared, Apply, Fill, Permitted;
  }

  lemma OtherFills(s: State, p: Ptr, f: nat, v: Ptr, a: Action)
    requires !a.Collect? && !a.Allocate?
    ensures Apply(Fill(s, p, f, v), a) == if a.Store? && a.p == p && a.field == f then Apply(s, a) else Fill(Apply(s, a), p, f, v)
  {
    hide FillPool;
    if a.Store? {
      StoreFills(s, a.p, a.field, a.value);
      StoreFills(Fill(s, p, f, v), a.p, a.field, a.value);
      SetTwice(s.pool, p, f, v, a.p, a.field, a.value);
    }
  }

  lemma OthersKeepPlace(s: State, a: Action)
    requires !a.Collect? && !a.Allocate?
    ensures var t := Apply(s, a); t.inProgress == s.inProgress && t.marks == s.marks && t.pool.heap.Keys == s.pool.heap.Keys && Spared(t) == Spared(s)
  {
  }

  lemma FillOfFreed(s: State, p: Ptr, f: nat, v: Ptr)
    requires p !in s.pool.heap
    ensures Fill(s, p, f, v) == s
  {
  }

  lemma SafeRunLosesNothing(s: State, actions: seq<Action>)
    requires Safe(s) && PermittedRun(s, actions)
    ensures !Loses(Run(s, actions))
  {
    RunIsSafe(s, actions);
    SafeLosesNothing(Run(s, actions));
  }

  lemma {:induction false} DoomedNeverLoses(s: State, p: Ptr, f: nat, v: Ptr, actions: seq<Action>)
    requires IsDoomed(s, p) && PermittedRun(Fill(s, p, f, v), actions)
    ensures !Loses(Run(Fill(s, p, f, v), actions))
    decreases |actions|
  {
    hide IsDoomed, Safe, Fill, Loses, Permitted, Step, Alloc;
    if actions == [] {
      DoomedLosesNothing(s, p, f, v);
    } else {
      var a, rest := actions[0], actions[1..];
      SamePermits(s, p, f, v, a);
      DoomedAction(s, p, f, v, a);
      var t := Apply(s, a);
      if Apply(Fill(s, p, f, v), a) == t {
        SafeRunLosesNothing(t, rest);
      } else if p in t.pool.heap {
        DoomedNeverLoses(t, p, f, v, rest);
      } else {
        FillOfFreed(t, p, f, v);
        SafeRunLosesNothing(t, rest);
      }
    }
  }

  lemma DoomedAction(s: State, p: Ptr, f: nat, v: Ptr, a: Action)
    requires IsDoomed(s, p) && Permitted(s, a)
    ensures var t, u := Apply(s, a), Apply(Fill(s, p, f, v), a);
      Safe(t) && (u == t || u == Fill(t, p, f, v)) && (p in t.pool.heap ==> IsDoomed(t, p))
  {
    hide IsDoomed, Safe, Fill, Step, Alloc;
    if a.Collect? {
      DoomedStep(s, p, f, v, a.budget);
    } else if a.Allocate? {
      DoomedAllocate(s, p, f, v, a.p, a.size, a.traceable, a.finalizable, a.fields);
    } else {
      DoomedOther(s, p, f, v, a);
      IsDoomedIsSafe(Apply(s, a), p);
    }
  }

  /** With `p` named by a root, the next steps sweep the condemned object that was stored into it. */
  lemma NamedLosesCondemned(s: State, named: State, p: Ptr, f: nat, v: Ptr)
    requires Safe(named) && v in s.pool.heap && v !in Spared(s) && AddsEdge(s, p, f) && p != NULL
    requires named == s.(roots := named.roots) && p in named.roots.Targets()
    ensures PermittedRun(Fill(named, p, f, v), [Collect(Enough(named))]) && Loses(Run(Fill(named, p, f, v), [Collect(Enough(named))]))
  {
    SameSpared(s, named);
    hide Safe, Reachable, Fill, Run, PermittedRun, Spared, Step, Enough, Loses;
    RootIsReachable(named.pool.heap, named.roots.Targets(), p);
    CondemnedIsLost(named, p, f, v);
    OneStep(Fill(named, p, f, v), Enough(named));
    LostIs(Step(Fill(named, p, f, v), Enough(named)), v);
    DeletionsArePermitted(Fill(named, p, f, v), [Collect(Enough(named))]);
  }

  /** A condemned object stored into one that a root may hold: name that one, then step. */
  lemma CondemnedLosesLater(s: State, p: Ptr, f: nat, v: Ptr)
    requires Safe(s) && v in s.pool.heap && v !in Spared(s) && AddsEdge(s, p, f) && p in Spared(s)
    ensures LosesLater(Fill(s, p, f, v))
  {
    UnsparedIsSweeping(s, v);
    MarkedIsNotNull(s, p);
    hide Safe, Reachable, Fill, Apply, Run, PermittedRun, Spared, Enough, Loses;
    var slot := UnusedSlot(s.roots.slots);
    NameIt(s, p, f, v, slot);
    var naming, named := [Assign(slot, p), Register(slot)], Apply(Apply(s, Assign(slot, p)), Register(slot));
    NamedLosesCondemned(s, named, p, f, v);
    var last := [Collect(Enough(named))];
    PermittedAppend(Fill(s, p, f, v), naming, last);
    RunAppend(Fill(s, p, f, v), naming, last);
    assert Loses(Run(Fill(s, p, f, v), naming + last));
  }

  /** Permitted asks for no more than it must: a store of an allocated object can be followed by permitted
      actions that lose something reachable if and only if Permitted forbids it, it adds an edge, and
      the object stored into is not condemned itself. */
  lemma ForbiddenStoreLosesExactly(s: State, p: Ptr, f: nat, v: Ptr)
    requires Safe(s) && v in s.pool.heap
    ensures LosesLater(Apply(s, Store(p, f, v))) <==> !Permitted(s, Store(p, f, v)) && AddsEdge(s, p, f) && p in Spared(s)
  {
    StoreFills(s, p, f, v);
    if v in Spared(s) {
      ForbiddenStoreLosesIff(s, p, f, v);
      if !MayHold(s, p, v) && p in s.pool.heap { ForbiddenIsMarking(s, p, v); }
    } else {
      UnsparedIsSweeping(s, v);
      if AddsEdge(s, p, f) && p in Spared(s) {
        CondemnedLosesLater(s, p, f, v);
      } else {
        hide Safe, Loses, Run, PermittedRun, Fill, Spared;
        forall actions | PermittedRun(Fill(s, p, f, v), actions) ensures !Loses(Run(Fill(s, p, f, v), actions)) {
          if AddsEdge(s, p, f) {
            DoomedNeverLoses(s, p, f, v, actions);
          } else {
            HarmlessFill(s, p, f, v);
            SafeRunLosesNothing(Fill(s, p, f, v), actions);
          }
        }
      }
    }
  }

  lemma ForbiddenIsMarking(s: State, p: Ptr, v: Ptr)
    requires Safe(s) && v in Spared(s) && !MayHold(s, p, v) && p in s.pool.heap
    ensures p in Spared(s)
  {
    MarkingHoldsAll(s);
  }
}
