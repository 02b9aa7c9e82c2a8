/** What the missing write barrier costs: exactly which stores during marking can lose an object. A
    program that only drops pointers and lets the collector run decides the question. */
module GcBarrier {
  import opened GcModel
  import opened GcMarking
  import opened GcSweeping
  import opened GcCycle
  import opened GcRuns

  /** Dropping a pointer or a root, or running a step. */
  predicate Deletion(a: Action) {
    match a
    case Collect(_) => true
    case Unregister(_) => true
    case Store(_, _, value) => value == NULL
    case Assign(_, value) => value == NULL
    case _ => false
  }

  predicate Deletions(actions: seq<Action>) {
    forall i :: 0 <= i < |actions| ==> Deletion(actions[i])
  }

  /** Something reachable is no longer allocated. */
  ghost predicate Loses(s: State) {
    exists q :: Reachable(s.pool.heap, s.roots.Targets(), q) && q !in s.pool.heap
  }

  ghost predicate CanLose(s: State) {
    exists actions :: Deletions(actions) && Loses(Run(s, actions))
  }

  /** Marked and no longer on the mark stack: it will not be traced again in this cycle. */
  predicate Black(m: Marks, p: Ptr) {
    p in m.marked && p !in m.stack
  }

  /** `p` is reachable by a path that does not pass through `v`. */
  ghost predicate ReachableAround(s: State, v: Ptr, p: Ptr) {
    Reachable(s.pool.heap - {v}, s.roots.Targets(), p)
  }

  /** The stores that need the barrier: marking runs, a traced object that is reachable around `v` is
      given `v`, and `v` is unmarked. */
  ghost predicate NeedsBarrier(s: State, p: Ptr, f: nat, v: Ptr) {
    && InMarking(s) && Black(s.marks, p) && v !in s.marks.marked
    && p in s.pool.heap && s.pool.heap[p].traceable && f < |s.pool.heap[p].fields|
    && ReachableAround(s, v, p)
  }

  // ----- one pointer more -----

  /** The pool with field `f` of `p` set to `v`, if there is such a field. */
  function FillPool(pool: Pool, p: Ptr, f: nat, v: Ptr): Pool {
    if p in pool.heap && f < |pool.heap[p].fields|
    then pool.(heap := pool.heap[p := pool.heap[p].(fields := pool.heap[p].fields[f := v])])
    else pool
  }

  function Fill(s: State, p: Ptr, f: nat, v: Ptr): State {
    s.(pool := FillPool(s.pool, p, f, v))
  }

  lemma StoreFills(s: State, p: Ptr, f: nat, v: Ptr)
    ensures Apply(s, Store(p, f, v)) == Fill(s, p, f, v)
  {
  }

  lemma FillEdges(pool: Pool, p: Ptr, f: nat, v: Ptr, q: Ptr)
    requires q != p
    ensures Edges(FillPool(pool, p, f, v).heap, q) == Edges(pool.heap, q)
  {
  }

  lemma MarkAllPushes(m: Marks, ps: seq<Ptr>)
    ensures var t := MarkAll(m, ps);
      && m.marked <= t.marked
      && forall q :: q in t.stack ==> q in m.stack || (q in ps && q != NULL && q !in m.marked)
    decreases |ps|
  {
    if ps != [] { MarkAllPushes(Mark(m, ps[0]), ps[1..]); }
  }

  /** The edges of a black object are never looked at. */
  lemma {:induction false} TraceSkipsBlack(h1: Heap, h2: Heap, m: Marks, budget: nat, p: Ptr)
    requires Black(m, p) && forall q :: q != p ==> Edges(h1, q) == Edges(h2, q)
    ensures Trace(h1, m, budget) == Trace(h2, m, budget) && Black(Trace(h1, m, budget), p)
    decreases budget
  {
    if m.stack != [] && budget > 0 {
      var n := |m.stack| - 1;
      var popped := m.(stack := m.stack[..n]);
      MarkAllPushes(popped, Edges(h1, m.stack[n]));
      TraceSkipsBlack(h1, h2, TraceOne(h1, m), budget - 1, p);
    }
  }

  ghost predicate ClosedUnder(heap: Heap, inside: set<Ptr>) {
    forall q :: q in inside ==> Within(Edges(heap, q), inside)
  }

  /** Nor are those of an object that nothing on the mark stack leads to. */
  lemma {:induction false} TraceSkipsApart(h1: Heap, h2: Heap, m: Marks, budget: nat, p: Ptr, inside: set<Ptr>)
    requires ClosedUnder(h1, inside) && Elements(m.stack) <= inside && p !in inside
    requires forall q :: q != p ==> Edges(h1, q) == Edges(h2, q)
    ensures Trace(h1, m, budget) == Trace(h2, m, budget) && Elements(Trace(h1, m, budget).stack) <= inside
    decreases budget
  {
    if m.stack != [] && budget > 0 {
      var n := |m.stack| - 1;
      var top, popped := m.stack[n], m.(stack := m.stack[..n]);
      assert top in Elements(m.stack);
      assert forall q :: q in popped.stack ==> q in m.stack;
      MarkAllPushes(popped, Edges(h1, top));
      TraceSkipsApart(h1, h2, TraceOne(h1, m), budget - 1, p, inside);
    }
  }

  lemma SweepOneFills(pool: Pool, marked: set<Ptr>, p: Ptr, f: nat, v: Ptr)
    requires pool.rest != []
    ensures SweepOne(FillPool(pool, p, f, v), marked) == FillPool(SweepOne(pool, marked), p, f, v)
  {
    var q, filled := pool.rest[0], FillPool(pool, p, f, v);
    assert SizeOf(filled.heap, q) == SizeOf(pool.heap, q);
    assert Finalizable(filled.heap, [q]) == Finalizable(pool.heap, [q]);
    assert (filled.heap - {q}) == FillPool(pool.(heap := pool.heap - {q}), p, f, v).heap;
  }

  /** Sweeping does not look at fields. */
  lemma {:induction false} SweepFills(pool: Pool, marked: set<Ptr>, budget: nat, p: Ptr, f: nat, v: Ptr)
    ensures var swept := Sweep(pool, marked, budget);
      Sweep(FillPool(pool, p, f, v), marked, budget) == Swept(FillPool(swept.pool, p, f, v), swept.marked)
    decreases budget
  {
    if pool.rest != [] && budget > 0 {
      SweepOneFills(pool, marked, p, f, v);
      SweepFills(SweepOne(pool, marked), marked - {pool.rest[0]}, budget - 1, p, f, v);
    }
  }

  // ----- a step with the pointer is the step without it -----

  lemma StartedFills(s: State, p: Ptr, f: nat, v: Ptr)
    ensures Started(Fill(s, p, f, v)) == Fill(Started(s), p, f, v)
  {
  }

  lemma TraceStepFills(s: State, budget: nat, p: Ptr, f: nat, v: Ptr)
    requires Trace(FillPool(s.pool, p, f, v).heap, s.marks, budget) == Trace(s.pool.heap, s.marks, budget)
    ensures TraceStep(Fill(s, p, f, v), budget) == Fill(TraceStep(s, budget), p, f, v)
  {
  }

  lemma FinishFills(s: State, p: Ptr, f: nat, v: Ptr)
    ensures Finish(Fill(s, p, f, v)) == Fill(Finish(s), p, f, v)
  {
  }

  lemma SweepStepFills(s: State, budget: nat, p: Ptr, f: nat, v: Ptr)
    ensures SweepStep(Fill(s, p, f, v), budget) == Fill(SweepStep(s, budget), p, f, v)
  {
    hide Sweep, FillPool;
    SweepFills(s.pool, s.marks.marked, budget, p, f, v);
  }

  lemma StepFills(s: State, budget: nat, p: Ptr, f: nat, v: Ptr)
    requires var t := Started(s);
      Trace(FillPool(t.pool, p, f, v).heap, t.marks, TraceBudget(budget)) == Trace(t.pool.heap, t.marks, TraceBudget(budget))
    ensures Step(Fill(s, p, f, v), budget) == Fill(Step(s, budget), p, f, v)
  {
    hide Started, TraceStep, SweepStep, Finish, FillPool;
    StartedFills(s, p, f, v);
    TraceStepFills(Started(s), TraceBudget(budget), p, f, v);
    var traced := TraceStep(Started(s), TraceBudget(budget));
    SweepStepFills(traced, SweepBudget(budget), p, f, v);
    FinishFills(SweepStep(traced, SweepBudget(budget)), p, f, v);
    FinishFills(traced, p, f, v);
  }

  // ----- deletions -----

  /** `t` has no root and no edge that `s` has not. */
  ghost predicate Shrinks(s: State, t: State) {
    && Within(t.roots.Targets(), Elements(s.roots.Targets()))
    && forall q :: Within(Edges(t.pool.heap, q), Elements(Edges(s.pool.heap, q)))
  }

  lemma ClosedShrinks(s: State, t: State, inside: set<Ptr>, v: Ptr)
    requires Shrinks(s, t)
    ensures Closed(s.pool.heap, s.roots.Targets(), inside) ==> Closed(t.pool.heap, t.roots.Targets(), inside)
    ensures Closed(s.pool.heap - {v}, s.roots.Targets(), inside) ==> Closed(t.pool.heap - {v}, t.roots.Targets(), inside)
  {
    forall q ensures Edges(t.pool.heap - {v}, q) == if q == v then [] else Edges(t.pool.heap, q) {
    }
    forall q ensures Edges(s.pool.heap - {v}, q) == if q == v then [] else Edges(s.pool.heap, q) {
    }
    if Closed(s.pool.heap, s.roots.Targets(), inside) {
      forall q | q in inside ensures Within(Edges(t.pool.heap, q), inside) {
        assert Within(Edges(t.pool.heap, q), Elements(Edges(s.pool.heap, q)));
      }
    }
    if Closed(s.pool.heap - {v}, s.roots.Targets(), inside) {
      forall q | q in inside ensures Within(Edges(t.pool.heap - {v}, q), inside) {
        assert Within(Edges(t.pool.heap, q), Elements(Edges(s.pool.heap, q)));
        assert Within(Edges(s.pool.heap - {v}, q), inside);
      }
    }
  }

  lemma {:induction false} SweepShrinks(pool: Pool, marked: set<Ptr>, budget: nat)
    ensures var heap := Sweep(pool, marked, budget).pool.heap;
      forall q :: q in heap ==> q in pool.heap && heap[q] == pool.heap[q]
    decreases budget
  {
    if pool.rest != [] && budget > 0 {
      SweepShrinks(SweepOne(pool, marked), marked - {pool.rest[0]}, budget - 1);
    }
  }

  lemma StepShrinks(s: State, budget: nat)
    ensures var t := Step(s, budget);
      && t.roots == s.roots && Shrinks(s, t)
      && forall q :: q in t.pool.heap ==> q in s.pool.heap && t.pool.heap[q] == s.pool.heap[q]
  {
    hide Trace, Sweep;
    var traced := TraceStep(Started(s), TraceBudget(budget));
    assert traced.pool.heap == s.pool.heap && traced.roots == s.roots;
    SweepShrinks(traced.pool, traced.marks.marked, SweepBudget(budget));
  }

  lemma DeletionShrinks(s: State, a: Action)
    requires Deletion(a)
    ensures Shrinks(s, Apply(s, a)) && Permitted(s, a)
  {
    hide Step;
    var t := Apply(s, a);
    match a
    case Collect(budget) => StepShrinks(s, budget);
    case Unregister(slot) =>
      RemoveRootOnly(s.roots.slots, slot);
      TargetsAre(s.roots);
      TargetsAre(t.roots);
    case Assign(slot, _) =>
      TargetsAre(s.roots);
      TargetsAre(t.roots);
    case Store(p, f, _) =>
  }

  /** What a deletion that is no step leaves alone. */
  lemma DropKeeps(s: State, a: Action)
    requires Deletion(a) && !a.Collect?
    ensures var t := Apply(s, a);
      && t.marks == s.marks && t.inProgress == s.inProgress && t.rootsScanned == s.rootsScanned
      && t.pool == s.pool.(heap := t.pool.heap) && t.pool.heap.Keys == s.pool.heap.Keys
  {
  }

  /** Dropping another pointer, or this one. */
  lemma DropFills(s: State, a: Action, p: Ptr, f: nat, v: Ptr)
    requires Deletion(a) && !a.Collect?
    ensures Apply(Fill(s, p, f, v), a) == if a == Store(p, f, NULL) then Apply(s, a) else Fill(Apply(s, a), p, f, v)
  {
    if a.Store? { SetTwice(s.pool, p, f, v, a.p, a.field, NULL); }
  }

  lemma SetTwice(pool: Pool, p: Ptr, f: nat, v: Ptr, q: Ptr, i: nat, x: Ptr)
    ensures FillPool(FillPool(pool, p, f, v), q, i, x) ==
      if q == p && i == f then FillPool(pool, q, i, x) else FillPool(FillPool(pool, q, i, x), p, f, v)
  {
    if q == p && p in pool.heap && f < |pool.heap[p].fields| && i < |pool.heap[p].fields| {
      var fields: seq<Ptr> := pool.heap[p].fields;
      assert if i == f then fields[f := v][i := x] == fields[i := x] else fields[f := v][i := x] == fields[i := x][f := v];
    }
  }

  lemma DeletionIsSafe(s: State, a: Action)
    requires Safe(s) && Deletion(a)
    ensures Safe(Apply(s, a))
  {
    hide Safe, Apply;
    DeletionShrinks(s, a);
    ActionIsSafe(s, a);
  }

  lemma SafeLosesNothing(s: State)
    requires Safe(s)
    ensures !Loses(s)
  {
    forall q | Reachable(s.pool.heap, s.roots.Targets(), q) ensures q in s.pool.heap {
      ReachableIsSpared(s, q);
    }
  }

  // ----- when nothing can be lost -----

  lemma {:induction false} SafeNeverLoses(s: State, actions: seq<Action>)
    requires Safe(s) && Deletions(actions)
    ensures !Loses(Run(s, actions))
    decreases |actions|
  {
    hide Safe, Loses, Apply;
    if actions == [] {
      SafeLosesNothing(s);
    } else {
      DeletionIsSafe(s, actions[0]);
      SafeNeverLoses(Apply(s, actions[0]), actions[1..]);
    }
  }

  /** `apart` holds all that the roots and the mark stack lead to, and `p` is not in it. */
  ghost predicate IsApart(s: State, p: Ptr, apart: set<Ptr>) {
    && Safe(s) && Closed(s.pool.heap, s.roots.Targets(), apart)
    && Elements(s.marks.stack) <= apart && p !in apart
  }

  lemma ApartLosesNothing(s: State, p: Ptr, apart: set<Ptr>, f: nat, v: Ptr)
    requires IsApart(s, p, apart)
    ensures !Loses(Fill(s, p, f, v))
  {
    var t, inside := Fill(s, p, f, v), apart * Spared(s);
    hide Safe, FillPool;
    SparedIsClosed(s);
    forall q | q in inside ensures Within(Edges(t.pool.heap, q), inside) {
      FillEdges(s.pool, p, f, v, q);
    }
    assert Closed(t.pool.heap, t.roots.Targets(), inside);
    forall q | Reachable(t.pool.heap, t.roots.Targets(), q) ensures q in t.pool.heap {
      ClosedHoldsReachable(t.pool.heap, t.roots.Targets(), inside, q);
      SparedIsAllocated(s, q);
      FillKeys(s.pool, p, f, v);
    }
  }

  lemma SparedIsClosed(s: State)
    requires Safe(s)
    ensures Closed(s.pool.heap, s.roots.Targets(), Spared(s))
  {
  }

  lemma FillKeys(pool: Pool, p: Ptr, f: nat, v: Ptr)
    ensures FillPool(pool, p, f, v).heap.Keys == pool.heap.Keys
  {
  }

  /** What starting a step puts on the mark stack: the roots, or nothing. */
  lemma StartedStack(s: State)
    requires Safe(s)
    ensures var t := Started(s); t.pool.heap == s.pool.heap && t.roots == s.roots
    ensures forall q :: q in Started(s).marks.stack ==> q in s.marks.stack || (q != NULL && q in s.roots.Targets())
  {
    MarkAllPushes(Begin(s).marks, s.roots.Targets());
  }

  lemma StepKeepsApart(s: State, budget: nat, p: Ptr, apart: set<Ptr>, f: nat, v: Ptr)
    requires IsApart(s, p, apart)
    ensures Step(Fill(s, p, f, v), budget) == Fill(Step(s, budget), p, f, v) && IsApart(Step(s, budget), p, apart)
  {
    StartedStack(s);
    hide Safe, Started, FillPool;
    var t := Started(s);
    forall q | q != p ensures Edges(FillPool(t.pool, p, f, v).heap, q) == Edges(t.pool.heap, q) {
      FillEdges(t.pool, p, f, v, q);
    }
    TraceSkipsApart(t.pool.heap, FillPool(t.pool, p, f, v).heap, t.marks, TraceBudget(budget), p, apart);
    StepFills(s, budget, p, f, v);
    StepStack(s, budget);
    StepIsSafe(s, budget);
    StepShrinks(s, budget);
    ClosedShrinks(s, Step(s, budget), apart, p);
  }

  lemma StepStack(s: State, budget: nat)
    ensures Step(s, budget).marks.stack == Trace(s.pool.heap, Started(s).marks, TraceBudget(budget)).stack
  {
    hide Trace, Sweep;
  }

  lemma {:induction false} ApartNeverLoses(s: State, p: Ptr, apart: set<Ptr>, f: nat, v: Ptr, actions: seq<Action>)
    requires IsApart(s, p, apart) && Deletions(actions)
    ensures !Loses(Run(Fill(s, p, f, v), actions))
    decreases |actions|
  {
    hide Fill, IsApart, Loses, Apply;
    if actions == [] {
      ApartLosesNothing(s, p, apart, f, v);
    } else {
      var a := actions[0];
      ApartStays(s, p, apart, f, v, a);
      if a == Store(p, f, NULL) {
        SafeNeverLoses(Apply(s, a), actions[1..]);
      } else {
        ApartNeverLoses(Apply(s, a), p, apart, f, v, actions[1..]);
      }
    }
  }

  lemma ApartStays(s: State, p: Ptr, apart: set<Ptr>, f: nat, v: Ptr, a: Action)
    requires IsApart(s, p, apart) && Deletion(a)
    ensures Safe(Apply(s, a)) && IsApart(Apply(s, a), p, apart)
    ensures Apply(Fill(s, p, f, v), a) == if a == Store(p, f, NULL) then Apply(s, a) else Fill(Apply(s, a), p, f, v)
  {
    hide Safe, Step, Fill, FillPool;
    DeletionIsSafe(s, a);
    if a.Collect? {
      StepKeepsApart(s, a.budget, p, apart, f, v);
    } else {
      DropFills(s, a, p, f, v);
      DropKeeps(s, a);
      DeletionShrinks(s, a);
      ClosedShrinks(s, Apply(s, a), apart, p);
    }
  }

  /** Marking runs, `p` has been traced, and all paths to `p` pass through `v`: `around` holds what is
      reachable by other paths. */
  ghost predicate IsShielded(s: State, p: Ptr, v: Ptr, around: set<Ptr>) {
    && Safe(s) && InMarking(s) && Black(s.marks, p) && v in s.pool.heap
    && Closed(s.pool.heap - {v}, s.roots.Targets(), around) && p !in around
  }

  lemma ShieldedLosesNothing(s: State, p: Ptr, v: Ptr, around: set<Ptr>, f: nat)
    requires IsShielded(s, p, v, around)
    ensures !Loses(Fill(s, p, f, v))
  {
    var t, inside := Fill(s, p, f, v), s.pool.heap.Keys;
    MarkingHoldsAll(s);
    hide Safe;
    FillKeys(s.pool, p, f, v);
    forall q | q in inside ensures Within(Edges(t.pool.heap, q), inside) {
      if q != p { FillEdges(s.pool, p, f, v, q); }
      assert Within(Edges(s.pool.heap, q), inside);
    }
    assert Closed(t.pool.heap, t.roots.Targets(), inside);
    forall q | Reachable(t.pool.heap, t.roots.Targets(), q) ensures q in t.pool.heap {
      ClosedHoldsReachable(t.pool.heap, t.roots.Targets(), inside, q);
    }
  }

  lemma MarkingHoldsAll(s: State)
    requires Safe(s) && InMarking(s)
    ensures Spared(s) == s.pool.heap.Keys == Elements(s.pool.rest) && s.pool.kept == [] && s.rootsScanned
    ensures Closed(s.pool.heap, s.roots.Targets(), s.pool.heap.Keys) && BeforeTracing(s) && Started(s) == s
  {
    assert s.pool.List() == s.pool.rest;
  }

  /** With marking over and `v` marked, the pointer is harmless. */
  lemma MarkedIsHarmless(traced: State, budget: nat, p: Ptr, f: nat, v: Ptr)
    requires Safe(traced) && InSweeping(traced) && v in traced.marks.marked
    ensures Safe(Fill(Finish(SweepStep(traced, budget)), p, f, v))
  {
    hide Safe, SweepStep, Finish, SweepSafe;
    ActionIsSafe(traced, Store(p, f, v));
    StoreFills(traced, p, f, v);
    SweepingIsSweepSafe(Fill(traced, p, f, v));
    SweptStep(Fill(traced, p, f, v), budget);
    SweepStepFills(traced, budget, p, f, v);
    FinishFills(SweepStep(traced, budget), p, f, v);
  }

  /** With marking over and `v` unmarked, nothing marked leads to `p` any more. */
  lemma UnmarkedIsApart(traced: State, p: Ptr, v: Ptr, around: set<Ptr>)
    requires Safe(traced) && InSweeping(traced) && traced.pool.kept == [] && v !in traced.marks.marked
    requires Closed(traced.pool.heap - {v}, traced.roots.Targets(), around) && p !in around
    ensures IsApart(traced, p, traced.marks.marked * around)
  {
    SparedIsClosed(traced);
    assert Spared(traced) == traced.marks.marked;
    hide Safe;
    var apart := traced.marks.marked * around;
    forall q | q in apart ensures Within(Edges(traced.pool.heap, q), apart) {
      assert Edges(traced.pool.heap - {v}, q) == Edges(traced.pool.heap, q);
    }
  }

  /** Tracing alone keeps the invariant, whether or not it comes to an end. */
  lemma TracingIsSafe(s: State, budget: nat)
    requires Safe(s) && InMarking(s)
    ensures Safe(TraceStep(s, budget))
  {
    MarkingHoldsAll(s);
    TracedStep(s, budget);
    TracedMarks(s, budget);
    hide Trace, Consistent;
    var t := TraceStep(s, budget);
    if t.marks.stack == [] {
      assert Elements([]) + t.marks.marked == t.marks.marked;
    }
  }

  lemma ShieldedStep(s: State, p: Ptr, v: Ptr, around: set<Ptr>, f: nat, budget: nat)
    requires IsShielded(s, p, v, around)
    ensures Step(Fill(s, p, f, v), budget) == Fill(Step(s, budget), p, f, v)
    ensures var t := Step(s, budget);
      IsShielded(t, p, v, around) || Safe(Fill(t, p, f, v)) || exists apart :: IsApart(t, p, apart)
  {
    MarkingHoldsAll(s);
    StepIsSafe(s, budget);
    hide Safe, Started, FillPool, Trace;
    forall q | q != p ensures Edges(FillPool(s.pool, p, f, v).heap, q) == Edges(s.pool.heap, q) {
      FillEdges(s.pool, p, f, v, q);
    }
    TraceSkipsBlack(s.pool.heap, FillPool(s.pool, p, f, v).heap, s.marks, TraceBudget(budget), p);
    StepFills(s, budget, p, f, v);
    var traced := TraceStep(s, TraceBudget(budget));
    TracingIsSafe(s, TraceBudget(budget));
    if traced.marks.stack != [] {
      assert Step(s, budget) == traced;
    } else if v in traced.marks.marked {
      MarkedIsHarmless(traced, SweepBudget(budget), p, f, v);
    } else {
      UnmarkedIsApart(traced, p, v, around);
      ApartAfterSweeping(traced, SweepBudget(budget), p, traced.marks.marked * around);
      assert IsApart(Step(s, budget), p, traced.marks.marked * around);
    }
  }

  lemma ApartAfterSweeping(traced: State, budget: nat, p: Ptr, apart: set<Ptr>)
    requires IsApart(traced, p, apart) && InSweeping(traced)
    ensures IsApart(Finish(SweepStep(traced, budget)), p, apart)
  {
    SweepingIsSweepSafe(traced);
    SweptStep(traced, budget);
    SweepShrinks(traced.pool, traced.marks.marked, budget);
    hide Safe, Sweep, SweepSafe;
    var t := Finish(SweepStep(traced, budget));
    assert Shrinks(traced, t);
    ClosedShrinks(traced, t, apart, p);
  }

  lemma ShieldedStays(s: State, p: Ptr, v: Ptr, around: set<Ptr>, f: nat, a: Action)
    requires IsShielded(s, p, v, around) && Deletion(a) && !a.Collect?
    ensures Safe(Apply(s, a)) && IsShielded(Apply(s, a), p, v, around)
  {
    DeletionIsSafe(s, a);
    hide Safe;
    DropKeeps(s, a);
    DeletionShrinks(s, a);
    ClosedShrinks(s, Apply(s, a), around, v);
  }

  lemma {:induction false} ShieldedNeverLoses(s: State, p: Ptr, v: Ptr, around: set<Ptr>, f: nat, actions: seq<Action>)
    requires IsShielded(s, p, v, around) && Deletions(actions)
    ensures !Loses(Run(Fill(s, p, f, v), actions))
    decreases |actions|
  {
    hide Fill, IsShielded, IsApart, Loses, Step, Safe;
    if actions == [] {
      ShieldedLosesNothing(s, p, v, around, f);
    } else {
      var a, rest := actions[0], actions[1..];
      if a.Collect? {
        ShieldedStep(s, p, v, around, f, a.budget);
        var t := Step(s, a.budget);
        if IsShielded(t, p, v, around) {
          ShieldedNeverLoses(t, p, v, around, f, rest);
        } else if Safe(Fill(t, p, f, v)) {
          SafeNeverLoses(Fill(t, p, f, v), rest);
        } else {
          var apart :| IsApart(t, p, apart);
          ApartNeverLoses(t, p, apart, f, v, rest);
        }
      } else {
        ShieldedStays(s, p, v, around, f, a);
        DropFills(s, a, p, f, v);
        if a == Store(p, f, NULL) {
          SafeNeverLoses(Apply(s, a), rest);
        } else {
          ShieldedNeverLoses(Apply(s, a), p, v, around, f, rest);
        }
      }
    }
  }

  /** The objects reachable by paths that do not pass through `v`. */
  ghost function Around(s: State, v: Ptr): set<Ptr> {
    set q | q in s.pool.heap && ReachableAround(s, v, q)
  }

  lemma AroundIsClosed(s: State, v: Ptr)
    requires Safe(s)
    ensures Closed(s.pool.heap - {v}, s.roots.Targets(), Around(s, v))
  {
    SparedIsClosed(s);
    var h, targets, around := s.pool.heap - {v}, s.roots.Targets(), Around(s, v);
    forall q | q in Spared(s) ensures q in s.pool.heap {
      SparedIsAllocated(s, q);
    }
    hide Safe, Spared;
    forall q | q in Spared(s) ensures Within(Edges(h, q), Spared(s)) {
      assert Within(Edges(s.pool.heap, q), Spared(s));
    }
    assert Closed(h, targets, Spared(s));
    forall q | Reachable(h, targets, q) ensures q in around {
      ClosedHoldsReachable(h, targets, Spared(s), q);
    }
    forall q | q in targets && q != NULL ensures q in around {
      RootIsReachable(h, targets, q);
    }
    forall q, r | q in around && r in Edges(h, q) && r != NULL ensures r in around {
      EdgeIsReachable(h, targets, q, r);
    }
  }

  /** Giving an untraceable object a pointer, or one without such a field, changes no edge. */
  lemma UntraceableIsHarmless(s: State, p: Ptr, f: nat, v: Ptr)
    requires Safe(s) && p in s.pool.heap && (!s.pool.heap[p].traceable || f >= |s.pool.heap[p].fields|)
    ensures Safe(Fill(s, p, f, v))
  {
    var t := Fill(s, p, f, v);
    FillKeys(s.pool, p, f, v);
    FillConsistent(s.pool, p, f, v);
    SameEdges(s.pool, p, f, v);
    hide FillPool, Consistent;
    assert Spared(t) == Spared(s);
  }

  lemma SameEdges(pool: Pool, p: Ptr, f: nat, v: Ptr)
    requires p in pool.heap && (!pool.heap[p].traceable || f >= |pool.heap[p].fields|)
    ensures forall q :: Edges(FillPool(pool, p, f, v).heap, q) == Edges(pool.heap, q)
  {
  }

  lemma FillConsistent(pool: Pool, p: Ptr, f: nat, v: Ptr)
    requires Consistent(pool)
    ensures var t := FillPool(pool, p, f, v); Consistent(t) && t.List() == pool.List() && t.kept == pool.kept && t.rest == pool.rest
  {
    hide NoDuplicates, Bytes;
    BytesFrame(pool.heap, FillPool(pool, p, f, v).heap, pool.List());
  }

  lemma OtherStoresLoseNothing(s: State, p: Ptr, f: nat, v: Ptr)
    requires Safe(s) && v in Spared(s) && !NeedsBarrier(s, p, f, v)
    ensures !CanLose(Apply(s, Store(p, f, v)))
  {
    hide Safe, Loses, Fill, Spared, FillPool;
    StoreFills(s, p, f, v);
    SparedIsAllocated(s, v);
    forall actions | Deletions(actions) ensures !Loses(Run(Fill(s, p, f, v), actions)) {
      if MayHold(s, p, v) {
        ActionIsSafe(s, Store(p, f, v));
        SafeNeverLoses(Fill(s, p, f, v), actions);
      } else if p in s.pool.heap && s.pool.heap[p].traceable && f < |s.pool.heap[p].fields| {
        AroundIsClosed(s, v);
        ShieldedNeverLoses(s, p, v, Around(s, v), f, actions);
      } else {
        HarmlessFill(s, p, f, v);
        SafeNeverLoses(Fill(s, p, f, v), actions);
      }
    }
  }

  lemma HarmlessFill(s: State, p: Ptr, f: nat, v: Ptr)
    requires Safe(s) && !(p in s.pool.heap && s.pool.heap[p].traceable && f < |s.pool.heap[p].fields|)
    ensures Safe(Fill(s, p, f, v))
  {
    if p in s.pool.heap { UntraceableIsHarmless(s, p, f, v); }
  }
}
