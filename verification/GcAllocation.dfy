/** When an object survives its own allocation: nova_gc_alloc may run a step before the caller
    has had any chance to make the new object reachable. */
module GcAllocation {
  import opened GcModel
  import opened GcMarking
  import opened GcSweeping
  import opened GcCycle
  import opened GcRuns

  /** Tracing only looks at the edges of what it marks. */
  lemma {:induction false} TraceFrame(h1: Heap, h2: Heap, targets: seq<Ptr>, m: Marks, budget: nat, inside: set<Ptr>)
    requires TriColour(h1, targets, m) && m.marked <= inside
    requires forall p :: p in inside ==> Within(Edges(h1, p), inside) && Edges(h1, p) == Edges(h2, p)
    ensures Trace(h1, m, budget) == Trace(h2, m, budget)
    decreases budget
  {
    if m.stack != [] && budget > 0 {
      assert m.stack[|m.stack| - 1] in Elements(m.stack);
      TraceOneEffect(h1, targets, m);
      TraceFrame(h1, h2, targets, TraceOne(h1, m), budget - 1, inside);
    }
  }

  /** Does the step that an allocation runs come to the end of marking? */
  function EndsMarking(s: State): bool {
    Trace(s.pool.heap, Started(s).marks, 64).stack == []
  }

  lemma LinkedTrace(s: State, p: Ptr, size: nat, traceable: bool, finalizable: bool, fields: nat)
    requires Safe(s) && p != NULL && p !in s.pool.heap
    ensures var t := Link(s, p, size, traceable, finalizable, fields);
      && Started(t).marks == Started(s).marks
      && (TraceStep(Started(t), 64).marks.stack == [] <==> EndsMarking(s))
      && p !in TraceStep(Started(t), 64).marks.marked
  {
    var t := Link(s, p, size, traceable, finalizable, fields);
    var m, targets := Started(s).marks, s.roots.Targets();
    assert t.roots == s.roots;
    if !InSweeping(s) {
      hide Link, Safe;
      var list := Elements(Started(s).pool.rest);
      StartedIsReady(s);
      ReadyIsAllocated(s);
      forall o | o in list ensures Edges(s.pool.heap, o) == Edges(t.pool.heap, o) {
        LinkKeepsObjects(s, p, size, traceable, finalizable, fields, o);
      }
      LinkHeap(s, p, size, traceable, finalizable, fields);
      TraceFrame(s.pool.heap, t.pool.heap, targets, m, 64, list);
      TraceStaysWithin(s.pool.heap, targets, m, 64, list);
    }
  }

  lemma LinkHeap(s: State, p: Ptr, size: nat, traceable: bool, finalizable: bool, fields: nat)
    ensures Started(Link(s, p, size, traceable, finalizable, fields)).pool.heap == Link(s, p, size, traceable, finalizable, fields).pool.heap
    ensures Started(s).pool.heap == s.pool.heap
    ensures Started(Link(s, p, size, traceable, finalizable, fields)).marks == Started(s).marks
  {
  }

  lemma LinkKeepsObjects(s: State, p: Ptr, size: nat, traceable: bool, finalizable: bool, fields: nat, o: Ptr)
    requires o != p
    ensures Edges(Link(s, p, size, traceable, finalizable, fields).pool.heap, o) == Edges(s.pool.heap, o)
  {
  }

  lemma ReadyIsAllocated(s: State)
    requires Safe(s) && !InSweeping(s)
    ensures Elements(Started(s).pool.rest) == s.pool.heap.Keys
    ensures Started(s).roots == s.roots
    ensures BeforeTracing(Started(s)) && Closed(s.pool.heap, s.roots.Targets(), Elements(Started(s).pool.rest))
    ensures TriColour(s.pool.heap, s.roots.Targets(), Started(s).marks) && Started(s).marks.marked <= Elements(Started(s).pool.rest)
  {
    StartedIsReady(s);
    if s.inProgress {
      assert s.pool.List() == s.pool.rest;
    }
  }

  lemma HeapIsList(s: State)
    requires Safe(s)
    ensures s.pool.heap.Keys == Elements(s.pool.List())
  {
  }

  // ----- when marking ends -----

  /** What a step started in `s` has before it to trace: the grey objects, and the unmarked ones they
      lead to. */
  ghost function Untraced(s: State): nat {
    |Started(s).marks.stack| + |WhiteAhead(s)|
  }

  ghost function WhiteAhead(s: State): set<Ptr> {
    set p | p in s.pool.List() && p !in Started(s).marks.marked && Reachable(s.pool.heap, Started(s).marks.stack, p)
  }

  lemma AheadIsClosed(s: State)
    requires Safe(s) && !InSweeping(s)
    ensures var inside := Started(s).marks.marked + WhiteAhead(s);
      forall p :: p in inside ==> Within(Edges(s.pool.heap, p), inside)
  {
    ReadyIsAllocated(s);
    HeapIsList(s);
    hide Started, Safe, Reachable;
    var heap, m, inside := s.pool.heap, Started(s).marks, Started(s).marks.marked + WhiteAhead(s);
    assert Closed(heap, m.stack, heap.Keys);
    forall p, q | p in inside && q in Edges(heap, p) && q != NULL ensures q in inside {
      if p in m.stack { RootIsReachable(heap, m.stack, p); }
      if p in m.stack || p !in m.marked {
        EdgeIsReachable(heap, m.stack, p, q);
        ClosedHoldsReachable(heap, m.stack, heap.Keys, q);
      }
    }
  }

  lemma MarkingStaysIn(s: State, budget: nat)
    requires Safe(s) && !InSweeping(s)
    ensures var m := Started(s).marks; var t := Trace(s.pool.heap, m, budget);
      t.marked <= m.marked + WhiteAhead(s) && (t.stack == [] ==> t.marked == m.marked + WhiteAhead(s))
  {
    ReadyIsAllocated(s);
    AheadIsClosed(s);
    hide Started, Safe, Trace, Reachable;
    var heap, m := s.pool.heap, Started(s).marks;
    TraceEffect(heap, s.roots.Targets(), m, budget);
    TraceStaysWithin(heap, s.roots.Targets(), m, budget, m.marked + WhiteAhead(s));
    var t := Trace(heap, m, budget);
    if t.stack == [] {
      forall p | p in WhiteAhead(s) ensures p in t.marked {
        ClosedHoldsReachable(heap, m.stack, t.marked, p);
      }
    }
  }

  /** The step an allocation runs ends marking if and only if at most 64 objects are left to trace,
      whatever the mutator has done since the roots were scanned. */
  lemma EndsMarkingIff(s: State)
    requires Safe(s)
    ensures EndsMarking(s) <==> Untraced(s) <= 64
  {
    var m, t := Started(s).marks, Trace(s.pool.heap, Started(s).marks, 64);
    if InSweeping(s) {
      forall p | p in s.pool.List() ensures !Reachable(s.pool.heap, [], p) {
      }
      assert WhiteAhead(s) == {};
    } else {
      ReadyIsAllocated(s);
      hide Started, Safe, Trace;
      MarkingStaysIn(s, 64);
      TraceEffect(s.pool.heap, s.roots.Targets(), m, 64);
      SubsetSize(t.marked, m.marked + WhiteAhead(s));
      assert |m.marked + WhiteAhead(s)| == |m.marked| + |WhiteAhead(s)|;
    }
  }

  /** In numbers a caller can know: from rest, with at most 64 reachable objects; inside an undisturbed
      cycle, with at most 64 more than have been traced. */
  lemma EndsMarkingFromRest(s: State)
    requires Idle(s)
    ensures EndsMarking(s) <==> |ReachSet(s)| <= 64
  {
    StartEffect(s);
    TraceInCycle(s, Started(s).marks, 0, 64);
  }

  lemma EndsMarkingInCycle(s0: State, s: State, d: nat)
    requires Idle(s0) && Marking(s0, s, d)
    ensures EndsMarking(s) <==> |ReachSet(s0)| <= d + 64
  {
    assert Started(s) == s;
    TraceInCycle(s0, s.marks, d, 64);
  }

  /** The first object under the cursor is freed at once when it is unmarked. */
  lemma FreshIsSwept(pool: Pool, marked: set<Ptr>, budget: nat)
    requires NoDuplicates(pool.rest) && pool.rest != [] && pool.rest[0] !in marked && budget > 0
    ensures pool.rest[0] !in Sweep(pool, marked, budget).pool.heap
  {
    SweepEffect(pool, marked, budget);
    var seen := pool.rest[..Min(budget, |pool.rest|)];
    FilterMembers(seen, marked);
    assert pool.rest[0] == seen[0];
  }

  lemma PassedIsKept(pool: Pool, marked: set<Ptr>, budget: nat, p: Ptr)
    requires NoDuplicates(pool.rest) && p !in pool.rest && p in pool.heap
    ensures p in Sweep(pool, marked, budget).pool.heap
  {
    SweepEffect(pool, marked, budget);
    FilterMembers(pool.rest[..Min(budget, |pool.rest|)], marked);
  }

  /** The object nova_gc_alloc returns is still allocated if and only if no step was run, or the
      sweep cursor had already left the head of the list, or the step did not finish marking. */
  lemma FreshSurvives(s: State, p: Ptr, size: nat, traceable: bool, finalizable: bool, fields: nat)
    requires Safe(s) && p != NULL && p !in s.pool.heap
    ensures p in Alloc(s, p, size, traceable, finalizable, fields).pool.heap <==>
      s.pool.tally.bytes + size <= s.threshold || (s.inProgress && s.pool.kept != []) || !EndsMarking(s)
  {
    AllocCases(s, p, size, traceable, finalizable, fields);
    hide Link, Safe, Step, Alloc, Trace, Started, EndsMarking, Sweep, NoDuplicates;
    var t := Link(s, p, size, traceable, finalizable, fields);
    var traced := TraceStep(Started(t), 64);
    LinkedTrace(s, p, size, traceable, finalizable, fields);
    FreshPosition(s, p, size, traceable, finalizable, fields);
    if traced.marks.stack == [] {
      if s.inProgress && s.pool.kept != [] {
        PassedIsKept(traced.pool, traced.marks.marked, 64, p);
      } else {
        FreshIsSwept(traced.pool, traced.marks.marked, 64);
      }
    }
  }

  lemma AllocCases(s: State, p: Ptr, size: nat, traceable: bool, finalizable: bool, fields: nat)
    ensures var t := Link(s, p, size, traceable, finalizable, fields);
      var traced := TraceStep(Started(t), 64);
      && p in t.pool.heap
      && Alloc(s, p, size, traceable, finalizable, fields) ==
           if s.pool.tally.bytes + size <= s.threshold then t
           else Finish(if traced.marks.stack == [] then SweepStep(traced, 64) else traced)
  {
    hide Finish, SweepStep, Started, TraceStep;
    assert TraceBudget(128) == 64 && SweepBudget(128) == 64;
  }

  /** Where the fresh object stands when the step it triggers has traced. */
  lemma FreshPosition(s: State, p: Ptr, size: nat, traceable: bool, finalizable: bool, fields: nat)
    requires Safe(s) && p != NULL && p !in s.pool.heap
    ensures var pool := Started(Link(s, p, size, traceable, finalizable, fields)).pool;
      && NoDuplicates(pool.rest) && p in pool.heap
      && if s.inProgress && s.pool.kept != [] then p !in pool.rest else pool.rest != [] && pool.rest[0] == p
  {
    var t := Link(s, p, size, traceable, finalizable, fields);
    LinkIsConsistent(s, p, size, traceable, finalizable, fields);
    NoDuplicatesAppend(t.pool.kept, t.pool.rest);
  }

  /** The caller may go on to store the fresh object if and only if the sweep cursor has left the
      head of the list, or no sweep is running and no step reached one. */
  lemma FreshIsSpared(s: State, p: Ptr, size: nat, traceable: bool, finalizable: bool, fields: nat)
    requires Safe(s) && p != NULL && p !in s.pool.heap
    ensures p in Spared(Alloc(s, p, size, traceable, finalizable, fields)) <==>
      || (s.inProgress && s.pool.kept != [])
      || (!InSweeping(s) && (s.pool.tally.bytes + size <= s.threshold || !EndsMarking(s)))
  {
    var a := Alloc(s, p, size, traceable, finalizable, fields);
    FreshSurvives(s, p, size, traceable, finalizable, fields);
    LinkIsSafe(s, p, size, traceable, finalizable, fields);
    LinkSpares(s, p, size, traceable, finalizable, fields);
    var t := Link(s, p, size, traceable, finalizable, fields);
    hide Link, Safe, Step, Trace, Sweep, NoDuplicates;
    StepIsSafe(t, 128);
    if s.pool.tally.bytes + size > s.threshold {
      AllocCases(s, p, size, traceable, finalizable, fields);
      var traced := TraceStep(Started(t), 64);
      LinkedTrace(s, p, size, traceable, finalizable, fields);
      LinkKeepsRest(s, p, size, traceable, finalizable, fields);
      if s.inProgress && s.pool.kept != [] {
        KeptIsSpared(s, p, size, traceable, finalizable, fields);
      } else if traced.marks.stack != [] {
        assert InMarking(a) && p in a.pool.heap;
        HeapIsList(a);
      } else if p in Spared(a) {
        SparedIsAllocated(a, p);
      }
    } else {
      AllocCases(s, p, size, traceable, finalizable, fields);
      if InSweeping(s) && s.pool.kept == [] && p in Spared(s) {
        SparedIsAllocated(s, p);
      }
    }
  }

  lemma {:induction false} KeptStaysKept(pool: Pool, marked: set<Ptr>, budget: nat)
    ensures pool.kept <= Sweep(pool, marked, budget).pool.kept
    decreases budget
  {
    if pool.rest != [] && budget > 0 {
      KeptStaysKept(SweepOne(pool, marked), marked - {pool.rest[0]}, budget - 1);
    }
  }

  lemma KeptIsSpared(s: State, p: Ptr, size: nat, traceable: bool, finalizable: bool, fields: nat)
    requires Safe(s) && s.inProgress && s.pool.kept != []
    ensures p in Spared(Alloc(s, p, size, traceable, finalizable, fields))
  {
    var t := Link(s, p, size, traceable, finalizable, fields);
    assert t.pool.kept[0] == p && t.inProgress && t.rootsScanned && t.marks.stack == [];
    AllocCases(s, p, size, traceable, finalizable, fields);
    hide Link, Safe, Sweep;
    KeptStaysKept(t.pool, t.marks.marked, 64);
    var a := Alloc(s, p, size, traceable, finalizable, fields);
    assert a == t || a.pool == SweepStep(t, 64).pool;
    assert a.pool.kept[0] == p && a.pool.List()[0] == p;
  }

  /** A concrete failure: with the default threshold, the first allocation of 70000 bytes already
      returns an object that its own step has freed. */
  lemma FreshIsFreed()
    ensures Alloc(Create(0, 0), 8, 70000, false, false, 0).pool == Pool([], [], map[], Tally(0, 0, 0, 1), Log([8], []))
  {
    var s := Create(0, 0);
    CreatedIsSafe(0, 0);
    FreshSurvives(s, 8, 70000, false, false, 0);
    var t := Link(s, 8, 70000, false, false, 0);
    var traced := TraceStep(Started(t), 64);
    assert s.roots.Targets() == [];
    assert traced.marks == Marks({}, [], 0) && traced.pool.rest == [8];
    assert SweepOne(traced.pool, {}).rest == [];
    assert Sweep(traced.pool, {}, 64).pool == SweepOne(traced.pool, {});
    assert traced.pool.heap - {8} == map[];
  }
}
