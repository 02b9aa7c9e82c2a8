/** A collection cycle with no mutator in between: what it leaves, whatever the budgets of its
    steps, and exactly how many steps it takes. */
module GcCycle {
  import opened GcModel
  import opened GcMarking
  import opened GcSweeping

  /** The counters describe the list, and the list's objects are exactly the allocated ones. */
  ghost predicate Consistent(pool: Pool) {
    && NoDuplicates(pool.List()) && NULL !in pool.List()
    && pool.heap.Keys == Elements(pool.List())
    && pool.tally.objects == |pool.List()|
    && pool.tally.bytes == Bytes(pool.heap, pool.List())
  }

  /** No cycle runs, nothing is marked, and no pointer in use leaves the heap. */
  ghost predicate Idle(s: State) {
    && !s.inProgress && s.pool.rest == []
    && s.marks.marked == {} && s.marks.stack == []
    && Consistent(s.pool)
    && Closed(s.pool.heap, s.roots.Targets(), Elements(s.pool.List()))
  }

  /** The state at the end of marking: exactly the reachable objects are marked. */
  ghost function AfterMark(s: State): State {
    var b := Begin(s);
    b.(pool := b.pool.(tally := b.pool.tally.(live := 0)),
       marks := Marks(ReachSet(s), [], |ReachSet(s)|), rootsScanned := true)
  }

  /** The state in which the cycle started from the idle state `s` ends. */
  ghost function Finished(s: State): State {
    Finish(SweepStep(AfterMark(s), |s.pool.List()|))
  }

  /** `m` is a partial marking of the objects reachable in `s0`, `d` of which have been traced. */
  ghost predicate Partial(s0: State, m: Marks, d: nat) {
    && TriColour(s0.pool.heap, s0.roots.Targets(), m)
    && m.marked <= ReachSet(s0) && m.pushed == |m.marked|
    && d == |m.marked| - |m.stack|
  }

  /** `s` lies inside the marking phase of the cycle from `s0`, with `d` objects traced. */
  ghost predicate Marking(s0: State, s: State, d: nat) {
    && s == AfterMark(s0).(marks := s.marks)
    && Partial(s0, s.marks, d) && s.marks.stack != []
  }

  /** `s` lies inside the sweeping phase of the cycle from `s0`, with `c` objects judged. */
  ghost predicate Sweeping(s0: State, s: State, c: nat) {
    c < |s0.pool.List()| && s == SweepStep(AfterMark(s0), c)
  }

  lemma SubsetSize<T>(a: set<T>, b: set<T>)
    requires a <= b
    ensures |a| <= |b|
  {
    assert b == a + (b - a);
  }

  lemma StartEffect(s0: State)
    requires Idle(s0)
    ensures var s := Started(s0);
      s == AfterMark(s0).(marks := s.marks) && Partial(s0, s.marks, 0)
  {
    var m := MarkAll(Marks({}, [], 0), s0.roots.Targets());
    ScanEffect(s0.pool.heap, s0.roots.Targets(), Marks({}, [], 0));
    forall p | p in m.marked ensures p in ReachSet(s0) {
      RootIsReachable(s0.pool.heap, s0.roots.Targets(), p);
    }
  }

  /** Tracing `budget` objects leaves a partial marking, or has marked exactly what is reachable. */
  lemma TraceInCycle(s0: State, m: Marks, d: nat, budget: nat)
    requires Idle(s0) && Partial(s0, m, d)
    ensures var t := Trace(s0.pool.heap, m, budget);
      if d + budget < |ReachSet(s0)| then Partial(s0, t, d + budget) && t.stack != []
      else t == Marks(ReachSet(s0), [], |ReachSet(s0)|)
  {
    var heap, targets, r := s0.pool.heap, s0.roots.Targets(), ReachSet(s0);
    var t := Trace(heap, m, budget);
    TraceEffect(heap, targets, m, budget);
    forall p | p in r ensures Within(Edges(heap, p), r) {
      forall q | q in Edges(heap, p) && q != NULL ensures q in r {
        EdgeIsReachable(heap, targets, p, q);
      }
    }
    TraceStaysWithin(heap, targets, m, budget, r);
    SubsetSize(t.marked, r);
    if t.stack == [] {
      forall p | p in r ensures p in t.marked {
        EmptyStackMarksAllReachable(heap, targets, t, p);
      }
      assert t.marked == r;
    }
  }

  lemma SweepStepTwice(s: State, a: nat, b: nat)
    ensures SweepStep(SweepStep(s, a), b) == SweepStep(s, a + b)
  {
    SweepTwice(s.pool, s.marks.marked, a, b);
  }

  /** A sweep budget beyond the end of the list does no more than reach the end. */
  lemma SweepStepReach(s: State, budget: nat)
    requires NoDuplicates(s.pool.rest)
    ensures var n := |s.pool.rest|;
      if budget < n then SweepStep(s, budget).pool.rest != []
      else SweepStep(s, budget) == SweepStep(s, n)
  {
    SweepEffect(s.pool, s.marks.marked, budget);
    SweepEffect(s.pool, s.marks.marked, |s.pool.rest|);
  }

  lemma RestIsList(s0: State)
    requires Idle(s0)
    ensures AfterMark(s0).pool.rest == s0.pool.List() == s0.pool.kept
    ensures NoDuplicates(AfterMark(s0).pool.rest)
  {
    assert s0.pool.kept + [] == s0.pool.kept;
  }

  /** Sweeping on from `c` judged objects. */
  lemma SweepInCycle(s0: State, c: nat, budget: nat)
    requires Idle(s0)
    ensures var s := Finish(SweepStep(SweepStep(AfterMark(s0), c), budget));
      if c + budget < |s0.pool.List()| then Sweeping(s0, s, c + budget) && s.inProgress else s == Finished(s0)
  {
    RestIsList(s0);
    SweepStepTwice(AfterMark(s0), c, budget);
    SweepStepReach(AfterMark(s0), c + budget);
  }

  /** From a partial marking with `d` objects traced, one step's work. */
  lemma WorkOnMarking(s0: State, s: State, d: nat, budget: nat)
    requires Idle(s0) && s == AfterMark(s0).(marks := s.marks) && Partial(s0, s.marks, d)
    ensures var t := TraceStep(s, TraceBudget(budget));
      var u := Finish(if t.marks.stack == [] then SweepStep(t, SweepBudget(budget)) else t);
      if d + TraceBudget(budget) < |ReachSet(s0)| then Marking(s0, u, d + TraceBudget(budget)) && u.inProgress
      else if SweepBudget(budget) < |s0.pool.List()| then Sweeping(s0, u, SweepBudget(budget)) && u.inProgress
      else u == Finished(s0)
  {
    TraceInCycle(s0, s.marks, d, TraceBudget(budget));
    var t := TraceStep(s, TraceBudget(budget));
    if t.marks.stack == [] {
      assert t == AfterMark(s0);
      assert SweepStep(t, 0) == t;
      SweepInCycle(s0, 0, SweepBudget(budget));
    }
  }

  lemma FirstStep(s0: State, budget: nat)
    requires Idle(s0)
    ensures var u := Step(s0, budget);
      if TraceBudget(budget) < |ReachSet(s0)| then Marking(s0, u, TraceBudget(budget)) && u.inProgress
      else if SweepBudget(budget) < |s0.pool.List()| then Sweeping(s0, u, SweepBudget(budget)) && u.inProgress
      else u == Finished(s0)
  {
    StartEffect(s0);
    WorkOnMarking(s0, Started(s0), 0, budget);
  }

  lemma MarkingStep(s0: State, s: State, d: nat, budget: nat)
    requires Idle(s0) && Marking(s0, s, d)
    ensures var u := Step(s, budget);
      if d + TraceBudget(budget) < |ReachSet(s0)| then Marking(s0, u, d + TraceBudget(budget)) && u.inProgress
      else if SweepBudget(budget) < |s0.pool.List()| then Sweeping(s0, u, SweepBudget(budget)) && u.inProgress
      else u == Finished(s0)
  {
    assert Started(s) == s;
    WorkOnMarking(s0, s, d, budget);
  }

  lemma SweepingStep(s0: State, s: State, c: nat, budget: nat)
    requires Idle(s0) && Sweeping(s0, s, c)
    ensures var u := Step(s, budget);
      if c + SweepBudget(budget) < |s0.pool.List()| then Sweeping(s0, u, c + SweepBudget(budget)) && u.inProgress
      else u == Finished(s0)
  {
    assert Started(s) == s && TraceStep(s, TraceBudget(budget)) == s;
    SweepInCycle(s0, c, SweepBudget(budget));
  }

  // ----- every budget sequence -----

  /** The cycle from `s0` is still running after each proper, non-empty prefix of `budgets`. */
  ghost predicate RunsUntil(s0: State, budgets: seq<nat>) {
    forall k :: 0 < k < |budgets| ==> Steps(s0, budgets[..k]).inProgress
  }

  /** Where a run of `k` steps can stand: marking, sweeping, or at the end. */
  ghost predicate Stands(s0: State, s: State, k: nat, d: nat, c: nat) {
    var r, n := |ReachSet(s0)|, |s0.pool.List()|;
    || (Marking(s0, s, d) && s.inProgress && c == 0 && k <= d < r)
    || (Sweeping(s0, s, c) && s.inProgress && d == r && k <= AtLeastOne(r) - 1 + c)
    || (s == Finished(s0) && c == n && k <= AtLeastOne(r) - 1 + AtLeastOne(n))
  }

  lemma StepMoves(s0: State, s: State, k: nat, d: nat, c: nat, budget: nat) returns (d': nat, c': nat)
    requires Idle(s0) && Stands(s0, s, k, d, c) && s.inProgress
    ensures Stands(s0, Step(s, budget), k + 1, d', c')
  {
    var t, w, r, n := TraceBudget(budget), SweepBudget(budget), |ReachSet(s0)|, |s0.pool.List()|;
    hide Step, Idle, Marking, Finished, ReachSet, TraceBudget, SweepBudget;
    FinishedHasEnded(s0);
    if Marking(s0, s, d) && c == 0 && k <= d < r {
      MarkingStep(s0, s, d, budget);
      d', c' := if d + t < r then d + t else r, if d + t < r then 0 else if w < n then w else n;
    } else {
      SweepingStep(s0, s, c, budget);
      d', c' := d, if c + w < n then c + w else n;
    }
  }

  lemma FirstMove(s0: State, budget: nat) returns (d: nat, c: nat)
    requires Idle(s0)
    ensures Stands(s0, Step(s0, budget), 1, d, c)
  {
    var t, w, r, n := TraceBudget(budget), SweepBudget(budget), |ReachSet(s0)|, |s0.pool.List()|;
    hide Step, Idle, Marking, Sweeping, Finished, ReachSet, TraceBudget, SweepBudget;
    FirstStep(s0, budget);
    d, c := if t < r then t else r, if t < r then 0 else if w < n then w else n;
  }

  lemma {:induction false} RunPosition(s0: State, budgets: seq<nat>) returns (d: nat, c: nat)
    requires Idle(s0) && budgets != [] && RunsUntil(s0, budgets)
    ensures Stands(s0, Steps(s0, budgets), |budgets|, d, c)
    decreases |budgets|
  {
    hide Step, Stands, Idle;
    var n := |budgets| - 1;
    var prefix, b := budgets[..n], budgets[n];
    if n == 0 {
      d, c := FirstMove(s0, b);
    } else {
      forall k | 0 < k < n ensures Steps(s0, prefix[..k]).inProgress {
        assert prefix[..k] == budgets[..k];
      }
      d, c := RunPosition(s0, prefix);
      d, c := StepMoves(s0, Steps(s0, prefix), n, d, c, b);
    }
  }

  /** Every cycle, whatever its budgets, ends in the same state, and does so within as many steps
      as there are reachable and listed objects. */
  lemma CycleResult(s0: State, budgets: seq<nat>)
    requires Idle(s0) && budgets != [] && RunsUntil(s0, budgets)
    ensures !Steps(s0, budgets).inProgress ==> Steps(s0, budgets) == Finished(s0)
    ensures |budgets| >= AtLeastOne(|ReachSet(s0)|) - 1 + AtLeastOne(|s0.pool.List()|) ==> !Steps(s0, budgets).inProgress
  {
    var d, c := RunPosition(s0, budgets);
    FinishedHasEnded(s0);
  }

  lemma FinishedHasEnded(s0: State)
    requires Idle(s0)
    ensures !Finished(s0).inProgress
  {
    var a := AfterMark(s0);
    RestIsList(s0);
    SweepEffect(a.pool, a.marks.marked, |s0.pool.List()|);
  }

  /** What the end of a cycle is, before its consequences are drawn. */
  lemma FinishedShape(s0: State)
    requires Idle(s0)
    ensures var s, live, dead := Finished(s0), Only(s0.pool.List(), ReachSet(s0)), Without(s0.pool.List(), ReachSet(s0));
      && s.pool == Passed(AfterMark(s0).pool, [], live, dead)
      && s.marks == Marks({}, [], |ReachSet(s0)|)
      && !s.inProgress && s.roots == s0.roots && s.growth == s0.growth && s.collections == s0.collections + 1
      && s.threshold == GrownThreshold(s.pool.tally.live, s0.growth)
  {
    var a, list, r := AfterMark(s0), s0.pool.List(), ReachSet(s0);
    RestIsList(s0);
    SweepEffect(a.pool, r, |list|);
    assert list[..|list|] == list && list[|list|..] == [];
    assert r - Elements(list) == {};
  }

  /** What remains and what was freed, in the words of FinishedState. */
  lemma FinishedParts(s0: State)
    requires Idle(s0)
    ensures var s, live, dead := Finished(s0), Only(s0.pool.List(), ReachSet(s0)), Without(s0.pool.List(), ReachSet(s0));
      && s.pool == Pool(live, [], s0.pool.heap - Elements(dead),
                        Tally(|live|, Bytes(s0.pool.heap, live), Bytes(s0.pool.heap, live), |dead|),
                        Log(s0.pool.log.freed + dead, s0.pool.log.finalized + Finalizable(s0.pool.heap, dead)))
      && s.marks == Marks({}, [], |live|) && !s.inProgress
  {
    hide ReachSet, Finished, Only, Without, Bytes, Finalizable, GrownThreshold, Reachable, Closed;
    FinishedShape(s0);
    SurvivorsAreReachable(s0);
    FreedDescribed(s0.pool, ReachSet(s0));
    var live := Only(s0.pool.List(), ReachSet(s0));
    assert [] + live == live;
  }

  lemma FinishedIsIdle(s0: State)
    requires Idle(s0)
    ensures Idle(Finished(s0))
  {
    hide ReachSet, Finished, Only, Without, Bytes, Finalizable, Reachable, Closed;
    var list, r, s := s0.pool.List(), ReachSet(s0), Finished(s0);
    var live, dead := Only(list, r), Without(list, r);
    FinishedParts(s0);
    FinishedShape(s0);
    SurvivorsAreReachable(s0);
    FreedDescribed(s0.pool, r);
    ReachSetClosed(s0);
    FilterMembers(list, r);
    FrameClosed(s0.pool.heap, s0.pool.heap - Elements(dead), s0.roots.Targets(), r);
    assert s.pool.List() == live;
    assert Consistent(s.pool);
  }

  /** The threshold for `live` bytes: 1024, or `live` and `growth` percent of it, rounded down. */
  predicate ThresholdFits(threshold: nat, live: nat, growth: nat) {
    && live <= threshold && 1024 <= threshold
    && (threshold == 1024 <==> 100 * live + live * growth < 102500)
    && (threshold == 1024 || 100 * (threshold - live) <= live * growth < 100 * (threshold - live + 1))
  }

  lemma GrownFits(live: nat, growth: nat)
    ensures ThresholdFits(GrownThreshold(live, growth), live, growth)
  {
    var grown := live * growth / 100;
    assert 100 * grown <= live * growth < 100 * (grown + 1);
  }

  /** The end of a cycle, spelled out: exactly the reachable objects remain, in their order and
      unmarked; every other object has been finalized and freed once, in list order; the counters
      describe what remains; and the collector is idle again. */
  lemma FinishedState(s0: State)
    requires Idle(s0)
    ensures var s, live, dead := Finished(s0), Only(s0.pool.List(), ReachSet(s0)), Without(s0.pool.List(), ReachSet(s0));
      && Idle(s)
      && s.pool.List() == live
      && s.pool.heap == s0.pool.heap - Elements(dead)
      && s.pool.log == Log(s0.pool.log.freed + dead, s0.pool.log.finalized + Finalizable(s0.pool.heap, dead))
      && NoDuplicates(dead)
      && s.pool.tally == Tally(|live|, Bytes(s0.pool.heap, live), Bytes(s0.pool.heap, live), |dead|)
      && s.marks == Marks({}, [], |live|)
      && s.marks.pushed + s.pool.tally.swept == s0.pool.tally.objects
      && ThresholdFits(s.threshold, Bytes(s0.pool.heap, live), s0.growth)
      && s.roots == s0.roots && s.growth == s0.growth && s.collections == s0.collections + 1
  {
    GrownFits(Bytes(s0.pool.heap, Only(s0.pool.List(), ReachSet(s0))), s0.growth);
    hide ThresholdFits;
    FinishedIsIdle(s0);
    FinishedParts(s0);
    FinishedShape(s0);
    FilterNoDuplicates(s0.pool.List(), ReachSet(s0));
    FilterMembers(s0.pool.List(), ReachSet(s0));
    hide ReachSet, Finished, Only, Without, Bytes, Finalizable, GrownThreshold, Closed;
    assert Finished(s0).pool.List() == Finished(s0).pool.kept;
  }

  lemma FrameClosed(h1: Heap, h2: Heap, targets: seq<Ptr>, inside: set<Ptr>)
    requires Closed(h1, targets, inside) && inside <= h1.Keys
    requires forall p :: p in inside ==> p in h2 && h1[p] == h2[p]
    ensures Closed(h2, targets, inside)
  {
    forall p | p in inside ensures Within(Edges(h2, p), inside) {
      assert Edges(h2, p) == Edges(h1, p);
    }
  }

  lemma SurvivorsAreReachable(s0: State)
    requires Idle(s0)
    ensures var live := Only(s0.pool.List(), ReachSet(s0));
      Elements(live) == ReachSet(s0) <= Elements(s0.pool.List()) && NoDuplicates(live) && |live| == |ReachSet(s0)|
  {
    var list, r := s0.pool.List(), ReachSet(s0);
    FilterMembers(list, r);
    FilterNoDuplicates(list, r);
    NoDuplicatesSize(Only(list, r));
    assert Elements(Only(list, r)) == r;
  }

  /** Freeing what a filter drops leaves the filtered objects, with their sizes. */
  lemma FreedDescribed(pool: Pool, keep: set<Ptr>)
    requires Consistent(pool) && keep <= Elements(pool.List())
    ensures var live, dead := Only(pool.List(), keep), Without(pool.List(), keep);
      && (pool.heap - Elements(dead)).Keys == keep
      && Bytes(pool.heap - Elements(dead), live) == Bytes(pool.heap, live)
      && pool.tally.objects - |dead| == |live|
      && pool.tally.bytes - Bytes(pool.heap, dead) == Bytes(pool.heap, live)
  {
    var list := pool.List();
    FilterMembers(list, keep);
    SplitBytes(pool.heap, list, keep);
    BytesFrame(pool.heap, pool.heap - Elements(Without(list, keep)), Only(list, keep));
  }

  lemma ReachSetClosed(s0: State)
    requires Idle(s0)
    ensures Closed(s0.pool.heap, s0.roots.Targets(), ReachSet(s0))
  {
    var heap, targets, r := s0.pool.heap, s0.roots.Targets(), ReachSet(s0);
    forall p | p in targets && p != NULL ensures p in r {
      RootIsReachable(heap, targets, p);
    }
    forall p, q | p in r && q in Edges(heap, p) && q != NULL ensures q in r {
      EdgeIsReachable(heap, targets, p, q);
    }
  }

  /** Budgets do not matter: two cycles from one idle state end in the same state. */
  lemma BudgetsDoNotMatter(s0: State, one: seq<nat>, other: seq<nat>)
    requires Idle(s0) && one != [] && other != []
    requires RunsUntil(s0, one) && !Steps(s0, one).inProgress
    requires RunsUntil(s0, other) && !Steps(s0, other).inProgress
    ensures Steps(s0, one) == Steps(s0, other)
  {
    CycleResult(s0, one);
    CycleResult(s0, other);
  }
}
