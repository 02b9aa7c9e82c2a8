/** Whole runs of the collector with a mutator between its steps: the invariant every permitted
    action keeps, that no reachable object is ever freed, and when a fresh object survives the
    step its own allocation may run. */
module GcRuns {
  import opened GcModel
  import opened GcMarking
  import opened GcSweeping
  import opened GcCycle

  ghost predicate InMarking(s: State) {
    s.inProgress && s.marks.stack != []
  }

  ghost predicate InSweeping(s: State) {
    s.inProgress && s.marks.stack == []
  }

  /** The objects this cycle will not free: while sweeping, those already passed and those still
      marked; before that nothing has been condemned. */
  ghost function Spared(s: State): set<Ptr> {
    if InSweeping(s) then Elements(s.pool.kept) + s.marks.marked else Elements(s.pool.List())
  }

  ghost predicate Safe(s: State) {
    && Consistent(s.pool)
    && Closed(s.pool.heap, s.roots.Targets(), Spared(s))
    && (!s.inProgress ==> s.pool.rest == [] && s.marks.marked == {} && s.marks.stack == [])
    && (s.inProgress ==> s.rootsScanned && s.marks.marked <= Elements(s.pool.rest))
    && (InMarking(s) ==> s.pool.kept == [] && TriColour(s.pool.heap, s.roots.Targets(), s.marks))
  }

  /** No object reachable from the roots has been freed or is about to be. */
  lemma ReachableIsSpared(s: State, p: Ptr)
    requires Safe(s) && Reachable(s.pool.heap, s.roots.Targets(), p)
    ensures p in Spared(s) && p in s.pool.List() && p in s.pool.heap
  {
    ClosedHoldsReachable(s.pool.heap, s.roots.Targets(), Spared(s), p);
  }

  lemma IdleIsSafe(s: State)
    ensures Idle(s) <==> Safe(s) && !s.inProgress
  {
  }

  // ----- a step keeps the invariant -----

  /** What sweeping needs and keeps. */
  ghost predicate SweepSafe(pool: Pool, targets: seq<Ptr>, marked: set<Ptr>) {
    && Consistent(pool) && marked <= Elements(pool.rest)
    && Closed(pool.heap, targets, Elements(pool.kept) + marked)
  }

  lemma SweepPast(pool: Pool, targets: seq<Ptr>, marked: set<Ptr>)
    requires SweepSafe(pool, targets, marked) && pool.rest != [] && pool.rest[0] in marked
    ensures SweepSafe(SweepOne(pool, marked), targets, marked - {pool.rest[0]})
  {
    var p, one := pool.rest[0], SweepOne(pool, marked);
    assert one.List() == pool.List();
    assert pool.rest == [p] + one.rest;
    assert Elements(one.kept) + (marked - {p}) == Elements(pool.kept) + marked;
  }

  lemma ListWithout(xs: seq<Ptr>, p: Ptr, ys: seq<Ptr>)
    requires NoDuplicates(xs + ([p] + ys))
    ensures NoDuplicates(xs + ys) && p !in xs + ys
    ensures Elements(xs + ys) == Elements(xs + ([p] + ys)) - {p}
  {
    NoDuplicatesAppend(xs, [p] + ys);
    NoDuplicatesAppend([p], ys);
    forall i, j | 0 <= i < |xs| && 0 <= j < |ys| ensures xs[i] != ys[j] {
      assert ys[j] in [p] + ys;
    }
  }

  lemma BytesWithout(heap: Heap, xs: seq<Ptr>, p: Ptr, ys: seq<Ptr>)
    requires p !in xs + ys
    ensures Bytes(heap - {p}, xs + ys) == Bytes(heap, xs + ([p] + ys)) - SizeOf(heap, p)
  {
    BytesFrame(heap, heap - {p}, xs + ys);
    BytesAppend(heap, xs, ys);
    BytesAppend(heap, xs, [p] + ys);
    BytesCons(heap, p, ys);
  }

  lemma SweepAway(pool: Pool, targets: seq<Ptr>, marked: set<Ptr>)
    requires SweepSafe(pool, targets, marked) && pool.rest != [] && pool.rest[0] !in marked
    ensures SweepSafe(SweepOne(pool, marked), targets, marked - {pool.rest[0]})
  {
    hide Closed, Bytes;
    var p, tail := pool.rest[0], pool.rest[1..];
    assert pool.rest == [p] + tail;
    ListWithout(pool.kept, p, tail);
    BytesWithout(pool.heap, pool.kept, p, tail);
    FrameClosed(pool.heap, pool.heap - {p}, targets, Elements(pool.kept) + marked);
    assert marked - {p} == marked;
  }

  lemma {:induction false} SweepKeeps(pool: Pool, targets: seq<Ptr>, marked: set<Ptr>, budget: nat)
    requires SweepSafe(pool, targets, marked)
    ensures var swept := Sweep(pool, marked, budget); SweepSafe(swept.pool, targets, swept.marked)
    decreases budget
  {
    hide SweepSafe, SweepOne;
    if pool.rest != [] && budget > 0 {
      if pool.rest[0] in marked {
        SweepPast(pool, targets, marked);
      } else {
        SweepAway(pool, targets, marked);
      }
      SweepKeeps(SweepOne(pool, marked), targets, marked - {pool.rest[0]}, budget - 1);
    }
  }

  /** Inside a step, once the roots have been scanned and before tracing. */
  ghost predicate BeforeTracing(s: State) {
    && Consistent(s.pool) && s.inProgress && s.rootsScanned && s.pool.kept == []
    && s.marks.marked <= Elements(s.pool.rest)
    && TriColour(s.pool.heap, s.roots.Targets(), s.marks)
    && Closed(s.pool.heap, s.roots.Targets(), Elements(s.pool.rest))
  }

  lemma StartedIsReady(s: State)
    requires Safe(s) && !InSweeping(s)
    ensures BeforeTracing(Started(s))
  {
    if !s.inProgress {
      var list := s.pool.List();
      assert [] + list == list;
      assert Begin(s).pool.List() == list;
      assert Marks({}, [], 0) == Begin(s).marks;
      ScanEffect(s.pool.heap, s.roots.Targets(), Marks({}, [], 0));
    } else {
      assert s.pool.List() == s.pool.rest;
    }
  }

  lemma TracedMarks(s: State, budget: nat)
    requires BeforeTracing(s)
    ensures var m := Trace(s.pool.heap, s.marks, budget);
      && TriColour(s.pool.heap, s.roots.Targets(), m) && m.marked <= Elements(s.pool.rest)
      && (m.stack == [] ==> Closed(s.pool.heap, s.roots.Targets(), m.marked))
  {
    hide Consistent;
    TraceEffect(s.pool.heap, s.roots.Targets(), s.marks, budget);
    TraceStaysWithin(s.pool.heap, s.roots.Targets(), s.marks, budget, Elements(s.pool.rest));
  }

  lemma TracedStep(s: State, budget: nat)
    requires BeforeTracing(s)
    ensures var t := TraceStep(s, budget);
      if t.marks.stack != [] then Safe(t) else SweepSafe(t.pool, t.roots.Targets(), t.marks.marked)
  {
    TracedMarks(s, budget);
    hide Consistent, Trace, TriColour, Closed;
    var t := TraceStep(s, budget);
    assert s.pool.List() == s.pool.rest;
    assert Elements([]) + t.marks.marked == t.marks.marked;
  }

  lemma SweptStep(s: State, budget: nat)
    requires s.inProgress && s.rootsScanned && s.marks.stack == []
    requires SweepSafe(s.pool, s.roots.Targets(), s.marks.marked)
    ensures Safe(Finish(SweepStep(s, budget)))
  {
    SweepKeeps(s.pool, s.roots.Targets(), s.marks.marked, budget);
    var t := SweepStep(s, budget);
    if t.pool.rest == [] {
      assert Elements([]) == {};
      assert t.pool.List() == t.pool.kept && t.marks.marked == {};
      assert Elements(t.pool.kept) + {} == Elements(t.pool.kept);
    }
  }

  lemma StepIsSafe(s: State, budget: nat)
    requires Safe(s)
    ensures Safe(Step(s, budget))
  {
    hide Safe, BeforeTracing, SweepSafe;
    if InSweeping(s) {
      SweepingIsSweepSafe(s);
      assert Started(s) == s && TraceStep(s, TraceBudget(budget)) == s;
      SweptStep(s, SweepBudget(budget));
    } else {
      StartedIsReady(s);
      ReadyIsStarted(Started(s));
      TracedStep(Started(s), TraceBudget(budget));
      var t := TraceStep(Started(s), TraceBudget(budget));
      if t.marks.stack == [] {
        SweptStep(t, SweepBudget(budget));
      }
    }
  }

  lemma SweepingIsSweepSafe(s: State)
    requires Safe(s) && InSweeping(s)
    ensures SweepSafe(s.pool, s.roots.Targets(), s.marks.marked) && s.rootsScanned
  {
  }

  lemma ReadyIsStarted(s: State)
    requires BeforeTracing(s)
    ensures s.inProgress && s.rootsScanned
  {
  }

  // ----- the mutator -----

  /** What a program does with the collector and with its own memory. */
  datatype Action =
    | Collect(budget: nat)                       // nova_gc_collect_step
    | Allocate(p: Ptr, size: nat, traceable: bool, finalizable: bool, fields: nat)
    | Register(slot: Slot)                       // nova_gc_add_root
    | Unregister(slot: Slot)                     // nova_gc_remove_root
    | Store(p: Ptr, field: nat, value: Ptr)      // p->field = value
    | Assign(slot: Slot, value: Ptr)             // *slot = value

  function WithFields(s: State, p: Ptr, fields: seq<Ptr>): State
    requires p in s.pool.heap
  {
    s.(pool := s.pool.(heap := s.pool.heap[p := s.pool.heap[p].(fields := fields)]))
  }

  function Apply(s: State, a: Action): State {
    match a
    case Collect(budget) => Step(s, budget)
    case Allocate(p, size, traceable, finalizable, fields) => Alloc(s, p, size, traceable, finalizable, fields)
    case Register(slot) => s.(roots := s.roots.(slots := s.roots.slots + [slot]))
    case Unregister(slot) => s.(roots := s.roots.(slots := RemoveRoot(s.roots.slots, slot)))
    case Store(p, field, value) =>
      if p in s.pool.heap && field < |s.pool.heap[p].fields|
      then WithFields(s, p, s.pool.heap[p].fields[field := value]) else s
    case Assign(slot, value) => s.(roots := s.roots.(vars := s.roots.vars[slot := value]))
  }

  /** A root may come to hold `value`: anything not condemned, and while marking runs, only what
      is marked already. */
  ghost predicate RootMayHold(s: State, value: Ptr) {
    value == NULL || value in (if InMarking(s) then s.marks.marked else Spared(s))
  }

  /** There is no write barrier: while marking runs, an object that has been traced already may
      only be given marked objects. */
  ghost predicate MayHold(s: State, p: Ptr, value: Ptr) {
    || value == NULL
    || (value in Spared(s) && (InMarking(s) && p in s.marks.marked && p !in s.marks.stack ==> value in s.marks.marked))
  }

  ghost predicate Permitted(s: State, a: Action) {
    match a
    case Collect(_) => true
    case Allocate(p, _, _, _, _) => p != NULL && p !in s.pool.heap   // what the allocator promises
    case Register(slot) => RootMayHold(s, Read(s.roots.vars, slot))
    case Unregister(_) => true
    case Store(p, _, value) => MayHold(s, p, value)
    case Assign(slot, value) => slot in s.roots.slots ==> RootMayHold(s, value)
  }

  function Run(s: State, actions: seq<Action>): State
    decreases |actions|
  {
    if actions == [] then s else Run(Apply(s, actions[0]), actions[1..])
  }

  ghost predicate PermittedRun(s: State, actions: seq<Action>)
    decreases |actions|
  {
    actions == [] || (Permitted(s, actions[0]) && PermittedRun(Apply(s, actions[0]), actions[1..]))
  }

  lemma TargetsAre(r: Roots)
    ensures forall p :: p in r.Targets() <==> exists slot :: slot in r.slots && p == Read(r.vars, slot)
  {
    forall p | p in r.Targets() ensures exists slot :: slot in r.slots && p == Read(r.vars, slot) {
      var i :| 0 <= i < |r.slots| && r.Targets()[i] == p;
      assert r.slots[i] in r.slots;
    }
    forall slot | slot in r.slots ensures Read(r.vars, slot) in r.Targets() {
      var i :| 0 <= i < |r.slots| && r.slots[i] == slot;
      assert r.Targets()[i] == Read(r.vars, slot);
    }
  }

  /** Changing the roots is harmless as long as each new target may be held. */
  lemma RootsChange(s: State, roots: Roots)
    requires Safe(s)
    requires forall p :: p in roots.Targets() ==> p in s.roots.Targets() || RootMayHold(s, p)
    ensures Safe(s.(roots := roots))
  {
    if InMarking(s) {
      assert s.pool.List() == s.pool.rest;
      assert s.marks.marked <= Spared(s);
    }
    assert Spared(s.(roots := roots)) == Spared(s);
  }

  /** Removing a root takes one entry for the slot out of the table, if there is one, and no other. */
  lemma RemoveRootCounts(roots: seq<Slot>, slot: Slot)
    ensures multiset(RemoveRoot(roots, slot)) == multiset(roots) - multiset{slot}
  {
    var i, n := FirstIndex(roots, slot), |roots| - 1;
    hide FirstIndex;
    if i < |roots| {
      var last := roots[n];
      assert roots == roots[..n] + [last];
      if i == n {
        assert RemoveRoot(roots, slot) == roots[..n];
      } else {
        MoveIntoGap(roots[..n], i, last);
        assert RemoveRoot(roots, slot) == roots[..n][i := last];
      }
    } else {
      assert slot !in multiset(roots);
    }
  }

  lemma MoveIntoGap(front: seq<Slot>, i: nat, last: Slot)
    requires i < |front|
    ensures multiset(front[i := last]) == multiset(front) - multiset{front[i]} + multiset{last}
  {
    assert front == front[..i] + [front[i]] + front[i + 1..];
    assert front[i := last] == front[..i] + [last] + front[i + 1..];
  }

  lemma RemoveRootOnly(roots: seq<Slot>, slot: Slot)
    ensures forall x :: x in RemoveRoot(roots, slot) ==> x in roots
  {
  }

  lemma FieldsChange(s: State, p: Ptr, fields: seq<Ptr>)
    requires Safe(s) && p in s.pool.heap
    requires forall q :: q in fields ==> q in s.pool.heap[p].fields || MayHold(s, p, q)
    ensures Safe(WithFields(s, p, fields))
  {
    hide NoDuplicates, Bytes;
    var t := WithFields(s, p, fields);
    BytesFrame(s.pool.heap, t.pool.heap, s.pool.List());
    assert Spared(t) == Spared(s);
    forall o | o in t.pool.heap && o != p ensures Edges(t.pool.heap, o) == Edges(s.pool.heap, o) {
    }
    assert forall q :: q in Edges(t.pool.heap, p) ==> q in Edges(s.pool.heap, p) || MayHold(s, p, q);
  }

  lemma LinkedList(heap: Heap, list: seq<Ptr>, p: Ptr, o: Object)
    requires NoDuplicates(list) && heap.Keys == Elements(list) && p !in heap
    ensures NoDuplicates([p] + list) && heap[p := o].Keys == Elements([p] + list)
    ensures Bytes(heap[p := o], [p] + list) == Bytes(heap, list) + o.size
  {
    BytesCons(heap[p := o], p, list);
    BytesFrame(heap, heap[p := o], list);
  }

  lemma LinkIsConsistent(s: State, p: Ptr, size: nat, traceable: bool, finalizable: bool, fields: nat)
    requires Consistent(s.pool) && p != NULL && p !in s.pool.heap
    ensures var t := Link(s, p, size, traceable, finalizable, fields);
      t.pool.List() == [p] + s.pool.List() && Consistent(t.pool)
  {
    hide NoDuplicates, Bytes;
    var t := Link(s, p, size, traceable, finalizable, fields);
    assert t.pool.List() == [p] + s.pool.List();
    LinkedList(s.pool.heap, s.pool.List(), p, t.pool.heap[p]);
  }

  /** A fresh object is spared unless it was linked in under the sweep cursor. */
  lemma LinkSpares(s: State, p: Ptr, size: nat, traceable: bool, finalizable: bool, fields: nat)
    ensures var t := Link(s, p, size, traceable, finalizable, fields);
      Spared(t) == if InSweeping(s) && s.pool.kept == [] then Spared(s) else Spared(s) + {p}
  {
    var t := Link(s, p, size, traceable, finalizable, fields);
    assert t.pool.List() == [p] + s.pool.List();
    assert Elements([p] + s.pool.List()) == {p} + Elements(s.pool.List());
    assert Elements([p] + s.pool.kept) == {p} + Elements(s.pool.kept);
  }

  lemma LinkEdges(s: State, p: Ptr, size: nat, traceable: bool, finalizable: bool, fields: nat, inside: set<Ptr>)
    requires Safe(s) && p !in s.pool.heap && inside <= s.pool.heap.Keys
    ensures var heap := Link(s, p, size, traceable, finalizable, fields).pool.heap;
      && (forall o :: o in inside ==> Edges(heap, o) == Edges(s.pool.heap, o))
      && Within(Edges(heap, p), {})
  {
  }

  lemma LinkIsClosed(s: State, p: Ptr, size: nat, traceable: bool, finalizable: bool, fields: nat)
    requires Safe(s) && p !in s.pool.heap
    ensures var t := Link(s, p, size, traceable, finalizable, fields);
      Closed(t.pool.heap, t.roots.Targets(), Spared(t))
  {
    hide Link, Consistent;
    LinkSpares(s, p, size, traceable, finalizable, fields);
    forall o | o in Spared(s) ensures o in s.pool.heap.Keys {
      SparedIsAllocated(s, o);
    }
    LinkEdges(s, p, size, traceable, finalizable, fields, Spared(s));
    assert Link(s, p, size, traceable, finalizable, fields).roots == s.roots by {
      LinkKeepsRest(s, p, size, traceable, finalizable, fields);
    }
  }

  lemma LinkKeepsRest(s: State, p: Ptr, size: nat, traceable: bool, finalizable: bool, fields: nat)
    ensures var t := Link(s, p, size, traceable, finalizable, fields);
      t == s.(pool := t.pool) && (s.inProgress && s.pool.kept == [] ==> t.pool.kept == [])
      && (!s.inProgress ==> t.pool.rest == s.pool.rest) && Elements(s.pool.rest) <= Elements(t.pool.rest)
  {
    assert Elements([p] + s.pool.rest) == {p} + Elements(s.pool.rest);
  }

  lemma LinkIsSafe(s: State, p: Ptr, size: nat, traceable: bool, finalizable: bool, fields: nat)
    requires Safe(s) && p != NULL && p !in s.pool.heap
    ensures Safe(Link(s, p, size, traceable, finalizable, fields))
  {
    LinkKeepsRest(s, p, size, traceable, finalizable, fields);
    LinkIsConsistent(s, p, size, traceable, finalizable, fields);
    LinkIsClosed(s, p, size, traceable, finalizable, fields);
    if InMarking(s) {
      assert s.marks.marked <= s.pool.heap.Keys by {
        assert s.pool.List() == s.pool.rest;
      }
      LinkEdges(s, p, size, traceable, finalizable, fields, s.marks.marked);
    }
    hide Link, Consistent, Closed, Spared;
  }

  lemma SparedIsAllocated(s: State, p: Ptr)
    requires Safe(s) && p in Spared(s)
    ensures p in s.pool.heap && p in s.pool.List()
  {
  }

  lemma ActionIsSafe(s: State, a: Action)
    requires Safe(s) && Permitted(s, a)
    ensures Safe(Apply(s, a))
  {
    hide Safe, MayHold, RootMayHold, Step, Link;
    var t := Apply(s, a);
    match a
    case Collect(budget) => StepIsSafe(s, budget);
    case Allocate(p, size, traceable, finalizable, fields) =>
      LinkIsSafe(s, p, size, traceable, finalizable, fields);
      StepIsSafe(Link(s, p, size, traceable, finalizable, fields), 128);
    case Register(slot) =>
      TargetsAre(s.roots);
      TargetsAre(t.roots);
      RootsChange(s, t.roots);
    case Unregister(slot) =>
      RemoveRootOnly(s.roots.slots, slot);
      TargetsAre(s.roots);
      TargetsAre(t.roots);
      RootsChange(s, t.roots);
    case Store(p, field, value) =>
      if p in s.pool.heap && field < |s.pool.heap[p].fields| {
        FieldsChange(s, p, s.pool.heap[p].fields[field := value]);
      }
    case Assign(slot, value) =>
      TargetsAre(s.roots);
      TargetsAre(t.roots);
      RootsChange(s, t.roots);
  }

  /** Over every permitted run from a fresh collector, the object count and the byte count are
      exact, no object is listed twice, and every reachable object is still allocated and listed. */
  lemma {:induction false} RunIsSafe(s: State, actions: seq<Action>)
    requires Safe(s) && PermittedRun(s, actions)
    ensures Safe(Run(s, actions))
    decreases |actions|
  {
    hide Safe, Permitted, Apply;
    if actions != [] {
      ActionIsSafe(s, actions[0]);
      RunIsSafe(Apply(s, actions[0]), actions[1..]);
    }
  }

  lemma CreatedIsSafe(threshold: nat, growth: nat)
    ensures Safe(Create(threshold, growth))
  {
  }

  lemma NoReachableObjectIsLost(threshold: nat, growth: nat, actions: seq<Action>, p: Ptr)
    requires PermittedRun(Create(threshold, growth), actions)
    ensures var s := Run(Create(threshold, growth), actions);
      && s.pool.tally.objects == |s.pool.List()| && s.pool.tally.bytes == Bytes(s.pool.heap, s.pool.List())
      && NoDuplicates(s.pool.List()) && s.pool.heap.Keys == Elements(s.pool.List())
      && (Reachable(s.pool.heap, s.roots.Targets(), p) ==> p in s.pool.List() && p in s.pool.heap)
  {
    CreatedIsSafe(threshold, growth);
    RunIsSafe(Create(threshold, growth), actions);
    var s := Run(Create(threshold, growth), actions);
    if Reachable(s.pool.heap, s.roots.Targets(), p) {
      ReachableIsSpared(s, p);
    }
  }
}
