/** The collector of src/gc.cpp as a function on states: what each routine does to the live
    list, the mark bits, the mark stack, the sweep cursor and the counters. The class in
    GcCollector.dfy is proved to compute exactly these functions; every law of the collector is
    proved about them.

    The live list is kept split at the sweep cursor: `kept` lies before the cursor, `rest` is
    what the cursor still has to judge. While no cycle runs the whole list is `kept`. */
module GcModel {
  type Ptr = nat
  type Slot = nat

  const NULL: Ptr := 0

  /** One heap object: its header's constant part and the pointers its payload holds. */
  datatype Object = Object(size: nat, traceable: bool, finalizable: bool, fields: seq<Ptr>)

  type Heap = map<Ptr, Object>

  /** The mark bits, the mark stack and `objects_marked`. */
  datatype Marks = Marks(marked: set<Ptr>, stack: seq<Ptr>, pushed: nat)

  /** `object_count`, `bytes_allocated`, `bytes_live` and `objects_swept`. */
  datatype Tally = Tally(objects: int, bytes: int, live: nat, swept: nat)

  /** What left the heap: the objects handed to the allocator's free, and those whose finalizer
      ran, both in order. */
  datatype Log = Log(freed: seq<Ptr>, finalized: seq<Ptr>)

  datatype Pool = Pool(kept: seq<Ptr>, rest: seq<Ptr>, heap: Heap, tally: Tally, log: Log)
  {
    /** The list that starts at `objects`. */
    function List(): seq<Ptr> {
      kept + rest
    }
  }

  /** The root table and the variables its slots point at. */
  datatype Roots = Roots(slots: seq<Slot>, vars: map<Slot, Ptr>)
  {
    function Targets(): seq<Ptr> {
      seq(|slots|, i requires 0 <= i < |slots| => Read(vars, slots[i]))
    }
  }

  datatype State = State(
    pool: Pool,
    marks: Marks,
    roots: Roots,
    inProgress: bool,
    rootsScanned: bool,
    collections: nat,
    threshold: nat,
    growth: nat)

  function Read(vars: map<Slot, Ptr>, slot: Slot): Ptr {
    if slot in vars then vars[slot] else NULL
  }

  /** The pointers an object's trace function reports; none when it was allocated without one. */
  function Edges(heap: Heap, p: Ptr): seq<Ptr> {
    if p in heap && heap[p].traceable then heap[p].fields else []
  }

  function SizeOf(heap: Heap, p: Ptr): nat {
    if p in heap then heap[p].size else 0
  }

  function Bytes(heap: Heap, ps: seq<Ptr>): nat {
    if ps == [] then 0 else SizeOf(heap, ps[0]) + Bytes(heap, ps[1..])
  }

  /** The elements of `ps` that lie in `keep`, in order. */
  function Only(ps: seq<Ptr>, keep: set<Ptr>): seq<Ptr> {
    if ps == [] then []
    else (if ps[0] in keep then [ps[0]] else []) + Only(ps[1..], keep)
  }

  /** The elements of `ps` that lie outside `drop`, in order. */
  function Without(ps: seq<Ptr>, drop: set<Ptr>): seq<Ptr> {
    if ps == [] then []
    else (if ps[0] in drop then [] else [ps[0]]) + Without(ps[1..], drop)
  }

  function Finalizable(heap: Heap, ps: seq<Ptr>): seq<Ptr> {
    if ps == [] then []
    else (if ps[0] in heap && heap[ps[0]].finalizable then [ps[0]] else []) + Finalizable(heap, ps[1..])
  }

  ghost predicate NoDuplicates(ps: seq<Ptr>) {
    forall i, j :: 0 <= i < j < |ps| ==> ps[i] != ps[j]
  }

  function Elements(ps: seq<Ptr>): set<Ptr> {
    set p | p in ps
  }

  // ----- the routines -----

  function Create(threshold: nat, growth: nat): State {
    State(Pool([], [], map[], Tally(0, 0, 0, 0), Log([], [])), Marks({}, [], 0), Roots([], map[]),
          false, false, 0,
          if threshold > 0 then threshold else 64 * 1024,
          if growth > 0 then growth else 150)
  }

  /** nova_gc_mark_ptr */
  function Mark(m: Marks, p: Ptr): Marks {
    if p == NULL || p in m.marked then m
    else Marks(m.marked + {p}, m.stack + [p], m.pushed + 1)
  }

  function MarkAll(m: Marks, ps: seq<Ptr>): Marks
    decreases |ps|
  {
    if ps == [] then m else MarkAll(Mark(m, ps[0]), ps[1..])
  }

  /** begin_collection: the cursor goes back to the head of the list. */
  function Begin(s: State): State {
    s.(pool := s.pool.(kept := [], rest := s.pool.List(), tally := s.pool.tally.(swept := 0)),
       marks := s.marks.(pushed := 0),
       inProgress := true, rootsScanned := false, collections := s.collections + 1)
  }

  /** The guarded call of scan_roots in nova_gc_collect_step. */
  function ScanRoots(s: State): State {
    if s.rootsScanned then s
    else s.(pool := s.pool.(tally := s.pool.tally.(live := 0)),
            marks := MarkAll(s.marks, s.roots.Targets()), rootsScanned := true)
  }

  /** One iteration of trace_some. */
  function TraceOne(heap: Heap, m: Marks): Marks
    requires m.stack != []
  {
    var top := m.stack[|m.stack| - 1];
    MarkAll(m.(stack := m.stack[..|m.stack| - 1]), Edges(heap, top))
  }

  /** trace_some */
  function Trace(heap: Heap, m: Marks, budget: nat): Marks
    decreases budget
  {
    if m.stack == [] || budget == 0 then m else Trace(heap, TraceOne(heap, m), budget - 1)
  }

  /** One iteration of sweep_some, apart from the mark bit it clears. */
  function SweepOne(pool: Pool, marked: set<Ptr>): Pool
    requires pool.rest != []
  {
    var p, t := pool.rest[0], pool.tally;
    if p in marked then
      pool.(kept := pool.kept + [p], rest := pool.rest[1..],
            tally := t.(live := t.live + SizeOf(pool.heap, p)))
    else
      Pool(pool.kept, pool.rest[1..], pool.heap - {p},
           t.(objects := t.objects - 1, bytes := t.bytes - SizeOf(pool.heap, p), swept := t.swept + 1),
           Log(pool.log.freed + [p], pool.log.finalized + Finalizable(pool.heap, [p])))
  }

  datatype Swept = Swept(pool: Pool, marked: set<Ptr>)

  /** sweep_some */
  function Sweep(pool: Pool, marked: set<Ptr>, budget: nat): Swept
    decreases budget
  {
    if pool.rest == [] || budget == 0 then Swept(pool, marked)
    else Sweep(SweepOne(pool, marked), marked - {pool.rest[0]}, budget - 1)
  }

  function AtLeastOne(n: nat): (r: nat)
    ensures r >= 1
  {
    if n == 0 then 1 else n
  }

  function TraceBudget(budget: nat): (t: nat)
    ensures t >= 1
  {
    AtLeastOne(AtLeastOne(budget) / 2)
  }

  function SweepBudget(budget: nat): (n: nat)
    ensures n >= 1
  {
    AtLeastOne(budget) - AtLeastOne(budget) / 2
  }

  /** The threshold set at the end of a cycle that found `live` bytes. */
  function GrownThreshold(live: nat, growth: nat): (r: nat)
    ensures r >= 1024 && r >= live
  {
    var grown := live + live * growth / 100;
    if grown < 1024 then 1024 else grown
  }

  function Started(s: State): State {
    ScanRoots(if s.inProgress then s else Begin(s))
  }

  function TraceStep(s: State, budget: nat): State {
    s.(marks := Trace(s.pool.heap, s.marks, budget))
  }

  function SweepStep(s: State, budget: nat): State {
    var swept := Sweep(s.pool, s.marks.marked, budget);
    s.(pool := swept.pool, marks := s.marks.(marked := swept.marked))
  }

  function Finish(s: State): State {
    if s.marks.stack == [] && s.pool.rest == [] then
      s.(inProgress := false, threshold := GrownThreshold(s.pool.tally.live, s.growth))
    else s
  }

  /** nova_gc_collect_step */
  function Step(s: State, budget: nat): State {
    var traced := TraceStep(Started(s), TraceBudget(budget));
    Finish(if traced.marks.stack == [] then SweepStep(traced, SweepBudget(budget)) else traced)
  }

  function Steps(s: State, budgets: seq<nat>): State
    decreases |budgets|
  {
    if budgets == [] then s
    else Step(Steps(s, budgets[..|budgets| - 1]), budgets[|budgets| - 1])
  }

  /** The object nova_gc_alloc links in at the head of the list, before any step it may run. Its
      payload is zeroed, so all its fields are null. */
  function Link(s: State, p: Ptr, size: nat, traceable: bool, finalizable: bool, fields: nat): State {
    var o := Object(size, traceable, finalizable, seq(fields, _ => NULL));
    var t := s.pool.tally;
    var linked := s.pool.(heap := s.pool.heap[p := o],
                          tally := t.(objects := t.objects + 1, bytes := t.bytes + size));
    s.(pool := if s.inProgress && s.pool.kept == [] then linked.(rest := [p] + s.pool.rest)
               else linked.(kept := [p] + s.pool.kept))
  }

  /** nova_gc_alloc, given the address the allocator answered with. */
  function Alloc(s: State, p: Ptr, size: nat, traceable: bool, finalizable: bool, fields: nat): State {
    var linked := Link(s, p, size, traceable, finalizable, fields);
    if linked.pool.tally.bytes > s.threshold then Step(linked, 128) else linked
  }

  /** nova_gc_remove_root: the first entry for the slot is overwritten by the last entry. */
  function RemoveRoot(roots: seq<Slot>, slot: Slot): seq<Slot> {
    var i := FirstIndex(roots, slot);
    if i == |roots| then roots else roots[i := roots[|roots| - 1]][..|roots| - 1]
  }

  function FirstIndex(roots: seq<Slot>, slot: Slot): (i: nat)
    ensures i <= |roots| && (i < |roots| ==> roots[i] == slot)
    ensures forall j :: 0 <= j < i ==> roots[j] != slot
  {
    if roots == [] || roots[0] == slot then 0 else 1 + FirstIndex(roots[1..], slot)
  }

  // ----- reachability -----

  ghost predicate IsPath(heap: Heap, targets: seq<Ptr>, path: seq<Ptr>) {
    && path != [] && NULL !in path && path[0] in targets
    && forall i :: 0 <= i < |path| - 1 ==> path[i + 1] in Edges(heap, path[i])
  }

  /** Some chain of traced fields leads from a root to `p`. */
  ghost predicate Reachable(heap: Heap, targets: seq<Ptr>, p: Ptr) {
    exists path :: IsPath(heap, targets, path) && path[|path| - 1] == p
  }

  ghost function ReachSet(s: State): set<Ptr> {
    set p | p in s.pool.List() && Reachable(s.pool.heap, s.roots.Targets(), p)
  }

  /** `ps` holds only null and members of `inside`. */
  ghost predicate Within(ps: seq<Ptr>, inside: set<Ptr>) {
    forall p :: p in ps && p != NULL ==> p in inside
  }

  /** `inside` holds every root and the edges of its own members. */
  ghost predicate Closed(heap: Heap, targets: seq<Ptr>, inside: set<Ptr>) {
    && Within(targets, inside)
    && forall p :: p in inside ==> Within(Edges(heap, p), inside)
  }

  lemma {:induction false} ClosedHoldsPath(heap: Heap, targets: seq<Ptr>, inside: set<Ptr>, path: seq<Ptr>, i: nat)
    requires Closed(heap, targets, inside) && IsPath(heap, targets, path) && i < |path|
    ensures path[i] in inside
  {
    if i > 0 {
      ClosedHoldsPath(heap, targets, inside, path, i - 1);
      assert path[i - 1 + 1] in Edges(heap, path[i - 1]);
    }
  }

  lemma ClosedHoldsReachable(heap: Heap, targets: seq<Ptr>, inside: set<Ptr>, p: Ptr)
    requires Closed(heap, targets, inside) && Reachable(heap, targets, p)
    ensures p in inside
  {
    var path :| IsPath(heap, targets, path) && path[|path| - 1] == p;
    ClosedHoldsPath(heap, targets, inside, path, |path| - 1);
  }

  lemma RootIsReachable(heap: Heap, targets: seq<Ptr>, p: Ptr)
    requires p in targets && p != NULL
    ensures Reachable(heap, targets, p)
  {
    assert IsPath(heap, targets, [p]);
  }

  lemma EdgeIsReachable(heap: Heap, targets: seq<Ptr>, p: Ptr, q: Ptr)
    requires Reachable(heap, targets, p) && q in Edges(heap, p) && q != NULL
    ensures Reachable(heap, targets, q)
  {
    var path :| IsPath(heap, targets, path) && path[|path| - 1] == p;
    assert IsPath(heap, targets, path + [q]);
  }

  // ----- laws of the list functions -----

  lemma {:induction false} BytesAppend(heap: Heap, xs: seq<Ptr>, ys: seq<Ptr>)
    ensures Bytes(heap, xs + ys) == Bytes(heap, xs) + Bytes(heap, ys)
  {
    if xs == [] {
      assert xs + ys == ys;
    } else {
      assert (xs + ys)[1..] == xs[1..] + ys;
      BytesAppend(heap, xs[1..], ys);
    }
  }

  lemma BytesCons(heap: Heap, p: Ptr, ps: seq<Ptr>)
    ensures Bytes(heap, [p] + ps) == SizeOf(heap, p) + Bytes(heap, ps)
  {
    assert ([p] + ps)[1..] == ps;
  }

  lemma {:induction false} FinalizableAppend(heap: Heap, xs: seq<Ptr>, ys: seq<Ptr>)
    ensures Finalizable(heap, xs + ys) == Finalizable(heap, xs) + Finalizable(heap, ys)
  {
    if xs == [] {
      assert xs + ys == ys;
    } else {
      assert (xs + ys)[1..] == xs[1..] + ys;
      FinalizableAppend(heap, xs[1..], ys);
    }
  }

  lemma {:induction false} BytesFrame(h1: Heap, h2: Heap, ps: seq<Ptr>)
    requires forall p :: p in ps ==> SizeOf(h1, p) == SizeOf(h2, p)
    ensures Bytes(h1, ps) == Bytes(h2, ps)
  {
    if ps != [] {
      BytesFrame(h1, h2, ps[1..]);
    }
  }

  /** Filtering keeps exactly the wanted elements, and the two filters share out the list. */
  lemma {:induction false} FilterMembers(ps: seq<Ptr>, keep: set<Ptr>)
    ensures forall p :: p in Only(ps, keep) <==> p in ps && p in keep
    ensures forall p :: p in Without(ps, keep) <==> p in ps && p !in keep
    ensures |Only(ps, keep)| + |Without(ps, keep)| == |ps|
  {
    if ps != [] {
      FilterMembers(ps[1..], keep);
      assert forall p :: p in ps <==> p == ps[0] || p in ps[1..];
    }
  }

  lemma {:induction false} FilterNoDuplicates(ps: seq<Ptr>, keep: set<Ptr>)
    requires NoDuplicates(ps)
    ensures NoDuplicates(Only(ps, keep)) && NoDuplicates(Without(ps, keep))
  {
    if ps != [] {
      FilterNoDuplicates(ps[1..], keep);
      FilterMembers(ps[1..], keep);
      assert ps[0] !in ps[1..];
    }
  }

  lemma {:induction false} SplitBytes(heap: Heap, ps: seq<Ptr>, keep: set<Ptr>)
    ensures Bytes(heap, ps) == Bytes(heap, Only(ps, keep)) + Bytes(heap, Without(ps, keep))
  {
    if ps != [] {
      SplitBytes(heap, ps[1..], keep);
      BytesAppend(heap, if ps[0] in keep then [ps[0]] else [], Only(ps[1..], keep));
      BytesAppend(heap, if ps[0] in keep then [] else [ps[0]], Without(ps[1..], keep));
    }
  }

  lemma {:induction false} NoDuplicatesSize(ps: seq<Ptr>)
    requires NoDuplicates(ps)
    ensures |Elements(ps)| == |ps|
  {
    if ps != [] {
      NoDuplicatesSize(ps[1..]);
      assert Elements(ps) == {ps[0]} + Elements(ps[1..]);
    }
  }

  lemma NoDuplicatesAppend(xs: seq<Ptr>, ys: seq<Ptr>)
    requires NoDuplicates(xs + ys)
    ensures NoDuplicates(xs) && NoDuplicates(ys)
    ensures forall p :: p in xs ==> p !in ys
  {
    forall i, j | 0 <= i < j < |xs| ensures xs[i] != xs[j] {
      assert (xs + ys)[i] == xs[i] && (xs + ys)[j] == xs[j];
    }
    forall i, j | 0 <= i < j < |ys| ensures ys[i] != ys[j] {
      assert (xs + ys)[|xs| + i] == ys[i] && (xs + ys)[|xs| + j] == ys[j];
    }
    forall i, j | 0 <= i < |xs| && 0 <= j < |ys| ensures xs[i] != ys[j] {
      assert (xs + ys)[i] == xs[i] && (xs + ys)[|xs| + j] == ys[j];
    }
  }
}
