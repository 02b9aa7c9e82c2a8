/** The collector itself: NovaGC with its headers in memory, the `next` links, the mark bits and
    the sweep cursor, updated and freed in place. Each method computes the function of the same
    name in GcModel, and never follows a pointer to memory it has freed: every access `mem[p]`
    carries the proof that `p` is still allocated. */
module GcCollector {
  import opened GcModel
  import opened GcMarking
  import opened GcSweeping
  import opened GcCycle
  import opened GcLatency
  import opened GcRuns

  datatype Header = Header(next: Ptr, size: nat, traceable: bool, finalizable: bool, marked: bool, fields: seq<Ptr>)

  type Memory = map<Ptr, Header>

  /** What `sweep_cursor` points at: the `objects` field or some object's `next` field. */
  datatype Cursor = Head | NextOf(p: Ptr)

  ghost function LinkAt(list: seq<Ptr>, i: nat): Ptr {
    if i < |list| then list[i] else NULL
  }

  /** Following `next` from `head` visits exactly `list`. */
  ghost predicate Chain(mem: Memory, head: Ptr, list: seq<Ptr>) {
    && head == LinkAt(list, 0)
    && forall i :: 0 <= i < |list| ==> list[i] in mem && mem[list[i]].next == LinkAt(list, i + 1)
  }

  ghost function Objects(mem: Memory): Heap {
    map p | p in mem :: Object(mem[p].size, mem[p].traceable, mem[p].finalizable, mem[p].fields)
  }

  ghost function MarkBits(mem: Memory): set<Ptr> {
    set p | p in mem && mem[p].marked
  }

  // ----- in-place updates and what they mean -----

  lemma SetMark(mem: Memory, p: Ptr, bit: bool)
    requires p in mem
    ensures var m := mem[p := mem[p].(marked := bit)];
      && Objects(m) == Objects(mem)
      && MarkBits(m) == if bit then MarkBits(mem) + {p} else MarkBits(mem) - {p}
  {
  }

  lemma MarkBit(mem: Memory, p: Ptr)
    requires p in mem
    ensures p in MarkBits(mem) <==> mem[p].marked
  {
  }

  lemma SetMarkChain(mem: Memory, p: Ptr, bit: bool, head: Ptr, list: seq<Ptr>)
    requires p in mem && Chain(mem, head, list)
    ensures Chain(mem[p := mem[p].(marked := bit)], head, list)
  {
  }

  lemma SetNext(mem: Memory, p: Ptr, next: Ptr)
    requires p in mem
    ensures var m := mem[p := mem[p].(next := next)]; Objects(m) == Objects(mem) && MarkBits(m) == MarkBits(mem)
  {
  }

  lemma FreeHeader(mem: Memory, p: Ptr)
    requires p in mem
    ensures Objects(mem - {p}) == Objects(mem) - {p}
    ensures !mem[p].marked ==> MarkBits(mem - {p}) == MarkBits(mem)
  {
  }

  /** Unlinking list[k] by redirecting the link before it. */
  lemma UnlinkMiddle(mem: Memory, head: Ptr, xs: seq<Ptr>, p: Ptr, ys: seq<Ptr>)
    requires Chain(mem, head, xs + ([p] + ys)) && NoDuplicates(xs + ([p] + ys)) && xs != []
    ensures var last := xs[|xs| - 1];
      && last in mem && last != p && mem[last].next == p && p in mem && mem[p].next == LinkAt(ys, 0)
      && Chain(mem[last := mem[last].(next := LinkAt(ys, 0))] - {p}, head, xs + ys)
  {
    var list, last, short := xs + ([p] + ys), xs[|xs| - 1], xs + ys;
    var n := |xs|;
    assert list[n - 1] == last && list[n] == p && p == LinkAt(list, n);
    assert LinkAt(list, n + 1) == LinkAt(ys, 0);
    var m := mem[last := mem[last].(next := LinkAt(ys, 0))] - {p};
    forall i | 0 <= i < |short| ensures short[i] in m && m[short[i]].next == LinkAt(short, i + 1) {
      if i < n {
        assert short[i] == list[i] && list[i] != list[n];
        if i < n - 1 {
          assert list[i] != list[n - 1];
        }
      } else {
        assert short[i] == list[i + 1] && list[n - 1] != list[i + 1] && list[n] != list[i + 1];
      }
    }
  }

  lemma UnlinkHead(mem: Memory, p: Ptr, ys: seq<Ptr>)
    requires Chain(mem, p, [p] + ys) && NoDuplicates([p] + ys)
    ensures p in mem && mem[p].next == LinkAt(ys, 0) && Chain(mem - {p}, LinkAt(ys, 0), ys)
  {
    var list := [p] + ys;
    assert list[0] == p && LinkAt(list, 1) == LinkAt(ys, 0);
    forall i | 0 <= i < |ys| ensures ys[i] in mem - {p} && (mem - {p})[ys[i]].next == LinkAt(ys, i + 1) {
      assert list[i + 1] == ys[i] && list[0] != list[i + 1];
    }
  }

  lemma {:induction false} MarkAllOneMore(m: Marks, ps: seq<Ptr>, p: Ptr)
    ensures MarkAll(m, ps + [p]) == Mark(MarkAll(m, ps), p)
    decreases |ps|
  {
    if ps == [] {
      assert [] + [p] == [p] && [p][1..] == [];
    } else {
      assert (ps + [p])[1..] == ps[1..] + [p];
      MarkAllOneMore(Mark(m, ps[0]), ps[1..], p);
    }
  }

  /** How much of a cycle is left; each step lowers it. */
  ghost function Remaining(s: State): int {
    if !s.inProgress then 0
    else if s.marks.stack == [] then 1 + |s.pool.rest|
    else 1 + 2 * |s.pool.rest| - (|s.marks.marked| - |s.marks.stack|)
  }

  lemma MarkedFits(s: State)
    requires Safe(s) && s.inProgress
    ensures |s.marks.marked| <= |s.pool.rest| && NoDuplicates(s.pool.rest)
  {
    NoDuplicatesAppend(s.pool.kept, s.pool.rest);
    NoDuplicatesSize(s.pool.rest);
    SubsetSize(s.marks.marked, Elements(s.pool.rest));
  }

  lemma StepShrinks(s: State, budget: nat)
    requires Safe(s) && s.inProgress
    ensures 0 <= Remaining(Step(s, budget)) < Remaining(s)
  {
    var t := Step(s, budget);
    StepIsSafe(s, budget);
    MarkedFits(s);
    if t.inProgress {
      MarkedFits(t);
    }
    assert Started(s) == s;
    var traced := TraceStep(s, TraceBudget(budget));
    if s.marks.stack != [] {
      TraceEffect(s.pool.heap, s.roots.Targets(), s.marks, TraceBudget(budget));
    }
    if traced.marks.stack == [] {
      hide Safe, Trace;
      SweepEffect(s.pool, traced.marks.marked, SweepBudget(budget));
    }
  }

  /** No traced pointer leaves the allocated objects. */
  ghost predicate Contained(heap: Heap) {
    forall p :: p in heap ==> Within(Edges(heap, p), heap.Keys)
  }

  lemma ObjectsKeys(mem: Memory)
    ensures Objects(mem).Keys == mem.Keys
  {
  }

  lemma ObjectsAt(mem: Memory, p: Ptr)
    requires p in mem
    ensures Objects(mem).Keys == mem.Keys
    ensures Edges(Objects(mem), p) == if mem[p].traceable then mem[p].fields else []
    ensures SizeOf(Objects(mem), p) == mem[p].size
    ensures Finalizable(Objects(mem), [p]) == if mem[p].finalizable then [p] else []
  {
    assert [p][1..] == [];
  }

  lemma SweepOneIs(pool: Pool, marked: set<Ptr>)
    requires pool.rest != []
    ensures var p, t := pool.rest[0], pool.tally;
      SweepOne(pool, marked) ==
        if p in marked then Pool(pool.kept + [p], pool.rest[1..], pool.heap, t.(live := t.live + SizeOf(pool.heap, p)), pool.log)
        else Pool(pool.kept, pool.rest[1..], pool.heap - {p},
                  Tally(t.objects - 1, t.bytes - SizeOf(pool.heap, p), t.live, t.swept + 1),
                  Log(pool.log.freed + [p], pool.log.finalized + Finalizable(pool.heap, [p])))
  {
  }

  /** What a step may follow is allocated: the roots it will scan, and the edges it will trace. */
  lemma SafeToMark(s: State)
    requires Safe(s)
    ensures !s.rootsScanned || !s.inProgress ==> Within(s.roots.Targets(), s.pool.heap.Keys)
    ensures s.marks.stack != [] || !s.inProgress ==> Contained(s.pool.heap)
    ensures s.inProgress ==> s.rootsScanned
  {
  }

  /** The repeated steps of Collect from an idle collector are one cycle. */
  lemma EndOfCycle(s: State, budget: nat, k: nat)
    requires Idle(s) && k > 0 && !Repeated(s, budget, k).inProgress
    requires forall j :: 0 < j < k ==> Repeated(s, budget, j).inProgress
    ensures Repeated(s, budget, k) == Finished(s)
  {
    hide Repeated, Idle, Finished;
    ExactLatency(s, budget);
  }

  lemma FreshHead(list: seq<Ptr>, p: Ptr, keys: set<Ptr>)
    requires NoDuplicates(list) && keys == Elements(list) && p !in keys
    ensures NoDuplicates([p] + list) && keys + {p} == Elements([p] + list)
  {
  }

  lemma AddHeader(mem: Memory, p: Ptr, header: Header, list: seq<Ptr>)
    requires p !in mem && !header.marked && Chain(mem, header.next, list)
    ensures Objects(mem[p := header]) == Objects(mem)[p := Object(header.size, header.traceable, header.finalizable, header.fields)]
    ensures MarkBits(mem[p := header]) == MarkBits(mem)
    ensures Chain(mem[p := header], p, [p] + list)
  {
    forall i | 0 < i <= |list| ensures ([p] + list)[i] == list[i - 1] {
    }
  }

  class NovaGC {
    var mem: Memory
    var objects: Ptr
    var objectCount: int
    var bytesAllocated: int
    var bytesLive: nat
    var roots: seq<Slot>
    var vars: map<Slot, Ptr>
    var markStack: seq<Ptr>
    var collections: nat
    var objectsMarked: nat
    var objectsSwept: nat
    var threshold: nat
    var growth: nat
    var collectInProgress: bool
    var rootsScanned: bool
    var sweepCursor: Cursor

    ghost var kept: seq<Ptr>   // the list before the cursor
    ghost var rest: seq<Ptr>   // the list from the cursor on
    ghost var log: Log

    ghost function PoolView(): Pool
      reads this
    {
      Pool(kept, rest, Objects(mem), Tally(objectCount, bytesAllocated, bytesLive, objectsSwept), log)
    }

    ghost function MarksView(): Marks
      reads this
    {
      Marks(MarkBits(mem), markStack, objectsMarked)
    }

    ghost function View(): (s: State)
      reads this
      ensures s.marks.stack == markStack && s.inProgress == collectInProgress && s.rootsScanned == rootsScanned
      ensures s.pool == PoolView() && s.marks == MarksView()
    {
      State(PoolView(), MarksView(), Roots(roots, vars), collectInProgress, rootsScanned, collections, threshold, growth)
    }

    /** The links spell out the list, the cursor stands between its two parts, and the allocated
        headers are exactly the listed ones. */
    ghost predicate Valid()
      reads this
    {
      && Chain(mem, objects, kept + rest)
      && NoDuplicates(kept + rest) && NULL !in kept + rest
      && mem.Keys == Elements(kept + rest)
      && (collectInProgress ==> sweepCursor == if kept == [] then Head else NextOf(kept[|kept| - 1]))
      && (forall p :: p in markStack ==> p in mem)
    }

    constructor (initialThreshold: nat, growthPercent: nat)
      ensures Valid() && View() == Create(initialThreshold, growthPercent)
    {
      mem, objects, objectCount, bytesAllocated, bytesLive := map[], NULL, 0, 0, 0;
      roots, vars, markStack := [], map[], [];
      collections, objectsMarked, objectsSwept := 0, 0, 0;
      threshold := if initialThreshold > 0 then initialThreshold else 64 * 1024;
      growth := if growthPercent > 0 then growthPercent else 150;
      collectInProgress, rootsScanned, sweepCursor := false, false, Head;
      kept, rest, log := [], [], Log([], []);
    }

    /** `*sweep_cursor` */
    function AtCursor(): (p: Ptr)
      requires Valid() && collectInProgress
      reads this
      ensures p == (if rest == [] then NULL else rest[0]) && (p == NULL <==> rest == [])
      ensures p != NULL ==> p in mem
    {
      assert rest != [] ==> rest[0] in kept + rest;
      match sweepCursor
      case Head => assert LinkAt(kept + rest, 0) == LinkAt(rest, 0); objects
      case NextOf(q) =>
        assert (kept + rest)[|kept| - 1] == q;
        assert LinkAt(kept + rest, |kept|) == LinkAt(rest, 0);
        mem[q].next
    }

    method MarkPtr(p: Ptr)
      requires Valid() && (p != NULL ==> p in mem)
      modifies this`mem, this`objectsMarked, this`markStack
      ensures Valid() && mem.Keys == old(mem.Keys) && Objects(mem) == old(Objects(mem))
      ensures MarksView() == Mark(old(MarksView()), p)
    {
      hide Chain, NoDuplicates, Objects, MarkBits, Elements;
      if p == NULL {
        return;
      }
      MarkBit(mem, p);
      if mem[p].marked {
        return;
      }
      SetMark(mem, p, true);
      SetMarkChain(mem, p, true, objects, kept + rest);
      mem := mem[p := mem[p].(marked := true)];
      objectsMarked := objectsMarked + 1;
      markStack := markStack + [p];
    }

    method ScanRootTable()
      requires Valid() && Within(View().roots.Targets(), mem.Keys)
      modifies this`mem, this`objectsMarked, this`markStack, this`rootsScanned
      ensures Valid() && mem.Keys == old(mem.Keys) && Objects(mem) == old(Objects(mem)) && rootsScanned
      ensures MarksView() == if old(rootsScanned) then old(MarksView()) else MarkAll(old(MarksView()), old(View()).roots.Targets())
    {
      hide Chain, NoDuplicates, Objects, MarkBits, Elements;
      if rootsScanned {
        return;
      }
      ghost var targets := View().roots.Targets();
      for i := 0 to |roots|
        invariant Valid() && mem.Keys == old(mem.Keys) && Objects(mem) == old(Objects(mem))
        invariant MarksView() == MarkAll(old(MarksView()), targets[..i])
      {
        assert targets[i] == Read(vars, roots[i]);
        MarkAllOneMore(old(MarksView()), targets[..i], targets[i]);
        assert targets[..i] + [targets[i]] == targets[..i + 1];
        MarkPtr(Read(vars, roots[i]));
      }
      assert targets[..|roots|] == targets;
      rootsScanned := true;
    }

    /** The object's trace function reports each of its fields. */
    method ReportFields(p: Ptr)
      requires Valid() && p in mem && Within(Edges(Objects(mem), p), mem.Keys)
      modifies this`mem, this`objectsMarked, this`markStack
      ensures Valid() && mem.Keys == old(mem.Keys) && Objects(mem) == old(Objects(mem))
      ensures MarksView() == MarkAll(old(MarksView()), Edges(old(Objects(mem)), p))
    {
      hide Chain, NoDuplicates, Objects, MarkBits, Edges, Elements;
      ObjectsAt(mem, p);
      if mem[p].traceable {
        var fields := mem[p].fields;
        for i := 0 to |fields|
          invariant Valid() && mem.Keys == old(mem.Keys) && Objects(mem) == old(Objects(mem))
          invariant MarksView() == MarkAll(old(MarksView()), fields[..i])
        {
          assert fields[i] in fields;
          MarkAllOneMore(old(MarksView()), fields[..i], fields[i]);
          assert fields[..i] + [fields[i]] == fields[..i + 1];
          MarkPtr(fields[i]);
        }
        assert fields[..|fields|] == fields;
      }
    }

    method TraceSome(budget: nat)
      requires Valid() && (markStack != [] ==> Contained(Objects(mem)))
      modifies this`mem, this`objectsMarked, this`markStack
      ensures Valid() && mem.Keys == old(mem.Keys) && Objects(mem) == old(Objects(mem))
      ensures View() == TraceStep(old(View()), budget)
    {
      hide Chain, NoDuplicates, Objects, MarkBits, Edges, MarkAll, Elements, TraceOne, Contained;
      ghost var heap := Objects(mem);
      var traced := 0;
      while |markStack| > 0 && traced < budget
        invariant Valid() && mem.Keys == old(mem.Keys) && Objects(mem) == heap && traced <= budget
        invariant markStack != [] ==> Contained(heap)
        invariant Trace(heap, MarksView(), budget - traced) == Trace(heap, old(MarksView()), budget)
        decreases budget - traced
      {
        TraceTop();
        traced := traced + 1;
      }
    }

    /** Pop an object and report its fields. */
    method TraceTop()
      requires Valid() && markStack != [] && Contained(Objects(mem))
      modifies this`mem, this`objectsMarked, this`markStack
      ensures Valid() && mem.Keys == old(mem.Keys) && Objects(mem) == old(Objects(mem))
      ensures MarksView() == TraceOne(old(Objects(mem)), old(MarksView()))
    {
      hide Chain, NoDuplicates, Objects, MarkBits, Edges, MarkAll, Elements;
      ObjectsAt(mem, markStack[|markStack| - 1]);
      var top := markStack[|markStack| - 1];
      markStack := markStack[..|markStack| - 1];
      ReportFields(top);
    }

    /** The cursor moves past a marked object, whose mark it clears. */
    method PassObject()
      requires Valid() && collectInProgress && markStack == [] && rest != [] && mem[rest[0]].marked
      modifies this`mem, this`bytesLive, this`sweepCursor, this`kept, this`rest
      ensures Valid()
      ensures PoolView() == SweepOne(old(PoolView()), old(MarkBits(mem)))
      ensures MarkBits(mem) == old(MarkBits(mem)) - {old(rest)[0]}
    {
      hide Chain, NoDuplicates, Objects, MarkBits, Finalizable, Elements, SizeOf, LinkAt, SweepOne;
      var node := AtCursor();
      SetMark(mem, node, false);
      SetMarkChain(mem, node, false, objects, kept + rest);
      MarkBit(mem, node);
      ObjectsAt(mem, node);
      SweepOneIs(PoolView(), MarkBits(mem));
      assert kept + [node] + rest[1..] == kept + rest;
      mem := mem[node := mem[node].(marked := false)];
      bytesLive := bytesLive + mem[node].size;
      sweepCursor := NextOf(node);
      kept, rest := kept + [node], rest[1..];
    }

    /** The object under the cursor is cut out of the list by redirecting the link the cursor
        stands on. */
    method Unlink()
      requires Valid() && collectInProgress && markStack == [] && rest != []
      modifies this`objects, this`mem
      ensures Objects(mem) == old(Objects(mem)) && MarkBits(mem) == old(MarkBits(mem))
      ensures mem.Keys == old(mem.Keys) && Chain(mem - {rest[0]}, objects, kept + rest[1..])
    {
      hide Objects, MarkBits, Elements;
      var node := AtCursor();
      ghost var tail := rest[1..];
      assert rest == [node] + tail;
      var next := mem[node].next;
      match sweepCursor {
        case Head =>
          assert kept + rest == rest && kept + tail == tail;
          UnlinkHead(mem, node, tail);
          objects := next;
        case NextOf(q) =>
          UnlinkMiddle(mem, objects, kept, node, tail);
          SetNext(mem, q, next);
          mem := mem[q := mem[q].(next := next)];
      }
    }

    /** An unmarked object is unlinked, finalized and freed. */
    method FreeObject()
      requires Valid() && collectInProgress && markStack == [] && rest != [] && !mem[rest[0]].marked
      modifies this`objects, this`mem, this`bytesAllocated, this`objectCount, this`objectsSwept, this`log, this`rest
      ensures Valid()
      ensures PoolView() == SweepOne(old(PoolView()), old(MarkBits(mem)))
      ensures MarkBits(mem) == old(MarkBits(mem)) - {old(rest)[0]}
    {
      hide Chain, NoDuplicates, Objects, MarkBits, Finalizable, Elements, SizeOf, LinkAt, SweepOne;
      var node := AtCursor();
      assert rest == [node] + rest[1..];
      ListWithout(kept, node, rest[1..]);
      ObjectsAt(mem, node);
      MarkBit(mem, node);
      SweepOneIs(PoolView(), MarkBits(mem));
      var size, finalizable := mem[node].size, mem[node].finalizable;
      Unlink();
      MarkBit(mem, node);
      FreeHeader(mem, node);
      CountFreed(node, size, finalizable);
      mem := mem - {node};
      rest := rest[1..];
    }

    /** The finalizer runs before the counters change and the memory is freed. */
    method CountFreed(node: Ptr, size: nat, finalizable: bool)
      modifies this`bytesAllocated, this`objectCount, this`objectsSwept, this`log
      ensures bytesAllocated == old(bytesAllocated) - size && objectCount == old(objectCount) - 1
      ensures objectsSwept == old(objectsSwept) + 1
      ensures log == Log(old(log).freed + [node], old(log).finalized + if finalizable then [node] else [])
    {
      if finalizable {
        log := log.(finalized := log.finalized + [node]);
      }
      bytesAllocated := bytesAllocated - size;
      objectCount := objectCount - 1;
      objectsSwept := objectsSwept + 1;
      log := log.(freed := log.freed + [node]);
    }

    method SweepSome(budget: nat)
      requires Valid() && collectInProgress && markStack == []
      modifies this`objects, this`mem, this`bytesAllocated, this`bytesLive, this`objectCount, this`objectsSwept,
               this`sweepCursor, this`log, this`kept, this`rest
      ensures Valid()
      ensures View() == SweepStep(old(View()), budget) && markStack == [] && collectInProgress
    {
      hide Chain, NoDuplicates, Objects, MarkBits, Elements, SweepOne;
      var swept := 0;
      while AtCursor() != NULL && swept < budget
        invariant Valid() && swept <= budget
        invariant Sweep(PoolView(), MarkBits(mem), budget - swept) == Sweep(old(PoolView()), old(MarkBits(mem)), budget)
        decreases budget - swept
      {
        if mem[AtCursor()].marked {
          PassObject();
        } else {
          FreeObject();
        }
        swept := swept + 1;
      }
    }

    /** `sweep_cursor = &objects`: the whole list is to be judged. */
    method ResetCursor()
      requires Valid()
      modifies this`sweepCursor, this`kept, this`rest
      ensures Valid() && kept == [] && rest == old(kept + rest) && sweepCursor == Head
    {
      hide Chain, NoDuplicates, Elements;
      sweepCursor := Head;
      kept, rest := [], kept + rest;
      assert [] + rest == rest;
    }

    method BeginCollection()
      requires Valid()
      modifies this
      ensures Valid() && mem == old(mem) && roots == old(roots) && vars == old(vars)
      ensures View() == Begin(old(View())) && markStack == old(markStack) && collectInProgress
    {
      hide Chain, NoDuplicates, Objects, MarkBits, Elements;
      ResetCursor();
      collectInProgress, rootsScanned := true, false;
      objectsMarked, objectsSwept := 0, 0;
      collections := collections + 1;
    }

    /** The first half of nova_gc_collect_step: start a cycle if none runs, and scan the roots. */
    method StartStep()
      requires Valid() && Safe(View())
      modifies this
      ensures Valid() && View() == Started(old(View())) && collectInProgress
      ensures markStack != [] ==> Contained(Objects(mem))
    {
      hide Chain, NoDuplicates, Elements, Objects, MarkBits, Safe, Within, Contained, Begin;
      SafeToMark(View());
      ObjectsKeys(mem);
      if !collectInProgress {
        BeginCollection();
      }
      ScanOnce();
    }

    /** The guarded call of scan_roots. */
    method ScanOnce()
      requires Valid() && (rootsScanned || Within(View().roots.Targets(), mem.Keys))
      modifies this`mem, this`objectsMarked, this`markStack, this`rootsScanned, this`bytesLive
      ensures Valid() && View() == ScanRoots(old(View())) && mem.Keys == old(mem.Keys) && Objects(mem) == old(Objects(mem))
      ensures old(rootsScanned) ==> markStack == old(markStack)
    {
      hide Chain, NoDuplicates, Elements, Objects, MarkBits, Within;
      if !rootsScanned {
        bytesLive := 0;
        ScanRootTable();
      }
    }

    /** The end of nova_gc_collect_step: a cycle is over when nothing is left to trace or judge. */
    method EndStep()
      requires Valid() && collectInProgress
      modifies this`collectInProgress, this`threshold
      ensures Valid() && View() == Finish(old(View()))
    {
      hide Chain, NoDuplicates, Objects, MarkBits, Elements;
      if |markStack| == 0 && AtCursor() == NULL {
        collectInProgress := false;
        var grown := bytesLive + bytesLive * growth / 100;
        if grown < 1024 {
          grown := 1024;
        }
        threshold := grown;
      }
    }

    method CollectStep(budgetObjects: nat)
      requires Valid() && Safe(View())
      modifies this
      ensures Valid() && Safe(View()) && View() == Step(old(View()), budgetObjects)
    {
      hide Valid, View, Safe, Finish, Started, Contained, TraceStep, SweepStep;
      StepIsSafe(View(), budgetObjects);
      var budget := if budgetObjects == 0 then 1 else budgetObjects;
      StartStep();
      var traceBudget := budget / 2;
      var sweepBudget := budget - traceBudget;
      if traceBudget == 0 {
        traceBudget := 1;
      }
      if sweepBudget == 0 {
        sweepBudget := 1;
      }
      TraceSome(traceBudget);
      if |markStack| == 0 {
        SweepSome(sweepBudget);
      }
      EndStep();
    }

    /** nova_gc_collect runs steps until no cycle is in progress. From an idle collector that is one
        whole cycle. */
    method Collect()
      requires Valid() && Safe(View())
      modifies this
      ensures Valid() && Idle(View())
      ensures Idle(old(View())) ==> View() == Finished(old(View()))
      ensures exists k :: k > 0 && View() == Repeated(old(View()), 256, k)
    {
      hide Safe, Chain, NoDuplicates, Objects, MarkBits, Elements, Step;
      ghost var k := 1;
      CollectStep(256);
      while collectInProgress
        invariant Valid() && Safe(View())
        invariant k > 0 && View() == Repeated(old(View()), 256, k)
        invariant forall j :: 0 < j < k ==> Repeated(old(View()), 256, j).inProgress
        decreases Remaining(View())
      {
        StepShrinks(View(), 256);
        CollectStep(256);
        k := k + 1;
      }
      IdleIsSafe(View());
      if Idle(old(View())) {
        EndOfCycle(old(View()), 256, k);
      }
    }

    /** nova_gc_alloc, given the allocator's answer. */
    method Allocate(answer: Ptr, payloadSize: nat, traceable: bool, finalizable: bool, fields: nat) returns (p: Ptr)
      requires Valid() && Safe(View()) && answer !in mem
      modifies this
      ensures Valid() && Safe(View())
      ensures payloadSize == 0 || answer == NULL ==> p == NULL && View() == old(View())
      ensures payloadSize > 0 && answer != NULL ==>
        p == answer && View() == Alloc(old(View()), answer, payloadSize, traceable, finalizable, fields)
    {
      if payloadSize == 0 || answer == NULL {
        return NULL;
      }
      hide Safe, Step;
      LinkIsSafe(View(), answer, payloadSize, traceable, finalizable, fields);
      LinkIn(answer, payloadSize, traceable, finalizable, fields);
      if bytesAllocated > threshold {
        CollectStep(128);
      }
      return answer;
    }

    /** The new header becomes the head of the list. */
    method LinkIn(p: Ptr, payloadSize: nat, traceable: bool, finalizable: bool, fields: nat)
      requires Valid() && p !in mem && p != NULL
      modifies this`mem, this`objects, this`objectCount, this`bytesAllocated, this`kept, this`rest
      ensures Valid() && MarksView() == old(MarksView())
      ensures PoolView() == Link(old(View()), p, payloadSize, traceable, finalizable, fields).pool
    {
      hide NoDuplicates, Objects, MarkBits, Elements, Chain;
      var header := Header(objects, payloadSize, traceable, finalizable, false, seq(fields, _ => NULL));
      AddHeader(mem, p, header, kept + rest);
      FreshHead(kept + rest, p, mem.Keys);
      mem := mem[p := header];
      objects := p;
      objectCount := objectCount + 1;
      bytesAllocated := bytesAllocated + payloadSize;
      PushHead(p);
    }

    ghost method PushHead(p: Ptr)
      modifies this`kept, this`rest
      ensures kept + rest == [p] + old(kept + rest)
      ensures if collectInProgress && old(kept) == [] then kept == [] && rest == [p] + old(rest)
              else kept == [p] + old(kept) && rest == old(rest)
    {
      if collectInProgress && kept == [] {
        rest := [p] + rest;
      } else {
        kept := [p] + kept;
      }
    }

    method AddRoot(slot: Slot)
      requires Valid()
      modifies this`roots
      ensures Valid() && View() == Apply(old(View()), Register(slot))
    {
      roots := roots + [slot];
    }

    method DropRoot(slot: Slot)
      requires Valid()
      modifies this`roots
      ensures Valid() && View() == Apply(old(View()), Unregister(slot))
    {
      for i := 0 to |roots|
        invariant roots == old(roots) && slot !in roots[..i]
      {
        if roots[i] == slot {
          assert FirstIndex(roots, slot) == i;
          roots := roots[i := roots[|roots| - 1]][..|roots| - 1];
          return;
        }
      }
      assert FirstIndex(roots, slot) == |roots|;
    }
  }
}
