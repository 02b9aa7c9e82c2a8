/** The marking half of the collector: the tri-colour invariant, and what marking changes. */
module GcMarking {
  import opened GcModel

  ghost predicate StackIsMarked(m: Marks) {
    NoDuplicates(m.stack) && Elements(m.stack) <= m.marked
  }

  /** Black objects (marked, off the mark stack) point only at marked objects, and so do the roots. */
  ghost predicate TriColour(heap: Heap, targets: seq<Ptr>, m: Marks) {
    && StackIsMarked(m)
    && Within(targets, m.marked)
    && forall p :: p in m.marked && p !in m.stack ==> Within(Edges(heap, p), m.marked)
  }

  /** From `m` to `t` every newly marked object was pushed exactly once, and only those. */
  ghost predicate Grew(m: Marks, t: Marks) {
    && StackIsMarked(t)
    && m.marked <= t.marked
    && t.pushed == m.pushed + |t.marked| - |m.marked|
  }

  lemma PushElement(stack: seq<Ptr>, p: Ptr)
    requires NoDuplicates(stack) && p !in Elements(stack)
    ensures NoDuplicates(stack + [p]) && Elements(stack + [p]) == Elements(stack) + {p}
  {
  }

  lemma SetAdd(a: set<Ptr>, p: Ptr)
    requires p !in a
    ensures |a + {p}| == |a| + 1 && (a + {p}) - a == {p}
  {
  }

  lemma MarkEffect(m: Marks, p: Ptr)
    requires StackIsMarked(m)
    ensures var t := Mark(m, p);
      && Grew(m, t)
      && Elements(t.stack) == Elements(m.stack) + (t.marked - m.marked)
      && |t.stack| - |m.stack| == |t.marked| - |m.marked|
  {
    hide Elements, NoDuplicates;
    if p == NULL || p in m.marked {
      assert m.marked - m.marked == {};
    } else {
      PushElement(m.stack, p);
      SetAdd(m.marked, p);
    }
  }

  lemma {:induction false} MarkAllGrows(m: Marks, ps: seq<Ptr>)
    requires StackIsMarked(m)
    ensures var t := MarkAll(m, ps);
      && Grew(m, t)
      && Elements(t.stack) == Elements(m.stack) + (t.marked - m.marked)
      && |t.stack| - |m.stack| == |t.marked| - |m.marked|
    decreases |ps|
  {
    hide Elements, NoDuplicates, Mark;
    if ps != [] {
      var k, t := Mark(m, ps[0]), MarkAll(m, ps);
      MarkEffect(m, ps[0]);
      MarkAllGrows(k, ps[1..]);
      assert t.marked - m.marked == (t.marked - k.marked) + (k.marked - m.marked);
    }
  }

  lemma {:induction false} MarkAllMarks(m: Marks, ps: seq<Ptr>)
    ensures MarkAll(m, ps).marked == m.marked + (Elements(ps) - {NULL})
    decreases |ps|
  {
    if ps != [] {
      MarkAllMarks(Mark(m, ps[0]), ps[1..]);
      assert Elements(ps) == {ps[0]} + Elements(ps[1..]);
    }
  }

  lemma MarkAllEffect(m: Marks, ps: seq<Ptr>)
    requires StackIsMarked(m)
    ensures var t := MarkAll(m, ps);
      && Grew(m, t)
      && t.marked == m.marked + (Elements(ps) - {NULL})
      && Elements(t.stack) == Elements(m.stack) + (t.marked - m.marked)
      && |t.stack| - |m.stack| == |t.marked| - |m.marked|
  {
    MarkAllGrows(m, ps);
    MarkAllMarks(m, ps);
  }

  /** Scanning the roots with nothing marked greys exactly the objects the roots name. */
  lemma ScanEffect(heap: Heap, targets: seq<Ptr>, m: Marks)
    requires m == Marks({}, [], 0)
    ensures var t := MarkAll(m, targets);
      && TriColour(heap, targets, t)
      && t.marked == Elements(targets) - {NULL}
      && |t.stack| == |t.marked| == t.pushed
  {
    MarkAllEffect(m, targets);
    var t := MarkAll(m, targets);
    assert forall p :: p in t.marked ==> p in Elements(t.stack);
  }

  lemma TraceOneEffect(heap: Heap, targets: seq<Ptr>, m: Marks)
    requires TriColour(heap, targets, m) && m.stack != []
    ensures var t := TraceOne(heap, m);
      && TriColour(heap, targets, t) && Grew(m, t)
      && t.marked == m.marked + (Elements(Edges(heap, m.stack[|m.stack| - 1])) - {NULL})
      && |t.marked| - |t.stack| == |m.marked| - |m.stack| + 1
  {
    var n := |m.stack| - 1;
    var top, popped := m.stack[n], m.(stack := m.stack[..n]);
    assert forall p :: p in m.stack <==> p in popped.stack || p == top;
    MarkAllEffect(popped, Edges(heap, top));
    var t := TraceOne(heap, m);
    forall p | p in t.marked && p !in t.stack ensures Within(Edges(heap, p), t.marked) {
      assert p !in Elements(t.stack);
      assert p in m.marked && p !in popped.stack;
    }
  }

  /** trace_some traces exactly `budget` objects, or fewer when the mark stack runs dry. */
  lemma {:induction false} TraceEffect(heap: Heap, targets: seq<Ptr>, m: Marks, budget: nat)
    requires TriColour(heap, targets, m)
    ensures var t := Trace(heap, m, budget);
      && TriColour(heap, targets, t) && Grew(m, t)
      && |t.marked| - |t.stack| <= |m.marked| - |m.stack| + budget
      && (t.stack != [] ==> |t.marked| - |t.stack| == |m.marked| - |m.stack| + budget)
    decreases budget
  {
    if m.stack != [] && budget > 0 {
      TraceOneEffect(heap, targets, m);
      TraceEffect(heap, targets, TraceOne(heap, m), budget - 1);
    }
  }

  /** Marking stays inside any set that is closed under the heap's edges. */
  lemma {:induction false} TraceStaysWithin(heap: Heap, targets: seq<Ptr>, m: Marks, budget: nat, inside: set<Ptr>)
    requires TriColour(heap, targets, m) && m.marked <= inside
    requires forall p :: p in inside ==> Within(Edges(heap, p), inside)
    ensures Trace(heap, m, budget).marked <= inside
    decreases budget
  {
    if m.stack != [] && budget > 0 {
      TraceOneEffect(heap, targets, m);
      assert m.stack[|m.stack| - 1] in Elements(m.stack);
      TraceStaysWithin(heap, targets, TraceOne(heap, m), budget - 1, inside);
    }
  }

  /** With the mark stack empty the marked objects are closed, so nothing reachable is unmarked. */
  lemma EmptyStackMarksAllReachable(heap: Heap, targets: seq<Ptr>, m: Marks, p: Ptr)
    requires TriColour(heap, targets, m) && m.stack == [] && Reachable(heap, targets, p)
    ensures p in m.marked
  {
    ClosedHoldsReachable(heap, targets, m.marked, p);
  }
}
