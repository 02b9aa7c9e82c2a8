/** The sweeping half of the collector: what any number of sweep iterations leaves behind. */
module GcSweeping {
  import opened GcModel

  function Min(a: nat, b: nat): nat {
    if a < b then a else b
  }

  /** The pool when the cursor has passed `live` and freed `dead`, leaving `rest`. */
  function Passed(pool: Pool, rest: seq<Ptr>, live: seq<Ptr>, dead: seq<Ptr>): Pool {
    var t := pool.tally;
    Pool(pool.kept + live, rest, pool.heap - Elements(dead),
         Tally(t.objects - |dead|, t.bytes - Bytes(pool.heap, dead),
               t.live + Bytes(pool.heap, live), t.swept + |dead|),
         Log(pool.log.freed + dead, pool.log.finalized + Finalizable(pool.heap, dead)))
  }

  /** The pool after the cursor has judged the first `n` objects of `rest`: the marked ones are
      kept in order, the others have been finalized and freed in order. */
  function Judged(pool: Pool, marked: set<Ptr>, n: nat): Pool
    requires n <= |pool.rest|
  {
    var seen := pool.rest[..n];
    Passed(pool, pool.rest[n..], Only(seen, marked), Without(seen, marked))
  }

  lemma {:induction false} FilterFrame(ps: seq<Ptr>, a: set<Ptr>, b: set<Ptr>)
    requires forall p :: p in ps ==> (p in a <==> p in b)
    ensures Only(ps, a) == Only(ps, b) && Without(ps, a) == Without(ps, b)
  {
    if ps != [] {
      FilterFrame(ps[1..], a, b);
    }
  }

  lemma {:induction false} FinalizableFrame(h1: Heap, h2: Heap, ps: seq<Ptr>)
    requires forall p :: p in ps ==> (p in h1 <==> p in h2) && (p in h1 ==> h1[p] == h2[p])
    ensures Finalizable(h1, ps) == Finalizable(h2, ps)
  {
    if ps != [] {
      FinalizableFrame(h1, h2, ps[1..]);
    }
  }

  /** What judging `p` first does to the two filters of the objects seen. */
  lemma FilterHead(p: Ptr, tail: seq<Ptr>, marked: set<Ptr>)
    requires p !in tail
    ensures var o := Only(tail, marked - {p}); Only([p] + tail, marked) == if p in marked then [p] + o else o
    ensures var w := Without(tail, marked - {p}); Without([p] + tail, marked) == if p in marked then w else [p] + w
    ensures p !in Only(tail, marked) && p !in Without(tail, marked)
  {
    assert ([p] + tail)[1..] == tail;
    FilterFrame(tail, marked, marked - {p});
    FilterMembers(tail, marked);
  }

  lemma PassedTwice(pool: Pool, r1: seq<Ptr>, l1: seq<Ptr>, d1: seq<Ptr>, r2: seq<Ptr>, l2: seq<Ptr>, d2: seq<Ptr>)
    requires forall p :: p in l2 || p in d2 ==> p !in d1
    ensures Passed(Passed(pool, r1, l1, d1), r2, l2, d2) == Passed(pool, r2, l1 + l2, d1 + d2)
  {
    hide Bytes, Finalizable;
    var a := Passed(pool, r1, l1, d1);
    var b, c := Passed(a, r2, l2, d2), Passed(pool, r2, l1 + l2, d1 + d2);
    assert b.heap == c.heap by {
      assert Elements(d1 + d2) == Elements(d1) + Elements(d2);
    }
    BytesFrame(pool.heap, a.heap, l2);
    BytesFrame(pool.heap, a.heap, d2);
    BytesAppend(pool.heap, l1, l2);
    BytesAppend(pool.heap, d1, d2);
    assert b.tally == c.tally;
    FinalizableFrame(pool.heap, a.heap, d2);
    FinalizableAppend(pool.heap, d1, d2);
    assert b.log == c.log;
    assert b.kept == c.kept;
  }

  lemma SweepOnePasses(pool: Pool, marked: set<Ptr>)
    requires pool.rest != []
    ensures var p := pool.rest[0];
      SweepOne(pool, marked) == if p in marked then Passed(pool, pool.rest[1..], [p], [])
                                else Passed(pool, pool.rest[1..], [], [p])
  {
    var p := pool.rest[0];
    BytesCons(pool.heap, p, []);
    assert [p] + [] == [p];
    assert Elements([]) == {} && Elements([p]) == {p};
    assert pool.heap - {} == pool.heap;
  }

  lemma JudgeNone(pool: Pool, marked: set<Ptr>)
    ensures Judged(pool, marked, 0) == pool
  {
    assert Elements([]) == {};
    assert pool.heap - {} == pool.heap;
  }

  lemma JudgeOneMore(pool: Pool, marked: set<Ptr>, n: nat)
    requires NoDuplicates(pool.rest) && 0 < n <= |pool.rest|
    ensures Judged(SweepOne(pool, marked), marked - {pool.rest[0]}, n - 1) == Judged(pool, marked, n)
  {
    var p, tail, one := pool.rest[0], pool.rest[1..n], SweepOne(pool, marked);
    assert pool.rest[..n] == [p] + tail && pool.rest[1..][..n - 1] == tail;
    assert pool.rest[1..][n - 1..] == pool.rest[n..];
    SweepOnePasses(pool, marked);
    FilterHead(p, tail, marked);
    var live, dead := Only(tail, marked - {p}), Without(tail, marked - {p});
    FilterMembers(tail, marked - {p});
    if p in marked {
      PassedTwice(pool, pool.rest[1..], [p], [], pool.rest[n..], live, dead);
      assert [] + dead == dead;
    } else {
      PassedTwice(pool, pool.rest[1..], [], [p], pool.rest[n..], live, dead);
      assert [] + live == live;
    }
  }

  lemma {:induction false} SweepPool(pool: Pool, marked: set<Ptr>, budget: nat)
    requires NoDuplicates(pool.rest)
    ensures Sweep(pool, marked, budget).pool == Judged(pool, marked, Min(budget, |pool.rest|))
    decreases budget
  {
    if pool.rest == [] || budget == 0 {
      JudgeNone(pool, marked);
    } else {
      SweepPool(SweepOne(pool, marked), marked - {pool.rest[0]}, budget - 1);
      JudgeOneMore(pool, marked, Min(budget, |pool.rest|));
    }
  }

  lemma {:induction false} SweepMarked(pool: Pool, marked: set<Ptr>, budget: nat)
    ensures Sweep(pool, marked, budget).marked == marked - Elements(pool.rest[..Min(budget, |pool.rest|)])
    decreases budget
  {
    if pool.rest != [] && budget > 0 {
      var p, n, one := pool.rest[0], Min(budget, |pool.rest|), SweepOne(pool, marked);
      SweepMarked(one, marked - {p}, budget - 1);
      assert one.rest[..n - 1] == pool.rest[1..n];
      assert Elements(pool.rest[..n]) == {p} + Elements(pool.rest[1..n]);
    }
  }

  /** sweep_some judges exactly `budget` objects, or all that are left, and clears their marks. */
  lemma SweepEffect(pool: Pool, marked: set<Ptr>, budget: nat)
    requires NoDuplicates(pool.rest)
    ensures var n := Min(budget, |pool.rest|);
      && Sweep(pool, marked, budget).pool == Judged(pool, marked, n)
      && Sweep(pool, marked, budget).marked == marked - Elements(pool.rest[..n])
  {
    SweepPool(pool, marked, budget);
    SweepMarked(pool, marked, budget);
  }

  /** Two sweeps in a row are one sweep with the budgets added. */
  lemma {:induction false} SweepTwice(pool: Pool, marked: set<Ptr>, a: nat, b: nat)
    ensures var first := Sweep(pool, marked, a);
      Sweep(first.pool, first.marked, b) == Sweep(pool, marked, a + b)
    decreases a
  {
    if pool.rest != [] && a > 0 {
      SweepTwice(SweepOne(pool, marked), marked - {pool.rest[0]}, a - 1, b);
    }
  }
}
