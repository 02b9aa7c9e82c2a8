/** The exact length of an undisturbed cycle whose steps all get the same budget. */
module GcLatency {
  import opened GcModel
  import opened GcCycle

  function CeilDiv(a: nat, b: nat): (q: nat)
    requires b > 0
    ensures b * q >= a && (q > 0 ==> b * (q - 1) < a)
  {
    var q := (a + b - 1) / b;
    assert b * q + (a + b - 1) % b == a + b - 1;
    q
  }

  /** Steps of `budget` until the last reachable object has been traced. */
  function MarkingSteps(reachable: nat, budget: nat): (k: nat)
    ensures k >= 1
  {
    AtLeastOne(CeilDiv(reachable, TraceBudget(budget)))
  }

  /** Steps of `budget` until the last listed object has been judged. */
  function SweepingSteps(listed: nat, budget: nat): (k: nat)
    ensures k >= 1
  {
    AtLeastOne(CeilDiv(listed, SweepBudget(budget)))
  }

  /** Sweeping starts within the last marking step. */
  function CycleLength(reachable: nat, listed: nat, budget: nat): nat {
    MarkingSteps(reachable, budget) - 1 + SweepingSteps(listed, budget)
  }

  function Repeated(s: State, budget: nat, k: nat): State {
    if k == 0 then s else Step(Repeated(s, budget, k - 1), budget)
  }

  function Times(a: nat, b: nat): (r: nat)
    ensures r == a * b
  {
    a * b
  }

  lemma Monotone(b: nat, x: nat, y: nat)
    requires x <= y
    ensures b * x <= b * y
  {
  }

  lemma BelowCeil(a: nat, b: nat, k: nat)
    requires b > 0
    ensures b * k < a <==> k < CeilDiv(a, b)
  {
    var q := CeilDiv(a, b);
    if k < q {
      Monotone(b, k, q - 1);
    } else {
      Monotone(b, q, k);
    }
  }

  lemma TimesStep(a: nat, k: nat)
    requires k > 0
    ensures Times(a, k) == Times(a, k - 1) + a && Times(a, 0) == 0
  {
  }

  /** Before the last marking step, `k` steps have traced exactly `k` trace budgets. */
  lemma {:induction false} WhileMarking(s0: State, budget: nat, k: nat)
    requires Idle(s0) && 1 <= k < MarkingSteps(|ReachSet(s0)|, budget)
    ensures var s := Repeated(s0, budget, k);
      Marking(s0, s, Times(TraceBudget(budget), k)) && s.inProgress
  {
    hide Step, Marking, ReachSet, Idle;
    var t, r := TraceBudget(budget), |ReachSet(s0)|;
    BelowCeil(r, t, k);
    TimesStep(t, k);
    if k == 1 {
      FirstStep(s0, budget);
      assert Repeated(s0, budget, 0) == s0;
    } else {
      WhileMarking(s0, budget, k - 1);
      MarkingStep(s0, Repeated(s0, budget, k - 1), Times(t, k - 1), budget);
    }
  }

  /** The step that ends marking already judges one sweep budget of objects. */
  lemma LastMarkingStep(s0: State, budget: nat)
    requires Idle(s0)
    ensures var s := Repeated(s0, budget, MarkingSteps(|ReachSet(s0)|, budget));
      if SweepBudget(budget) < |s0.pool.List()| then Sweeping(s0, s, SweepBudget(budget)) && s.inProgress
      else s == Finished(s0)
  {
    hide Step, Marking, ReachSet, Idle, Finished, Sweeping;
    var t, r := TraceBudget(budget), |ReachSet(s0)|;
    var k := MarkingSteps(r, budget);
    BelowCeil(r, t, k);
    TimesStep(t, k);
    if k == 1 {
      FirstStep(s0, budget);
      assert Repeated(s0, budget, 0) == s0;
    } else {
      WhileMarking(s0, budget, k - 1);
      MarkingStep(s0, Repeated(s0, budget, k - 1), Times(t, k - 1), budget);
    }
  }

  /** `j` sweeping steps have judged exactly `j` sweep budgets. */
  lemma {:induction false} WhileSweeping(s0: State, budget: nat, j: nat)
    requires Idle(s0) && 1 <= j <= SweepingSteps(|s0.pool.List()|, budget)
    ensures var s := Repeated(s0, budget, MarkingSteps(|ReachSet(s0)|, budget) - 1 + j);
      if j < SweepingSteps(|s0.pool.List()|, budget) then Sweeping(s0, s, Times(SweepBudget(budget), j)) && s.inProgress
      else s == Finished(s0)
  {
    hide Step, ReachSet, Idle, Finished, Sweeping, SweepBudget, MarkingSteps;
    var w, n := SweepBudget(budget), |s0.pool.List()|;
    BelowCeil(n, w, j);
    TimesStep(w, j);
    if j == 1 {
      LastMarkingStep(s0, budget);
    } else {
      WhileSweeping(s0, budget, j - 1);
      SweepingStep(s0, Repeated(s0, budget, MarkingSteps(|ReachSet(s0)|, budget) - 1 + (j - 1)), Times(w, j - 1), budget);
    }
  }

  lemma BudgetIsSplit(budget: nat)
    ensures TraceBudget(budget) == if budget < 2 then 1 else budget / 2
    ensures SweepBudget(budget) == if budget < 2 then 1 else budget - budget / 2
  {
  }

  /** The length of a cycle in numbers: half the budget, rounded down, is for tracing, the rest for
      sweeping, and both are at least one. */
  lemma LengthInNumbers(reachable: nat, listed: nat, budget: nat)
    ensures var t, n := if budget < 2 then 1 else budget / 2, if budget < 2 then 1 else budget - budget / 2;
      CycleLength(reachable, listed, budget) == AtLeastOne(CeilDiv(reachable, t)) - 1 + AtLeastOne(CeilDiv(listed, n))
  {
    hide CeilDiv, AtLeastOne, TraceBudget, SweepBudget;
    BudgetIsSplit(budget);
  }

  lemma TakesCycleLength(s0: State, budget: nat)
    requires Idle(s0)
    ensures var length := CycleLength(|ReachSet(s0)|, |s0.pool.List()|, budget);
      && Repeated(s0, budget, length) == Finished(s0)
      && !Finished(s0).inProgress
      && forall k :: 0 < k < length ==> Repeated(s0, budget, k).inProgress
  {
    var r, n := |ReachSet(s0)|, |s0.pool.List()|;
    hide ReachSet, Idle, Finished, Sweeping, Marking, Step, MarkingSteps, SweepingSteps, Repeated;
    var m := MarkingSteps(r, budget);
    WhileSweeping(s0, budget, SweepingSteps(n, budget));
    FinishedHasEnded(s0);
    forall k | 0 < k < CycleLength(r, n, budget) ensures Repeated(s0, budget, k).inProgress {
      if k < m {
        WhileMarking(s0, budget, k);
      } else {
        WhileSweeping(s0, budget, k - (m - 1));
      }
    }
  }

  /** An undisturbed cycle takes exactly as many steps as its objects need at half the budget each, where
      the rounding favours sweeping. */
  lemma ExactLatency(s0: State, budget: nat)
    requires Idle(s0)
    ensures var t, n := if budget < 2 then 1 else budget / 2, if budget < 2 then 1 else budget - budget / 2;
      var length := AtLeastOne(CeilDiv(|ReachSet(s0)|, t)) - 1 + AtLeastOne(CeilDiv(|s0.pool.List()|, n));
      && Repeated(s0, budget, length) == Finished(s0)
      && !Finished(s0).inProgress
      && forall k :: 0 < k < length ==> Repeated(s0, budget, k).inProgress
  {
    hide *;
    LengthInNumbers(|ReachSet(s0)|, |s0.pool.List()|, budget);
    TakesCycleLength(s0, budget);
  }
}
