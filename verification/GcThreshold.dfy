/** When the collector comes back: which allocations behind a cycle run a step. */
module GcThreshold {
  import opened GcModel
  import opened GcCycle
  import opened GcRuns

  datatype Request = Request(p: Ptr, size: nat, traceable: bool, finalizable: bool, fields: nat)

  function Linked(s: State, r: Request): State {
    Link(s, r.p, r.size, r.traceable, r.finalizable, r.fields)
  }

  function Allocated(s: State, r: Request): State {
    Alloc(s, r.p, r.size, r.traceable, r.finalizable, r.fields)
  }

  function AllLinked(s: State, rs: seq<Request>): State
    decreases rs
  {
    if rs == [] then s else AllLinked(Linked(s, rs[0]), rs[1..])
  }

  function AllAllocated(s: State, rs: seq<Request>): State
    decreases rs
  {
    if rs == [] then s else AllAllocated(Allocated(s, rs[0]), rs[1..])
  }

  function Total(rs: seq<Request>): nat {
    if rs == [] then 0 else rs[0].size + Total(rs[1..])
  }

  lemma {:induction false} BelowThreshold(s: State, rs: seq<Request>)
    requires s.pool.tally.bytes + Total(rs) <= s.threshold
    ensures AllAllocated(s, rs) == AllLinked(s, rs)
    ensures var t := AllLinked(s, rs); t.pool.tally.bytes == s.pool.tally.bytes + Total(rs) && t.threshold == s.threshold
    decreases rs
  {
    hide Step;
    if rs != [] {
      BelowThreshold(Linked(s, rs[0]), rs[1..]);
    }
  }

  /** `more` bytes on top of `live` ones exceed both 1024 bytes and growth by `growth` percent. */
  predicate Outgrows(live: nat, growth: nat, more: nat) {
    live + more > 1024 && 100 * more > live * growth
  }

  lemma OutgrowsIff(threshold: nat, live: nat, growth: nat, more: nat)
    requires ThresholdFits(threshold, live, growth)
    ensures live + more > threshold <==> Outgrows(live, growth, more)
  {
  }

  lemma NextStepFrom(s: State, live: nat, growth: nat, rs: seq<Request>, r: Request)
    requires s.pool.tally.bytes == live && ThresholdFits(s.threshold, live, growth) && !Outgrows(live, growth, Total(rs))
    ensures AllAllocated(s, rs) == AllLinked(s, rs)
    ensures Allocated(AllLinked(s, rs), r) ==
      if Outgrows(live, growth, Total(rs) + r.size) then Step(Linked(AllLinked(s, rs), r), 128) else Linked(AllLinked(s, rs), r)
  {
    hide Step, ThresholdFits, Outgrows, AllAllocated, AllLinked;
    OutgrowsIff(s.threshold, live, growth, Total(rs));
    OutgrowsIff(s.threshold, live, growth, Total(rs) + r.size);
    BelowThreshold(s, rs);
  }

  /** Behind a cycle that left `live` bytes allocations run no step as long as what they add does not
      outgrow these, and the first one that outgrows them runs one. */
  lemma NextStepIsExact(s0: State, rs: seq<Request>, r: Request)
    requires Idle(s0)
    ensures var s := Finished(s0);
      var live := Bytes(s0.pool.heap, Only(s0.pool.List(), ReachSet(s0)));
      !Outgrows(live, s0.growth, Total(rs)) ==>
        && AllAllocated(s, rs) == AllLinked(s, rs)
        && Allocated(AllLinked(s, rs), r) ==
           if Outgrows(live, s0.growth, Total(rs) + r.size) then Step(Linked(AllLinked(s, rs), r), 128)
           else Linked(AllLinked(s, rs), r)
  {
    FinishedState(s0);
    hide *;
    var live := Bytes(s0.pool.heap, Only(s0.pool.List(), ReachSet(s0)));
    if !Outgrows(live, s0.growth, Total(rs)) { NextStepFrom(Finished(s0), live, s0.growth, rs, r); }
  }

  /** Without a configuration the percentage is 150, and no action ever changes it. */
  lemma {:induction false} GrowthIsKept(s: State, actions: seq<Action>)
    ensures Run(s, actions).growth == s.growth
    decreases |actions|
  {
    if actions != [] {
      GrowthIsKept(Apply(s, actions[0]), actions[1..]);
    }
  }

  /** In a collector without a configuration that finished a cycle with `live` bytes, 2.5 times that many
      are the threshold from 410 bytes on. */
  lemma DefaultThreshold(actions: seq<Action>)
    requires Idle(Run(Create(0, 0), actions))
    ensures Create(0, 0).threshold == 65536
    ensures var s := Finished(Run(Create(0, 0), actions));
      var live := s.pool.tally.bytes;
      live >= 0 && s.threshold == if live < 410 then 1024 else live + live * 3 / 2
  {
    GrowthIsKept(Create(0, 0), actions);
    var s0 := Run(Create(0, 0), actions);
    FinishedState(s0);
    hide Idle, Finished, ReachSet, Step, Bytes, Only, Without, Run;
    assert s0.growth == 150;
  }
}
