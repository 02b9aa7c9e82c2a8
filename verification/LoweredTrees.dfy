/** What lowering hands to the in-place optimiser: either nothing, or a tree whose null pointers
    occur at most as call arguments. */
module LoweredTrees {
  import opened Syntax
  import opened Ir
  import opened Lowering
  import opened OptimizerStore

  /** Every element is sound, or null where null is allowed. */
  ghost predicate EachSound(es: seq<IR>, nullable: bool) {
    forall i :: 0 <= i < |es| ==> Sound(es[i]) || (nullable && es[i] == Null)
  }

  lemma ChildrenSound(e: IR)
    requires e != Null && EachSound(Children(e), e.CallIR?)
    ensures Sound(e)
  {
    AllSound(Children(e), e.CallIR?);
  }

  lemma {:induction false} LoweredIsSound(e: Expr, types: Types)
    ensures Lower(e, types) == Null || Sound(Lower(e, types))
    decreases e, 1
  {
    hide Sound;
    var r := Lower(e, types);
    match e
    case ListLiteral(es) =>
      AllLoweredSound(es, types);
      if r != Null { ChildrenSound(r); }
    case Call(_, args) =>
      ArgsLoweredSound(args, types);
      if r != Null { ChildrenSound(r); }
    case Pipe(target, stages) =>
      LoweredIsSound(target, types);
      if Lower(target, types) != Null { StagesLoweredSound(Lower(target, types), stages, types); }
    case If(c, t, f) =>
      LoweredIsSound(c, types);
      LoweredIsSound(t, types);
      if f.Some? { LoweredIsSound(f.value, types); } else { ChildrenSound(UnitIR(types.unit)); }
      if r != Null { ChildrenSound(r); }
    case While(c, b) =>
      LoweredIsSound(c, types);
      LoweredIsSound(b, types);
      if r != Null { ChildrenSound(r); }
    case Block(es) =>
      AllLoweredSound(es, types);
      if |es| == 1 { LoweredIsSound(es[0], types); }
      else if r != Null { ChildrenSound(r); }
    case Match(s, arms) =>
      LoweredIsSound(s, types);
      ArmsLoweredSound(arms, types);
      if r != Null { ChildrenSound(r); }
    case Paren(inner) => LoweredIsSound(inner, types);
    case Async(inner) => LoweredIsSound(inner, types);
    case Await(inner) => LoweredIsSound(inner, types);
    case Effect(inner) => LoweredIsSound(inner, types);
    case _ =>
      if r != Null { ChildrenSound(r); }
  }

  lemma {:induction false} AllLoweredSound(es: seq<Expr>, types: Types)
    ensures Null in LowerAll(es, types) || EachSound(LowerAll(es, types), false)
    decreases es, 0
  {
    hide Sound;
    if es != [] {
      LoweredIsSound(es[0], types);
      AllLoweredSound(es[1..], types);
    }
  }

  lemma {:induction false} ArgsLoweredSound(args: seq<Arg>, types: Types)
    ensures EachSound(LowerArgs(args, types), true)
    decreases args, 0
  {
    hide Sound;
    if args != [] {
      assert args[0].value < args[0];
      LoweredIsSound(args[0].value, types);
      ArgsLoweredSound(args[1..], types);
    }
  }

  lemma {:induction false} ArmsLoweredSound(arms: seq<Arm>, types: Types)
    ensures var lowered := LowerArms(arms, types);
      (exists arm :: arm in lowered && arm.body == Null) || EachSound(ArmBodies(lowered), false)
    decreases arms, 0
  {
    hide Sound;
    if arms != [] {
      LoweredIsSound(arms[0].body, types);
      ArmsLoweredSound(arms[1..], types);
      var lowered := LowerArms(arms, types);
      assert lowered[1..] == LowerArms(arms[1..], types);
      if lowered[0].body != Null && EachSound(ArmBodies(lowered[1..]), false) {
        forall i | 0 <= i < |lowered| ensures Sound(ArmBodies(lowered)[i]) {
          if i > 0 { assert ArmBodies(lowered)[i] == ArmBodies(lowered[1..])[i - 1]; }
        }
      }
    }
  }

  lemma {:induction false} StagesLoweredSound(current: IR, stages: seq<Expr>, types: Types)
    requires Sound(current)
    ensures var r := LowerStages(current, stages, types); r == Null || Sound(r)
    decreases stages, 0
  {
    hide Sound;
    if stages != [] {
      var stage, call := stages[0], LowerStage(current, stages[0], types);
      if call != Null {
        if stage.Call? {
          assert stage in stages;
          ArgsLoweredSound(stage.args, types);
        }
        ChildrenSound(call);
        StagesLoweredSound(call, stages[1..], types);
      }
    }
  }
}
