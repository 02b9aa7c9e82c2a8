/** check_match_exhaustiveness (src/semantic.cpp:524-550): the warning is exact. */
module Exhaustiveness {
  import opened Syntax
  import opened Meaning

  function Count(seen: seq<bool>): (n: nat)
    ensures n <= |seen|
    ensures n == |seen| <==> forall v :: 0 <= v < |seen| ==> seen[v]
  {
    if seen == [] then 0
    else
      assert seen == seen[..|seen| - 1] + [seen[|seen| - 1]];
      Count(seen[..|seen| - 1]) + if seen[|seen| - 1] then 1 else 0
  }

  lemma {:induction false} CountOfMarked(seen: seq<bool>, v: nat)
    requires v < |seen| && !seen[v]
    ensures Count(seen[v := true]) == Count(seen) + 1
    decreases |seen|
  {
    var last := |seen| - 1;
    if v < last {
      CountOfMarked(seen[..last], v);
      assert seen[v := true][..last] == seen[..last][v := true];
    } else {
      assert seen[v := true][..last] == seen[..last];
    }
  }

  lemma {:induction false} CountOfNone(n: nat)
    ensures Count(seq(n, _ => false)) == 0
  {
    if n > 0 {
      assert seq(n, _ => false)[..n - 1] == seq(n - 1, _ => false);
      CountOfNone(n - 1);
    }
  }

  /** Whether the match warns, given the names of the type's variants and of the arms. */
  method CheckMatchExhaustiveness(variants: seq<string>, arms: seq<string>) returns (warns: bool)
    ensures warns <==> exists v :: 0 <= v < |variants| && variants[v] !in arms
  {
    hide Count;
    if |variants| == 0 { return false; }
    var seen := new bool[|variants|](_ => false);
    var covered: nat := 0;
    assert seen[..] == seq(|variants|, _ => false);
    CountOfNone(|variants|);
    for i := 0 to |arms|
      invariant covered == Count(seen[..])
      invariant forall v :: 0 <= v < |variants| ==> (seen[v] <==> variants[v] in arms[..i])
    {
      assert arms[..i + 1] == arms[..i] + [arms[i]];
      for v := 0 to |variants|
        invariant covered == Count(seen[..])
        invariant forall w :: 0 <= w < |variants| ==>
                    (seen[w] <==> variants[w] in arms[..i] || (w < v && variants[w] == arms[i]))
      {
        if variants[v] == arms[i] {
          if !seen[v] {
            ghost var before := seen[..];
            CountOfMarked(before, v);
            seen[v] := true;
            assert seen[..] == before[v := true];
            covered := covered + 1;
          }
        }
      }
    }
    assert arms[..|arms|] == arms;
    warns := covered < |variants|;
  }

  // ----- what the warning means when the match is evaluated -----

  function ArmNames(arms: seq<Arm>): seq<string> {
    seq(|arms|, i requires 0 <= i < |arms| => arms[i].name)
  }

  /** Arm `i` is the first for `tag`. */
  predicate Selects(arms: seq<Arm>, tag: string, i: nat) {
    i < |arms| && arms[i].name == tag && forall j :: 0 <= j < i ==> arms[j].name != tag
  }

  /** Some arm is selected, and evaluation goes on with it once its names are bound. */
  ghost predicate FindsArm(arms: seq<Arm>, tag: string, payload: seq<Value>, oracle: Oracle, env: Env, h: History, fuel: nat) {
    exists i: nat :: Selects(arms, tag, i)
      && EvalArms(arms, tag, payload, oracle, env, h, fuel)
         == var inner := Bind(env, Names(arms[i].bindings), payload);
            if inner.Some? then EvalExpr(arms[i].body, oracle, inner.value, h, fuel) else Wrong(h)
  }

  lemma {:induction false} ArmIsFound(arms: seq<Arm>, tag: string, payload: seq<Value>, oracle: Oracle, env: Env, h: History, fuel: nat)
    ensures if tag in ArmNames(arms) then FindsArm(arms, tag, payload, oracle, env, h, fuel)
            else EvalArms(arms, tag, payload, oracle, env, h, fuel) == Wrong(h)
    decreases |arms|
  {
    var names := ArmNames(arms);
    if arms == [] {
    } else if arms[0].name == tag {
      assert names[0] == tag;
      assert Selects(arms, tag, 0);
    } else {
      var rest := arms[1..];
      ArmIsFound(rest, tag, payload, oracle, env, h, fuel);
      assert names == [arms[0].name] + ArmNames(rest);
      if tag in names {
        var i: nat :| Selects(rest, tag, i)
          && EvalArms(rest, tag, payload, oracle, env, h, fuel)
             == var inner := Bind(env, Names(rest[i].bindings), payload);
                if inner.Some? then EvalExpr(rest[i].body, oracle, inner.value, h, fuel) else Wrong(h);
        assert Selects(arms, tag, i + 1);
      }
    }
  }

  /** A match on a value of the type finds an arm, whatever the value, exactly when it does not warn. */
  lemma NoWarningIffEveryValueFindsAnArm(variants: seq<string>, arms: seq<Arm>, payload: seq<Value>, oracle: Oracle, env: Env, h: History, fuel: nat)
    ensures (forall v :: 0 <= v < |variants| ==> FindsArm(arms, variants[v], payload, oracle, env, h, fuel))
            <==> !(exists v :: 0 <= v < |variants| && variants[v] !in ArmNames(arms))
  {
    forall v | 0 <= v < |variants|
      ensures FindsArm(arms, variants[v], payload, oracle, env, h, fuel) <==> variants[v] in ArmNames(arms)
    {
      ArmIsFound(arms, variants[v], payload, oracle, env, h, fuel);
      if FindsArm(arms, variants[v], payload, oracle, env, h, fuel) {
        var i: nat :| Selects(arms, variants[v], i);
        assert ArmNames(arms)[i] == variants[v];
      }
    }
  }
}
