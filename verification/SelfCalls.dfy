/** Inside a recursive function its own calls still count as having no effects. This says exactly
    when what the analysis records for an expression of the body is nevertheless right. */
module SelfCalls {
  import opened Syntax
  import opened EffectAnalysis
  import opened EffectSolutions
  import opened EffectReachability
  import Printer

  /** What the analysis finds for `e`, somewhere in the body of `d` under binders of `names`. */
  function Found(e: Expr, d: Decl, s: Scope, names: seq<string>, binds: Typing): Mask
    requires d.FunDecl?
  {
    Effects(e, Bound(s[d.name := FunctionEntry(|d.params|, NONE)], names), binds)
  }

  /** What `e` has in the end, when `d` has its mask. */
  function Final(e: Expr, d: Decl, s: Scope, names: seq<string>, binds: Typing): Mask
    requires d.FunDecl?
  {
    Effects(e, Bound(After(d, s, binds), names), binds)
  }

  lemma SelfUse(uses: set<Use>, d: Decl, s: Scope, binds: Typing, b: Bit)
    requires d.FunDecl? && d.name !in s
    ensures var after := After(d, s, binds);
      SomeUseHas(uses, after, b) <==>
        SomeUseHas(uses, s[d.name := FunctionEntry(|d.params|, NONE)], b) || (Calls(d.name) in uses && Has(after[d.name].mask, b))
  {
    var after, without := After(d, s, binds), s[d.name := FunctionEntry(|d.params|, NONE)];
    forall u: Use | u != Calls(d.name) ensures UseMask(u, after) == UseMask(u, without) {
    }
    assert UseMask(Calls(d.name), after) == after[d.name].mask && UseMask(Calls(d.name), without) == NONE;
    if SomeUseHas(uses, after, b) {
      var u :| u in uses && Has(UseMask(u, after), b);
    }
    if SomeUseHas(uses, without, b) {
      var u :| u in uses && Has(UseMask(u, without), b);
      assert Has(UseMask(u, after), b);
    }
  }

  lemma SelfCallMisses(e: Expr, d: Decl, s: Scope, names: seq<string>, binds: Typing, b: Bit)
    requires d.FunDecl? && d.name !in s
    requires Resolved(e, Bound(s[d.name := FunctionEntry(|d.params|, NONE)], names), binds)
    ensures Has(Final(e, d, s, names, binds), b) <==>
      || Has(Found(e, d, s, names, binds), b)
      || (Calls(d.name) in Unbound(Uses(e, binds), names) && Has(After(d, s, binds)[d.name].mask, b))
  {
    hide Effects, Resolved, UseMask, SomeUseHas, Has, Uses, Unbound;
    var after, without := After(d, s, binds), s[d.name := FunctionEntry(|d.params|, NONE)];
    var mask := after[d.name].mask;
    assert BoundedBy(without, after, NONE);
    ArmScopesBounded(without, after, NONE, names);
    EffectsBounded(e, Bound(without, names), Bound(after, names), NONE, binds);
    EffectsExplained(e, Bound(without, names), binds, b);
    EffectsExplained(e, Bound(after, names), binds, b);
    BoundUses(Uses(e, binds), without, names, b);
    BoundUses(Uses(e, binds), after, names, b);
    SelfUse(Unbound(Uses(e, binds), names), d, s, binds, b);
  }

  /** What is found inside the function is right if and only if the function is not called there, or
      its mask is found there anyway. */
  lemma FoundIsRightIff(e: Expr, d: Decl, s: Scope, names: seq<string>, binds: Typing)
    requires d.FunDecl? && d.name !in s
    requires Resolved(e, Bound(s[d.name := FunctionEntry(|d.params|, NONE)], names), binds)
    ensures Found(e, d, s, names, binds) == Final(e, d, s, names, binds) <==>
      Calls(d.name) !in Unbound(Uses(e, binds), names) || Within(After(d, s, binds)[d.name].mask, Found(e, d, s, names, binds))
  {
    hide Found, Final, Uses, Unbound, Resolved, After;
    SelfCallMisses(e, d, s, names, binds, AsyncBit);
    SelfCallMisses(e, d, s, names, binds, ImpureBit);
  }

  /** The body as a whole is always right, which is what the stored mask is taken from; an expression
      of it need not be. */
  lemma FoundInBody(e: Expr, d: Decl, s: Scope, binds: Typing)
    requires d.FunDecl? && CleanDecl(d, s, binds) && Resolved(e, BodyScope(d, s), binds)
    ensures var final := Effects(e, Bound(After(d, s, binds), Names(d.params)), binds);
            var found := Effects(e, BodyScope(d, s), binds);
      && Within(found, final)
      && (Within(final, found) <==>
            Calls(d.name) !in Unbound(Uses(e, binds), Names(d.params)) || Within(After(d, s, binds)[d.name].mask, found))
      && (e == d.body ==> found == final == After(d, s, binds)[d.name].mask)
  {
    FoundIsRightIff(e, d, s, Names(d.params), binds);
    hide Uses, Unbound, Resolved, Effects;
    SelfCallMisses(e, d, s, Names(d.params), binds, AsyncBit);
    SelfCallMisses(e, d, s, Names(d.params), binds, ImpureBit);
  }

  /** `{ !1; f() }` */
  const Body := Block([Effect(Number("1")), Call(Ident("f"), [])])

  /** A body the parser builds for which it is wrong: for the call of `f` inside `f` nothing is found,
      although the call performs the effect before it. */
  lemma SelfCallIsUnderstated(binds: Typing)
    ensures var call := Call(Ident("f"), []);
            var d := FunDecl("f", [], Body);
            && Printer.Printable(Body) && Body.items[1] == call
            && CleanDecl(d, map[], binds)
            && Effects(call, BodyScope(d, map[]), binds) == NONE
            && Effects(call, Bound(After(d, map[], binds), []), binds) == IMPURE == After(d, map[], binds)["f"].mask
  {
    hide Effects, Resolved, Printer.Printable;
    CallInside(binds);
    BodyInside(binds);
    var d := FunDecl("f", [], Body);
    assert Names(d.params) == [];
    assert After(d, map[], binds) == map["f" := FunctionEntry(0, IMPURE)];
  }

  lemma BodyInside(binds: Typing)
    ensures Printer.Printable(Body)
    ensures var scope := Bound(map["f" := FunctionEntry(0, NONE)], []);
            Resolved(Body, scope, binds) && Effects(Body, scope, binds) == IMPURE
  {
    hide Bound, CalleeMask;
    var call := Call(Ident("f"), []);
    CallInside(binds);
    assert Body.items[1..] == [call] && [call][1..] == [];
    assert Printer.AllPrintable([call]);
    var scope := Bound(map["f" := FunctionEntry(0, NONE)], []);
    assert AllResolved([call], scope, binds);
    assert EffectsAll([call], scope, binds) == Effects(call, scope, binds);
  }

  lemma CallInside(binds: Typing)
    ensures forall mask :: Effects(Call(Ident("f"), []), Bound(map["f" := FunctionEntry(0, mask)], []), binds) == mask
    ensures forall mask :: Resolved(Call(Ident("f"), []), Bound(map["f" := FunctionEntry(0, mask)], []), binds)
  {
    forall mask ensures var scope := Bound(map["f" := FunctionEntry(0, mask)], []);
      Effects(Call(Ident("f"), []), scope, binds) == mask && Resolved(Call(Ident("f"), []), scope, binds)
    {
      var scope := Bound(map["f" := FunctionEntry(0, mask)], []);
      assert Stripped(Ident("f")) == Ident("f");
      assert CalleeMask(Ident("f"), scope) == Some(mask);
      assert EffectsArgs([], scope, binds) == NONE;
    }
  }
}
