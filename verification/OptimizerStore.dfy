/** The optimiser as it runs: on nodes in memory that it overwrites and frees (src/ir.cpp:331-433
    and 441-494). Memory is a map from addresses to nodes. Reading, overwriting or freeing an
    address is only possible with a proof that it is allocated, so there is no use after free and
    no double free; and the contracts say which nodes remain. */
module OptimizerStore {
  import opened Syntax
  import opened Ir
  import Optimizer

  type Ptr = int

  const NULL: Ptr := 0

  datatype ArmNode = ArmNode(ctor: string, bindings: seq<string>, body: Ptr)

  datatype Node =
    | NumberNode(typ: TypeId, text: string)
    | StringNode(typ: TypeId, text: string)
    | BoolNode(typ: TypeId, value: bool)
    | UnitNode(typ: TypeId)
    | IdentNode(typ: TypeId, name: string)
    | CallNode(typ: TypeId, callee: string, args: seq<Ptr>)
    | SequenceNode(typ: TypeId, items: seq<Ptr>)
    | ListNode(typ: TypeId, elements: seq<Ptr>)
    | IfNode(typ: TypeId, cond: Ptr, thenBranch: Ptr, elseBranch: Ptr)
    | WhileNode(typ: TypeId, cond: Ptr, body: Ptr)
    | MatchNode(typ: TypeId, scrutinee: Ptr, arms: seq<ArmNode>)

  type Memory = map<Ptr, Node>

  /** The pointers a node holds, in the order the optimiser visits them. */
  function Pointers(n: Node): seq<Ptr> {
    match n
    case CallNode(_, _, args) => args
    case SequenceNode(_, items) => items
    case ListNode(_, elements) => elements
    case IfNode(_, c, t, f) => [c, t, f]
    case WhileNode(_, c, b) => [c, b]
    case MatchNode(_, s, arms) => [s] + Bodies(arms)
    case _ => []
  }

  function Bodies(arms: seq<ArmNode>): seq<Ptr> {
    seq(|arms|, i requires 0 <= i < |arms| => arms[i].body)
  }

  function Children(e: IR): seq<IR> {
    match e
    case CallIR(_, _, args) => args
    case SequenceIR(_, items) => items
    case ListIR(_, elements) => elements
    case IfIR(_, c, t, f) => [c, t, f]
    case WhileIR(_, c, b) => [c, b]
    case MatchIR(_, s, arms) => [s] + ArmBodies(arms)
    case _ => []
  }

  function ArmBodies(arms: seq<IRArm>): seq<IR> {
    seq(|arms|, i requires 0 <= i < |arms| => arms[i].body)
  }

  /** `n` is the node of `e`, apart from where its pointers lead. */
  ghost predicate Heads(n: Node, e: IR) {
    match e
    case Null => false
    case NumberIR(typ, text) => n == NumberNode(typ, text)
    case StringIR(typ, text) => n == StringNode(typ, text)
    case BoolIR(typ, b) => n == BoolNode(typ, b)
    case UnitIR(typ) => n == UnitNode(typ)
    case IdentIR(typ, x) => n == IdentNode(typ, x)
    case CallIR(typ, callee, args) => n.CallNode? && n.typ == typ && n.callee == callee && |n.args| == |args|
    case SequenceIR(typ, items) => n.SequenceNode? && n.typ == typ && |n.items| == |items|
    case ListIR(typ, elements) => n.ListNode? && n.typ == typ && |n.elements| == |elements|
    case IfIR(typ, _, _, _) => n.IfNode? && n.typ == typ
    case WhileIR(typ, _, _) => n.WhileNode? && n.typ == typ
    case MatchIR(typ, _, arms) =>
      && n.MatchNode? && n.typ == typ && |n.arms| == |arms|
      && forall i :: 0 <= i < |arms| ==> n.arms[i].ctor == arms[i].ctor && n.arms[i].bindings == arms[i].bindings
  }

  lemma {:induction false} SizeOfArmBodies(arms: seq<IRArm>)
    ensures Optimizer.SizeAll(ArmBodies(arms)) == Optimizer.SizeArms(arms)
  {
    if arms != [] {
      SizeOfArmBodies(arms[1..]);
      assert ArmBodies(arms)[1..] == ArmBodies(arms[1..]);
    }
  }

  lemma SizeOfChildren(e: IR)
    ensures Optimizer.Size(e) == 1 + Optimizer.SizeAll(Children(e))
  {
    match e
    case IfIR(_, c, t, f) =>
      assert [c, t, f][1..] == [t, f] && [t, f][1..] == [f] && [f][1..] == [];
      assert Optimizer.SizeAll([t, f]) == Optimizer.Size(t) + Optimizer.SizeAll([f]);
      assert Optimizer.SizeAll([f]) == Optimizer.Size(f);
    case WhileIR(_, c, b) =>
      assert [c, b][1..] == [b] && [b][1..] == [];
      assert Optimizer.SizeAll([b]) == Optimizer.Size(b);
    case MatchIR(_, s, arms) =>
      SizeOfArmBodies(arms);
      assert ([s] + ArmBodies(arms))[1..] == ArmBodies(arms);
    case _ =>
  }

  // ----- ownership -----

  /** The addresses of the nodes of the tree `e` stored at `p`. */
  ghost function Cells(mem: Memory, p: Ptr, e: IR): set<Ptr>
    decreases Optimizer.Size(e), 0
  {
    if e == Null || p !in mem then {}
    else
      SizeOfChildren(e);
      {p} + CellsAll(mem, Pointers(mem[p]), Children(e))
  }

  ghost function CellsAll(mem: Memory, ps: seq<Ptr>, es: seq<IR>): set<Ptr>
    decreases Optimizer.SizeAll(es), 1
  {
    if es == [] || ps == [] then {} else Cells(mem, ps[0], es[0]) + CellsAll(mem, ps[1..], es[1..])
  }

  /** The tree `e` is stored at `p`, and no two of its pointers lead to the same node. */
  ghost predicate Owns(mem: Memory, p: Ptr, e: IR)
    decreases Optimizer.Size(e), 0
  {
    if e == Null then p == NULL
    else
      && p != NULL && p in mem && Heads(mem[p], e)
      && (SizeOfChildren(e); OwnsAll(mem, Pointers(mem[p]), Children(e)))
      && p !in CellsAll(mem, Pointers(mem[p]), Children(e))
  }

  ghost predicate OwnsAll(mem: Memory, ps: seq<Ptr>, es: seq<IR>)
    decreases Optimizer.SizeAll(es), 1
  {
    && |ps| == |es|
    && (es != [] ==>
          && Owns(mem, ps[0], es[0]) && OwnsAll(mem, ps[1..], es[1..])
          && Cells(mem, ps[0], es[0]) !! CellsAll(mem, ps[1..], es[1..]))
  }

  /** `m2` holds the same nodes as `m1` at the addresses `at`. */
  ghost predicate Same(m1: Memory, m2: Memory, at: set<Ptr>) {
    forall p :: p in at ==> p in m1 && p in m2 && m1[p] == m2[p]
  }

  lemma {:induction false} OwnsFrame(m1: Memory, m2: Memory, p: Ptr, e: IR)
    requires Owns(m1, p, e) && Same(m1, m2, Cells(m1, p, e))
    ensures Owns(m2, p, e) && Cells(m2, p, e) == Cells(m1, p, e)
    decreases Optimizer.Size(e), 0
  {
    if e != Null {
      SizeOfChildren(e);
      OwnsAllFrame(m1, m2, Pointers(m1[p]), Children(e));
    }
  }

  lemma {:induction false} OwnsAllFrame(m1: Memory, m2: Memory, ps: seq<Ptr>, es: seq<IR>)
    requires OwnsAll(m1, ps, es) && Same(m1, m2, CellsAll(m1, ps, es))
    ensures OwnsAll(m2, ps, es) && CellsAll(m2, ps, es) == CellsAll(m1, ps, es)
    decreases Optimizer.SizeAll(es), 1
  {
    if es != [] {
      OwnsFrame(m1, m2, ps[0], es[0]);
      OwnsAllFrame(m1, m2, ps[1..], es[1..]);
    }
  }

  lemma {:induction false} CellsAllocated(mem: Memory, p: Ptr, e: IR)
    requires Owns(mem, p, e)
    ensures Cells(mem, p, e) <= mem.Keys
    decreases Optimizer.Size(e), 0
  {
    if e != Null {
      SizeOfChildren(e);
      CellsAllAllocated(mem, Pointers(mem[p]), Children(e));
    }
  }

  lemma {:induction false} CellsAllAllocated(mem: Memory, ps: seq<Ptr>, es: seq<IR>)
    requires OwnsAll(mem, ps, es)
    ensures CellsAll(mem, ps, es) <= mem.Keys
    decreases Optimizer.SizeAll(es), 1
  {
    if es != [] {
      CellsAllocated(mem, ps[0], es[0]);
      CellsAllAllocated(mem, ps[1..], es[1..]);
    }
  }

  /** One of several trees. */
  lemma {:induction false} OwnsOne(mem: Memory, ps: seq<Ptr>, es: seq<IR>, i: nat)
    requires OwnsAll(mem, ps, es) && i < |es|
    ensures Owns(mem, ps[i], es[i]) && Cells(mem, ps[i], es[i]) <= CellsAll(mem, ps, es)
    decreases i
  {
    if i > 0 {
      OwnsOne(mem, ps[1..], es[1..], i - 1);
    }
  }

  /** Replacing one of several trees inside its own nodes. */
  lemma {:induction false} OwnsReplaced(m1: Memory, m2: Memory, ps: seq<Ptr>, es: seq<IR>, i: nat, e: IR)
    requires OwnsAll(m1, ps, es) && i < |es|
    requires Owns(m2, ps[i], e) && Cells(m2, ps[i], e) <= Cells(m1, ps[i], es[i])
    requires Same(m1, m2, CellsAll(m1, ps, es) - Cells(m1, ps[i], es[i]))
    ensures OwnsAll(m2, ps, es[i := e])
    ensures CellsAll(m2, ps, es[i := e]) == CellsAll(m1, ps, es) - Cells(m1, ps[i], es[i]) + Cells(m2, ps[i], e)
    ensures Cells(m1, ps[i], es[i]) <= CellsAll(m1, ps, es)
    decreases i
  {
    if i == 0 {
      assert es[0 := e][1..] == es[1..];
      OwnsAllFrame(m1, m2, ps[1..], es[1..]);
    } else {
      OwnsOne(m1, ps[1..], es[1..], i - 1);
      assert es[i := e][1..] == es[1..][i - 1 := e];
      OwnsFrame(m1, m2, ps[0], es[0]);
      OwnsReplaced(m1, m2, ps[1..], es[1..], i - 1, e);
    }
  }

  // ----- what a pass leaves of memory -----

  /** From `m1` to `m2`, of the nodes `before` exactly `after` are still allocated, and nothing
      outside `before` has been touched. */
  ghost predicate Shrunk(m1: Memory, m2: Memory, before: set<Ptr>, after: set<Ptr>) {
    && after <= before <= m1.Keys
    && m2.Keys == m1.Keys - (before - after)
    && Same(m1, m2, m1.Keys - before)
  }

  lemma ShrunkInside(m0: Memory, m1: Memory, m2: Memory, before: set<Ptr>, middle: set<Ptr>, b: set<Ptr>, a: set<Ptr>)
    requires Shrunk(m0, m1, before, middle) && Shrunk(m1, m2, b, a) && b <= middle
    ensures Shrunk(m0, m2, before, middle - b + a)
  {
  }

  // ----- the trees the optimiser is given -----

  /** Null pointers occur at most as call arguments. */
  ghost predicate Sound(e: IR)
    decreases Optimizer.Size(e), 0
  {
    e != Null && (SizeOfChildren(e); SoundAll(Children(e), e.CallIR?))
  }

  ghost predicate SoundAll(es: seq<IR>, nullable: bool)
    decreases Optimizer.SizeAll(es), 1
  {
    es == [] || ((Sound(es[0]) || (nullable && es[0] == Null)) && SoundAll(es[1..], nullable))
  }

  lemma {:induction false} SoundOne(es: seq<IR>, nullable: bool, i: nat)
    requires SoundAll(es, nullable) && i < |es|
    ensures Sound(es[i]) || (nullable && es[i] == Null)
    decreases i
  {
    if i > 0 {
      SoundOne(es[1..], nullable, i - 1);
    }
  }

  lemma {:induction false} AllSound(es: seq<IR>, nullable: bool)
    requires forall i :: 0 <= i < |es| ==> Sound(es[i]) || (nullable && es[i] == Null)
    ensures SoundAll(es, nullable)
  {
    if es != [] {
      assert Sound(es[0]) || (nullable && es[0] == Null);
      AllSound(es[1..], nullable);
    }
  }

  lemma {:induction false} OptimizeAllAt(es: seq<IR>, i: nat)
    requires i < |es|
    ensures Optimizer.OptimizeAll(es)[i] == Optimizer.Optimize(es[i])
    ensures Optimizer.Size(es[i]) <= Optimizer.SizeAll(es)
    decreases i
  {
    if i > 0 {
      OptimizeAllAt(es[1..], i - 1);
    }
  }

  lemma {:induction false} OptimizeArmsAt(arms: seq<IRArm>, i: nat)
    requires i < |arms|
    ensures Optimizer.OptimizeArms(arms)[i] == arms[i].(body := Optimizer.Optimize(arms[i].body))
    decreases i
  {
    if i > 0 {
      OptimizeArmsAt(arms[1..], i - 1);
    }
  }

  lemma OptimizeArmBodies(arms: seq<IRArm>)
    ensures ArmBodies(Optimizer.OptimizeArms(arms)) == Optimizer.OptimizeAll(ArmBodies(arms))
  {
    var opt := Optimizer.OptimizeArms(arms);
    forall i | 0 <= i < |arms| ensures ArmBodies(opt)[i] == Optimizer.OptimizeAll(ArmBodies(arms))[i] {
      OptimizeArmsAt(arms, i);
      OptimizeAllAt(ArmBodies(arms), i);
    }
  }

  /** `e` with its children optimised. */
  ghost function Inner(e: IR): (r: IR)
    ensures e != Null ==> r != Null
  {
    match e
    case CallIR(typ, callee, args) => CallIR(typ, callee, Optimizer.OptimizeAll(args))
    case SequenceIR(typ, items) => SequenceIR(typ, Optimizer.OptimizeAll(items))
    case ListIR(typ, elements) => ListIR(typ, Optimizer.OptimizeAll(elements))
    case IfIR(typ, c, t, f) => IfIR(typ, Optimizer.Optimize(c), Optimizer.Optimize(t), Optimizer.Optimize(f))
    case WhileIR(typ, c, b) => WhileIR(typ, Optimizer.Optimize(c), Optimizer.Optimize(b))
    case MatchIR(typ, s, arms) => MatchIR(typ, Optimizer.Optimize(s), Optimizer.OptimizeArms(arms))
    case _ => e
  }

  lemma OptimizeTwo(x: IR, y: IR)
    ensures Optimizer.OptimizeAll([x, y]) == [Optimizer.Optimize(x), Optimizer.Optimize(y)]
  {
    hide Optimizer.Optimize;
    assert [x, y][1..] == [y] && [y][1..] == [];
    assert Optimizer.OptimizeAll([y]) == [Optimizer.Optimize(y)];
  }

  lemma OptimizeThree(x: IR, y: IR, z: IR)
    ensures Optimizer.OptimizeAll([x, y, z]) == [Optimizer.Optimize(x), Optimizer.Optimize(y), Optimizer.Optimize(z)]
  {
    hide Optimizer.Optimize;
    assert [x, y, z][1..] == [y, z];
    OptimizeTwo(y, z);
  }

  lemma InnerChildren(e: IR)
    ensures Children(Inner(e)) == Optimizer.OptimizeAll(Children(e))
  {
    hide Optimizer.Optimize;
    match e
    case IfIR(_, c, t, f) => OptimizeThree(c, t, f);
    case WhileIR(_, c, b) => OptimizeTwo(c, b);
    case MatchIR(_, s, arms) =>
      OptimizeArmBodies(arms);
      assert ([s] + ArmBodies(arms))[1..] == ArmBodies(arms);
    case _ =>
  }

  lemma InnerHead(n: Node, e: IR)
    requires Heads(n, e)
    ensures Heads(n, Inner(e))
  {
    if e.MatchIR? {
      forall i | 0 <= i < |e.arms|
        ensures Optimizer.OptimizeArms(e.arms)[i].ctor == e.arms[i].ctor
        ensures Optimizer.OptimizeArms(e.arms)[i].bindings == e.arms[i].bindings
      {
        OptimizeArmsAt(e.arms, i);
      }
    }
  }

  lemma {:induction false} InnerSound(e: IR)
    requires Sound(e)
    ensures Sound(Inner(e))
    decreases Optimizer.Size(e), 0
  {
    var es := Children(e);
    SizeOfChildren(e);
    InnerChildren(e);
    forall i | 0 <= i < |es| ensures var r := Optimizer.OptimizeAll(es)[i]; Sound(r) || (e.CallIR? && r == Null) {
      SoundOne(es, e.CallIR?, i);
      OptimizeAllAt(es, i);
      if es[i] != Null {
        OptimizeSound(es[i]);
      }
    }
    AllSound(Optimizer.OptimizeAll(es), e.CallIR?);
  }

  lemma {:induction false} OptimizeSound(e: IR)
    requires Sound(e)
    ensures Sound(Optimizer.Optimize(e))
    decreases Optimizer.Size(e), 1
  {
    InnerSound(e);
    RewriteSound(Inner(e));
    OptimizeIsRewrite(e);
  }

  /** The rule that applies to a node whose children are optimised, without the second pass. */
  ghost function Rewrite(e: IR): IR {
    match e
    case SequenceIR(typ, items) => if |items| == 0 then UnitIR(typ) else if |items| == 1 then items[0] else e
    case IfIR(_, c, t, f) => if c.BoolIR? then (if c.value then t else f) else e
    case WhileIR(typ, c, _) => if c.BoolIR? && !c.value then UnitIR(typ) else e
    case MatchIR(_, _, arms) => if Collapsible(arms) then arms[0].body else e
    case _ => e
  }

  lemma OptimizeIsRewrite(e: IR)
    ensures Optimizer.Optimize(e) == Rewrite(Inner(e))
  {
    Optimizer.OptimizeRules(e);
    match e
    case SequenceIR(_, items) =>
      if |items| == 1 { OptimizeAllAt(items, 0); }
    case MatchIR(_, _, arms) =>
      if |arms| == 1 { OptimizeArmsAt(arms, 0); }
    case _ =>
  }

  lemma RewriteSound(e: IR)
    requires Sound(e)
    ensures Sound(Rewrite(e))
  {
    var es := Children(e);
    SizeOfChildren(e);
    forall i | 0 <= i < |es| ensures Sound(es[i]) || (e.CallIR? && es[i] == Null) {
      SoundOne(es, e.CallIR?, i);
    }
    match e
    case SequenceIR(_, items) => assert |items| == 1 ==> Children(e)[0] == items[0];
    case IfIR(_, c, t, f) => assert Children(e)[1] == t && Children(e)[2] == f;
    case MatchIR(_, s, arms) => assert Collapsible(arms) ==> Children(e)[1] == arms[0].body;
    case _ =>
  }

  /** The nodes of the first `i` trees, and of one more. */
  lemma {:induction false} CellsPrefix(mem: Memory, ps: seq<Ptr>, es: seq<IR>, i: nat)
    requires OwnsAll(mem, ps, es) && i < |es|
    ensures CellsAll(mem, ps[..i + 1], es[..i + 1]) == CellsAll(mem, ps[..i], es[..i]) + Cells(mem, ps[i], es[i])
    ensures CellsAll(mem, ps[..i], es[..i]) !! Cells(mem, ps[i], es[i])
    ensures CellsAll(mem, ps[..i + 1], es[..i + 1]) <= CellsAll(mem, ps, es)
    decreases i
  {
    assert ps[..i + 1][1..] == ps[1..][..i] && es[..i + 1][1..] == es[1..][..i];
    if i > 0 {
      assert ps[..i][1..] == ps[1..][..i - 1] && es[..i][1..] == es[1..][..i - 1];
      CellsPrefix(mem, ps[1..], es[1..], i - 1);
      OwnsOne(mem, ps[1..], es[1..], i - 1);
    }
  }

  lemma NoCells(mem: Memory, ps: seq<Ptr>, es: seq<IR>)
    ensures CellsAll(mem, ps[..0], es[..0]) == {} && mem - {} == mem
  {
  }

  lemma OwnsAllLength(mem: Memory, ps: seq<Ptr>, es: seq<IR>)
    requires OwnsAll(mem, ps, es)
    ensures |ps| == |es|
  {
  }

  /** Copying the node at `only` over the node at `p` moves the tree. */
  lemma MoveTree(mem: Memory, p: Ptr, only: Ptr, e: IR)
    requires Owns(mem, only, e) && e != Null && p in mem && p != NULL && p !in Cells(mem, only, e)
    ensures var m := (mem - {only})[p := mem[only]];
      Owns(m, p, e) && Cells(m, p, e) == Cells(mem, only, e) - {only} + {p}
  {
    var m := (mem - {only})[p := mem[only]];
    SizeOfChildren(e);
    CellsAllAllocated(mem, Pointers(mem[only]), Children(e));
    OwnsAllFrame(mem, m, Pointers(mem[only]), Children(e));
  }

  lemma OwnsTwo(mem: Memory, a: Ptr, b: Ptr, x: IR, y: IR)
    ensures OwnsAll(mem, [a, b], [x, y]) <==> Owns(mem, a, x) && Owns(mem, b, y) && Cells(mem, a, x) !! Cells(mem, b, y)
    ensures CellsAll(mem, [a, b], [x, y]) == Cells(mem, a, x) + Cells(mem, b, y)
  {
    assert [a, b][1..] == [b] && [x, y][1..] == [y] && [b][1..] == [] && [y][1..] == [];
    assert CellsAll(mem, [b], [y]) == Cells(mem, b, y);
    assert OwnsAll(mem, [b], [y]) == Owns(mem, b, y);
  }

  lemma OwnsThree(mem: Memory, a: Ptr, b: Ptr, c: Ptr, x: IR, y: IR, z: IR)
    ensures OwnsAll(mem, [a, b, c], [x, y, z]) <==>
      && Owns(mem, a, x) && Owns(mem, b, y) && Owns(mem, c, z)
      && Cells(mem, a, x) !! Cells(mem, b, y) !! Cells(mem, c, z)
    ensures CellsAll(mem, [a, b, c], [x, y, z]) == Cells(mem, a, x) + Cells(mem, b, y) + Cells(mem, c, z)
  {
    assert [a, b, c][1..] == [b, c] && [x, y, z][1..] == [y, z];
    OwnsTwo(mem, b, c, y, z);
  }

  /** Between `m1` and `m2` the tree `e` at `p` has become the tree `r`: its nodes are those nodes of
      `e` that are still allocated. Nothing is allocated meanwhile, and freeing an address takes a
      proof that it is allocated, so each of the other nodes of `e` has been freed exactly once. */
  ghost predicate Became(m1: Memory, m2: Memory, p: Ptr, e: IR, r: IR) {
    && Owns(m2, p, r)
    && Shrunk(m1, m2, Cells(m1, p, e), Cells(m2, p, r))
  }

  ghost predicate AllBecame(m1: Memory, m2: Memory, ps: seq<Ptr>, es: seq<IR>, rs: seq<IR>) {
    && OwnsAll(m2, ps, rs)
    && Shrunk(m1, m2, CellsAll(m1, ps, es), CellsAll(m2, ps, rs))
  }

  lemma NothingBecame(mem: Memory, ps: seq<Ptr>, es: seq<IR>)
    requires OwnsAll(mem, ps, es)
    ensures AllBecame(mem, mem, ps, es, es)
  {
    CellsAllAllocated(mem, ps, es);
  }

  lemma Unchanged(mem: Memory, p: Ptr, e: IR)
    requires Owns(mem, p, e)
    ensures Became(mem, mem, p, e, e)
  {
    CellsAllocated(mem, p, e);
  }

  lemma OneMoreBecame(m0: Memory, m1: Memory, m2: Memory, ps: seq<Ptr>, es: seq<IR>, rs: seq<IR>, i: nat, r: IR)
    requires AllBecame(m0, m1, ps, es, rs) && i < |rs| && |ps| == |rs|
    requires Became(m1, m2, ps[i], rs[i], r)
    ensures AllBecame(m0, m2, ps, es, rs[i := r])
  {
    hide Owns, Cells, OwnsAll, CellsAll;
    OwnsOne(m1, ps, rs, i);
    CellsAllAllocated(m1, ps, rs);
    OwnsReplaced(m1, m2, ps, rs, i, r);
    ShrunkInside(m0, m1, m2, CellsAll(m0, ps, es), CellsAll(m1, ps, rs), Cells(m1, ps[i], rs[i]), Cells(m2, ps[i], r));
  }

  lemma RootIsCell(mem: Memory, p: Ptr, e: IR)
    requires Owns(mem, p, e) && e != Null
    ensures p in Cells(mem, p, e) && p != NULL
  {
  }

  lemma LeafOwned(mem: Memory, p: Ptr, typ: TypeId)
    requires p in mem && p != NULL && mem[p] == UnitNode(typ)
    ensures Owns(mem, p, UnitIR(typ)) && Cells(mem, p, UnitIR(typ)) == {p}
  {
  }

  lemma BecameTwice(m0: Memory, m1: Memory, m2: Memory, p: Ptr, e: IR, r: IR, t: IR)
    requires Became(m0, m1, p, e, r) && Became(m1, m2, p, r, t)
    ensures Became(m0, m2, p, e, t)
  {
    hide Owns, Cells;
    var middle, after := Cells(m1, p, r), Cells(m2, p, t);
    ShrunkInside(m0, m1, m2, Cells(m0, p, e), middle, middle, after);
    assert middle - middle + after == after;
  }

  /** A node whose children have been optimised in place. */
  lemma InnerBecame(m0: Memory, m1: Memory, p: Ptr, e: IR)
    requires Owns(m0, p, e) && e != Null
    requires AllBecame(m0, m1, Pointers(m0[p]), Children(e), Optimizer.OptimizeAll(Children(e)))
    ensures Became(m0, m1, p, e, Inner(e))
  {
    InnerChildren(e);
    InnerHead(m0[p], e);
    SizeOfChildren(Inner(e));
    SizeOfChildren(e);
    CellsAllocated(m0, p, e);
    assert m1[p] == m0[p];
  }

  lemma OwnsChildren(mem: Memory, p: Ptr, e: IR)
    requires Owns(mem, p, e) && p != NULL
    ensures e != Null && p in mem && OwnsAll(mem, Pointers(mem[p]), Children(e))
    ensures Optimizer.Size(e) == 1 + Optimizer.SizeAll(Children(e))
  {
    SizeOfChildren(e);
  }

  lemma BecameOwned(m0: Memory, m1: Memory, p: Ptr, e: IR, r: IR)
    requires Became(m0, m1, p, e, r)
    ensures Owns(m1, p, r)
  {
  }

  lemma ChildrenAreSound(e: IR)
    requires Sound(e)
    ensures SoundAll(Children(e), e.CallIR?)
  {
  }

  lemma InnerIsSmaller(e: IR)
    ensures Optimizer.Size(Inner(e)) <= Optimizer.Size(e)
  {
  }

  lemma RewriteIsSmaller(e: IR)
    ensures e.SequenceIR? && |e.items| == 1 ==> Optimizer.Size(Rewrite(e)) < Optimizer.Size(e)
    ensures e.IfIR? && e.cond.BoolIR? ==> Optimizer.Size(Rewrite(e)) < Optimizer.Size(e)
    ensures e.MatchIR? && Collapsible(e.arms) ==> Optimizer.Size(Rewrite(e)) < Optimizer.Size(e)
  {
  }

  // ----- the children of a node, one kind at a time -----

  /** The nodes of `e` at `p` are its root and those of the disjoint trees `x` at `a` and `y` at `b`. */
  ghost predicate Two(mem: Memory, p: Ptr, e: IR, a: Ptr, x: IR, b: Ptr, y: IR) {
    && Owns(mem, p, e) && e != Null && Owns(mem, a, x) && Owns(mem, b, y)
    && Cells(mem, a, x) !! Cells(mem, b, y) && p !in Cells(mem, a, x) + Cells(mem, b, y)
    && Cells(mem, p, e) == {p} + Cells(mem, a, x) + Cells(mem, b, y)
  }

  ghost predicate Three(mem: Memory, p: Ptr, e: IR, a: Ptr, x: IR, b: Ptr, y: IR, c: Ptr, z: IR) {
    && Owns(mem, p, e) && e != Null && Owns(mem, a, x) && Owns(mem, b, y) && Owns(mem, c, z)
    && Cells(mem, a, x) !! Cells(mem, b, y)
    && (Cells(mem, a, x) + Cells(mem, b, y)) !! Cells(mem, c, z)
    && p !in Cells(mem, a, x) + Cells(mem, b, y) + Cells(mem, c, z)
    && Cells(mem, p, e) == {p} + (Cells(mem, a, x) + Cells(mem, b, y)) + Cells(mem, c, z)
  }

  lemma SplitSequence(mem: Memory, p: Ptr, e: IR)
    requires Owns(mem, p, e) && Sound(e) && e.SequenceIR?
    ensures p != NULL && p in mem && mem[p].SequenceNode? && mem[p].typ == e.typ && |mem[p].items| == |e.items|
    ensures |e.items| == 0 ==> Cells(mem, p, e) == {p}
    ensures |e.items| == 1 ==>
      var only := mem[p].items[0];
      && Owns(mem, only, e.items[0]) && e.items[0] != Null && p !in Cells(mem, only, e.items[0])
      && Cells(mem, p, e) == {p} + {} + Cells(mem, only, e.items[0])
  {
    SizeOfChildren(e);
    if |e.items| == 1 {
      SoundOne(e.items, false, 0);
      assert CellsAll(mem, mem[p].items[1..], e.items[1..]) == {};
    }
  }

  lemma SplitIf(mem: Memory, p: Ptr, e: IR)
    requires Owns(mem, p, e) && Sound(e) && e.IfIR?
    ensures p in mem && mem[p].IfNode?
    ensures var n := mem[p];
      && Three(mem, p, e, n.cond, e.cond, n.elseBranch, e.elseBranch, n.thenBranch, e.thenBranch)
      && Three(mem, p, e, n.cond, e.cond, n.thenBranch, e.thenBranch, n.elseBranch, e.elseBranch)
      && e.thenBranch != Null && e.elseBranch != Null
      && n.cond in mem && (mem[n.cond].BoolNode? <==> e.cond.BoolIR?)
      && (mem[n.cond].BoolNode? ==> mem[n.cond].value == e.cond.value)
  {
    hide Cells, CellsAll;
    OwnsChildren(mem, p, e);
    CellsOfNode(mem, p, e);
    OwnsThree(mem, mem[p].cond, mem[p].thenBranch, mem[p].elseBranch, e.cond, e.thenBranch, e.elseBranch);
    SoundOne(Children(e), false, 0);
    SoundOne(Children(e), false, 1);
    SoundOne(Children(e), false, 2);
    HeadOfBool(mem, mem[p].cond, e.cond);
  }

  lemma HeadOfBool(mem: Memory, p: Ptr, e: IR)
    requires Owns(mem, p, e) && e != Null
    ensures p in mem && (mem[p].BoolNode? <==> e.BoolIR?) && (mem[p].BoolNode? ==> mem[p].value == e.value)
  {
  }

  lemma CellsOfNode(mem: Memory, p: Ptr, e: IR)
    requires Owns(mem, p, e) && e != Null
    ensures p != NULL && p in mem && Heads(mem[p], e)
    ensures Cells(mem, p, e) == {p} + CellsAll(mem, Pointers(mem[p]), Children(e))
    ensures p !in CellsAll(mem, Pointers(mem[p]), Children(e))
  {
    SizeOfChildren(e);
  }

  lemma SplitWhile(mem: Memory, p: Ptr, e: IR)
    requires Owns(mem, p, e) && Sound(e) && e.WhileIR?
    ensures p in mem && mem[p].WhileNode? && mem[p].typ == e.typ
    ensures var n := mem[p];
      && Two(mem, p, e, n.cond, e.cond, n.body, e.body)
      && n.cond in mem && (mem[n.cond].BoolNode? <==> e.cond.BoolIR?)
      && (mem[n.cond].BoolNode? ==> mem[n.cond].value == e.cond.value)
  {
    hide Cells, CellsAll;
    OwnsChildren(mem, p, e);
    CellsOfNode(mem, p, e);
    OwnsTwo(mem, mem[p].cond, mem[p].body, e.cond, e.body);
    SoundOne(Children(e), false, 0);
    HeadOfBool(mem, mem[p].cond, e.cond);
  }

  lemma SplitMatch(mem: Memory, p: Ptr, e: IR)
    requires Owns(mem, p, e) && Sound(e) && e.MatchIR?
    ensures p in mem && mem[p].MatchNode?
    ensures Collapsible(e.arms) <==> |mem[p].arms| == 1 && mem[p].arms[0].bindings == []
    ensures Collapsible(e.arms) ==>
      && Two(mem, p, e, mem[p].scrutinee, e.scrutinee, mem[p].arms[0].body, e.arms[0].body)
      && e.arms[0].body != Null
  {
    hide Cells, CellsAll;
    OwnsChildren(mem, p, e);
    CellsOfNode(mem, p, e);
    if Collapsible(e.arms) {
      var s, b := mem[p].scrutinee, mem[p].arms[0].body;
      assert Pointers(mem[p]) == [s, b] && Children(e) == [e.scrutinee, e.arms[0].body];
      OwnsTwo(mem, s, b, e.scrutinee, e.arms[0].body);
      SoundOne(Children(e), false, 1);
    }
  }

  // ----- the two ways a node is overwritten -----

  /** The node at `p` takes over its child at `kept`; `dropped` are the nodes of its other children. */
  lemma BecameChild(m0: Memory, p: Ptr, e: IR, kept: Ptr, z: IR, dropped: set<Ptr>)
    requires Owns(m0, p, e) && e != Null && Owns(m0, kept, z) && z != Null
    requires p !in dropped + Cells(m0, kept, z) && dropped !! Cells(m0, kept, z)
    requires Cells(m0, p, e) == {p} + dropped + Cells(m0, kept, z)
    ensures kept in m0 && kept in Cells(m0, kept, z) && p in m0 && p != NULL
    ensures Became(m0, ((m0 - dropped) - {kept})[p := m0[kept]], p, e, z)
  {
    RootIsCell(m0, kept, z);
    RootIsCell(m0, p, e);
    CellsAllocated(m0, p, e);
    hide Owns, Cells;
    OwnsFrame(m0, m0 - dropped, kept, z);
    MoveTree(m0 - dropped, p, kept, z);
  }

  /** The node at `p` becomes Unit and `dropped`, the nodes of its children, go. */
  lemma BecameUnit(m0: Memory, p: Ptr, e: IR, dropped: set<Ptr>, typ: TypeId)
    requires Owns(m0, p, e) && e != Null && p !in dropped
    requires Cells(m0, p, e) == {p} + dropped
    ensures p in m0 && p != NULL
    ensures Became(m0, (m0 - dropped)[p := UnitNode(typ)], p, e, UnitIR(typ))
  {
    RootIsCell(m0, p, e);
    CellsAllocated(m0, p, e);
    var m := (m0 - dropped)[p := UnitNode(typ)];
    LeafOwned(m, p, typ);
  }

  ghost function Both(mem: Memory, a: Ptr, x: IR, b: Ptr, y: IR): set<Ptr> {
    Cells(mem, a, x) + Cells(mem, b, y)
  }

  /** The first `i` children optimised, the others not yet. */
  function Mixed(done: seq<IR>, es: seq<IR>, i: nat): seq<IR>
    requires i <= |done| == |es|
  {
    done[..i] + es[i..]
  }

  lemma MixedStep(done: seq<IR>, es: seq<IR>, i: nat)
    requires i < |done| == |es|
    ensures Mixed(done, es, i)[i] == es[i] && Mixed(done, es, i)[i := done[i]] == Mixed(done, es, i + 1)
  {
  }

  /** With all but one child freed, that child is as it was and may take the place of `e`. */
  lemma OnlyKeptLeft(m0: Memory, p: Ptr, e: IR, dropped: set<Ptr>, kept: Ptr, z: IR)
    requires Owns(m0, p, e) && e != Null && Owns(m0, kept, z) && z != Null
    requires p !in dropped + Cells(m0, kept, z) && dropped !! Cells(m0, kept, z)
    requires Cells(m0, p, e) == {p} + dropped + Cells(m0, kept, z)
    ensures KeptLeft(m0, m0 - dropped, p, e, kept, z)
  {
    hide Owns, Cells, Became;
    CellsAllocated(m0, kept, z);
    BecameChild(m0, p, e, kept, z, dropped);
    OwnsFrame(m0, m0 - dropped, kept, z);
  }

  ghost predicate KeptLeft(m0: Memory, m1: Memory, p: Ptr, e: IR, kept: Ptr, z: IR) {
    && Owns(m1, kept, z) && p !in Cells(m1, kept, z) && p in m1 && p != NULL
    && kept in m1 && Became(m0, (m1 - {kept})[p := m1[kept]], p, e, z)
  }

  lemma ThreeLeavesOne(m0: Memory, p: Ptr, e: IR, a: Ptr, x: IR, b: Ptr, y: IR, kept: Ptr, z: IR)
    requires Three(m0, p, e, a, x, b, y, kept, z) && z != Null
    ensures KeptLeft(m0, m0 - Both(m0, a, x, b, y), p, e, kept, z)
    ensures Owns(m0, a, x) && Owns(m0, b, y) && Cells(m0, a, x) !! Cells(m0, b, y)
  {
    hide Owns, Cells, KeptLeft;
    OnlyKeptLeft(m0, p, e, Both(m0, a, x, b, y), kept, z);
  }

  /** Each address of `born` is either still allocated or has been freed, and then once. */
  ghost predicate Accounted(born: set<Ptr>, mem: Memory, log: seq<Ptr>) {
    && (forall i, j :: 0 <= i < j < |log| ==> log[i] != log[j])
    && (forall q :: q in log ==> q in born && q !in mem)
    && (forall q :: q in born ==> q in mem || q in log)
    && mem.Keys <= born
  }

  lemma FreeIsAccounted(born: set<Ptr>, mem: Memory, log: seq<Ptr>, p: Ptr)
    requires Accounted(born, mem, log) && p in mem
    ensures Accounted(born, mem - {p}, log + [p])
  {
  }

  lemma OverwriteIsAccounted(born: set<Ptr>, mem: Memory, log: seq<Ptr>, p: Ptr, n: Node)
    requires Accounted(born, mem, log) && p in mem
    ensures Accounted(born, mem[p := n], log)
  {
  }

  /** What was freed between two states is what was allocated in the first and is not in the second. */
  lemma FreedSince(born: set<Ptr>, m0: Memory, l0: seq<Ptr>, m1: Memory, l1: seq<Ptr>)
    requires Accounted(born, m0, l0) && Accounted(born, m1, l1) && l0 <= l1
    ensures forall q :: q in l1[|l0|..] <==> q in m0 && q !in m1
    ensures forall i, j :: |l0| <= i < j < |l1| ==> l1[i] != l1[j]
  {
    assert l1 == l0 + l1[|l0|..];
    forall q | q in l1[|l0|..] ensures q in m0 && q !in m1 {
      var j :| |l0| <= j < |l1| && l1[j] == q;
      forall i | 0 <= i < |l0| ensures l0[i] != q {
        assert l0[i] == l1[i];
      }
    }
  }

  class IRStore {
    var mem: Memory
    ghost const born: set<Ptr>   // every address that has ever been allocated
    ghost var log: seq<Ptr>      // the addresses that have been freed, in order

    ghost predicate Valid()
      reads this
    {
      Accounted(born, mem, log)
    }

    /** free */
    method FreeNode(p: Ptr)
      requires Valid() && p in mem
      modifies this
      ensures Valid() && log == old(log) + [p]
      ensures mem == old(mem) - {p}
    {
      FreeIsAccounted(born, mem, log, p);
      mem := mem - {p};
      log := log + [p];
    }

    method Overwrite(p: Ptr, n: Node)
      requires Valid() && p in mem
      modifies this
      ensures Valid() && log == old(log) && mem == old(mem)[p := n]
    {
      OverwriteIsAccounted(born, mem, log, p, n);
      mem := mem[p := n];
    }

    /** nova_ir_expr_free frees every node of the tree once, and nothing else. */
    method FreeTree(p: Ptr, ghost e: IR)
      requires Valid() && Owns(mem, p, e)
      modifies this
      ensures Valid() && old(log) <= log
      ensures mem == old(mem) - Cells(old(mem), p, e)
      ensures forall q :: q in log[|old(log)|..] <==> q in old(mem) && q !in mem
      decreases Optimizer.Size(e), 0
    {
      hide Accounted;
      FreedSince(born, mem, log, mem, log);
      if p == NULL {
        assert mem - {} == mem;
        return;
      }
      SizeOfChildren(e);
      FreeAll(Pointers(mem[p]), Children(e));
      FreeNode(p);
      FreedSince(born, old(mem), old(log), mem, log);
    }

    /** The loops of nova_ir_expr_free over a node's children. */
    method FreeAll(ps: seq<Ptr>, ghost es: seq<IR>)
      requires Valid() && OwnsAll(mem, ps, es)
      modifies this
      ensures Valid() && old(log) <= log
      ensures mem == old(mem) - CellsAll(old(mem), ps, es)
      decreases Optimizer.SizeAll(es), 1
    {
      hide Owns, Cells, CellsAll, OwnsAll, Accounted;
      ghost var m0: Memory := mem;
      ghost var freed: set<Ptr> := {};
      NoCells(m0, ps, es);
      OwnsAllLength(m0, ps, es);
      for i := 0 to |ps|
        invariant Valid() && old(log) <= log
        invariant freed == CellsAll(m0, ps[..i], es[..i]) && mem == m0 - freed
      {
        CellsPrefix(m0, ps, es, i);
        OwnsOne(m0, ps, es, i);
        OptimizeAllAt(es, i);
        CellsAllocated(m0, ps[i], es[i]);
        OwnsFrame(m0, mem, ps[i], es[i]);
        FreeTree(ps[i], es[i]);
        freed := freed + Cells(m0, ps[i], es[i]);
      }
      assert ps[..|ps|] == ps && es[..|es|] == es;
    }

    /** `*expr = *only; free(only)` */
    method Hoist(p: Ptr, only: Ptr, ghost e: IR)
      requires Valid() && Owns(mem, only, e) && e != Null && p in mem && p != NULL && p !in Cells(mem, only, e)
      modifies this
      ensures Valid() && old(log) <= log
      ensures Owns(mem, p, e) && Cells(mem, p, e) == Cells(old(mem), only, e) - {only} + {p}
      ensures mem == (old(mem) - {only})[p := old(mem)[only]]
    {
      MoveTree(mem, p, only, e);
      var temp := mem[only];
      FreeNode(only);
      Overwrite(p, temp);
    }

    /** The optimiser's loops over a node's children. */
    method OptimizeEach(ps: seq<Ptr>, ghost es: seq<IR>, ghost nullable: bool)
      requires Valid() && OwnsAll(mem, ps, es) && SoundAll(es, nullable)
      modifies this
      ensures Valid() && old(log) <= log
      ensures AllBecame(old(mem), mem, ps, es, Optimizer.OptimizeAll(es))
      decreases Optimizer.SizeAll(es), 1
    {
      hide Owns, Cells, CellsAll, OwnsAll, Sound, SoundAll, Became, Optimizer.Optimize, Optimizer.OptimizeAll, Accounted;
      ghost var cur, done := es, Optimizer.OptimizeAll(es);
      OwnsAllLength(mem, ps, es);
      assert Mixed(done, es, 0) == es;
      NothingBecame(mem, ps, es);
      for i := 0 to |ps|
        invariant |cur| == |es| == |done| == |ps| && cur == Mixed(done, es, i)
        invariant AllBecame(old(mem), mem, ps, es, cur)
        invariant Valid() && old(log) <= log
      {
        ghost var m1 := mem;
        OwnsOne(mem, ps, cur, i);
        SoundOne(es, nullable, i);
        OptimizeAllAt(es, i);
        MixedStep(done, es, i);
        Optimize(ps[i], es[i]);
        OneMoreBecame(old(mem), m1, mem, ps, es, cur, i, done[i]);
        cur := cur[i := done[i]];
      }
      assert Mixed(done, es, |ps|) == done;
    }

    /** A sequence of no items becomes Unit; a sequence of one item becomes the item. */
    method RewriteSequence(p: Ptr, ghost e: IR) returns (again: bool)
      requires Valid() && Owns(mem, p, e) && Sound(e) && e.SequenceIR?
      modifies this
      ensures Valid() && old(log) <= log
      ensures Became(old(mem), mem, p, e, Rewrite(e))
      ensures again <==> |e.items| == 1
    {
      SplitSequence(mem, p, e);
      Unchanged(mem, p, e);
      hide Owns, Cells, Became, Sound, Accounted;
      var items, typ := mem[p].items, mem[p].typ;
      again := false;
      if |items| == 0 {
        BecameUnit(mem, p, e, {}, typ);
        assert mem - {} == mem;
        Overwrite(p, UnitNode(typ));
      } else if |items| == 1 {
        BecameChild(mem, p, e, items[0], e.items[0], {});
        assert mem - {} == mem;
        Hoist(p, items[0], e.items[0]);
        again := true;
      }
    }

    /** An `if` on a constant becomes the selected branch. */
    method RewriteIf(p: Ptr, ghost e: IR) returns (again: bool)
      requires Valid() && Owns(mem, p, e) && Sound(e) && e.IfIR?
      modifies this
      ensures Valid() && old(log) <= log
      ensures Became(old(mem), mem, p, e, Rewrite(e))
      ensures again <==> e.cond.BoolIR?
    {
      SplitIf(mem, p, e);
      Unchanged(mem, p, e);
      hide Owns, Cells, Became, Sound, Three, Accounted;
      var node := mem[p];
      again := false;
      if mem[node.cond].BoolNode? {
        again := true;
        if mem[node.cond].value {
          Select(p, node.cond, node.elseBranch, node.thenBranch, e, e.cond, e.elseBranch, e.thenBranch);
        } else {
          Select(p, node.cond, node.thenBranch, node.elseBranch, e, e.cond, e.thenBranch, e.elseBranch);
        }
      }
    }

    /** Free two trees that share nothing. */
    method FreeBoth(first: Ptr, second: Ptr, ghost x: IR, ghost y: IR)
      requires Valid() && Owns(mem, first, x) && Owns(mem, second, y) && Cells(mem, first, x) !! Cells(mem, second, y)
      modifies this
      ensures Valid() && old(log) <= log
      ensures mem == old(mem) - Both(old(mem), first, x, second, y)
    {
      hide Owns, Cells, Accounted;
      ghost var a: set<Ptr>, b: set<Ptr> := Cells(mem, first, x), Cells(mem, second, y);
      CellsAllocated(mem, second, y);
      OwnsFrame(mem, mem - a, second, y);
      FreeTree(first, x);
      FreeTree(second, y);
      assert mem == old(mem) - (a + b);
    }

    /** Free two children of the node at `p` and put the third in its place. */
    method Select(p: Ptr, first: Ptr, second: Ptr, kept: Ptr, ghost e: IR, ghost x: IR, ghost y: IR, ghost z: IR)
      requires Valid() && Three(mem, p, e, first, x, second, y, kept, z) && z != Null
      modifies this
      ensures Valid() && old(log) <= log
      ensures Became(old(mem), mem, p, e, z)
    {
      hide Owns, Cells, Became, Three, Both, Accounted;
      ThreeLeavesOne(mem, p, e, first, x, second, y, kept, z);
      FreeBoth(first, second, x, y);
      Hoist(p, kept, z);
    }

    /** A `while false` becomes Unit. */
    method RewriteWhile(p: Ptr, ghost e: IR)
      requires Valid() && Owns(mem, p, e) && Sound(e) && e.WhileIR?
      modifies this
      ensures Valid() && old(log) <= log
      ensures Became(old(mem), mem, p, e, Rewrite(e))
    {
      SplitWhile(mem, p, e);
      Unchanged(mem, p, e);
      hide Owns, Cells, Became, Sound, Two, Accounted;
      var node := mem[p];
      if mem[node.cond].BoolNode? && !mem[node.cond].value {
        Discard(p, node.cond, node.body, node.typ, e, e.cond, e.body);
      }
    }

    /** Free both children of the node at `p` and make it Unit. */
    method Discard(p: Ptr, first: Ptr, second: Ptr, typ: TypeId, ghost e: IR, ghost x: IR, ghost y: IR)
      requires Valid() && Two(mem, p, e, first, x, second, y)
      modifies this
      ensures Valid() && old(log) <= log
      ensures Became(old(mem), mem, p, e, UnitIR(typ))
    {
      hide Owns, Cells, Became, Accounted;
      ghost var a: set<Ptr>, b: set<Ptr> := Cells(mem, first, x), Cells(mem, second, y);
      CellsAllocated(mem, p, e);
      assert {p} + a + b == {p} + (a + b);
      BecameUnit(mem, p, e, a + b, typ);
      FreeBoth(first, second, x, y);
      Overwrite(p, UnitNode(typ));
    }

    /** A match with a single arm that binds nothing becomes the arm. */
    method RewriteMatch(p: Ptr, ghost e: IR) returns (again: bool)
      requires Valid() && Owns(mem, p, e) && Sound(e) && e.MatchIR?
      modifies this
      ensures Valid() && old(log) <= log
      ensures Became(old(mem), mem, p, e, Rewrite(e))
      ensures again <==> Collapsible(e.arms)
    {
      SplitMatch(mem, p, e);
      Unchanged(mem, p, e);
      hide Owns, Cells, Became, Sound, Two, Accounted;
      var node := mem[p];
      again := |node.arms| == 1 && node.arms[0].bindings == [];
      if again {
        Keep(p, node.scrutinee, node.arms[0].body, e, e.scrutinee, e.arms[0].body);
      }
    }

    /** Free one child of the node at `p` and put the other in its place. */
    method Keep(p: Ptr, first: Ptr, kept: Ptr, ghost e: IR, ghost x: IR, ghost z: IR)
      requires Valid() && Two(mem, p, e, first, x, kept, z) && z != Null
      modifies this
      ensures Valid() && old(log) <= log
      ensures Became(old(mem), mem, p, e, z)
    {
      hide Owns, Cells, Became, Accounted;
      ghost var a := Cells(mem, first, x);
      CellsAllocated(mem, p, e);
      BecameChild(mem, p, e, kept, z, a);
      OwnsFrame(mem, mem - a, kept, z);
      FreeTree(first, x);
      Hoist(p, kept, z);
    }

    /** The rules of optimize_ir_expr, and whether the rewritten node is to be optimised again. */
    method RewriteNode(p: Ptr, ghost e: IR) returns (again: bool)
      requires Valid() && Owns(mem, p, e) && Sound(e)
      modifies this
      ensures Valid() && old(log) <= log
      ensures Became(old(mem), mem, p, e, Rewrite(e))
      ensures again ==> Optimizer.Size(Rewrite(e)) < Optimizer.Size(e)
    {
      Unchanged(mem, p, e);
      assert e != Null && Heads(mem[p], e);
      RewriteIsSmaller(e);
      hide Owns, Cells, Sound, Became, Accounted;
      again := false;
      match mem[p] {
        case SequenceNode(_, _) => again := RewriteSequence(p, e);
        case IfNode(_, _, _, _) => again := RewriteIf(p, e);
        case WhileNode(_, _, _) => RewriteWhile(p, e);
        case MatchNode(_, _, _) => again := RewriteMatch(p, e);
        case _ =>
      }
    }

    /** optimize_ir_expr overwrites the tree at `p` by the optimised tree. The nodes of the result
        are the nodes that are left, unshared again; each of the others has been freed once; and
        no node outside the tree has been touched. */
    method Optimize(p: Ptr, ghost e: IR)
      requires Valid() && Owns(mem, p, e) && (e == Null || Sound(e))
      modifies this
      ensures Valid() && old(log) <= log
      ensures Became(old(mem), mem, p, e, Optimizer.Optimize(e))
      ensures forall q :: q in log[|old(log)|..] <==> q in old(mem) && q !in mem
      ensures forall i, j :: |old(log)| <= i < j < |log| ==> log[i] != log[j]
      decreases Optimizer.Size(e), 0
    {
      Unchanged(mem, p, e);
      if p == NULL {
        FreedSince(born, mem, log, mem, log);
        return;
      }
      ghost var m0, inner := mem, Inner(e);
      OwnsChildren(mem, p, e);
      ChildrenAreSound(e);
      hide Owns, Cells, CellsAll, OwnsAll, Sound, SoundAll, Became, Optimizer.Optimize, Optimizer.OptimizeAll, Rewrite, Inner, Accounted;
      OptimizeEach(Pointers(mem[p]), Children(e), e.CallIR?);
      InnerBecame(m0, mem, p, e);
      BecameOwned(m0, mem, p, e, inner);
      InnerSound(e);
      ghost var m1 := mem;
      var again := RewriteNode(p, inner);
      BecameTwice(m0, m1, mem, p, e, inner, Rewrite(inner));
      OptimizeIsRewrite(e);
      if again {
        InnerIsSmaller(e);
        OptimizeSound(e);
        Optimizer.OptimizeNormalizes(e);
        ghost var m2 := mem;
        BecameOwned(m0, mem, p, e, Rewrite(inner));
        Optimize(p, Rewrite(inner));
        BecameTwice(m0, m2, mem, p, e, Rewrite(inner), Rewrite(inner));
      }
      FreedSince(born, old(mem), old(log), mem, log);
    }
  }
}
