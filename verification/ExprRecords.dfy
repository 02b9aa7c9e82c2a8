/** The record list of src/semantic.cpp:197-217 and its index: whatever was recorded last about an
    expression is what looking it up returns. */
module ExprRecords {
  import opened ExprIndex

  datatype Info = Info(expr: Ptr, typ: nat, effects: nat)

  /** The last entry of `history` about `expr`. */
  datatype Found = Absent | Found(info: Info)

  function Latest(history: seq<Info>, expr: Ptr): Found {
    if history == [] then Absent
    else
      var last := history[|history| - 1];
      if last.expr == expr then Found(last) else Latest(history[..|history| - 1], expr)
  }

  /** The expressions of `history` in the order in which they were first recorded. */
  function FirstSeen(history: seq<Info>): seq<Ptr> {
    if history == [] then []
    else
      var before := FirstSeen(history[..|history| - 1]);
      var expr := history[|history| - 1].expr;
      if expr in before then before else before + [expr]
  }

  lemma {:induction false} SeenIffFound(history: seq<Info>, expr: Ptr)
    ensures expr in FirstSeen(history) <==> Latest(history, expr).Found?
    ensures Latest(history, expr).Found? ==> Latest(history, expr).info.expr == expr
  {
    if history != [] { SeenIffFound(history[..|history| - 1], expr); }
  }

  /** Every recorded expression occurs once in `items`, with what was recorded last about it, and
      the index points at it. */
  ghost predicate Agree(items: seq<Info>, index: map<Ptr, nat>, history: seq<Info>) {
    && |items| == |FirstSeen(history)|
    && (forall i :: 0 <= i < |items| ==>
          items[i].expr == FirstSeen(history)[i] && Latest(history, items[i].expr) == Found(items[i]))
    && (forall i :: 0 <= i < |items| ==> items[i].expr in index && index[items[i].expr] == i)
    && (forall expr :: expr in index ==> index[expr] < |items| && items[index[expr]].expr == expr)
  }

  lemma AgreeOnOld(items: seq<Info>, index: map<Ptr, nat>, history: seq<Info>, info: Info)
    requires Agree(items, index, history) && info.expr in index
    ensures index[info.expr] < |items| && Agree(items[index[info.expr] := info], index, history + [info])
  {
    var after := history + [info];
    assert after[..|after| - 1] == history;
    assert FirstSeen(history)[index[info.expr]] == info.expr;
  }

  lemma AgreeOnNew(items: seq<Info>, index: map<Ptr, nat>, history: seq<Info>, info: Info)
    requires Agree(items, index, history) && info.expr !in index
    ensures Agree(items + [info], index[info.expr := |items|], history + [info])
  {
    var after := history + [info];
    assert after[..|after| - 1] == history;
  }

  class Records {
    var items: seq<Info>
    const index: Index
    ghost var history: seq<Info>

    ghost function Repr(): set<object>
      reads this, index
    {
      {this, index, index.keys, index.values}
    }

    ghost predicate Valid()
      reads Repr()
    {
      index.Valid() && Agree(items, index.Contents, history)
    }

    constructor (hash: Ptr -> nat)
      ensures Valid() && items == [] && history == [] && fresh(Repr())
    {
      items, history := [], [];
      index := new Index(hash);
    }

    /** expr_info_list_record */
    method Record(expr: Ptr, typ: nat, effects: nat)
      requires Valid() && expr != 0
      modifies Repr()
      ensures Valid() && history == old(history) + [Info(expr, typ, effects)] && fresh(Repr() - old(Repr()))
    {
      hide Agree;
      var info := Info(expr, typ, effects);
      var existing := index.Lookup(expr);
      if existing >= 0 {
        AgreeOnOld(items, index.Contents, history, info);
        items, history := items[existing := info], history + [info];
        return;
      }
      AgreeOnNew(items, index.Contents, history, info);
      var place := |items|;
      items, history := items + [info], history + [info];
      index.Insert(expr, place);
    }

    /** nova_semantic_lookup_expr */
    method LookupExpr(expr: Ptr) returns (found: Found)
      requires Valid()
      ensures found == Latest(history, expr)
    {
      SeenIffFound(history, expr);
      var i := index.Lookup(expr);
      if i < 0 {
        return Absent;
      }
      found := Found(items[i]);
    }
  }
}
