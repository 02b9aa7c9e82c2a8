/** The open-addressing table of src/semantic.cpp:113-188, from expressions to places in the record
    list, and the record list it indexes. An expression is its address; 0 is the null pointer.
    `slot & (capacity - 1)` is written `slot % capacity`, the same for a power of two. */
module ExprIndex {
  type Ptr = nat

  // ----- slots -----

  predicate PowerOfTwo(n: nat)
    decreases n
  {
    n == 1 || (n > 1 && n % 2 == 0 && PowerOfTwo(n / 2))
  }

  /** How many steps probing needs from slot `start` to slot `i` of a table of `n` slots. */
  function Distance(start: nat, i: nat, n: nat): nat
    requires start < n && i < n
  {
    if i >= start then i - start else i + n - start
  }

  lemma StepsOn(start: nat, i: nat, n: nat)
    requires start < n && i < n
    ensures (i + 1) % n == if i + 1 == n then 0 else i + 1
    ensures Distance(start, i, n) < n - 1 ==> Distance(start, (i + 1) % n, n) == Distance(start, i, n) + 1
    ensures Distance(start, i, n) == n - 1 ==> (i + 1) % n == start
  {
    if i + 1 < n { SmallMod(i + 1, n); }
  }

  lemma SmallMod(a: nat, n: nat)
    requires a < n
    ensures a % n == a
  {
  }

  /** The first `d` slots probed from `start` hold keys. */
  ghost predicate Filled(keys: seq<Ptr>, start: nat, d: nat)
    requires start < |keys|
  {
    forall i :: 0 <= i < |keys| && Distance(start, i, |keys|) < d ==> keys[i] != 0
  }

  ghost predicate Distinct(keys: seq<Ptr>) {
    forall i, j :: 0 <= i < j < |keys| && keys[i] != 0 ==> keys[i] != keys[j]
  }

  /** Probing for the key in slot `i` gets there. */
  ghost predicate Reachable(keys: seq<Ptr>, hash: Ptr -> nat, i: nat)
    requires i < |keys|
  {
    keys[i] != 0 ==>
      var start := hash(keys[i]) % |keys|;
      Filled(keys, start, Distance(start, i, |keys|))
  }

  ghost predicate Table(keys: seq<Ptr>, hash: Ptr -> nat) {
    Distinct(keys) && forall i :: 0 <= i < |keys| ==> Reachable(keys, hash, i)
  }

  /** The table holds exactly the entries of `m`. */
  ghost predicate Holds(keys: seq<Ptr>, values: seq<nat>, m: map<Ptr, nat>) {
    && |keys| == |values|
    && (forall i :: 0 <= i < |keys| && keys[i] != 0 ==> keys[i] in m && m[keys[i]] == values[i])
    && (forall k :: k in m ==> k != 0 && k in keys)
  }

  /** With fewer entries than slots some slot is empty. */
  lemma SomeSlotEmpty(keys: seq<Ptr>, values: seq<nat>, m: map<Ptr, nat>) returns (i: nat)
    requires Distinct(keys) && Holds(keys, values, m) && |m| < |keys|
    ensures i < |keys| && keys[i] == 0
  {
    if forall i :: 0 <= i < |keys| ==> keys[i] != 0 {
      DistinctKeys(keys);
      Subset(KeySet(keys), m.Keys);
    }
    i :| 0 <= i < |keys| && keys[i] == 0;
  }

  function KeySet(keys: seq<Ptr>): set<Ptr> {
    set k | k in keys
  }

  lemma {:induction false} DistinctKeys(keys: seq<Ptr>)
    requires Distinct(keys) && forall i :: 0 <= i < |keys| ==> keys[i] != 0
    ensures |KeySet(keys)| == |keys|
  {
    if keys != [] {
      var rest := keys[1..];
      assert forall i :: 0 <= i < |rest| ==> rest[i] == keys[i + 1];
      DistinctKeys(rest);
      assert keys == [keys[0]] + rest;
      assert KeySet(keys) == KeySet(rest) + {keys[0]};
      assert keys[0] !in KeySet(rest);
    }
  }

  lemma {:induction false} Subset(a: set<Ptr>, b: set<Ptr>)
    requires a <= b
    ensures |a| <= |b|
    decreases |a|
  {
    if a != {} {
      var x :| x in a;
      Subset(a - {x}, b - {x});
    }
  }

  /** An empty slot on the way from `start` shows that no such key lies behind it. */
  lemma AbsentBehindGap(keys: seq<Ptr>, hash: Ptr -> nat, key: Ptr, i: nat)
    requires Table(keys, hash) && key != 0 && i < |keys| && keys[i] == 0
    requires var start := hash(key) % |keys|;
             forall j :: 0 <= j < |keys| && Distance(start, j, |keys|) < Distance(start, i, |keys|) ==> keys[j] != key
    ensures key !in keys
  {
    var start := hash(key) % |keys|;
    forall j | 0 <= j < |keys| ensures keys[j] != key {
      assert Reachable(keys, hash, j);
    }
  }

  /** Putting a key into the first empty slot on its way keeps the table. */
  lemma PlacingKeepsTable(keys: seq<Ptr>, hash: Ptr -> nat, key: Ptr, i: nat)
    requires Table(keys, hash) && key != 0 && key !in keys && i < |keys| && keys[i] == 0
    requires var start := hash(key) % |keys|; Filled(keys, start, Distance(start, i, |keys|))
    ensures Table(keys[i := key], hash)
  {
    var after := keys[i := key];
    forall j | 0 <= j < |after| ensures Reachable(after, hash, j) {
      assert Reachable(keys, hash, j);
    }
  }

  lemma PlacingHolds(keys: seq<Ptr>, values: seq<nat>, m: map<Ptr, nat>, key: Ptr, value: nat, i: nat)
    requires Holds(keys, values, m) && Distinct(keys) && key != 0 && i < |keys|
    requires keys[i] == key || (keys[i] == 0 && key !in keys)
    ensures Holds(keys[i := key], values[i := value], m[key := value])
  {
    var after := keys[i := key];
    forall k | k in m[key := value] ensures k != 0 && k in after {
      if k != key {
        var j :| 0 <= j < |keys| && keys[j] == k;
        assert after[j] == k;
      } else {
        assert after[i] == key;
      }
    }
  }

  lemma Placed(keys: seq<Ptr>, values: seq<nat>, hash: Ptr -> nat, m: map<Ptr, nat>, key: Ptr, value: nat, i: nat)
    requires Table(keys, hash) && Holds(keys, values, m) && key != 0 && i < |keys|
    requires keys[i] == key || (keys[i] == 0 && key !in keys)
    requires var start := hash(key) % |keys|; Filled(keys, start, Distance(start, i, |keys|))
    ensures i < |values| && Table(keys[i := key], hash) && Holds(keys[i := key], values[i := value], m[key := value])
    ensures |m[key := value]| == |m| + if keys[i] == 0 then 1 else 0
  {
    PlacingHolds(keys, values, m, key, value, i);
    if keys[i] == 0 {
      PlacingKeepsTable(keys, hash, key, i);
    } else {
      assert keys[i := key] == keys;
      assert m[key := value].Keys == m.Keys;
    }
  }

  /** Every slot probed from `start` before `slot` holds another key. */
  ghost predicate PassedOver(keys: seq<Ptr>, key: Ptr, start: nat, slot: nat)
    requires start < |keys| && slot < |keys|
  {
    forall j :: 0 <= j < |keys| && Distance(start, j, |keys|) < Distance(start, slot, |keys|) ==> keys[j] != 0 && keys[j] != key
  }

  lemma GapAhead(keys: seq<Ptr>, values: seq<nat>, m: map<Ptr, nat>, hash: Ptr -> nat) returns (i: nat)
    requires Table(keys, hash) && Holds(keys, values, m) && |m| < |keys|
    ensures i < |keys| && keys[i] == 0
  {
    i := SomeSlotEmpty(keys, values, m);
  }

  lemma NothingPassedOver(keys: seq<Ptr>, key: Ptr, start: nat)
    requires start < |keys|
    ensures PassedOver(keys, key, start, start)
  {
  }

  /** As long as there is an empty slot, the next one is farther from the start. */
  lemma OneMorePassedOver(keys: seq<Ptr>, key: Ptr, start: nat, slot: nat, gap: nat)
    requires start < |keys| && slot < |keys| && gap < |keys| && keys[gap] == 0
    requires PassedOver(keys, key, start, slot) && keys[slot] != 0 && keys[slot] != key
    ensures var next := (slot + 1) % |keys|;
            PassedOver(keys, key, start, next) && Distance(start, next, |keys|) == Distance(start, slot, |keys|) + 1 < |keys|
  {
    assert Distance(start, slot, |keys|) < Distance(start, gap, |keys|);
    StepsOn(start, slot, |keys|);
  }

  lemma StoppedAt(keys: seq<Ptr>, hash: Ptr -> nat, key: Ptr, slot: nat)
    requires key != 0 && slot < |keys| && Table(keys, hash) && PassedOver(keys, key, hash(key) % |keys|, slot)
    ensures var start := hash(key) % |keys|; Filled(keys, start, Distance(start, slot, |keys|))
    ensures keys[slot] == 0 ==> key !in keys
  {
    if keys[slot] == 0 { AbsentBehindGap(keys, hash, key, slot); }
  }

  /** `moved` holds the entries of the first `i` slots. */
  ghost predicate MovedTo(moved: map<Ptr, nat>, m: map<Ptr, nat>, keys: seq<Ptr>, i: nat) {
    && i <= |keys|
    && (forall k :: k in moved <==> k != 0 && k in keys[..i])
    && forall k :: k in moved ==> k in m && moved[k] == m[k]
  }

  lemma OneMoreMoved(moved: map<Ptr, nat>, m: map<Ptr, nat>, keys: seq<Ptr>, values: seq<nat>, i: nat)
    requires Holds(keys, values, m) && MovedTo(moved, m, keys, i) && i < |keys|
    ensures i < |values| && moved.Keys <= m.Keys
    ensures MovedTo(if keys[i] == 0 then moved else moved[keys[i] := values[i]], m, keys, i + 1)
  {
    assert keys[..i + 1] == keys[..i] + [keys[i]];
  }

  lemma AllMoved(moved: map<Ptr, nat>, m: map<Ptr, nat>, keys: seq<Ptr>, values: seq<nat>)
    requires Holds(keys, values, m) && MovedTo(moved, m, keys, |keys|)
    ensures moved == m
  {
    assert keys[..|keys|] == keys;
  }

  class Index {
    var keys: array<Ptr>
    var values: array<nat>
    var count: nat
    const hash: Ptr -> nat
    ghost var Contents: map<Ptr, nat>

    ghost predicate Valid()
      reads this, keys, values
    {
      && keys != (values as object)
      && Table(keys[..], hash) && Holds(keys[..], values[..], Contents)
      && count == |Contents|
      && (keys.Length == 0 || (keys.Length >= 32 && PowerOfTwo(keys.Length)))
      && (count > 0 ==> count < keys.Length)
    }

    constructor (hash: Ptr -> nat)
      ensures Valid() && Contents == map[] && this.hash == hash && fresh(keys) && fresh(values) && keys.Length == 0
    {
      keys, values := new Ptr[0], new nat[0];
      count, this.hash, Contents := 0, hash, map[];
    }

    /** The probe loop of insertion and rehashing: the slot that holds `key`, or else the first
        empty one. It stops because some slot is empty. */
    method Probe(table: array<Ptr>, ghost entries: array<nat>, ghost m: map<Ptr, nat>, key: Ptr) returns (slot: nat)
      requires key != 0 && table.Length > 0 && |m| < table.Length
      requires Table(table[..], hash) && Holds(table[..], entries[..], m)
      ensures slot < table.Length && (table[slot] == key || (table[slot] == 0 && key !in table[..]))
      ensures var start := hash(key) % table.Length; Filled(table[..], start, Distance(start, slot, table.Length))
    {
      hide Table, Holds, Filled, PassedOver, Distance;
      ghost var ks := table[..];
      var start := hash(key) % table.Length;
      ghost var gap := GapAhead(ks, entries[..], m, hash);
      slot := start;
      NothingPassedOver(ks, key, start);
      while table[slot] != 0 && table[slot] != key
        invariant slot < table.Length && PassedOver(ks, key, start, slot)
        decreases table.Length - Distance(start, slot, table.Length)
      {
        OneMorePassedOver(ks, key, start, slot, gap);
        slot := (slot + 1) % table.Length;
      }
      StoppedAt(ks, hash, key, slot);
    }

    /** expr_index_reserve */
    method Reserve(required: nat)
      requires Valid() && count < required
      modifies this
      ensures Valid() && Contents == old(Contents) && count == old(count)
      ensures keys.Length >= required && keys.Length >= old(keys.Length)
      ensures (keys == old(keys) && values == old(values)) || (fresh(keys) && fresh(values))
    {
      if keys.Length >= required { return; }
      var capacity := if keys.Length == 0 then 32 else keys.Length;
      while capacity < required
        invariant capacity >= 32 && PowerOfTwo(capacity) && capacity >= keys.Length
        decreases required - capacity
      {
        capacity := capacity * 2;
      }
      var newKeys := new Ptr[capacity](_ => 0);
      var newValues := new nat[capacity](_ => 0);
      Rehash(newKeys, newValues);
      keys, values := newKeys, newValues;
    }

    /** The loop of expr_index_reserve that moves every entry to the new table. */
    method Rehash(newKeys: array<Ptr>, newValues: array<nat>)
      requires Valid() && count < newKeys.Length == newValues.Length
      requires (newKeys as object) != newValues && newKeys != keys && newValues != values
      requires (newKeys as object) != values && (newValues as object) != keys
      requires forall i :: 0 <= i < newKeys.Length ==> newKeys[i] == 0
      modifies newKeys, newValues
      ensures Valid() && Table(newKeys[..], hash) && Holds(newKeys[..], newValues[..], Contents)
    {
      ghost var moved: map<Ptr, nat> := map[];
      for i := 0 to keys.Length
        invariant keys[..] == old(keys[..]) && values[..] == old(values[..])
        invariant Table(newKeys[..], hash) && Holds(newKeys[..], newValues[..], moved)
        invariant MovedTo(moved, Contents, keys[..], i)
      {
        var expr := keys[i];
        OneMoreMoved(moved, Contents, keys[..], values[..], i);
        if expr != 0 {
          Subset(moved.Keys, Contents.Keys);
          var slot := Probe(newKeys, newValues, moved, expr);
          PlacingKeepsTable(newKeys[..], hash, expr, slot);
          PlacingHolds(newKeys[..], newValues[..], moved, expr, values[i], slot);
          newKeys[slot] := expr;
          newValues[slot] := values[i];
          moved := moved[expr := values[i]];
        }
      }
      AllMoved(moved, Contents, keys[..], values[..]);
    }

    /** expr_index_insert. The capacity it asks for always leaves a slot empty. */
    method Insert(expr: Ptr, value: nat)
      requires Valid() && expr != 0
      modifies this, keys, values
      ensures Valid() && Contents == old(Contents)[expr := value]
      ensures (keys == old(keys) && values == old(values)) || (fresh(keys) && fresh(values))
    {
      hide Table, Holds, PowerOfTwo, Filled;
      var required := (count + 1) * 10 / 7 + 1;
      Reserve(required);
      var slot := Probe(keys, values, Contents, expr);
      ghost var ks, vs := keys[..], values[..];
      Placed(ks, vs, hash, Contents, expr, value, slot);
      if keys[slot] == 0 { count := count + 1; }
      keys[slot] := expr;
      values[slot] := value;
      Contents := Contents[expr := value];
      assert keys[..] == ks[slot := expr] && values[..] == vs[slot := value];
    }

    /** expr_index_lookup: at most one round of the table. */
    method Lookup(expr: Ptr) returns (value: int)
      requires Valid()
      ensures value == if expr in Contents then Contents[expr] else -1
    {
      if keys.Length == 0 { return -1; }
      ghost var ks := keys[..];
      var start := hash(expr) % keys.Length;
      var slot: nat := start;
      for i := 0 to keys.Length
        invariant slot < keys.Length
        invariant i < keys.Length ==> Distance(start, slot, keys.Length) == i
        invariant forall j :: 0 <= j < keys.Length && Distance(start, j, keys.Length) < i ==> ks[j] != expr || expr == 0
      {
        var key := keys[slot];
        if key == 0 {
          if expr != 0 { AbsentBehindGap(ks, hash, expr, slot); }
          return -1;
        }
        if key == expr {
          assert ks[slot] == expr;
          return values[slot];
        }
        StepsOn(start, slot, keys.Length);
        slot := (slot + 1) % keys.Length;
      }
      return -1;
    }
  }
}
