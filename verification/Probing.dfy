// Linear probing over a table whose entries are never deleted: the invariant
// all tables share, its map meaning, and the slot-by-slot operations.
module Probing {

  // Key 0 marks an empty slot.
  datatype Slot = Slot(key: nat, val: nat)

  const EMPTY := Slot(0, 0)

  // Where a key's probe path starts, and how it runs round the table.
  datatype Layout = Layout(len: nat, home: nat -> nat) {

    ghost predicate Valid() {
      len > 0 && forall k :: home(k) < len
    }

    // Slots come in buckets of four and every path starts on a bucket.
    ghost predicate Bucketed() {
      Valid() && len % 4 == 0 && forall k :: home(k) % 4 == 0
    }

    // The slot at distance d on k's path.
    function At(k: nat, d: nat): (i: nat)
      requires home(k) < len && d < len
      ensures i < len
    {
      if home(k) + d < len then home(k) + d else home(k) + d - len
    }

    // How far along k's path slot i lies.
    function Dist(k: nat, i: nat): (d: nat)
      requires home(k) < len && i < len
      ensures d < len && At(k, d) == i
    {
      if i >= home(k) then i - home(k) else i - home(k) + len
    }
  }

  // ----- The table invariant

  ghost predicate Unique(t: seq<Slot>) {
    forall i, j | 0 <= i < j < |t| :: t[i].key != 0 ==> t[i].key != t[j].key
  }

  ghost predicate EmptyIsZero(t: seq<Slot>) {
    forall i | 0 <= i < |t| :: t[i].key == 0 ==> t[i].val == 0
  }

  // Every slot before distance d on k's path is taken.
  ghost predicate Occupied(L: Layout, t: seq<Slot>, k: nat, d: nat)
    requires L.Valid() && |t| == L.len
  {
    forall j | 0 <= j < |t| :: L.Dist(k, j) < d ==> t[j].key != 0
  }

  ghost predicate NoGap(L: Layout, t: seq<Slot>)
    requires L.Valid() && |t| == L.len
  {
    forall i {:trigger L.Dist(t[i].key, i)} | 0 <= i < |t| ::
      t[i].key != 0 ==> Occupied(L, t, t[i].key, L.Dist(t[i].key, i))
  }

  ghost predicate WF(L: Layout, t: seq<Slot>) {
    L.Valid() && |t| == L.len && Unique(t) && EmptyIsZero(t) && NoGap(L, t)
  }

  // What a probe for k that has gone past d slots knows, now and for ever:
  // they are taken, by other keys.
  ghost predicate Passed(L: Layout, t: seq<Slot>, k: nat, d: nat)
    requires L.Valid() && |t| == L.len
  {
    forall j | 0 <= j < |t| :: L.Dist(k, j) < d ==> t[j].key != 0 && t[j].key != k
  }

  ghost predicate Holds(t: seq<Slot>, k: nat) {
    exists i | 0 <= i < |t| :: t[i].key == k
  }

  // No stored key is moved, changed or deleted.
  ghost predicate Grows(t: seq<Slot>, t': seq<Slot>) {
    |t| == |t'| && forall i | 0 <= i < |t| :: t[i].key != 0 ==> t'[i].key == t[i].key
  }

  lemma GrowsSelf(t: seq<Slot>)
    ensures Grows(t, t)
  {
  }

  // ----- The map a table stands for

  ghost function Keys(t: seq<Slot>): set<nat> {
    set i | 0 <= i < |t| && t[i].key != 0 :: t[i].key
  }

  ghost function ToMap(t: seq<Slot>): (m: map<nat, nat>)
    requires Unique(t)
    ensures m.Keys == Keys(t)
    ensures forall i | 0 <= i < |t| :: t[i].key != 0 ==> t[i].key in m && m[t[i].key] == t[i].val
  {
    map i | 0 <= i < |t| && t[i].key != 0 :: t[i].key := t[i].val
  }

  lemma ZeroedTable(L: Layout, t: seq<Slot>)
    requires L.Valid() && |t| == L.len && forall i | 0 <= i < |t| :: t[i] == EMPTY
    ensures WF(L, t) && ToMap(t) == map[]
  {
  }

  // A probe that meets an empty slot has proved its key absent.
  lemma HoleMeansAbsent(L: Layout, t: seq<Slot>, k: nat, i: nat)
    requires WF(L, t) && k != 0 && i < |t| && t[i].key == 0
    requires Passed(L, t, k, L.Dist(k, i))
    ensures !Holds(t, k) && k !in Keys(t)
  {
    forall j | 0 <= j < |t| ensures t[j].key != k {
      assert t[j].key != 0 ==> Occupied(L, t, t[j].key, L.Dist(t[j].key, j));
    }
  }

  // Taking the first empty slot of k's path keeps the invariant and adds k.
  lemma FillKeeps(L: Layout, t: seq<Slot>, k: nat, v: nat, i: nat)
    requires WF(L, t) && k != 0 && i < |t| && t[i].key == 0
    requires Passed(L, t, k, L.Dist(k, i))
    ensures WF(L, t[i := Slot(k, v)]) && Grows(t, t[i := Slot(k, v)])
    ensures k !in ToMap(t) && ToMap(t[i := Slot(k, v)]) == ToMap(t)[k := v]
  {
    var t' := t[i := Slot(k, v)];
    HoleMeansAbsent(L, t, k, i);
    forall a | 0 <= a < |t'| && t'[a].key != 0
      ensures Occupied(L, t', t'[a].key, L.Dist(t'[a].key, a))
    {
      if a != i { assert Occupied(L, t, t[a].key, L.Dist(t[a].key, a)); }
    }
    FillMap(t, k, v, i);
  }

  lemma MapFromSlots(t: seq<Slot>, m: map<nat, nat>)
    requires Unique(t) && m.Keys == Keys(t)
    requires forall i | 0 <= i < |t| && t[i].key != 0 :: t[i].key in m && m[t[i].key] == t[i].val
    ensures ToMap(t) == m
  {
    forall x | x in m ensures ToMap(t)[x] == m[x] {
      var i :| 0 <= i < |t| && t[i].key != 0 && t[i].key == x;
    }
  }

  lemma FillMap(t: seq<Slot>, k: nat, v: nat, i: nat)
    requires Unique(t) && k != 0 && i < |t| && t[i].key == 0 && k !in Keys(t)
    ensures Unique(t[i := Slot(k, v)])
    ensures ToMap(t[i := Slot(k, v)]) == ToMap(t)[k := v]
  {
    var t' := t[i := Slot(k, v)];
    assert forall a | 0 <= a < |t| :: t[a].key != 0 ==> t[a].key in Keys(t);
    KeysFill(t, k, v, i);
    MapFromSlots(t', ToMap(t)[k := v]);
  }

  lemma KeysFill(t: seq<Slot>, k: nat, v: nat, i: nat)
    requires k != 0 && i < |t| && t[i].key == 0
    ensures Keys(t[i := Slot(k, v)]) == Keys(t) + {k}
  {
    var t' := t[i := Slot(k, v)];
    assert t'[i].key == k;
    assert forall a | 0 <= a < |t| && t[a].key != 0 :: t'[a].key == t[a].key;
  }

  lemma SameKeysWF(L: Layout, t: seq<Slot>, t': seq<Slot>)
    requires WF(L, t) && |t'| == |t| && EmptyIsZero(t')
    requires forall a | 0 <= a < |t| :: t'[a].key == t[a].key
    ensures WF(L, t') && Grows(t, t')
  {
    forall a | 0 <= a < |t'| && t'[a].key != 0
      ensures Occupied(L, t', t'[a].key, L.Dist(t'[a].key, a))
    {
      assert Occupied(L, t, t[a].key, L.Dist(t[a].key, a));
    }
  }

  // Overwriting the value of a stored key.
  lemma UpdateKeeps(L: Layout, t: seq<Slot>, k: nat, v: nat, i: nat)
    requires WF(L, t) && k != 0 && i < |t| && t[i].key == k
    ensures WF(L, t[i := Slot(k, v)]) && Grows(t, t[i := Slot(k, v)])
    ensures k in ToMap(t) && ToMap(t[i := Slot(k, v)]) == ToMap(t)[k := v]
  {
    SameKeysWF(L, t, t[i := Slot(k, v)]);
    UpdateMap(t, k, v, i);
  }

  lemma UpdateMap(t: seq<Slot>, k: nat, v: nat, i: nat)
    requires Unique(t) && k != 0 && i < |t| && t[i].key == k
    ensures Unique(t[i := Slot(k, v)])
    ensures k in ToMap(t) && ToMap(t[i := Slot(k, v)]) == ToMap(t)[k := v]
  {
    var t' := t[i := Slot(k, v)];
    assert forall a | 0 <= a < |t| :: t'[a].key == t[a].key;
    assert Keys(t') == Keys(t) + {k};
    forall a | 0 <= a < |t'| && t'[a].key != 0 ensures ToMap(t)[k := v][t'[a].key] == t'[a].val {
      if a != i { assert t[a].key != k; }
    }
    MapFromSlots(t', ToMap(t)[k := v]);
  }

  lemma HoldsIsKey(t: seq<Slot>, k: nat)
    requires k != 0
    ensures Holds(t, k) <==> k in Keys(t)
  {
  }

  // ----- Counting

  ghost function PathKeys(L: Layout, t: seq<Slot>, k: nat, n: nat): set<nat>
    requires L.Valid() && |t| == L.len && n <= L.len
  {
    set d | 0 <= d < n :: t[L.At(k, d)].key
  }

  lemma PathKeysStep(L: Layout, t: seq<Slot>, k: nat, n: nat)
    requires L.Valid() && |t| == L.len && n < L.len
    requires Unique(t) && Occupied(L, t, k, n + 1)
    ensures var x := t[L.At(k, n)].key;
      x in Keys(t) && x !in PathKeys(L, t, k, n) && PathKeys(L, t, k, n + 1) == PathKeys(L, t, k, n) + {x}
  {
    var x := t[L.At(k, n)].key;
    assert L.Dist(k, L.At(k, n)) == n;
    forall d | 0 <= d < n ensures t[L.At(k, d)].key != x {
      var a, b := L.At(k, d), L.At(k, n);
      assert L.Dist(k, a) == d && a != b;
      assert t[a].key != 0;
    }
  }

  // The first n slots of a path, all taken, hold n different keys.
  lemma {:induction false} PathKeysCount(L: Layout, t: seq<Slot>, k: nat, n: nat)
    requires L.Valid() && |t| == L.len && n <= L.len
    requires Unique(t) && Occupied(L, t, k, n)
    ensures |PathKeys(L, t, k, n)| == n && PathKeys(L, t, k, n) <= Keys(t)
  {
    if n > 0 {
      PathKeysCount(L, t, k, n - 1);
      PathKeysStep(L, t, k, n - 1);
    }
  }

  lemma SubsetCount(a: set<nat>, b: set<nat>)
    requires a <= b
    ensures |a| <= |b|
  {
    assert b == a + (b - a);
  }

  // A probe past n slots has seen n keys other than its own.
  lemma PassedCount(L: Layout, t: seq<Slot>, k: nat, n: nat, all: set<nat>)
    requires WF(L, t) && n <= L.len && Passed(L, t, k, n)
    requires Keys(t) <= all && k in all
    ensures |all| >= n + 1
  {
    PathKeysCount(L, t, k, n);
    var p := PathKeys(L, t, k, n);
    forall d | 0 <= d < n ensures t[L.At(k, d)].key != k {
      assert L.Dist(k, L.At(k, d)) == d;
    }
    assert k !in p;
    SubsetCount(p + {k}, all);
  }

  // ----- Slot-by-slot insert

  // Distance of the first slot, from d on, that is empty or holds k; len if none.
  function StopFrom(L: Layout, t: seq<Slot>, k: nat, d: nat): (r: nat)
    requires L.Valid() && |t| == L.len && d <= L.len
    ensures d <= r <= L.len
    decreases L.len - d
  {
    if d == L.len || t[L.At(k, d)].key == 0 || t[L.At(k, d)].key == k then d
    else StopFrom(L, t, k, d + 1)
  }

  function Insert(L: Layout, t: seq<Slot>, k: nat, v: nat): (r: (seq<Slot>, bool))
    requires L.Valid() && |t| == L.len
  {
    var d := StopFrom(L, t, k, 0);
    if k == 0 || d == L.len then (t, false) else (t[L.At(k, d) := Slot(k, v)], true)
  }

  function Lookup(L: Layout, t: seq<Slot>, k: nat): (r: (bool, nat))
    requires L.Valid() && |t| == L.len
  {
    var d := StopFrom(L, t, k, 0);
    if d < L.len && t[L.At(k, d)].key == k then (true, t[L.At(k, d)].val) else (false, 0)
  }

  lemma {:induction false} StopPasses(L: Layout, t: seq<Slot>, k: nat, d: nat)
    requires L.Valid() && |t| == L.len && d <= L.len && Passed(L, t, k, d)
    ensures Passed(L, t, k, StopFrom(L, t, k, d))
    decreases L.len - d
  {
    if StopFrom(L, t, k, d) != d {
      forall j | 0 <= j < |t| && L.Dist(k, j) < d + 1 ensures t[j].key != 0 && t[j].key != k {
        if L.Dist(k, j) == d { assert j == L.At(k, d); }
      }
      StopPasses(L, t, k, d + 1);
    }
  }

  ghost predicate Full(t: seq<Slot>) {
    forall i | 0 <= i < |t| :: t[i].key != 0
  }

  // Insert is map update; it fails exactly when the table is full of other keys.
  lemma InsertMeaning(L: Layout, t: seq<Slot>, k: nat, v: nat)
    requires WF(L, t) && k != 0
    ensures Insert(L, t, k, v).1 <==> k in ToMap(t) || !Full(t)
    ensures WF(L, Insert(L, t, k, v).0) && Grows(t, Insert(L, t, k, v).0)
    ensures ToMap(Insert(L, t, k, v).0) == if Insert(L, t, k, v).1 then ToMap(t)[k := v] else ToMap(t)
  {
    StopPasses(L, t, k, 0);
    var d := StopFrom(L, t, k, 0);
    StopsWell(L, t, k, 0);
    if d < L.len {
      var i := L.At(k, d);
      assert L.Dist(k, i) == d;
      if t[i].key == 0 { FillKeeps(L, t, k, v, i); } else { UpdateKeeps(L, t, k, v, i); }
    } else {
      HoldsIsKey(t, k);
    }
  }

  lemma {:induction false} StopsWell(L: Layout, t: seq<Slot>, k: nat, d: nat)
    requires L.Valid() && |t| == L.len && d <= L.len
    ensures var r := StopFrom(L, t, k, d); r < L.len ==> t[L.At(k, r)].key == 0 || t[L.At(k, r)].key == k
    decreases L.len - d
  {
    if StopFrom(L, t, k, d) != d { StopsWell(L, t, k, d + 1); }
  }

  // Slot-by-slot lookup reads the map.
  lemma LookupMeaning(L: Layout, t: seq<Slot>, k: nat)
    requires WF(L, t) && k != 0
    ensures Lookup(L, t, k) == if k in ToMap(t) then (true, ToMap(t)[k]) else (false, 0)
  {
    StopPasses(L, t, k, 0);
    StopsWell(L, t, k, 0);
    var d := StopFrom(L, t, k, 0);
    HoldsIsKey(t, k);
    if d < L.len {
      var i := L.At(k, d);
      assert L.Dist(k, i) == d;
      if t[i].key == 0 { HoleMeansAbsent(L, t, k, i); }
    }
  }
}
