// How many keys a table takes before a lookup or an insert can give up.
module Capacity {
  import opened Probing
  import opened Buckets

  // With at most len - 4 keys in play no lookup of one of them gives up ...
  lemma LookupDecides(L: Layout, t: seq<Slot>, k: nat, all: set<nat>)
    requires L.Bucketed() && WF(L, t) && k != 0
    requires Keys(t) <= all && k in all && |all| <= L.len - 4
    ensures !Find(L, t, k).TableFull?
  {
    hide Find, NoGap, Unique, EmptyIsZero, HoleBeforeLast, Passed;
    FindMeaning(L, t, k);
    if Find(L, t, k).TableFull? { PassedCount(L, t, k, L.len - 4, all); }
  }

  // ... and with at most len no insert fails.
  lemma InsertSucceeds(L: Layout, t: seq<Slot>, k: nat, v: nat, all: set<nat>)
    requires WF(L, t) && k != 0
    requires Keys(t) <= all && k in all && |all| <= L.len
    ensures Insert(L, t, k, v).1 && (k in ToMap(t) || !Full(t))
  {
    hide NoGap, Unique, EmptyIsZero, Insert;
    InsertMeaning(L, t, k, v);
    if k !in ToMap(t) && Full(t) {
      HoldsIsKey(t, k);
      PassedCount(L, t, k, L.len, all);
    }
  }

  // A four-slot table has only the last bucket: every miss is TABLE_FULL.
  lemma FourSlotsNeverDefinite(L: Layout, t: seq<Slot>, k: nat)
    requires L.Bucketed() && L.len == 4 && WF(L, t) && k != 0
    ensures Find(L, t, k) == if k in ToMap(t) then Found(ToMap(t)[k]) else TableFull
  {
    hide Find, NoGap, Unique, EmptyIsZero;
    FindMeaning(L, t, k);
  }

  // ----- The bound is tight at every size

  // All keys collide at slot 0.
  function Colliding(len: nat): Layout {
    Layout(len, k => 0)
  }

  function InsertMany(L: Layout, t: seq<Slot>, n: nat): (r: seq<Slot>)
    requires L.Valid() && |t| == L.len
    ensures |r| == L.len
  {
    if n == 0 then t else Insert(L, InsertMany(L, t, n - 1), n, 1).0
  }

  function Filled(len: nat, n: nat): seq<Slot> {
    seq(len, i requires i >= 0 => if i < n then Slot(i + 1, 1) else EMPTY)
  }

  lemma {:induction false} StopAtFirstEmpty(len: nat, n: nat, d: nat)
    requires d <= n < len
    ensures StopFrom(Colliding(len), Filled(len, n), n + 1, d) == n
    decreases n - d
  {
    if d < n { StopAtFirstEmpty(len, n, d + 1); }
  }

  lemma FillStep(len: nat, n: nat)
    requires n < len
    ensures Insert(Colliding(len), Filled(len, n), n + 1, 1).0 == Filled(len, n + 1)
  {
    StopAtFirstEmpty(len, n, 0);
    assert Filled(len, n)[n := Slot(n + 1, 1)] == Filled(len, n + 1);
  }

  lemma {:induction false} CollidingFill(len: nat, n: nat)
    requires 0 < len && n <= len
    ensures InsertMany(Colliding(len), Filled(len, 0), n) == Filled(len, n)
    ensures WF(Colliding(len), Filled(len, n))
  {
    hide Insert, Filled;
    var L := Colliding(len);
    if n == 0 {
      assert WF(L, Filled(len, 0)) by { FilledZero(len); }
    } else {
      CollidingFill(len, n - 1);
      FillStep(len, n - 1);
      assert WF(L, Filled(len, n)) by { InsertMeaning(L, Filled(len, n - 1), n, 1); }
    }
  }

  lemma FilledZero(len: nat)
    requires len > 0
    ensures WF(Colliding(len), Filled(len, 0))
  {
    ZeroedTable(Colliding(len), Filled(len, 0));
  }

  // len - 4 keys inserted one by one into a zeroed table, and one more looked
  // up: TABLE_FULL, with four slots still empty.
  lemma BoundIsTight(len: nat)
    requires len > 0 && len % 4 == 0
    ensures var L := Colliding(len); var t := InsertMany(L, Filled(len, 0), len - 4);
      && L.Bucketed() && !Full(t) && Find(L, t, len - 3) == TableFull
  {
    hide NoGap, Unique, EmptyIsZero, Find, InsertMany;
    var L, t := Colliding(len), Filled(len, len - 4);
    CollidingFill(len, len - 4);
    FindMeaning(L, t, len - 3);
    assert t[len - 1] == EMPTY;
    forall i | 0 <= i < len && L.Dist(len - 3, i) < len - 4 ensures t[i].key != 0 { assert t[i] == Slot(i + 1, 1); }
  }
}
