// The Maglev lookup table: the permutation each node walks, and the fill loop
// that follows the unconditional return of `populate_lut`.
module ConsHash {
  import opened FlowHashing
  import opened Masks

  const TABLE_SIZE: nat := 65537
  const NODES: nat := 3

  // ----- 65537 is prime

  predicate Divides(d: nat)
    requires d > 0
  {
    65537 % d == 0
  }

  // None of the eight odd numbers from lo on divides the table size.
  predicate OddsClear(lo: nat)
    requires lo > 0
  {
    && !Divides(lo) && !Divides(lo + 2) && !Divides(lo + 4) && !Divides(lo + 6)
    && !Divides(lo + 8) && !Divides(lo + 10) && !Divides(lo + 12) && !Divides(lo + 14)
  }

  // Trial division up to the square root.
  lemma LowOddDivisors(i: nat)
    requires i < 8
    ensures OddsClear(3 + 16 * i)
  {
    assert OddsClear(3) && OddsClear(19) && OddsClear(35) && OddsClear(51);
    assert OddsClear(67) && OddsClear(83) && OddsClear(99) && OddsClear(115);
  }

  lemma HighOddDivisors(i: nat)
    requires 8 <= i < 16
    ensures OddsClear(3 + 16 * i)
  {
    assert OddsClear(131) && OddsClear(147) && OddsClear(163) && OddsClear(179);
    assert OddsClear(195) && OddsClear(211) && OddsClear(227) && OddsClear(243);
  }

  lemma OddDivisor(d: nat, i: nat, j: nat)
    requires i < 16 && j < 8 && d == 3 + 16 * i + 2 * j
    ensures !Divides(d)
  {
    hide Divides;
    if i < 8 { LowOddDivisors(i); } else { HighOddDivisors(i); }
  }

  lemma EvenDivisor(d: nat, e: nat)
    requires d > 0 && d == 2 * e
    ensures !Divides(d)
  {
    var q := 65537 / d;
    assert q * d == 2 * (q * e);
    assert 65537 == d * q + 65537 % d;
    assert d * q == q * d;
  }

  lemma SmallDivisor(d: nat)
    requires 2 <= d < 257
    ensures !Divides(d)
  {
    hide Divides;
    if d % 2 == 0 {
      EvenDivisor(d, d / 2);
    } else {
      var i := (d - 3) / 16;
      OddDivisor(d, i, (d - 3 - 16 * i) / 2);
    }
  }

  lemma Prime(d: nat)
    requires 2 <= d < TABLE_SIZE
    ensures TABLE_SIZE % d != 0
  {
    if d < 257 {
      SmallDivisor(d);
    } else if TABLE_SIZE % d == 0 {
      var q := TABLE_SIZE / d;
      assert q * d == TABLE_SIZE;
      assert q >= 257 ==> q * d >= 257 * 257;
      assert q <= 1 ==> q * d <= d;
      Multiple(q, d);
      SmallDivisor(q);
    }
  }

  lemma Multiple(m: nat, c: int)
    requires m > 0
    ensures (m * c) % m == 0
  {
    ModUnique(m * c, m, c, 0);
  }

  // Euclid's lemma for the table size.
  lemma {:induction false} NoZeroDivisor(a: nat, b: nat)
    requires 0 < a < TABLE_SIZE && 0 < b < TABLE_SIZE
    ensures (a * b) % TABLE_SIZE != 0
    decreases a
  {
    if a == 1 {
      ModUnique(b, TABLE_SIZE, 0, b);
    } else {
      var q, r := TABLE_SIZE / a, TABLE_SIZE % a;
      Prime(a);
      NoZeroDivisor(r, b);
      var c := a * b / TABLE_SIZE;
      Multiple(TABLE_SIZE, b - q * c);
      assert (a * b) % TABLE_SIZE == 0 ==> r * b == TABLE_SIZE * (b - q * c) by {
        assert r == TABLE_SIZE - q * a;
        assert (q * a) * b == q * (a * b);
        assert q * (TABLE_SIZE * c) == TABLE_SIZE * (q * c);
      }
    }
  }

  // ----- A node's permutation of the table

  datatype Perm = Perm(offset: nat, skip: nat)

  // The four bytes of an `int` node, and the two hashes of `get_offset_skip`.
  // fnv_1a runs the same loop as fnv_1, so both come from one hash.
  function OffsetSkip(node: seq<bv8>): Perm {
    PermOf(Fnv(node, FNV_BASIS) as nat)
  }

  function PermOf(hash: nat): Perm {
    Perm(hash % (TABLE_SIZE - 1) + 1, hash % TABLE_SIZE)
  }

  // `get_permutation`
  function PermAt(p: Perm, j: nat): (c: nat)
    ensures c < TABLE_SIZE
  {
    (p.offset + j * p.skip) % TABLE_SIZE
  }

  // A walk starts at the offset and goes on by the skip, round the table.
  lemma WalkSteps(p: Perm, j: nat)
    ensures PermAt(p, 0) == p.offset % 65537
    ensures PermAt(p, j + 1) == (PermAt(p, j) + p.skip) % 65537
  {
    var x := p.offset + j * p.skip;
    var y := PermAt(p, j) + p.skip;
    assert p.offset + (j + 1) * p.skip == x + p.skip;
    var q := y / TABLE_SIZE;
    assert x + p.skip == TABLE_SIZE * (x / TABLE_SIZE + q) + y % TABLE_SIZE;
    ModUnique(x + p.skip, TABLE_SIZE, x / TABLE_SIZE + q, y % TABLE_SIZE);
  }

  lemma PermInjective(p: Perm, i: nat, j: nat)
    requires 0 < p.skip < TABLE_SIZE && i < j < TABLE_SIZE
    ensures PermAt(p, i) != PermAt(p, j)
  {
    NoZeroDivisor(j - i, p.skip);
    var x, y := p.offset + i * p.skip, p.offset + j * p.skip;
    assert y - x == (j - i) * p.skip;
    SameRemainder(x, y);
  }

  lemma SameRemainder(x: nat, y: nat)
    ensures x % TABLE_SIZE == y % TABLE_SIZE ==> (y - x) % TABLE_SIZE == 0
  {
    Multiple(TABLE_SIZE, y / TABLE_SIZE - x / TABLE_SIZE);
  }

  ghost function Below(n: nat): (r: set<nat>)
    ensures |r| == n && forall x: nat :: x in r <==> x < n
  {
    if n == 0 then {} else Below(n - 1) + {n - 1}
  }

  lemma FullSubset(a: set<nat>, n: nat)
    requires a <= Below(n)
    ensures |a| <= n && (|a| == n ==> a == Below(n))
  {
    assert Below(n) == a + (Below(n) - a);
  }

  ghost function Walked(p: Perm, n: nat): set<nat> {
    set j: nat | j < n :: PermAt(p, j)
  }

  lemma {:induction false} WalkedCount(p: Perm, n: nat)
    requires 0 < p.skip < TABLE_SIZE && n <= TABLE_SIZE
    ensures |Walked(p, n)| == n
  {
    hide PermAt;
    if n > 0 {
      WalkedCount(p, n - 1);
      assert Walked(p, n) == Walked(p, n - 1) + {PermAt(p, n - 1)};
      forall j: nat | j < n - 1 ensures PermAt(p, j) != PermAt(p, n - 1) { PermInjective(p, j, n - 1); }
    }
  }

  ghost predicate Covers(p: Perm) {
    Walked(p, TABLE_SIZE) == Below(TABLE_SIZE)
  }

  // The walk visits every slot exactly when its skip is not a multiple of the
  // table size; otherwise it never leaves its first slot.
  lemma CoversIff(p: Perm)
    requires p.skip < TABLE_SIZE
    ensures Covers(p) <==> p.skip != 0
  {
    if p.skip != 0 {
      WalkedCount(p, TABLE_SIZE);
      FullSubset(Walked(p, TABLE_SIZE), TABLE_SIZE);
    } else {
      var c := PermAt(p, 0);
      var other := if c == 0 then 1 else 0;
      assert other in Below(TABLE_SIZE);
      assert forall j: nat :: PermAt(p, j) == c;
    }
  }

  // ----- The fill loop

  // Slots in the order they were claimed, each the first free one on the walk
  // of the node whose turn it was.
  ghost predicate Claimed(perms: seq<Perm>, lut: seq<int>, order: seq<nat>)
    requires |perms| == NODES && |lut| == TABLE_SIZE
  {
    && (forall m | 0 <= m < |order| :: order[m] < TABLE_SIZE && lut[order[m]] == m % NODES)
    && (forall a, b | 0 <= a < b < |order| :: order[a] != order[b])
    && (forall c | 0 <= c < TABLE_SIZE :: if c in order then 0 <= lut[c] < NODES else lut[c] == -1)
    && (forall m | 0 <= m < |order| :: FirstFree(perms[m % NODES], order, m))
  }

  ghost predicate FirstFree(p: Perm, order: seq<nat>, m: nat)
    requires m < |order|
  {
    exists j: nat :: WalkReaches(p, order, m, j)
  }

  ghost predicate WalkReaches(p: Perm, order: seq<nat>, m: nat, j: nat)
    requires m < |order|
  {
    PermAt(p, j) == order[m] && forall i: nat | i < j :: PermAt(p, i) in order[..m]
  }

  // Slots a node has tried before its next turn are all taken.
  ghost predicate Tried(p: Perm, lut: seq<int>, next: nat)
    requires |lut| == TABLE_SIZE
  {
    forall j: nat | j < next :: lut[PermAt(p, j)] >= 0
  }

  lemma WalkFindsFree(p: Perm, lut: seq<int>, next: nat, free: nat)
    requires 0 < p.skip < TABLE_SIZE && |lut| == TABLE_SIZE && Tried(p, lut, next)
    requires free < TABLE_SIZE && lut[free] < 0
    ensures next < TABLE_SIZE
  {
    hide PermAt;
    CoversIff(p);
    assert free in Walked(p, TABLE_SIZE);
    var j: nat :| j < TABLE_SIZE && PermAt(p, j) == free;
    assert j >= next;
  }

  ghost function Elems(s: seq<nat>): set<nat> {
    set x | x in s
  }

  lemma {:induction false} ElemsCount(s: seq<nat>)
    ensures |Elems(s)| <= |s|
  {
    if s != [] {
      var n := |s| - 1;
      ElemsCount(s[..n]);
      assert s == s[..n] + [s[n]];
      assert Elems(s) == Elems(s[..n]) + {s[n]};
      assert |Elems(s)| <= |Elems(s[..n])| + 1;
    }
  }

  lemma FreeSlot(order: seq<nat>, size: nat) returns (c: nat)
    requires |order| < size
    ensures c < size && c !in order
  {
    var s, all := Elems(order), Below(size);
    ElemsCount(order);
    assert all <= s ==> s == all + (s - all);
    c :| c in all && c !in s;
  }

  // `while (lut[c] >= 0)`: walks on to the node's next free slot.
  method NextFree(p: Perm, lut: array<int>, start: nat, ghost free: nat) returns (c: nat, next: nat)
    requires 0 < p.skip < TABLE_SIZE && lut.Length == TABLE_SIZE && Tried(p, lut[..], start)
    requires free < TABLE_SIZE && lut[free] < 0
    ensures next < TABLE_SIZE && c == PermAt(p, next) && lut[c] < 0 && Tried(p, lut[..], next)
  {
    next := start;
    c := PermAt(p, next);
    WalkFindsFree(p, lut[..], next, free);
    while lut[c] >= 0
      invariant next < TABLE_SIZE && c == PermAt(p, next) && Tried(p, lut[..], next)
      decreases TABLE_SIZE - next
    {
      next := next + 1;
      WalkFindsFree(p, lut[..], next, free);
      c := PermAt(p, next);
    }
  }

  // The loop that would follow the early return: the three nodes take turns,
  // each claiming the first free slot of its walk.
  method FillTable(lut: array<int>, perms: seq<Perm>) returns (next: array<nat>, ghost order: seq<nat>)
    requires lut.Length == TABLE_SIZE && |perms| == NODES
    requires forall i | 0 <= i < NODES :: 0 < perms[i].skip < TABLE_SIZE
    modifies lut
    ensures |order| == TABLE_SIZE && Claimed(perms, lut[..], order)
    ensures next.Length == NODES && forall i | 0 <= i < NODES :: next[i] <= TABLE_SIZE
  {
    hide FirstFree, PermAt;
    for i := 0 to TABLE_SIZE
      invariant forall c | 0 <= c < i :: lut[c] == -1
    {
      lut[i] := -1;
    }
    next := new nat[NODES](i => 0);
    order := [];
    var n := 0;
    while true
      invariant n == |order| < TABLE_SIZE && n % NODES == 0 && Claimed(perms, lut[..], order)
      invariant fresh(next) && next.Length == NODES
      invariant forall i | 0 <= i < NODES :: next[i] <= TABLE_SIZE && Tried(perms[i], lut[..], next[i])
      decreases TABLE_SIZE - n
    {
      ghost var n0 := n;
      for i := 0 to NODES
        invariant n == |order| < TABLE_SIZE && n == n0 + i && Claimed(perms, lut[..], order)
        invariant fresh(next) && next.Length == NODES
        invariant forall j | 0 <= j < NODES :: next[j] <= TABLE_SIZE && Tried(perms[j], lut[..], next[j])
      {
        ghost var free := FreeSlot(order, TABLE_SIZE);
        var c, j := NextFree(perms[i], lut, next[i], free);
        ClaimNext(perms, lut[..], order, i, c, j);
        next[i] := j;
        lut[c] := i;
        next[i] := next[i] + 1;
        order := order + [c];
        n := n + 1;
        if n == TABLE_SIZE { return; }
      }
    }
  }

  // One claim keeps the record, and every node's tried slots stay taken.
  lemma ClaimNext(perms: seq<Perm>, lut: seq<int>, order: seq<nat>, i: nat, c: nat, j: nat)
    requires |perms| == NODES && |lut| == TABLE_SIZE && |order| % NODES == i && Claimed(perms, lut, order)
    requires c == PermAt(perms[i], j) && lut[c] < 0 && Tried(perms[i], lut, j)
    ensures Claimed(perms, lut[c := i], order + [c])
    ensures forall p, k | Tried(p, lut, k) :: Tried(p, lut[c := i], k)
    ensures Tried(perms[i], lut[c := i], j + 1)
  {
    hide PermAt;
    var o := order + [c];
    forall m | 0 <= m < |o| ensures FirstFree(perms[m % NODES], o, m) {
      assert o[..m] == order[..m];
      if m < |order| {
        var k: nat :| WalkReaches(perms[m % NODES], order, m, k);
        assert WalkReaches(perms[m % NODES], o, m, k);
      } else {
        assert WalkReaches(perms[i], o, m, j);
      }
    }
  }

  // ----- Shares

  ghost function Owned(lut: seq<int>, owner: int): set<nat> {
    set c | 0 <= c < |lut| && lut[c] == owner
  }

  ghost function Claims(order: seq<nat>, i: nat): set<nat> {
    if order == [] then {}
    else
      var n := |order| - 1;
      Claims(order[..n], i) + if n % NODES == i then {order[n]} else {}
  }

  lemma {:induction false} ClaimsMembers(order: seq<nat>, i: nat, c: nat)
    ensures c in Claims(order, i) <==> exists m | 0 <= m < |order| :: order[m] == c && m % NODES == i
  {
    if order != [] {
      var n := |order| - 1;
      ClaimsMembers(order[..n], i, c);
      assert forall m | 0 <= m < n :: order[..n][m] == order[m];
    }
  }

  lemma {:induction false} ClaimsCount(order: seq<nat>, i: nat)
    requires i < NODES && forall a, b | 0 <= a < b < |order| :: order[a] != order[b]
    ensures |Claims(order, i)| == (|order| + NODES - 1 - i) / NODES
  {
    hide Claims;
    if order == [] {
      assert Claims(order, i) == {} by { NoClaims(i); }
    } else {
      var n := |order| - 1;
      ClaimsCount(order[..n], i);
      OneMoreClaim(order, i);
      NextTurn(n, i);
    }
  }

  lemma NoClaims(i: nat)
    ensures Claims([], i) == {}
  {
  }

  lemma OneMoreClaim(order: seq<nat>, i: nat)
    requires order != [] && forall a, b | 0 <= a < b < |order| :: order[a] != order[b]
    ensures var n := |order| - 1;
      |Claims(order, i)| == |Claims(order[..n], i)| + if n % NODES == i then 1 else 0
  {
    NotYetClaimed(order, i);
  }

  lemma NotYetClaimed(order: seq<nat>, i: nat)
    requires order != [] && forall a, b | 0 <= a < b < |order| :: order[a] != order[b]
    ensures order[|order| - 1] !in Claims(order[..|order| - 1], i)
  {
    hide Claims;
    var n := |order| - 1;
    ClaimsMembers(order[..n], i, order[n]);
  }

  // The turns of node i among the first n + 1.
  lemma NextTurn(n: nat, i: nat)
    requires i < NODES
    ensures (n + NODES - i) / NODES == (n + NODES - 1 - i) / NODES + if n % NODES == i then 1 else 0
  {
    var q, r := n / NODES, n % NODES;
    assert n == NODES * q + r;
  }

  // A completely filled table is shared out evenly.
  lemma SharesBalanced(perms: seq<Perm>, lut: seq<int>, order: seq<nat>, i: nat)
    requires |perms| == NODES && |lut| == TABLE_SIZE && |order| == TABLE_SIZE && i < NODES
    requires Claimed(perms, lut, order)
    ensures Elems(order) == Below(TABLE_SIZE)
    ensures |Owned(lut, i)| == if i < 2 then 21846 else 21845
  {
    hide FirstFree, Claims, Below, Owned;
    AllClaimed(order);
    ClaimsCount(order, i);
    ClaimsAreOwned(perms, lut, order, i);
  }

  lemma ClaimsAreOwned(perms: seq<Perm>, lut: seq<int>, order: seq<nat>, i: nat)
    requires |perms| == NODES && |lut| == TABLE_SIZE && |order| == TABLE_SIZE && i < NODES
    requires Claimed(perms, lut, order) && Elems(order) == Below(TABLE_SIZE)
    ensures Claims(order, i) == Owned(lut, i)
  {
    hide Claims, Owned, Claimed;
    forall c: nat ensures c in Claims(order, i) <==> c in Owned(lut, i) { ClaimIsOwned(perms, lut, order, i, c); }
  }

  lemma ClaimIsOwned(perms: seq<Perm>, lut: seq<int>, order: seq<nat>, i: nat, c: nat)
    requires |perms| == NODES && |lut| == TABLE_SIZE && |order| == TABLE_SIZE && i < NODES
    requires Claimed(perms, lut, order) && Elems(order) == Below(TABLE_SIZE)
    ensures c in Claims(order, i) <==> c in Owned(lut, i)
  {
    hide Claimed, Claims;
    ClaimsMembers(order, i, c);
    if c in Claims(order, i) {
      var m :| 0 <= m < |order| && order[m] == c && m % NODES == i;
      ClaimedSlot(perms, lut, order, m);
    }
    if c in Owned(lut, i) {
      assert c in Elems(order);
      var m :| 0 <= m < |order| && order[m] == c;
      ClaimedSlot(perms, lut, order, m);
    }
  }

  lemma ClaimedSlot(perms: seq<Perm>, lut: seq<int>, order: seq<nat>, m: nat)
    requires |perms| == NODES && |lut| == TABLE_SIZE && m < |order| && Claimed(perms, lut, order)
    ensures order[m] < TABLE_SIZE && lut[order[m]] == m % NODES
  {
    hide FirstFree;
  }

  lemma {:induction false} DistinctCount(order: seq<nat>)
    requires forall a, b | 0 <= a < b < |order| :: order[a] != order[b]
    ensures |Elems(order)| == |order|
  {
    if order != [] {
      var n := |order| - 1;
      DistinctCount(order[..n]);
      assert order == order[..n] + [order[n]];
      assert Elems(order) == Elems(order[..n]) + {order[n]};
    }
  }

  lemma AllClaimed(order: seq<nat>)
    requires |order| == TABLE_SIZE && forall m | 0 <= m < |order| :: order[m] < TABLE_SIZE
    requires forall a, b | 0 <= a < b < |order| :: order[a] != order[b]
    ensures Elems(order) == Below(TABLE_SIZE)
  {
    DistinctCount(order);
    FullSubset(Elems(order), TABLE_SIZE);
  }

  // ----- The code as it runs

  // The nodes 800, 273 and 8255 as little-endian ints: each walk has a nonzero
  // skip, so the fill loop would end on them.
  lemma FnvFour(a: bv8, b: bv8, c: bv8, d: bv8, s: bv64)
    ensures Fnv([a, b, c, d], s) == FnvStep(FnvStep(FnvStep(FnvStep(s, a), b), c), d)
  {
    hide FnvStep;
    var s1 := FnvStep(s, a);
    var s2 := FnvStep(s1, b);
    assert [a, b, c, d][1..] == [b, c, d] && [b, c, d][1..] == [c, d] && [c, d][1..] == [d];
    assert Fnv([a, b, c, d], s) == Fnv([b, c, d], s1) == Fnv([c, d], s2) == Fnv([d], FnvStep(s2, c));
    assert Fnv([], FnvStep(FnvStep(s2, c), d)) == FnvStep(FnvStep(s2, c), d);
    assert [d][1..] == [];
  }

  lemma NodeHash800()
    ensures OffsetSkip([0x20, 0x3, 0, 0]) == PermOf(0x62583c803ad0cc7e)
  {
    hide PermOf;
    FnvFour(0x20, 0x3, 0, 0, FNV_BASIS);
    assert FnvStep(FNV_BASIS, 0x20) == 0xaf63bd4c8601b7ff;
    assert FnvStep(0xaf63bd4c8601b7ff, 0x3) == 0x832a807b4eba64e;
    assert FnvStep(0x832a807b4eba64e, 0) == 0xd9b9d3186c6b968a;
    assert FnvStep(0xd9b9d3186c6b968a, 0) == 0x62583c803ad0cc7e;
  }

  lemma NodeHash273()
    ensures OffsetSkip([0x11, 0x1, 0, 0]) == PermOf(0xb9e7b17f4a690dc3)
  {
    hide PermOf;
    FnvFour(0x11, 0x1, 0, 0, FNV_BASIS);
    assert FnvStep(FNV_BASIS, 0x11) == 0xaf63bd4c8601b7ce;
    assert FnvStep(0xaf63bd4c8601b7ce, 0x1) == 0x8327707b4eb530b;
    assert FnvStep(0x8327707b4eb530b, 0) == 0xd9134d186bde1bb1;
    assert FnvStep(0xd9134d186bde1bb1, 0) == 0xb9e7b17f4a690dc3;
  }

  lemma NodeHash8255()
    ensures OffsetSkip([0x3f, 0x20, 0, 0]) == PermOf(0x5562317fa259ad80)
  {
    hide PermOf;
    FnvFour(0x3f, 0x20, 0, 0, FNV_BASIS);
    assert FnvStep(FNV_BASIS, 0x3f) == 0xaf63bd4c8601b7e0;
    assert FnvStep(0xaf63bd4c8601b7e0, 0x20) == 0x8328907b4eb7180;
    assert FnvStep(0x8328907b4eb7180, 0) == 0xd95058186c11dc80;
    assert FnvStep(0xd95058186c11dc80, 0) == 0x5562317fa259ad80;
  }

  lemma NodeSkips()
    ensures OffsetSkip([0x20, 0x3, 0, 0]) == Perm(52351, 27606)
    ensures OffsetSkip([0x11, 0x1, 0, 0]) == Perm(3524, 47859)
    ensures OffsetSkip([0x3f, 0x20, 0, 0]) == Perm(44417, 59205)
  {
    hide OffsetSkip;
    NodeHash800();
    NodeHash273();
    NodeHash8255();
  }

  // `populate_lut`: every entry gets the placeholder backend, then it returns.
  method PopulateLut(lut: array<int>)
    requires lut.Length == TABLE_SIZE
    modifies lut
    ensures forall i | 0 <= i < TABLE_SIZE :: lut[i] == 0xff
  {
    for i := 0 to TABLE_SIZE
      invariant forall c | 0 <= c < i :: lut[c] == 0xff
    {
      lut[i] := 0xff;
    }
  }
}
