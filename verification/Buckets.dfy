// Lookup four slots at a time. A bucket is one cache line of eight 64-bit
// lanes, keys in the even lanes and each value in the lane after its key.
module Buckets {
  import opened Probing

  // ----- One cache line

  // First of the four slots from base whose key is x; 4 if there is none.
  function FirstIn(t: seq<Slot>, base: nat, x: nat): (j: nat)
    requires base + 4 <= |t|
    ensures j <= 4
    ensures j < 4 ==> t[base + j].key == x
    ensures forall i | base <= i < base + j :: t[i].key != x
  {
    FirstFrom(t, base, base + 4, x) - base
  }

  function FirstFrom(t: seq<Slot>, i: nat, end: nat, x: nat): (r: nat)
    requires i <= end <= |t|
    ensures i <= r <= end
    ensures r < end ==> t[r].key == x
    ensures forall a | i <= a < r :: t[a].key != x
    decreases end - i
  {
    if i == end || t[i].key == x then i else FirstFrom(t, i + 1, end, x)
  }

  // The 64-byte load.
  function LoadLine(t: seq<Slot>, base: nat): (lanes: seq<nat>)
    requires base + 4 <= |t|
    ensures |lanes| == 8
  {
    [t[base].key, t[base].val, t[base + 1].key, t[base + 1].val,
     t[base + 2].key, t[base + 2].val, t[base + 3].key, t[base + 3].val]
  }

  // Lane-wise comparison under the key mask 0b01010101: bit i is set when i is
  // even and lane i equals x.
  function KeyCompare(lanes: seq<nat>, x: nat): nat
    requires |lanes| == 8
  {
    Bit(lanes[0] == x) + 4 * (Bit(lanes[2] == x) + 4 * (Bit(lanes[4] == x) + 4 * Bit(lanes[6] == x)))
  }

  function Bit(b: bool): nat {
    if b then 1 else 0
  }

  function TrailingZeros(mask: nat): (n: nat)
    requires mask > 0
  {
    if mask % 2 == 1 then 0 else 1 + TrailingZeros(mask / 2)
  }

  lemma TrailingZerosQuad(m: nat)
    requires m > 0
    ensures TrailingZeros(4 * m) == 2 + TrailingZeros(m)
  {
    assert TrailingZeros(4 * m) == 1 + TrailingZeros(2 * m);
  }

  lemma LowestBit(b0: bool, b1: bool, b2: bool, b3: bool)
    ensures var m := Bit(b0) + 4 * (Bit(b1) + 4 * (Bit(b2) + 4 * Bit(b3)));
      && (m > 0 <==> b0 || b1 || b2 || b3)
      && (m > 0 ==> TrailingZeros(m) == if b0 then 0 else if b1 then 2 else if b2 then 4 else 6)
  {
    var m2 := Bit(b2) + 4 * Bit(b3);
    var m1 := Bit(b1) + 4 * m2;
    if !b0 && m1 > 0 { TrailingZerosQuad(m1); }
    if !b1 && m2 > 0 { TrailingZerosQuad(m2); }
    if !b2 && b3 { TrailingZerosQuad(1); }
  }

  // The mask is nonzero exactly when some slot has the key, its lowest bit is
  // the first such key's lane, and the next lane is that slot's value.
  lemma CompareMeaning(t: seq<Slot>, base: nat, x: nat)
    requires base + 4 <= |t|
    ensures var lanes := LoadLine(t, base); var m := KeyCompare(lanes, x); var j := FirstIn(t, base, x);
      && (m > 0 <==> j < 4)
      && (m > 0 ==> TrailingZeros(m) == 2 * j && lanes[2 * j + 1] == t[base + j].val)
  {
    LowestBit(t[base].key == x, t[base + 1].key == x, t[base + 2].key == x, t[base + 3].key == x);
  }

  // ----- Bucket-by-bucket lookup

  datatype Outcome = Found(val: nat) | Absent | TableFull

  // The first slot of the n-th bucket on k's path.
  function Base(L: Layout, k: nat, n: nat): (b: nat)
    requires L.Bucketed() && 4 * n < L.len
    ensures b % 4 == 0 && b + 4 <= L.len
  {
    L.At(k, 4 * n)
  }

  // A bucket decides the lookup: it has the key, or a hole, or it is the last.
  predicate Decides(L: Layout, t: seq<Slot>, k: nat, n: nat)
    requires L.Bucketed() && |t| == L.len && 4 * n < L.len
  {
    var b := Base(L, k, n);
    FirstIn(t, b, k) < 4 || 4 * n + 4 >= L.len || FirstIn(t, b, 0) < 4
  }

  function Verdict(L: Layout, t: seq<Slot>, k: nat, n: nat): Outcome
    requires L.Bucketed() && |t| == L.len && 4 * n < L.len
  {
    var b := Base(L, k, n);
    var j := FirstIn(t, b, k);
    if j < 4 then Found(t[b + j].val) else if 4 * n + 4 >= L.len then TableFull else Absent
  }

  // How many bucket visits a lookup standing at bucket n still needs.
  function VisitsFrom(L: Layout, t: seq<Slot>, k: nat, n: nat): (r: nat)
    requires L.Bucketed() && |t| == L.len && 4 * n < L.len
    ensures r >= 1 && 4 * (n + r) <= L.len
    decreases L.len - 4 * n
  {
    if Decides(L, t, k, n) then 1 else 1 + VisitsFrom(L, t, k, n + 1)
  }

  function Visits(L: Layout, t: seq<Slot>, k: nat): (r: nat)
    requires L.Bucketed() && |t| == L.len
    ensures r >= 1 && 4 * r <= L.len
  {
    VisitsFrom(L, t, k, 0)
  }

  function Find(L: Layout, t: seq<Slot>, k: nat): Outcome
    requires L.Bucketed() && |t| == L.len
  {
    Verdict(L, t, k, Visits(L, t, k) - 1)
  }

  // A lookup that has visited n buckets without a decision.
  ghost predicate OnTrack(L: Layout, t: seq<Slot>, k: nat, n: nat)
    requires L.Bucketed() && |t| == L.len
  {
    4 * n < L.len && Visits(L, t, k) == n + VisitsFrom(L, t, k, n)
  }

  // ----- What a bucket visit shows

  lemma VisitStep(L: Layout, t: seq<Slot>, k: nat, n: nat)
    requires L.Bucketed() && |t| == L.len && OnTrack(L, t, k, n)
    ensures Decides(L, t, k, n) <==> n + 1 >= Visits(L, t, k)
    ensures Decides(L, t, k, n) ==> Find(L, t, k) == Verdict(L, t, k, n)
    ensures !Decides(L, t, k, n) ==> OnTrack(L, t, k, n + 1)
  {
  }

  lemma BucketSlots(L: Layout, k: nat, n: nat, i: nat)
    requires L.Bucketed() && 4 * n < L.len && i < L.len
    ensures 4 * n <= L.Dist(k, i) < 4 * n + 4 <==> Base(L, k, n) <= i < Base(L, k, n) + 4
    ensures Base(L, k, n) <= i < Base(L, k, n) + 4 ==> L.Dist(k, i) == 4 * n + (i - Base(L, k, n))
  {
  }

  lemma VisitPasses(L: Layout, t: seq<Slot>, k: nat, n: nat)
    requires L.Bucketed() && |t| == L.len && 4 * n < L.len && Passed(L, t, k, 4 * n)
    requires FirstIn(t, Base(L, k, n), k) == 4 && FirstIn(t, Base(L, k, n), 0) == 4
    ensures Passed(L, t, k, 4 * n + 4)
  {
    forall i | 0 <= i < |t| && L.Dist(k, i) < 4 * n + 4 ensures t[i].key != 0 && t[i].key != k {
      BucketSlots(L, k, n, i);
    }
  }

  // The buckets a lookup leaves behind are full, of other keys; the last decides.
  lemma {:induction false} TrackPasses(L: Layout, t: seq<Slot>, k: nat, n: nat) returns (last: nat)
    requires L.Bucketed() && |t| == L.len && 4 * n < L.len && Passed(L, t, k, 4 * n)
    ensures last == n + VisitsFrom(L, t, k, n) - 1 && 4 * last < L.len
    ensures Passed(L, t, k, 4 * last) && Decides(L, t, k, last)
    decreases L.len - 4 * n
  {
    hide Passed, FirstIn;
    if Decides(L, t, k, n) {
      last := n;
    } else {
      VisitPasses(L, t, k, n);
      last := TrackPasses(L, t, k, n + 1);
    }
  }

  // How many buckets a lookup visits: all before the last one visited are full of
  // other keys, and that one has the key or a hole or ends the path.
  lemma VisitsMeaning(L: Layout, t: seq<Slot>, k: nat)
    requires L.Bucketed() && |t| == L.len
    ensures var n := Visits(L, t, k);
      && (forall i | 0 <= i < |t| && L.Dist(k, i) < 4 * n - 4 :: t[i].key != 0 && t[i].key != k)
      && (4 * n == L.len || exists i | 0 <= i < |t| && 4 * n - 4 <= L.Dist(k, i) < 4 * n :: t[i].key == 0 || t[i].key == k)
  {
    hide FirstFrom;
    NothingPassed(L, t, k);
    var last := TrackPasses(L, t, k, 0);
    var b := Base(L, k, last);
    if 4 * last + 4 < L.len {
      var i := b + if FirstIn(t, b, k) < 4 then FirstIn(t, b, k) else FirstIn(t, b, 0);
      BucketSlots(L, k, last, i);
      assert t[i].key == 0 || t[i].key == k;
    }
  }

  // An empty slot in one of the buckets of k's path other than the last.
  ghost predicate HoleBeforeLast(L: Layout, t: seq<Slot>, k: nat)
    requires L.Bucketed() && |t| == L.len
  {
    exists i | 0 <= i < |t| :: t[i].key == 0 && L.Dist(k, i) < L.len - 4
  }

  lemma LastBucketMiss(L: Layout, t: seq<Slot>, k: nat, n: nat)
    requires L.Bucketed() && WF(L, t) && k != 0 && 4 * n + 4 == L.len
    requires Passed(L, t, k, 4 * n) && FirstIn(t, Base(L, k, n), k) == 4
    ensures k !in Keys(t) && !HoleBeforeLast(L, t, k)
  {
    forall i | 0 <= i < |t| ensures t[i].key != k {
      BucketSlots(L, k, n, i);
    }
  }

  lemma HolePasses(L: Layout, t: seq<Slot>, k: nat, n: nat, i: nat)
    requires L.Bucketed() && |t| == L.len && 4 * n < L.len && Passed(L, t, k, 4 * n)
    requires FirstIn(t, Base(L, k, n), k) == 4 && FirstIn(t, Base(L, k, n), 0) < 4
    requires i == Base(L, k, n) + FirstIn(t, Base(L, k, n), 0)
    ensures Passed(L, t, k, L.Dist(k, i)) && L.Dist(k, i) < 4 * n + 4
  {
    BucketSlots(L, k, n, i);
    forall a | 0 <= a < |t| && L.Dist(k, a) < L.Dist(k, i) ensures t[a].key != 0 && t[a].key != k {
      BucketSlots(L, k, n, a);
    }
  }

  lemma FirstHole(L: Layout, t: seq<Slot>, k: nat, n: nat)
    requires L.Bucketed() && WF(L, t) && k != 0 && 4 * n + 4 < L.len && Passed(L, t, k, 4 * n)
    requires FirstIn(t, Base(L, k, n), k) == 4 && FirstIn(t, Base(L, k, n), 0) < 4
    ensures k !in Keys(t) && HoleBeforeLast(L, t, k)
  {
    var i := Base(L, k, n) + FirstIn(t, Base(L, k, n), 0);
    HolePasses(L, t, k, n, i);
    HoleMeansAbsent(L, t, k, i);
  }

  ghost predicate Explains(L: Layout, t: seq<Slot>, k: nat, r: Outcome)
    requires L.Bucketed() && |t| == L.len && Unique(t)
  {
    match r
    case Found(v) => k in ToMap(t) && v == ToMap(t)[k]
    case Absent => k !in Keys(t) && HoleBeforeLast(L, t, k)
    case TableFull => k !in Keys(t) && !HoleBeforeLast(L, t, k) && Passed(L, t, k, L.len - 4)
  }

  lemma VerdictMeaning(L: Layout, t: seq<Slot>, k: nat, n: nat)
    requires L.Bucketed() && WF(L, t) && k != 0 && 4 * n < L.len
    requires Passed(L, t, k, 4 * n) && Decides(L, t, k, n)
    ensures Explains(L, t, k, Verdict(L, t, k, n))
  {
    hide NoGap, Passed, HoleBeforeLast;
    var b := Base(L, k, n);
    var j := FirstIn(t, b, k);
    if j < 4 {
      assert t[b + j].key == k;
    } else if 4 * n + 4 >= L.len {
      LastBucketMiss(L, t, k, n);
      assert Verdict(L, t, k, n) == TableFull;
    } else {
      FirstHole(L, t, k, n);
      assert Verdict(L, t, k, n) == Absent;
    }
  }

  lemma NothingPassed(L: Layout, t: seq<Slot>, k: nat)
    requires L.Valid() && |t| == L.len
    ensures Passed(L, t, k, 0)
  {
  }

  lemma FindExplained(L: Layout, t: seq<Slot>, k: nat)
    requires L.Bucketed() && WF(L, t) && k != 0
    ensures Explains(L, t, k, Find(L, t, k))
  {
    hide NoGap, Unique, EmptyIsZero, Explains, Decides, Verdict;
    NothingPassed(L, t, k);
    var last := TrackPasses(L, t, k, 0);
    VerdictMeaning(L, t, k, last);
  }

  // The bucket-wise lookup reads the map; a miss is definite when a hole lies
  // before the last bucket of the path, and TABLE_FULL otherwise.
  lemma FindMeaning(L: Layout, t: seq<Slot>, k: nat)
    requires L.Bucketed() && WF(L, t) && k != 0
    ensures Find(L, t, k).Found? <==> k in ToMap(t)
    ensures k in ToMap(t) ==> Find(L, t, k) == Found(ToMap(t)[k])
    ensures Find(L, t, k).Absent? <==> k !in ToMap(t) && HoleBeforeLast(L, t, k)
    ensures Find(L, t, k).TableFull? <==> k !in ToMap(t) && !HoleBeforeLast(L, t, k)
    ensures Find(L, t, k).TableFull? ==> Passed(L, t, k, L.len - 4)
  {
    FindExplained(L, t, k);
  }

  // Bucket-wise lookup agrees with slot-by-slot probing wherever it decides.
  lemma FindAgreesWithLookup(L: Layout, t: seq<Slot>, k: nat)
    requires L.Bucketed() && WF(L, t) && k != 0
    ensures Find(L, t, k).Found? <==> Lookup(L, t, k).0
    ensures Find(L, t, k).Found? ==> Lookup(L, t, k) == (true, Find(L, t, k).val)
  {
    FindMeaning(L, t, k);
    LookupMeaning(L, t, k);
  }
}
