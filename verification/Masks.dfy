// Bit masks over unsigned machine words. Every index in the tables and rings
// is wrapped by `x & (n - 1)` for a power of two n, and every bucket start is
// cleared by `x & ~0x3`; this module ties both to remainder arithmetic.
module Masks {

  function Pow2(p: nat): (r: nat)
    ensures r >= 1
  {
    if p == 0 then 1 else 2 * Pow2(p - 1)
  }

  // Bitwise AND, one binary digit at a time.
  function BitAnd(x: nat, y: nat): (r: nat)
    ensures r <= x
  {
    if x == 0 || y == 0 then 0
    else 2 * BitAnd(x / 2, y / 2) + (if x % 2 == 1 && y % 2 == 1 then 1 else 0)
  }

  // `~0x3` widened to 64 bits.
  const CLEAR_LOW_TWO: nat := 0xFFFF_FFFF_FFFF_FFFC
  const WORD32: nat := 0x1_0000_0000

  // 32-bit unsigned subtraction.
  function Sub32(x: nat, y: nat): nat {
    (x - y) % WORD32
  }

  lemma WordSizes()
    ensures Pow2(32) == WORD32 && 4 * (Pow2(62) - 1) == CLEAR_LOW_TWO
  {
    assert Pow2(8) == 0x100;
    assert Pow2(16) == 0x1_0000;
    assert Pow2(24) == 0x100_0000;
    assert Pow2(32) == 0x1_0000_0000;
    assert Pow2(40) == 0x100_0000_0000;
    assert Pow2(48) == 0x1_0000_0000_0000;
    assert Pow2(56) == 0x100_0000_0000_0000;
  }

  // A power of two from four up holds a whole number of buckets.
  lemma WholeBuckets(p: nat)
    requires p >= 2
    ensures Pow2(p) % 4 == 0 && Pow2(p) >= 4
  {
    assert Pow2(p) == 2 * Pow2(p - 1) == 4 * Pow2(p - 2);
  }

  lemma ModUnique(x: int, m: nat, q: int, r: nat)
    requires m > 0 && x == m * q + r && r < m
    ensures x % m == r && x / m == q
  {
    var d := x / m - q;
    assert m * d == r - x % m by { assert m * d == m * (x / m) - m * q; }
    assert d >= 1 ==> m * d >= m;
    assert d <= -1 ==> m * d <= 0 - m;
  }

  lemma DoubleMod(a: nat, m: nat, b: nat)
    requires m > 0 && b < 2
    ensures (2 * a + b) % (2 * m) == 2 * (a % m) + b
  {
    var q, r := a / m, a % m;
    assert (2 * m) * q == 2 * (m * q);
    ModUnique(2 * a + b, 2 * m, q, 2 * r + b);
  }

  // One digit of an AND with an all-ones mask.
  lemma MaskDigit(x: nat, h: nat)
    requires h >= 1
    ensures BitAnd(x, 2 * h - 1) == 2 * BitAnd(x / 2, h - 1) + x % 2
  {
    assert (2 * h - 1) / 2 == h - 1 && (2 * h - 1) % 2 == 1;
  }

  lemma MaskStep(x: nat, h: nat, r: nat)
    requires h >= 1 && r == (x / 2) % h && BitAnd(x / 2, h - 1) == r
    ensures BitAnd(x, 2 * h - 1) == x % (2 * h)
  {
    hide BitAnd;
    var y := x / 2;
    MaskDigit(x, h);
    DoubleMod(y, h, x - 2 * y);
    assert x == 2 * y + (x - 2 * y);
  }

  lemma {:induction false} MaskIsMod(x: nat, p: nat)
    ensures BitAnd(x, Pow2(p) - 1) == x % Pow2(p)
  {
    if p == 0 {
      assert BitAnd(x, 0) == 0;
    } else {
      hide BitAnd;
      MaskIsMod(x / 2, p - 1);
      MaskStep(x, Pow2(p - 1), (x / 2) % Pow2(p - 1));
    }
  }

  // Wrapping an index that is at most one step past the end.
  lemma MaskSmall(x: nat, p: nat)
    ensures x < Pow2(p) ==> BitAnd(x, Pow2(p) - 1) == x
    ensures x == Pow2(p) ==> BitAnd(x, Pow2(p) - 1) == 0
  {
    MaskIsMod(x, p);
    if x < Pow2(p) { ModUnique(x, Pow2(p), 0, x); }
    if x == Pow2(p) { ModUnique(x, Pow2(p), 1, 0); }
  }

  // Wrapping an index less than one lap past the end.
  lemma MaskLap(x: nat, p: nat)
    requires x < 2 * Pow2(p)
    ensures BitAnd(x, Pow2(p) - 1) == if x < Pow2(p) then x else x - Pow2(p)
  {
    MaskIsMod(x, p);
    if x < Pow2(p) { ModUnique(x, Pow2(p), 0, x); } else { ModUnique(x, Pow2(p), 1, x - Pow2(p)); }
  }

  lemma EvenMask(x: nat, m: nat)
    ensures BitAnd(x, 2 * m) == 2 * BitAnd(x / 2, m)
  {
    var y := 2 * m;
    assert y / 2 == m && y % 2 == 0;
    if x != 0 && m != 0 {
      assert BitAnd(x, y) == 2 * BitAnd(x / 2, y / 2);
    }
  }

  // Clearing the two low bits rounds down to a multiple of four.
  lemma AlignIsFloor(x: nat)
    requires x < WORD32
    ensures BitAnd(x, CLEAR_LOW_TWO) == x - x % 4
    ensures BitAnd(x, CLEAR_LOW_TWO) % 4 == 0
  {
    var p := 62;
    WordSizes();
    AlignBelow(x, p);
  }

  lemma AlignBelow(x: nat, p: nat)
    requires x / 4 < Pow2(p)
    ensures BitAnd(x, 4 * (Pow2(p) - 1)) == x - x % 4
  {
    var m := Pow2(p) - 1;
    EvenMask(x, 2 * m);
    EvenMask(x / 2, m);
    MaskSmall(x / 2 / 2, p);
  }

  lemma LowTwoBits(x: nat)
    ensures BitAnd(x, 3) == x % 4
  {
    var p := 2;
    assert Pow2(p) == 2 * Pow2(1) == 4 * Pow2(0);
    MaskIsMod(x, p);
  }

  lemma RoundsDown(x: nat)
    ensures (x - x % 4) % 4 == 0 && 0 <= x - x % 4 <= x
  {
  }

  lemma FourfoldMod(x: nat, m: nat)
    requires m > 0
    ensures x % (4 * m) - x % (4 * m) % 4 == 4 * ((x / 4) % m)
  {
    var y := x / 4;
    var q, r := y / m, y % m;
    assert x == 4 * y + x % 4 && y == m * q + r;
    assert (4 * m) * q == 4 * (m * q);
    ModUnique(x, 4 * m, q, 4 * r + x % 4);
  }

  // A mask with its two low bits clear picks a multiple of four below 4 * 2^p.
  lemma BucketMask(x: nat, p: nat)
    ensures BitAnd(x, 4 * (Pow2(p) - 1)) == x % (4 * Pow2(p)) - x % (4 * Pow2(p)) % 4
  {
    var m := Pow2(p);
    assert BitAnd(x, 4 * (m - 1)) == 4 * BitAnd(x / 4, m - 1) by {
      EvenMask(x, 2 * (m - 1));
      EvenMask(x / 2, m - 1);
      assert x / 2 / 2 == x / 4;
    }
    MaskIsMod(x / 4, p);
    FourfoldMod(x, m);
  }

  lemma {:induction false} Pow2Divides(p: nat, q: nat) returns (c: nat)
    requires p <= q
    ensures Pow2(q) == Pow2(p) * c && c >= 1
    decreases q
  {
    if p == q {
      c := 1;
    } else {
      c := Pow2Divides(p, q - 1);
      assert Pow2(p) * (2 * c) == 2 * (Pow2(p) * c);
      c := 2 * c;
    }
  }

  lemma NegativeWraps(x: int, m: nat, c: nat)
    requires c >= 1 && m >= 1 && 0 - m < x < 0
    ensures x % (m * c) == x + m * c && (x + m * c) % m == x + m
  {
    assert m * (c - 1) == m * c - m && m * (c - 1) >= 0;
    ModUnique(x, m * c, -1, x + m * c);
    ModUnique(x + m * c, m, c - 1, x + m);
  }

  lemma NonnegativeStays(x: nat, m: nat, c: nat)
    requires c >= 1 && x < m
    ensures x % (m * c) == x && x % m == x
  {
    assert m * (c - 1) == m * c - m && m * (c - 1) >= 0;
    ModUnique(x, m * c, 0, x);
    ModUnique(x, m, 0, x);
  }

  // The ring occupancy `(head - tail) & (size - 1)` on 32-bit counters.
  lemma RingDistance(head: nat, tail: nat, p: nat)
    requires p <= 32 && head < Pow2(p) && tail < Pow2(p)
    ensures BitAnd(Sub32(head, tail), Pow2(p) - 1)
            == if head >= tail then head - tail else head - tail + Pow2(p)
  {
    WordSizes();
    var c := Pow2Divides(p, 32);
    MaskIsMod(Sub32(head, tail), p);
    if head >= tail {
      NonnegativeStays(head - tail, Pow2(p), c);
    } else {
      NegativeWraps(head - tail, Pow2(p), c);
    }
  }
}
