// The first-in first-out discipline of a batched probe: requests are pushed in
// submission order, the oldest entry is popped, visits one bucket, and is
// either answered or pushed back behind everything else. `need[s]` is the
// number of bucket visits request s takes.
module Pipeline {

  datatype Ticket = Ticket(src: nat, done: nat)

  // `next` requests submitted, `out` answered in this order, `pops` pops so far.
  datatype Pipe = Pipe(next: nat, queue: seq<Ticket>, out: seq<nat>, pops: nat)

  const START := Pipe(0, [], [], 0)

  function Push(p: Pipe): Pipe {
    p.(next := p.next + 1, queue := p.queue + [Ticket(p.next, 0)])
  }

  predicate Last(need: seq<nat>, p: Pipe)
    requires p.queue != [] && p.queue[0].src < |need|
  {
    p.queue[0].done + 1 >= need[p.queue[0].src]
  }

  function Pop(need: seq<nat>, p: Pipe): Pipe
    requires p.queue != [] && p.queue[0].src < |need|
  {
    var t := p.queue[0];
    if Last(need, p)
    then p.(queue := p.queue[1..], out := p.out + [t.src], pops := p.pops + 1)
    else p.(queue := p.queue[1..] + [Ticket(t.src, t.done + 1)], pops := p.pops + 1)
  }

  // ----- Conservation: every submitted request is queued or answered, once

  function Srcs(q: seq<Ticket>): seq<nat> {
    seq(|q|, i requires 0 <= i < |q| => q[i].src)
  }

  function Range(n: nat): seq<nat> {
    seq(n, i => i)
  }

  ghost predicate Conserved(p: Pipe) {
    multiset(Srcs(p.queue)) + multiset(p.out) == multiset(Range(p.next))
  }

  ghost predicate Bounded(need: seq<nat>, p: Pipe) {
    p.next <= |need|
    && (forall i | 0 <= i < |p.queue| :: p.queue[i].src < p.next && p.queue[i].done < need[p.queue[i].src])
    && (forall i | 0 <= i < |p.out| :: p.out[i] < p.next)
  }

  lemma PopBounded(need: seq<nat>, p: Pipe)
    requires Bounded(need, p) && p.queue != []
    ensures Bounded(need, Pop(need, p))
  {
  }

  lemma PushConserves(p: Pipe)
    requires Conserved(p)
    ensures Conserved(Push(p))
  {
    var q := Push(p);
    assert Srcs(q.queue) == Srcs(p.queue) + [p.next];
    assert Range(q.next) == Range(p.next) + [p.next];
  }

  lemma PopConserves(need: seq<nat>, p: Pipe)
    requires p.queue != [] && p.queue[0].src < |need| && Conserved(p)
    ensures Conserved(Pop(need, p))
  {
    var s := p.queue[0].src;
    var q := Pop(need, p);
    assert Srcs(p.queue) == [s] + Srcs(p.queue[1..]);
    if !Last(need, p) {
      assert Srcs(q.queue) == Srcs(p.queue[1..]) + [s];
    }
  }

  lemma Occupancy(p: Pipe)
    requires Conserved(p)
    ensures |p.queue| + |p.out| == p.next
  {
    assert |multiset(Srcs(p.queue))| == |p.queue|;
    assert |multiset(Range(p.next))| == p.next;
  }

  // ----- Cost

  function Sum(s: seq<nat>): nat {
    if s == [] then 0 else s[0] + Sum(s[1..])
  }

  lemma {:induction false} SumAppend(s: seq<nat>, t: seq<nat>)
    ensures Sum(s + t) == Sum(s) + Sum(t)
  {
    if s == [] {
      assert s + t == t;
    } else {
      assert (s + t)[1..] == s[1..] + t;
      SumAppend(s[1..], t);
    }
  }

  lemma {:induction false} SumBound(s: seq<nat>, m: nat)
    requires forall i | 0 <= i < |s| :: s[i] <= m
    ensures Sum(s) <= |s| * m
  {
    if s != [] {
      SumBound(s[1..], m);
      assert |s| * m == |s[1..]| * m + m;
    }
  }

  // Visits still owed to the queue.
  ghost function Owed(need: seq<nat>, q: seq<Ticket>): nat
    requires forall i | 0 <= i < |q| :: q[i].src < |need| && q[i].done < need[q[i].src]
  {
    if q == [] then 0 else need[q[0].src] - q[0].done + Owed(need, q[1..])
  }

  lemma {:induction false} OwedAppend(need: seq<nat>, q: seq<Ticket>, t: Ticket)
    requires forall i | 0 <= i < |q| :: q[i].src < |need| && q[i].done < need[q[i].src]
    requires t.src < |need| && t.done < need[t.src]
    ensures Owed(need, q + [t]) == Owed(need, q) + (need[t.src] - t.done)
  {
    if q == [] {
      assert q + [t] == [t];
    } else {
      assert (q + [t])[1..] == q[1..] + [t];
      OwedAppend(need, q[1..], t);
    }
  }

  // Pops made plus visits owed is what the submitted requests need in all.
  ghost predicate Paid(need: seq<nat>, p: Pipe)
    requires Bounded(need, p)
  {
    p.pops + Owed(need, p.queue) == Sum(need[..p.next])
  }

  lemma PushPaid(need: seq<nat>, p: Pipe)
    requires Bounded(need, p) && Paid(need, p) && p.next < |need| && need[p.next] >= 1
    ensures Bounded(need, Push(p)) && Paid(need, Push(p))
  {
    OwedAppend(need, p.queue, Ticket(p.next, 0));
    assert need[..p.next + 1] == need[..p.next] + [need[p.next]];
    SumAppend(need[..p.next], [need[p.next]]);
  }

  lemma PopPaid(need: seq<nat>, p: Pipe)
    requires Bounded(need, p) && Paid(need, p) && p.queue != []
    ensures Bounded(need, Pop(need, p)) && Paid(need, Pop(need, p))
  {
    PopBounded(need, p);
    var t := p.queue[0];
    if !Last(need, p) {
      OwedAppend(need, p.queue[1..], Ticket(t.src, t.done + 1));
    }
  }

  // ----- No overtaking

  // a was submitted first and needs no more visits than b.
  ghost predicate Before(need: seq<nat>, a: nat, b: nat)
    requires a < |need| && b < |need|
  {
    a < b && need[a] <= need[b]
  }

  ghost function Left(need: seq<nat>, t: Ticket): int
    requires t.src < |need|
  {
    need[t.src] - t.done
  }

  // x is ahead of y in the queue.
  ghost predicate Ordered(need: seq<nat>, x: Ticket, y: Ticket)
    requires x.src < |need| && y.src < |need|
  {
    && (Before(need, x.src, y.src) ==> Left(need, x) <= Left(need, y))
    && (Before(need, y.src, x.src) ==> Left(need, y) < Left(need, x))
  }

  ghost predicate QueueOrdered(need: seq<nat>, q: seq<Ticket>)
    requires forall i | 0 <= i < |q| :: q[i].src < |need|
  {
    forall i, j | 0 <= i < j < |q| :: Ordered(need, q[i], q[j])
  }

  // No answered request was due after one that is still queued or answered later.
  ghost predicate NoInversion(need: seq<nat>, p: Pipe)
    requires Bounded(need, p)
  {
    && (forall i, j | 0 <= i < j < |p.out| :: !Before(need, p.out[j], p.out[i]))
    && (forall i, j | 0 <= i < |p.out| && 0 <= j < |p.queue| :: !Before(need, p.queue[j].src, p.out[i]))
  }

  ghost predicate Inv(need: seq<nat>, p: Pipe) {
    && Bounded(need, p) && Conserved(p) && QueueOrdered(need, p.queue) && NoInversion(need, p)
    && Paid(need, p)
  }

  lemma StartInv(need: seq<nat>)
    ensures Inv(need, START)
  {
    assert Srcs([]) == [] && Range(0) == [] && need[..0] == [];
  }

  lemma PushKeeps(need: seq<nat>, p: Pipe)
    requires Inv(need, p) && p.next < |need| && need[p.next] >= 1
    ensures Inv(need, Push(p))
  {
    PushConserves(p);
    PushPaid(need, p);
  }

  lemma PopKeeps(need: seq<nat>, p: Pipe)
    requires Inv(need, p) && p.queue != []
    ensures Inv(need, Pop(need, p))
  {
    PopConserves(need, p);
    PopBounded(need, p);
    PopOrdered(need, p);
    PopNoInversion(need, p);
    PopPaid(need, p);
  }

  lemma PopOrdered(need: seq<nat>, p: Pipe)
    requires Bounded(need, p) && QueueOrdered(need, p.queue) && p.queue != []
    requires Bounded(need, Pop(need, p))
    ensures QueueOrdered(need, Pop(need, p).queue)
  {
    var q := Pop(need, p).queue;
    var n := |p.queue| - 1;
    forall i, j | 0 <= i < j < |q| ensures Ordered(need, q[i], q[j]) {
      assert q[i] == p.queue[i + 1];
      if j < n { assert q[j] == p.queue[j + 1]; } else { assert Ordered(need, p.queue[0], p.queue[i + 1]); }
    }
  }

  lemma PopNoInversion(need: seq<nat>, p: Pipe)
    requires Bounded(need, p) && QueueOrdered(need, p.queue) && NoInversion(need, p) && p.queue != []
    requires Bounded(need, Pop(need, p))
    ensures NoInversion(need, Pop(need, p))
  {
    var p' := Pop(need, p);
    var f := p.queue[0];
    if Last(need, p) {
      forall j | 0 <= j < |p'.queue| ensures !Before(need, p'.queue[j].src, f.src) {
        assert p'.queue[j] == p.queue[j + 1];
        assert Ordered(need, p.queue[0], p.queue[j + 1]);
      }
    }
    forall i, j | 0 <= i < |p'.out| && 0 <= j < |p'.queue| ensures !Before(need, p'.queue[j].src, p'.out[i]) {
      assert p'.queue[j].src == if j + 1 < |p.queue| then p.queue[j + 1].src else f.src;
    }
  }

  lemma PopsBounded(need: seq<nat>, p: Pipe)
    requires Inv(need, p)
    ensures p.pops <= Sum(need)
  {
    assert need == need[..p.next] + need[p.next..];
    SumAppend(need[..p.next], need[p.next..]);
  }

  // Later requests change nothing for those already submitted.
  lemma InvExtend(need: seq<nat>, more: seq<nat>, p: Pipe)
    requires Inv(need, p)
    ensures Inv(need + more, p)
  {
    var all := need + more;
    assert all[..p.next] == need[..p.next];
    OwedExtend(need, more, p.queue);
    forall i, j | 0 <= i < j < |p.queue| ensures Ordered(all, p.queue[i], p.queue[j]) {
      assert Ordered(need, p.queue[i], p.queue[j]);
    }
    forall i, j | 0 <= i < j < |p.out| ensures !Before(all, p.out[j], p.out[i]) {
      assert !Before(need, p.out[j], p.out[i]);
    }
    forall i, j | 0 <= i < |p.out| && 0 <= j < |p.queue| ensures !Before(all, p.queue[j].src, p.out[i]) {
      assert !Before(need, p.queue[j].src, p.out[i]);
    }
  }

  lemma {:induction false} OwedExtend(need: seq<nat>, more: seq<nat>, q: seq<Ticket>)
    requires forall i | 0 <= i < |q| :: q[i].src < |need| && q[i].done < need[q[i].src]
    ensures Owed(need + more, q) == Owed(need, q)
  {
    if q != [] { OwedExtend(need, more, q[1..]); }
  }

  // ----- A drained pipe

  ghost predicate Permutation(s: seq<nat>, n: nat) {
    multiset(s) == multiset(Range(n))
  }

  ghost predicate NoOvertaking(need: seq<nat>, out: seq<nat>) {
    && (forall i | 0 <= i < |out| :: out[i] < |need|)
    && (forall i, j | 0 <= i < j < |out| :: !Before(need, out[j], out[i]))
  }

  // Results come out once each, never before an earlier request that needs no
  // more visits, after exactly as many pops as there are visits to make.
  lemma Drained(need: seq<nat>, p: Pipe)
    requires Inv(need, p) && p.queue == []
    ensures Permutation(p.out, p.next) && |p.out| == p.next
    ensures NoOvertaking(need, p.out)
    ensures p.pops == Sum(need[..p.next])
  {
    Occupancy(p);
    assert Srcs(p.queue) == [];
  }

  lemma RangeCount(n: nat, x: nat)
    ensures multiset(Range(n))[x] == if x < n then 1 else 0
  {
    if n > 0 {
      RangeCount(n - 1, x);
      assert Range(n) == Range(n - 1) + [n - 1];
    }
  }

  lemma PermutationDistinct(s: seq<nat>, n: nat)
    requires Permutation(s, n)
    ensures |s| == n && (forall x | x in s :: x < n) && (forall x | 0 <= x < n :: x in s)
    ensures forall i, j | 0 <= i < j < |s| :: s[i] != s[j]
  {
    assert |multiset(s)| == |s| && |multiset(Range(n))| == n;
    forall x: nat ensures x in s <==> x < n {
      RangeCount(n, x);
      assert x in s <==> x in multiset(s);
    }
    forall i, j | 0 <= i < j < |s| ensures s[i] != s[j] {
      RangeCount(n, s[i]);
      assert s == s[..j] + [s[j]] + s[j + 1..];
      assert s[i] in s[..j];
      assert multiset(s[..j])[s[i]] >= 1;
    }
  }
}
