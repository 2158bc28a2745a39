// The DRAMBlast connection table of one lcore: compare-and-swap insert, the
// batched lookup through a 64-entry ring, and get-or-insert over a burst.
module Dramblast {
  import opened Masks
  import opened Probing
  import opened Buckets
  import opened Rings
  import opened Pipeline
  import opened GetOrInsert

  const FIND_QUEUE_SIZE: nat := 64

  datatype Arg = Arg(k: nat, id: nat)
  datatype Status = FOUND | ABSENT | TABLE_FULL
  datatype Result = Result(v: nat, id: nat, status: Status)
  datatype Item = Item(k: nat, idx: nat, visitCount: nat, id: nat)

  // ----- The bucket-aligned home slot

  function Home(crc: nat -> nat, len: nat, k: nat): nat
    requires len > 0
  {
    BitAnd(BitAnd(crc(k), len - 1), CLEAR_LOW_TWO)
  }

  // The two masks pick the remainder, rounded down to the start of its bucket.
  lemma HomeAligned(crc: nat -> nat, bits: nat, k: nat)
    requires bits >= 2 && Pow2(bits) <= WORD32
    ensures var h, len := Home(crc, Pow2(bits), k), Pow2(bits);
      h == crc(k) % len - crc(k) % len % 4 && h < len && h % 4 == 0
  {
    MaskIsMod(crc(k), bits);
    var x := BitAnd(crc(k), Pow2(bits) - 1);
    assert x < Pow2(bits);
    AlignIsFloor(x);
  }

  // `(idx + 4) & (len - 1) & ~0x3` is the next bucket of the path.
  lemma NextBucket(L: Layout, bits: nat, k: nat, n: nat)
    requires L.Bucketed() && L.len == Pow2(bits) <= WORD32 && 4 * n + 4 < L.len
    ensures BitAnd(BitAnd(Base(L, k, n) + 4, L.len - 1), CLEAR_LOW_TWO) == Base(L, k, n + 1)
  {
    hide BitAnd;
    MaskSmall(Base(L, k, n) + 4, bits);
    AlignIsFloor(Base(L, k, n + 1));
  }

  // ----- What a batch means

  function ResultOf(r: Outcome, id: nat): Result {
    match r
    case Found(v) => Result(v, id, FOUND)
    case Absent => Result(0, id, ABSENT)
    case TableFull => Result(0, id, TABLE_FULL)
  }

  ghost function Need(L: Layout, t: seq<Slot>, args: seq<Arg>): (need: seq<nat>)
    requires L.Bucketed() && |t| == L.len
  {
    seq(|args|, i requires 0 <= i < |args| => Visits(L, t, args[i].k))
  }

  // Ring entries and tickets: entry i has visited `done` buckets for its request.
  ghost predicate Mirrors(L: Layout, t: seq<Slot>, args: seq<Arg>, q: seq<Ticket>, items: seq<Item>)
    requires L.Bucketed() && |t| == L.len
  {
    |q| == |items| && forall i | 0 <= i < |q| :: MirrorsOne(L, t, args, q[i], items[i])
  }

  ghost predicate MirrorsOne(L: Layout, t: seq<Slot>, args: seq<Arg>, q: Ticket, item: Item)
    requires L.Bucketed() && |t| == L.len
  {
    && q.src < |args| && OnTrack(L, t, args[q.src].k, q.done)
    && item == Item(args[q.src].k, Base(L, args[q.src].k, q.done), 4 * q.done, args[q.src].id)
  }

  ghost predicate Answers(L: Layout, t: seq<Slot>, args: seq<Arg>, out: seq<nat>, results: seq<Result>)
    requires L.Bucketed() && |t| == L.len
  {
    |out| == |results| && forall r | 0 <= r < |out| ::
      out[r] < |args| && results[r] == ResultOf(Find(L, t, args[out[r]].k), args[out[r]].id)
  }

  // A batch in flight: the pipe's invariant, and the ring that carries it out.
  ghost predicate Running(L: Layout, t: seq<Slot>, args: seq<Arg>, p: Pipe, items: seq<Item>)
    requires L.Bucketed() && |t| == L.len
  {
    p.next <= |args| && Inv(Need(L, t, args), p) && Mirrors(L, t, args, p.queue, items)
  }

  lemma RunPush(L: Layout, t: seq<Slot>, args: seq<Arg>, p: Pipe, items: seq<Item>)
    requires L.Bucketed() && |t| == L.len && Running(L, t, args, p, items) && p.next < |args|
    ensures var a := args[p.next];
      Running(L, t, args, Pipeline.Push(p), items + [Item(a.k, L.home(a.k), 0, a.id)])
  {
    PushKeeps(Need(L, t, args), p);
    assert MirrorsOne(L, t, args, Ticket(p.next, 0), Item(args[p.next].k, L.home(args[p.next].k), 0, args[p.next].id));
  }

  lemma RunStart(L: Layout, t: seq<Slot>, args: seq<Arg>, results: seq<Result>)
    requires L.Bucketed() && |t| == L.len && results == []
    ensures Running(L, t, args, START, []) && Answers(L, t, args, [], results)
  {
  }

  // The oldest entry stands at a bucket of its own path.
  lemma RunFront(L: Layout, t: seq<Slot>, args: seq<Arg>, p: Pipe, items: seq<Item>)
    requires L.Bucketed() && |t| == L.len && Running(L, t, args, p, items) && p.queue != []
    ensures |items| == |p.queue| && p.queue[0].src < |args| && 4 * p.queue[0].done < L.len
    ensures var f := p.queue[0]; var a := args[f.src];
      MirrorsOne(L, t, args, f, items[0]) && items[0] == Item(a.k, Base(L, a.k, f.done), 4 * f.done, a.id)
  {
    hide Inv;
    assert MirrorsOne(L, t, args, p.queue[0], items[0]);
  }

  // Popping it: the others keep their place.
  lemma RunShift(L: Layout, t: seq<Slot>, args: seq<Arg>, q: seq<Ticket>, items: seq<Item>)
    requires L.Bucketed() && |t| == L.len && Mirrors(L, t, args, q, items) && q != []
    ensures |items| == |q| && Mirrors(L, t, args, q[1..], items[1..])
  {
    forall i | 0 <= i < |q| - 1 ensures MirrorsOne(L, t, args, q[1..][i], items[1..][i]) {
      assert MirrorsOne(L, t, args, q[i + 1], items[i + 1]);
    }
  }

  lemma RunBack(L: Layout, t: seq<Slot>, args: seq<Arg>, q: seq<Ticket>, items: seq<Item>, x: Ticket, a: Arg)
    requires L.Bucketed() && |t| == L.len && Mirrors(L, t, args, q, items)
    requires x.src < |args| && a == args[x.src] && OnTrack(L, t, a.k, x.done)
    ensures Mirrors(L, t, args, q + [x], items + [Item(a.k, Base(L, a.k, x.done), 4 * x.done, a.id)])
  {
    var q', items' := q + [x], items + [Item(a.k, Base(L, a.k, x.done), 4 * x.done, a.id)];
    forall i | 0 <= i < |q'| ensures MirrorsOne(L, t, args, q'[i], items'[i]) {
      if i < |q| { assert MirrorsOne(L, t, args, q[i], items[i]); }
    }
  }

  lemma RunCounts(L: Layout, t: seq<Slot>, args: seq<Arg>, p: Pipe, items: seq<Item>)
    requires L.Bucketed() && |t| == L.len && Running(L, t, args, p, items)
    ensures |items| == |p.queue| && |p.queue| + |p.out| == p.next <= |args|
    ensures p.pops <= Sum(Need(L, t, args))
  {
    Occupancy(p);
    PopsBounded(Need(L, t, args), p);
  }

  // All results out: each request once, in order, for exactly the visits needed.
  lemma RunDone(L: Layout, t: seq<Slot>, args: seq<Arg>, p: Pipe, items: seq<Item>)
    requires L.Bucketed() && |t| == L.len && Running(L, t, args, p, items) && |p.out| == |args|
    ensures items == [] && Permutation(p.out, |args|) && NoOvertaking(Need(L, t, args), p.out)
    ensures p.pops == Sum(Need(L, t, args)) <= |args| * (L.len / 4)
  {
    var need := Need(L, t, args);
    RunCounts(L, t, args, p, items);
    Drained(need, p);
    assert need[..p.next] == need;
    SumBound(need, L.len / 4);
  }

  // Requests for one key need equally many visits, so none overtakes another.
  lemma SameKeysInOrder(L: Layout, t: seq<Slot>, args: seq<Arg>, order: seq<nat>)
    requires L.Bucketed() && |t| == L.len && Permutation(order, |args|) && NoOvertaking(Need(L, t, args), order)
    ensures |order| == |args| && forall i | 0 <= i < |order| :: order[i] < |args|
    ensures forall i, j | 0 <= i < j < |order| :: args[order[i]].k == args[order[j]].k ==> order[i] < order[j]
    ensures forall i, j | 0 <= i < j < |order| ::
      order[i] != order[j] && (order[j] < order[i] ==> Visits(L, t, args[order[i]].k) < Visits(L, t, args[order[j]].k))
  {
    hide Visits;
    PermutationDistinct(order, |args|);
    forall i, j | 0 <= i < j < |order| && order[j] < order[i]
      ensures Visits(L, t, args[order[i]].k) < Visits(L, t, args[order[j]].k)
    {
      assert !Before(Need(L, t, args), order[j], order[i]);
    }
    forall i, j | 0 <= i < j < |order| && args[order[i]].k == args[order[j]].k ensures order[i] < order[j] {
      assert !Before(Need(L, t, args), order[j], order[i]) && order[i] != order[j];
    }
  }

  // A result says FOUND, with the stored value, if and only if its key is stored;
  // otherwise ABSENT if and only if a hole lies before the last bucket of its path.
  lemma AnswersMeaning(L: Layout, t: seq<Slot>, args: seq<Arg>, order: seq<nat>, results: seq<Result>)
    requires L.Bucketed() && WF(L, t) && Answers(L, t, args, order, results)
    ensures forall r | 0 <= r < |order| :: order[r] < |args| && results[r].id == args[order[r]].id
    ensures forall r | 0 <= r < |order| && args[order[r]].k != 0 ::
      var k, m := args[order[r]].k, ToMap(t);
      && (results[r].status == FOUND <==> k in m)
      && (results[r].status == ABSENT <==> k !in m && HoleBeforeLast(L, t, k))
      && (results[r].status == TABLE_FULL <==> k !in m && !HoleBeforeLast(L, t, k))
      && results[r].v == if k in m then m[k] else 0
  {
    hide NoGap, Unique, EmptyIsZero, Find, HoleBeforeLast;
    forall r | 0 <= r < |order| && args[order[r]].k != 0
      ensures var k, m := args[order[r]].k, ToMap(t);
        && (results[r].status == FOUND <==> k in m)
        && (results[r].status == ABSENT <==> k !in m && HoleBeforeLast(L, t, k))
        && (results[r].status == TABLE_FULL <==> k !in m && !HoleBeforeLast(L, t, k))
        && results[r].v == if k in m then m[k] else 0
    {
      FindMeaning(L, t, args[order[r]].k);
    }
  }

  // Its bucket decides it ...
  lemma RunAnswer(L: Layout, t: seq<Slot>, args: seq<Arg>, p: Pipe, items: seq<Item>)
    requires L.Bucketed() && |t| == L.len && Running(L, t, args, p, items) && p.queue != []
    requires MirrorsOne(L, t, args, p.queue[0], items[0])
    requires Decides(L, t, args[p.queue[0].src].k, p.queue[0].done)
    ensures var f := p.queue[0]; var a := args[f.src]; var p' := Pop(Need(L, t, args), p);
      && p' == Pipe(p.next, p.queue[1..], p.out + [f.src], p.pops + 1)
      && Find(L, t, a.k) == Verdict(L, t, a.k, f.done)
      && Running(L, t, args, p', items[1..])
  {
    PopKeeps(Need(L, t, args), p);
    RunShift(L, t, args, p.queue, items);
    VisitStep(L, t, args[p.queue[0].src].k, p.queue[0].done);
  }

  // ... or it goes to the back with the next bucket of its path.
  lemma RunAgain(L: Layout, t: seq<Slot>, args: seq<Arg>, p: Pipe, items: seq<Item>)
    requires L.Bucketed() && |t| == L.len && Running(L, t, args, p, items) && p.queue != []
    requires MirrorsOne(L, t, args, p.queue[0], items[0])
    requires !Decides(L, t, args[p.queue[0].src].k, p.queue[0].done)
    ensures var f := p.queue[0]; var a := args[f.src]; var p' := Pop(Need(L, t, args), p);
      && p' == Pipe(p.next, p.queue[1..] + [Ticket(f.src, f.done + 1)], p.out, p.pops + 1)
      && 4 * f.done + 4 < L.len
      && Running(L, t, args, p', items[1..] + [Item(a.k, Base(L, a.k, f.done + 1), 4 * f.done + 4, a.id)])
  {
    hide Inv, VisitsFrom, Mirrors;
    var f := p.queue[0];
    var a := args[f.src];
    PopKeeps(Need(L, t, args), p);
    assert 4 * (f.done + 1) == 4 * f.done + 4;
    VisitStep(L, t, a.k, f.done);
    RunShift(L, t, args, p.queue, items);
    RunBack(L, t, args, p.queue[1..], items[1..], Ticket(f.src, f.done + 1), a);
  }

  datatype Visit = Answer(r: Outcome) | Again

  // ----- What a burst means

  function KeysOf(args: seq<Arg>): seq<nat> {
    seq(|args|, i requires 0 <= i < |args| => args[i].k)
  }

  ghost function OutcomesOf(L: Layout, t: seq<Slot>, args: seq<Arg>): seq<Outcome>
    requires L.Bucketed() && |t| == L.len
  {
    seq(|args|, i requires 0 <= i < |args| => Find(L, t, args[i].k))
  }

  ghost function Members(s: seq<nat>): set<nat> {
    set x | x in s
  }

  // The i-th result of a permuted batch: a request not met before, with its answer.
  lemma ResultAt(L: Layout, t: seq<Slot>, args: seq<Arg>, order: seq<nat>, results: seq<Result>, i: nat)
    requires L.Bucketed() && |t| == L.len && Answers(L, t, args, order, results)
    requires Permutation(order, |args|) && i < |order|
    requires forall a | 0 <= a < |args| :: args[a].id == a
    ensures |order| == |args| && order[i] < |args|
    ensures results[i] == ResultOf(Find(L, t, args[order[i]].k), order[i]) && results[i].id == order[i]
    ensures order[i] !in Members(order[..i]) && Members(order[..i + 1]) == Members(order[..i]) + {order[i]}
  {
    hide Find, Permutation;
    PermutationDistinct(order, |args|);
    assert order[..i + 1] == order[..i] + [order[i]];
  }

  lemma AllMembers(order: seq<nat>, n: nat)
    requires Permutation(order, n)
    ensures |order| == n && Members(order[..0]) == {} && Members(order[..n]) == Members(Range(n))
  {
    PermutationDistinct(order, n);
    assert order[..n] == order;
    assert forall x | x in Range(n) :: x < n;
    forall x: nat | x < n ensures x in Range(n) { assert Range(n)[x] == x; }
  }

  // The burst so far: table t has become t', and the requests in `done` have
  // their replies.
  ghost predicate Progress(L: Layout, t: seq<Slot>, t': seq<Slot>, lut: seq<nat>, args: seq<Arg>,
                           done: set<nat>, ret: seq<nat>)
    requires L.Bucketed() && |lut| == TABLE_SIZE && |ret| == |args|
  {
    && WF(L, t) && WF(L, t') && Grows(t, t')
    && Served(ToMap(t), ToMap(t'), Full(t'), lut, KeysOf(args), OutcomesOf(L, t, args), done, ret)
  }

  lemma ProgressStart(L: Layout, t: seq<Slot>, lut: seq<nat>, args: seq<Arg>, ret: seq<nat>)
    requires L.Bucketed() && |lut| == TABLE_SIZE && |ret| == |args| && WF(L, t)
    ensures Progress(L, t, t, lut, args, {}, ret)
  {
  }

  lemma ProgressHit(L: Layout, t: seq<Slot>, t': seq<Slot>, lut: seq<nat>, args: seq<Arg>,
                    done: set<nat>, ret: seq<nat>, i: nat)
    requires L.Bucketed() && |lut| == TABLE_SIZE && |ret| == |args|
    requires Progress(L, t, t', lut, args, done, ret) && i < |args| && i !in done
    requires !Find(L, t, args[i].k).Absent?
    ensures Progress(L, t, t', lut, args, done + {i}, ret[i := ResultOf(Find(L, t, args[i].k), i).v])
  {
    hide Served, NoGap, Unique, EmptyIsZero, Find, Grows, Full;
    ServeHit(ToMap(t), ToMap(t'), Full(t'), lut, KeysOf(args), OutcomesOf(L, t, args), done, ret, i);
  }

  lemma ProgressMiss(L: Layout, t: seq<Slot>, t': seq<Slot>, lut: seq<nat>, args: seq<Arg>,
                     done: set<nat>, ret: seq<nat>, i: nat)
    requires L.Bucketed() && |lut| == TABLE_SIZE && |ret| == |args|
    requires Progress(L, t, t', lut, args, done, ret) && i < |args| && i !in done
    requires Find(L, t, args[i].k).Absent?
    ensures L.Valid() && |t| == |t'| == L.len
    ensures var k := args[i].k; var r := Insert(L, t', k, Backend(lut, k));
      Progress(L, t, r.0, lut, args, done + {i}, ret[i := if r.1 then Backend(lut, k) else 0])
  {
    hide Served, NoGap, Unique, EmptyIsZero, Find, Grows, Full, Insert;
    var k := args[i].k;
    var r := Insert(L, t', k, Backend(lut, k));
    MissFacts(L, t, t', k, Backend(lut, k));
    ServeMiss(ToMap(t), ToMap(t'), Full(t'), ToMap(r.0), Full(r.0), lut, KeysOf(args), OutcomesOf(L, t, args),
              done, ret, i, r.1);
  }

  // Inserting a key that an earlier state of the table definitely missed.
  lemma MissFacts(L: Layout, t: seq<Slot>, t': seq<Slot>, k: nat, v: nat)
    requires L.Bucketed() && WF(L, t) && WF(L, t') && Grows(t, t') && Find(L, t, k).Absent?
    ensures var r := Insert(L, t', k, v);
      && k !in ToMap(t) && WF(L, r.0) && Grows(t, r.0) && (r.1 <==> k in ToMap(t') || !Full(t'))
      && ToMap(r.0) == (if r.1 then ToMap(t')[k := v] else ToMap(t')) && (Full(t') ==> Full(r.0))
  {
    hide NoGap, Unique, EmptyIsZero, Find, Insert;
    AbsentIsReal(L, t, k);
    FindMeaning(L, t, k);
    InsertMeaning(L, t', k, v);
  }

  // Such an insert is map update, or fails in a full table.
  lemma MissInsert(L: Layout, t: seq<Slot>, t': seq<Slot>, k: nat, v: nat)
    requires L.Bucketed() && |t| == L.len && WF(L, t') && Find(L, t, k).Absent?
    ensures var r := Insert(L, t', k, v);
      && WF(L, r.0) && (r.1 <==> k in ToMap(t') || !Full(t'))
      && ToMap(r.0) == if r.1 then ToMap(t')[k := v] else ToMap(t')
  {
    AbsentIsReal(L, t, k);
    InsertMeaning(L, t', k, v);
  }

  // A lookup of key 0 matches the first empty slot, so it is never ABSENT.
  lemma AbsentIsReal(L: Layout, t: seq<Slot>, k: nat)
    requires L.Bucketed() && |t| == L.len && Find(L, t, k).Absent?
    ensures k != 0
  {
    if k == 0 { ZeroNeverAbsent(L, t, 0); }
  }

  lemma {:induction false} ZeroNeverAbsent(L: Layout, t: seq<Slot>, n: nat)
    requires L.Bucketed() && |t| == L.len && 4 * n < L.len
    ensures !Verdict(L, t, 0, n + VisitsFrom(L, t, 0, n) - 1).Absent?
    decreases L.len - 4 * n
  {
    if !Decides(L, t, 0, n) { ZeroNeverAbsent(L, t, n + 1); }
  }

  class Table {
    ghost const bits: nat
    ghost const layout: Layout
    const len: nat
    const crc: nat -> nat
    const slots: array<Slot>
    const queue: Ring<Item>
    const backends: seq<nat>

    ghost predicate Shape()
      reads this
    {
      && bits >= 2 && len == Pow2(bits) <= WORD32 && slots.Length == len
      && layout.len == len && layout.Bucketed() && (forall k :: layout.home(k) == Home(crc, len, k))
      && |backends| == TABLE_SIZE && queue.size == FIND_QUEUE_SIZE
    }

    ghost predicate Valid()
      reads this, slots, queue, queue.items
    {
      Shape() && WF(layout, slots[..]) && queue.Valid()
    }

    constructor (ghost p: nat, n: nat, hash: nat -> nat, lut: seq<nat>)
      requires p >= 2 && n == Pow2(p) <= WORD32 && |lut| == TABLE_SIZE
      ensures Valid() && len == n && crc == hash && backends == lut && queue.contents == []
      ensures ToMap(slots[..]) == map[] && fresh(slots) && fresh(queue) && fresh(queue.items)
    {
      bits, len, crc, backends := p, n, hash, lut;
      layout := Layout(n, k => Home(hash, n, k));
      slots := new Slot[n](_ => EMPTY);
      assert Pow2(6) == FIND_QUEUE_SIZE;
      queue := new Ring<Item>(6, FIND_QUEUE_SIZE);
      new;
      WholeBuckets(p);
      forall k ensures layout.home(k) < len && layout.home(k) % 4 == 0 { HomeAligned(hash, p, k); }
      hide NoGap, Unique, EmptyIsZero;
      ZeroedTable(layout, slots[..]);
    }

    method Hash(k: nat) returns (i: nat)
      requires Shape()
      ensures i == layout.home(k) == crc(k) % len - crc(k) % len % 4
    {
      HomeAligned(crc, bits, k);
      i := BitAnd(BitAnd(crc(k), len - 1), CLEAR_LOW_TWO);
    }

    method CompareAndSwap(i: nat, new_: Slot) returns (swapped: bool)
      requires i < slots.Length
      modifies slots
      ensures swapped <==> old(slots[i]) == EMPTY
      ensures slots[..] == if swapped then old(slots[..])[i := new_] else old(slots[..])
    {
      swapped := slots[i] == EMPTY;
      if swapped { slots[i] := new_; }
    }

    // `(i + 1) & (len - 1)`
    method Next(i: nat) returns (j: nat)
      requires Shape() && i < len
      ensures j == if i + 1 == len then 0 else i + 1
    {
      MaskSmall(i + 1, bits);
      j := BitAnd(i + 1, len - 1);
    }

    // One round of the probe loop: claim the slot, overwrite it, or move on.
    method TrySlot(i: nat, k: nat, v: nat) returns (done: bool)
      requires i < slots.Length && k != 0 && (slots[i].key == 0 ==> slots[i] == EMPTY)
      modifies slots
      ensures done <==> old(slots[i].key) == 0 || old(slots[i].key) == k
      ensures slots[..] == if done then old(slots[..])[i := Slot(k, v)] else old(slots[..])
    {
      if slots[i].key == 0 {
        var swapped := CompareAndSwap(i, Slot(k, v));
        if swapped { return true; }
      }
      if slots[i].key == k {
        slots[i] := Slot(slots[i].key, v);
        return true;
      }
      return false;
    }

    method InsertOne(k: nat, v: nat) returns (r: int)
      requires Valid()
      modifies slots
      ensures Valid()
      ensures r == 0 || r == -1
      ensures (slots[..], r == 0) == Insert(layout, old(slots[..]), k, v)
      ensures k == 0 ==> r == -1 && slots[..] == old(slots[..])
    {
      ghost var t := slots[..];
      var idx := Hash(k);
      var count := 0;
      if k == 0 { return -1; }
      ghost var goal := Insert(layout, t, k, v);
      assert WF(layout, goal.0) by { InsertMeaning(layout, t, k, v); }
      while true
        invariant count < len && idx == layout.At(k, count) && slots[..] == t
        invariant StopFrom(layout, t, k, 0) == StopFrom(layout, t, k, count)
        decreases len - count
      {
        count := count + 1;
        var done := TrySlot(idx, k, v);
        if done { return 0; }
        idx := Next(idx);
        if count >= len { return -1; }
      }
    }

    // Pushes requests until the ring holds 63 or none is left.
    method FillQueue(args: seq<Arg>, head: nat, ghost p: Pipe) returns (argsHead: nat, ghost p': Pipe)
      requires Valid() && head == p.next && Running(layout, slots[..], args, p, queue.contents)
      requires |p.queue| < FIND_QUEUE_SIZE
      modifies queue, queue.items
      ensures Valid() && argsHead == p'.next && Running(layout, slots[..], args, p', queue.contents)
      ensures p'.out == p.out && p'.pops == p.pops && |p'.queue| < FIND_QUEUE_SIZE
      ensures argsHead == |args| || |p'.queue| == FIND_QUEUE_SIZE - 1
    {
      hide Inv, WF;
      ghost var t := slots[..];
      argsHead, p' := head, p;
      var n := queue.Count();
      while argsHead < |args| && n < FIND_QUEUE_SIZE - 1
        invariant Valid() && slots[..] == t && argsHead == p'.next && Running(layout, t, args, p', queue.contents)
        invariant p'.out == p.out && p'.pops == p.pops && n == |p'.queue| < FIND_QUEUE_SIZE
      {
        var arg := args[argsHead];
        argsHead := argsHead + 1;
        var idx := Hash(arg.k);
        RunPush(layout, t, args, p', queue.contents);
        p' := Pipeline.Push(p');
        queue.Push(Item(arg.k, idx, 0, arg.id));
        n := queue.Count();
      }
    }

    // `(idx + 4) & (len - 1) & ~0x3`
    method NextBucketOf(idx: nat, ghost k: nat, ghost n: nat) returns (next: nat)
      requires Shape() && 4 * n + 4 < len && idx == Base(layout, k, n)
      ensures next == Base(layout, k, n + 1)
    {
      NextBucket(layout, bits, k, n);
      next := BitAnd(BitAnd(idx + 4, len - 1), CLEAR_LOW_TWO);
    }

    // One bucket visit: load the line, match keys, then the probe bound, then holes.
    method VisitBucket(idx: nat, k: nat, count: nat, ghost n: nat) returns (r: Visit)
      requires Shape() && 4 * n < len && idx == Base(layout, k, n) && count == 4 * n
      ensures r == if Decides(layout, slots[..], k, n) then Answer(Verdict(layout, slots[..], k, n)) else Again
    {
      var lanes := LoadLine(slots[..], idx);
      var keyCmp := KeyCompare(lanes, k);
      CompareMeaning(slots[..], idx, k);
      if keyCmp > 0 {
        var offset := TrailingZeros(keyCmp);
        return Answer(Found(LoadLine(slots[..], idx)[offset + 1]));
      }
      if count + 4 >= len { return Answer(TableFull); }
      var eptCmp := KeyCompare(lanes, 0);
      CompareMeaning(slots[..], idx, 0);
      return if eptCmp == 0 then Again else Answer(Absent);
    }

    // Pops one entry, visits its bucket, and answers or re-queues it.
    method ProbeOne(ghost args: seq<Arg>, results: array<Result>, head: nat, ghost p: Pipe)
      returns (resultHead: nat, ghost p': Pipe)
      requires Valid() && Running(layout, slots[..], args, p, queue.contents)
      requires p.queue != [] && |p.queue| < FIND_QUEUE_SIZE
      requires head == |p.out| < results.Length && Answers(layout, slots[..], args, p.out, results[..head])
      modifies queue, queue.items, results
      ensures Valid() && Running(layout, slots[..], args, p', queue.contents)
      ensures p' == Pop(Need(layout, slots[..], args), p) && |p'.queue| < FIND_QUEUE_SIZE
      ensures resultHead == |p'.out| <= results.Length
      ensures Answers(layout, slots[..], args, p'.out, results[..resultHead])
    {
      hide Running, MirrorsOne, WF, Decides, Verdict, Find;
      ghost var t := slots[..];
      ghost var f, items := p.queue[0], queue.contents;
      RunFront(layout, t, args, p, items);
      p' := Pop(Need(layout, t, args), p);
      var slot := queue.Pop();
      var item := queue.items[slot];
      var visit := VisitBucket(item.idx, item.k, item.visitCount, f.done);
      match visit {
        case Answer(r) =>
          RunAnswer(layout, t, args, p, items);
          results[head] := ResultOf(r, queue.items[slot].id);
          resultHead := head + 1;
        case Again =>
          RunAgain(layout, t, args, p, items);
          var next := NextBucketOf(item.idx, item.k, f.done);
          queue.Push(Item(queue.items[slot].k, next, item.visitCount + 4, queue.items[slot].id));
          resultHead := head;
      }
    }

    // The loop of the batch lookup, until every request has its result.
    method Drain(args: seq<Arg>, results: array<Result>) returns (n: nat, ghost p: Pipe)
      requires Valid() && queue.contents == [] && results.Length >= |args|
      modifies queue, queue.items, results
      ensures Valid() && n == |p.out| == |args|
      ensures Running(layout, slots[..], args, p, queue.contents)
      ensures Answers(layout, slots[..], args, p.out, results[..n])
    {
      hide Running, WF, Answers;
      ghost var t := slots[..];
      RunStart(layout, t, args, results[..0]);
      ghost var need := Need(layout, t, args);
      p := START;
      var argsHead, resultHead := 0, 0;
      while resultHead < |args|
        invariant Valid() && slots[..] == t
        invariant argsHead == p.next && resultHead == |p.out| <= |args|
        invariant Running(layout, t, args, p, queue.contents) && |p.queue| < FIND_QUEUE_SIZE
        invariant Answers(layout, t, args, p.out, results[..resultHead]) && p.pops <= Sum(need)
        decreases Sum(need) - p.pops
      {
        argsHead, p := FillQueue(args, argsHead, p);
        RunCounts(layout, t, args, p, queue.contents);
        resultHead, p := ProbeOne(args, results, resultHead, p);
        RunCounts(layout, t, args, p, queue.contents);
      }
      n := resultHead;
    }

    // Answers every request of the batch against a table that does not change
    // meanwhile. `order` lists the requests in the order of their results.
    method FindBatchSync(args: seq<Arg>, results: array<Result>) returns (n: nat, ghost order: seq<nat>, ghost pops: nat)
      requires Valid() && queue.contents == [] && results.Length >= |args|
      modifies queue, queue.items, results
      ensures Valid() && queue.contents == []
      ensures n == |args| && Permutation(order, n)
      ensures Answers(layout, slots[..], args, order, results[..n])
      ensures NoOvertaking(Need(layout, slots[..], args), order)
      ensures forall i, j | 0 <= i < j < n :: args[order[i]].k == args[order[j]].k ==> order[i] < order[j]
      ensures |order| == n && forall r | 0 <= r < n :: order[r] < n && results[..n][r].id == args[order[r]].id
      ensures forall i, j | 0 <= i < j < n ::
        && order[i] != order[j]
        && (order[j] < order[i] ==>
              Visits(layout, slots[..], args[order[i]].k) < Visits(layout, slots[..], args[order[j]].k))
      ensures forall r | 0 <= r < n && args[order[r]].k != 0 ::
        var k, m, result := args[order[r]].k, ToMap(slots[..]), results[..n][r];
        && (result.status == FOUND <==> k in m)
        && (result.status == ABSENT <==> k !in m && HoleBeforeLast(layout, slots[..], k))
        && (result.status == TABLE_FULL <==> k !in m && !HoleBeforeLast(layout, slots[..], k))
        && result.v == if k in m then m[k] else 0
      ensures pops == Sum(Need(layout, slots[..], args)) <= n * (len / 4)
    {
      hide Running, NoGap, Unique, EmptyIsZero, Answers, Permutation, NoOvertaking, Visits, HoleBeforeLast;
      ghost var p;
      n, p := Drain(args, results);
      order, pops := p.out, p.pops;
      RunDone(layout, slots[..], args, p, queue.contents);
      SameKeysInOrder(layout, slots[..], args, order);
      AnswersMeaning(layout, slots[..], args, order, results[..n]);
    }

    // The fix-up of one result: insert a definite miss, give up on a full path.
    method Settle(args: seq<Arg>, result: Result, ret: array<nat>, ghost t: seq<Slot>, ghost done: set<nat>)
      requires Valid() && ret.Length >= |args|
      requires Progress(layout, t, slots[..], backends, args, done, ret[..|args|])
      requires result.id < |args| && result.id !in done
      requires result == ResultOf(Find(layout, t, args[result.id].k), result.id)
      modifies slots, ret
      ensures Valid() && Progress(layout, t, slots[..], backends, args, done + {result.id}, ret[..|args|])
      ensures ret[|args|..] == old(ret[|args|..])
      ensures result.status == FOUND ==> ret[result.id] == result.v && slots[..] == old(slots[..])
      ensures result.status == TABLE_FULL ==> ret[result.id] == 0 && slots[..] == old(slots[..])
      ensures result.status == ABSENT ==>
        var k, m, m' := args[result.id].k, ToMap(old(slots[..])), ToMap(slots[..]);
        if k in m || !Full(old(slots[..]))
        then ret[result.id] == backends[k % 65537] && m' == m[k := backends[k % 65537]]
        else ret[result.id] == 0 && m' == m
    {
      hide Served, WF, Find, Grows, Insert, Progress;
      ghost var t', r := slots[..], ret[..|args|];
      var backend: nat;
      if result.status == ABSENT {
        ProgressMiss(layout, t, t', backends, args, done, r, result.id);
        var clientHash := args[result.id].k;
        backend := Backend(backends, clientHash);
        MissInsert(layout, t, t', clientHash, backend);
        var res := InsertOne(clientHash, backend);
        if res < 0 { backend := 0; }
      } else {
        ProgressHit(layout, t, t', backends, args, done, r, result.id);
        backend := if result.status == TABLE_FULL then 0 else result.v;
      }
      ret[result.id] := backend;
      assert ret[..|args|] == r[result.id := backend];
    }

    // Get-or-insert for every frame of the burst: looks all keys up first, then
    // inserts the definite misses in the order of the results.
    method ProcessFrames(args: seq<Arg>, ret: array<nat>)
      requires Valid() && queue.contents == [] && ret.Length >= |args|
      requires forall i | 0 <= i < |args| :: args[i].id == i
      modifies queue, queue.items, slots, ret
      ensures Valid() && queue.contents == [] && ret[|args|..] == old(ret[|args|..])
      ensures Progress(layout, old(slots[..]), slots[..], backends, args, Members(Range(|args|)), ret[..|args|])
    {
      hide Served, WF, Find, Grows, Progress, Permutation, NoOvertaking, Answers;
      ghost var t := slots[..];
      var results := new Result[|args|];
      var n, order, pops := FindBatchSync(args, results);
      assert n == |args|;
      AllMembers(order, n);
      ProgressStart(layout, t, backends, args, ret[..n]);
      for i := 0 to n
        invariant Valid() && queue.contents == [] && Answers(layout, t, args, order, results[..n])
        invariant ret[n..] == old(ret[n..])
        invariant Progress(layout, t, slots[..], backends, args, Members(order[..i]), ret[..n])
      {
        ResultAt(layout, t, args, order, results[..n], i);
        Settle(args, results[i], ret, t, Members(order[..i]));
      }
    }
  }
}
