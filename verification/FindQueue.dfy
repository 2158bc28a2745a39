// The reference table's find queue: lookups answered by later batches, over a
// table that does not change and has at least one empty slot.
module FindQueue {
  import opened Probing
  import opened Buckets
  import opened Pipeline

  datatype Request = Request(key: nat, id: nat)
  datatype FindItem = FindItem(key: nat, keyId: nat, idx: nat)
  datatype FindResult = FindResult(value: nat, id: nat)

  ghost predicate HasHole(t: seq<Slot>) {
    exists i | 0 <= i < |t| :: t[i].key == 0
  }

  ghost function Need(L: Layout, t: seq<Slot>, reqs: seq<Request>): (need: seq<nat>)
    requires L.Bucketed() && |t| == L.len
    ensures |need| == |reqs|
  {
    seq(|reqs|, i requires 0 <= i < |reqs| => Visits(L, t, reqs[i].key))
  }

  ghost predicate MirrorsOne(L: Layout, t: seq<Slot>, reqs: seq<Request>, q: Ticket, item: FindItem)
    requires L.Bucketed() && |t| == L.len
  {
    && q.src < |reqs| && OnTrack(L, t, reqs[q.src].key, q.done) && Passed(L, t, reqs[q.src].key, 4 * q.done)
    && item == FindItem(reqs[q.src].key, reqs[q.src].id, Base(L, reqs[q.src].key, q.done))
  }

  ghost predicate Mirrors(L: Layout, t: seq<Slot>, reqs: seq<Request>, q: seq<Ticket>, items: seq<FindItem>)
    requires L.Bucketed() && |t| == L.len
  {
    |q| == |items| && forall i | 0 <= i < |q| :: MirrorsOne(L, t, reqs, q[i], items[i])
  }

  // All requests ever submitted, the pipe they are in, and the ring's items.
  ghost predicate Finding(L: Layout, t: seq<Slot>, reqs: seq<Request>, p: Pipe, items: seq<FindItem>)
    requires L.Bucketed() && |t| == L.len
  {
    p.next == |reqs| && Inv(Need(L, t, reqs), p) && Mirrors(L, t, reqs, p.queue, items)
  }

  // What the answered requests put into the result array: hits only.
  ghost function Emitted(L: Layout, t: seq<Slot>, reqs: seq<Request>, out: seq<nat>): seq<FindResult>
    requires L.Bucketed() && |t| == L.len && forall i | 0 <= i < |out| :: out[i] < |reqs|
  {
    if out == [] then []
    else
      var n := |out| - 1;
      Emitted(L, t, reqs, out[..n]) + EmittedBy(L, t, reqs[out[n]])
  }

  ghost function EmittedBy(L: Layout, t: seq<Slot>, r: Request): seq<FindResult>
    requires L.Bucketed() && |t| == L.len
  {
    match Find(L, t, r.key)
    case Found(v) => [FindResult(v, r.id)]
    case _ => []
  }

  // On a well-formed table a result is emitted exactly for a stored key, with
  // its stored value.
  lemma EmittedMeaning(L: Layout, t: seq<Slot>, r: Request)
    requires L.Bucketed() && WF(L, t) && r.key != 0
    ensures EmittedBy(L, t, r) == if r.key in ToMap(t) then [FindResult(ToMap(t)[r.key], r.id)] else []
  {
    hide NoGap, Unique, EmptyIsZero, Find;
    FindMeaning(L, t, r.key);
  }

  // With a hole somewhere, the buckets alone decide: no visit bound is needed.
  lemma HoleDecides(L: Layout, t: seq<Slot>, k: nat, n: nat)
    requires L.Bucketed() && |t| == L.len && HasHole(t) && 4 * n < L.len && Passed(L, t, k, 4 * n)
    ensures Decides(L, t, k, n) <==> FirstIn(t, Base(L, k, n), k) < 4 || FirstIn(t, Base(L, k, n), 0) < 4
  {
    hide FirstFrom;
    if 4 * n + 4 >= L.len {
      var i :| 0 <= i < |t| && t[i].key == 0;
      BucketSlots(L, k, n, i);
    }
  }

  // A lookup of the reference pipeline ends exactly if its key is stored or the
  // table has a hole.
  lemma AnswerableIff(L: Layout, t: seq<Slot>, k: nat)
    requires L.Bucketed() && |t| == L.len
    ensures (exists n: nat :: 4 * n < L.len && BucketAnswers(L, t, k, n)) <==> Holds(t, k) || HasHole(t)
  {
    hide FirstFrom;
    if Holds(t, k) || HasHole(t) {
      var i :| 0 <= i < |t| && (t[i].key == k || t[i].key == 0);
      var n := L.Dist(k, i) / 4;
      BucketSlots(L, k, n, i);
      assert BucketAnswers(L, t, k, n);
    }
  }

  ghost predicate BucketAnswers(L: Layout, t: seq<Slot>, k: nat, n: nat)
    requires L.Bucketed() && |t| == L.len && 4 * n < L.len
  {
    FirstIn(t, Base(L, k, n), k) < 4 || FirstIn(t, Base(L, k, n), 0) < 4
  }

  lemma EmptyStart(L: Layout, t: seq<Slot>)
    requires L.Bucketed() && |t| == L.len
    ensures Finding(L, t, [], START, [])
  {
    hide Inv;
    StartInv(Need(L, t, []));
  }

  lemma PushFinds(L: Layout, t: seq<Slot>, reqs: seq<Request>, p: Pipe, items: seq<FindItem>, r: Request)
    requires L.Bucketed() && |t| == L.len && Finding(L, t, reqs, p, items)
    ensures Finding(L, t, reqs + [r], Push(p), items + [FindItem(r.key, r.id, L.home(r.key))])
  {
    hide Inv, Passed;
    assert Need(L, t, reqs + [r]) == Need(L, t, reqs) + [Visits(L, t, r.key)];
    InvExtend(Need(L, t, reqs), [Visits(L, t, r.key)], p);
    PushKeeps(Need(L, t, reqs + [r]), p);
    var q, its := p.queue + [Ticket(p.next, 0)], items + [FindItem(r.key, r.id, L.home(r.key))];
    assert Passed(L, t, r.key, 0) by { NothingPassed(L, t, r.key); }
    forall i | 0 <= i < |q| ensures MirrorsOne(L, t, reqs + [r], q[i], its[i]) {
      if i < |p.queue| { assert MirrorsOne(L, t, reqs, p.queue[i], items[i]); }
    }
  }

  // What a pop of the oldest lookup does, by what its bucket shows.
  lemma PopFinds(L: Layout, t: seq<Slot>, reqs: seq<Request>, p: Pipe, items: seq<FindItem>)
    returns (f: Ticket, r: Request, p': Pipe)
    requires L.Bucketed() && |t| == L.len && HasHole(t) && Finding(L, t, reqs, p, items) && items != []
    ensures |items| == |p.queue| && f == p.queue[0] && f.src < |reqs| && r == reqs[f.src] && 4 * f.done < L.len
    ensures items[0] == FindItem(r.key, r.id, Base(L, r.key, f.done))
    ensures p.pops < p'.pops <= Sum(Need(L, t, reqs))
    ensures var b := Base(L, r.key, f.done);
      if FirstIn(t, b, r.key) < 4 || FirstIn(t, b, 0) < 4 then
        && p'.out == p.out + [f.src] && |p'.queue| == |p.queue| - 1 && Finding(L, t, reqs, p', items[1..])
        && EmittedBy(L, t, r) == if FirstIn(t, b, r.key) < 4 then [FindResult(t[b + FirstIn(t, b, r.key)].val, r.id)] else []
      else
        && p'.out == p.out && |p'.queue| == |p.queue| && 4 * f.done + 4 < L.len
        && Finding(L, t, reqs, p', items[1..] + [FindItem(r.key, r.id, Base(L, r.key, f.done + 1))])
  {
    hide Inv, Passed, FirstIn, HasHole, VisitsFrom;
    f := p.queue[0];
    assert MirrorsOne(L, t, reqs, f, items[0]);
    r := reqs[f.src];
    p' := Pop(Need(L, t, reqs), p);
    HoleDecides(L, t, r.key, f.done);
    VisitStep(L, t, r.key, f.done);
    PopKeeps(Need(L, t, reqs), p);
    PopsBounded(Need(L, t, reqs), p');
    PopMirrors(L, t, reqs, p, items);
  }

  lemma PopMirrors(L: Layout, t: seq<Slot>, reqs: seq<Request>, p: Pipe, items: seq<FindItem>)
    requires L.Bucketed() && |t| == L.len && Mirrors(L, t, reqs, p.queue, items) && p.queue != []
    ensures Mirrors(L, t, reqs, p.queue[1..], items[1..])
    ensures var f := p.queue[0]; var k := reqs[f.src].key;
      !Decides(L, t, k, f.done) ==>
        && 4 * f.done + 4 < L.len
        && Mirrors(L, t, reqs, p.queue[1..] + [Ticket(f.src, f.done + 1)],
                   items[1..] + [FindItem(k, reqs[f.src].id, Base(L, k, f.done + 1))])
  {
    hide Passed, FirstIn, VisitsFrom;
    var f := p.queue[0];
    assert MirrorsOne(L, t, reqs, f, items[0]);
    forall i | 0 <= i < |p.queue| - 1 ensures MirrorsOne(L, t, reqs, p.queue[1..][i], items[1..][i]) {
      assert MirrorsOne(L, t, reqs, p.queue[i + 1], items[i + 1]);
    }
    var k := reqs[f.src].key;
    if !Decides(L, t, k, f.done) {
      VisitStep(L, t, k, f.done);
      VisitPasses(L, t, k, f.done);
      assert 4 * (f.done + 1) == 4 * f.done + 4;
      assert MirrorsOne(L, t, reqs, Ticket(f.src, f.done + 1), FindItem(k, reqs[f.src].id, Base(L, k, f.done + 1)));
    }
  }

  lemma EmittedNone(L: Layout, t: seq<Slot>, reqs: seq<Request>, none: seq<FindResult>)
    requires L.Bucketed() && |t| == L.len && none == []
    ensures none == Emitted(L, t, reqs, [])
  {
  }

  lemma EmittedAppend(L: Layout, t: seq<Slot>, reqs: seq<Request>, out: seq<nat>, s: nat)
    requires L.Bucketed() && |t| == L.len && s < |reqs| && forall i | 0 <= i < |out| :: out[i] < |reqs|
    ensures Emitted(L, t, reqs, out + [s]) == Emitted(L, t, reqs, out) + EmittedBy(L, t, reqs[s])
  {
    assert (out + [s])[..|out|] == out;
  }

  lemma {:induction false} EmittedExtend(L: Layout, t: seq<Slot>, reqs: seq<Request>, more: seq<Request>, out: seq<nat>)
    requires L.Bucketed() && |t| == L.len && forall i | 0 <= i < |out| :: out[i] < |reqs|
    ensures Emitted(L, t, reqs + more, out) == Emitted(L, t, reqs, out)
  {
    if out != [] { EmittedExtend(L, t, reqs, more, out[..|out| - 1]); }
  }

  // Submitted, answered and queued add up; answered lookups came out in an order
  // in which none overtook an earlier one with no more buckets to visit.
  lemma FindCounts(L: Layout, t: seq<Slot>, reqs: seq<Request>, p: Pipe, items: seq<FindItem>)
    requires L.Bucketed() && |t| == L.len && Finding(L, t, reqs, p, items)
    ensures |reqs| == |p.out| + |items|
    ensures forall i | 0 <= i < |p.out| :: p.out[i] < |reqs|
    ensures NoOvertaking(Need(L, t, reqs), p.out)
    ensures multiset(Srcs(p.queue)) + multiset(p.out) == multiset(Range(|reqs|))
  {
    Occupancy(p);
  }
}
