// The asynchronous reference table: inserts go through one ring, lookups
// through another, and each call finishes work submitted by earlier ones.
module CasTable {
  import opened Masks
  import opened Probing
  import opened Buckets
  import opened Rings
  import opened InsertQueue
  import FQ = FindQueue
  import P = Pipeline

  datatype InsItem = InsItem(key: nat, val: nat, keyId: nat, idx: nat)
  datatype Arg = Arg(key: nat, id: nat, value: nat)

  function Home(hash: nat -> nat, capacity: nat, k: nat): nat
    requires capacity > 0
  {
    var idx := BitAnd(hash(k), capacity - 1);
    idx - BitAnd(idx, 3)
  }

  lemma HomeAligned(hash: nat -> nat, bits: nat, k: nat)
    requires bits >= 2
    ensures var h, c := Home(hash, Pow2(bits), k), Pow2(bits);
      h == hash(k) % c - hash(k) % c % 4 && h < c && h % 4 == 0
  {
    hide BitAnd, Pow2;
    MaskIsMod(hash(k), bits);
    LowTwoBits(BitAnd(hash(k), Pow2(bits) - 1));
    RoundsDown(hash(k) % Pow2(bits));
  }

  function LayoutOf(hash: nat -> nat, capacity: nat): Layout
    requires capacity > 0
  {
    Layout(capacity, k => Home(hash, capacity, k))
  }

  lemma LayoutBucketed(hash: nat -> nat, bits: nat)
    requires bits >= 2
    ensures var L := LayoutOf(hash, Pow2(bits)); L.Bucketed() && L.len == Pow2(bits)
    ensures forall k :: LayoutOf(hash, Pow2(bits)).home(k) == Home(hash, Pow2(bits), k)
  {
    WholeBuckets(bits);
    var L := LayoutOf(hash, Pow2(bits));
    forall k ensures L.home(k) < L.len && L.home(k) % 4 == 0 { HomeAligned(hash, bits, k); }
  }

  // First slot from i up to end that is empty or holds k.
  function Walk(t: seq<Slot>, i: nat, end: nat, k: nat): (r: nat)
    requires i <= end <= |t|
    ensures i <= r <= end && (r < end ==> t[r].key == 0 || t[r].key == k)
    decreases end - i
  {
    if i == end || t[i].key == 0 || t[i].key == k then i else Walk(t, i + 1, end, k)
  }

  function ItemOf(L: Layout, subs: seq<Sub>, ids: seq<nat>, x: Tag): InsItem
    requires L.Bucketed() && x.src < |subs| == |ids| && 4 * x.n < L.len
  {
    InsItem(subs[x.src].key, subs[x.src].val, ids[x.src], Base(L, subs[x.src].key, x.n))
  }

  ghost predicate Mirrors(L: Layout, subs: seq<Sub>, ids: seq<nat>, tags: seq<Tag>, items: seq<InsItem>)
    requires L.Bucketed()
  {
    |tags| == |items| && |ids| == |subs| && forall i | 0 <= i < |tags| ::
      tags[i].src < |subs| && 4 * tags[i].n < L.len && items[i] == ItemOf(L, subs, ids, tags[i])
  }

  lemma MirrorsFront(L: Layout, subs: seq<Sub>, ids: seq<nat>, tags: seq<Tag>, items: seq<InsItem>)
    requires L.Bucketed() && Mirrors(L, subs, ids, tags, items) && tags != []
    ensures |subs| == |ids| && |tags| == |items|
    ensures tags[0].src < |subs| && 4 * tags[0].n < L.len && items[0] == ItemOf(L, subs, ids, tags[0])
    ensures Mirrors(L, subs, ids, tags[1..], items[1..])
    ensures 4 * tags[0].n + 4 < L.len ==>
      Mirrors(L, subs, ids, tags[1..] + [Tag(tags[0].src, tags[0].n + 1)],
              items[1..] + [items[0].(idx := Base(L, subs[tags[0].src].key, tags[0].n + 1))])
  {
  }

  lemma MirrorsSubmit(L: Layout, subs: seq<Sub>, ids: seq<nat>, tags: seq<Tag>, items: seq<InsItem>, x: Sub, id: nat)
    requires L.Bucketed() && Mirrors(L, subs, ids, tags, items)
    ensures Mirrors(L, subs + [x], ids + [id], tags + [Tag(|subs|, 0)], items + [InsItem(x.key, x.val, id, L.home(x.key))])
  {
  }

  lemma FreshState(L: Layout, t: seq<Slot>)
    requires L.Bucketed() && |t| == L.len && forall i | 0 <= i < |t| :: t[i] == EMPTY
    ensures WF(L, t) && Unique(t) && Inv(L, t, ViewOf(t, false, 0), [], []) && |SubKeys([])| == 0
    ensures Mirrors(L, [], [], [], []) && FQ.Finding(L, t, [], P.START, [])
  {
    hide NoGap, Unique, EmptyIsZero, FQ.Finding, Inv;
    ZeroedTable(L, t);
    NothingPending(L, t);
    FQ.EmptyStart(L, t);
  }

  class CasHashTable {
    ghost const bits: nat
    ghost const layout: Layout
    const capacity: nat
    const hash: nat -> nat
    const hashtable: array<Slot>
    const insertQueue: Ring<InsItem>
    const findQueue: Ring<FQ.FindItem>
    var emptySlot: nat
    var emptySlotExists: bool

    // Everything submitted, in order, and the queued part of it.
    ghost var subs: seq<Sub>
    ghost var ids: seq<nat>
    ghost var tags: seq<Tag>

    // Every lookup submitted, and the pipe they go through.
    ghost var reqs: seq<FQ.Request>
    ghost var pipe: P.Pipe

    ghost predicate Shape()
      reads this
    {
      && bits >= 2 && capacity == Pow2(bits) && hashtable.Length == capacity
      && layout.len == capacity && layout.Bucketed() && (forall k :: layout.home(k) == Home(hash, capacity, k))
    }

    // The table, with key 0 in its separate slot.
    ghost function View(): map<nat, nat>
      reads this, hashtable
      requires Unique(hashtable[..])
    {
      ViewOf(hashtable[..], emptySlotExists, emptySlot)
    }

    ghost predicate Valid()
      reads this, hashtable, insertQueue, insertQueue.items
    {
      && Shape() && WF(layout, hashtable[..]) && insertQueue.Valid()
      && Inv(layout, hashtable[..], View(), subs, tags)
      && Mirrors(layout, subs, ids, tags, insertQueue.contents)
      && |SubKeys(subs)| <= capacity
      && |tags| < insertQueue.size
    }

    // The lookups in flight, over the table as it stands.
    ghost predicate FindsValid()
      reads this, hashtable, findQueue, findQueue.items
    {
      && Shape() && findQueue.Valid()
      && FQ.Finding(layout, hashtable[..], reqs, pipe, findQueue.contents)
    }

    constructor (ghost p: nat, c: nat, h: nat -> nat, ghost qp: nat, queueSize: nat)
      requires p >= 2 && c == Pow2(p) && 1 <= qp <= 31 && queueSize == Pow2(qp)
      ensures Valid() && FindsValid() && capacity == c && subs == [] && reqs == []
      ensures insertQueue.size == findQueue.size == queueSize
    {
      hide WF, Unique, FQ.Finding, Inv, LayoutOf, Home, SubKeys, ViewOf, Mirrors, Pow2;
      bits, capacity, hash := p, c, h;
      layout := LayoutOf(h, c);
      hashtable := new Slot[c](_ => EMPTY);
      insertQueue := new Ring<InsItem>(qp, queueSize);
      findQueue := new Ring<FQ.FindItem>(qp, queueSize);
      emptySlot, emptySlotExists := 0, false;
      subs, ids, tags := [], [], [];
      reqs, pipe := [], P.START;
      new;
      LayoutBucketed(h, p);
      FreshState(layout, hashtable[..]);
    }

    ghost function Work(): nat
      reads this
    {
      Slack(tags, capacity)
    }

    // `try_insert`: from slot i to the end of its bucket, claim the first empty
    // slot or overwrite the key's own.
    method TryInsert(i: nat, end: nat, key: nat, val: nat) returns (done: bool)
      requires i <= end <= hashtable.Length && key != 0
      requires forall a | i <= a < end :: hashtable[a].key == 0 ==> hashtable[a] == EMPTY
      modifies hashtable
      ensures var w := Walk(old(hashtable[..]), i, end, key);
        && (done <==> w < end)
        && hashtable[..] == if done then old(hashtable[..])[w := Slot(key, val)] else old(hashtable[..])
    {
      var idx := i;
      while idx < end
        invariant i <= idx <= end && hashtable[..] == old(hashtable[..])
        invariant Walk(old(hashtable[..]), i, end, key) == Walk(old(hashtable[..]), idx, end, key)
      {
        if hashtable[idx].key == 0 && hashtable[idx] == EMPTY {
          hashtable[idx] := Slot(key, val);
          return true;
        }
        if hashtable[idx].key == key {
          hashtable[idx] := Slot(key, val);
          return true;
        }
        idx := idx + 1;
      }
      return false;
    }

    // Loads the cache line at idx: the first slot with the key and the first hole
    // (4 for none), from the lowest bits of the two comparison masks.
    method Snapshot(idx: nat, key: nat) returns (keySlot: nat, emptySlot: nat)
      requires idx + 4 <= hashtable.Length
      ensures keySlot == FirstIn(hashtable[..], idx, key) && emptySlot == FirstIn(hashtable[..], idx, 0)
    {
      hide FirstFrom;
      var cacheline := LoadLine(hashtable[..], idx);
      CompareMeaning(hashtable[..], idx, key);
      CompareMeaning(hashtable[..], idx, 0);
      var keyCmp := KeyCompare(cacheline, key);
      keySlot := if keyCmp > 0 then TrailingZeros(keyCmp) / 2 else 4;
      var eptCmp := KeyCompare(cacheline, 0);
      emptySlot := if eptCmp != 0 then TrailingZeros(eptCmp) / 2 else 4;
    }

    // `__insert_branched`: match, else skip to the first hole of the snapshot,
    // else re-queue at the next bucket.
    method InsertBranched(q: InsItem, ghost n: nat) returns (retry: bool)
      requires Shape() && WF(layout, hashtable[..]) && insertQueue.Valid()
      requires q.key != 0 && 4 * n < capacity && q.idx == Base(layout, q.key, n)
      requires BucketInsert(layout, hashtable[..], q.key, q.val, n).1
               || (4 * n + 4 < capacity && |insertQueue.contents| < insertQueue.size)
      modifies hashtable, insertQueue`head, insertQueue`contents, insertQueue.items
      ensures insertQueue.Valid()
      ensures (hashtable[..], !retry) == BucketInsert(layout, old(hashtable[..]), q.key, q.val, n)
      ensures insertQueue.contents == if retry
        then old(insertQueue.contents) + [q.(idx := Base(layout, q.key, n + 1))]
        else old(insertQueue.contents)
    {
      hide NoGap, Unique, FirstIn;
      var idx := q.idx;
      var keySlot, emptySlot := Snapshot(idx, q.key);
      if keySlot < 4 {
        hashtable[idx + keySlot] := Slot(hashtable[idx + keySlot].key, q.val);
        return false;
      }
      if emptySlot == 4 {
        MaskSmall(idx + 4, bits);
        idx := BitAnd(idx + 4, capacity - 1);
        insertQueue.Push(InsItem(q.key, q.val, q.keyId, idx));
        return true;
      }
      var done := TryInsert(idx + emptySlot, idx + 4, q.key, q.val);
      return false;
    }

    // `__insert_one`: key 0 has its own slot.
    method InsertOne(q: InsItem, ghost n: nat) returns (retry: bool)
      requires Shape() && WF(layout, hashtable[..]) && insertQueue.Valid()
      requires q.key != 0 ==> 4 * n < capacity && q.idx == Base(layout, q.key, n)
      requires q.key == 0 || BucketInsert(layout, hashtable[..], q.key, q.val, n).1
               || (4 * n + 4 < capacity && |insertQueue.contents| < insertQueue.size)
      modifies this`emptySlot, this`emptySlotExists, hashtable
      modifies insertQueue`head, insertQueue`contents, insertQueue.items
      ensures insertQueue.Valid()
      ensures q.key == 0 ==> !retry && emptySlotExists && emptySlot == q.val && hashtable[..] == old(hashtable[..])
      ensures q.key != 0 ==> emptySlotExists == old(emptySlotExists) && emptySlot == old(emptySlot)
      ensures q.key != 0 ==> (hashtable[..], !retry) == BucketInsert(layout, old(hashtable[..]), q.key, q.val, n)
      ensures insertQueue.contents == if retry
        then old(insertQueue.contents) + [q.(idx := Base(layout, q.key, n + 1))]
        else old(insertQueue.contents)
    {
      if q.key == 0 {
        emptySlot, emptySlotExists := q.val, true;
        retry := false;
      } else {
        retry := InsertBranched(q, n);
      }
    }

    // One round of the pop loop: the insert, then the advance of the tail.
    method PopOnce() returns (retry: bool)
      requires Valid() && tags != []
      modifies this`emptySlot, this`emptySlotExists, this`tags, hashtable, insertQueue, insertQueue.items
      ensures Valid()
      ensures Work() < old(Work()) && |tags| == if retry then |old(tags)| else |old(tags)| - 1
    {
      hide NoGap, Unique, EmptyIsZero, Inv, Mirrors, BucketInsert, Slack, ViewOf;
      ghost var t, f, items := hashtable[..], tags[0], insertQueue.contents;
      MirrorsFront(layout, subs, ids, tags, insertQueue.contents);
      ghost var t', tags', again := PopStep(layout, t, emptySlotExists, emptySlot, subs, tags);
      var q := insertQueue.items[insertQueue.tail];
      retry := InsertOne(q, f.n);
      var slot := insertQueue.Pop();
      assert hashtable[..] == t';
      SlackPop(tags, capacity);
      if retry {
        assert insertQueue.contents == items[1..] + [q.(idx := Base(layout, q.key, f.n + 1))];
      }
      tags := tags';
    }

    // `pop_insert_queue`: pops until one insert has taken effect.
    method PopInsertQueue()
      requires Valid() && tags != []
      modifies this`emptySlot, this`emptySlotExists, this`tags, hashtable, insertQueue, insertQueue.items
      ensures Valid() && |tags| == |old(tags)| - 1
    {
      hide Inv, Mirrors, NoGap, Unique, EmptyIsZero, Slack;
      var retry := PopOnce();
      while retry
        invariant Valid() && |tags| == if retry then |old(tags)| else |old(tags)| - 1
        decreases Work()
      {
        retry := PopOnce();
      }
    }

    method GetInsertQueueSize() returns (n: nat)
      requires Valid()
      ensures n == |tags|
    {
      hide Inv, NoGap, Unique, EmptyIsZero;
      n := insertQueue.Count();
    }

    method AddToInsertQueue(data: Arg)
      requires Valid() && |tags| < insertQueue.size - 1 && |SubKeys(subs + [Sub(data.key, data.value)])| <= capacity
      modifies this`subs, this`ids, this`tags, insertQueue, insertQueue.items
      ensures Valid() && |tags| == |old(tags)| + 1
      ensures subs == old(subs) + [Sub(data.key, data.value)]
    {
      hide Inv, Mirrors, NoGap, Unique, EmptyIsZero;
      ghost var x := Sub(data.key, data.value);
      SubmitKeeps(layout, hashtable[..], View(), subs, tags, x);
      MirrorsSubmit(layout, subs, ids, tags, insertQueue.contents, x, data.id);
      var idx := BitAnd(hash(data.key), capacity - 1);
      idx := idx - BitAnd(idx, 3);
      insertQueue.Push(InsItem(data.key, data.value, data.id, idx));
      tags := tags + [Tag(|subs|, 0)];
      subs, ids := subs + [x], ids + [data.id];
    }

    // `insert_batch`: once the ring is full each input finishes one earlier insert.
    method InsertBatch(kp: seq<Arg>)
      requires Valid() && |SubKeys(subs + SubsOf(kp))| <= capacity
      modifies this`subs, this`ids, this`tags, this`emptySlot, this`emptySlotExists, hashtable, insertQueue, insertQueue.items
      ensures Valid() && subs == old(subs) + SubsOf(kp)
      ensures |subs| == |old(subs)| + |kp| && forall i | 0 <= i < |kp| ::
        subs[|old(subs)| + i].key == kp[i].key && subs[|old(subs)| + i].val == kp[i].value
    {
      hide Inv, Mirrors, NoGap, Unique, EmptyIsZero;
      ghost var before := subs;
      var n := GetInsertQueueSize();
      if n >= insertQueue.size - 1 {
        for i := 0 to |kp|
          invariant Valid() && subs == before + SubsOf(kp[..i]) && |tags| == insertQueue.size - 1
        {
          SubsPrefix(before, kp, i);
          PopInsertQueue();
          AddToInsertQueue(kp[i]);
        }
      } else {
        for i := 0 to |kp|
          invariant Valid() && subs == before + SubsOf(kp[..i])
        {
          SubsPrefix(before, kp, i);
          var n := GetInsertQueueSize();
          if n >= insertQueue.size - 1 { PopInsertQueue(); }
          AddToInsertQueue(kp[i]);
        }
      }
      assert kp[..|kp|] == kp;
    }

    // `flush_insert_queue`: afterwards the table is what inserting everything
    // ever submitted, in order, gives.
    method FlushInsertQueue()
      requires Valid()
      modifies this`emptySlot, this`emptySlotExists, this`tags, hashtable, insertQueue, insertQueue.items
      ensures Valid() && tags == [] && insertQueue.contents == []
      ensures View() == Replay(subs) && subs == old(subs)
      ensures forall s | 0 <= s < |subs| && (forall i | s < i < |subs| :: subs[i].key != subs[s].key) ::
        if subs[s].key == 0 then emptySlotExists && emptySlot == subs[s].val
        else Slot(subs[s].key, subs[s].val) in hashtable[..]
      ensures forall i | 0 <= i < hashtable.Length && hashtable[i].key != 0 ::
        exists s | 0 <= s < |subs| :: subs[s].key == hashtable[i].key
      ensures emptySlotExists ==> exists s | 0 <= s < |subs| :: subs[s].key == 0
    {
      hide Inv, NoGap, Unique, EmptyIsZero;
      var n := GetInsertQueueSize();
      while n > 0
        invariant Valid() && n == |tags|
      {
        PopInsertQueue();
        n := n - 1;
      }
      Flushed(layout, hashtable[..], View(), subs);
      FlushedMeaning(hashtable[..], emptySlotExists, emptySlot, subs);
      assert forall i | 0 <= i < hashtable.Length :: hashtable[..][i] == hashtable[i];
    }

    // ----- Lookups

    // `hash & HT_BUCKET_MASK`
    method HashToBucket(key: nat) returns (idx: nat)
      requires Shape()
      ensures idx == layout.home(key)
    {
      BucketMaskIsHome(hash, bits, key);
      idx := BitAnd(hash(key), capacity - 4);
    }

    method NextBucket(idx: nat, ghost key: nat, ghost n: nat) returns (next: nat)
      requires Shape() && 4 * n + 4 < capacity && idx == Base(layout, key, n)
      ensures next == Base(layout, key, n + 1)
    {
      BucketMaskWraps(idx + 4, bits);
      next := BitAnd(idx + 4, capacity - 4);
    }

    method AddToFindQueue(data: Arg)
      requires FindsValid() && |findQueue.contents| < findQueue.size
      modifies this`reqs, this`pipe, findQueue, findQueue.items
      ensures FindsValid() && reqs == old(reqs) + [FQ.Request(data.key, data.id)]
      ensures pipe.out == old(pipe.out) && |findQueue.contents| == |old(findQueue.contents)| + 1
    {
      hide FQ.Finding;
      ghost var r := FQ.Request(data.key, data.id);
      FQ.PushFinds(layout, hashtable[..], reqs, pipe, findQueue.contents, r);
      var idx := HashToBucket(data.key);
      findQueue.Push(FQ.FindItem(data.key, data.id, idx));
      reqs, pipe := reqs + [r], P.Push(pipe);
    }

    // One pass of the `retry` label: the oldest lookup is answered, with a hit or
    // without, or re-queued at its next bucket.
    method FindOnce() returns (retry: bool, found: bool, result: FQ.FindResult, ghost s: nat)
      requires FindsValid() && FQ.HasHole(hashtable[..])
      requires 0 < |findQueue.contents| < findQueue.size
      modifies this`pipe, findQueue, findQueue.items
      ensures FindsValid() && s < |reqs|
      ensures old(pipe.pops) < pipe.pops <= P.Sum(FQ.Need(layout, hashtable[..], reqs))
      ensures pipe.out == if retry then old(pipe.out) else old(pipe.out) + [s]
      ensures |findQueue.contents| == if retry then |old(findQueue.contents)| else |old(findQueue.contents)| - 1
      ensures !retry ==> FQ.EmittedBy(layout, hashtable[..], reqs[s]) == if found then [result] else []
    {
      hide FQ.Finding, FQ.HasHole, FirstIn, FQ.EmittedBy, WF;
      ghost var f, r, p' := FQ.PopFinds(layout, hashtable[..], reqs, pipe, findQueue.contents);
      s := f.src;
      var q := findQueue.items[findQueue.tail];
      var slot := findQueue.Pop();
      var keySlot, emptySlot := Snapshot(q.idx, q.key);
      retry, found, result := false, false, FQ.FindResult(0, 0);
      if keySlot < 4 {
        found, result := true, FQ.FindResult(hashtable[q.idx + keySlot].val, q.keyId);
      } else if emptySlot == 4 {
        var idx := NextBucket(q.idx, q.key, f.done);
        findQueue.Push(FQ.FindItem(q.key, q.keyId, idx));
        retry := true;
      }
      pipe := p';
    }

    // The fast path of `find_batch`, taken when the ring holds size - 1 lookups:
    // every input finishes one earlier lookup and takes its place. The hits go to
    // vp from its first entry on, and vp.first grows by their number.
    method FindBatch(kp: seq<Arg>, vp: array<FQ.FindResult>, vpFirst: nat) returns (first: nat, ghost answered: seq<nat>)
      requires FindsValid() && FQ.HasHole(hashtable[..]) && findQueue.size >= 2
      requires |findQueue.contents| == findQueue.size - 1 && vp.Length >= |kp|
      modifies this`reqs, this`pipe, findQueue, findQueue.items, vp
      ensures FindsValid() && |findQueue.contents| == findQueue.size - 1
      ensures reqs == old(reqs) + RequestsOf(kp)
      ensures forall i | 0 <= i < |kp| ::
        reqs[|old(reqs)| + i].key == kp[i].key && reqs[|old(reqs)| + i].id == kp[i].id
      ensures |answered| == |kp| && pipe.out == old(pipe.out) + answered && forall i | 0 <= i < |answered| :: answered[i] < |reqs|
      ensures var hits := FQ.Emitted(layout, hashtable[..], reqs, answered);
        first == vpFirst + |hits| && |hits| <= |kp| && vp[..|hits|] == hits
    {
      hide FQ.Finding, FQ.HasHole, FQ.Emitted, WF;
      var at, notFound := 0, 0;
      answered := [];
      FQ.EmittedNone(layout, hashtable[..], reqs, vp[..0]);
      for i := 0 to |kp|
        invariant FindsValid() && |findQueue.contents| == findQueue.size - 1
        invariant reqs == old(reqs) + RequestsOf(kp[..i]) && |answered| == i
        invariant pipe.out == old(pipe.out) + answered && forall a | 0 <= a < |answered| :: answered[a] < |reqs|
        invariant at + notFound == i && vp[..at] == FQ.Emitted(layout, hashtable[..], reqs, answered)
      {
        var hit: bool;
        hit, at, answered := Exchange(kp[i], vp, at, answered);
        if !hit { notFound := notFound + 1; }
        RequestsPrefix(kp, i);
      }
      assert kp[..|kp|] == kp;
      first := vpFirst + (|kp| - notFound);
    }

    // One input: an earlier lookup comes out, the new one goes in.
    method Exchange(data: Arg, vp: array<FQ.FindResult>, start: nat, ghost answered: seq<nat>)
      returns (hit: bool, at: nat, ghost answered': seq<nat>)
      requires FindsValid() && FQ.HasHole(hashtable[..]) && start < vp.Length
      requires 0 < |findQueue.contents| < findQueue.size && forall a | 0 <= a < |answered| :: answered[a] < |reqs|
      requires vp[..start] == FQ.Emitted(layout, hashtable[..], reqs, answered)
      modifies this`reqs, this`pipe, findQueue, findQueue.items, vp
      ensures FindsValid() && |findQueue.contents| == |old(findQueue.contents)|
      ensures reqs == old(reqs) + [FQ.Request(data.key, data.id)]
      ensures |answered'| == |answered| + 1 && forall a | 0 <= a < |answered'| :: answered'[a] < |reqs|
      ensures answered' == answered + answered'[|answered|..] && pipe.out == old(pipe.out) + answered'[|answered|..]
      ensures at == (if hit then start + 1 else start) && at <= vp.Length
      ensures vp[..at] == FQ.Emitted(layout, hashtable[..], reqs, answered')
    {
      hide FQ.Finding, FQ.HasHole, FQ.Emitted, FQ.EmittedBy, WF;
      ghost var s: nat;
      hit, at, s := ResolveOne(vp, start);
      FQ.EmittedAppend(layout, hashtable[..], reqs, answered, s);
      answered' := answered + [s];
      FQ.EmittedExtend(layout, hashtable[..], reqs, [FQ.Request(data.key, data.id)], answered');
      AddToFindQueue(data);
    }

    // The `retry` loop: pops until one earlier lookup is answered.
    method ResolveOne(vp: array<FQ.FindResult>, start: nat) returns (hit: bool, at: nat, ghost s: nat)
      requires FindsValid() && FQ.HasHole(hashtable[..]) && start < vp.Length
      requires 0 < |findQueue.contents| < findQueue.size
      modifies this`pipe, findQueue, findQueue.items, vp
      ensures FindsValid() && |findQueue.contents| == |old(findQueue.contents)| - 1
      ensures s < |reqs| && pipe.out == old(pipe.out) + [s]
      ensures at == (if hit then start + 1 else start) && at <= vp.Length
      ensures vp[..at] == old(vp[..start]) + FQ.EmittedBy(layout, hashtable[..], reqs[s])
    {
      hide FQ.Finding, FQ.HasHole, FQ.EmittedBy, WF;
      at := start;
      var retry, result;
      retry, hit, result, s := FindOnce();
      while retry
        invariant FindsValid() && s < |reqs| && vp[..] == old(vp[..])
        invariant pipe.pops <= P.Sum(FQ.Need(layout, hashtable[..], reqs))
        invariant pipe.out == if retry then old(pipe.out) else old(pipe.out) + [s]
        invariant |findQueue.contents| == if retry then |old(findQueue.contents)| else |old(findQueue.contents)| - 1
        invariant !retry ==> FQ.EmittedBy(layout, hashtable[..], reqs[s]) == if hit then [result] else []
        decreases P.Sum(FQ.Need(layout, hashtable[..], reqs)) - pipe.pops
      {
        retry, hit, result, s := FindOnce();
      }
      if hit {
        vp[start] := result;
        at := start + 1;
      }
    }
  }

  function RequestsOf(kp: seq<Arg>): seq<FQ.Request> {
    seq(|kp|, i requires 0 <= i < |kp| => FQ.Request(kp[i].key, kp[i].id))
  }

  lemma RequestsPrefix(kp: seq<Arg>, i: nat)
    requires i < |kp|
    ensures RequestsOf(kp[..i + 1]) == RequestsOf(kp[..i]) + [FQ.Request(kp[i].key, kp[i].id)]
  {
  }

  // `(capacity - 1) & ~3` picks the same bucket as clearing the low bits late.
  lemma BucketMaskIsHome(hash: nat -> nat, bits: nat, k: nat)
    requires bits >= 2
    ensures Pow2(bits) >= 4 && BitAnd(hash(k), Pow2(bits) - 4) == Home(hash, Pow2(bits), k)
  {
    hide BitAnd;
    assert Pow2(bits) == 4 * Pow2(bits - 2);
    BucketMask(hash(k), bits - 2);
    MaskIsMod(hash(k), bits);
    LowTwoBits(BitAnd(hash(k), Pow2(bits) - 1));
  }

  lemma BucketMaskWraps(x: nat, bits: nat)
    requires bits >= 2 && x % 4 == 0 && x <= Pow2(bits)
    ensures Pow2(bits) >= 4 && BitAnd(x, Pow2(bits) - 4) == if x < Pow2(bits) then x else 0
  {
    hide BitAnd;
    assert Pow2(bits) == 4 * Pow2(bits - 2);
    BucketMask(x, bits - 2);
    MaskSmall(x, bits);
    MaskIsMod(x, bits);
  }

  function SubsOf(kp: seq<Arg>): seq<Sub> {
    seq(|kp|, i requires 0 <= i < |kp| => Sub(kp[i].key, kp[i].value))
  }

  lemma SubsPrefix(before: seq<Sub>, kp: seq<Arg>, i: nat)
    requires i < |kp|
    ensures before + SubsOf(kp[..i + 1]) == before + SubsOf(kp[..i]) + [Sub(kp[i].key, kp[i].value)]
    ensures SubKeys(before + SubsOf(kp[..i + 1])) <= SubKeys(before + SubsOf(kp))
    ensures |SubKeys(before + SubsOf(kp[..i + 1]))| <= |SubKeys(before + SubsOf(kp))|
  {
    var a, b := before + SubsOf(kp[..i + 1]), before + SubsOf(kp);
    assert forall j | 0 <= j < |a| :: a[j] == b[j];
    SubsetCount(SubKeys(a), SubKeys(b));
  }
}
