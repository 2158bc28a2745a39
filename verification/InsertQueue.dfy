// The reference table's insert queue, abstractly: what is pending, and why
// resolving it in any queue order ends in the map of in-order inserts.
module InsertQueue {
  import opened Probing
  import opened Buckets

  datatype Sub = Sub(key: nat, val: nat)

  // A queued insert: its submission number, and the buckets it has visited.
  datatype Tag = Tag(src: nat, n: nat)

  // ----- In-order inserts, and pending ones played over a map

  ghost function Replay(subs: seq<Sub>): map<nat, nat> {
    if subs == [] then map[] else Replay(subs[..|subs| - 1])[subs[|subs| - 1].key := subs[|subs| - 1].val]
  }

  ghost function Overlay(m: map<nat, nat>, subs: seq<Sub>, pend: set<nat>): map<nat, nat> {
    if subs == [] then m
    else
      var n := |subs| - 1;
      var r := Overlay(m, subs[..n], pend);
      if n in pend then r[subs[n].key := subs[n].val] else r
  }

  ghost predicate FirstPending(subs: seq<Sub>, pend: set<nat>, s: nat)
    requires s < |subs|
  {
    s in pend && forall i | 0 <= i < s && subs[i].key == subs[s].key :: i !in pend
  }

  lemma {:induction false} OverlayPrefix(m: map<nat, nat>, subs: seq<Sub>, pend: set<nat>, k: nat, v: nat)
    requires forall i | 0 <= i < |subs| && subs[i].key == k :: i !in pend
    ensures Overlay(m[k := v], subs, pend) == Overlay(m, subs, pend)[k := v]
  {
    if subs != [] {
      OverlayPrefix(m, subs[..|subs| - 1], pend, k, v);
    }
  }

  lemma {:induction false} OverlayIgnores(m: map<nat, nat>, subs: seq<Sub>, pend: set<nat>, s: nat)
    requires s >= |subs|
    ensures Overlay(m, subs, pend - {s}) == Overlay(m, subs, pend)
  {
    if subs != [] {
      OverlayIgnores(m, subs[..|subs| - 1], pend, s);
    }
  }

  // Resolving the first pending insert of a key leaves the outcome as it was.
  lemma {:induction false} OverlayResolve(m: map<nat, nat>, subs: seq<Sub>, pend: set<nat>, s: nat)
    requires s < |subs| && FirstPending(subs, pend, s)
    ensures Overlay(m[subs[s].key := subs[s].val], subs, pend - {s}) == Overlay(m, subs, pend)
  {
    var n := |subs| - 1;
    var k, v := subs[s].key, subs[s].val;
    if n == s {
      OverlayPrefix(m, subs[..n], pend - {s}, k, v);
      OverlayIgnores(m, subs[..n], pend, s);
    } else {
      assert subs[..n][s] == subs[s];
      OverlayResolve(m, subs[..n], pend, s);
    }
  }

  lemma {:induction false} OverlayNone(m: map<nat, nat>, subs: seq<Sub>)
    ensures Overlay(m, subs, {}) == m
  {
    if subs != [] { OverlayNone(m, subs[..|subs| - 1]); }
  }

  lemma OverlaySubmit(m: map<nat, nat>, subs: seq<Sub>, pend: set<nat>, x: Sub)
    requires |subs| !in pend
    ensures Overlay(m, subs + [x], pend + {|subs|}) == Overlay(m, subs, pend)[x.key := x.val]
    ensures Replay(subs + [x]) == Replay(subs)[x.key := x.val]
  {
    assert (subs + [x])[..|subs|] == subs;
    OverlayIgnores(m, subs, pend + {|subs|}, |subs|);
    assert pend + {|subs|} - {|subs|} == pend;
  }

  // ----- One bucket visit of an insert

  function BucketInsert(L: Layout, t: seq<Slot>, k: nat, v: nat, n: nat): (seq<Slot>, bool)
    requires L.Bucketed() && |t| == L.len && 4 * n < L.len
  {
    var b := Base(L, k, n);
    var j, e := FirstIn(t, b, k), FirstIn(t, b, 0);
    if j < 4 then (t[b + j := Slot(k, v)], true)
    else if e < 4 then (t[b + e := Slot(k, v)], true)
    else (t, false)
  }

  lemma BucketInsertMeaning(L: Layout, t: seq<Slot>, k: nat, v: nat, n: nat)
    requires L.Bucketed() && WF(L, t) && k != 0 && 4 * n < L.len && Passed(L, t, k, 4 * n)
    ensures var r := BucketInsert(L, t, k, v, n);
      && WF(L, r.0) && Grows(t, r.0) && (r.1 ==> ToMap(r.0) == ToMap(t)[k := v])
      && (!r.1 ==> r.0 == t && Passed(L, t, k, 4 * n + 4))
  {
    hide NoGap, Unique, EmptyIsZero, Passed, Grows, FirstFrom;
    var b := Base(L, k, n);
    var j, e := FirstIn(t, b, k), FirstIn(t, b, 0);
    if j < 4 {
      UpdateKeeps(L, t, k, v, b + j);
    } else if e < 4 {
      HolePasses(L, t, k, n, b + e);
      FillKeeps(L, t, k, v, b + e);
    } else {
      VisitPasses(L, t, k, n);
      assert Grows(t, t) by { GrowsSelf(t); }
    }
  }

  // Without a visit bound an insert ends exactly if the table holds its key or
  // has a hole: on a full table of other keys no bucket ever resolves it.
  lemma ResolvableIff(L: Layout, t: seq<Slot>, k: nat, v: nat)
    requires L.Bucketed() && |t| == L.len && k != 0
    ensures (exists n: nat :: 4 * n < L.len && BucketInsert(L, t, k, v, n).1) <==> Holds(t, k) || !Full(t)
  {
    hide FirstFrom;
    if Holds(t, k) || !Full(t) {
      var i :| 0 <= i < |t| && (t[i].key == k || t[i].key == 0);
      var n := L.Dist(k, i) / 4;
      BucketSlots(L, k, n, i);
      assert BucketInsert(L, t, k, v, n).1;
    }
  }

  // ----- The pending inserts

  ghost predicate TagOk(L: Layout, t: seq<Slot>, subs: seq<Sub>, x: Tag)
    requires L.Bucketed() && |t| == L.len
  {
    && x.src < |subs| && 4 * x.n < L.len
    && (if subs[x.src].key == 0 then x.n == 0 else Passed(L, t, subs[x.src].key, 4 * x.n))
  }

  // x is ahead of y: of two inserts of one key the earlier is never overtaken.
  ghost predicate InOrder(subs: seq<Sub>, x: Tag, y: Tag)
    requires x.src < |subs| && y.src < |subs|
  {
    && x.src != y.src
    && (subs[x.src].key == subs[y.src].key ==> if x.src < y.src then x.n >= y.n else y.n > x.n)
  }

  ghost predicate Pending(L: Layout, t: seq<Slot>, subs: seq<Sub>, tags: seq<Tag>)
    requires L.Bucketed() && |t| == L.len
  {
    && (forall i | 0 <= i < |tags| :: TagOk(L, t, subs, tags[i]))
    && (forall i, j | 0 <= i < j < |tags| :: InOrder(subs, tags[i], tags[j]))
  }

  ghost function SrcSet(tags: seq<Tag>): set<nat> {
    set i | 0 <= i < |tags| :: tags[i].src
  }

  ghost function SubKeys(subs: seq<Sub>): set<nat> {
    set i | 0 <= i < |subs| && subs[i].key != 0 :: subs[i].key
  }

  // view: the map the table and the separate key-0 slot stand for.
  ghost predicate Inv(L: Layout, t: seq<Slot>, view: map<nat, nat>, subs: seq<Sub>, tags: seq<Tag>) {
    && L.Bucketed() && WF(L, t) && Keys(t) <= SubKeys(subs)
    && Pending(L, t, subs, tags)
    && Overlay(view, subs, SrcSet(tags)) == Replay(subs)
  }

  lemma SubKeysAppend(subs: seq<Sub>, x: Sub)
    ensures SubKeys(subs) <= SubKeys(subs + [x])
    ensures x.key != 0 ==> x.key in SubKeys(subs + [x])
  {
    assert forall i | 0 <= i < |subs| :: (subs + [x])[i] == subs[i];
    assert (subs + [x])[|subs|] == x;
  }

  lemma SubmitKeeps(L: Layout, t: seq<Slot>, view: map<nat, nat>, subs: seq<Sub>, tags: seq<Tag>, x: Sub)
    requires Inv(L, t, view, subs, tags)
    ensures Inv(L, t, view, subs + [x], tags + [Tag(|subs|, 0)])
  {
    hide NoGap, Unique, EmptyIsZero, Overlay, Replay;
    var tags' := tags + [Tag(|subs|, 0)];
    SubKeysAppend(subs, x);
    forall i | 0 <= i < |tags'| ensures TagOk(L, t, subs + [x], tags'[i]) {
      if i < |tags| { assert TagOk(L, t, subs, tags[i]); }
    }
    forall i, j | 0 <= i < j < |tags'| ensures InOrder(subs + [x], tags'[i], tags'[j]) {
      assert TagOk(L, t, subs, tags[i]);
      if j < |tags| { assert InOrder(subs, tags[i], tags[j]); }
    }
    assert SrcSet(tags') == SrcSet(tags) + {|subs|} by { SrcSetAppend(tags, Tag(|subs|, 0)); }
    assert |subs| !in SrcSet(tags) by {
      forall i | 0 <= i < |tags| ensures tags[i].src != |subs| { assert TagOk(L, t, subs, tags[i]); }
    }
    OverlaySubmit(view, subs, SrcSet(tags), x);
  }

  lemma SrcSetAppend(tags: seq<Tag>, x: Tag)
    ensures SrcSet(tags + [x]) == SrcSet(tags) + {x.src}
  {
    assert (tags + [x])[|tags|] == x;
    assert forall i | 0 <= i < |tags| :: (tags + [x])[i] == tags[i];
  }

  lemma SrcSetFront(subs: seq<Sub>, tags: seq<Tag>)
    requires tags != [] && forall i | 0 <= i < |tags| :: tags[i].src < |subs|
    requires forall i, j | 0 <= i < j < |tags| :: InOrder(subs, tags[i], tags[j])
    ensures SrcSet(tags) - {tags[0].src} == SrcSet(tags[1..])
  {
    forall x ensures x in SrcSet(tags) - {tags[0].src} <==> x in SrcSet(tags[1..]) {
      if x in SrcSet(tags) && x != tags[0].src {
        var i :| 0 <= i < |tags| && tags[i].src == x;
        assert tags[1..][i - 1].src == x;
      }
      if x in SrcSet(tags[1..]) {
        var i :| 0 <= i < |tags[1..]| && tags[1..][i].src == x;
        assert tags[i + 1].src == x && InOrder(subs, tags[0], tags[i + 1]);
      }
    }
  }

  // ----- Popping the oldest

  // An insert that its bucket resolves is the first pending one of its key: an
  // earlier one behind it would have passed that bucket, leaving it full.
  lemma FrontIsFirst(L: Layout, t: seq<Slot>, subs: seq<Sub>, tags: seq<Tag>)
    requires L.Bucketed() && |t| == L.len && Pending(L, t, subs, tags) && tags != []
    requires var f := tags[0]; var k := subs[f.src].key;
      k == 0 || BucketInsert(L, t, k, subs[f.src].val, f.n).1
    ensures FirstPending(subs, SrcSet(tags), tags[0].src)
  {
    hide Passed, FirstFrom;
    var f := tags[0];
    var k := subs[f.src].key;
    forall s | 0 <= s < f.src && subs[s].key == k ensures s !in SrcSet(tags) {
      forall i | 0 <= i < |tags| ensures tags[i].src != s {
        if i > 0 && tags[i].src < f.src && subs[tags[i].src].key == k {
          assert InOrder(subs, f, tags[i]) && TagOk(L, t, subs, tags[i]) && TagOk(L, t, subs, f);
          if k != 0 { PassedBucket(L, t, k, f.n, tags[i].n); }
        }
      }
    }
    assert f.src in SrcSet(tags);
  }

  lemma PassedBucket(L: Layout, t: seq<Slot>, k: nat, n: nat, m: nat)
    requires L.Bucketed() && |t| == L.len && n < m && 4 * m < L.len && Passed(L, t, k, 4 * m)
    ensures FirstIn(t, Base(L, k, n), k) == 4 && FirstIn(t, Base(L, k, n), 0) == 4
  {
    forall i | Base(L, k, n) <= i < Base(L, k, n) + 4 ensures t[i].key != k && t[i].key != 0 {
      BucketSlots(L, k, n, i);
    }
    NotFound(t, Base(L, k, n), k);
    NotFound(t, Base(L, k, n), 0);
  }

  lemma NotFound(t: seq<Slot>, base: nat, x: nat)
    requires base + 4 <= |t| && forall i | base <= i < base + 4 :: t[i].key != x
    ensures FirstIn(t, base, x) == 4
  {
  }

  lemma PendingTail(L: Layout, t: seq<Slot>, t': seq<Slot>, subs: seq<Sub>, tags: seq<Tag>)
    requires L.Bucketed() && |t| == L.len && Grows(t, t') && Pending(L, t, subs, tags) && tags != []
    ensures Pending(L, t', subs, tags[1..])
  {
    forall i | 0 <= i < |tags[1..]| ensures TagOk(L, t', subs, tags[1..][i]) {
      assert TagOk(L, t, subs, tags[i + 1]);
    }
    forall i, j | 0 <= i < j < |tags[1..]| ensures InOrder(subs, tags[1..][i], tags[1..][j]) {
      assert InOrder(subs, tags[i + 1], tags[j + 1]);
    }
  }

  // The oldest pending insert takes effect.
  lemma ResolveKeeps(L: Layout, t: seq<Slot>, view: map<nat, nat>, subs: seq<Sub>, tags: seq<Tag>, t': seq<Slot>)
    requires Inv(L, t, view, subs, tags) && tags != []
    requires var x := subs[tags[0].src];
      if x.key == 0 then t' == t else (t', true) == BucketInsert(L, t, x.key, x.val, tags[0].n)
    ensures var x := subs[tags[0].src]; Inv(L, t', view[x.key := x.val], subs, tags[1..])
  {
    hide NoGap, Unique, EmptyIsZero, Passed, Overlay, Replay, BucketInsert, SrcSet;
    var f := tags[0];
    var x := subs[f.src];
    assert TagOk(L, t, subs, f);
    FrontIsFirst(L, t, subs, tags);
    OverlayResolve(view, subs, SrcSet(tags), f.src);
    SrcSetFront(subs, tags);
    GrowsSelf(t);
    if x.key != 0 {
      BucketInsertMeaning(L, t, x.key, x.val, f.n);
      assert ToMap(t').Keys == Keys(t) + {x.key};
      InSubKeys(subs, f.src);
    }
    PendingTail(L, t, t', subs, tags);
  }

  lemma InSubKeys(subs: seq<Sub>, s: nat)
    requires s < |subs| && subs[s].key != 0
    ensures subs[s].key in SubKeys(subs)
  {
  }

  // With room for all submitted keys a full bucket is never the last.
  lemma RoomForMore(L: Layout, t: seq<Slot>, subs: seq<Sub>, s: nat, n: nat)
    requires L.Bucketed() && WF(L, t) && Keys(t) <= SubKeys(subs) && |SubKeys(subs)| <= L.len
    requires s < |subs| && subs[s].key != 0 && 4 * n < L.len && Passed(L, t, subs[s].key, 4 * n + 4)
    ensures 4 * n + 4 < L.len
  {
    hide NoGap, Unique, EmptyIsZero, Passed;
    InSubKeys(subs, s);
    if 4 * n + 4 >= L.len { PassedCount(L, t, subs[s].key, L.len, SubKeys(subs)); }
  }

  // The oldest pending insert met a full bucket and goes to the back.
  lemma AgainKeeps(L: Layout, t: seq<Slot>, view: map<nat, nat>, subs: seq<Sub>, tags: seq<Tag>)
    requires Inv(L, t, view, subs, tags) && tags != [] && |SubKeys(subs)| <= L.len
    requires var x := subs[tags[0].src]; x.key != 0 && !BucketInsert(L, t, x.key, x.val, tags[0].n).1
    ensures 4 * tags[0].n + 4 < L.len
    ensures Inv(L, t, view, subs, tags[1..] + [Tag(tags[0].src, tags[0].n + 1)])
  {
    hide NoGap, Unique, EmptyIsZero, Passed, Overlay, Replay, BucketInsert, SrcSet;
    var f := tags[0];
    var x := subs[f.src];
    assert TagOk(L, t, subs, f);
    BucketInsertMeaning(L, t, x.key, x.val, f.n);
    RoomForMore(L, t, subs, f.src, f.n);
    GrowsSelf(t);
    PendingTail(L, t, t, subs, tags);
    PendingBack(L, t, subs, tags);
    SrcSetFront(subs, tags);
    SrcSetAppend(tags[1..], Tag(f.src, f.n + 1));
    assert f.src in SrcSet(tags) by { SrcSetHas(tags); }
    assert SrcSet(tags) - {f.src} + {f.src} == SrcSet(tags);
  }

  lemma SrcSetHas(tags: seq<Tag>)
    requires tags != []
    ensures tags[0].src in SrcSet(tags)
  {
  }

  lemma PendingBack(L: Layout, t: seq<Slot>, subs: seq<Sub>, tags: seq<Tag>)
    requires L.Bucketed() && |t| == L.len && tags != [] && Pending(L, t, subs, tags)
    requires Pending(L, t, subs, tags[1..])
    requires var f := tags[0]; subs[f.src].key != 0 && 4 * f.n + 4 < L.len && Passed(L, t, subs[f.src].key, 4 * f.n + 4)
    ensures Pending(L, t, subs, tags[1..] + [Tag(tags[0].src, tags[0].n + 1)])
  {
    hide Passed;
    var f := tags[0];
    var back := Tag(f.src, f.n + 1);
    var q := tags[1..] + [back];
    assert 4 * back.n == 4 * f.n + 4;
    assert TagOk(L, t, subs, back);
    forall i | 0 <= i < |q| ensures TagOk(L, t, subs, q[i]) {
      if i < |q| - 1 { assert TagOk(L, t, subs, tags[1..][i]); }
    }
    forall i, j | 0 <= i < j < |q| ensures InOrder(subs, q[i], q[j]) {
      if j < |q| - 1 {
        assert InOrder(subs, tags[1..][i], tags[1..][j]);
      } else {
        assert InOrder(subs, f, tags[i + 1]);
      }
    }
  }

  // Buckets the pending inserts may still visit.
  ghost function Slack(tags: seq<Tag>, len: nat): nat {
    if tags == [] then 0 else Remaining(tags[0], len) + Slack(tags[1..], len)
  }

  ghost function Remaining(x: Tag, len: nat): nat {
    if x.n < len then len - x.n else 0
  }

  lemma {:induction false} SlackAppend(tags: seq<Tag>, x: Tag, len: nat)
    ensures Slack(tags + [x], len) == Slack(tags, len) + Remaining(x, len)
  {
    if tags == [] {
      assert tags + [x] == [x];
    } else {
      assert (tags + [x])[1..] == tags[1..] + [x];
      SlackAppend(tags[1..], x, len);
    }
  }

  // A popped insert is gone, or has one bucket fewer ahead of it.
  lemma SlackPop(tags: seq<Tag>, len: nat)
    requires tags != [] && tags[0].n < len
    ensures Slack(tags[1..], len) < Slack(tags, len)
    ensures Slack(tags[1..] + [Tag(tags[0].src, tags[0].n + 1)], len) < Slack(tags, len)
  {
    SlackAppend(tags[1..], Tag(tags[0].src, tags[0].n + 1), len);
  }

  // Nothing pending: the map is that of the inserts in submission order.
  lemma Flushed(L: Layout, t: seq<Slot>, view: map<nat, nat>, subs: seq<Sub>)
    requires Inv(L, t, view, subs, [])
    ensures view == Replay(subs)
  {
    OverlayNone(view, subs);
    assert SrcSet([]) == {};
  }

  // Replay means: the last value submitted for each key ...
  lemma {:induction false} ReplayMeaning(subs: seq<Sub>, s: nat)
    requires s < |subs| && forall i | s < i < |subs| :: subs[i].key != subs[s].key
    ensures subs[s].key in Replay(subs) && Replay(subs)[subs[s].key] == subs[s].val
  {
    var n := |subs| - 1;
    if s < n {
      assert subs[..n][s] == subs[s];
      ReplayMeaning(subs[..n], s);
    }
  }

  // ... and nothing for any other key.
  lemma {:induction false} ReplayKeys(subs: seq<Sub>, k: nat)
    ensures k in Replay(subs) <==> exists i | 0 <= i < |subs| :: subs[i].key == k
  {
    if subs != [] {
      var n := |subs| - 1;
      ReplayKeys(subs[..n], k);
      assert forall i | 0 <= i < n :: subs[..n][i] == subs[i];
    }
  }

  // The flushed table, slot by slot: each submitted key stands with the value last
  // submitted for it, key 0 in its separate slot, and no other key stands.
  lemma FlushedMeaning(t: seq<Slot>, exists_: bool, zero: nat, subs: seq<Sub>)
    requires EmptyIsZero(t) && Unique(t) && ViewOf(t, exists_, zero) == Replay(subs)
    ensures forall s | 0 <= s < |subs| && (forall i | s < i < |subs| :: subs[i].key != subs[s].key) ::
      if subs[s].key == 0 then exists_ && zero == subs[s].val else Slot(subs[s].key, subs[s].val) in t
    ensures forall i | 0 <= i < |t| && t[i].key != 0 :: exists s | 0 <= s < |subs| :: subs[s].key == t[i].key
    ensures exists_ ==> exists s | 0 <= s < |subs| :: subs[s].key == 0
  {
    hide EmptyIsZero, Unique, Replay;
    forall s | 0 <= s < |subs| && forall i | s < i < |subs| :: subs[i].key != subs[s].key
      ensures if subs[s].key == 0 then exists_ && zero == subs[s].val else Slot(subs[s].key, subs[s].val) in t
    {
      ReplayMeaning(subs, s);
      if subs[s].key != 0 {
        var i :| 0 <= i < |t| && t[i].key != 0 && t[i].key == subs[s].key;
        assert t[i] == Slot(subs[s].key, subs[s].val);
      }
    }
    forall i | 0 <= i < |t| && t[i].key != 0 ensures exists s | 0 <= s < |subs| :: subs[s].key == t[i].key {
      ReplayKeys(subs, t[i].key);
    }
    ReplayKeys(subs, 0);
  }

  // The map of a table whose key 0 lives in a separate slot.
  ghost function ViewOf(t: seq<Slot>, exists_: bool, zero: nat): map<nat, nat>
    requires Unique(t)
  {
    if exists_ then ToMap(t)[0 := zero] else ToMap(t)
  }

  lemma ViewPut(t: seq<Slot>, t': seq<Slot>, exists_: bool, zero: nat, k: nat, v: nat)
    requires Unique(t) && Unique(t')
    ensures k == 0 && t' == t ==> ViewOf(t', true, v) == ViewOf(t, exists_, zero)[k := v]
    ensures k != 0 && ToMap(t') == ToMap(t)[k := v] ==> ViewOf(t', exists_, zero) == ViewOf(t, exists_, zero)[k := v]
  {
    hide Unique, Keys;
  }

  // What a pop of the oldest does to the table, the map and the queue.
  lemma PopStep(L: Layout, t: seq<Slot>, exists_: bool, zero: nat, subs: seq<Sub>, tags: seq<Tag>)
    returns (t': seq<Slot>, tags': seq<Tag>, retry: bool)
    requires WF(L, t) && Inv(L, t, ViewOf(t, exists_, zero), subs, tags) && tags != [] && |SubKeys(subs)| <= L.len
    ensures tags[0].src < |subs| && 4 * tags[0].n < L.len && WF(L, t')
    ensures var f := tags[0]; var x := subs[f.src];
      && (retry ==> x.key != 0 && 4 * f.n + 4 < L.len && t' == t && tags' == tags[1..] + [Tag(f.src, f.n + 1)])
      && (!retry ==> tags' == tags[1..])
      && (if x.key == 0 then !retry && t' == t else (t', !retry) == BucketInsert(L, t, x.key, x.val, f.n))
      && (if x.key == 0 then Inv(L, t', ViewOf(t', true, x.val), subs, tags')
          else Inv(L, t', ViewOf(t', exists_, zero), subs, tags'))
  {
    hide NoGap, Unique, EmptyIsZero, Inv, BucketInsert, Passed, SubKeys, ViewOf, Grows;
    FrontOk(L, t, ViewOf(t, exists_, zero), subs, tags);
    var view, f := ViewOf(t, exists_, zero), tags[0];
    var x := subs[f.src];
    t', tags', retry := t, tags[1..], false;
    if x.key == 0 {
      ResolveKeeps(L, t, view, subs, tags, t);
      ViewPut(t, t, exists_, zero, 0, x.val);
    } else {
      BucketInsertMeaning(L, t, x.key, x.val, f.n);
      var r := BucketInsert(L, t, x.key, x.val, f.n);
      t' := r.0;
      if r.1 {
        ResolveKeeps(L, t, view, subs, tags, t');
        ViewPut(t, t', exists_, zero, x.key, x.val);
      } else {
        AgainKeeps(L, t, view, subs, tags);
        tags', retry := tags[1..] + [Tag(f.src, f.n + 1)], true;
      }
    }
  }

  lemma FrontOk(L: Layout, t: seq<Slot>, view: map<nat, nat>, subs: seq<Sub>, tags: seq<Tag>)
    requires Inv(L, t, view, subs, tags) && tags != []
    ensures L.Bucketed() && |t| == L.len && TagOk(L, t, subs, tags[0])
  {
  }

  lemma NothingPending(L: Layout, t: seq<Slot>)
    requires L.Bucketed() && WF(L, t) && ToMap(t) == map[]
    ensures Inv(L, t, ViewOf(t, false, 0), [], []) && |SubKeys([])| == 0
  {
    hide NoGap, Unique, EmptyIsZero;
    assert Keys(t) == {};
    assert SrcSet([]) == {};
  }
}
