// DRAMBlast bursts against Maglev packets: the same map, the same replies.
module Simulation {
  import opened Probing
  import opened Buckets
  import opened Pipeline
  import opened GetOrInsert
  import opened Dramblast
  import opened Maglev
  import opened Capacity

  ghost predicate BurstDone(L: Layout, t: seq<Slot>, t': seq<Slot>, lut: seq<nat>, args: seq<Arg>, ret: seq<nat>)
    requires L.Bucketed() && |lut| == TABLE_SIZE && |ret| == |args|
  {
    Progress(L, t, t', lut, args, Members(Range(|args|)), ret)
  }

  lemma InRange(n: nat, i: nat)
    requires i < n
    ensures i in Members(Range(n))
  {
    assert Range(n)[i] == i;
  }

  // The reply to a key is what the table holds for it after the burst, or 0.
  lemma ReplyIsStored(L: Layout, t: seq<Slot>, t': seq<Slot>, lut: seq<nat>, args: seq<Arg>, ret: seq<nat>, i: nat)
    requires L.Bucketed() && |lut| == TABLE_SIZE && |ret| == |args| && BurstDone(L, t, t', lut, args, ret)
    requires i < |args| && args[i].k != 0
    ensures var k, m, m' := args[i].k, ToMap(t), ToMap(t');
      && ret[i] == (if k in m' then m'[k] else 0)
      && (k in m' && k !in m ==> Find(L, t, k).Absent?)
      && (Find(L, t, k).Absent? && k !in m' ==> Full(t'))
  {
    hide NoGap, Unique, EmptyIsZero, Find, Grows, Full, HoleBeforeLast, Passed;
    InRange(|args|, i);
    FindMeaning(L, t, args[i].k);
  }

  // A binding the burst added: the table entry of a definitely absent burst key.
  lemma NewBinding(L: Layout, t: seq<Slot>, t': seq<Slot>, lut: seq<nat>, args: seq<Arg>, ret: seq<nat>, k: nat)
    requires L.Bucketed() && |lut| == TABLE_SIZE && |ret| == |args| && BurstDone(L, t, t', lut, args, ret)
    requires forall i | 0 <= i < |args| :: args[i].k != 0
    requires k in ToMap(t') && k !in ToMap(t)
    ensures ToMap(t')[k] == lut[k % 65537] && HoleBeforeLast(L, t, k)
    ensures exists i | 0 <= i < |args| :: args[i].k == k
  {
    hide NoGap, Unique, EmptyIsZero, Find, Grows, Full, HoleBeforeLast, Passed;
    var i :| i in Members(Range(|args|)) && i < |args| && KeysOf(args)[i] == k && OutcomesOf(L, t, args)[i].Absent?;
    assert args[i].k == k;
    FindMeaning(L, t, k);
  }

  // What a burst does to the table and its callers: old bindings stay, new ones
  // are the table entries of definitely absent keys, and every reply is the old
  // binding, the new one, or 0 if there is none.
  lemma BurstMeaning(L: Layout, t: seq<Slot>, t': seq<Slot>, lut: seq<nat>, args: seq<Arg>, ret: seq<nat>)
    requires L.Bucketed() && |lut| == TABLE_SIZE && |ret| == |args| && BurstDone(L, t, t', lut, args, ret)
    requires forall i | 0 <= i < |args| :: args[i].k != 0
    ensures forall k | k in ToMap(t) :: k in ToMap(t') && ToMap(t')[k] == ToMap(t)[k]
    ensures forall k | k in ToMap(t') && k !in ToMap(t) ::
              ToMap(t')[k] == lut[k % 65537] && HoleBeforeLast(L, t, k) && exists i | 0 <= i < |args| :: args[i].k == k
    ensures forall i | 0 <= i < |args| ::
              var k, m, m' := args[i].k, ToMap(t), ToMap(t');
              && ret[i] == (if k in m then m[k] else if k in m' then lut[k % 65537] else 0)
              && (k !in m && HoleBeforeLast(L, t, k) && !Full(t') ==> k in m')
    ensures forall i, j | 0 <= i < |args| && 0 <= j < |args| :: args[i].k == args[j].k ==> ret[i] == ret[j]
  {
    hide NoGap, Unique, EmptyIsZero, Find, Grows, Full, HoleBeforeLast, Passed, Served;
    assert forall k | k in ToMap(t) :: k in ToMap(t') && ToMap(t')[k] == ToMap(t)[k] by { OldBindings(L, t, t', lut, args, ret); }
    forall k | k in ToMap(t') && k !in ToMap(t)
      ensures ToMap(t')[k] == lut[k % 65537] && HoleBeforeLast(L, t, k) && exists i | 0 <= i < |args| :: args[i].k == k
    {
      NewBinding(L, t, t', lut, args, ret, k);
    }
    forall i | 0 <= i < |args|
      ensures var k, m, m' := args[i].k, ToMap(t), ToMap(t');
        && ret[i] == (if k in m then m[k] else if k in m' then lut[k % 65537] else 0)
        && (k !in m && HoleBeforeLast(L, t, k) && !Full(t') ==> k in m')
    {
      ReplyIsStored(L, t, t', lut, args, ret, i);
      FindMeaning(L, t, args[i].k);
    }
  }

  lemma OldBindings(L: Layout, t: seq<Slot>, t': seq<Slot>, lut: seq<nat>, args: seq<Arg>, ret: seq<nat>)
    requires L.Bucketed() && |lut| == TABLE_SIZE && |ret| == |args| && BurstDone(L, t, t', lut, args, ret)
    ensures forall k | k in ToMap(t) :: k in ToMap(t') && ToMap(t')[k] == ToMap(t)[k]
  {
    hide NoGap, Unique, EmptyIsZero, Find, Grows, Full;
  }

  // Within the capacity bound a burst stores every key.
  lemma BurstStores(L: Layout, t: seq<Slot>, t': seq<Slot>, lut: seq<nat>, args: seq<Arg>, ret: seq<nat>,
                    all: set<nat>, i: nat)
    requires L.Bucketed() && |lut| == TABLE_SIZE && |ret| == |args| && BurstDone(L, t, t', lut, args, ret)
    requires forall j | 0 <= j < |args| :: args[j].k != 0 && args[j].k in all
    requires Keys(t) <= all && |all| <= L.len - 4 && i < |args|
    ensures args[i].k in ToMap(t')
  {
    hide NoGap, Unique, EmptyIsZero, Find, Grows, Full, HoleBeforeLast, Passed, Served;
    var k := args[i].k;
    FindMeaning(L, t, k);
    LookupDecides(L, t, k, all);
    ReplyIsStored(L, t, t', lut, args, ret, i);
    BurstMeaning(L, t, t', lut, args, ret);
    if k !in ToMap(t') {
      forall x | x in Keys(t') ensures x in all {
        assert x in ToMap(t');
        if x !in ToMap(t) { var a :| 0 <= a < |args| && args[a].k == x; }
      }
      InsertSucceeds(L, t', k, 0, all);
    }
  }

  // Per burst or per packet: the same map, the same replies.
  lemma BurstSimulation(L: Layout, t: seq<Slot>, t': seq<Slot>, lut: seq<nat>, args: seq<Arg>, ret: seq<nat>,
                        all: set<nat>)
    requires L.Bucketed() && |lut| == TABLE_SIZE && |ret| == |args| && BurstDone(L, t, t', lut, args, ret)
    requires forall j | 0 <= j < |args| :: args[j].k != 0 && args[j].k in all
    requires Keys(t) <= all && |all| <= L.len - 4
    ensures (ToMap(t'), ret) == ServeAll(ToMap(t), lut, KeysOf(args))
  {
    hide NoGap, Unique, EmptyIsZero, Find, Grows, Full, Served, ServeAll;
    var r := ServeAll(ToMap(t), lut, KeysOf(args));
    ServeAllMeaning(ToMap(t), lut, KeysOf(args));
    BurstMeaning(L, t, t', lut, args, ret);
    forall i | 0 <= i < |args| ensures args[i].k in ToMap(t') && ret[i] == ToMap(t')[args[i].k] {
      BurstStores(L, t, t', lut, args, ret, all, i);
      ReplyIsStored(L, t, t', lut, args, ret, i);
    }
    assert forall a | 0 <= a < |args| :: KeysOf(args)[a] == args[a].k;
    SameMap(ToMap(t'), r.0, ToMap(t), KeysOf(args), lut);
    assert ret == r.1;
  }

  lemma SameMap(a: map<nat, nat>, b: map<nat, nat>, m: map<nat, nat>, keys: seq<nat>, lut: seq<nat>)
    requires |lut| == TABLE_SIZE
    requires forall k | k in m :: k in a && a[k] == m[k]
    requires forall k | k in a && k !in m :: a[k] == Backend(lut, k) && k in keys
    requires forall i | 0 <= i < |keys| :: keys[i] in a
    requires forall k :: k in b <==> k in m || k in keys
    requires forall k | k in b :: b[k] == if k in m then m[k] else Backend(lut, k)
    ensures a == b
  {
  }

  // Runs one burst through both tables; afterwards the next burst may follow.
  method ServeBoth(db: Table, mg: ConnTrack, args: seq<Arg>, ret: array<nat>, ghost all: set<nat>)
    returns (macs: seq<nat>)
    requires db.Valid() && mg.Valid() && db.queue.contents == [] && ret.Length == |args|
    requires db.slots != mg.pairs && db.backends == mg.lookup
    requires ToMap(db.slots[..]) == ToMap(mg.pairs[..])
    requires forall i | 0 <= i < |args| :: args[i].id == i && args[i].k != 0 && args[i].k in all
    requires Keys(db.slots[..]) <= all && |all| <= db.len - 4 && |all| <= mg.capacity
    modifies db.queue, db.queue.items, db.slots, mg.pairs, ret
    ensures db.Valid() && mg.Valid() && db.queue.contents == [] && Keys(db.slots[..]) <= all
    ensures ret[..] == macs && ToMap(db.slots[..]) == ToMap(mg.pairs[..])
    ensures var m := ToMap(old(db.slots[..]));
      && (forall k :: k in ToMap(db.slots[..]) <==> k in m || exists i | 0 <= i < |args| :: args[i].k == k)
      && |macs| == |args| && forall i | 0 <= i < |args| ::
           macs[i] == if args[i].k in m then m[args[i].k] else db.backends[args[i].k % 65537]
  {
    hide NoGap, Unique, EmptyIsZero, Served, Progress, Full, ServeAll;
    ghost var t, m := db.slots[..], ToMap(mg.pairs[..]);
    db.ProcessFrames(args, ret);
    assert ret[..|args|] == ret[..];
    BurstSimulation(db.layout, t, db.slots[..], db.backends, args, ret[..], all);
    macs := [];
    ServeAllNone(m, mg.lookup, KeysOf(args));
    for i := 0 to |args|
      invariant db.Valid() && db.queue.contents == [] && mg.Valid() && ret[..] == ServeAll(m, mg.lookup, KeysOf(args)).1
      invariant ToMap(db.slots[..]) == ServeAll(m, mg.lookup, KeysOf(args)).0
      invariant (ToMap(mg.pairs[..]), macs) == ServeAll(m, mg.lookup, KeysOf(args)[..i])
    {
      ServeAllStep(m, mg.lookup, KeysOf(args), i);
      RoomFor(mg.layout, mg.pairs[..], m, mg.lookup, KeysOf(args), i, all);
      var mac := mg.ProcessKey(args[i].k);
      macs := macs + [mac];
    }
    assert KeysOf(args)[..|args|] == KeysOf(args);
    SimulatedBurst(m, mg.lookup, args);
    forall k | k in Keys(db.slots[..]) ensures k in all { assert k in ToMap(db.slots[..]); }
  }

  lemma SimulatedBurst(m: map<nat, nat>, lut: seq<nat>, args: seq<Arg>)
    requires |lut| == TABLE_SIZE && forall i | 0 <= i < |args| :: args[i].k != 0
    ensures var r := ServeAll(m, lut, KeysOf(args));
      && (forall k :: k in r.0 <==> k in m || exists i | 0 <= i < |args| :: args[i].k == k)
      && forall i | 0 <= i < |args| :: r.1[i] == if args[i].k in m then m[args[i].k] else lut[args[i].k % 65537]
  {
    hide ServeAll;
    ServeAllMeaning(m, lut, KeysOf(args));
    assert forall i | 0 <= i < |args| :: KeysOf(args)[i] == args[i].k;
    forall k | exists i | 0 <= i < |args| :: args[i].k == k ensures k in KeysOf(args) {
      var i :| 0 <= i < |args| && args[i].k == k;
      assert KeysOf(args)[i] == k;
    }
  }

  lemma ServeAllNone(m: map<nat, nat>, lut: seq<nat>, keys: seq<nat>)
    requires |lut| == TABLE_SIZE
    ensures ServeAll(m, lut, keys[..0]) == (m, [])
  {
  }

  lemma ServeAllStep(m: map<nat, nat>, lut: seq<nat>, keys: seq<nat>, i: nat)
    requires |lut| == TABLE_SIZE && i < |keys|
    ensures var r := ServeAll(m, lut, keys[..i]); var s := ServeOne(r.0, true, lut, keys[i]);
      ServeAll(m, lut, keys[..i + 1]) == (s.0, r.1 + [s.1])
  {
    assert keys[..i + 1][..i] == keys[..i];
  }

  lemma RoomFor(L: Layout, t: seq<Slot>, m: map<nat, nat>, lut: seq<nat>, keys: seq<nat>, i: nat, all: set<nat>)
    requires WF(L, t) && |lut| == TABLE_SIZE && i < |keys| && |all| <= L.len
    requires forall j | 0 <= j < |keys| :: keys[j] != 0 && keys[j] in all
    requires m.Keys <= all && ToMap(t) == ServeAll(m, lut, keys[..i]).0
    ensures keys[i] in ToMap(t) || !Full(t)
  {
    hide NoGap, Unique, EmptyIsZero, Full;
    ServeAllMeaning(m, lut, keys[..i]);
    assert Keys(t) == ToMap(t).Keys;
    InsertSucceeds(L, t, keys[i], 0, all);
  }
}
