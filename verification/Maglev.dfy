// The Maglev connection table: the same open addressing with homes anywhere in
// the table, one packet at a time.
module Maglev {
  import opened Masks
  import opened Probing
  import opened GetOrInsert
  import opened FlowHashing

  function Home(crc: nat -> nat, capacity: nat, k: nat): nat
    requires capacity > 0
  {
    BitAnd(crc(k), capacity - 1)
  }

  // The mask picks the remainder: homes may be anywhere in the table.
  lemma HomeIsRemainder(crc: nat -> nat, bits: nat, k: nat)
    ensures Home(crc, Pow2(bits), k) == crc(k) % Pow2(bits) < Pow2(bits)
  {
    MaskIsMod(crc(k), bits);
  }

  class ConnTrack {
    ghost const bits: nat
    ghost const layout: Layout
    const capacity: nat
    const crc: nat -> nat
    const pairs: array<Slot>
    const lookup: seq<nat>

    ghost predicate Shape()
      reads this
    {
      && capacity == Pow2(bits) && pairs.Length == capacity && |lookup| == TABLE_SIZE
      && layout.len == capacity && layout.Valid()
      && forall k :: layout.home(k) == Home(crc, capacity, k)
    }

    ghost predicate Valid()
      reads this, pairs
    {
      Shape() && WF(layout, pairs[..])
    }

    constructor (ghost p: nat, n: nat, hash: nat -> nat, lut: seq<nat>)
      requires n == Pow2(p) && |lut| == TABLE_SIZE
      ensures Valid() && capacity == n && crc == hash && lookup == lut
      ensures ToMap(pairs[..]) == map[] && fresh(pairs)
    {
      bits, capacity, crc, lookup := p, n, hash, lut;
      layout := Layout(n, k => Home(hash, n, k));
      pairs := new Slot[n](_ => EMPTY);
      new;
      forall k ensures layout.home(k) < capacity { HomeIsRemainder(hash, p, k); }
      hide NoGap, Unique, EmptyIsZero;
      ZeroedTable(layout, pairs[..]);
    }

    // `(hash + i) & (CAPACITY - 1)`
    method Probe(hash: nat, i: nat, ghost k: nat) returns (probe: nat)
      requires Shape() && i < capacity && hash == layout.home(k)
      ensures probe == layout.At(k, i)
    {
      MaskLap(hash + i, bits);
      probe := BitAnd(hash + i, capacity - 1);
    }

    // One round of the insert loop, with the compare-and-swap of an empty pair.
    method TryPair(i: nat, key: nat, value: nat) returns (done: bool)
      requires i < pairs.Length && key != 0 && (pairs[i].key == 0 ==> pairs[i] == EMPTY)
      modifies pairs
      ensures done <==> old(pairs[i].key) == 0 || old(pairs[i].key) == key
      ensures pairs[..] == if done then old(pairs[..])[i := Slot(key, value)] else old(pairs[..])
    {
      if pairs[i].key == 0 && pairs[i] == EMPTY {
        pairs[i] := Slot(key, value);
        return true;
      }
      if pairs[i].key == key {
        pairs[i] := Slot(pairs[i].key, value);
        return true;
      }
      return false;
    }

    method Insert(key: nat, value: nat) returns (r: int)
      requires Valid()
      modifies pairs
      ensures Valid()
      ensures r == 0 || r == -1
      ensures (pairs[..], r == 0) == Probing.Insert(layout, old(pairs[..]), key, value)
      ensures key == 0 ==> r == -1 && pairs[..] == old(pairs[..])
    {
      ghost var t := pairs[..];
      if key == 0 { return -1; }
      var hash := BitAnd(crc(key), capacity - 1);
      ghost var goal := Probing.Insert(layout, t, key, value);
      assert WF(layout, goal.0) by { InsertMeaning(layout, t, key, value); }
      for i := 0 to capacity
        invariant pairs[..] == t && StopFrom(layout, t, key, 0) == StopFrom(layout, t, key, i)
      {
        var probe := Probe(hash, i, key);
        var done := TryPair(probe, key, value);
        if done { return 0; }
      }
      return -1;
    }

    // The slot holding the key, if the probe meets it before an empty one.
    method Get(key: nat) returns (found: bool, pair: nat)
      requires Shape()
      ensures key != 0 ==> found == Lookup(layout, pairs[..], key).0
      ensures found ==> pair < capacity && pairs[pair].key == key != 0
    {
      ghost var t := pairs[..];
      var hash := BitAnd(crc(key), capacity - 1);
      for i := 0 to capacity
        invariant StopFrom(layout, t, key, 0) == StopFrom(layout, t, key, i)
      {
        var probe := Probe(hash, i, key);
        if pairs[probe].key == 0 { return false, 0; }
        if pairs[probe].key == key { return true, probe; }
      }
      return false, 0;
    }

    // `maglev_process_frame` from the flow hash on.
    method ProcessKey(hash: nat) returns (backend: nat)
      requires Valid()
      modifies pairs
      ensures Valid() && Grows(old(pairs[..]), pairs[..])
      ensures (ToMap(pairs[..]), backend) == ServeOne(ToMap(old(pairs[..])), !Full(old(pairs[..])), lookup, hash)
      ensures var m, m' := ToMap(old(pairs[..])), ToMap(pairs[..]);
        && (hash == 0 ==> backend == 0 && m' == m)
        && (hash in m && hash != 0 ==> backend == m[hash] && m' == m)
        && (hash !in m && hash != 0 && !Full(old(pairs[..])) ==>
              backend == lookup[hash % 65537] && m' == m[hash := lookup[hash % 65537]])
        && (hash !in m && Full(old(pairs[..])) ==> backend == 0 && m' == m)
    {
      hide NoGap, EmptyIsZero, Probing.Insert, Lookup;
      backend := 0;
      if hash > 0 {
        ghost var t := pairs[..];
        LookupMeaning(layout, t, hash);
        var found, pair := Get(hash);
        if !found {
          backend := Backend(lookup, hash);
          InsertMeaning(layout, t, hash, backend);
          var r := Insert(hash, backend);
          if r < 0 { return 0; }
        } else {
          assert ToMap(t)[t[pair].key] == t[pair].val;
          backend := pairs[pair].val;
        }
      }
    }

    method ProcessFrame(frame: seq<bv8>) returns (backend: nat)
      requires Valid() && Readable(frame)
      modifies pairs
      ensures Valid() && Grows(old(pairs[..]), pairs[..])
      ensures (ToMap(pairs[..]), backend)
              == ServeOne(ToMap(old(pairs[..])), !Full(old(pairs[..])), lookup, FlowKey(frame))
      ensures var k, m, m' := FlowKey(frame), ToMap(old(pairs[..])), ToMap(pairs[..]);
        && (k == 0 ==> backend == 0 && m' == m)
        && (k in m && k != 0 ==> backend == m[k] && m' == m)
        && (k !in m && k != 0 && !Full(old(pairs[..])) ==>
              backend == lookup[k % 65537] && m' == m[k := lookup[k % 65537]])
        && (k !in m && Full(old(pairs[..])) ==> backend == 0 && m' == m)
    {
      var hash := FlowHash(frame);
      backend := ProcessKey(hash as nat);
    }
  }
}
