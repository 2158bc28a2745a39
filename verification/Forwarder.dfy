// The burst body of the forwarding loop: look the flows of a burst up, rewrite
// the packets that got an answer, transmit, count.
module Forwarder {
  import opened Probing
  import opened Buckets
  import opened GetOrInsert
  import opened FlowHashing
  import DB = Dramblast
  import MG = Maglev
  import Sim = Simulation
  import P = Pipeline

  const MAX_PKT_BURST: nat := 64

  // ----- Rewriting a packet

  // The eight bytes of a uint64_t, least significant first.
  function WordBytes(x: nat, n: nat): (b: seq<bv8>)
    ensures |b| == n
  {
    if n == 0 then [] else [(x % 256) as bv8] + WordBytes(x / 256, n - 1)
  }

  // `l2fwd_mac_updating`: eight bytes of mac over the six of the destination
  // address, then the source address over the spill.
  function Rewrite(f: seq<bv8>, mac: nat, src: seq<bv8>): (r: seq<bv8>)
    requires |f| >= 12 && |src| == 6
    ensures |r| == |f|
  {
    var g := WordBytes(mac, 8) + f[8..];
    g[..6] + src + g[12..]
  }

  lemma WordByte(x: nat, n: nat, i: nat)
    requires i < n
    ensures WordBytes(x, n)[i] == if i == 0 then (x % 256) as bv8 else WordBytes(x / 256, n - 1)[i - 1]
  {
  }

  lemma AddressBytes(x: nat)
    ensures var b := WordBytes(x, 8);
      && b[0] == (x % 0x100) as bv8 && b[1] == (x / 0x100 % 0x100) as bv8
      && b[2] == (x / 0x1_0000 % 0x100) as bv8 && b[3] == (x / 0x100_0000 % 0x100) as bv8
      && b[4] == (x / 0x1_0000_0000 % 0x100) as bv8 && b[5] == (x / 0x100_0000_0000 % 0x100) as bv8
  {
    hide WordBytes;
    var x1, x2, x3, x4 := x / 0x100, x / 0x1_0000, x / 0x100_0000, x / 0x1_0000_0000;
    assert x1 / 256 == x2 && x2 / 256 == x3 && x3 / 256 == x4 && x4 / 256 == x / 0x100_0000_0000;
    forall i | 0 <= i < 6 { WordByte(x, 8, i); }
    forall i | 0 <= i < 5 { WordByte(x1, 7, i); }
    forall i | 0 <= i < 4 { WordByte(x2, 6, i); }
    forall i | 0 <= i < 3 { WordByte(x3, 5, i); }
    forall i | 0 <= i < 2 { WordByte(x4, 4, i); }
    WordByte(x4 / 256, 3, 0);
  }

  // Only the two addresses change, so the flow hash does not.
  lemma RewriteKeepsFlow(f: seq<bv8>, mac: nat, src: seq<bv8>)
    requires Readable(f) && |src| == 6
    ensures var r := Rewrite(f, mac, src);
      && r[0] == (mac % 0x100) as bv8 && r[1] == (mac / 0x100 % 0x100) as bv8
      && r[2] == (mac / 0x1_0000 % 0x100) as bv8 && r[3] == (mac / 0x100_0000 % 0x100) as bv8
      && r[4] == (mac / 0x1_0000_0000 % 0x100) as bv8 && r[5] == (mac / 0x100_0000_0000 % 0x100) as bv8
      && r[6..12] == src && r[12..] == f[12..]
      && Readable(r) && FlowKey(r) == FlowKey(f)
  {
    hide WordBytes;
    var r := Rewrite(f, mac, src);
    AddressBytes(mac);
    assert r[12..] == f[12..];
    assert forall i | 12 <= i < |f| :: r[i] == r[12..][i - 12] && f[i] == f[12..][i - 12];
    assert Accepted(r) == Accepted(f);
    var addr, port := ETH_HEADER_LEN + IPV4_SRCDST_OFFSET, ETH_HEADER_LEN + HeaderLen(f);
    assert r[addr..addr + IPV4_SRCDST_LEN] == f[addr..addr + IPV4_SRCDST_LEN];
    assert r[port..port + 4] == f[port..port + 4];
  }

  // A packet with its answer: rewritten, or left alone when there is none.
  function Forwarded(f: seq<bv8>, mac: nat, src: seq<bv8>): seq<bv8>
    requires |f| >= 12 && |src| == 6
  {
    if mac > 0 then Rewrite(f, mac, src) else f
  }

  // ----- What a burst should do

  ghost predicate AllReadable(pkts: seq<seq<bv8>>) {
    forall j | 0 <= j < |pkts| :: Readable(pkts[j])
  }

  // The answer for a flow: what the table holds for it in the end.
  function Held(m: map<nat, nat>, k: nat): nat {
    if k != 0 && k in m then m[k] else 0
  }

  ghost predicate Delivered(before: seq<seq<bv8>>, after: seq<seq<bv8>>, macs: seq<nat>, src: seq<bv8>)
    requires AllReadable(before) && |src| == 6
  {
    |before| == |after| == |macs| && forall j | 0 <= j < |before| :: after[j] == Forwarded(before[j], macs[j], src)
  }

  // Which bytes that leaves: an answered packet carries the low six bytes of its
  // answer, least significant first, then the port's own address; nothing else
  // changes, and an unanswered packet is as it came.
  lemma DeliveredMeaning(before: seq<seq<bv8>>, after: seq<seq<bv8>>, macs: seq<nat>, src: seq<bv8>)
    requires AllReadable(before) && |src| == 6 && Delivered(before, after, macs, src)
    ensures |before| == |after| == |macs|
    ensures forall j | 0 <= j < |before| && macs[j] == 0 :: after[j] == before[j]
    ensures forall j | 0 <= j < |before| && macs[j] > 0 ::
      var r, mac := after[j], macs[j];
      && |r| == |before[j]| >= 12
      && r[0] == (mac % 0x100) as bv8 && r[1] == (mac / 0x100 % 0x100) as bv8
      && r[2] == (mac / 0x1_0000 % 0x100) as bv8 && r[3] == (mac / 0x100_0000 % 0x100) as bv8
      && r[4] == (mac / 0x1_0000_0000 % 0x100) as bv8 && r[5] == (mac / 0x100_0000_0000 % 0x100) as bv8
      && r[6..12] == src && r[12..] == before[j][12..]
  {
    hide Rewrite, FlowKey, HeaderLen;
    forall j | 0 <= j < |before| { RewriteKeepsFlow(before[j], macs[j], src); }
  }

  ghost predicate OwnAnswers(pkts: seq<seq<bv8>>, macs: seq<nat>, m: map<nat, nat>)
    requires AllReadable(pkts)
  {
    |pkts| == |macs| && forall j | 0 <= j < |pkts| :: macs[j] == Held(m, FlowKey(pkts[j]))
  }

  ghost function FlowKeys(pkts: seq<seq<bv8>>): set<nat>
    requires AllReadable(pkts)
  {
    set j | 0 <= j < |pkts| :: FlowKey(pkts[j])
  }

  // Old bindings stay; new ones are lookup-table entries of the keys given.
  ghost predicate Learned(m: map<nat, nat>, m': map<nat, nat>, lut: seq<nat>, keys: set<nat>)
    requires |lut| == TABLE_SIZE
  {
    && (forall k | k in m :: k in m' && m'[k] == m[k])
    && (forall k | k in m' && k !in m :: k in keys && m'[k] == lut[k % 65537])
  }

  // So a packet is told what its flow was bound to before the burst, or else its
  // entry of the lookup table, or 0; and only flows of the burst are new.
  lemma AnswersMeaning(pkts: seq<seq<bv8>>, macs: seq<nat>, m: map<nat, nat>, m': map<nat, nat>, lut: seq<nat>)
    requires |lut| == TABLE_SIZE && AllReadable(pkts)
    requires OwnAnswers(pkts, macs, m') && Learned(m, m', lut, FlowKeys(pkts))
    ensures |macs| == |pkts| && forall j | 0 <= j < |pkts| ::
      var k := FlowKey(pkts[j]);
      macs[j] == if k == 0 then 0 else if k in m then m[k] else if k in m' then lut[k % 65537] else 0
    ensures forall k | k in m :: k in m' && m'[k] == m[k]
    ensures forall k | k in m' && k !in m :: exists j | 0 <= j < |pkts| :: FlowKey(pkts[j]) == k
  {
    hide FlowKey;
  }

  function Answered(macs: seq<nat>): (n: nat)
    ensures n <= |macs|
  {
    if macs == [] then 0 else Answered(macs[..|macs| - 1]) + if macs[|macs| - 1] > 0 then 1 else 0
  }

  lemma {:induction false} AnsweredUpdate(macs: seq<nat>, j: nat, mac: nat)
    requires j < |macs| && macs[j] == 0
    ensures Answered(macs[j := mac]) == Answered(macs) + if mac > 0 then 1 else 0
  {
    var n := |macs| - 1;
    if j == n {
      assert macs[j := mac][..n] == macs[..n];
    } else {
      assert macs[j := mac][..n] == macs[..n][j := mac];
      AnsweredUpdate(macs[..n], j, mac);
    }
  }

  lemma {:induction false} AnsweredCounts(macs: seq<nat>)
    ensures Answered(macs) == |set j | 0 <= j < |macs| && macs[j] > 0|
  {
    var s := set j | 0 <= j < |macs| && macs[j] > 0;
    if macs != [] {
      var n := |macs| - 1;
      AnsweredCounts(macs[..n]);
      var r := set j | 0 <= j < n && macs[..n][j] > 0;
      assert s == if macs[n] > 0 then r + {n} else r;
    }
  }

  lemma AnsweredAppend(macs: seq<nat>, mac: nat)
    ensures Answered(macs + [mac]) == Answered(macs) + if mac > 0 then 1 else 0
  {
    assert (macs + [mac])[..|macs|] == macs;
  }

  lemma {:induction false} AnsweredNone(n: nat)
    ensures Answered(seq(n, i => 0)) == 0
  {
    if n > 0 {
      assert seq(n, i => 0)[..n - 1] == seq(n - 1, i => 0);
      AnsweredNone(n - 1);
    }
  }

  // The packets with a flow hash, in order: what compaction picks.
  ghost predicate Picked(pkts: seq<seq<bv8>>, n: nat, frames: seq<nat>, args: seq<DB.Arg>)
    requires n <= |pkts| && AllReadable(pkts)
  {
    && |frames| == |args| <= n
    && (forall i | 0 <= i < |frames| :: frames[i] < n && args[i] == DB.Arg(FlowKey(pkts[frames[i]]), i) && args[i].k != 0)
    && (forall i, j | 0 <= i < j < |frames| :: frames[i] < frames[j])
    && (forall j | 0 <= j < n :: FlowKey(pkts[j]) != 0 ==> j in frames)
  }

  // Answers scattered so far: those of the first i picked packets.
  ghost predicate Scattered(frames: seq<nat>, macAddrs: seq<nat>, i: nat, macs: seq<nat>)
    requires i <= |frames| <= |macAddrs|
  {
    && (forall a | 0 <= a < i :: frames[a] < |macs| && macs[frames[a]] == macAddrs[a])
    && (forall j | 0 <= j < |macs| && j !in frames[..i] :: macs[j] == 0)
  }

  lemma ScatterOne(frames: seq<nat>, macAddrs: seq<nat>, i: nat, macs: seq<nat>)
    requires i < |frames| <= |macAddrs| && frames[i] < |macs| && Scattered(frames, macAddrs, i, macs)
    requires forall a, b | 0 <= a < b < |frames| :: frames[a] < frames[b]
    ensures macs[frames[i]] == 0 && Scattered(frames, macAddrs, i + 1, macs[frames[i] := macAddrs[i]])
  {
    assert frames[..i + 1] == frames[..i] + [frames[i]];
    assert frames[i] !in frames[..i];
  }

  lemma PickedFacts(pkts: seq<seq<bv8>>, frames: seq<nat>, args: seq<DB.Arg>)
    requires AllReadable(pkts) && Picked(pkts, |pkts|, frames, args)
    ensures |args| == |frames|
    ensures forall i | 0 <= i < |frames| :: frames[i] < |pkts|
    ensures forall i | 0 <= i < |args| :: args[i].id == i && args[i].k != 0
    ensures forall i, j | 0 <= i < j < |frames| :: frames[i] < frames[j]
  {
  }

  lemma ScatterStart(pkts: seq<seq<bv8>>, frames: seq<nat>, macAddrs: seq<nat>, macs: seq<nat>, src: seq<bv8>)
    requires AllReadable(pkts) && |src| == 6 && |frames| <= |macAddrs| && macs == seq(|pkts|, i => 0)
    ensures Scattered(frames, macAddrs, 0, macs) && Delivered(pkts, pkts, macs, src)
  {
  }

  lemma DeliverOne(before: seq<seq<bv8>>, now: seq<seq<bv8>>, macs: seq<nat>, src: seq<bv8>, j: nat, mac: nat)
    requires AllReadable(before) && |src| == 6 && Delivered(before, now, macs, src)
    requires j < |macs| && macs[j] == 0
    ensures j < |now| && |now[j]| >= 12
    ensures Delivered(before, now[j := Forwarded(now[j], mac, src)], macs[j := mac], src)
  {
  }

  lemma ScatterDone(pkts: seq<seq<bv8>>, frames: seq<nat>, args: seq<DB.Arg>, macAddrs: seq<nat>, macs: seq<nat>, m: map<nat, nat>)
    requires AllReadable(pkts) && Picked(pkts, |pkts|, frames, args) && |macAddrs| >= |frames| && |macs| == |pkts|
    requires Scattered(frames, macAddrs, |frames|, macs)
    requires forall i | 0 <= i < |frames| :: macAddrs[i] == Held(m, args[i].k)
    ensures OwnAnswers(pkts, macs, m)
  {
    hide FlowKey;
    assert frames[..|frames|] == frames;
    forall j | 0 <= j < |pkts| ensures macs[j] == Held(m, FlowKey(pkts[j])) {
      if j in frames {
        var a :| 0 <= a < |frames| && frames[a] == j;
        assert macs[frames[a]] == macAddrs[a];
      }
    }
  }

  lemma BurstAnswers(L: Layout, t: seq<Slot>, t': seq<Slot>, lut: seq<nat>, args: seq<DB.Arg>, ret: seq<nat>)
    requires L.Bucketed() && |lut| == TABLE_SIZE && |ret| == |args|
    requires DB.Progress(L, t, t', lut, args, DB.Members(P.Range(|args|)), ret)
    requires forall i | 0 <= i < |args| :: args[i].k != 0
    ensures WF(L, t) && Grows(t, t') && WF(L, t') && forall i | 0 <= i < |args| :: ret[i] == Held(ToMap(t'), args[i].k)
    ensures Learned(ToMap(t), ToMap(t'), lut, ArgKeys(args))
  {
    Sim.BurstMeaning(L, t, t', lut, args, ret);
    hide Find, NoGap, Unique, EmptyIsZero, Served, Grows;
    forall i | 0 <= i < |args| ensures ret[i] == Held(ToMap(t'), args[i].k) {
      Sim.ReplyIsStored(L, t, t', lut, args, ret, i);
    }
  }

  ghost function ArgKeys(args: seq<DB.Arg>): set<nat> {
    set i | 0 <= i < |args| :: args[i].k
  }

  lemma PickedKeys(pkts: seq<seq<bv8>>, frames: seq<nat>, args: seq<DB.Arg>)
    requires AllReadable(pkts) && Picked(pkts, |pkts|, frames, args)
    ensures ArgKeys(args) <= FlowKeys(pkts)
  {
    hide FlowKey;
    forall k | k in ArgKeys(args) ensures k in FlowKeys(pkts) {
      var i :| 0 <= i < |args| && args[i].k == k;
      assert FlowKey(pkts[frames[i]]) == k;
    }
  }

  lemma LearnedNothing(m: map<nat, nat>, lut: seq<nat>, keys: set<nat>)
    requires |lut| == TABLE_SIZE
    ensures Learned(m, m, lut, keys)
  {
  }

  lemma LearnedMore(m: map<nat, nat>, m': map<nat, nat>, lut: seq<nat>, some: set<nat>, keys: set<nat>)
    requires |lut| == TABLE_SIZE && Learned(m, m', lut, some) && some <= keys
    ensures Learned(m, m', lut, keys)
  {
  }

  lemma LearnedOne(m: map<nat, nat>, m': map<nat, nat>, room: bool, lut: seq<nat>, pkts: seq<seq<bv8>>, j: nat)
    requires |lut| == TABLE_SIZE && AllReadable(pkts) && Learned(m, m', lut, FlowKeys(pkts)) && j < |pkts|
    ensures Learned(m, ServeOne(m', room, lut, FlowKey(pkts[j])).0, lut, FlowKeys(pkts))
  {
    hide FlowKey;
    assert FlowKey(pkts[j]) in FlowKeys(pkts);
  }

  // One Maglev packet: its answer is what the table holds for it from now on,
  // and so it stays for the packets before it.
  lemma ServeKeepsAnswers(m: map<nat, nat>, room: bool, lut: seq<nat>, k: nat, k': nat)
    requires |lut| == TABLE_SIZE
    ensures var r := ServeOne(m, room, lut, k);
      && r.1 == Held(r.0, k)
      && (k != 0 && k !in r.0 ==> !room)
      && (k' == 0 || k' in m || !room ==> Held(r.0, k') == Held(m, k') && (k' in m ==> k' in r.0))
  {
  }

  // The first |macs| packets are delivered, the others untouched.
  ghost predicate DeliveredTo(before: seq<seq<bv8>>, now: seq<seq<bv8>>, macs: seq<nat>, src: seq<bv8>)
    requires AllReadable(before) && |src| == 6
  {
    && |now| == |before| && |macs| <= |before|
    && (forall i | 0 <= i < |macs| :: now[i] == Forwarded(before[i], macs[i], src))
    && (forall i | |macs| <= i < |before| :: now[i] == before[i])
  }

  lemma DeliverNext(before: seq<seq<bv8>>, now: seq<seq<bv8>>, macs: seq<nat>, src: seq<bv8>)
    requires AllReadable(before) && |src| == 6 && DeliveredTo(before, now, macs, src) && |macs| < |before|
    ensures |now| == |before| && now[|macs|] == before[|macs|] && Readable(now[|macs|]) && |now[|macs|]| >= 12
    ensures forall mac: nat :: DeliveredTo(before, now[|macs| := Forwarded(now[|macs|], mac, src)], macs + [mac], src)
  {
    hide HeaderLen;
  }

  lemma DeliveredAll(before: seq<seq<bv8>>, now: seq<seq<bv8>>, macs: seq<nat>, src: seq<bv8>)
    requires AllReadable(before) && |src| == 6 && DeliveredTo(before, now, macs, src) && |macs| == |before|
    ensures Delivered(before, now, macs, src)
  {
  }

  // Answers to the first j packets agree with the table, and an unmapped flow
  // means that the table is full.
  ghost predicate Settled(pkts: seq<seq<bv8>>, j: nat, macs: seq<nat>, m: map<nat, nat>, room: bool)
    requires j <= |pkts| && AllReadable(pkts) && |macs| == j
  {
    forall i | 0 <= i < j :: var k := FlowKey(pkts[i]); macs[i] == Held(m, k) && (k == 0 || k in m || !room)
  }

  lemma SettledAll(pkts: seq<seq<bv8>>, macs: seq<nat>, m: map<nat, nat>, room: bool)
    requires AllReadable(pkts) && |macs| == |pkts| && Settled(pkts, |pkts|, macs, m, room)
    ensures OwnAnswers(pkts, macs, m)
  {
  }

  lemma NoneSettled(pkts: seq<seq<bv8>>, m: map<nat, nat>, room: bool)
    requires AllReadable(pkts)
    ensures Settled(pkts, 0, [], m, room) && Answered([]) == 0
  {
  }

  lemma NoneDelivered(before: seq<seq<bv8>>, src: seq<bv8>)
    requires AllReadable(before) && |src| == 6
    ensures DeliveredTo(before, before, [], src)
  {
  }

  lemma SettleOne(pkts: seq<seq<bv8>>, j: nat, macs: seq<nat>, m: map<nat, nat>, room: bool, room': bool, lut: seq<nat>)
    requires |lut| == TABLE_SIZE && j < |pkts| && AllReadable(pkts) && |macs| == j
    requires Settled(pkts, j, macs, m, room) && (!room ==> !room')
    ensures var r := ServeOne(m, room, lut, FlowKey(pkts[j])); Settled(pkts, j + 1, macs + [r.1], r.0, room')
  {
    hide FlowKey, Held, ServeOne, Readable;
    var k := FlowKey(pkts[j]);
    forall i | 0 <= i < j + 1 ensures ServeKeepsFor(m, room, room', lut, k, FlowKey(pkts[i]), (macs + [ServeOne(m, room, lut, k).1])[i]) {
      ServeKeepsAnswers(m, room, lut, k, FlowKey(pkts[i]));
    }
  }

  ghost predicate ServeKeepsFor(m: map<nat, nat>, room: bool, room': bool, lut: seq<nat>, k: nat, k': nat, mac: nat)
    requires |lut| == TABLE_SIZE
  {
    var r := ServeOne(m, room, lut, k);
    mac == Held(r.0, k') && (k' == 0 || k' in r.0 || !room')
  }

  class Lcore {
    const db: DB.Table
    const mg: MG.ConnTrack
    const src: seq<bv8>
    const maglevEnabled: bool
    const dramblastEnabled: bool

    // Counters of the one port this lcore serves.
    var rxCount: nat
    var rx: nat
    var tx: nat
    var fwded: nat
    var unmapped: nat
    var txDropped: nat

    ghost predicate Valid()
      reads this, db, db.slots, db.queue, db.queue.items, mg, mg.pairs
    {
      |src| == 6 && db.slots != mg.pairs && db.Valid() && db.queue.contents == [] && mg.Valid()
    }

    // Every packet received is forwarded or unmapped, and sent or dropped.
    ghost predicate Balanced()
      reads this
    {
      rx == fwded + unmapped == tx + txDropped
    }

    constructor (table: DB.Table, conntrack: MG.ConnTrack, address: seq<bv8>, maglev: bool, dramblast: bool)
      requires |address| == 6 && table.slots != conntrack.pairs
      requires table.Valid() && table.queue.contents == [] && conntrack.Valid()
      ensures Valid() && Balanced() && db == table && mg == conntrack
    {
      db, mg, src, maglevEnabled, dramblastEnabled := table, conntrack, address, maglev, dramblast;
      rxCount, rx, tx, fwded, unmapped, txDropped := 0, 0, 0, 0, 0, 0;
    }

    // Compaction of a burst into lookup requests.
    method Compact(pkts: array<seq<bv8>>, n: nat, frames: array<nat>) returns (args: seq<DB.Arg>)
      requires n <= pkts.Length && AllReadable(pkts[..]) && n <= frames.Length
      modifies frames
      ensures |args| <= n && Picked(pkts[..], n, frames[..|args|], args)
    {
      args := [];
      for j := 0 to n
        invariant |args| <= j && Picked(pkts[..], j, frames[..|args|], args)
      {
        var hash := FlowHash(pkts[j]);
        var key := hash as nat;
        if key > 0 {
          ghost var before := frames[..|args|];
          frames[|args|] := j;
          assert frames[..|args|] == before;
          assert frames[..|args| + 1] == before + [j];
          args := args + [DB.Arg(key, |args|)];
        }
      }
    }

    // The answers go back to the packets their requests came from.
    method Scatter(pkts: array<seq<bv8>>, frames: array<nat>, macAddrs: array<nat>, fn: nat)
      returns (found: nat, ghost macs: seq<nat>)
      requires fn <= frames.Length && fn <= macAddrs.Length && AllReadable(pkts[..]) && |src| == 6
      requires frames != macAddrs
      requires forall i | 0 <= i < fn :: frames[i] < pkts.Length
      requires forall i, j | 0 <= i < j < fn :: frames[i] < frames[j]
      modifies pkts
      ensures |macs| == pkts.Length && Delivered(old(pkts[..]), pkts[..], macs, src) && found == Answered(macs)
      ensures Scattered(frames[..fn], macAddrs[..], fn, macs)
    {
      hide Forwarded, Scattered, Delivered, Answered, HeaderLen;
      ghost var before := pkts[..];
      found, macs := 0, seq(pkts.Length, i => 0);
      AnsweredNone(pkts.Length);
      ScatterStart(before, frames[..fn], macAddrs[..], macs, src);
      for j := 0 to fn
        invariant |macs| == pkts.Length && Delivered(before, pkts[..], macs, src) && found == Answered(macs)
        invariant Scattered(frames[..fn], macAddrs[..], j, macs)
      {
        ScatterOne(frames[..fn], macAddrs[..], j, macs);
        AnsweredUpdate(macs, frames[j], macAddrs[j]);
        DeliverOne(before, pkts[..], macs, src, frames[j], macAddrs[j]);
        Deliver(pkts, frames[j], macAddrs[j]);
        if macAddrs[j] > 0 { found := found + 1; }
        macs := macs[frames[j] := macAddrs[j]];
      }
    }

    method LookUpAll(args: seq<DB.Arg>, macAddrs: array<nat>)
      requires Valid() && |args| <= macAddrs.Length
      requires forall i | 0 <= i < |args| :: args[i].id == i && args[i].k != 0
      modifies db.queue, db.queue.items, db.slots, macAddrs
      ensures Valid() && Grows(old(db.slots[..]), db.slots[..])
      ensures Learned(ToMap(old(db.slots[..])), ToMap(db.slots[..]), db.backends, ArgKeys(args))
      ensures forall i | 0 <= i < |args| :: macAddrs[i] == Held(ToMap(db.slots[..]), args[i].k)
    {
      hide DB.Progress, NoGap, Unique, EmptyIsZero, Grows, Learned;
      ghost var t := db.slots[..];
      db.ProcessFrames(args, macAddrs);
      BurstAnswers(db.layout, t, db.slots[..], db.backends, args, macAddrs[..|args|]);
      assert forall i | 0 <= i < |args| :: macAddrs[i] == macAddrs[..|args|][i];
    }

    // Compacts the burst and looks its flows up.
    method LookUpBurst(pkts: array<seq<bv8>>, frames: array<nat>, macAddrs: array<nat>)
      returns (fn: nat, ghost args: seq<DB.Arg>)
      requires Valid() && AllReadable(pkts[..]) && frames != macAddrs
      requires pkts.Length <= frames.Length && pkts.Length <= macAddrs.Length
      modifies db.queue, db.queue.items, db.slots, frames, macAddrs
      ensures Valid() && Grows(old(db.slots[..]), db.slots[..])
      ensures Learned(ToMap(old(db.slots[..])), ToMap(db.slots[..]), db.backends, FlowKeys(pkts[..]))
      ensures fn == |args| <= pkts.Length && Picked(pkts[..], pkts.Length, frames[..fn], args)
      ensures forall i | 0 <= i < fn :: macAddrs[i] == Held(ToMap(db.slots[..]), args[i].k)
    {
      hide Picked, AllReadable, NoGap, Unique, EmptyIsZero, Grows, Held, Learned, FlowKeys, ArgKeys;
      ghost var m := ToMap(db.slots[..]);
      var requests := Compact(pkts, pkts.Length, frames);
      fn, args := |requests|, requests;
      PickedFacts(pkts[..], frames[..fn], requests);
      GrowsSelf(db.slots[..]);
      LearnedNothing(m, db.backends, FlowKeys(pkts[..]));
      if fn > 0 {
        LookUpAll(requests, macAddrs);
        PickedKeys(pkts[..], frames[..fn], requests);
        LearnedMore(m, ToMap(db.slots[..]), db.backends, ArgKeys(requests), FlowKeys(pkts[..]));
      }
    }

    // DRAMBlast mode: compact, look up, scatter.
    method RunDramblast(pkts: array<seq<bv8>>) returns (found: nat, ghost macs: seq<nat>)
      requires Valid() && pkts.Length <= MAX_PKT_BURST && AllReadable(pkts[..])
      modifies db.queue, db.queue.items, db.slots, pkts
      ensures Valid() && Grows(old(db.slots[..]), db.slots[..])
      ensures Delivered(old(pkts[..]), pkts[..], macs, src) && |macs| == pkts.Length && found == Answered(macs)
      ensures OwnAnswers(old(pkts[..]), macs, ToMap(db.slots[..]))
      ensures Learned(ToMap(old(db.slots[..])), ToMap(db.slots[..]), db.backends, FlowKeys(old(pkts[..])))
    {
      hide Delivered, Scattered, Picked, OwnAnswers, AllReadable, NoGap, Unique, EmptyIsZero, Grows, Held, Learned, FlowKeys;
      ghost var before := pkts[..];
      var frames := new nat[MAX_PKT_BURST](i => 0);
      var macAddrs := new nat[MAX_PKT_BURST](i => 0);
      var fn;
      ghost var args;
      fn, args := LookUpBurst(pkts, frames, macAddrs);
      PickedFacts(before, frames[..fn], args);
      found, macs := Scatter(pkts, frames, macAddrs, fn);
      ScatterDone(before, frames[..fn], args, macAddrs[..], macs, ToMap(db.slots[..]));
    }

    // Maglev mode: one packet after the other.
    method RunMaglev(pkts: array<seq<bv8>>) returns (ghost macs: seq<nat>)
      requires Valid() && AllReadable(pkts[..])
      modifies mg.pairs, pkts, this`fwded, this`unmapped
      ensures Valid()
      ensures Delivered(old(pkts[..]), pkts[..], macs, src) && OwnAnswers(old(pkts[..]), macs, ToMap(mg.pairs[..]))
      ensures Learned(ToMap(old(mg.pairs[..])), ToMap(mg.pairs[..]), mg.lookup, FlowKeys(old(pkts[..])))
      ensures fwded == old(fwded) + Answered(macs) && unmapped == old(unmapped) + pkts.Length - Answered(macs)
    {
      hide Learned, FlowKeys, Forwarded, Readable, DeliveredTo, Delivered, Answered, Settled, OwnAnswers, NoGap, Unique, EmptyIsZero, FlowKey, Held, ServeOne, Full, Grows;
      ghost var before, m := pkts[..], ToMap(mg.pairs[..]);
      macs := [];
      LearnedNothing(m, mg.lookup, FlowKeys(before));
      NoneDelivered(before, src);
      NoneSettled(before, ToMap(mg.pairs[..]), !Full(mg.pairs[..]));
      for j := 0 to pkts.Length
        invariant Valid() && |macs| == j && DeliveredTo(before, pkts[..], macs, src)
        invariant Learned(m, ToMap(mg.pairs[..]), mg.lookup, FlowKeys(before))
        invariant Settled(before, j, macs, ToMap(mg.pairs[..]), !Full(mg.pairs[..]))
        invariant fwded == old(fwded) + Answered(macs) && unmapped == old(unmapped) + j - Answered(macs)
      {
        DeliverNext(before, pkts[..], macs, src);
        ghost var t := mg.pairs[..];
        var mac := mg.ProcessFrame(pkts[j]);
        FullStays(t, mg.pairs[..]);
        LearnedOne(m, ToMap(t), !Full(t), mg.lookup, before, j);
        SettleOne(before, j, macs, ToMap(t), !Full(t), !Full(mg.pairs[..]), mg.lookup);
        AnsweredAppend(macs, mac);
        macs := macs + [mac];
        Deliver(pkts, j, mac);
        if mac == 0 {
          unmapped := unmapped + 1;
        } else {
          fwded := fwded + 1;
        }
      }
      DeliveredAll(before, pkts[..], macs, src);
      SettledAll(before, macs, ToMap(mg.pairs[..]), !Full(mg.pairs[..]));
    }

    method Deliver(pkts: array<seq<bv8>>, j: nat, mac: nat)
      requires j < pkts.Length && |pkts[j]| >= 12 && |src| == 6
      modifies pkts
      ensures pkts[..] == old(pkts[..])[j := Forwarded(old(pkts[j]), mac, src)]
    {
      if mac != 0 { pkts[j] := Rewrite(pkts[j], mac, src); }
    }

    // No lookup: every packet gets the same placeholder address.
    method RunNone(pkts: array<seq<bv8>>)
      requires |src| == 6 && AllReadable(pkts[..])
      modifies pkts
      ensures Delivered(old(pkts[..]), pkts[..], seq(pkts.Length, i => 0xff), src)
    {
      hide Forwarded, Readable, DeliveredTo;
      ghost var before, macs := pkts[..], [];
      assert DeliveredTo(before, pkts[..], macs, src) by { NoneDelivered(before, src); }
      for j := 0 to pkts.Length
        invariant macs == seq(j, i => 0xff) && DeliveredTo(before, pkts[..], macs, src)
      {
        DeliverNext(before, pkts[..], macs, src);
        Deliver(pkts, j, 0xff);
        macs := macs + [0xff];
      }
      DeliveredAll(before, pkts[..], macs, src);
    }

    // Hands the burst to the table of the mode, and counts its answers.
    method Route(pkts: array<seq<bv8>>) returns (ghost macs: seq<nat>)
      requires Valid() && pkts.Length <= MAX_PKT_BURST && AllReadable(pkts[..])
      modifies this`fwded, this`unmapped, db.queue, db.queue.items, db.slots, mg.pairs, pkts
      ensures Valid()
      ensures Delivered(old(pkts[..]), pkts[..], macs, src)
      ensures fwded == old(fwded) + Answered(macs) && unmapped == old(unmapped) + pkts.Length - Answered(macs)
      ensures maglevEnabled ==> OwnAnswers(old(pkts[..]), macs, ToMap(mg.pairs[..]))
      ensures maglevEnabled ==> Learned(ToMap(old(mg.pairs[..])), ToMap(mg.pairs[..]), mg.lookup, FlowKeys(old(pkts[..])))
      ensures !maglevEnabled && dramblastEnabled ==> OwnAnswers(old(pkts[..]), macs, ToMap(db.slots[..]))
      ensures !maglevEnabled && dramblastEnabled ==>
        Learned(ToMap(old(db.slots[..])), ToMap(db.slots[..]), db.backends, FlowKeys(old(pkts[..])))
      ensures !maglevEnabled && !dramblastEnabled ==> macs == seq(pkts.Length, i => 0xff)
    {
      hide Learned, FlowKeys, Delivered, OwnAnswers, Readable, NoGap, Unique, EmptyIsZero, FlowKey, Held, Grows;
      if maglevEnabled {
        macs := RunMaglev(pkts);
      } else if dramblastEnabled {
        var found;
        found, macs := RunDramblast(pkts);
        fwded := fwded + found;
        unmapped := unmapped + (pkts.Length - found);
      } else {
        RunNone(pkts);
        macs := seq(pkts.Length, i => 0xff);
        AnsweredAll(pkts.Length);
        fwded := fwded + pkts.Length;
      }
    }

    // One received burst, of which the device then takes nbTx packets.
    method ServeBurst(pkts: array<seq<bv8>>, nbTx: nat) returns (ghost macs: seq<nat>)
      requires Valid() && Balanced() && pkts.Length <= MAX_PKT_BURST && nbTx <= pkts.Length && AllReadable(pkts[..])
      modifies this`rxCount, this`rx, this`tx, this`fwded, this`unmapped, this`txDropped
      modifies db.queue, db.queue.items, db.slots, mg.pairs, pkts
      ensures Valid() && Balanced()
      ensures rx == old(rx) + pkts.Length && rxCount == old(rxCount) + 1 && tx == old(tx) + nbTx
      ensures Delivered(old(pkts[..]), pkts[..], macs, src) && fwded == old(fwded) + Answered(macs)
      ensures unmapped == old(unmapped) + pkts.Length - Answered(macs)
      ensures txDropped == old(txDropped) + pkts.Length - nbTx
      ensures maglevEnabled ==> OwnAnswers(old(pkts[..]), macs, ToMap(mg.pairs[..]))
      ensures maglevEnabled ==> Learned(ToMap(old(mg.pairs[..])), ToMap(mg.pairs[..]), mg.lookup, FlowKeys(old(pkts[..])))
      ensures !maglevEnabled && dramblastEnabled ==> OwnAnswers(old(pkts[..]), macs, ToMap(db.slots[..]))
      ensures !maglevEnabled && dramblastEnabled ==>
        Learned(ToMap(old(db.slots[..])), ToMap(db.slots[..]), db.backends, FlowKeys(old(pkts[..])))
      ensures !maglevEnabled && !dramblastEnabled ==> macs == seq(pkts.Length, i => 0xff)
    {
      hide Learned, FlowKeys, OwnAnswers, Forwarded, HeaderLen, NoGap, Unique, EmptyIsZero, FlowKey, Held, Grows;
      var nbRx := pkts.Length;
      rxCount := rxCount + 1;
      macs := seq(nbRx, i => 0xff);
      if nbRx > 0 {
        rx := rx + nbRx;
        macs := Route(pkts);
        if nbTx < nbRx { txDropped := txDropped + (nbRx - nbTx); }
        if nbTx > 0 { tx := tx + nbTx; }
      } else {
        EmptyBurst(pkts[..], macs, src, ToMap(mg.pairs[..]), ToMap(db.slots[..]));
        LearnedNothing(ToMap(mg.pairs[..]), mg.lookup, FlowKeys(pkts[..]));
        LearnedNothing(ToMap(db.slots[..]), db.backends, FlowKeys(pkts[..]));
      }
    }
  }

  lemma EmptyBurst(pkts: seq<seq<bv8>>, macs: seq<nat>, src: seq<bv8>, m: map<nat, nat>, m': map<nat, nat>)
    requires |src| == 6 && pkts == [] && macs == []
    ensures AllReadable(pkts) && Delivered(pkts, pkts, macs, src) && OwnAnswers(pkts, macs, m) && OwnAnswers(pkts, macs, m')
  {
  }

  lemma FullStays(t: seq<Slot>, t': seq<Slot>)
    requires Grows(t, t')
    ensures Full(t) ==> Full(t')
  {
  }

  lemma {:induction false} AnsweredAll(n: nat)
    ensures Answered(seq(n, i => 0xff)) == n
  {
    if n > 0 {
      assert seq(n, i => 0xff)[..n - 1] == seq(n - 1, i => 0xff);
      AnsweredAll(n - 1);
    }
  }
}
