// What get-or-insert means for a connection table, whatever its layout: the
// abstract map, its backend lookup table, and the replies to a burst of keys.
module GetOrInsert {
  import opened Buckets

  const TABLE_SIZE: nat := 65537

  function Backend(lut: seq<nat>, k: nat): nat
    requires |lut| == TABLE_SIZE
  {
    lut[k % TABLE_SIZE]
  }

  // 0 stands for "no mapping".
  function Reply(lut: seq<nat>, o: Outcome, k: nat, stored: bool): nat
    requires |lut| == TABLE_SIZE
  {
    match o
    case Found(v) => v
    case Absent => if stored then Backend(lut, k) else 0
    case TableFull => 0
  }

  // A burst looked up against m0 with outcomes `outs`, of which the requests in
  // `done` have been replied to, growing the map to m.
  ghost predicate Served(m0: map<nat, nat>, m: map<nat, nat>, full: bool, lut: seq<nat>,
                         keys: seq<nat>, outs: seq<Outcome>, done: set<nat>, ret: seq<nat>)
    requires |lut| == TABLE_SIZE && |keys| == |outs| == |ret|
  {
    && (forall k | k in m0 :: k in m && m[k] == m0[k])
    && (forall k | k in m && k !in m0 ::
          m[k] == Backend(lut, k) && exists i | i in done :: i < |keys| && keys[i] == k && outs[i].Absent?)
    && (forall i | i in done :: i < |keys| && ret[i] == Reply(lut, outs[i], keys[i], keys[i] in m))
    && (forall i | i in done :: i < |keys| && outs[i].Absent? && keys[i] !in m ==> full)
  }

  lemma ServeHit(m0: map<nat, nat>, m: map<nat, nat>, full: bool, lut: seq<nat>,
                 keys: seq<nat>, outs: seq<Outcome>, done: set<nat>, ret: seq<nat>, i: nat)
    requires |lut| == TABLE_SIZE && |keys| == |outs| == |ret|
    requires Served(m0, m, full, lut, keys, outs, done, ret) && i < |keys| && i !in done && !outs[i].Absent?
    ensures Served(m0, m, full, lut, keys, outs, done + {i}, ret[i := Reply(lut, outs[i], keys[i], false)])
  {
    forall k | k in m && k !in m0
      ensures exists a | a in done + {i} :: a < |keys| && keys[a] == k && outs[a].Absent?
    {
      var a :| a in done && a < |keys| && keys[a] == k && outs[a].Absent?;
      assert a in done + {i};
    }
  }

  // A definite miss tries to insert; the insert fails only into a full map.
  lemma ServeMiss(m0: map<nat, nat>, m: map<nat, nat>, full: bool, m': map<nat, nat>, full': bool, lut: seq<nat>,
                  keys: seq<nat>, outs: seq<Outcome>, done: set<nat>, ret: seq<nat>, i: nat, ok: bool)
    requires |lut| == TABLE_SIZE && |keys| == |outs| == |ret|
    requires Served(m0, m, full, lut, keys, outs, done, ret) && i < |keys| && i !in done && outs[i].Absent?
    requires keys[i] !in m0 && (ok <==> keys[i] in m || !full)
    requires m' == if ok then m[keys[i] := Backend(lut, keys[i])] else m
    requires full ==> full'
    ensures Served(m0, m', full', lut, keys, outs, done + {i}, ret[i := if ok then Backend(lut, keys[i]) else 0])
  {
    forall k | k in m' && k !in m0
      ensures exists a | a in done + {i} :: a < |keys| && keys[a] == k && outs[a].Absent?
    {
      if k == keys[i] {
        assert i in done + {i};
      } else {
        var a :| a in done && a < |keys| && keys[a] == k && outs[a].Absent?;
        assert a in done + {i};
      }
    }
  }

  // ----- One packet at a time

  function ServeOne(m: map<nat, nat>, room: bool, lut: seq<nat>, k: nat): (r: (map<nat, nat>, nat))
    requires |lut| == TABLE_SIZE
  {
    if k == 0 then (m, 0)
    else if k in m then (m, m[k])
    else if room then (m[k := Backend(lut, k)], Backend(lut, k))
    else (m, 0)
  }

  function ServeAll(m: map<nat, nat>, lut: seq<nat>, keys: seq<nat>): (r: (map<nat, nat>, seq<nat>))
    requires |lut| == TABLE_SIZE
    ensures |r.1| == |keys|
  {
    if keys == [] then (m, [])
    else
      var n := |keys| - 1;
      var r := ServeAll(m, lut, keys[..n]);
      var s := ServeOne(r.0, true, lut, keys[n]);
      (s.0, r.1 + [s.1])
  }

  // Each new flow gets its backend, once; every packet of a flow the same reply.
  lemma {:induction false} ServeAllMeaning(m: map<nat, nat>, lut: seq<nat>, keys: seq<nat>)
    requires |lut| == TABLE_SIZE && forall i | 0 <= i < |keys| :: keys[i] != 0
    ensures var r := ServeAll(m, lut, keys);
      && (forall k :: k in r.0 <==> k in m || k in keys)
      && (forall k | k in r.0 :: r.0[k] == if k in m then m[k] else lut[k % 65537])
      && (forall i | 0 <= i < |keys| :: keys[i] in r.0 && r.1[i] == r.0[keys[i]])
  {
    if keys != [] {
      var n := |keys| - 1;
      assert keys == keys[..n] + [keys[n]];
      ServeAllMeaning(m, lut, keys[..n]);
    }
  }
}
