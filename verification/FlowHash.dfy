// FNV-1 over signed bytes, and the flow hash of an Ethernet frame.
module FlowHashing {

  const FNV_BASIS: bv64 := 0xcbf29ce484222325

  const ETH_HEADER_LEN: nat := 14
  const IPV4_PROTO_OFFSET: nat := 9
  const IPV4_SRCDST_OFFSET: nat := 12
  const IPV4_SRCDST_LEN: nat := 8

  // A `char` converted to uint64_t: the sign bit is copied upwards.
  function SignExtend(b: bv8): bv64 {
    if b >= 0x80 then 0xffff_ffff_ffff_ff00 | (b as bv64) else b as bv64
  }

  // Multiplication by FNV_PRIME, which is odd.
  function Scale(state: bv64): bv64 {
    state * 0x100000001b3
  }

  function Mix(x: bv64, y: bv64): bv64 {
    x ^ y
  }

  function FnvStep(state: bv64, b: bv8): bv64 {
    Mix(Scale(state), SignExtend(b))
  }

  function Fnv(data: seq<bv8>, state: bv64): bv64 {
    if data == [] then state else Fnv(data[1..], FnvStep(state, data[0]))
  }

  // `fnv_1_multi`
  method FnvMulti(data: seq<bv8>, start: bv64) returns (state: bv64)
    ensures state == Fnv(data, start)
  {
    hide Scale, Mix, SignExtend;
    state := start;
    for i := 0 to |data|
      invariant Fnv(data[i..], state) == Fnv(data, start)
    {
      assert data[i..][1..] == data[i + 1..];
      state := Scale(state);
      state := Mix(state, SignExtend(data[i]));
    }
  }

  // ----- Injectivity

  // Multiplication by the inverse of FNV_PRIME modulo 2^64.
  function Unscale(x: bv64): bv64 {
    x * 0xce965057aff6957b
  }

  lemma ProductCancels(x: bv64)
    ensures Unscale(x * 0x100000001b3) == x
  {
  }

  lemma ScaleCancels(x: bv64)
    ensures Unscale(Scale(x)) == x
  {
    hide Unscale;
    ProductCancels(x);
  }

  lemma MixInjective(x: bv64, x': bv64, y: bv64, y': bv64)
    ensures Mix(x, y) == Mix(x', y) ==> x == x'
    ensures Mix(x, y) == Mix(x, y') ==> y == y'
  {
  }

  // Bytes from 0x80 on stand for negative numbers, taken modulo 2^64.
  lemma SignExtendMeaning(b: bv8)
    ensures b < 0x80 ==> SignExtend(b) == b as bv64
    ensures b >= 0x80 ==> SignExtend(b) == (b as bv64) - 0x100
  {
  }

  // An address byte 192, hashed.
  lemma HighByteHash()
    ensures Fnv([0xc0], FNV_BASIS) == 0x509c42b379fe481f
  {
    assert FnvStep(FNV_BASIS, 0xc0) == 0x509c42b379fe481f;
    assert [0xc0 as bv8][1..] == [];
    assert Fnv([], 0x509c42b379fe481f) == 0x509c42b379fe481f;
  }

  lemma SignExtendInjective(a: bv8, b: bv8)
    requires a != b
    ensures SignExtend(a) != SignExtend(b)
  {
  }

  // A step loses nothing: not the state it started from ...
  lemma StepKeepsState(s: bv64, s': bv64, b: bv8)
    requires s != s'
    ensures FnvStep(s, b) != FnvStep(s', b)
  {
    hide Scale, Unscale, Mix, SignExtend;
    ScaleCancels(s);
    ScaleCancels(s');
    MixInjective(Scale(s), Scale(s'), SignExtend(b), SignExtend(b));
  }

  // ... and not the byte it took.
  lemma StepKeepsByte(s: bv64, a: bv8, b: bv8)
    requires a != b
    ensures FnvStep(s, a) != FnvStep(s, b)
  {
    hide Scale, Mix, SignExtend;
    SignExtendInjective(a, b);
    MixInjective(Scale(s), Scale(s), SignExtend(a), SignExtend(b));
  }

  lemma {:induction false} FnvKeepsDifference(data: seq<bv8>, s: bv64, s': bv64)
    requires s != s'
    ensures Fnv(data, s) != Fnv(data, s')
  {
    if data != [] {
      StepKeepsState(s, s', data[0]);
      FnvKeepsDifference(data[1..], FnvStep(s, data[0]), FnvStep(s', data[0]));
    }
  }

  ghost predicate DifferOnlyAt(x: seq<bv8>, y: seq<bv8>, i: nat) {
    |x| == |y| && i < |x| && x[i] != y[i] && forall j | 0 <= j < |x| && j != i :: x[j] == y[j]
  }

  lemma {:induction false} OneByteChangesHash(x: seq<bv8>, y: seq<bv8>, i: nat, s: bv64)
    requires DifferOnlyAt(x, y, i)
    ensures Fnv(x, s) != Fnv(y, s)
  {
    if i == 0 {
      assert x[1..] == y[1..];
      StepKeepsByte(s, x[0], y[0]);
      FnvKeepsDifference(x[1..], FnvStep(s, x[0]), FnvStep(s, y[0]));
    } else {
      OneByteChangesHash(x[1..], y[1..], i - 1, FnvStep(s, x[0]));
    }
  }

  lemma {:induction false} FnvAppend(x: seq<bv8>, y: seq<bv8>, s: bv64)
    ensures Fnv(x + y, s) == Fnv(y, Fnv(x, s))
  {
    if x == [] {
      assert x + y == y;
    } else {
      assert (x + y)[1..] == x[1..] + y;
      FnvAppend(x[1..], y, FnvStep(s, x[0]));
    }
  }

  // ----- Frames

  function HeaderLen(f: seq<bv8>): nat
    requires |f| > ETH_HEADER_LEN
  {
    4 * ((f[ETH_HEADER_LEN] & 0xf) as nat)
  }

  // What the hash reads lies inside the frame.
  predicate Readable(f: seq<bv8>) {
    |f| >= ETH_HEADER_LEN + IPV4_SRCDST_OFFSET + IPV4_SRCDST_LEN && |f| >= ETH_HEADER_LEN + HeaderLen(f) + 4
  }

  // IPv4, and TCP or UDP.
  predicate Accepted(f: seq<bv8>)
    requires Readable(f)
  {
    var proto := f[ETH_HEADER_LEN + IPV4_PROTO_OFFSET];
    f[ETH_HEADER_LEN] >> 4 == 4 && (proto == 6 || proto == 17)
  }

  // Source and destination addresses, protocol, source and destination ports.
  function FlowBytes(f: seq<bv8>): (r: seq<bv8>)
    requires Readable(f)
    ensures |r| == 13
  {
    var addr, port := ETH_HEADER_LEN + IPV4_SRCDST_OFFSET, ETH_HEADER_LEN + HeaderLen(f);
    f[addr..addr + IPV4_SRCDST_LEN] + [f[ETH_HEADER_LEN + IPV4_PROTO_OFFSET]] + f[port..port + 4]
  }

  function Hash(f: seq<bv8>): bv64
    requires Readable(f)
  {
    if Accepted(f) then Fnv(FlowBytes(f), FNV_BASIS) else 0
  }

  // The hash as a table key; 0 stands for a frame that is not handled.
  function FlowKey(f: seq<bv8>): nat
    requires Readable(f)
  {
    Hash(f) as nat
  }

  // `flowhash`: the three ranges are hashed one after the other.
  method FlowHash(f: seq<bv8>) returns (hash: bv64)
    requires Readable(f)
    ensures hash == Hash(f)
    ensures f[14] >> 4 != 4 || (f[23] != 6 && f[23] != 17) ==> hash == 0
    ensures f[14] >> 4 == 4 && (f[23] == 6 || f[23] == 17) ==>
      var port := 14 + 4 * ((f[14] & 0xf) as nat);
      hash == Fnv(f[26..34] + [f[23]] + f[port..port + 4], 0xcbf29ce484222325)
  {
    if f[ETH_HEADER_LEN] >> 4 != 4 { return 0; }
    var proto := f[ETH_HEADER_LEN + IPV4_PROTO_OFFSET];
    if proto != 6 && proto != 17 { return 0; }
    var v4len := HeaderLen(f);
    var addr := f[ETH_HEADER_LEN + IPV4_SRCDST_OFFSET..ETH_HEADER_LEN + IPV4_SRCDST_OFFSET + IPV4_SRCDST_LEN];
    var port := f[ETH_HEADER_LEN + v4len..ETH_HEADER_LEN + v4len + 4];
    hash := FNV_BASIS;
    hash := FnvMulti(addr, hash);
    hash := FnvMulti([proto], hash);
    hash := FnvMulti(port, hash);
    FnvAppend(addr + [proto], port, FNV_BASIS);
    FnvAppend(addr, [proto], FNV_BASIS);
  }

  // TCP and UDP frames over IPv4, with their ports at p and q, that agree on
  // addresses, protocol and ports hash alike; those that differ there in exactly
  // one byte hash differently, wherever their headers put the ports.
  lemma FlowSeparation(f: seq<bv8>, g: seq<bv8>, p: nat, q: nat)
    requires |f| >= 34 && f[14] >> 4 == 4 && (f[23] == 6 || f[23] == 17)
    requires |g| >= 34 && g[14] >> 4 == 4 && (g[23] == 6 || g[23] == 17)
    requires p == 14 + 4 * ((f[14] & 0xf) as nat) && |f| >= p + 4
    requires q == 14 + 4 * ((g[14] & 0xf) as nat) && |g| >= q + 4
    ensures Readable(f) && Readable(g)
    ensures var x, y := f[26..34] + [f[23]] + f[p..p + 4], g[26..34] + [g[23]] + g[q..q + 4];
      && (x == y ==> FlowKey(f) == FlowKey(g))
      && forall i | 0 <= i < 13 ::
           x[i] != y[i] && (forall j | 0 <= j < 13 && j != i :: x[j] == y[j]) ==> FlowKey(f) != FlowKey(g)
  {
    hide FlowKey, Fnv, Readable;
    KeyOfBytes(f, p);
    KeyOfBytes(g, q);
    var x, y := f[26..34] + [f[23]] + f[p..p + 4], g[26..34] + [g[23]] + g[q..q + 4];
    forall i | 0 <= i < 13 && x[i] != y[i] && (forall j | 0 <= j < 13 && j != i :: x[j] == y[j])
      ensures FlowKey(f) != FlowKey(g)
    {
      OneByteChangesHash(x, y, i, FNV_BASIS);
      NumbersDiffer(Fnv(x, FNV_BASIS), Fnv(y, FNV_BASIS));
    }
  }

  lemma NumbersDiffer(a: bv64, b: bv64)
    requires a != b
    ensures a as nat != b as nat
  {
    hide WordOf;
    WordOfNumber(a);
    WordOfNumber(b);
  }

  function WordOf(n: nat): bv64
    requires n < 0x1_0000_0000_0000_0000
  {
    n as bv64
  }

  lemma WordOfNumber(a: bv64)
    ensures a as nat < 0x1_0000_0000_0000_0000 && WordOf(a as nat) == a
  {
  }

  // The key of a TCP or UDP frame over IPv4: addresses, protocol, ports.
  lemma KeyOfBytes(f: seq<bv8>, p: nat)
    requires |f| >= 34 && f[14] >> 4 == 4 && (f[23] == 6 || f[23] == 17)
    requires p == 14 + 4 * ((f[14] & 0xf) as nat) && |f| >= p + 4
    ensures Readable(f)
    ensures FlowKey(f) == Fnv(f[26..34] + [f[23]] + f[p..p + 4], 0xcbf29ce484222325) as nat
  {
    hide Fnv;
    assert Accepted(f);
  }

  // Only TCP and UDP over IPv4 has a flow hash to speak of.
  lemma OthersHashToZero(f: seq<bv8>)
    requires Readable(f) && (f[14] >> 4 != 4 || (f[23] != 6 && f[23] != 17))
    ensures FlowKey(f) == 0
  {
  }
}
