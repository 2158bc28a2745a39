// Any number of threads on one table: DRAMBlast inserts and lookups, the
// reference insert with its cache-line snapshot, and lookups that fall back to
// an insert. A task is one call of one thread, with its program counter; every
// memory access is a step of its own, and actions interleave in any order.
module Concurrent {
  import opened Probing
  import opened Buckets
  import opened GetOrInsert

  datatype Task =
    // dramblast_insert_one, d slots past home
    | InsRead(k: nat, v: nat, d: nat)     // about to read the key (106)
    | InsCas(k: nat, v: nat, d: nat)      // read 0, about to compare-and-swap (111)
    | InsCheck(k: nat, v: nat, d: nat)    // about to read the key again (116)
    | InsStore(k: nat, v: nat, d: nat)    // matched, about to store the value (117)
    | InsDone(k: nat, v: nat, ok: bool)
    // one lookup of dramblast_find_batch_sync; `seen` holds the key lanes of
    // bucket n loaded so far, `late` records that k was stored before the start
    | FndRead(k: nat, n: nat, seen: map<nat, nat>, late: bool)
    | FndValue(k: nat, n: nat, j: nat, late: bool)
    | FndDone(k: nat, r: Outcome, late: bool)
    // __insert_branched at bucket n
    | RefRead(k: nat, v: nat, n: nat, seen: map<nat, nat>)
    | RefStore(k: nat, v: nat, n: nat, j: nat)
    | RefCas(k: nat, v: nat, n: nat, j: nat)
    | RefCheck(k: nat, v: nat, n: nat, j: nat)
    | RefDone(k: nat, v: nat)

  // `submitted`: keys of all calls; `wrote`: pairs some insert has written;
  // `stored`: keys some insert has returned success for.
  datatype Sys = Sys(t: seq<Slot>, tasks: seq<Task>, submitted: set<nat>, wrote: set<(nat, nat)>, stored: set<nat>)

  datatype Action =
    | StartFind(k: nat)
    | StartInsert(k: nat, v: nat)
    | StartRefInsert(k: nat, v: nat)
    | Fallback(i: nat)      // a finished ABSENT lookup goes on to insert its backend
    | Load(i: nat, j: nat)  // task i loads lane j of its bucket
    | Step(i: nat)

  // ----- Steps

  predicate Loaded(seen: map<nat, nat>) {
    0 in seen && 1 in seen && 2 in seen && 3 in seen
  }

  function FirstLane(seen: map<nat, nat>, x: nat): (j: nat)
    requires Loaded(seen)
    ensures j <= 4 && (j < 4 ==> j in seen && seen[j] == x)
    ensures forall i | 0 <= i < j :: i in seen && seen[i] != x
  {
    if seen[0] == x then 0 else if seen[1] == x then 1 else if seen[2] == x then 2
    else if seen[3] == x then 3 else 4
  }

  // The reference insert wraps round for ever.
  function NextRound(L: Layout, n: nat): nat {
    if 4 * n + 4 < L.len then n + 1 else 0
  }

  ghost predicate InBounds(L: Layout, x: Task)
    requires L.Bucketed()
  {
    match x
    case InsRead(_, _, d) => d < L.len
    case InsCas(_, _, d) => d < L.len
    case InsCheck(_, _, d) => d < L.len
    case InsStore(_, _, d) => d < L.len
    case FndRead(_, n, _, _) => 4 * n < L.len
    case FndValue(_, n, j, _) => 4 * n < L.len && j < 4
    case RefRead(_, _, n, _) => 4 * n < L.len
    case RefStore(_, _, n, j) => 4 * n < L.len && j < 4
    case RefCas(_, _, n, j) => 4 * n < L.len && j < 4
    case RefCheck(_, _, n, j) => 4 * n < L.len && j < 4
    case _ => true
  }

  function StepInsert(L: Layout, t: seq<Slot>, x: Task): (Task, seq<Slot>)
    requires L.Bucketed() && |t| == L.len && InBounds(L, x)
    requires x.InsRead? || x.InsCas? || x.InsCheck? || x.InsStore?
  {
    var i := L.At(x.k, x.d);
    match x
    case InsRead(k, v, d) => (if t[i].key == 0 then InsCas(k, v, d) else InsCheck(k, v, d), t)
    case InsCas(k, v, d) =>
      if t[i] == EMPTY then (InsDone(k, v, true), t[i := Slot(k, v)]) else (InsCheck(k, v, d), t)
    case InsCheck(k, v, d) =>
      (if t[i].key == k then InsStore(k, v, d)
       else if d + 1 >= L.len then InsDone(k, v, false)
       else InsRead(k, v, d + 1), t)
    case InsStore(k, v, d) => (InsDone(k, v, true), t[i := Slot(t[i].key, v)])
  }

  function StepFind(L: Layout, t: seq<Slot>, x: Task): Task
    requires L.Bucketed() && |t| == L.len && InBounds(L, x)
    requires x.FndValue? || (x.FndRead? && Loaded(x.seen))
  {
    match x
    case FndValue(k, n, j, late) => FndDone(k, Found(t[Base(L, k, n) + j].val), late)
    case FndRead(k, n, seen, late) =>
      var j := FirstLane(seen, k);
      if j < 4 then FndValue(k, n, j, late)
      else if 4 * n + 4 >= L.len then FndDone(k, TableFull, late)
      else if FirstLane(seen, 0) == 4 then FndRead(k, n + 1, map[], late)
      else FndDone(k, Absent, late)
  }

  function StepReference(L: Layout, t: seq<Slot>, x: Task): (Task, seq<Slot>)
    requires L.Bucketed() && |t| == L.len && InBounds(L, x)
    requires x.RefStore? || x.RefCas? || x.RefCheck? || (x.RefRead? && Loaded(x.seen))
  {
    var b := Base(L, x.k, x.n);
    match x
    case RefRead(k, v, n, seen) =>
      var j, e := FirstLane(seen, k), FirstLane(seen, 0);
      (if j < 4 then RefStore(k, v, n, j)
       else if e < 4 then RefCas(k, v, n, e)
       else RefRead(k, v, NextRound(L, n), map[]), t)
    case RefStore(k, v, n, j) => (RefDone(k, v), t[b + j := Slot(t[b + j].key, v)])
    case RefCas(k, v, n, j) =>
      if t[b + j] == EMPTY then (RefDone(k, v), t[b + j := Slot(k, v)]) else (RefCheck(k, v, n, j), t)
    case RefCheck(k, v, n, j) =>
      (if t[b + j].key == k then RefStore(k, v, n, j)
       else if j + 1 < 4 then RefCas(k, v, n, j + 1)
       else RefRead(k, v, NextRound(L, n), map[]), t)
  }

  // ----- What a task in progress knows

  // Lanes loaded earlier are still right wherever they were not empty.
  ghost predicate Fresh(L: Layout, t: seq<Slot>, k: nat, n: nat, seen: map<nat, nat>)
    requires L.Bucketed() && |t| == L.len && 4 * n < L.len
  {
    forall j | j in seen :: j < 4 && (seen[j] != 0 ==> t[Base(L, k, n) + j].key == seen[j])
  }

  // A lookup that started after k was stored has seen no hole before k.
  ghost predicate NoHoleSeen(L: Layout, t: seq<Slot>, k: nat, n: nat, seen: map<nat, nat>)
    requires L.Bucketed() && |t| == L.len && 4 * n < L.len && Fresh(L, t, k, n, seen)
  {
    Holds(t, k)
    && forall j, i {:trigger seen[j], t[i]} | j in seen && seen[j] == 0 && 0 <= i < |t| && t[i].key == k ::
         L.Dist(k, i) < L.Dist(k, Base(L, k, n) + j)
  }

  ghost predicate TaskInv(L: Layout, t: seq<Slot>, x: Task)
    requires L.Bucketed() && |t| == L.len
  {
    InBounds(L, x) &&
    match x
    case InsRead(k, _, d) => k != 0 && Passed(L, t, k, d)
    case InsCas(k, _, d) => k != 0 && Passed(L, t, k, d)
    case InsCheck(k, _, d) => k != 0 && Passed(L, t, k, d) && t[L.At(k, d)].key != 0
    case InsStore(k, _, d) => k != 0 && t[L.At(k, d)].key == k
    case InsDone(k, _, ok) => if ok then k != 0 && Holds(t, k) else k == 0 || Passed(L, t, k, L.len)
    case FndRead(k, n, seen, late) =>
      k != 0 && Passed(L, t, k, 4 * n) && Fresh(L, t, k, n, seen) && (late ==> NoHoleSeen(L, t, k, n, seen))
    case FndValue(k, n, j, _) => k != 0 && t[Base(L, k, n) + j].key == k
    case FndDone(k, r, late) =>
      k != 0 && (late ==> r.Found?) && (r.TableFull? ==> Passed(L, t, k, L.len - 4))
    case RefRead(k, _, n, seen) => k != 0 && Passed(L, t, k, 4 * n) && Fresh(L, t, k, n, seen)
    case RefStore(k, _, n, j) => k != 0 && t[Base(L, k, n) + j].key == k
    case RefCas(k, _, n, j) => k != 0 && Passed(L, t, k, 4 * n + j)
    case RefCheck(k, _, n, j) => k != 0 && Passed(L, t, k, 4 * n + j) && t[Base(L, k, n) + j].key != 0
    case RefDone(k, _) => k != 0 && Holds(t, k)
  }

  // ----- Other threads' writes do not disturb it

  lemma PassedStable(L: Layout, t: seq<Slot>, t': seq<Slot>, k: nat, d: nat)
    requires L.Valid() && |t| == L.len && Grows(t, t') && Passed(L, t, k, d)
    ensures Passed(L, t', k, d)
  {
  }

  lemma HoldsStable(t: seq<Slot>, t': seq<Slot>, k: nat)
    requires k != 0 && Grows(t, t') && Holds(t, k)
    ensures Holds(t', k)
  {
    var i :| 0 <= i < |t| && t[i].key == k;
    assert t'[i].key == k;
  }

  lemma NoHoleStable(L: Layout, t: seq<Slot>, t': seq<Slot>, k: nat, n: nat, seen: map<nat, nat>)
    requires L.Bucketed() && |t| == L.len && 4 * n < L.len && k != 0 && Grows(t, t') && Unique(t')
    requires Fresh(L, t, k, n, seen) && NoHoleSeen(L, t, k, n, seen)
    ensures Fresh(L, t', k, n, seen) && NoHoleSeen(L, t', k, n, seen)
  {
    HoldsStable(t, t', k);
    var a :| 0 <= a < |t| && t[a].key == k;
    assert t'[a].key == k;
    forall j, i | j in seen && seen[j] == 0 && 0 <= i < |t'| && t'[i].key == k
      ensures L.Dist(k, i) < L.Dist(k, Base(L, k, n) + j)
    {
      assert i == a;
    }
  }

  lemma TaskStable(L: Layout, t: seq<Slot>, t': seq<Slot>, x: Task)
    requires L.Bucketed() && |t| == L.len && Grows(t, t') && Unique(t') && TaskInv(L, t, x)
    ensures TaskInv(L, t', x)
  {
    hide Passed, Holds, NoHoleSeen, Unique;
    match x
    case InsRead(k, _, d) => PassedStable(L, t, t', k, d);
    case InsCas(k, _, d) => PassedStable(L, t, t', k, d);
    case InsCheck(k, _, d) => PassedStable(L, t, t', k, d);
    case InsStore(_, _, _) =>
    case InsDone(k, _, ok) => if k != 0 { if ok { HoldsStable(t, t', k); } else { PassedStable(L, t, t', k, L.len); } }
    case FndRead(k, n, seen, late) =>
      PassedStable(L, t, t', k, 4 * n);
      if late { NoHoleStable(L, t, t', k, n, seen); }
    case FndValue(_, _, _, _) =>
    case FndDone(k, r, _) => if r.TableFull? { PassedStable(L, t, t', k, L.len - 4); }
    case RefRead(k, _, n, _) => PassedStable(L, t, t', k, 4 * n);
    case RefStore(_, _, _, _) =>
    case RefCas(k, _, n, j) => PassedStable(L, t, t', k, 4 * n + j);
    case RefCheck(k, _, n, j) => PassedStable(L, t, t', k, 4 * n + j);
    case RefDone(k, _) => HoldsStable(t, t', k);
  }

  // ----- A task's own step

  // What a step may do to the table, and what it leaves the task knowing.
  ghost predicate StepOk(L: Layout, t: seq<Slot>, x': Task, t': seq<Slot>)
    requires L.Bucketed() && |t| == L.len
  {
    WF(L, t') && Grows(t, t') && TaskInv(L, t', x')
  }

  lemma PassOne(L: Layout, t: seq<Slot>, k: nat, d: nat)
    requires L.Valid() && |t| == L.len && d < L.len && Passed(L, t, k, d)
    requires t[L.At(k, d)].key != 0 && t[L.At(k, d)].key != k
    ensures Passed(L, t, k, d + 1)
  {
    forall j | 0 <= j < |t| && L.Dist(k, j) < d + 1 ensures t[j].key != 0 && t[j].key != k {
      if L.Dist(k, j) == d { assert j == L.At(k, d); }
    }
  }

  // Taking an empty slot right where the probe stands.
  lemma Claim(L: Layout, t: seq<Slot>, k: nat, v: nat, i: nat)
    requires L.Bucketed() && WF(L, t) && k != 0 && i < L.len && t[i] == EMPTY
    requires Passed(L, t, k, L.Dist(k, i))
    ensures var t' := t[i := Slot(k, v)]; WF(L, t') && Grows(t, t') && Holds(t', k) && Keys(t') == Keys(t) + {k}
  {
    hide NoGap, Unique, EmptyIsZero, Passed, Grows;
    FillKeeps(L, t, k, v, i);
    assert ToMap(t[i := Slot(k, v)]).Keys == Keys(t) + {k};
    assert t[i := Slot(k, v)][i].key == k;
  }

  // Overwriting the value of the slot that holds k.
  lemma Overwrite(L: Layout, t: seq<Slot>, k: nat, v: nat, i: nat)
    requires L.Bucketed() && WF(L, t) && k != 0 && i < L.len && t[i].key == k
    ensures var t' := t[i := Slot(t[i].key, v)]; WF(L, t') && Grows(t, t') && Holds(t', k) && Keys(t') == Keys(t)
  {
    hide NoGap, Unique, EmptyIsZero, Grows;
    UpdateKeeps(L, t, k, v, i);
    assert ToMap(t[i := Slot(k, v)]).Keys == Keys(t);
    assert t[i := Slot(k, v)][i].key == k;
  }

  lemma InsertStepKeeps(L: Layout, t: seq<Slot>, x: Task)
    requires L.Bucketed() && WF(L, t) && TaskInv(L, t, x)
    requires x.InsRead? || x.InsCas? || x.InsCheck? || x.InsStore?
    ensures var (x', t') := StepInsert(L, t, x); StepOk(L, t, x', t')
  {
    hide NoGap, Unique, EmptyIsZero, Passed, Holds;
    var i := L.At(x.k, x.d);
    assert L.Dist(x.k, i) == x.d;
    match x
    case InsRead(_, _, _) =>
    case InsCas(k, v, d) => if t[i] == EMPTY { Claim(L, t, k, v, i); } else { NonEmptyKey(L, t, i); }
    case InsCheck(k, _, d) => if t[i].key != k { PassOne(L, t, k, d); }
    case InsStore(k, v, _) => Overwrite(L, t, k, v, i);
  }

  lemma NonEmptyKey(L: Layout, t: seq<Slot>, i: nat)
    requires WF(L, t) && i < |t| && t[i] != EMPTY
    ensures t[i].key != 0
  {
  }

  // All four lanes loaded, at whatever moments: the first match is a match, and
  // if there is none, every slot before the first zero lane is passed.
  lemma LanesPass(L: Layout, t: seq<Slot>, k: nat, n: nat, seen: map<nat, nat>)
    requires L.Bucketed() && |t| == L.len && k != 0 && 4 * n < L.len && Passed(L, t, k, 4 * n)
    requires Fresh(L, t, k, n, seen) && Loaded(seen)
    ensures FirstLane(seen, k) < 4 ==> t[Base(L, k, n) + FirstLane(seen, k)].key == k
    ensures FirstLane(seen, k) == 4 ==> Passed(L, t, k, 4 * n + FirstLane(seen, 0))
  {
    if FirstLane(seen, k) == 4 {
      forall i | 0 <= i < |t| && L.Dist(k, i) < 4 * n + FirstLane(seen, 0) ensures t[i].key != 0 && t[i].key != k {
        BucketSlots(L, k, n, i);
        if L.Dist(k, i) >= 4 * n {
          var j := i - Base(L, k, n);
          assert j in seen && seen[j] != 0;
        }
      }
    }
  }

  // The lane of the slot that has held k since before the lookup started.
  lemma LaneOfKey(L: Layout, t: seq<Slot>, k: nat, n: nat, seen: map<nat, nat>, i: nat)
    requires L.Bucketed() && |t| == L.len && k != 0 && 4 * n < L.len
    requires Fresh(L, t, k, n, seen) && Loaded(seen) && NoHoleSeen(L, t, k, n, seen)
    requires Base(L, k, n) <= i < Base(L, k, n) + 4 && t[i].key == k
    ensures FirstLane(seen, k) < 4
  {
    var j := i - Base(L, k, n);
    assert j in seen && t[Base(L, k, n) + j].key == k;
    assert seen[j] != 0;
  }

  // With k in a later bucket, no lane of this one was seen empty.
  lemma NoHoleLane(L: Layout, t: seq<Slot>, k: nat, n: nat, seen: map<nat, nat>, i: nat, j: nat)
    requires L.Bucketed() && |t| == L.len && k != 0 && 4 * n < L.len && Fresh(L, t, k, n, seen)
    requires NoHoleSeen(L, t, k, n, seen) && j in seen && j < 4
    requires i < |t| && t[i].key == k && L.Dist(k, i) >= 4 * n + 4
    ensures seen[j] != 0
  {
    BucketSlots(L, k, n, Base(L, k, n) + j);
  }

  // A late lookup that has all lanes without its key meets neither a hole nor
  // the end of its path.
  lemma LateFinds(L: Layout, t: seq<Slot>, k: nat, n: nat, seen: map<nat, nat>)
    requires L.Bucketed() && |t| == L.len && k != 0 && 4 * n < L.len && Passed(L, t, k, 4 * n)
    requires Fresh(L, t, k, n, seen) && Loaded(seen) && NoHoleSeen(L, t, k, n, seen)
    ensures FirstLane(seen, k) < 4 || (FirstLane(seen, 0) == 4 && 4 * n + 4 < L.len)
  {
    hide FirstLane, Unique;
    var i :| 0 <= i < |t| && t[i].key == k;
    BucketSlots(L, k, n, i);
    assert L.Dist(k, i) >= 4 * n;
    if L.Dist(k, i) < 4 * n + 4 {
      LaneOfKey(L, t, k, n, seen, i);
    } else {
      NoHoleLane(L, t, k, n, seen, i, 0);
      NoHoleLane(L, t, k, n, seen, i, 1);
      NoHoleLane(L, t, k, n, seen, i, 2);
      NoHoleLane(L, t, k, n, seen, i, 3);
      assert seen[0] != 0 && seen[1] != 0 && seen[2] != 0 && seen[3] != 0;
    }
  }

  lemma FindStepKeeps(L: Layout, t: seq<Slot>, x: Task)
    requires L.Bucketed() && WF(L, t) && TaskInv(L, t, x)
    requires x.FndValue? || (x.FndRead? && Loaded(x.seen))
    ensures TaskInv(L, t, StepFind(L, t, x))
  {
    hide NoGap, Unique, EmptyIsZero, Passed, Holds, FirstLane;
    if x.FndRead? {
      LanesPass(L, t, x.k, x.n, x.seen);
      if x.late { LateFinds(L, t, x.k, x.n, x.seen); }
    }
  }

  // Skipping ahead by a snapshot that others have outdated: only taken slots of
  // other keys are skipped.
  lemma SnapshotStepKeeps(L: Layout, t: seq<Slot>, x: Task)
    requires L.Bucketed() && WF(L, t) && TaskInv(L, t, x) && x.RefRead? && Loaded(x.seen)
    ensures StepReference(L, t, x).1 == t && TaskInv(L, t, StepReference(L, t, x).0)
  {
    hide NoGap, Unique, EmptyIsZero, Passed;
    LanesPass(L, t, x.k, x.n, x.seen);
    NothingPassed(L, t, x.k);
    assert 4 * (x.n + 1) == 4 * x.n + 4;
  }

  lemma ReferenceStepKeeps(L: Layout, t: seq<Slot>, x: Task)
    requires L.Bucketed() && WF(L, t) && TaskInv(L, t, x)
    requires x.RefStore? || x.RefCas? || x.RefCheck? || (x.RefRead? && Loaded(x.seen))
    ensures var (x', t') := StepReference(L, t, x); StepOk(L, t, x', t')
  {
    hide NoGap, Unique, EmptyIsZero, Passed, Holds;
    match x
    case RefRead(_, _, _, _) => SnapshotStepKeeps(L, t, x);
    case RefStore(k, v, n, j) => Overwrite(L, t, k, v, Base(L, k, n) + j);
    case RefCas(_, _, _, _) => RefCasKeeps(L, t, x);
    case RefCheck(_, _, _, _) => RefCheckKeeps(L, t, x);
  }

  lemma RefCasKeeps(L: Layout, t: seq<Slot>, x: Task)
    requires L.Bucketed() && WF(L, t) && TaskInv(L, t, x) && x.RefCas?
    ensures var (x', t') := StepReference(L, t, x); StepOk(L, t, x', t')
  {
    hide NoGap, Unique, EmptyIsZero, Passed, Holds;
    var i := Base(L, x.k, x.n) + x.j;
    BucketSlots(L, x.k, x.n, i);
    if t[i] == EMPTY { Claim(L, t, x.k, x.v, i); } else { NonEmptyKey(L, t, i); }
  }

  lemma RefCheckKeeps(L: Layout, t: seq<Slot>, x: Task)
    requires L.Bucketed() && WF(L, t) && TaskInv(L, t, x) && x.RefCheck?
    ensures StepReference(L, t, x).1 == t && TaskInv(L, t, StepReference(L, t, x).0)
  {
    hide NoGap, Unique, EmptyIsZero, Passed;
    var i := Base(L, x.k, x.n) + x.j;
    BucketSlots(L, x.k, x.n, i);
    NothingPassed(L, t, x.k);
    if t[i].key != x.k {
      assert L.At(x.k, 4 * x.n + x.j) == i;
      PassOne(L, t, x.k, 4 * x.n + x.j);
      assert 4 * (x.n + 1) == 4 * x.n + 3 + 1;
    }
  }

  // ----- The system

  ghost predicate Logged(t: seq<Slot>, wrote: set<(nat, nat)>) {
    forall i | 0 <= i < |t| :: t[i].key != 0 ==> (t[i].key, t[i].val) in wrote
  }

  // The task has written k -> v and returns success.
  predicate Succeeded(x: Task) {
    (x.InsDone? && x.ok) || x.RefDone?
  }

  ghost predicate Known(submitted: set<nat>, wrote: set<(nat, nat)>, stored: set<nat>, x: Task) {
    && (x.k != 0 ==> x.k in submitted)
    && (x.FndDone? && x.r.Found? ==> (x.k, x.r.val) in wrote)
    && (Succeeded(x) ==> (x.k, x.v) in wrote && x.k in stored)
  }

  ghost predicate AllStored(t: seq<Slot>, stored: set<nat>) {
    forall k | k in stored :: k != 0 && Holds(t, k)
  }

  ghost predicate TasksOk(L: Layout, s: Sys)
    requires L.Bucketed() && |s.t| == L.len
  {
    forall i | 0 <= i < |s.tasks| :: TaskInv(L, s.t, s.tasks[i]) && Known(s.submitted, s.wrote, s.stored, s.tasks[i])
  }

  ghost predicate Inv(L: Layout, s: Sys) {
    && L.Bucketed() && WF(L, s.t)
    && Keys(s.t) <= s.submitted && Logged(s.t, s.wrote) && AllStored(s.t, s.stored)
    && TasksOk(L, s)
  }

  function Zeroed(len: nat): Sys {
    Sys(seq(len, i => EMPTY), [], {}, {}, {})
  }

  lemma ZeroedInv(L: Layout)
    requires L.Bucketed()
    ensures Inv(L, Zeroed(L.len))
  {
    ZeroedTable(L, Zeroed(L.len).t);
  }

  // The task's own step, with what it writes to the table.
  function StepTask(L: Layout, t: seq<Slot>, x: Task): (Task, seq<Slot>)
    requires L.Bucketed() && |t| == L.len && InBounds(L, x)
  {
    if x.InsRead? || x.InsCas? || x.InsCheck? || x.InsStore? then StepInsert(L, t, x)
    else if x.FndValue? || (x.FndRead? && Loaded(x.seen)) then (StepFind(L, t, x), t)
    else if x.RefStore? || x.RefCas? || x.RefCheck? || (x.RefRead? && Loaded(x.seen)) then StepReference(L, t, x)
    else (x, t)
  }

  function LoadLane(L: Layout, t: seq<Slot>, x: Task, j: nat): Task
    requires L.Bucketed() && |t| == L.len && InBounds(L, x) && j < 4
  {
    match x
    case FndRead(k, n, seen, late) => FndRead(k, n, seen[j := t[Base(L, k, n) + j].key], late)
    case RefRead(k, v, n, seen) => RefRead(k, v, n, seen[j := t[Base(L, k, n) + j].key])
    case _ => x
  }

  function Begin(s: Sys, x: Task): Sys {
    s.(tasks := s.tasks + [x], submitted := if x.k == 0 then s.submitted else s.submitted + {x.k})
  }

  function Become(s: Sys, i: nat, x: Task, t: seq<Slot>): Sys
    requires i < |s.tasks|
  {
    Sys(t, s.tasks[i := x], s.submitted,
        if Succeeded(x) then s.wrote + {(x.k, x.v)} else s.wrote,
        if Succeeded(x) then s.stored + {x.k} else s.stored)
  }

  // An action that does not apply leaves the system as it is, so every
  // sequence of actions is a run.
  function Apply(L: Layout, lut: seq<nat>, s: Sys, a: Action): Sys
    requires Inv(L, s) && |lut| == TABLE_SIZE
  {
    match a
    case StartFind(k) => if k == 0 then s else Begin(s, FndRead(k, 0, map[], k in s.stored))
    case StartInsert(k, v) => Begin(s, if k == 0 then InsDone(k, v, false) else InsRead(k, v, 0))
    case StartRefInsert(k, v) => if k == 0 then s else Begin(s, RefRead(k, v, 0, map[]))
    case Fallback(i) =>
      if i < |s.tasks| && s.tasks[i].FndDone? && s.tasks[i].r.Absent?
      then Become(s, i, InsRead(s.tasks[i].k, Backend(lut, s.tasks[i].k), 0), s.t)
      else s
    case Load(i, j) =>
      if i < |s.tasks| && j < 4 && ((s.tasks[i].FndRead? && j !in s.tasks[i].seen) || (s.tasks[i].RefRead? && j !in s.tasks[i].seen))
      then Become(s, i, LoadLane(L, s.t, s.tasks[i], j), s.t)
      else s
    case Step(i) =>
      if i < |s.tasks|
      then var r := StepTask(L, s.t, s.tasks[i]); Become(s, i, r.0, r.1)
      else s
  }

  lemma BeginKeeps(L: Layout, s: Sys, x: Task)
    requires Inv(L, s) && TaskInv(L, s.t, x) && !x.FndDone? && !Succeeded(x)
    ensures Inv(L, Begin(s, x))
  {
    hide NoGap, Unique, EmptyIsZero, TaskInv, Logged, AllStored;
  }

  lemma BecomeKeeps(L: Layout, s: Sys, i: nat, x: Task, t: seq<Slot>)
    requires Inv(L, s) && i < |s.tasks| && x.k == s.tasks[i].k
    requires StepOk(L, s.t, x, t) && Keys(t) <= Keys(s.t) + {x.k} && (x.k == 0 ==> t == s.t)
    requires Logged(t, Become(s, i, x, t).wrote)
    requires Succeeded(x) ==> x.k != 0 && Holds(t, x.k)
    requires Known(s.submitted, Become(s, i, x, t).wrote, Become(s, i, x, t).stored, x)
    ensures Inv(L, Become(s, i, x, t))
  {
    hide NoGap, EmptyIsZero, Unique, TaskInv, Logged, Holds, Grows;
    var s' := Become(s, i, x, t);
    forall k | k in s'.stored ensures k != 0 && Holds(t, k) {
      if k in s.stored { HoldsStable(s.t, t, k); }
    }
    forall j | 0 <= j < |s'.tasks| ensures TaskInv(L, t, s'.tasks[j]) && Known(s'.submitted, s'.wrote, s'.stored, s'.tasks[j]) {
      if j != i { TaskStable(L, s.t, t, s.tasks[j]); }
    }
  }

  ghost predicate IsPut(t: seq<Slot>, t': seq<Slot>, i: int, k: nat, v: nat) {
    0 <= i < |t| && t' == t[i := Slot(k, v)]
  }

  // A step writes nothing, or the task's own pair into one slot, and then it is done.
  ghost predicate Writes(t: seq<Slot>, x: Task, x': Task, t': seq<Slot>) {
    Succeeded(x') && !x.FndRead? && !x.FndValue? && x'.k == x.k != 0
    && exists i :: IsPut(t, t', i, x'.k, x'.v)
  }

  lemma StepWrites(L: Layout, t: seq<Slot>, x: Task)
    requires L.Bucketed() && WF(L, t) && TaskInv(L, t, x)
    ensures var (x', t') := StepTask(L, t, x);
      && x'.k == x.k
      && ((t' == t && (Succeeded(x') ==> x' == x)) || Writes(t, x, x', t'))
  {
    hide NoGap, Unique, EmptyIsZero, Passed, Holds, Fresh, NoHoleSeen, FirstLane;
    var (x', t') := StepTask(L, t, x);
    if t' != t || (Succeeded(x') && x' != x) {
      var i := if x.InsCas? || x.InsStore? then L.At(x.k, x.d) else Base(L, x.k, x.n) + x.j;
      assert IsPut(t, t', i, x'.k, x'.v);
    }
  }

  lemma PutLogged(t: seq<Slot>, t': seq<Slot>, i: int, k: nat, v: nat, wrote: set<(nat, nat)>)
    requires IsPut(t, t', i, k, v) && Logged(t, wrote)
    ensures Logged(t', wrote + {(k, v)}) && Keys(t') <= Keys(t) + {k}
  {
    forall x | x in Keys(t') ensures x in Keys(t) + {k} {
      var a :| 0 <= a < |t'| && t'[a].key != 0 && t'[a].key == x;
      if a != i { assert t[a].key == x; }
    }
  }

  lemma StepTaskKeeps(L: Layout, t: seq<Slot>, x: Task)
    requires L.Bucketed() && WF(L, t) && TaskInv(L, t, x)
    ensures var (x', t') := StepTask(L, t, x); StepOk(L, t, x', t')
  {
    hide NoGap, Unique, EmptyIsZero, TaskInv, StepInsert, StepFind, StepReference;
    if x.InsRead? || x.InsCas? || x.InsCheck? || x.InsStore? {
      InsertStepKeeps(L, t, x);
    } else if x.FndValue? || (x.FndRead? && Loaded(x.seen)) {
      FindStepKeeps(L, t, x);
    } else if x.RefStore? || x.RefCas? || x.RefCheck? || (x.RefRead? && Loaded(x.seen)) {
      ReferenceStepKeeps(L, t, x);
    }
  }

  lemma StepKeeps(L: Layout, s: Sys, i: nat)
    requires Inv(L, s) && i < |s.tasks|
    ensures var r := StepTask(L, s.t, s.tasks[i]); Inv(L, Become(s, i, r.0, r.1)) && Grows(s.t, r.1)
  {
    hide NoGap, Unique, EmptyIsZero, AllStored, Grows, Passed, StepInsert, StepFind, StepReference, StepTask;
    var x := s.tasks[i];
    var (x', t') := StepTask(L, s.t, x);
    StepTaskKeeps(L, s.t, x);
    StepWrites(L, s.t, x);
    StepKnown(L, s, i);
    if Writes(s.t, x, x', t') {
      var p :| IsPut(s.t, t', p, x'.k, x'.v);
      PutLogged(s.t, t', p, x'.k, x'.v, s.wrote);
    }
    BecomeKeeps(L, s, i, x', t');
  }

  // A lookup returns only values that the log of writes has for its key.
  lemma StepKnown(L: Layout, s: Sys, i: nat)
    requires Inv(L, s) && i < |s.tasks|
    ensures var r := StepTask(L, s.t, s.tasks[i]);
      Known(s.submitted, Become(s, i, r.0, r.1).wrote, Become(s, i, r.0, r.1).stored, r.0) && (Succeeded(r.0) ==> r.0.k != 0 && Holds(r.1, r.0.k))
  {
    hide NoGap, Unique, EmptyIsZero, AllStored, Grows, Passed;
    StepTaskKeeps(L, s.t, s.tasks[i]);
  }

  lemma LoadKeeps(L: Layout, s: Sys, i: nat, j: nat)
    requires Inv(L, s) && i < |s.tasks| && j < 4
    requires s.tasks[i].FndRead? || s.tasks[i].RefRead?
    ensures Inv(L, Become(s, i, LoadLane(L, s.t, s.tasks[i], j), s.t))
  {
    hide NoGap, Unique, EmptyIsZero, AllStored, Logged, Passed;
    var x := s.tasks[i];
    var x' := LoadLane(L, s.t, x, j);
    if x.FndRead? && x.late { LateLoad(L, s.t, x.k, x.n, x.seen, j); }
    assert TaskInv(L, s.t, x');
    BecomeKeeps(L, s, i, x', s.t);
  }

  lemma LateLoad(L: Layout, t: seq<Slot>, k: nat, n: nat, seen: map<nat, nat>, j: nat)
    requires L.Bucketed() && WF(L, t) && 4 * n < L.len && k != 0 && j < 4
    requires Fresh(L, t, k, n, seen) && NoHoleSeen(L, t, k, n, seen)
    ensures var seen' := seen[j := t[Base(L, k, n) + j].key];
      Fresh(L, t, k, n, seen') && NoHoleSeen(L, t, k, n, seen')
  {
    var p := Base(L, k, n) + j;
    forall i | 0 <= i < |t| && t[i].key == k && t[p].key == 0 ensures L.Dist(k, i) < L.Dist(k, p) {
      assert Occupied(L, t, k, L.Dist(k, i));
    }
  }

  lemma ApplyKeeps(L: Layout, lut: seq<nat>, s: Sys, a: Action)
    requires Inv(L, s) && |lut| == TABLE_SIZE
    ensures Inv(L, Apply(L, lut, s, a)) && Grows(s.t, Apply(L, lut, s, a).t)
  {
    hide NoGap, Unique, EmptyIsZero, AllStored, Logged, StepTask;
    NothingPassed(L, s.t, 0);
    match a
    case StartFind(k) => if k != 0 { BeginFind(L, s, k); }
    case StartInsert(k, v) => NothingPassed(L, s.t, k); BeginKeeps(L, s, if k == 0 then InsDone(k, v, false) else InsRead(k, v, 0));
    case StartRefInsert(k, v) => NothingPassed(L, s.t, k); if k != 0 { BeginKeeps(L, s, RefRead(k, v, 0, map[])); }
    case Fallback(i) =>
      if i < |s.tasks| && s.tasks[i].FndDone? && s.tasks[i].r.Absent? {
        NothingPassed(L, s.t, s.tasks[i].k);
        BecomeKeeps(L, s, i, InsRead(s.tasks[i].k, Backend(lut, s.tasks[i].k), 0), s.t);
      }
    case Load(i, j) =>
      if i < |s.tasks| && j < 4 && (s.tasks[i].FndRead? || s.tasks[i].RefRead?) { LoadKeeps(L, s, i, j); }
    case Step(i) => if i < |s.tasks| { StepKeeps(L, s, i); }
  }

  lemma BeginFind(L: Layout, s: Sys, k: nat)
    requires Inv(L, s) && k != 0
    ensures Inv(L, Begin(s, FndRead(k, 0, map[], k in s.stored)))
  {
    hide NoGap, Unique, EmptyIsZero, Logged;
    NothingPassed(L, s.t, k);
    BeginKeeps(L, s, FndRead(k, 0, map[], k in s.stored));
  }
}
