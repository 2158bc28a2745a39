// One call running alone in the concurrent system: it ends, and as the sequential
// operation would have it.
module Solo {
  import opened Probing
  import opened Buckets
  import opened GetOrInsert
  import opened Concurrent
  import opened Runs
  import opened Moments

  // Actions of task i only.
  ghost predicate Own(i: nat, trace: seq<Action>) {
    forall j | 0 <= j < |trace| :: (trace[j].Load? || trace[j].Step?) && trace[j].i == i
  }

  lemma ExecFirst(L: Layout, lut: seq<nat>, s: Sys, a: Action, rest: seq<Action>)
    requires Inv(L, s) && |lut| == TABLE_SIZE
    ensures Inv(L, Apply(L, lut, s, a))
    ensures Exec(L, lut, s, [a] + rest) == Exec(L, lut, Apply(L, lut, s, a), rest)
  {
    hide Inv, Apply;
    ApplyKeeps(L, lut, s, a);
    assert ([a] + rest)[1..] == rest;
  }

  lemma TaskOf(L: Layout, s: Sys, i: nat)
    requires Inv(L, s) && i < |s.tasks|
    ensures L.Bucketed() && WF(L, s.t) && TaskInv(L, s.t, s.tasks[i]) && InBounds(L, s.tasks[i])
  {
    hide NoGap, Unique, EmptyIsZero, Logged, AllStored;
    assert TaskInv(L, s.t, s.tasks[i]);
  }

  // ----- A lookup alone

  // A lookup of k over table t, wherever its loads and steps have got it.
  ghost predicate Finding(L: Layout, t: seq<Slot>, k: nat, x: Task)
    requires L.Bucketed() && |t| == L.len
  {
    match x
    case FndRead(k', n, seen, _) =>
      k' == k && OnTrack(L, t, k, n) && forall j | j in seen :: j < 4 && seen[j] == t[Base(L, k, n) + j].key
    case FndValue(k', n, j, _) =>
      k' == k && OnTrack(L, t, k, n) && j < 4 && FirstIn(t, Base(L, k, n), k) == j
    case FndDone(k', r, _) => k' == k && r == Find(L, t, k)
    case _ => false
  }

  // All lanes loaded from one table: the first match is the bucket's first match.
  lemma LanesAreBucket(L: Layout, t: seq<Slot>, k: nat, n: nat, seen: map<nat, nat>, x: nat)
    requires L.Bucketed() && |t| == L.len && 4 * n < L.len && Loaded(seen)
    requires forall j | j in seen :: j < 4 && seen[j] == t[Base(L, k, n) + j].key
    ensures FirstLane(seen, x) == FirstIn(t, Base(L, k, n), x)
  {
    hide FirstFrom;
    var b := Base(L, k, n);
    assert t[b].key == seen[0] && t[b + 1].key == seen[1] && t[b + 2].key == seen[2] && t[b + 3].key == seen[3];
  }

  lemma FindingStep(L: Layout, t: seq<Slot>, k: nat, x: Task)
    requires L.Bucketed() && |t| == L.len && Finding(L, t, k, x) && InBounds(L, x)
    ensures StepTask(L, t, x).1 == t && Finding(L, t, k, StepTask(L, t, x).0)
  {
    hide FirstIn, FirstLane, OnTrack, Find, StepInsert, StepReference;
    if x.FndRead? || x.FndValue? {
      TrackStep(L, t, k, x.n);
      if x.FndRead? && Loaded(x.seen) {
        LanesAreBucket(L, t, k, x.n, x.seen, k);
        LanesAreBucket(L, t, k, x.n, x.seen, 0);
      }
    }
  }

  // What the next bucket of a lookup's path leads to.
  lemma TrackStep(L: Layout, t: seq<Slot>, k: nat, n: nat)
    requires L.Bucketed() && |t| == L.len && OnTrack(L, t, k, n)
    ensures 4 * n < L.len
    ensures var b := Base(L, k, n);
      if FirstIn(t, b, k) < 4 then Find(L, t, k) == Found(t[b + FirstIn(t, b, k)].val)
      else if 4 * n + 4 >= L.len then Find(L, t, k) == TableFull
      else if FirstIn(t, b, 0) < 4 then Find(L, t, k) == Absent
      else OnTrack(L, t, k, n + 1)
  {
    hide FirstIn, VisitsFrom, Find;
    VisitStep(L, t, k, n);
  }

  lemma FindingLoad(L: Layout, t: seq<Slot>, k: nat, x: Task, j: nat)
    requires L.Bucketed() && |t| == L.len && Finding(L, t, k, x) && InBounds(L, x)
    ensures j < 4 ==> Finding(L, t, k, LoadLane(L, t, x, j))
    ensures !x.RefRead?
  {
    hide OnTrack, Find, FirstIn;
  }

  lemma FindingApply(L: Layout, lut: seq<nat>, s: Sys, a: Action, i: nat, k: nat)
    requires Inv(L, s) && |lut| == TABLE_SIZE && i < |s.tasks| && Own(i, [a])
    requires L.Bucketed() && |s.t| == L.len && Finding(L, s.t, k, s.tasks[i])
    ensures var s' := Apply(L, lut, s, a);
      s'.t == s.t && i < |s'.tasks| && Finding(L, s.t, k, s'.tasks[i])
  {
    hide Inv, StepTask, Finding;
    assert ([a][0].Load? || [a][0].Step?) && [a][0].i == i;
    TaskOf(L, s, i);
    if a.Step? {
      FindingStep(L, s.t, k, s.tasks[i]);
    } else {
      FindingLoad(L, s.t, k, s.tasks[i], a.j);
    }
  }

  lemma {:induction false} FindingRun(L: Layout, lut: seq<nat>, s: Sys, trace: seq<Action>, i: nat, k: nat)
    requires Inv(L, s) && |lut| == TABLE_SIZE && i < |s.tasks| && Own(i, trace)
    requires L.Bucketed() && |s.t| == L.len && Finding(L, s.t, k, s.tasks[i])
    ensures var s' := Exec(L, lut, s, trace);
      s'.t == s.t && i < |s'.tasks| && Finding(L, s.t, k, s'.tasks[i])
    decreases |trace|
  {
    hide Inv, Apply, Finding;
    if trace != [] {
      assert Own(i, [trace[0]]) && Own(i, trace[1..]);
      FindingApply(L, lut, s, trace[0], i, k);
      assert Inv(L, Apply(L, lut, s, trace[0])) by { ApplyKeeps(L, lut, s, trace[0]); }
      FindingRun(L, lut, Apply(L, lut, s, trace[0]), trace[1..], i, k);
    }
  }

  // In whatever order it loads its lanes, a lookup that nobody disturbs and that
  // ends has found the stored value if its key is stored; otherwise it says ABSENT
  // if a hole lies before the last bucket of its path, and TABLE_FULL if not.
  lemma SoloFind(L: Layout, lut: seq<nat>, s: Sys, k: nat, trace: seq<Action>)
    requires Inv(L, s) && |lut| == TABLE_SIZE && k != 0 && Own(|s.tasks|, trace)
    ensures WF(L, s.t) && L.Bucketed()
    ensures var s', i := Exec(L, lut, s, [StartFind(k)] + trace), |s.tasks|;
      && s'.t == s.t && i < |s'.tasks| && s'.tasks[i].k == k
      && (s'.tasks[i].FndDone? ==>
            && (k in ToMap(s.t) ==> s'.tasks[i].r == Found(ToMap(s.t)[k]))
            && (k !in ToMap(s.t) ==> s'.tasks[i].r == if HoleBeforeLast(L, s.t, k) then Absent else TableFull))
  {
    hide NoGap, Unique, EmptyIsZero, Logged, AllStored, TasksOk, VisitsFrom, Find;
    var s1 := Apply(L, lut, s, StartFind(k));
    ExecFirst(L, lut, s, StartFind(k), trace);
    FindingRun(L, lut, s1, trace, |s.tasks|, k);
    FindMeaning(L, s.t, k);
  }

  // ----- How it ends

  // The four lanes of task i's bucket.
  function Loads(i: nat): seq<Action> {
    [Load(i, 0), Load(i, 1), Load(i, 2), Load(i, 3)]
  }

  function AllLanes(L: Layout, t: seq<Slot>, k: nat, n: nat): (seen: map<nat, nat>)
    requires L.Bucketed() && |t| == L.len && 4 * n < L.len
    ensures Loaded(seen) && forall j | j in seen :: j < 4 && seen[j] == t[Base(L, k, n) + j].key
  {
    var b := Base(L, k, n);
    map[0 := t[b].key, 1 := t[b + 1].key, 2 := t[b + 2].key, 3 := t[b + 3].key]
  }

  function WithLanes(x: Task, seen: map<nat, nat>): Task
    requires x.FndRead? || x.RefRead?
  {
    if x.FndRead? then FndRead(x.k, x.n, seen, x.late) else RefRead(x.k, x.v, x.n, seen)
  }

  // One load, of a lane not loaded yet.
  lemma LoadOne(L: Layout, lut: seq<nat>, s: Sys, i: nat, j: nat)
    requires Inv(L, s) && |lut| == TABLE_SIZE && i < |s.tasks| && j < 4
    requires (s.tasks[i].FndRead? || s.tasks[i].RefRead?) && j !in s.tasks[i].seen
    ensures L.Bucketed() && |s.t| == L.len && 4 * s.tasks[i].n < L.len
    ensures var x := s.tasks[i];
      Apply(L, lut, s, Load(i, j)) ==
        s.(tasks := s.tasks[i := WithLanes(x, x.seen[j := s.t[Base(L, x.k, x.n) + j].key])])
  {
    hide Inv;
    TaskOf(L, s, i);
  }

  lemma LoadAll(L: Layout, lut: seq<nat>, s: Sys, i: nat)
    requires Inv(L, s) && |lut| == TABLE_SIZE && i < |s.tasks|
    requires (s.tasks[i].FndRead? || s.tasks[i].RefRead?) && s.tasks[i].seen == map[]
    ensures L.Bucketed() && |s.t| == L.len && 4 * s.tasks[i].n < L.len
    ensures var x := s.tasks[i];
      Exec(L, lut, s, Loads(i)) == s.(tasks := s.tasks[i := WithLanes(x, AllLanes(L, s.t, x.k, x.n))])
  {
    hide Inv, Apply, Exec;
    LoadOne(L, lut, s, i, 0);
    var s1 := Apply(L, lut, s, Load(i, 0));
    assert Inv(L, s1) by { ApplyKeeps(L, lut, s, Load(i, 0)); }
    LoadOne(L, lut, s1, i, 1);
    var s2 := Apply(L, lut, s1, Load(i, 1));
    assert Inv(L, s2) by { ApplyKeeps(L, lut, s1, Load(i, 1)); }
    LoadOne(L, lut, s2, i, 2);
    var s3 := Apply(L, lut, s2, Load(i, 2));
    assert Inv(L, s3) by { ApplyKeeps(L, lut, s2, Load(i, 2)); }
    LoadOne(L, lut, s3, i, 3);
    assert Loads(i) == [Load(i, 0)] + ([Load(i, 1)] + ([Load(i, 2)] + ([Load(i, 3)] + [])));
    ExecFirst(L, lut, s, Load(i, 0), [Load(i, 1)] + ([Load(i, 2)] + ([Load(i, 3)] + [])));
    ExecFirst(L, lut, s1, Load(i, 1), [Load(i, 2)] + ([Load(i, 3)] + []));
    ExecFirst(L, lut, s2, Load(i, 2), [Load(i, 3)] + []);
    ExecFirst(L, lut, s3, Load(i, 3), []);
    ExecNothing(L, lut, Apply(L, lut, s3, Load(i, 3)));
  }

  lemma ExecNothing(L: Layout, lut: seq<nat>, s: Sys)
    requires Inv(L, s) && |lut| == TABLE_SIZE
    ensures Exec(L, lut, s, []) == s
  {
  }

  lemma StepOne(L: Layout, lut: seq<nat>, s: Sys, i: nat) returns (s': Sys)
    requires Inv(L, s) && |lut| == TABLE_SIZE && i < |s.tasks|
    ensures L.Bucketed() && |s.t| == L.len && InBounds(L, s.tasks[i]) && Inv(L, s') && |s'.tasks| == |s.tasks|
    ensures s'.tasks[i] == StepTask(L, s.t, s.tasks[i]).0 && s'.t == StepTask(L, s.t, s.tasks[i]).1
    ensures Own(i, [Step(i)]) && Exec(L, lut, s, [Step(i)]) == s'
  {
    hide Inv, Exec, StepTask;
    TaskOf(L, s, i);
    s' := Apply(L, lut, s, Step(i));
    ExecFirst(L, lut, s, Step(i), []);
    ExecNothing(L, lut, s');
    assert [Step(i)] == [Step(i)] + [];
  }

  lemma Then(L: Layout, lut: seq<nat>, s: Sys, i: nat, before: seq<Action>, after: seq<Action>)
    requires Inv(L, s) && |lut| == TABLE_SIZE && Own(i, before) && Own(i, after)
    ensures Own(i, before + after)
    ensures Exec(L, lut, s, before + after) == Exec(L, lut, Exec(L, lut, s, before), after)
  {
    hide Inv, Exec;
    ExecAppend(L, lut, s, before, after);
  }

  // Loading a bucket and deciding on it.
  lemma Round(L: Layout, lut: seq<nat>, s: Sys, i: nat) returns (x: Task, s': Sys, trace: seq<Action>)
    requires Inv(L, s) && |lut| == TABLE_SIZE && i < |s.tasks|
    requires (s.tasks[i].FndRead? || s.tasks[i].RefRead?) && s.tasks[i].seen == map[]
    ensures L.Bucketed() && |s.t| == L.len && 4 * s.tasks[i].n < L.len && Inv(L, s') && |s'.tasks| == |s.tasks|
    ensures x == WithLanes(s.tasks[i], AllLanes(L, s.t, s.tasks[i].k, s.tasks[i].n))
    ensures InBounds(L, x) && s'.tasks[i] == StepTask(L, s.t, x).0 && s'.t == StepTask(L, s.t, x).1
    ensures Own(i, trace) && Exec(L, lut, s, trace) == s'
  {
    hide Inv, Exec, StepTask;
    LoadAll(L, lut, s, i);
    x := WithLanes(s.tasks[i], AllLanes(L, s.t, s.tasks[i].k, s.tasks[i].n));
    var s1 := Exec(L, lut, s, Loads(i));
    s' := StepOne(L, lut, s1, i);
    trace := Loads(i) + [Step(i)];
    Then(L, lut, s, i, Loads(i), [Step(i)]);
  }

  // A lookup alone ends.
  lemma {:induction false} FindEnds(L: Layout, lut: seq<nat>, s: Sys, i: nat) returns (trace: seq<Action>)
    requires Inv(L, s) && |lut| == TABLE_SIZE && i < |s.tasks|
    requires s.tasks[i].FndRead? && s.tasks[i].seen == map[]
    requires L.Bucketed() && |s.t| == L.len && Finding(L, s.t, s.tasks[i].k, s.tasks[i])
    ensures Own(i, trace)
    ensures var s' := Exec(L, lut, s, trace); i < |s'.tasks| && s'.tasks[i].FndDone?
    decreases L.len - 4 * s.tasks[i].n
  {
    hide Inv, Exec, Find, OnTrack, FirstIn, FirstLane, StepInsert, StepReference;
    var x, s', first := Round(L, lut, s, i);
    FindingRun(L, lut, s, first, i, x.k);
    trace := first;
    if s'.tasks[i].FndRead? {
      var rest := FindEnds(L, lut, s', i);
      Then(L, lut, s, i, first, rest);
      trace := first + rest;
    } else if s'.tasks[i].FndValue? {
      var s2 := StepOne(L, lut, s', i);
      Then(L, lut, s, i, first, [Step(i)]);
      trace := first + [Step(i)];
    }
  }

  lemma SoloFindEnds(L: Layout, lut: seq<nat>, s: Sys, k: nat) returns (trace: seq<Action>)
    requires Inv(L, s) && |lut| == TABLE_SIZE && k != 0
    ensures Own(|s.tasks|, trace)
    ensures var s', i := Exec(L, lut, s, [StartFind(k)] + trace), |s.tasks|;
      i < |s'.tasks| && s'.tasks[i].FndDone? && s'.tasks[i].k == k
  {
    hide NoGap, Unique, EmptyIsZero, Logged, AllStored, TasksOk, VisitsFrom, Find;
    var s1, i := Apply(L, lut, s, StartFind(k)), |s.tasks|;
    ExecFirst(L, lut, s, StartFind(k), []);
    trace := FindEnds(L, lut, s1, i);
    ExecFirst(L, lut, s, StartFind(k), trace);
    FindingRun(L, lut, s1, trace, i, k);
  }

  // ----- An insert alone

  ghost function StepsAhead(L: Layout, x: Task): int
    requires x.InsRead? || x.InsCas? || x.InsCheck? || x.InsStore?
  {
    4 * (L.len - x.d) + if x.InsRead? then 3 else if x.InsCas? then 2 else if x.InsCheck? then 1 else 0
  }

  lemma {:induction false} InsertEnds(L: Layout, lut: seq<nat>, s: Sys, i: nat) returns (trace: seq<Action>)
    requires Inv(L, s) && |lut| == TABLE_SIZE && i < |s.tasks|
    requires var x := s.tasks[i]; x.InsRead? || x.InsCas? || x.InsCheck? || x.InsStore?
    ensures Own(i, trace) && L.Bucketed() && |s.t| == L.len && InBounds(L, s.tasks[i])
    ensures var x, s', r := s.tasks[i], Exec(L, lut, s, trace), InsertAlone(L, s.t, s.tasks[i]);
      i < |s'.tasks| && s'.tasks[i] == InsDone(x.k, x.v, r.1) && s'.t == r.0
    decreases StepsAhead(L, s.tasks[i])
  {
    hide Inv, Exec, StepFind, StepReference;
    TaskOf(L, s, i);
    var s' := StepOne(L, lut, s, i);
    trace := [Step(i)];
    if !s'.tasks[i].InsDone? {
      var rest := InsertEnds(L, lut, s', i);
      Then(L, lut, s, i, [Step(i)], rest);
      trace := [Step(i)] + rest;
    }
  }

  // Any insert started in any state and left alone is the sequential insert.
  lemma SoloInsertRun(L: Layout, lut: seq<nat>, s: Sys, k: nat, v: nat) returns (trace: seq<Action>)
    requires Inv(L, s) && |lut| == TABLE_SIZE && k != 0
    ensures WF(L, s.t) && Own(|s.tasks|, trace)
    ensures var s', i := Exec(L, lut, s, [StartInsert(k, v)] + trace), |s.tasks|;
      && WF(L, s'.t) && i < |s'.tasks|
      && (if k in ToMap(s.t) || !Full(s.t)
          then s'.tasks[i] == InsDone(k, v, true) && ToMap(s'.t) == ToMap(s.t)[k := v]
          else s'.tasks[i] == InsDone(k, v, false) && s'.t == s.t)
  {
    hide Inv, Exec, Apply, InsertAlone, Full, WF;
    InsertStarts(L, lut, s, k, v);
    var s1, i := Apply(L, lut, s, StartInsert(k, v)), |s.tasks|;
    ExecFirst(L, lut, s, StartInsert(k, v), []);
    trace := InsertEnds(L, lut, s1, i);
    ExecFirst(L, lut, s, StartInsert(k, v), trace);
    AloneBinds(L, s.t, k, v);
  }

  lemma InsertStarts(L: Layout, lut: seq<nat>, s: Sys, k: nat, v: nat)
    requires Inv(L, s) && |lut| == TABLE_SIZE && k != 0
    ensures L.Bucketed() && WF(L, s.t) && |s.t| == L.len
    ensures var s' := Apply(L, lut, s, StartInsert(k, v));
      s'.t == s.t && |s'.tasks| == |s.tasks| + 1 && s'.tasks[|s.tasks|] == InsRead(k, v, 0)
  {
    hide NoGap, Unique, EmptyIsZero, Logged, AllStored, TasksOk;
  }

  lemma AloneBinds(L: Layout, t: seq<Slot>, k: nat, v: nat)
    requires L.Bucketed() && WF(L, t) && k != 0
    ensures var r := InsertAlone(L, t, InsRead(k, v, 0));
      && WF(L, r.0)
      && (if k in ToMap(t) || !Full(t) then r.1 && ToMap(r.0) == ToMap(t)[k := v] else !r.1 && r.0 == t)
  {
    hide NoGap, Unique, EmptyIsZero, InsertAlone, StepInsert;
    SoloInsert(L, t, k, v);
    InsertMeaning(L, t, k, v);
  }

  // ----- A reference insert alone

  // A bucket without the key and without a hole is not the last one to visit.
  lemma NotYetAround(L: Layout, t: seq<Slot>, k: nat, n: nat)
    requires L.Bucketed() && |t| == L.len && 4 * n < L.len && Passed(L, t, k, 4 * n)
    requires Holds(t, k) || !Full(t)
    requires FirstIn(t, Base(L, k, n), k) == 4 && FirstIn(t, Base(L, k, n), 0) == 4
    ensures 4 * n + 4 < L.len
  {
    hide FirstIn;
    VisitPasses(L, t, k, n);
  }

  // What its whole bucket, loaded from the table as it is, tells a reference insert.
  lemma ReferenceRound(L: Layout, t: seq<Slot>, k: nat, v: nat, n: nat)
    requires L.Bucketed() && WF(L, t) && 4 * n < L.len && TaskInv(L, t, RefRead(k, v, n, map[]))
    requires Holds(t, k) || !Full(t)
    ensures var r := StepTask(L, t, RefRead(k, v, n, AllLanes(L, t, k, n)));
      && r.1 == t
      && (if r.0.RefRead? then r.0 == RefRead(k, v, n + 1, map[]) && 4 * n + 4 < L.len
          else (r.0.RefStore? || r.0.RefCas?) && InBounds(L, r.0) && StepTask(L, t, r.0).0 == RefDone(k, v))
  {
    hide NoGap, Unique, EmptyIsZero, Holds, Full, FirstLane, FirstIn, StepInsert, StepFind, Passed;
    var seen := AllLanes(L, t, k, n);
    LanesAreBucket(L, t, k, n, seen, k);
    LanesAreBucket(L, t, k, n, seen, 0);
    if FirstIn(t, Base(L, k, n), k) == 4 && FirstIn(t, Base(L, k, n), 0) == 4 { NotYetAround(L, t, k, n); }
    EmptySlotAt(L, t, k, n);
  }

  // It goes bucket by bucket to its key or to the first hole, and binds its key.
  lemma {:induction false} ReferenceEnds(L: Layout, lut: seq<nat>, s: Sys, i: nat) returns (trace: seq<Action>)
    requires Inv(L, s) && |lut| == TABLE_SIZE && i < |s.tasks| && s.tasks[i].RefRead? && s.tasks[i].seen == map[]
    requires Holds(s.t, s.tasks[i].k) || !Full(s.t)
    ensures Own(i, trace) && WF(L, s.t)
    ensures var x, s' := s.tasks[i], Exec(L, lut, s, trace);
      && i < |s'.tasks| && s'.tasks[i] == RefDone(x.k, x.v)
      && WF(L, s'.t) && ToMap(s'.t) == ToMap(s.t)[x.k := x.v]
    decreases L.len - 4 * s.tasks[i].n
  {
    hide Inv, Exec, WF, TaskInv, Holds, Full, FirstLane, FirstIn, StepInsert, StepFind, StepReference, StepTask;
    var x, s', first := Round(L, lut, s, i);
    TaskOf(L, s, i);
    TaskOf(L, s', i);
    ReferenceRound(L, s.t, s.tasks[i].k, s.tasks[i].v, s.tasks[i].n);
    trace := first;
    if s'.tasks[i].RefRead? {
      var rest := ReferenceEnds(L, lut, s', i);
      Then(L, lut, s, i, first, rest);
      trace := first + rest;
    } else {
      var s2 := StepOne(L, lut, s', i);
      StepEffect(L, s'.t, s'.tasks[i]);
      Then(L, lut, s, i, first, [Step(i)]);
      trace := first + [Step(i)];
    }
  }

  lemma EmptySlotAt(L: Layout, t: seq<Slot>, k: nat, n: nat)
    requires L.Bucketed() && WF(L, t) && 4 * n < L.len
    ensures var e := FirstIn(t, Base(L, k, n), 0); e < 4 ==> t[Base(L, k, n) + e] == EMPTY
  {
  }

  lemma SoloReference(L: Layout, lut: seq<nat>, s: Sys, k: nat, v: nat) returns (trace: seq<Action>)
    requires Inv(L, s) && |lut| == TABLE_SIZE && k != 0 && (Holds(s.t, k) || !Full(s.t))
    ensures WF(L, s.t) && Own(|s.tasks|, trace)
    ensures var s', i := Exec(L, lut, s, [StartRefInsert(k, v)] + trace), |s.tasks|;
      && WF(L, s'.t) && i < |s'.tasks| && s'.tasks[i] == RefDone(k, v) && ToMap(s'.t) == ToMap(s.t)[k := v]
  {
    hide Inv, Exec, Apply, Full, WF, Holds;
    ReferenceStarts(L, lut, s, k, v);
    var s1, i := Apply(L, lut, s, StartRefInsert(k, v)), |s.tasks|;
    ExecFirst(L, lut, s, StartRefInsert(k, v), []);
    trace := ReferenceEnds(L, lut, s1, i);
    ExecFirst(L, lut, s, StartRefInsert(k, v), trace);
  }

  lemma ReferenceStarts(L: Layout, lut: seq<nat>, s: Sys, k: nat, v: nat)
    requires Inv(L, s) && |lut| == TABLE_SIZE && k != 0
    ensures L.Bucketed() && WF(L, s.t) && |s.t| == L.len
    ensures var s' := Apply(L, lut, s, StartRefInsert(k, v));
      s'.t == s.t && |s'.tasks| == |s.tasks| + 1 && s'.tasks[|s.tasks|] == RefRead(k, v, 0, map[])
  {
    hide NoGap, Unique, EmptyIsZero, Logged, AllStored, TasksOk;
  }

  // ----- A packet alone

  // An ABSENT lookup goes on to insert the lookup-table entry of its key.
  lemma FallbackStarts(L: Layout, lut: seq<nat>, s: Sys, i: nat)
    requires Inv(L, s) && |lut| == TABLE_SIZE && i < |s.tasks|
    requires s.tasks[i].FndDone? && s.tasks[i].r.Absent?
    ensures L.Bucketed() && WF(L, s.t) && |s.t| == L.len && s.tasks[i].k != 0
    ensures var k, s' := s.tasks[i].k, Apply(L, lut, s, Fallback(i));
      s'.t == s.t && |s'.tasks| == |s.tasks| && s'.tasks[i] == InsRead(k, lut[k % 65537], 0)
  {
    hide NoGap, Unique, EmptyIsZero, Logged, AllStored;
    assert TaskInv(L, s.t, s.tasks[i]);
  }

  lemma InsertFrom(L: Layout, lut: seq<nat>, s: Sys, i: nat) returns (trace: seq<Action>)
    requires Inv(L, s) && |lut| == TABLE_SIZE && i < |s.tasks|
    requires s.tasks[i].FndDone? && s.tasks[i].r.Absent?
    ensures WF(L, s.t)
    ensures var k, v, s' := s.tasks[i].k, lut[s.tasks[i].k % 65537], Exec(L, lut, s, [Fallback(i)] + trace);
      && WF(L, s'.t) && i < |s'.tasks|
      && (if k in ToMap(s.t) || !Full(s.t)
          then s'.tasks[i] == InsDone(k, v, true) && ToMap(s'.t) == ToMap(s.t)[k := v]
          else s'.tasks[i] == InsDone(k, v, false) && s'.t == s.t)
  {
    hide Inv, Exec, Apply, InsertAlone, Full, WF;
    FallbackStarts(L, lut, s, i);
    ExecFirst(L, lut, s, Fallback(i), []);
    trace := InsertEnds(L, lut, Apply(L, lut, s, Fallback(i)), i);
    ExecFirst(L, lut, s, Fallback(i), trace);
    AloneBinds(L, s.t, s.tasks[i].k, lut[s.tasks[i].k % 65537]);
  }

  // One packet served alone, in any state of the table: a stored flow is told its
  // backend; a definitely absent one is stored under its lookup-table entry and
  // told that; and one of which neither is known is told 0.
  lemma SoloPacket(L: Layout, lut: seq<nat>, s: Sys, k: nat) returns (trace: seq<Action>)
    requires Inv(L, s) && |lut| == TABLE_SIZE && k != 0
    ensures L.Bucketed() && WF(L, s.t)
    ensures var s', i, m := Exec(L, lut, s, [StartFind(k)] + trace), |s.tasks|, ToMap(s.t);
      && WF(L, s'.t) && i < |s'.tasks| && Replied(s'.tasks[i])
      && (k in m ==> ReplyTo(s'.tasks[i]) == m[k] && s'.t == s.t)
      && (k !in m && HoleBeforeLast(L, s.t, k) ==>
            ReplyTo(s'.tasks[i]) == lut[k % 65537] && ToMap(s'.t) == m[k := lut[k % 65537]])
      && (k !in m && !HoleBeforeLast(L, s.t, k) ==> ReplyTo(s'.tasks[i]) == 0 && s'.t == s.t)
  {
    hide Inv, Exec, Apply, WF, ToMap;
    var i := |s.tasks|;
    var first := SoloFindEnds(L, lut, s, k);
    SoloFind(L, lut, s, k, first);
    var s1 := Exec(L, lut, s, [StartFind(k)] + first);
    trace := first;
    if s1.tasks[i].r.Absent? {
      var rest := InsertFrom(L, lut, s1, i);
      assert !Full(s.t);
      assert [StartFind(k)] + (first + ([Fallback(i)] + rest)) == [StartFind(k)] + first + ([Fallback(i)] + rest);
      ExecAppend(L, lut, s, [StartFind(k)] + first, [Fallback(i)] + rest);
      trace := first + ([Fallback(i)] + rest);
    }
  }
}
