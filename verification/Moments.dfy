// When things happen in a run: every insert and every lookup of the concurrent
// system takes effect at one moment of its own, and the table's map is what the
// writes made at those moments leave.
module Moments {
  import opened Probing
  import opened Buckets
  import opened GetOrInsert
  import opened Concurrent
  import opened Runs

  // The system before action m of the run.
  function At(L: Layout, lut: seq<nat>, trace: seq<Action>, m: nat): (s: Sys)
    requires L.Bucketed() && |lut| == TABLE_SIZE && m <= |trace|
    ensures Inv(L, s)
  {
    Run(L, lut, trace[..m])
  }

  lemma RunStep(L: Layout, lut: seq<nat>, trace: seq<Action>, m: nat)
    requires L.Bucketed() && |lut| == TABLE_SIZE && m < |trace|
    ensures At(L, lut, trace, m + 1) == Apply(L, lut, At(L, lut, trace, m), trace[m])
  {
    hide Inv, Apply;
    var s := At(L, lut, trace, m);
    assert trace[..m + 1] == trace[..m] + [trace[m]];
    assert Inv(L, Zeroed(L.len)) by { ZeroedInv(L); }
    ExecAppend(L, lut, Zeroed(L.len), trace[..m], [trace[m]]);
    ExecOne(L, lut, s, trace[m]);
  }

  lemma ExecOne(L: Layout, lut: seq<nat>, s: Sys, a: Action)
    requires Inv(L, s) && |lut| == TABLE_SIZE
    ensures Inv(L, Apply(L, lut, s, a)) && Exec(L, lut, s, [a]) == Apply(L, lut, s, a)
  {
    hide Inv, Apply;
    ApplyKeeps(L, lut, s, a);
    assert [a][1..] == [];
    assert Exec(L, lut, Apply(L, lut, s, a), []) == Apply(L, lut, s, a);
  }

  lemma TableGrows(L: Layout, lut: seq<nat>, trace: seq<Action>, m: nat, n: nat)
    requires L.Bucketed() && |lut| == TABLE_SIZE && m <= n <= |trace|
    ensures Grows(At(L, lut, trace, m).t, At(L, lut, trace, n).t)
  {
    hide Inv, Apply, Grows;
    assert trace[..n] == trace[..m] + trace[m..n];
    assert Inv(L, Zeroed(L.len)) by { ZeroedInv(L); }
    ExecAppend(L, lut, Zeroed(L.len), trace[..m], trace[m..n]);
    ExecGrows(L, lut, At(L, lut, trace, m), trace[m..n]);
  }

  // ----- Writes

  // A step leaves the table alone, or it is the one that makes the task succeed
  // and binds the task's key to the task's value.
  lemma StepEffect(L: Layout, t: seq<Slot>, x: Task)
    requires L.Bucketed() && WF(L, t) && TaskInv(L, t, x)
    ensures InBounds(L, x)
    ensures var (x', t') := StepTask(L, t, x);
      && WF(L, t') && x'.k == x.k
      && (if Succeeded(x') && !Succeeded(x) then ToMap(t') == ToMap(t)[x'.k := x'.v] else t' == t)
  {
    hide NoGap, Unique, EmptyIsZero, Grows, TaskInv, StepInsert, StepFind, StepReference;
    TaskInBounds(L, t, x);
    var (x', t') := StepTask(L, t, x);
    StepTaskKeeps(L, t, x);
    StepWrites(L, t, x);
    if Succeeded(x') && !Succeeded(x) {
      var i :| IsPut(t, t', i, x'.k, x'.v);
      PutBinds(L, t, t', i, x'.k, x'.v);
    }
  }

  lemma TaskInBounds(L: Layout, t: seq<Slot>, x: Task)
    requires L.Bucketed() && |t| == L.len && TaskInv(L, t, x)
    ensures InBounds(L, x)
  {
  }

  lemma PutBinds(L: Layout, t: seq<Slot>, t': seq<Slot>, i: int, k: nat, v: nat)
    requires WF(L, t) && WF(L, t') && Grows(t, t') && k != 0 && IsPut(t, t', i, k, v)
    ensures ToMap(t') == ToMap(t)[k := v]
  {
    hide NoGap, EmptyIsZero;
    if t[i].key == 0 {
      forall j | 0 <= j < |t| && j != i ensures t[j].key != k { assert t'[j] == t[j] && t'[i].key == k; }
      assert k !in Keys(t);
      FillMap(t, k, v, i);
    } else {
      assert t'[i].key == t[i].key == k;
      UpdateMap(t, k, v, i);
    }
  }

  // Action m is the step that makes an insert succeed.
  ghost predicate Commits(L: Layout, lut: seq<nat>, trace: seq<Action>, m: nat)
    requires L.Bucketed() && |lut| == TABLE_SIZE && m < |trace|
  {
    var s, s' := At(L, lut, trace, m), At(L, lut, trace, m + 1);
    && trace[m].Step? && trace[m].i < |s.tasks| == |s'.tasks|
    && !Succeeded(s.tasks[trace[m].i]) && Succeeded(s'.tasks[trace[m].i])
  }

  // Such a step adds its insert's binding; any other action leaves the table alone.
  lemma CommitBinds(L: Layout, lut: seq<nat>, trace: seq<Action>, m: nat)
    requires L.Bucketed() && |lut| == TABLE_SIZE && m < |trace|
    ensures var s, s' := At(L, lut, trace, m), At(L, lut, trace, m + 1);
      && WF(L, s.t) && WF(L, s'.t)
      && (if Commits(L, lut, trace, m)
          then var x := s'.tasks[trace[m].i]; ToMap(s'.t) == ToMap(s.t)[x.k := x.v]
          else s'.t == s.t)
  {
    hide NoGap, Unique, EmptyIsZero, TaskInv, Logged, AllStored, StepTask, Run, Keys;
    var s, a := At(L, lut, trace, m), trace[m];
    RunStep(L, lut, trace, m);
    if a.Step? && a.i < |s.tasks| {
      assert TaskInv(L, s.t, s.tasks[a.i]);
      StepEffect(L, s.t, s.tasks[a.i]);
    }
  }

  // The pairs written so far, in the order of the moments that wrote them.
  ghost function History(L: Layout, lut: seq<nat>, trace: seq<Action>, m: nat): seq<(nat, nat)>
    requires L.Bucketed() && |lut| == TABLE_SIZE && m <= |trace|
  {
    if m == 0 then []
    else if Commits(L, lut, trace, m - 1) then
      var x := At(L, lut, trace, m).tasks[trace[m - 1].i];
      History(L, lut, trace, m - 1) + [(x.k, x.v)]
    else History(L, lut, trace, m - 1)
  }

  ghost function Played(h: seq<(nat, nat)>): map<nat, nat> {
    if h == [] then map[] else Played(h[..|h| - 1])[h[|h| - 1].0 := h[|h| - 1].1]
  }

  // In every run the table's map is what the committed inserts leave, played one
  // after the other in the order in which they committed.
  lemma {:induction false} MapIsHistory(L: Layout, lut: seq<nat>, trace: seq<Action>, m: nat)
    requires L.Bucketed() && |lut| == TABLE_SIZE && m <= |trace|
    ensures WF(L, At(L, lut, trace, m).t)
    ensures ToMap(At(L, lut, trace, m).t) == Played(History(L, lut, trace, m))
  {
    hide NoGap, Unique, EmptyIsZero, TasksOk, Logged, AllStored, Commits;
    if m == 0 {
      assert trace[..0] == [];
      ZeroedTable(L, Zeroed(L.len).t);
    } else {
      MapIsHistory(L, lut, trace, m - 1);
      CommitBinds(L, lut, trace, m - 1);
      var h := History(L, lut, trace, m);
      if Commits(L, lut, trace, m - 1) { assert h[..|h| - 1] == History(L, lut, trace, m - 1); }
    }
  }

  lemma InitiallyNone(L: Layout, lut: seq<nat>, trace: seq<Action>)
    requires L.Bucketed() && |lut| == TABLE_SIZE
    ensures At(L, lut, trace, 0).tasks == []
  {
    assert trace[..0] == [];
  }

  // How one action changes task i: not at all, or it starts it, or it is its own.
  lemma TaskChange(L: Layout, lut: seq<nat>, trace: seq<Action>, m: nat, i: nat)
    requires L.Bucketed() && |lut| == TABLE_SIZE && m < |trace| && i < |At(L, lut, trace, m + 1).tasks|
    ensures var s, x', a := At(L, lut, trace, m), At(L, lut, trace, m + 1).tasks[i], trace[m];
      if i >= |s.tasks| then
        (x'.FndRead? && x'.n == 0 && x'.seen == map[]) || x'.InsRead? || x'.RefRead? || (x'.InsDone? && !x'.ok)
      else
        var x := s.tasks[i];
        InBounds(L, x) && |s.t| == L.len &&
        (x' == x
         || (a == Step(i) && x' == StepTask(L, s.t, x).0)
         || (a.Load? && a.i == i && a.j < 4 && x' == LoadLane(L, s.t, x, a.j))
         || (a == Fallback(i) && x'.InsRead?))
    ensures trace[m].Step? ==> |At(L, lut, trace, m + 1).tasks| == |At(L, lut, trace, m).tasks|
  {
    hide NoGap, Unique, EmptyIsZero, Logged, AllStored, StepTask, Run, Passed, Fresh, NoHoleSeen;
    var s, a := At(L, lut, trace, m), trace[m];
    RunStep(L, lut, trace, m);
    if i < |s.tasks| { assert TaskInv(L, s.t, s.tasks[i]); }
  }

  // ----- Each call has its moment

  // An insert that has succeeded committed at a step of its own.
  lemma {:induction false} InsertMoment(L: Layout, lut: seq<nat>, trace: seq<Action>, m: nat, i: nat) returns (q: nat)
    requires L.Bucketed() && |lut| == TABLE_SIZE && m <= |trace|
    requires i < |At(L, lut, trace, m).tasks| && Succeeded(At(L, lut, trace, m).tasks[i])
    ensures q < m && trace[q] == Step(i) && Commits(L, lut, trace, q)
    ensures i < |At(L, lut, trace, q + 1).tasks| && At(L, lut, trace, q + 1).tasks[i] == At(L, lut, trace, m).tasks[i]
  {
    hide Inv, Run, StepInsert, StepFind, StepReference;
    if m == 0 {
      InitiallyNone(L, lut, trace);
    } else {
      TaskChange(L, lut, trace, m - 1, i);
      var s := At(L, lut, trace, m - 1);
      if Succeeded(s.tasks[i]) {
        q := InsertMoment(L, lut, trace, m - 1, i);
      } else {
        q := m - 1;
      }
    }
  }

  // The steps that begin a bucket or end a lookup are a lookup's own.
  ghost predicate LookupStep(L: Layout, t: seq<Slot>, x: Task, x': Task)
    requires L.Bucketed() && |t| == L.len && InBounds(L, x)
  {
    && (x'.FndRead? ==> x' == x || x'.seen == map[])
    && (x'.FndDone? && x' != x ==>
          (x.FndValue? || (x.FndRead? && Loaded(x.seen))) && x' == StepFind(L, t, x))
  }

  lemma LookupSteps(L: Layout, t: seq<Slot>, x: Task)
    requires L.Bucketed() && |t| == L.len && InBounds(L, x)
    ensures LookupStep(L, t, x, StepTask(L, t, x).0)
  {
    hide FirstLane;
  }

  // A lane that a lookup holds was read at a moment of the run.
  lemma {:induction false} LaneMoment(L: Layout, lut: seq<nat>, trace: seq<Action>, m: nat, i: nat, j: nat) returns (q: nat)
    requires L.Bucketed() && |lut| == TABLE_SIZE && m <= |trace| && i < |At(L, lut, trace, m).tasks|
    requires var x := At(L, lut, trace, m).tasks[i]; x.FndRead? && 4 * x.n < L.len && j < 4 && j in x.seen
    ensures q < m && trace[q] == Load(i, j)
    ensures var s, x := At(L, lut, trace, q), At(L, lut, trace, m).tasks[i];
      && |s.t| == L.len && i < |s.tasks|
      && s.tasks[i].FndRead? && s.tasks[i].k == x.k && s.tasks[i].n == x.n
      && s.t[Base(L, x.k, x.n) + j].key == x.seen[j]
  {
    hide Inv, Run, StepTask;
    if m == 0 {
      InitiallyNone(L, lut, trace);
    } else {
      TaskChange(L, lut, trace, m - 1, i);
      if i < |At(L, lut, trace, m - 1).tasks| { LookupSteps(L, At(L, lut, trace, m - 1).t, At(L, lut, trace, m - 1).tasks[i]); }
      var s, x' := At(L, lut, trace, m - 1), At(L, lut, trace, m).tasks[i];
      if trace[m - 1] == Load(i, j) && s.tasks[i] != x' {
        q := m - 1;
      } else {
        q := LaneMoment(L, lut, trace, m - 1, i, j);
      }
    }
  }

  // A lookup that ended was decided by a step of its own.
  lemma {:induction false} FindMoment(L: Layout, lut: seq<nat>, trace: seq<Action>, m: nat, i: nat) returns (q: nat)
    requires L.Bucketed() && |lut| == TABLE_SIZE && m <= |trace|
    requires i < |At(L, lut, trace, m).tasks| && At(L, lut, trace, m).tasks[i].FndDone?
    ensures q < m && trace[q] == Step(i)
    ensures var s := At(L, lut, trace, q);
      && i < |s.tasks| && InBounds(L, s.tasks[i]) && |s.t| == L.len
      && (s.tasks[i].FndValue? || (s.tasks[i].FndRead? && Loaded(s.tasks[i].seen)))
      && StepFind(L, s.t, s.tasks[i]) == At(L, lut, trace, m).tasks[i]
  {
    hide Inv, Run, StepTask, StepFind;
    if m == 0 {
      InitiallyNone(L, lut, trace);
    } else {
      TaskChange(L, lut, trace, m - 1, i);
      if i < |At(L, lut, trace, m - 1).tasks| { LookupSteps(L, At(L, lut, trace, m - 1).t, At(L, lut, trace, m - 1).tasks[i]); }
      if At(L, lut, trace, m - 1).tasks[i].FndDone? {
        q := FindMoment(L, lut, trace, m - 1, i);
      } else {
        q := m - 1;
      }
    }
  }

  // A lookup that found v read it when the table bound its key to v.
  lemma FoundMoment(L: Layout, lut: seq<nat>, trace: seq<Action>, i: nat) returns (q: nat)
    requires L.Bucketed() && |lut| == TABLE_SIZE && i < |Run(L, lut, trace).tasks|
    requires var x := Run(L, lut, trace).tasks[i]; x.FndDone? && x.r.Found?
    ensures q < |trace| && trace[q] == Step(i)
    ensures var s, x := At(L, lut, trace, q), Run(L, lut, trace).tasks[i];
      && WF(L, s.t) && i < |s.tasks| && s.tasks[i].FndValue? && s.tasks[i].k == x.k
      && x.k in ToMap(s.t) && ToMap(s.t)[x.k] == x.r.val
  {
    hide NoGap, EmptyIsZero, Unique, Logged, AllStored, Run, Passed;
    assert trace[..|trace|] == trace;
    q := FindMoment(L, lut, trace, |trace|, i);
    var s := At(L, lut, trace, q);
    assert TaskInv(L, s.t, s.tasks[i]);
  }

  // A stored key lies before every empty slot of its path.
  lemma HoleBars(L: Layout, t: seq<Slot>, k: nat, i: nat, a: nat)
    requires L.Bucketed() && WF(L, t) && k != 0 && i < |t| && t[i].key == 0 && a < |t| && t[a].key == k
    ensures L.Dist(k, a) < L.Dist(k, i)
  {
    hide Unique, EmptyIsZero;
    assert Occupied(L, t, k, L.Dist(k, a));
  }

  // So with other keys in all slots before it, then or later, it keeps k out.
  lemma HoleKeepsOut(L: Layout, t: seq<Slot>, t': seq<Slot>, k: nat, i: nat)
    requires L.Bucketed() && WF(L, t) && |t'| == L.len && Grows(t, t') && k != 0 && i < |t|
    requires Passed(L, t', k, L.Dist(k, i)) && t[i].key == 0
    ensures k !in ToMap(t)
  {
    hide NoGap, Unique, EmptyIsZero;
    forall a | 0 <= a < |t| ensures t[a].key != k {
      if t[a].key == k { HoleBars(L, t, k, i, a); }
    }
  }

  // The step to ABSENT: other keys passed up to a lane that was read empty.
  lemma AbsentStep(L: Layout, t: seq<Slot>, x: Task)
    requires L.Bucketed() && WF(L, t) && TaskInv(L, t, x) && InBounds(L, x)
    requires x.FndValue? || (x.FndRead? && Loaded(x.seen))
    requires StepFind(L, t, x).FndDone? && StepFind(L, t, x).r.Absent?
    ensures x.FndRead? && x.k != 0 && 4 * x.n + 4 < L.len && StepFind(L, t, x).k == x.k
    ensures var j := FirstLane(x.seen, 0); j < 4 && j in x.seen && x.seen[j] == 0 && Passed(L, t, x.k, 4 * x.n + j)
  {
    hide NoGap, EmptyIsZero, Unique, Passed, NoHoleSeen, FirstLane;
    LanesPass(L, t, x.k, x.n, x.seen);
  }

  // A lookup that ended in ABSENT had read an empty slot, in a bucket other than
  // the last of its path, at a moment when its key was not in the table.
  lemma AbsentMoment(L: Layout, lut: seq<nat>, trace: seq<Action>, i: nat) returns (q: nat, n: nat, j: nat)
    requires L.Bucketed() && |lut| == TABLE_SIZE && i < |Run(L, lut, trace).tasks|
    requires var x := Run(L, lut, trace).tasks[i]; x.FndDone? && x.r.Absent?
    ensures q < |trace| && trace[q] == Load(i, j) && j < 4 && 4 * n + 4 < L.len
    ensures var s, k := At(L, lut, trace, q), Run(L, lut, trace).tasks[i].k;
      && WF(L, s.t) && i < |s.tasks| && s.tasks[i].FndRead? && s.tasks[i].k == k && s.tasks[i].n == n
      && s.t[Base(L, k, n) + j].key == 0 && k !in ToMap(s.t) && HoleBeforeLast(L, s.t, k)
  {
    hide NoGap, EmptyIsZero, Unique, Logged, AllStored, Run, Passed, Grows, TaskInv, StepFind, FirstLane, Holds;
    assert trace[..|trace|] == trace;
    var p := FindMoment(L, lut, trace, |trace|, i);
    var s' := At(L, lut, trace, p);
    var x := s'.tasks[i];
    assert TaskInv(L, s'.t, x);
    AbsentStep(L, s'.t, x);
    n, j := x.n, FirstLane(x.seen, 0);
    q := LaneMoment(L, lut, trace, p, i, j);
    var s := At(L, lut, trace, q);
    TableGrows(L, lut, trace, q, p);
    BucketSlots(L, x.k, n, Base(L, x.k, n) + j);
    HoleKeepsOut(L, s.t, s'.t, x.k, Base(L, x.k, n) + j);
  }

  // A lookup that gave up finds no hole before the last bucket of its path, then
  // or ever after, and its key in none of those buckets.
  lemma FullForGood(L: Layout, lut: seq<nat>, trace: seq<Action>, i: nat)
    requires L.Bucketed() && |lut| == TABLE_SIZE && i < |Run(L, lut, trace).tasks|
    requires var x := Run(L, lut, trace).tasks[i]; x.FndDone? && x.r.TableFull?
    ensures var t, k := Run(L, lut, trace).t, Run(L, lut, trace).tasks[i].k;
      |t| == L.len && !HoleBeforeLast(L, t, k)
      && forall a | 0 <= a < |t| && L.Dist(k, a) < L.len - 4 :: t[a].key != k
  {
    hide NoGap, EmptyIsZero, Unique, Logged, AllStored, Run;
    var s := Run(L, lut, trace);
    assert TaskInv(L, s.t, s.tasks[i]);
  }
}
