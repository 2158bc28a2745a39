// Whole runs of the concurrent system, from a zeroed table, any number of
// threads, any interleaving.
module Runs {
  import opened Probing
  import opened Buckets
  import opened GetOrInsert
  import opened Concurrent

  function Exec(L: Layout, lut: seq<nat>, s: Sys, trace: seq<Action>): (r: Sys)
    requires Inv(L, s) && |lut| == TABLE_SIZE
    ensures Inv(L, r)
    decreases |trace|
  {
    if trace == [] then s
    else
      ApplyKeeps(L, lut, s, trace[0]);
      Exec(L, lut, Apply(L, lut, s, trace[0]), trace[1..])
  }

  function Run(L: Layout, lut: seq<nat>, trace: seq<Action>): (r: Sys)
    requires L.Bucketed() && |lut| == TABLE_SIZE
    ensures Inv(L, r)
  {
    ZeroedInv(L);
    Exec(L, lut, Zeroed(L.len), trace)
  }

  lemma {:induction false} ExecAppend(L: Layout, lut: seq<nat>, s: Sys, before: seq<Action>, after: seq<Action>)
    requires Inv(L, s) && |lut| == TABLE_SIZE
    ensures Exec(L, lut, s, before + after) == Exec(L, lut, Exec(L, lut, s, before), after)
    decreases |before|
  {
    hide Inv, Apply;
    if before == [] {
      assert before + after == after;
    } else {
      assert Inv(L, Apply(L, lut, s, before[0])) by { ApplyKeeps(L, lut, s, before[0]); }
      assert (before + after)[1..] == before[1..] + after;
      ExecAppend(L, lut, Apply(L, lut, s, before[0]), before[1..], after);
    }
  }

  // ----- Insert safety

  lemma {:induction false} ExecGrows(L: Layout, lut: seq<nat>, s: Sys, trace: seq<Action>)
    requires Inv(L, s) && |lut| == TABLE_SIZE
    ensures Grows(s.t, Exec(L, lut, s, trace).t)
    decreases |trace|
  {
    hide Inv, Apply;
    if trace != [] {
      ApplyKeeps(L, lut, s, trace[0]);
      ExecGrows(L, lut, Apply(L, lut, s, trace[0]), trace[1..]);
    }
  }

  // However inserts and lookups interleave: no key in two slots, empty slots
  // wholly zero, no hole on the way from a key's home to its slot, keys stay
  // where they are, and an insert that succeeded has its key in the table.
  lemma InsertSafety(L: Layout, lut: seq<nat>, before: seq<Action>, after: seq<Action>)
    requires L.Bucketed() && |lut| == TABLE_SIZE
    ensures var s, s' := Run(L, lut, before), Run(L, lut, before + after);
      && Unique(s'.t) && EmptyIsZero(s'.t) && NoGap(L, s'.t)
      && Grows(s.t, s'.t)
      && (forall i | 0 <= i < |s'.tasks| && Succeeded(s'.tasks[i]) :: Holds(s'.t, s'.tasks[i].k))
  {
    hide NoGap, Unique, EmptyIsZero, Grows;
    ZeroedInv(L);
    ExecAppend(L, lut, Zeroed(L.len), before, after);
    ExecGrows(L, lut, Run(L, lut, before), after);
    var s' := Run(L, lut, before + after);
    assert TasksOk(L, s');
  }

  // ----- Lookups against concurrent inserts

  ghost predicate LateFind(x: Task, k: nat) {
    x.k == k && (x.FndRead? || x.FndValue? || x.FndDone?) && x.late
  }

  lemma LateStep(L: Layout, lut: seq<nat>, s: Sys, a: Action, i: nat, k: nat)
    requires Inv(L, s) && |lut| == TABLE_SIZE && i < |s.tasks| && LateFind(s.tasks[i], k)
    ensures var s' := Apply(L, lut, s, a); i < |s'.tasks| && LateFind(s'.tasks[i], k)
  {
    hide NoGap, Unique, EmptyIsZero, Logged, AllStored, Passed, StepInsert, StepReference, FirstLane;
    assert TaskInv(L, s.t, s.tasks[i]);
  }

  lemma {:induction false} LateStays(L: Layout, lut: seq<nat>, s: Sys, trace: seq<Action>, i: nat, k: nat)
    requires Inv(L, s) && |lut| == TABLE_SIZE && i < |s.tasks| && LateFind(s.tasks[i], k)
    ensures var s' := Exec(L, lut, s, trace); i < |s'.tasks| && LateFind(s'.tasks[i], k)
    decreases |trace|
  {
    hide Inv, Apply, LateFind;
    if trace != [] {
      LateStep(L, lut, s, trace[0], i, k);
      assert Inv(L, Apply(L, lut, s, trace[0])) by { ApplyKeeps(L, lut, s, trace[0]); }
      LateStays(L, lut, Apply(L, lut, s, trace[0]), trace[1..], i, k);
    }
  }

  // A lookup that starts after some insert of its key succeeded can only end in
  // FOUND, and every value found is one that some insert of the key wrote.
  lemma FindAfterInsert(L: Layout, lut: seq<nat>, before: seq<Action>, after: seq<Action>, j: nat)
    requires L.Bucketed() && |lut| == TABLE_SIZE
    requires j < |Run(L, lut, before).tasks| && Succeeded(Run(L, lut, before).tasks[j])
    ensures var s := Run(L, lut, before); var k := s.tasks[j].k;
      var s' := Run(L, lut, before + [StartFind(k)] + after); var i := |s.tasks|;
      && i < |s'.tasks| && LateFind(s'.tasks[i], k)
      && (s'.tasks[i].FndDone? ==> s'.tasks[i].r.Found? && (k, s'.tasks[i].r.val) in s'.wrote)
  {
    hide NoGap, Unique, EmptyIsZero, Logged, AllStored;
    var s := Run(L, lut, before);
    var k := s.tasks[j].k;
    assert TaskInv(L, s.t, s.tasks[j]) && Known(s.submitted, s.wrote, s.stored, s.tasks[j]);
    ZeroedInv(L);
    ExecAppend(L, lut, Zeroed(L.len), before, [StartFind(k)]);
    ExecAppend(L, lut, Zeroed(L.len), before + [StartFind(k)], after);
    ApplyKeeps(L, lut, s, StartFind(k));
    var s1 := Apply(L, lut, s, StartFind(k));
    assert [StartFind(k)][1..] == [];
    assert Exec(L, lut, s1, []) == s1;
    assert Exec(L, lut, s, [StartFind(k)]) == s1;
    LateStays(L, lut, s1, after, |s.tasks|, k);
    var s' := Exec(L, lut, s1, after);
    assert TaskInv(L, s'.t, s'.tasks[|s.tasks|]) && Known(s'.submitted, s'.wrote, s'.stored, s'.tasks[|s.tasks|]);
  }

  // The log of writes lists the pairs of inserts that have returned success.
  ghost predicate Writer(tasks: seq<Task>, p: (nat, nat), j: nat) {
    j < |tasks| && Succeeded(tasks[j]) && (tasks[j].k, tasks[j].v) == p
  }

  ghost predicate AllWritten(s: Sys) {
    forall p | p in s.wrote :: exists j: nat :: Writer(s.tasks, p, j)
  }

  lemma SuccessStays(L: Layout, lut: seq<nat>, s: Sys, a: Action, j: nat)
    requires Inv(L, s) && |lut| == TABLE_SIZE && j < |s.tasks| && Succeeded(s.tasks[j])
    ensures var s' := Apply(L, lut, s, a); j < |s'.tasks| && s'.tasks[j] == s.tasks[j]
  {
    hide NoGap, Unique, EmptyIsZero, Logged, AllStored, TaskInv;
  }

  lemma WrittenStep(L: Layout, lut: seq<nat>, s: Sys, a: Action)
    requires Inv(L, s) && |lut| == TABLE_SIZE && AllWritten(s)
    ensures AllWritten(Apply(L, lut, s, a))
  {
    hide NoGap, Unique, EmptyIsZero, Logged, AllStored, TaskInv, StepTask, LoadLane;
    var s' := Apply(L, lut, s, a);
    forall p | p in s'.wrote ensures exists j: nat :: Writer(s'.tasks, p, j) {
      if p in s.wrote {
        var j: nat :| Writer(s.tasks, p, j);
        SuccessStays(L, lut, s, a, j);
        assert Writer(s'.tasks, p, j);
      } else {
        var i := match a case Fallback(i) => i case Load(i, _) => i case Step(i) => i case _ => 0;
        assert Writer(s'.tasks, p, i);
      }
    }
  }

  lemma {:induction false} WrittenRun(L: Layout, lut: seq<nat>, s: Sys, trace: seq<Action>)
    requires Inv(L, s) && |lut| == TABLE_SIZE && AllWritten(s)
    ensures AllWritten(Exec(L, lut, s, trace))
    decreases |trace|
  {
    hide Inv, Apply, AllWritten;
    if trace != [] {
      assert Inv(L, Apply(L, lut, s, trace[0])) by { ApplyKeeps(L, lut, s, trace[0]); }
      WrittenStep(L, lut, s, trace[0]);
      WrittenRun(L, lut, Apply(L, lut, s, trace[0]), trace[1..]);
    }
  }

  // Whenever a lookup found a value, some insert of its key wrote that value:
  // key and value are published together.
  lemma FoundWasWritten(L: Layout, lut: seq<nat>, trace: seq<Action>, i: nat)
    requires L.Bucketed() && |lut| == TABLE_SIZE && i < |Run(L, lut, trace).tasks|
    requires var x := Run(L, lut, trace).tasks[i]; x.FndDone? && x.r.Found?
    ensures var s := Run(L, lut, trace);
      exists j: nat :: Writer(s.tasks, (s.tasks[i].k, s.tasks[i].r.val), j)
  {
    hide NoGap, Unique, EmptyIsZero, Logged, AllStored, TaskInv, Writer;
    ZeroedInv(L);
    WrittenRun(L, lut, Zeroed(L.len), trace);
    var s := Run(L, lut, trace);
    assert Known(s.submitted, s.wrote, s.stored, s.tasks[i]);
  }

  // ----- One thread alone is the sequential operation

  function InsertAlone(L: Layout, t: seq<Slot>, x: Task): (r: (seq<Slot>, bool))
    requires L.Bucketed() && |t| == L.len && InBounds(L, x)
    requires x.InsRead? || x.InsCas? || x.InsCheck? || x.InsStore?
    decreases L.len - x.d, if x.InsRead? then 3 else if x.InsCas? then 2 else if x.InsCheck? then 1 else 0
  {
    var (x', t') := StepInsert(L, t, x);
    if x'.InsDone? then (t', x'.ok) else InsertAlone(L, t', x')
  }

  lemma {:induction false} InsertAloneFrom(L: Layout, t: seq<Slot>, k: nat, v: nat, d: nat)
    requires L.Bucketed() && |t| == L.len && k != 0 && d < L.len && EmptyIsZero(t)
    ensures var e := StopFrom(L, t, k, d);
      InsertAlone(L, t, InsRead(k, v, d)) == if e == L.len then (t, false) else (t[L.At(k, e) := Slot(k, v)], true)
    decreases L.len - d
  {
    var i := L.At(k, d);
    if t[i].key == 0 {
      assert InsertAlone(L, t, InsRead(k, v, d)) == InsertAlone(L, t, InsCas(k, v, d));
    } else {
      assert InsertAlone(L, t, InsRead(k, v, d)) == InsertAlone(L, t, InsCheck(k, v, d));
      if t[i].key == k {
        assert InsertAlone(L, t, InsCheck(k, v, d)) == InsertAlone(L, t, InsStore(k, v, d));
      } else if d + 1 < L.len {
        assert InsertAlone(L, t, InsCheck(k, v, d)) == InsertAlone(L, t, InsRead(k, v, d + 1));
        InsertAloneFrom(L, t, k, v, d + 1);
      }
    }
  }

  // The interleaved insert, run without interference, is the sequential one.
  lemma SoloInsert(L: Layout, t: seq<Slot>, k: nat, v: nat)
    requires L.Bucketed() && WF(L, t) && k != 0
    ensures InsertAlone(L, t, InsRead(k, v, 0)) == Insert(L, t, k, v)
  {
    hide NoGap, Unique, StepInsert, InsertAlone;
    InsertAloneFrom(L, t, k, v, 0);
  }

  // ----- Capacity

  ghost function TraceKeys(trace: seq<Action>): set<nat> {
    if trace == [] then {} else ActionKeys(trace[0]) + TraceKeys(trace[1..])
  }

  ghost function ActionKeys(a: Action): set<nat> {
    match a
    case StartFind(k) => if k == 0 then {} else {k}
    case StartInsert(k, _) => if k == 0 then {} else {k}
    case StartRefInsert(k, _) => if k == 0 then {} else {k}
    case _ => {}
  }

  lemma {:induction false} SubmittedAreTraceKeys(L: Layout, lut: seq<nat>, s: Sys, trace: seq<Action>)
    requires Inv(L, s) && |lut| == TABLE_SIZE
    ensures Exec(L, lut, s, trace).submitted == s.submitted + TraceKeys(trace)
    decreases |trace|
  {
    hide Inv, StepTask;
    if trace != [] {
      assert Inv(L, Apply(L, lut, s, trace[0])) by { ApplyKeeps(L, lut, s, trace[0]); }
      SubmittedAreTraceKeys(L, lut, Apply(L, lut, s, trace[0]), trace[1..]);
    }
  }

  // With at most len - 4 distinct keys ever submitted, no lookup ends in
  // TABLE_FULL and no insert of a nonzero key fails, in any run.
  lemma CapacityInRuns(L: Layout, lut: seq<nat>, trace: seq<Action>, i: nat)
    requires L.Bucketed() && |lut| == TABLE_SIZE && |TraceKeys(trace)| <= L.len - 4
    requires i < |Run(L, lut, trace).tasks|
    ensures var x := Run(L, lut, trace).tasks[i];
      !(x.FndDone? && x.r.TableFull?) && !(x.InsDone? && !x.ok && x.k != 0)
  {
    hide NoGap, Unique, EmptyIsZero, Logged, AllStored, Passed, Exec, Holds, Fresh, NoHoleSeen, InBounds;
    ZeroedInv(L);
    SubmittedAreTraceKeys(L, lut, Zeroed(L.len), trace);
    var s := Run(L, lut, trace);
    var x := s.tasks[i];
    assert TaskInv(L, s.t, x) && Known(s.submitted, s.wrote, s.stored, x);
    if x.FndDone? && x.r.TableFull? { PassedCount(L, s.t, x.k, L.len - 4, s.submitted); }
    if x.InsDone? && !x.ok && x.k != 0 { PassedCount(L, s.t, x.k, L.len, s.submitted); }
  }

  // ----- Flow affinity

  // Inserts carry the backend of their key; fallbacks always do.
  ghost predicate Affine(lut: seq<nat>, a: Action)
    requires |lut| == TABLE_SIZE
  {
    match a
    case StartInsert(k, v) => v == Backend(lut, k)
    case StartRefInsert(k, v) => v == Backend(lut, k)
    case _ => true
  }

  predicate Inserting(x: Task) {
    !x.FndRead? && !x.FndValue? && !x.FndDone?
  }

  ghost predicate AllAffine(lut: seq<nat>, s: Sys)
    requires |lut| == TABLE_SIZE
  {
    && (forall p | p in s.wrote :: p.1 == Backend(lut, p.0))
    && (forall i | 0 <= i < |s.tasks| :: Inserting(s.tasks[i]) ==> s.tasks[i].v == Backend(lut, s.tasks[i].k))
  }

  lemma AffineStep(L: Layout, lut: seq<nat>, s: Sys, a: Action)
    requires Inv(L, s) && |lut| == TABLE_SIZE && AllAffine(lut, s) && Affine(lut, a)
    ensures AllAffine(lut, Apply(L, lut, s, a))
  {
    hide NoGap, Unique, EmptyIsZero, Logged, AllStored, Passed, Fresh, FirstLane;
    if a.Step? && a.i < |s.tasks| {
      assert TaskInv(L, s.t, s.tasks[a.i]);
      var x := StepTask(L, s.t, s.tasks[a.i]).0;
      assert Inserting(x) ==> Inserting(s.tasks[a.i]) && x.v == s.tasks[a.i].v && x.k == s.tasks[a.i].k;
    }
  }

  lemma {:induction false} AffineRun(L: Layout, lut: seq<nat>, s: Sys, trace: seq<Action>)
    requires Inv(L, s) && |lut| == TABLE_SIZE && AllAffine(lut, s)
    requires forall j | 0 <= j < |trace| :: Affine(lut, trace[j])
    ensures AllAffine(lut, Exec(L, lut, s, trace))
    decreases |trace|
  {
    hide Inv, Apply, AllAffine, Affine;
    if trace != [] {
      assert Inv(L, Apply(L, lut, s, trace[0])) by { ApplyKeeps(L, lut, s, trace[0]); }
      AffineStep(L, lut, s, trace[0]);
      AffineRun(L, lut, Apply(L, lut, s, trace[0]), trace[1..]);
    }
  }

  // What a packet is told once its lookup, or the insert after it, has ended.
  predicate Replied(x: Task) {
    x.InsDone? || (x.FndDone? && !x.r.Absent?)
  }

  function ReplyTo(x: Task): nat
    requires Replied(x)
  {
    match x
    case InsDone(_, v, ok) => if ok then v else 0
    case FndDone(_, r, _) => if r.Found? then r.val else 0
  }

  // Every stored value is its key's entry of the lookup table. So a packet is told
  // that entry if its lookup hit or its insert succeeded, and 0 otherwise; and its
  // lookup surely hits if it started after the flow was stored.
  lemma FlowAffinity(L: Layout, lut: seq<nat>, trace: seq<Action>)
    requires L.Bucketed() && |lut| == TABLE_SIZE
    requires forall j | 0 <= j < |trace| :: Affine(lut, trace[j])
    ensures var s := Run(L, lut, trace);
      && (forall i | 0 <= i < |s.t| && s.t[i].key != 0 :: s.t[i].val == lut[s.t[i].key % 65537])
      && (forall i | 0 <= i < |s.tasks| && s.tasks[i].InsDone? ::
            ReplyTo(s.tasks[i]) == if s.tasks[i].ok then lut[s.tasks[i].k % 65537] else 0)
      && (forall i | 0 <= i < |s.tasks| && s.tasks[i].FndDone? && !s.tasks[i].r.Absent? ::
            ReplyTo(s.tasks[i]) == if s.tasks[i].r.Found? then lut[s.tasks[i].k % 65537] else 0)
      && (forall i | 0 <= i < |s.tasks| && s.tasks[i].FndDone? && s.tasks[i].late ::
            s.tasks[i].r == Found(lut[s.tasks[i].k % 65537]))
  {
    hide NoGap, Unique, EmptyIsZero, AllStored, Passed, Affine;
    ZeroedInv(L);
    AffineRun(L, lut, Zeroed(L.len), trace);
    var s := Run(L, lut, trace);
    assert forall i | 0 <= i < |s.tasks| ::
        TaskInv(L, s.t, s.tasks[i]) && Known(s.submitted, s.wrote, s.stored, s.tasks[i]);
  }
}
