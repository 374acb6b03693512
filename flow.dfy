/** Flow construction of muFlow (muFlow/assembler.py, MacroFlow and
    MicroFlow): name-dependency resolution between serial tasks, parallel
    groups and the macro scope. The pure functions state what each
    operation does to the flow; the classes MicroFlow and MacroFlow carry
    the same state as fields and are proved against them. */
module Flow {
  import opened Errors
  import opened BaseTasks
  import opened Engine

  // ---------------------------------------------------------------------
  // Parallel groups

  /** The names a list of tasks can produce. */
  function Outs(ts: seq<TaskInst>): set<string>
  {
    set k, o | 0 <= k < |ts| && o in ts[k].outputs :: o
  }

  /** A freshly opened group, seeing the macro scope's names. */
  function NewGroup(macroScope: set<string>): Group
  {
    Group([], [], macroScope, {}, [])
  }

  /** The request loop of MicroFlow.append: the requests the group does not
      produce itself, in order, stopping at the first that the macro scope
      lacks; the flag tells whether all were found. */
  function External(micro: set<string>, macro: set<string>, reqs: seq<string>): (r: (seq<string>, bool))
    ensures r.1 <==> forall k :: 0 <= k < |reqs| ==> reqs[k] in micro || reqs[k] in macro
    ensures forall k :: 0 <= k < |r.0| ==> r.0[k] in macro && r.0[k] !in micro
    ensures r.1 ==> forall k :: 0 <= k < |reqs| && reqs[k] !in micro ==> reqs[k] in r.0
  {
    if reqs == [] then ([], true)
    else if reqs[0] in micro then External(micro, macro, reqs[1..])
    else if reqs[0] in macro then
      var e := External(micro, macro, reqs[1..]);
      ([reqs[0]] + e.0, e.1)
    else ([], false)
  }

  /** MicroFlow.append: on success the task joins the group and its outputs
      the group's scope; on an error the requests met before it stay
      recorded. */
  function AppendG(g: Group, t: TaskInst): (Group, Outcome)
  {
    var e := External(g.microScope, g.macroScope, t.inputs);
    if !e.1 then (g.(mapRequests := g.mapRequests + e.0), Fail(Construct(t.name)))
    else (g.(tasks := g.tasks + [t], microScope := g.microScope + (set o | o in t.outputs),
             mapRequests := g.mapRequests + e.0), Pass)
  }

  /** The gathered list with x added unless it is there already. */
  function Gathered(gs: seq<string>, x: string): seq<string>
  {
    if x in gs then gs else gs + [x]
  }

  /** MicroFlow.gather. */
  function GatherG(g: Group, x: string): (Group, Outcome)
  {
    if x !in g.microScope then (g, Fail(Construct("MicroFlow")))
    else (g.(gathered := Gathered(g.gathered, x)), Pass)
  }

  /** What a group keeps true while it is built: it produces exactly its
      tasks' outputs, gathers only those and each at most once, takes only
      names the macro scope has, and every task's request is produced by an
      earlier task of the group or taken from the macro scope. */
  ghost predicate GroupInv(g: Group)
  {
    && g.microScope == Outs(g.tasks)
    && Distinct(g.gathered)
    && (forall k :: 0 <= k < |g.gathered| ==> g.gathered[k] in g.microScope)
    && (forall k :: 0 <= k < |g.mapRequests| ==> g.mapRequests[k] in g.macroScope)
    && (forall k, r :: 0 <= k < |g.tasks| && r in g.tasks[k].inputs ==>
          r in Outs(g.tasks[..k]) || r in g.mapRequests)
  }

  lemma NewGroupInv(macroScope: set<string>)
    ensures GroupInv(NewGroup(macroScope))
  {
  }

  /** append succeeds exactly when every request is produced within the
      group or present in the macro scope; either way it keeps the
      invariant, and only a success adds the task and its outputs. */
  lemma AppendGroup(g: Group, t: TaskInst)
    requires GroupInv(g)
    ensures AppendG(g, t).1.Pass? <==> forall r :: r in t.inputs ==> r in g.microScope || r in g.macroScope
    ensures AppendG(g, t).1.Fail? ==>
      && AppendG(g, t).1 == Fail(Construct(t.name)) && GroupInv(AppendG(g, t).0)
      && AppendG(g, t).0.tasks == g.tasks && AppendG(g, t).0.microScope == g.microScope
    ensures AppendG(g, t).1.Pass? ==>
      && GroupInv(AppendG(g, t).0)
      && AppendG(g, t).0.tasks == g.tasks + [t]
      && AppendG(g, t).0.gathered == g.gathered
      && AppendG(g, t).0.microScope == g.microScope + (set o | o in t.outputs)
  {
    var e := External(g.microScope, g.macroScope, t.inputs);
    if e.1 {
      var g1 := AppendG(g, t).0;
      var ts := g.tasks + [t];
      assert g1.tasks == ts;
      assert Outs(ts) == Outs(g.tasks) + (set o | o in t.outputs) by {
        forall o | o in Outs(ts) ensures o in Outs(g.tasks) + (set o | o in t.outputs) {
          var k :| 0 <= k < |ts| && o in ts[k].outputs;
          if k < |g.tasks| { assert ts[k] == g.tasks[k]; }
        }
        forall o | o in Outs(g.tasks) ensures o in Outs(ts) {
          var k :| 0 <= k < |g.tasks| && o in g.tasks[k].outputs;
          assert ts[k] == g.tasks[k];
        }
        forall o | o in t.outputs ensures o in Outs(ts) {
          assert ts[|g.tasks|] == t;
        }
      }
      forall k, r | 0 <= k < |ts| && r in ts[k].inputs
        ensures r in Outs(ts[..k]) || r in g1.mapRequests
      {
        if k < |g.tasks| {
          assert ts[..k] == g.tasks[..k];
          assert ts[k] == g.tasks[k];
        } else {
          assert ts[..k] == g.tasks;
          assert ts[k] == t;
          if r !in g.microScope {
            assert r in e.0;
          }
        }
      }
    }
  }

  /** gather fails exactly for a name the group cannot produce; it never
      duplicates a gathered name, keeps the invariant, and gathering the
      same name twice is gathering it once. */
  lemma GatherGroup(g: Group, x: string)
    requires GroupInv(g)
    ensures GatherG(g, x).1.Fail? <==> x !in g.microScope
    ensures GroupInv(GatherG(g, x).0)
    ensures GatherG(g, x).0.microScope == g.microScope && GatherG(g, x).0.tasks == g.tasks
    ensures GatherG(g, x).1.Pass? ==> x in GatherG(g, x).0.gathered
    ensures GatherG(GatherG(g, x).0, x) == GatherG(g, x)
  {
  }

  /** In a group built as the flow builds it, the per-item run seeded with
      the record is the code's per-item run as written on every record the
      group's action builds, as long as no task of the group writes an
      item the group requests from the macro scope. */
  lemma GroupAgrees(g: Group, args: seq<Value>, j: nat)
    requires GroupInv(g)
    requires forall k :: 0 <= k < |g.mapRequests| ==> g.mapRequests[k] !in g.microScope
    requires |args| == |g.mapRequests|
    requires Records(g.mapRequests, args).Ok? && j < |Records(g.mapRequests, args).value|
    ensures ItemRunAsWritten(g.tasks, g.gathered, g.mapRequests, Records(g.mapRequests, args).value[j])
         == ItemRun(g.tasks, g.gathered, Records(g.mapRequests, args).value[j])
  {
    RecordKeys(g.mapRequests, args, j);
    forall k, o | 0 <= k < |g.tasks| && o in g.tasks[k].outputs
      ensures o !in g.mapRequests
    {
      assert o in Outs(g.tasks);
    }
    AsWrittenAgrees(g.tasks, g.gathered, g.mapRequests, Records(g.mapRequests, args).value[j]);
  }

  // ---------------------------------------------------------------------
  // Macro flows

  /** A macro flow: its stages, its scope (names only during
      construction), the recorded groups as (stage index, names the group
      can produce), and the group still open, if any. */
  datatype Flow = Flow(stages: seq<Stage>, scope: Scope, micros: seq<(nat, set<string>)>, open: Option<Group>)

  function EmptyFlow(): Flow
  {
    Flow([], map[], [], None)
  }

  /** What a macro flow keeps true: every recorded group is a group stage
      with the recorded names, recorded in stage order, and every group
      stage is recorded; every group keeps its invariant; the open group
      was opened on names the scope still has. */
  ghost predicate FlowInv(f: Flow)
  {
    && MicrosOk(f)
    && (forall p, q :: 0 <= p < q < |f.micros| ==> f.micros[p].0 < f.micros[q].0)
    && (forall k :: 0 <= k < |f.stages| && f.stages[k].Micro? ==> exists p :: 0 <= p < |f.micros| && f.micros[p].0 == k)
    && (forall k :: 0 <= k < |f.stages| && f.stages[k].Micro? ==> GroupInv(f.stages[k].g))
    && (f.open.Some? ==> GroupInv(f.open.value) && f.open.value.macroScope <= f.scope.Keys)
  }

  /** The flows that keep the flow invariant. */
  type ValidFlow = f: Flow | FlowInv(f) witness Flow([], map[], [], None)

  /** The first recorded group that can produce r, or |micros|. */
  function Provider(micros: seq<(nat, set<string>)>, r: string): (p: nat)
    ensures p <= |micros|
    ensures forall q :: 0 <= q < p ==> r !in micros[q].1
    ensures p < |micros| ==> r in micros[p].1
  {
    FindFirst(micros, (m: (nat, set<string>)) => r in m.1)
  }

  /** The request loop of appendSerial: a request some recorded group can
      produce makes the first such group gather it and puts the name in
      the scope; any other must be in the scope already, or `err` is
      raised. */
  function Resolve(f: Flow, reqs: seq<string>, err: Error): (Flow, Outcome)
    decreases |reqs|
  {
    if reqs == [] then (f, Pass)
    else
      var r := reqs[0];
      var p := Provider(f.micros, r);
      if p < |f.micros| then
        var i := f.micros[p].0;
        if i >= |f.stages| || !f.stages[i].Micro? then (f, Fail(Runtime))
        else
          var gg := GatherG(f.stages[i].g, r);
          if gg.1.Fail? then (f, gg.1)
          else Resolve(f.(stages := f.stages[i := Micro(gg.0)], scope := f.scope[r := Nothing]), reqs[1..], err)
      else if r in f.scope then Resolve(f, reqs[1..], err)
      else (f, Fail(err))
  }

  function StageInputs(st: Stage): seq<string>
  {
    match st
    case Step(t) => t.inputs
    case Micro(g) => g.mapRequests
  }

  /** The scope additions of a serial task's outputs. */
  function MarkAll(scope: Scope, names: seq<string>): (r: Scope)
    ensures r.Keys == scope.Keys + (set o | o in names)
    decreases |names|
  {
    if names == [] then scope else MarkAll(scope[names[0] := Nothing], names[1..])
  }

  /** appendSerial after closing any open group: resolve the stage's
      requests, then record a group, or put a task's outputs in the scope,
      and add the stage. A group has no name to report, so a request of
      its that fails is an AttributeError. */
  function AttachF(f: Flow, st: Stage): (Flow, Outcome)
  {
    var err := if st.Step? then Construct(st.t.name) else Runtime;
    var res := Resolve(f, StageInputs(st), err);
    if res.1.Fail? then res else (AddStage(res.0, st), Pass)
  }

  /** The stage added: a group is recorded, a task's outputs enter the
      scope. */
  function AddStage(f: Flow, st: Stage): Flow
  {
    if st.Micro? then f.(micros := f.micros + [(|f.stages|, st.g.microScope)], stages := f.stages + [st])
    else f.(scope := MarkAll(f.scope, st.t.outputs), stages := f.stages + [st])
  }

  /** completeParallel. */
  function CompleteF(f: Flow): (Flow, Outcome)
  {
    if f.open.None? then (f, Pass) else AttachF(f.(open := None), Micro(f.open.value))
  }

  /** appendSerial of a serial task. */
  function AppendSerialF(f: Flow, t: TaskInst): (Flow, Outcome)
  {
    var c := CompleteF(f);
    if c.1.Fail? then c else AttachF(c.0, Step(t))
  }

  /** appendParallel: opens a group on the scope's names if none is open,
      then appends the task to it. */
  function AppendParallelF(f: Flow, t: TaskInst): (Flow, Outcome)
  {
    var g := if f.open.None? then NewGroup(f.scope.Keys) else f.open.value;
    var a := AppendG(g, t);
    (f.(open := Some(a.0)), a.1)
  }

  /** A request nothing can serve: no recorded group produces it and the
      scope lacks it. */
  predicate Unserved(f: Flow, r: string)
  {
    Provider(f.micros, r) == |f.micros| && r !in f.scope
  }

  /** The names of the scope after resolving reqs successfully: the old
      ones and the requests some group serves. */
  function Served(micros: seq<(nat, set<string>)>, reqs: seq<string>): set<string>
  {
    set k | 0 <= k < |reqs| && Provider(micros, reqs[k]) < |micros| :: reqs[k]
  }

  /** Gathering into a recorded group keeps the flow's invariant. */
  lemma GatherStep(f: ValidFlow, p: nat, r: string)
    requires p < |f.micros| && r in f.micros[p].1
    ensures GatherG(f.stages[f.micros[p].0].g, r).1.Pass?
    ensures FlowInv(GatherAt(f, p, r))
  {
    var i := f.micros[p].0;
    GatherGroup(f.stages[i].g, r);
    GatherAtOk(f, p, r);
    var f1 := GatherAt(f, p, r);
    forall k | 0 <= k < |f1.stages| && f1.stages[k].Micro?
      ensures exists q :: 0 <= q < |f1.micros| && f1.micros[q].0 == k
    {
      assert f.stages[k].Micro?;
    }
    forall k | 0 <= k < |f1.stages| && f1.stages[k].Micro? ensures GroupInv(f1.stages[k].g) {
      if k != i { assert f1.stages[k] == f.stages[k]; }
    }
  }

  /** Resolving requests keeps the flow's shape: only group stages change
      (by gathering), and the scope only gains names. */
  lemma {:induction false} ResolveShape(f: Flow, reqs: seq<string>, err: Error)
    ensures var f1 := Resolve(f, reqs, err).0;
      && |f1.stages| == |f.stages| && f1.micros == f.micros && f1.open == f.open
      && (forall k :: 0 <= k < |f.stages| ==> f1.stages[k].Micro? == f.stages[k].Micro?)
      && (forall k :: 0 <= k < |f.stages| && f.stages[k].Step? ==> f1.stages[k] == f.stages[k])
      && (forall k :: 0 <= k < |f.stages| && f.stages[k].Micro? ==>
            f1.stages[k].g.microScope == f.stages[k].g.microScope && f1.stages[k].g.tasks == f.stages[k].g.tasks)
      && f.scope.Keys <= f1.scope.Keys
    decreases |reqs|
  {
    if reqs != [] {
      var r := reqs[0];
      var p := Provider(f.micros, r);
      if p < |f.micros| {
        var i := f.micros[p].0;
        if i < |f.stages| && f.stages[i].Micro? {
          var gg := GatherG(f.stages[i].g, r);
          if gg.1.Pass? {
            var f1 := f.(stages := f.stages[i := Micro(gg.0)], scope := f.scope[r := Nothing]);
            ResolveShape(f1, reqs[1..], err);
          }
        }
      } else if r in f.scope {
        ResolveShape(f, reqs[1..], err);
      }
    }
  }

  /** Resolving requests keeps the flow's invariant. */
  lemma {:induction false} ResolveInv(f: ValidFlow, reqs: seq<string>, err: Error)
    ensures FlowInv(Resolve(f, reqs, err).0)
    decreases |reqs|
  {
    if reqs != [] {
      var r := reqs[0];
      var p := Provider(f.micros, r);
      if p < |f.micros| {
        GatherStep(f, p, r);
        ResolveInv(GatherAt(f, p, r), reqs[1..], err);
      } else if r in f.scope {
        ResolveInv(f, reqs[1..], err);
      }
    }
  }

  /** Every recorded group is a group stage with the recorded names. */
  ghost predicate MicrosOk(f: Flow)
  {
    forall p :: 0 <= p < |f.micros| ==>
      && f.micros[p].0 < |f.stages| && f.stages[f.micros[p].0].Micro?
      && f.micros[p].1 == f.stages[f.micros[p].0].g.microScope
  }

  /** The flow after the p-th recorded group gathers r. */
  function GatherAt(f: Flow, p: nat, r: string): Flow
    requires MicrosOk(f) && p < |f.micros|
  {
    var i := f.micros[p].0;
    f.(stages := f.stages[i := Micro(GatherG(f.stages[i].g, r).0)], scope := f.scope[r := Nothing])
  }

  lemma GatherAtOk(f: Flow, p: nat, r: string)
    requires MicrosOk(f) && p < |f.micros| && r in f.micros[p].1
    ensures GatherG(f.stages[f.micros[p].0].g, r).1.Pass?
    ensures MicrosOk(GatherAt(f, p, r)) && GatherAt(f, p, r).micros == f.micros
  {
    var f1 := GatherAt(f, p, r);
    forall q | 0 <= q < |f1.micros|
      ensures f1.micros[q].0 < |f1.stages| && f1.stages[f1.micros[q].0].Micro?
      ensures f1.micros[q].1 == f1.stages[f1.micros[q].0].g.microScope
    {
      if f.micros[q].0 != f.micros[p].0 {
        assert f1.stages[f1.micros[q].0] == f.stages[f.micros[q].0];
      }
    }
  }

  /** One step of the request loop. */
  lemma ResolveCons(f: Flow, reqs: seq<string>, err: Error)
    requires MicrosOk(f) && reqs != []
    ensures var p := Provider(f.micros, reqs[0]);
      && (p < |f.micros| ==> Resolve(f, reqs, err) == Resolve(GatherAt(f, p, reqs[0]), reqs[1..], err))
      && (p == |f.micros| && reqs[0] in f.scope ==> Resolve(f, reqs, err) == Resolve(f, reqs[1..], err))
      && (p == |f.micros| && reqs[0] !in f.scope ==> Resolve(f, reqs, err) == (f, Fail(err)))
  {
    var p := Provider(f.micros, reqs[0]);
    if p < |f.micros| {
      GatherAtOk(f, p, reqs[0]);
    }
  }

  /** Resolving fails exactly when some request is served by nothing, and
      then fails with the given error. */
  lemma {:induction false} ResolveFails(f: Flow, reqs: seq<string>, err: Error)
    requires MicrosOk(f)
    ensures Resolve(f, reqs, err).1.Fail? <==> exists k :: 0 <= k < |reqs| && Unserved(f, reqs[k])
    ensures Resolve(f, reqs, err).1.Fail? ==> Resolve(f, reqs, err).1.error == err
    decreases |reqs|
  {
    if reqs != [] {
      var r := reqs[0];
      var p := Provider(f.micros, r);
      ResolveCons(f, reqs, err);
      if p < |f.micros| || r in f.scope {
        var f1 := if p < |f.micros| then GatherAt(f, p, r) else f;
        if p < |f.micros| {
          GatherAtOk(f, p, r);
        }
        ResolveFails(f1, reqs[1..], err);
        UnservedAfter(f, f1, reqs, r);
      }
    }
  }

  /** Serving the first request changes nothing about which of the others
      are served by nothing. */
  lemma UnservedAfter(f: Flow, f1: Flow, reqs: seq<string>, r: string)
    requires reqs != [] && r == reqs[0] && !Unserved(f, r)
    requires f1.micros == f.micros && f1.scope.Keys == f.scope.Keys + (if r in f.scope then {} else {r})
    ensures (exists k :: 0 <= k < |reqs[1..]| && Unserved(f1, reqs[1..][k])) <==>
      (exists k :: 0 <= k < |reqs| && Unserved(f, reqs[k]))
  {
    if exists k :: 0 <= k < |reqs| && Unserved(f, reqs[k]) {
      var k :| 0 <= k < |reqs| && Unserved(f, reqs[k]);
      assert reqs[1..][k - 1] == reqs[k];
    }
    if exists k :: 0 <= k < |reqs[1..]| && Unserved(f1, reqs[1..][k]) {
      var k :| 0 <= k < |reqs[1..]| && Unserved(f1, reqs[1..][k]);
      assert reqs[k + 1] == reqs[1..][k];
    }
  }

  /** On success the scope has gained exactly the requests a recorded
      group serves. */
  lemma {:induction false} ResolveKeys(f: Flow, reqs: seq<string>, err: Error)
    requires MicrosOk(f)
    requires Resolve(f, reqs, err).1.Pass?
    ensures Resolve(f, reqs, err).0.scope.Keys == f.scope.Keys + Served(f.micros, reqs)
    decreases |reqs|
  {
    if reqs != [] {
      var r := reqs[0];
      var p := Provider(f.micros, r);
      ResolveCons(f, reqs, err);
      ServedCons(f.micros, reqs);
      if p < |f.micros| {
        GatherAtOk(f, p, r);
        ResolveKeys(GatherAt(f, p, r), reqs[1..], err);
      } else {
        ResolveKeys(f, reqs[1..], err);
      }
    }
  }

  /** On success every request is in the scope, which has gained exactly
      the requests a recorded group serves. */
  lemma ResolveServes(f: Flow, reqs: seq<string>, err: Error)
    requires MicrosOk(f)
    requires Resolve(f, reqs, err).1.Pass?
    ensures forall k :: 0 <= k < |reqs| ==> reqs[k] in Resolve(f, reqs, err).0.scope
    ensures Resolve(f, reqs, err).0.scope.Keys == f.scope.Keys + Served(f.micros, reqs)
  {
    ResolveKeys(f, reqs, err);
    ResolveFails(f, reqs, err);
    forall k | 0 <= k < |reqs| ensures reqs[k] in Resolve(f, reqs, err).0.scope {
      assert !Unserved(f, reqs[k]);
      if Provider(f.micros, reqs[k]) < |f.micros| {
        assert reqs[k] in Served(f.micros, reqs);
      }
    }
  }

  lemma ServedCons(micros: seq<(nat, set<string>)>, reqs: seq<string>)
    requires reqs != []
    ensures Served(micros, reqs) ==
      (if Provider(micros, reqs[0]) < |micros| then {reqs[0]} else {}) + Served(micros, reqs[1..])
  {
    var rest := reqs[1..];
    forall x | x in Served(micros, reqs)
      ensures x in (if Provider(micros, reqs[0]) < |micros| then {reqs[0]} else {}) + Served(micros, rest)
    {
      var k :| 0 <= k < |reqs| && Provider(micros, reqs[k]) < |micros| && reqs[k] == x;
      if k > 0 { assert rest[k - 1] == reqs[k]; }
    }
    forall x | x in Served(micros, rest) ensures x in Served(micros, reqs) {
      var k :| 0 <= k < |rest| && Provider(micros, rest[k]) < |micros| && rest[k] == x;
      assert reqs[k + 1] == x;
    }
  }

  /** Closing a group never fails: everything it takes from the macro scope
      was there when it was opened, and the scope only grows. */
  lemma CompleteNeverFails(f: ValidFlow)
    ensures CompleteF(f).1.Pass?
  {
    if f.open.Some? {
      var g := f.open.value;
      var f0 := f.(open := None);
      ResolveFails(f0, g.mapRequests, Runtime);
      forall k | 0 <= k < |g.mapRequests| ensures !Unserved(f0, g.mapRequests[k]) {
        assert g.mapRequests[k] in g.macroScope;
      }
    }
  }

  /** Adding a stage after resolving its requests keeps the invariant. */
  lemma AttachInv(f: ValidFlow, st: Stage)
    requires f.open.None? && (st.Micro? ==> GroupInv(st.g))
    requires AttachF(f, st).1.Pass?
    ensures FlowInv(AttachF(f, st).0)
  {
    var err := if st.Step? then Construct(st.t.name) else Runtime;
    ResolveInv(f, StageInputs(st), err);
    ResolveShape(f, StageInputs(st), err);
    AddStageInv(Resolve(f, StageInputs(st), err).0, st);
  }

  lemma AddStageInv(f: ValidFlow, st: Stage)
    requires f.open.None? && (st.Micro? ==> GroupInv(st.g))
    ensures FlowInv(AddStage(f, st))
  {
    AddStageMicros(f, st);
    AddStageIndexed(f, st);
    AddStageGroups(f, st);
  }

  /** Every group stage of the extended flow still has its record. */
  lemma AddStageIndexed(f: ValidFlow, st: Stage)
    ensures var f2 := AddStage(f, st);
      forall k :: 0 <= k < |f2.stages| && f2.stages[k].Micro? ==> exists q :: 0 <= q < |f2.micros| && f2.micros[q].0 == k
  {
    var f2 := AddStage(f, st);
    forall k | 0 <= k < |f2.stages| && f2.stages[k].Micro?
      ensures exists q :: 0 <= q < |f2.micros| && f2.micros[q].0 == k
    {
      if k < |f.stages| {
        assert f2.stages[k] == f.stages[k];
        var q :| 0 <= q < |f.micros| && f.micros[q].0 == k;
        assert f2.micros[q] == f.micros[q];
      } else {
        assert f2.micros[|f.micros|].0 == k;
      }
    }
  }

  /** Every group stage of the extended flow keeps the group invariant. */
  lemma AddStageGroups(f: ValidFlow, st: Stage)
    requires st.Micro? ==> GroupInv(st.g)
    ensures var f2 := AddStage(f, st);
      forall k :: 0 <= k < |f2.stages| && f2.stages[k].Micro? ==> GroupInv(f2.stages[k].g)
  {
    var f2 := AddStage(f, st);
    forall k | 0 <= k < |f2.stages| && f2.stages[k].Micro? ensures GroupInv(f2.stages[k].g) {
      if k < |f.stages| { assert f2.stages[k] == f.stages[k]; }
    }
  }

  /** A serial stage added to a flow with no open group keeps the
      invariant whatever the scope. */
  lemma PushStepInv(f: ValidFlow, t: TaskInst)
    requires f.open.None?
    ensures FlowInv(f.(stages := f.stages + [Step(t)]))
  {
    var f2 := f.(stages := f.stages + [Step(t)]);
    assert forall k :: 0 <= k < |f.stages| ==> f2.stages[k] == f.stages[k];
  }

  /** A group opened on the scope's names keeps the invariant. */
  lemma OpenInv(f: ValidFlow)
    requires f.open.None?
    ensures FlowInv(f.(open := Some(NewGroup(f.scope.Keys))))
  {
    NewGroupInv(f.scope.Keys);
  }

  lemma AddStageMicros(f: Flow, st: Stage)
    requires MicrosOk(f) && (forall p, q :: 0 <= p < q < |f.micros| ==> f.micros[p].0 < f.micros[q].0)
    ensures MicrosOk(AddStage(f, st))
    ensures var m := AddStage(f, st).micros; forall p, q :: 0 <= p < q < |m| ==> m[p].0 < m[q].0
  {
    var f2 := AddStage(f, st);
    forall q | 0 <= q < |f2.micros|
      ensures f2.micros[q].0 < |f2.stages| && f2.stages[f2.micros[q].0].Micro?
      ensures f2.micros[q].1 == f2.stages[f2.micros[q].0].g.microScope
    {
      if q < |f.micros| {
        assert f2.micros[q] == f.micros[q];
        assert f2.stages[f.micros[q].0] == f.stages[f.micros[q].0];
      }
    }
  }

  /** completeParallel: under the invariant it closes the open group, if
      any, as one more group stage and keeps the invariant. */
  lemma CompleteSpec(f: ValidFlow)
    ensures var c := CompleteF(f);
      && c.1.Pass? && FlowInv(c.0) && c.0.open.None?
      && |c.0.stages| == |f.stages| + (if f.open.Some? then 1 else 0)
      && (f.open.Some? ==> c.0.stages[|f.stages|] == Micro(f.open.value))
      && (forall k :: 0 <= k < |f.stages| && f.stages[k].Step? ==> c.0.stages[k] == f.stages[k])
      && f.scope.Keys <= c.0.scope.Keys
  {
    CompleteNeverFails(f);
    if f.open.Some? {
      var f0 := f.(open := None);
      AttachInv(f0, Micro(f.open.value));
      ResolveShape(f0, f.open.value.mapRequests, Runtime);
    }
  }

  /** A serial task's stage, on a flow with no open group, fails exactly
      when one of its requests is served by nothing. */
  lemma AttachStepFails(c: Flow, t: TaskInst)
    requires MicrosOk(c)
    ensures AttachF(c, Step(t)).1.Fail? <==> exists k :: 0 <= k < |t.inputs| && Unserved(c, t.inputs[k])
    ensures AttachF(c, Step(t)).1.Fail? ==> AttachF(c, Step(t)).1.error == Construct(t.name)
  {
    ResolveFails(c, t.inputs, Construct(t.name));
  }

  /** On success the task is the new last stage, earlier task stages stay,
      earlier groups keep their tasks, and its requests and outputs are in the scope. */
  lemma AttachStepOk(c: ValidFlow, t: TaskInst)
    requires c.open.None?
    requires AttachF(c, Step(t)).1.Pass?
    ensures var c1 := AttachF(c, Step(t)).0;
      && FlowInv(c1) && c1.open.None?
      && |c1.stages| == |c.stages| + 1
      && c1.stages[|c.stages|] == Step(t)
      && (forall k :: 0 <= k < |c.stages| && c.stages[k].Step? ==> c1.stages[k] == c.stages[k])
      && (forall k :: 0 <= k < |c.stages| && c.stages[k].Micro? ==>
            c1.stages[k].Micro? && c1.stages[k].g.tasks == c.stages[k].g.tasks)
      && (forall r :: r in t.inputs ==> r in c1.scope)
      && (forall o :: o in t.outputs ==> o in c1.scope)
  {
    AttachInv(c, Step(t));
    AttachStepShape(c, t);
    AttachStepScope(c, t);
  }

  lemma AttachStepShape(c: Flow, t: TaskInst)
    requires AttachF(c, Step(t)).1.Pass?
    ensures var c1 := AttachF(c, Step(t)).0;
      && c1.open == c.open
      && |c1.stages| == |c.stages| + 1
      && c1.stages[|c.stages|] == Step(t)
      && (forall k :: 0 <= k < |c.stages| && c.stages[k].Step? ==> c1.stages[k] == c.stages[k])
      && (forall k :: 0 <= k < |c.stages| && c.stages[k].Micro? ==>
            c1.stages[k].Micro? && c1.stages[k].g.tasks == c.stages[k].g.tasks)
  {
    var f1 := Resolve(c, t.inputs, Construct(t.name)).0;
    ResolveShape(c, t.inputs, Construct(t.name));
    assert AttachF(c, Step(t)).0.stages == f1.stages + [Step(t)];
  }

  lemma AttachStepScope(c: Flow, t: TaskInst)
    requires MicrosOk(c)
    requires AttachF(c, Step(t)).1.Pass?
    ensures var c1 := AttachF(c, Step(t)).0;
      && (forall r :: r in t.inputs ==> r in c1.scope)
      && (forall o :: o in t.outputs ==> o in c1.scope)
  {
    var err := Construct(t.name);
    var f1 := Resolve(c, t.inputs, err).0;
    ResolveServes(c, t.inputs, err);
    var c1 := AttachF(c, Step(t)).0;
    assert c1.scope.Keys == f1.scope.Keys + (set o | o in t.outputs);
    forall r | r in t.inputs ensures r in c1.scope {
      var k :| 0 <= k < |t.inputs| && t.inputs[k] == r;
      assert r in f1.scope;
    }
  }

  /** appendSerial: it fails exactly when, after any open group is closed,
      one of the task's requests is served by nothing. On success no group
      is open, the flow has grown by the closed group, if any, and the
      task, the task's requests and outputs are all in the scope, and the
      invariant holds. */
  lemma AppendSerialSpec(f: ValidFlow, t: TaskInst)
    ensures var c := CompleteF(f).0;
      var res := AppendSerialF(f, t);
      && c.open.None?
      && (res.1.Fail? <==> exists k :: 0 <= k < |t.inputs| && Unserved(c, t.inputs[k]))
      && (res.1.Fail? ==> res.1.error == Construct(t.name))
      && (res.1.Pass? ==>
            && FlowInv(res.0)
            && res.0.open.None?
            && |res.0.stages| == |f.stages| + (if f.open.Some? then 2 else 1)
            && res.0.stages[|res.0.stages| - 1] == Step(t)
            && (f.open.Some? ==> res.0.stages[|f.stages|].Micro? && res.0.stages[|f.stages|].g.tasks == f.open.value.tasks)
            && (forall k :: 0 <= k < |f.stages| && f.stages[k].Step? ==> res.0.stages[k] == f.stages[k])
            && (forall r :: r in t.inputs ==> r in res.0.scope)
            && (forall o :: o in t.outputs ==> o in res.0.scope))
  {
    CompleteSpec(f);
    var c := CompleteF(f).0;
    assert AppendSerialF(f, t) == AttachF(c, Step(t));
    AttachStepFails(c, t);
    if AttachF(c, Step(t)).1.Pass? {
      AttachStepOk(c, t);
    }
  }

  /** appendParallel: only the open group changes; it fails exactly when a
      request is neither produced within the group nor in the scope it was
      opened on; only on success has the task joined the group, and the
      invariant holds either way. */
  lemma AppendParallelSpec(f: ValidFlow, t: TaskInst)
    ensures var g := if f.open.None? then NewGroup(f.scope.Keys) else f.open.value;
      var res := AppendParallelF(f, t);
      && res.0.stages == f.stages && res.0.scope == f.scope && res.0.micros == f.micros
      && res.0.open.Some?
      && (res.1.Pass? <==> forall r :: r in t.inputs ==> r in g.microScope || r in g.macroScope)
      && FlowInv(res.0)
      && res.0.open.value.tasks == (if res.1.Pass? then g.tasks + [t] else g.tasks)
  {
    var g := if f.open.None? then NewGroup(f.scope.Keys) else f.open.value;
    NewGroupInv(f.scope.Keys);
    AppendGroup(g, t);
  }
}
