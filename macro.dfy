/** The top-level flow of muFlow (muFlow/assembler.py, class MacroFlow) as
    an object: its task list holds serial tasks and MicroFlow objects, the
    request loop of appendSerial gathers into those objects in place, and
    execute updates the scope step by step. A ghost `model` tracks the
    flow value of module Flow the fields stand for; every method is proved
    to move it as the function of that module says. */
module Macro {
  import opened Errors
  import opened BaseTasks
  import opened Engine
  import opened Flow
  import opened Micro

  /** An entry of the task list: a serial task or a MicroFlow object. */
  datatype Node = StepN(t: TaskInst) | MicroN(m: MicroFlow)

  /** The stage an entry stands for in the current heap. */
  function NodeStage(n: Node): Stage
    reads if n.MicroN? then {n.m} else {}
  {
    match n
    case StepN(t) => Step(t)
    case MicroN(m) => Micro(m.Abs())
  }

  /** Unpacking only adds names to a scope. */
  lemma {:induction false} ZipKeys(scope: Scope, keys: seq<string>, vals: seq<Value>)
    ensures scope.Keys <= ZipInto(scope, keys, vals).Keys
    decreases |keys|
  {
    if keys != [] && vals != [] {
      ZipKeys(scope[keys[0] := vals[0]], keys[1..], vals[1..]);
    }
  }

  /** Executing stages only adds names to the scope. */
  lemma {:induction false} RunKeys(stages: seq<Stage>, scope: Scope)
    ensures scope.Keys <= Run(stages, scope).scope.Keys
    decreases |stages|
  {
    if stages != [] {
      var r := StageRun(scope, stages[0]);
      if r.Ok? {
        var st := stages[0];
        var outs := if st.Step? then st.t.outputs else st.g.gathered;
        if |outs| > 1 {
          var res := if st.Step? then st.t.act(st.t.attrs, Lookups(scope, st.t.inputs).value)
            else ActionSpec(st.g, Lookups(scope, st.g.mapRequests).value).value;
          ZipKeys(scope, outs, Elements(res).value);
        }
        RunKeys(stages[1..], r.value);
      }
    }
  }

  /** The flow invariant does not depend on the values in the scope, and
      needs only that it still has the names an open group was opened on. */
  lemma ScopeGrows(f: ValidFlow, s: Scope)
    requires f.scope.Keys <= s.Keys
    ensures FlowInv(f.(scope := s))
  {
  }

  /** The objects: every MicroFlow of the task list and the open one are
      distinct members of Repr. */
  ghost predicate Owned(tasks: seq<Node>, parallel: MicroFlow?, Repr: set<MicroFlow>)
  {
    && (forall k :: 0 <= k < |tasks| && tasks[k].MicroN? ==> tasks[k].m in Repr)
    && (parallel != null ==> parallel in Repr)
    && (forall k, l :: 0 <= k < l < |tasks| && tasks[k].MicroN? && tasks[l].MicroN? ==> tasks[k].m != tasks[l].m)
    && (forall k :: 0 <= k < |tasks| && tasks[k].MicroN? ==> tasks[k].m != parallel)
  }

  /** A serial entry holds no object. */
  lemma OwnedStep(tasks: seq<Node>, parallel: MicroFlow?, Repr: set<MicroFlow>, t: TaskInst)
    requires Owned(tasks, parallel, Repr)
    ensures Owned(tasks + [StepN(t)], parallel, Repr)
  {
    assert forall k :: 0 <= k < |tasks| ==> (tasks + [StepN(t)])[k] == tasks[k];
  }

  class MacroFlow {
    var tasks: seq<Node>
    var scope: Scope
    var micros: seq<(nat, set<string>)>
    var parallel: MicroFlow?
    /** The flow the fields stand for, which keeps the flow invariant. */
    ghost var model: ValidFlow
    /** The MicroFlow objects the flow holds. */
    ghost var Repr: set<MicroFlow>

    /** The fields stand for `model`. */
    ghost predicate Valid()
      reads this, Repr
    {
      && Owned(tasks, parallel, Repr)
      && |tasks| == |model.stages|
      && (forall k :: 0 <= k < |tasks| ==> NodeStage(tasks[k]) == model.stages[k])
      && scope == model.scope && micros == model.micros
      && model.open == (if parallel == null then None else Some(parallel.Abs()))
    }

    constructor ()
      ensures Valid() && model == EmptyFlow() && Repr == {}
    {
      tasks, scope, micros, parallel := [], map[], [], null;
      model := EmptyFlow();
      Repr := {};
    }

    /** The first recorded group that can produce r, or |micros|. */
    method FindProvider(r: string) returns (p: nat)
      ensures p == Provider(micros, r)
    {
      p := 0;
      while p < |micros| && r !in micros[p].1
        invariant p <= |micros|
        invariant forall q :: 0 <= q < p ==> r !in micros[q].1
      {
        p := p + 1;
      }
    }

    /** appendSerial of an entry with no group open: the request loop, then
        the group is recorded or the task's outputs enter the scope, then
        the entry joins the task list. */
    method Attach(n: Node) returns (o: Outcome)
      requires Valid() && parallel == null
      requires n.MicroN? ==>
        && n.m in Repr && GroupInv(n.m.Abs())
        && forall k :: 0 <= k < |tasks| && tasks[k].MicroN? ==> tasks[k].m != n.m
      modifies this, Repr
      ensures Valid() && Repr == old(Repr) && parallel == null
      ensures (model, o) == AttachF(old(model), old(NodeStage(n)))
    {
      ghost var st := NodeStage(n);
      var err := if n.StepN? then Construct(n.t.name) else Runtime;
      var reqs := if n.StepN? then n.t.inputs else n.m.mapRequests;
      assert reqs == StageInputs(st);
      o := Requests(reqs, err, n);
      if o.Fail? {
        return;
      }
      if n.StepN? {
        AppendStep(n.t);
      } else {
        AppendMicro(n.m);
      }
    }

    /** A serial task joins the flow once its requests are served: its
        outputs enter the scope and it joins the task list. */
    method AppendStep(t: TaskInst)
      requires Valid() && parallel == null
      modifies this
      ensures Valid() && Repr == old(Repr) && parallel == null
      ensures model == AddStage(old(model), Step(t))
    {
      MarkScope(t.outputs);
      PushStep(t);
    }

    /** The outputs of a serial task enter the scope; the flow's stages
        are not touched yet. */
    method MarkScope(outs: seq<string>)
      requires Valid() && parallel == null
      modifies this
      ensures Valid() && Repr == old(Repr) && parallel == null
      ensures model == old(model).(scope := MarkAll(old(model).scope, outs))
    {
      MarkOutputs(outs);
      ScopeGrows(model, scope);
      model := model.(scope := scope);
    }

    /** The serial task, its outputs already in the scope, joins the task
        list. */
    method PushStep(t: TaskInst)
      requires Valid() && parallel == null
      modifies this
      ensures Valid() && Repr == old(Repr) && parallel == null
      ensures model == old(model).(stages := old(model).stages + [Step(t)])
    {
      PushStepInv(model, t);
      OwnedStep(tasks, parallel, Repr, t);
      tasks := tasks + [StepN(t)];
      model := model.(stages := model.stages + [Step(t)]);
      assert forall k :: 0 <= k < |old(tasks)| ==> tasks[k] == old(tasks)[k];
    }

    /** A group joins the flow once its requests are served: it is
        recorded with the names it can produce. */
    method AppendMicro(m: MicroFlow)
      requires Valid() && parallel == null
      requires m in Repr && GroupInv(m.Abs())
      requires forall k :: 0 <= k < |tasks| && tasks[k].MicroN? ==> tasks[k].m != m
      modifies this
      ensures Valid() && Repr == old(Repr) && parallel == null
      ensures model == AddStage(old(model), Micro(m.Abs()))
    {
      AddStageInv(model, Micro(m.Abs()));
      micros := micros + [(|tasks|, m.microScope)];
      tasks := tasks + [MicroN(m)];
      model := AddStage(model, Micro(m.Abs()));
      assert forall k :: 0 <= k < |old(tasks)| ==> tasks[k] == old(tasks)[k];
    }

    /** The output loop of appendSerial for a serial task. */
    method MarkOutputs(outs: seq<string>)
      modifies this`scope
      ensures scope == MarkAll(old(scope), outs)
    {
      var j := 0;
      while j < |outs|
        invariant 0 <= j <= |outs|
        invariant MarkAll(scope, outs[j..]) == MarkAll(old(scope), outs)
      {
        assert outs[j..][1..] == outs[j + 1..];
        scope := scope[outs[j] := Nothing];
        j := j + 1;
      }
      assert outs[j..] == [];
    }

    /** The request loop of appendSerial; `keep`, the entry being added, is
        not touched. */
    method Requests(reqs: seq<string>, err: Error, ghost keep: Node) returns (o: Outcome)
      requires Valid() && parallel == null
      requires keep.MicroN? ==> keep.m in Repr && forall k :: 0 <= k < |tasks| && tasks[k].MicroN? ==> tasks[k].m != keep.m
      modifies this, Repr
      ensures Valid() && Repr == old(Repr) && parallel == null && tasks == old(tasks)
      ensures (model, o) == Resolve(old(model), reqs, err)
      ensures keep.MicroN? ==> keep.m.Abs() == old(keep.m.Abs())
    {
      var rest := reqs;
      while rest != []
        invariant Valid() && Repr == old(Repr) && parallel == null && tasks == old(tasks)
        invariant keep.MicroN? ==> keep.m.Abs() == old(keep.m.Abs())
        invariant Resolve(model, rest, err) == Resolve(old(model), reqs, err)
        decreases |rest|
      {
        o := Request(rest, err, keep);
        if o.Fail? {
          return;
        }
        rest := rest[1..];
      }
      o := Pass;
    }

    /** The first request of reqs: served by the first group that can
        produce it, found in the scope, or the error. */
    method Request(reqs: seq<string>, err: Error, ghost keep: Node) returns (o: Outcome)
      requires Valid() && parallel == null && reqs != []
      requires keep.MicroN? ==> keep.m in Repr && forall k :: 0 <= k < |tasks| && tasks[k].MicroN? ==> tasks[k].m != keep.m
      modifies this, Repr
      ensures Valid() && Repr == old(Repr) && parallel == null && tasks == old(tasks)
      ensures o.Fail? ==> (model, o) == Resolve(old(model), reqs, err)
      ensures o.Pass? ==> Resolve(model, reqs[1..], err) == Resolve(old(model), reqs, err)
      ensures keep.MicroN? ==> keep.m.Abs() == old(keep.m.Abs())
    {
      var r := reqs[0];
      var p := FindProvider(r);
      ResolveCons(model, reqs, err);
      if p < |micros| {
        GatherOne(p, r);
      } else if r !in scope {
        return Fail(err);
      }
      o := Pass;
    }

    /** One served request of the request loop: the p-th recorded group
        gathers r and r enters the scope. */
    method GatherOne(p: nat, r: string)
      requires Valid() && parallel == null && p == Provider(micros, r) && p < |micros|
      modifies this, Repr
      ensures Valid() && Repr == old(Repr) && parallel == null && tasks == old(tasks)
      ensures model == GatherAt(old(model), p, r)
      ensures forall x :: x in Repr && x != tasks[micros[p].0].m ==> x.Abs() == old(x.Abs())
    {
      GatherStep(model, p, r);
      var i := micros[p].0;
      var m := tasks[i].m;
      var _ := m.Gather(r);
      scope := scope[r := Nothing];
      model := GatherAt(model, p, r);
      forall k | 0 <= k < |tasks| && k != i ensures NodeStage(tasks[k]) == model.stages[k] {
        if tasks[k].MicroN? {
          assert tasks[k].m != m;
        }
      }
    }

    /** appendSerial of a serial task: any open group is completed first. */
    method AppendSerial(t: TaskInst) returns (o: Outcome)
      requires Valid()
      modifies this, Repr
      ensures Valid() && Repr == old(Repr)
      ensures (model, o) == AppendSerialF(old(model), t)
    {
      o := CompleteParallel();
      if o.Fail? {
        return;
      }
      o := Attach(StepN(t));
    }

    /** appendParallel: a group is opened on the scope's names if none is
        open, and the task is appended to it. */
    method AppendParallel(t: TaskInst) returns (o: Outcome)
      requires Valid()
      modifies this, Repr
      ensures Valid() && fresh(Repr - old(Repr))
      ensures (model, o) == AppendParallelF(old(model), t)
    {
      OpenGroup();
      o := AppendOpen(t);
    }

    /** A group on the scope's names is opened if none is open. */
    method OpenGroup()
      requires Valid()
      modifies this
      ensures Valid() && fresh(Repr - old(Repr)) && parallel != null
      ensures model == old(model).(open := Some(if old(model).open.None? then NewGroup(old(model).scope.Keys) else old(model).open.value))
    {
      if parallel == null {
        OpenInv(model);
        parallel := new MicroFlow(scope.Keys);
        Repr := Repr + {parallel};
        model := model.(open := Some(NewGroup(scope.Keys)));
        assert forall k :: 0 <= k < |tasks| && tasks[k].MicroN? ==> tasks[k].m != parallel;
      }
    }

    /** The task is appended to the open group. */
    method AppendOpen(t: TaskInst) returns (o: Outcome)
      requires Valid() && parallel != null
      modifies this, parallel
      ensures Valid() && Repr == old(Repr)
      ensures (model, o) == AppendParallelF(old(model), t)
    {
      AppendParallelSpec(model, t);
      o := parallel.Append(t);
      model := AppendParallelF(old(model), t).0;
      forall k | 0 <= k < |tasks| ensures NodeStage(tasks[k]) == model.stages[k] {
        if tasks[k].MicroN? {
          assert tasks[k].m != parallel;
        }
      }
    }

    /** completeParallel: the open group, if any, is closed and appended
        almost as a serial task. */
    method CompleteParallel() returns (o: Outcome)
      requires Valid()
      modifies this, Repr
      ensures Valid() && Repr == old(Repr) && parallel == null
      ensures (model, o) == CompleteF(old(model))
    {
      if parallel == null {
        return Pass;
      }
      var m := parallel;
      parallel := null;
      model := model.(open := None);
      o := Attach(MicroN(m));
    }

    /** execute: every entry, in order, reads its inputs from the scope,
        runs its action and has the result unpacked into the scope. It
        stops at the first error, leaving the scope as far as it got. */
    method Execute() returns (o: Outcome)
      requires Valid()
      modifies this`scope, this`model
      ensures Valid()
      ensures ExecState(o, scope) == Run(old(model).stages, old(scope))
      ensures model == old(model).(scope := scope)
    {
      var s;
      o, s := RunAll(scope);
      assert FlowInv(model.(scope := s)) by {
        RunKeys(model.stages, scope);
        ScopeGrows(model, s);
      }
      scope := s;
      model := model.(scope := s);
    }

    /** The stage loop of execute from scope s0, giving the scope it
        leaves. */
    method RunAll(s0: Scope) returns (o: Outcome, s: Scope)
      requires Valid()
      ensures ExecState(o, s) == Run(model.stages, s0)
    {
      ghost var stages := model.stages;
      s := s0;
      var k := 0;
      while k < |tasks|
        invariant 0 <= k <= |tasks|
        invariant Run(stages[k..], s) == Run(stages, s0)
      {
        assert stages[k..][0] == stages[k] && stages[k..][1..] == stages[k + 1..];
        var r := RunNode(tasks[k], s);
        if r.Err? {
          return Fail(r.error), s;
        }
        s := r.value;
        k := k + 1;
      }
      assert stages[k..] == [];
      o := Pass;
    }

    /** One entry of execute against scope s. */
    method RunNode(n: Node, scope: Scope) returns (r: Result<Scope>)
      ensures r == StageRun(scope, NodeStage(n))
    {
      var res: Value;
      var outs: seq<string>;
      match n {
        case StepN(t) =>
          var ins := Lookups(scope, t.inputs);
          if ins.Err? {
            return Err(ins.error);
          }
          res := t.act(t.attrs, ins.value);
          outs := t.outputs;
        case MicroN(m) =>
          var ins := Lookups(scope, m.mapRequests);
          if ins.Err? {
            return Err(ins.error);
          }
          var a := m.Action(ins.value);
          if a.Err? {
            return Err(a.error);
          }
          res := a.value;
          outs := m.gathered;
      }
      r := Store(res, outs, scope);
    }
  }
}
