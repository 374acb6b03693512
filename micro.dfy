/** The parallel sub-flow of muFlow (muFlow/assembler.py, class
    MicroFlow) as an object: its construction-time fields updated in place
    by append and gather, and the per-worker loop and the partition and
    merge of its action, each proved against the functions of Flow and
    Engine that specify them. */
module Micro {
  import opened Errors
  import opened BaseTasks
  import opened Engine
  import opened Flow

  /** Packing a result into a scope, the shared tail of execute and
      sequence: the zip loop over several outputs, the single assignment
      for one. */
  method Store(results: Value, outputs: seq<string>, scope: Scope) returns (r: Result<Scope>)
    ensures r == Unpack(results, outputs, scope)
  {
    if |outputs| > 1 {
      var elems := Elements(results);
      if elems.None? {
        return Err(Runtime);
      }
      var xs := elems.value;
      var s := scope;
      var i := 0;
      while i < |outputs| && i < |xs|
        invariant 0 <= i <= |outputs| && i <= |xs|
        invariant ZipInto(s, outputs[i..], xs[i..]) == ZipInto(scope, outputs, xs)
      {
        assert outputs[i..][1..] == outputs[i + 1..];
        assert xs[i..][1..] == xs[i + 1..];
        s := s[outputs[i] := xs[i]];
        i := i + 1;
      }
      r := Ok(s);
    } else if |outputs| == 1 {
      r := Ok(scope[outputs[0] := results]);
    } else {
      r := Ok(scope);
    }
  }

  /** A failure in one of the slices is the failure of every later prefix
      of the worker list, unchanged. */
  function Prepend(outs: seq<seq<seq<Value>>>, rest: Result<seq<seq<seq<Value>>>>): Result<seq<seq<seq<Value>>>>
  {
    match rest
    case Err(e) => Err(e)
    case Ok(more) => Ok(outs + more)
  }

  /** Merging one more worker's columns appends them to each merged column. */
  lemma {:induction false} MergeSnoc(outs: seq<seq<seq<Value>>>, o: seq<seq<Value>>, m: nat, k: nat)
    requires forall w :: 0 <= w < |outs| ==> |outs[w]| == m
    requires |o| == m && k < m
    ensures Merge(outs + [o], m)[k] == Merge(outs, m)[k] + o[k]
    decreases |outs|
  {
    if outs == [] {
      assert [o][1..] == [];
    } else {
      assert (outs + [o])[1..] == outs[1..] + [o];
      MergeSnoc(outs[1..], o, m, k);
    }
  }

  /** A MicroFlow: its tasks, the names it gathers, the names of the macro
      scope it was opened on, the names its tasks can produce and the names
      it takes from the macro scope. */
  class MicroFlow {
    var tasks: seq<TaskInst>
    var gathered: seq<string>
    const macroScope: set<string>
    var microScope: set<string>
    var mapRequests: seq<string>

    /** The group these fields stand for. */
    function Abs(): Group
      reads this
    {
      Group(tasks, gathered, macroScope, microScope, mapRequests)
    }

    constructor (macroScope: set<string>)
      ensures Abs() == NewGroup(macroScope)
    {
      tasks, gathered := [], [];
      this.macroScope := macroScope;
      microScope, mapRequests := {}, [];
    }

    /** append: the request loop, then the outputs, then the task. */
    method Append(t: TaskInst) returns (o: Outcome)
      modifies this
      ensures (Abs(), o) == AppendG(old(Abs()), t)
    {
      var found := TakeRequests(t.inputs);
      if !found {
        return Fail(Construct(t.name));
      }
      AddOutputs(t.outputs);
      tasks := tasks + [t];
      o := Pass;
    }

    /** The request loop of append: the requests the group does not
        produce are taken from the macro scope, up to the first it lacks. */
    method TakeRequests(reqs: seq<string>) returns (found: bool)
      modifies this`mapRequests
      ensures var e := External(microScope, macroScope, reqs);
        mapRequests == old(mapRequests) + e.0 && found == e.1
    {
      ghost var e := External(microScope, macroScope, reqs);
      var i := 0;
      while i < |reqs|
        invariant 0 <= i <= |reqs|
        invariant External(microScope, macroScope, reqs[i..]).1 == e.1
        invariant mapRequests + External(microScope, macroScope, reqs[i..]).0 == old(mapRequests) + e.0
      {
        assert reqs[i..][0] == reqs[i] && reqs[i..][1..] == reqs[i + 1..];
        var r := reqs[i];
        if r !in microScope {
          if r in macroScope {
            mapRequests := mapRequests + [r];
          } else {
            assert External(microScope, macroScope, reqs[i..]) == ([], false);
            assert mapRequests + [] == mapRequests;
            return false;
          }
        }
        i := i + 1;
      }
      assert reqs[i..] == [];
      assert mapRequests + [] == mapRequests;
      found := true;
    }

    /** The output loop of append. */
    method AddOutputs(outs: seq<string>)
      modifies this`microScope
      ensures microScope == old(microScope) + (set x | x in outs)
    {
      var j := 0;
      while j < |outs|
        invariant 0 <= j <= |outs|
        invariant microScope == old(microScope) + (set x | x in outs[..j])
      {
        assert outs[..j + 1] == outs[..j] + [outs[j]];
        microScope := microScope + {outs[j]};
        j := j + 1;
      }
      assert outs[..j] == outs;
    }

    /** gather. */
    method Gather(x: string) returns (o: Outcome)
      modifies this`gathered
      ensures (Abs(), o) == GatherG(old(Abs()), x)
    {
      if x !in microScope {
        return Fail(Construct("MicroFlow"));
      }
      if x !in gathered {
        gathered := gathered + [x];
      }
      o := Pass;
    }

    /** One item of sequence: the task loop over the item's private scope,
        seeded with its record. */
    method RunItem(rec: Scope) returns (r: Result<Scope>)
      ensures r == SerialChain(tasks, rec)
    {
      var scope := rec;
      var k := 0;
      while k < |tasks|
        invariant 0 <= k <= |tasks|
        invariant SerialChain(tasks[k..], scope) == SerialChain(tasks, rec)
      {
        assert tasks[k..][0] == tasks[k] && tasks[k..][1..] == tasks[k + 1..];
        var t := tasks[k];
        var ins := Lookups(scope, t.inputs);
        if ins.Err? {
          return Err(ins.error);
        }
        var results := t.act(t.attrs, ins.value);
        var s := Store(results, t.outputs, scope);
        if s.Err? {
          return Err(s.error);
        }
        scope := s.value;
        k := k + 1;
      }
      assert tasks[k..] == [];
      r := Ok(scope);
    }

    /** sequence on one worker's slice of records: every item is run and
        each gathered name's value is appended to its column. */
    method Sequence(batch: seq<Scope>) returns (r: Result<seq<seq<Value>>>)
      ensures r == Collected(tasks, gathered, batch)
    {
      var cols: seq<seq<Value>> := seq(|gathered|, k => []);
      var j := 0;
      while j < |batch|
        invariant 0 <= j <= |batch|
        invariant Collected(tasks, gathered, batch[..j]) == Ok(cols)
      {
        var s := RunItem(batch[j]);
        CollectedStep(tasks, gathered, batch, j);
        if s.Err? {
          return Err(Runtime);
        }
        var c := AppendItem(cols, gathered, s.value);
        if c.Err? {
          return Err(Runtime);
        }
        cols := c.value;
        j := j + 1;
      }
      assert batch[..j] == batch;
      r := Ok(cols);
    }

    /** action on the values of the requested items: one record per
        position, four slices run by sequence, the columns merged in worker
        order and shaped by the number of gathered names. */
    method Action(args: seq<Value>) returns (r: Result<Value>)
      ensures r == ActionSpec(Abs(), args)
    {
      var recs := Records(mapRequests, args);
      if recs.Err? {
        return Err(recs.error);
      }
      var outs := Workers(recs.value);
      if outs.Err? {
        return Err(outs.error);
      }
      var merged := MergeColumns(outs.value, |gathered|);
      r := Ok(Shape(gathered, merged));
    }

    /** The four workers, each running sequence on its slice. */
    method Workers(recs: seq<Scope>) returns (r: Result<seq<seq<seq<Value>>>>)
      ensures r == WorkerOuts(tasks, gathered, recs, 0)
    {
      var outs: seq<seq<seq<Value>>> := [];
      PrependNone(WorkerOuts(tasks, gathered, recs, 0));
      var w := 0;
      while w < 4
        invariant 0 <= w <= 4
        invariant Prepend(outs, WorkerOuts(tasks, gathered, recs, w)) == WorkerOuts(tasks, gathered, recs, 0)
      {
        var c := Sequence(Batch(recs, w));
        PrependStep(tasks, gathered, recs, w, outs);
        if c.Err? {
          return Err(c.error);
        }
        outs := outs + [c.value];
        w := w + 1;
      }
      assert outs + [] == outs;
      r := Ok(outs);
    }
  }

  lemma PrependNone(rest: Result<seq<seq<seq<Value>>>>)
    ensures Prepend([], rest) == rest
  {
    if rest.Ok? {
      assert [] + rest.value == rest.value;
    }
  }

  /** One more worker: its collection joins the prefix, or its error is
      the result. */
  lemma PrependStep(ts: seq<TaskInst>, gathered: seq<string>, recs: seq<Scope>, w: nat, outs: seq<seq<seq<Value>>>)
    requires w < 4
    ensures match Collected(ts, gathered, Batch(recs, w))
      case Err(e) => Prepend(outs, WorkerOuts(ts, gathered, recs, w)) == Err(e)
      case Ok(c) => Prepend(outs, WorkerOuts(ts, gathered, recs, w)) == Prepend(outs + [c], WorkerOuts(ts, gathered, recs, w + 1))
  {
    var rest := WorkerOuts(ts, gathered, recs, w + 1);
    if Collected(ts, gathered, Batch(recs, w)).Ok? && rest.Ok? {
      var c := Collected(ts, gathered, Batch(recs, w)).value;
      assert outs + ([c] + rest.value) == (outs + [c]) + rest.value;
    }
  }

  /** The inner loop of sequence for one item: each gathered name's value
      in the item's scope appended to its column; a missing one is a
      KeyError. */
  method AppendItem(cols: seq<seq<Value>>, gathered: seq<string>, scope: Scope) returns (r: Result<seq<seq<Value>>>)
    requires |cols| == |gathered|
    ensures r == match Lookups(scope, gathered)
      case Err(e) => Err(e)
      case Ok(vals) => Ok(seq(|gathered|, k requires 0 <= k < |gathered| => cols[k] + [vals[k]]))
  {
    var next := cols;
    var k := 0;
    while k < |gathered|
      invariant 0 <= k <= |gathered| && |next| == |cols|
      invariant forall l :: 0 <= l < k ==> gathered[l] in scope && next[l] == cols[l] + [scope[gathered[l]]]
      invariant forall l :: k <= l < |gathered| ==> next[l] == cols[l]
    {
      if gathered[k] !in scope {
        return Err(Runtime);
      }
      next := next[k := next[k] + [scope[gathered[k]]]];
      k := k + 1;
    }
    var vals := Lookups(scope, gathered).value;
    assert next == seq(|gathered|, k requires 0 <= k < |gathered| => cols[k] + [vals[k]]);
    r := Ok(next);
  }

  /** One more record of a worker's slice: its collection so far extended
      by the record's item run, or the run's error, which is a Python
      error and ends the whole slice. */
  lemma CollectedStep(ts: seq<TaskInst>, gathered: seq<string>, batch: seq<Scope>, j: nat)
    requires j < |batch|
    requires Collected(ts, gathered, batch[..j]).Ok?
    ensures var cols := Collected(ts, gathered, batch[..j]).value;
      var c := match ItemRun(ts, gathered, batch[j])
        case Err(e) => Err(e)
        case Ok(vals) => Ok(seq(|gathered|, k requires 0 <= k < |gathered| => cols[k] + [vals[k]]));
      && (c.Ok? ==> Collected(ts, gathered, batch[..j + 1]) == c)
      && (c.Err? ==> Collected(ts, gathered, batch) == Err(Runtime))
  {
    assert batch[..j + 1][..j] == batch[..j] && batch[..j + 1][j] == batch[j];
    if ItemRun(ts, gathered, batch[j]).Err? {
      CollectedItems(ts, gathered, batch);
      ItemErrors(ts, gathered, batch);
    }
  }

  /** The merge of action: for each gathered position, the workers'
      columns concatenated in worker order. */
  method MergeColumns(outs: seq<seq<seq<Value>>>, m: nat) returns (merged: seq<seq<Value>>)
    requires forall w :: 0 <= w < |outs| ==> |outs[w]| == m
    ensures merged == Merge(outs, m)
  {
    merged := [];
    var k := 0;
    while k < m
      invariant 0 <= k <= m && |merged| == k
      invariant forall l :: 0 <= l < k ==> merged[l] == Merge(outs, m)[l]
    {
      var col: seq<Value> := [];
      var v := 0;
      while v < |outs|
        invariant 0 <= v <= |outs|
        invariant col == Merge(outs[..v], m)[k]
      {
        assert outs[..v + 1] == outs[..v] + [outs[v]];
        MergeSnoc(outs[..v], outs[v], m, k);
        col := col + outs[v][k];
        v := v + 1;
      }
      assert outs[..v] == outs;
      merged := merged + [col];
      k := k + 1;
    }
  }
}
