/** The deterministic part of muFlow's execution engine
    (muFlow/assembler.py, MacroFlow.execute, MicroFlow.action and
    MicroFlow.sequence): scope lookups, positional unpacking of results, the
    per-item run of a parallel group, the four-way partition of the items
    and the merge of the workers' collections. The worker processes are
    modelled as a sequential computation over the slices. */
module Engine {
  import opened Errors
  import opened BaseTasks

  /** A constructed task as a flow holds it: its effective IO lists, its
      decoded parameters and its action. */
  datatype TaskInst = TaskInst(name: string, inputs: seq<string>, outputs: seq<string>,
                               attrs: map<string, Value>, act: ActionFn)

  /** A parallel group as it stands: its tasks in order, the names it is to
      gather, the macro-scope names it could see when it was opened, the
      names its tasks can produce and the names it takes from the macro
      scope (in request order, duplicates kept). */
  datatype Group = Group(tasks: seq<TaskInst>, gathered: seq<string>, macroScope: set<string>,
                         microScope: set<string>, mapRequests: seq<string>)

  /** A step of a macro flow: a serial task or a closed parallel group. */
  datatype Stage = Step(t: TaskInst) | Micro(g: Group)

  /** A scope maps item names to values; Python's None placeholder of the
      construction phase is `Nothing`. */
  type Scope = map<string, Value>

  /** The values of the named items, in order; a missing name is a KeyError. */
  function Lookups(scope: Scope, names: seq<string>): (r: Result<seq<Value>>)
    ensures r.Ok? <==> forall k :: 0 <= k < |names| ==> names[k] in scope
    ensures r.Ok? ==> |r.value| == |names| && forall k :: 0 <= k < |names| ==> r.value[k] == scope[names[k]]
    ensures r.Err? ==> r.error == Runtime
  {
    if names == [] then Ok([])
    else if names[0] !in scope then Err(Runtime)
    else match Lookups(scope, names[1..])
      case Err(e) => Err(e)
      case Ok(vs) => Ok([scope[names[0]]] + vs)
  }

  /** The assignments `for result, key in zip(results, keys)`: one per
      position of the shorter list, later ones winning. */
  function ZipInto(scope: Scope, keys: seq<string>, vals: seq<Value>): Scope
    decreases |keys|
  {
    if keys == [] || vals == [] then scope else ZipInto(scope[keys[0] := vals[0]], keys[1..], vals[1..])
  }

  /** What iterating over a value yields: a list's items, or a string's
      one-character strings; other values are not iterable. */
  function Elements(v: Value): Option<seq<Value>>
  {
    match v
    case List(items) => Some(items)
    case Str(t) => Some(seq(|t|, i requires 0 <= i < |t| => Str([t[i]])))
    case _ => None
  }

  /** Packing a task's result into a scope by its output names: the
      result's elements are unpacked positionally over several outputs, a
      single output receives the result as it is, and no outputs write
      nothing. Unpacking a value that is not iterable over several outputs
      is a TypeError. */
  function Unpack(results: Value, outputs: seq<string>, scope: Scope): Result<Scope>
  {
    if |outputs| > 1 then
      match Elements(results)
      case None => Err(Runtime)
      case Some(xs) => Ok(ZipInto(scope, outputs, xs))
    else if |outputs| == 1 then Ok(scope[outputs[0] := results])
    else Ok(scope)
  }

  predicate Distinct(names: seq<string>)
  {
    forall k, l :: 0 <= k < l < |names| ==> names[k] != names[l]
  }

  function Min(a: nat, b: nat): nat { if a < b then a else b }

  /** With distinct keys, zip assigns the k-th value to the k-th key for
      every position both lists have. */
  lemma {:induction false} ZipHit(scope: Scope, keys: seq<string>, vals: seq<Value>, k: nat)
    requires Distinct(keys) && k < |keys| && k < |vals|
    ensures keys[k] in ZipInto(scope, keys, vals) && ZipInto(scope, keys, vals)[keys[k]] == vals[k]
    decreases |keys|
  {
    var s1 := scope[keys[0] := vals[0]];
    if k == 0 {
      ZipMiss(s1, keys[1..], vals[1..], keys[0]);
    } else {
      ZipHit(s1, keys[1..], vals[1..], k - 1);
    }
  }

  /** A name that is none of the keys zip reaches keeps its presence and
      value; in particular the keys past the end of the values are not
      written. */
  lemma {:induction false} ZipMiss(scope: Scope, keys: seq<string>, vals: seq<Value>, x: string)
    requires x !in keys[..Min(|keys|, |vals|)]
    ensures x in ZipInto(scope, keys, vals) <==> x in scope
    ensures x in scope ==> ZipInto(scope, keys, vals)[x] == scope[x]
    decreases |keys|
  {
    if keys != [] && vals != [] {
      assert keys[..Min(|keys|, |vals|)][0] == keys[0];
      assert keys[1..][..Min(|keys| - 1, |vals| - 1)] == keys[..Min(|keys|, |vals|)][1..];
      ZipMiss(scope[keys[0] := vals[0]], keys[1..], vals[1..], x);
    }
  }

  /** Unpacking a result over distinct output names writes exactly the
      output names, by position; a list too short for the outputs leaves the
      trailing ones unwritten. */
  lemma UnpackPositional(results: Value, outputs: seq<string>, scope: Scope)
    requires Distinct(outputs) && (|outputs| > 1 ==> Elements(results).Some?)
    ensures Unpack(results, outputs, scope).Ok?
    ensures |outputs| == 1 ==> Unpack(results, outputs, scope).value == scope[outputs[0] := results]
    ensures |outputs| == 0 ==> Unpack(results, outputs, scope).value == scope
    ensures |outputs| > 1 ==> forall k :: 0 <= k < |outputs| && k < |Elements(results).value| ==>
      outputs[k] in Unpack(results, outputs, scope).value &&
      Unpack(results, outputs, scope).value[outputs[k]] == Elements(results).value[k]
    ensures |outputs| > 1 ==> forall x :: x !in outputs[..Min(|outputs|, |Elements(results).value|)] ==>
      (x in Unpack(results, outputs, scope).value <==> x in scope) &&
      (x in scope ==> Unpack(results, outputs, scope).value[x] == scope[x])
  {
    if |outputs| > 1 {
      forall k | 0 <= k < |outputs| && k < |Elements(results).value|
        ensures outputs[k] in Unpack(results, outputs, scope).value
        ensures Unpack(results, outputs, scope).value[outputs[k]] == Elements(results).value[k]
      {
        ZipHit(scope, outputs, Elements(results).value, k);
      }
      forall x | x !in outputs[..Min(|outputs|, |Elements(results).value|)]
        ensures x in Unpack(results, outputs, scope).value <==> x in scope
        ensures x in scope ==> Unpack(results, outputs, scope).value[x] == scope[x]
      {
        ZipMiss(scope, outputs, Elements(results).value, x);
      }
    }
  }

  // ---------------------------------------------------------------------
  // Serial steps

  /** One serial step against a scope: read the inputs by name, run the
      action, unpack its result into the scope. */
  function StepRun(scope: Scope, t: TaskInst): Result<Scope>
  {
    match Lookups(scope, t.inputs)
    case Err(e) => Err(e)
    case Ok(ins) => Unpack(t.act(t.attrs, ins), t.outputs, scope)
  }

  /** A chain of serial steps against one scope. */
  function SerialChain(ts: seq<TaskInst>, scope: Scope): Result<Scope>
    decreases |ts|
  {
    if ts == [] then Ok(scope)
    else match StepRun(scope, ts[0])
      case Err(e) => Err(e)
      case Ok(s) => SerialChain(ts[1..], s)
  }

  // ---------------------------------------------------------------------
  // Per-item run of a parallel group

  /** One item of a group: its tasks run against a private scope seeded
      with the item's record, after which the gathered names are read. */
  function ItemRun(ts: seq<TaskInst>, gathered: seq<string>, rec: Scope): Result<seq<Value>>
  {
    match SerialChain(ts, rec)
    case Err(e) => Err(e)
    case Ok(s) => Lookups(s, gathered)
  }

  /** The worker's collection over a batch of records: one column per
      gathered name (in gathered order), each holding that name's value for
      every record, in record order. Python keys the columns by name; the
      gathered names are distinct, so a column per position is the same. */
  function Collected(ts: seq<TaskInst>, gathered: seq<string>, batch: seq<Scope>): (r: Result<seq<seq<Value>>>)
    ensures r.Ok? ==> |r.value| == |gathered| && forall k :: 0 <= k < |gathered| ==> |r.value[k]| == |batch|
    decreases |batch|
  {
    if batch == [] then Ok(seq(|gathered|, k => []))
    else match Collected(ts, gathered, batch[..|batch| - 1])
      case Err(e) => Err(e)
      case Ok(cols) =>
        match ItemRun(ts, gathered, batch[|batch| - 1])
        case Err(e) => Err(e)
        case Ok(vals) => Ok(seq(|gathered|, k requires 0 <= k < |gathered| => cols[k] + [vals[k]]))
  }

  /** The collection holds, for each gathered name and each record, what
      the item run of that record gives, and fails exactly when one of the
      item runs does. */
  lemma {:induction false} CollectedItems(ts: seq<TaskInst>, gathered: seq<string>, batch: seq<Scope>)
    ensures Collected(ts, gathered, batch).Ok? <==> forall j :: 0 <= j < |batch| ==> ItemRun(ts, gathered, batch[j]).Ok?
    ensures Collected(ts, gathered, batch).Ok? ==> forall k, j :: 0 <= k < |gathered| && 0 <= j < |batch| ==>
      Collected(ts, gathered, batch).value[k][j] == ItemRun(ts, gathered, batch[j]).value[k]
    decreases |batch|
  {
    if batch != [] {
      var init := batch[..|batch| - 1];
      var last := batch[|batch| - 1];
      CollectedItems(ts, gathered, init);
      assert forall j :: 0 <= j < |init| ==> init[j] == batch[j];
      assert batch == init + [last];
      var r := Collected(ts, gathered, batch);
      if r.Ok? {
        var cols := Collected(ts, gathered, init).value;
        var vals := ItemRun(ts, gathered, last).value;
        assert r.value == seq(|gathered|, k requires 0 <= k < |gathered| => cols[k] + [vals[k]]);
        forall k, j | 0 <= k < |gathered| && 0 <= j < |batch|
          ensures r.value[k][j] == ItemRun(ts, gathered, batch[j]).value[k]
        {
          assert r.value[k] == cols[k] + [vals[k]];
          if j < |init| {
            assert r.value[k][j] == cols[k][j];
          }
        }
      }
    }
  }

  // ---------------------------------------------------------------------
  // Partition and merge

  /** One record per position across the input lists, up to the shortest:
      `dict(zip(mapRequests, pack)) for pack in zip(*args)`. */
  function Records(keys: seq<string>, args: seq<Value>): Result<seq<Scope>>
  {
    if exists k :: 0 <= k < |args| && !args[k].List? then Err(Runtime)
    else
      var n := MinLen(args);
      Ok(seq(n, j requires 0 <= j < n => DictZip(map[], keys, Column(args, j))))
  }

  /** The length of the shortest input list (zero when there are none):
      no longer than any of them and as long as one of them. */
  function MinLen(args: seq<Value>): (n: nat)
    requires forall k :: 0 <= k < |args| ==> args[k].List?
    ensures forall k :: 0 <= k < |args| ==> n <= |args[k].items|
    ensures args == [] ==> n == 0
    ensures args != [] ==> exists k :: 0 <= k < |args| && n == |args[k].items|
  {
    if args == [] then 0
    else if |args| == 1 then |args[0].items|
    else
      var m := MinLen(args[1..]);
      if |args[0].items| < m then |args[0].items| else m
  }

  function Column(args: seq<Value>, j: nat): (r: seq<Value>)
    requires forall k :: 0 <= k < |args| ==> args[k].List? && j < |args[k].items|
    ensures |r| == |args| && forall k :: 0 <= k < |args| ==> r[k] == args[k].items[j]
  {
    seq(|args|, k requires 0 <= k < |args| => args[k].items[j])
  }

  /** Python's dict(zip(keys, vals)) added to acc: later keys win. */
  function DictZip(acc: Scope, keys: seq<string>, vals: seq<Value>): Scope
    decreases |keys|
  {
    ZipInto(acc, keys, vals)
  }

  /** The four contiguous slices `[i*bs:(i+1)*bs]` with `bs = n // 4 + 1`. */
  function Batch<T>(items: seq<T>, i: nat): seq<T>
  {
    var bs := |items| / 4 + 1;
    var lo := if i * bs < |items| then i * bs else |items|;
    var hi := if (i + 1) * bs < |items| then (i + 1) * bs else |items|;
    items[lo..hi]
  }

  /** The four slices cover the items, in order, without overlap. */
  lemma PartitionCovers<T>(items: seq<T>)
    ensures Batch(items, 0) + Batch(items, 1) + Batch(items, 2) + Batch(items, 3) == items
    ensures forall i :: 0 <= i < 4 ==> |Batch(items, i)| <= |items| / 4 + 1
  {
    PartitionJoins(items);
    forall i | 0 <= i < 4 ensures |Batch(items, i)| <= |items| / 4 + 1 {
      BatchSize(items, i);
    }
  }

  lemma PartitionJoins<T>(items: seq<T>)
    ensures Batch(items, 0) + Batch(items, 1) + Batch(items, 2) + Batch(items, 3) == items
  {
    var n := |items|;
    var bs := n / 4 + 1;
    assert 4 * bs > n;
    var c1 := if bs < n then bs else n;
    var c2 := if 2 * bs < n then 2 * bs else n;
    var c3 := if 3 * bs < n then 3 * bs else n;
    assert Batch(items, 0) == items[0..c1];
    assert Batch(items, 1) == items[c1..c2];
    assert Batch(items, 2) == items[c2..c3];
    assert Batch(items, 3) == items[c3..n];
    assert items[0..c1] + items[c1..c2] == items[0..c2];
    assert items[0..c2] + items[c2..c3] == items[0..c3];
    assert items[0..c3] + items[c3..n] == items;
  }

  lemma BatchSize<T>(items: seq<T>, i: nat)
    ensures |Batch(items, i)| <= |items| / 4 + 1
  {
    var bs := |items| / 4 + 1;
    assert (i + 1) * bs == i * bs + bs;
  }

  /** The merge: for each gathered position, the workers' columns
      concatenated in worker order. */
  function Merge(outs: seq<seq<seq<Value>>>, m: nat): (r: seq<seq<Value>>)
    requires forall w :: 0 <= w < |outs| ==> |outs[w]| == m
    ensures |r| == m
    decreases |outs|
  {
    if outs == [] then seq(m, k => [])
    else
      var rest := Merge(outs[1..], m);
      seq(m, k requires 0 <= k < m => outs[0][k] + rest[k])
  }

  /** What action returns: None with nothing gathered, the bare list with
      one gathered name, the list of lists in gathered order otherwise. */
  function Shape(gathered: seq<string>, cols: seq<seq<Value>>): Value
    requires |cols| == |gathered|
  {
    if |gathered| > 1 then List(seq(|gathered|, k requires 0 <= k < |gathered| => List(cols[k])))
    else if |gathered| == 1 then List(cols[0])
    else Nothing
  }

  /** The four workers' collections, in worker order. */
  function WorkerOuts(ts: seq<TaskInst>, gathered: seq<string>, recs: seq<Scope>, w: nat): (r: Result<seq<seq<seq<Value>>>>)
    requires w <= 4
    ensures r.Ok? ==> |r.value| == 4 - w && forall v :: 0 <= v < |r.value| ==> |r.value[v]| == |gathered|
    decreases 4 - w
  {
    if w == 4 then Ok([])
    else match Collected(ts, gathered, Batch(recs, w))
      case Err(e) => Err(e)
      case Ok(c) =>
        match WorkerOuts(ts, gathered, recs, w + 1)
        case Err(e) => Err(e)
        case Ok(rest) => Ok([c] + rest)
  }

  /** MicroFlow.action on the values of its requested items: records,
      partition, per-worker collection, merge, shape. */
  function ActionSpec(g: Group, args: seq<Value>): Result<Value>
  {
    match Records(g.mapRequests, args)
    case Err(e) => Err(e)
    case Ok(recs) =>
      match WorkerOuts(g.tasks, g.gathered, recs, 0)
      case Err(e) => Err(e)
      case Ok(outs) => Ok(Shape(g.gathered, Merge(outs, |g.gathered|)))
  }

  /** Collecting two consecutive batches and concatenating the columns is
      collecting their concatenation. */
  lemma {:induction false} CollectedAppend(ts: seq<TaskInst>, gathered: seq<string>, a: seq<Scope>, b: seq<Scope>)
    ensures Collected(ts, gathered, a + b).Ok? <==> Collected(ts, gathered, a).Ok? && Collected(ts, gathered, b).Ok?
    ensures Collected(ts, gathered, a + b).Ok? ==> forall k :: 0 <= k < |gathered| ==>
      Collected(ts, gathered, a + b).value[k] == Collected(ts, gathered, a).value[k] + Collected(ts, gathered, b).value[k]
  {
    CollectedItems(ts, gathered, a);
    CollectedItems(ts, gathered, b);
    CollectedItems(ts, gathered, a + b);
    if Collected(ts, gathered, a + b).Ok? {
      forall j | 0 <= j < |a| ensures ItemRun(ts, gathered, a[j]).Ok? { assert (a + b)[j] == a[j]; }
      forall j | 0 <= j < |b| ensures ItemRun(ts, gathered, b[j]).Ok? { assert (a + b)[|a| + j] == b[j]; }
      var ab := Collected(ts, gathered, a + b).value;
      var ca := Collected(ts, gathered, a).value;
      var cb := Collected(ts, gathered, b).value;
      forall k | 0 <= k < |gathered| ensures ab[k] == ca[k] + cb[k] {
        forall j | 0 <= j < |a + b| ensures ab[k][j] == (ca[k] + cb[k])[j] {
          if j < |a| { assert (a + b)[j] == a[j]; } else { assert (a + b)[j] == b[j - |a|]; }
        }
      }
    }
  }

  /** The workers from w on collect what one worker would collect over the
      concatenation of their batches. */
  lemma {:induction false} WorkersSequential(ts: seq<TaskInst>, gathered: seq<string>, recs: seq<Scope>, w: nat)
    requires w <= 4
    ensures WorkerOuts(ts, gathered, recs, w).Ok? <==> Collected(ts, gathered, Batches(recs, w)).Ok?
    ensures WorkerOuts(ts, gathered, recs, w).Ok? ==>
      Merge(WorkerOuts(ts, gathered, recs, w).value, |gathered|) == Collected(ts, gathered, Batches(recs, w)).value
    decreases 4 - w
  {
    if w == 4 {
      assert Batches(recs, 4) == [];
    } else {
      WorkersSequential(ts, gathered, recs, w + 1);
      CollectedAppend(ts, gathered, Batch(recs, w), Batches(recs, w + 1));
      if WorkerOuts(ts, gathered, recs, w).Ok? {
        var outs := WorkerOuts(ts, gathered, recs, w).value;
        var rest := WorkerOuts(ts, gathered, recs, w + 1).value;
        var c := Collected(ts, gathered, Batch(recs, w)).value;
        assert outs == [c] + rest;
        MergeCons(outs, |gathered|);
        var merged := Merge(outs, |gathered|);
        var whole := Collected(ts, gathered, Batches(recs, w)).value;
        forall k | 0 <= k < |gathered| ensures merged[k] == whole[k] {
          assert merged[k] == c[k] + Merge(rest, |gathered|)[k];
        }
      }
    }
  }

  /** The columns merged from a first worker's collection and the rest. */
  lemma MergeCons(outs: seq<seq<seq<Value>>>, m: nat)
    requires outs != [] && forall w :: 0 <= w < |outs| ==> |outs[w]| == m
    ensures forall k :: 0 <= k < m ==> Merge(outs, m)[k] == outs[0][k] + Merge(outs[1..], m)[k]
  {
  }

  /** The batches of workers w to 3, concatenated. */
  function Batches<T>(items: seq<T>, w: nat): seq<T>
    requires w <= 4
    decreases 4 - w
  {
    if w == 4 then [] else Batch(items, w) + Batches(items, w + 1)
  }

  /** Partitioning over four workers and merging their collections in
      worker order gives the sequential per-item evaluation of all records:
      the shaped columns of `Collected` over the whole record list. */
  lemma ActionSequential(g: Group, args: seq<Value>)
    ensures ActionSpec(g, args) ==
      match Records(g.mapRequests, args)
      case Err(e) => Err(e)
      case Ok(recs) =>
        match Collected(g.tasks, g.gathered, recs)
        case Err(e) => Err(Runtime)
        case Ok(cols) => Ok(Shape(g.gathered, cols))
  {
    if Records(g.mapRequests, args).Ok? {
      WorkersOnRecords(g.tasks, g.gathered, Records(g.mapRequests, args).value);
    }
  }

  /** The four workers over a list of records, merged, are the sequential
      collection over it, failing as a runtime error when it fails. */
  lemma WorkersOnRecords(ts: seq<TaskInst>, gathered: seq<string>, recs: seq<Scope>)
    ensures match WorkerOuts(ts, gathered, recs, 0)
      case Err(e) => Collected(ts, gathered, recs).Err? && e == Runtime
      case Ok(outs) => Collected(ts, gathered, recs) == Ok(Merge(outs, |gathered|))
  {
    WorkersSequential(ts, gathered, recs, 0);
    BatchesCover(recs);
    WorkerErrors(ts, gathered, recs, 0);
  }

  /** The four workers' batches, concatenated, are the whole list. */
  lemma BatchesCover<T>(items: seq<T>)
    ensures Batches(items, 0) == items
  {
    PartitionCovers(items);
    assert Batches(items, 3) == Batch(items, 3);
    assert Batches(items, 0) == Batch(items, 0) + (Batch(items, 1) + (Batch(items, 2) + Batch(items, 3)));
  }

  /** Every failure of a per-item run is an uncaught Python error. */
  lemma {:induction false} ItemErrors(ts: seq<TaskInst>, gathered: seq<string>, batch: seq<Scope>)
    ensures Collected(ts, gathered, batch).Err? ==> Collected(ts, gathered, batch).error == Runtime
    decreases |batch|
  {
    if batch != [] {
      ItemErrors(ts, gathered, batch[..|batch| - 1]);
      if SerialChain(ts, batch[|batch| - 1]).Ok? {
      } else {
        ChainErrors(ts, batch[|batch| - 1]);
      }
    }
  }

  lemma {:induction false} WorkerErrors(ts: seq<TaskInst>, gathered: seq<string>, recs: seq<Scope>, w: nat)
    requires w <= 4
    ensures WorkerOuts(ts, gathered, recs, w).Err? ==> WorkerOuts(ts, gathered, recs, w).error == Runtime
    decreases 4 - w
  {
    if w < 4 {
      ItemErrors(ts, gathered, Batch(recs, w));
      WorkerErrors(ts, gathered, recs, w + 1);
    }
  }

  lemma {:induction false} ChainErrors(ts: seq<TaskInst>, scope: Scope)
    ensures SerialChain(ts, scope).Err? ==> SerialChain(ts, scope).error == Runtime
    decreases |ts|
  {
    if ts != [] && StepRun(scope, ts[0]).Ok? {
      ChainErrors(ts[1..], StepRun(scope, ts[0]).value);
    }
  }

  // ---------------------------------------------------------------------
  // Macro flow execution

  /** A stage against the macro scope: a serial task runs once on the scope;
      a group gets the values of its macro requests, runs its action and
      has its result unpacked over its gathered names. */
  function StageRun(scope: Scope, st: Stage): Result<Scope>
  {
    match st
    case Step(t) => StepRun(scope, t)
    case Micro(g) =>
      match Lookups(scope, g.mapRequests)
      case Err(e) => Err(e)
      case Ok(args) =>
        match ActionSpec(g, args)
        case Err(e) => Err(e)
        case Ok(res) => Unpack(res, g.gathered, scope)
  }

  /** The scope after execute and whether it completed; on an error, the
      scope as the stages before it left it. */
  datatype ExecState = ExecState(outcome: Outcome, scope: Scope)

  function Run(stages: seq<Stage>, scope: Scope): ExecState
    decreases |stages|
  {
    if stages == [] then ExecState(Pass, scope)
    else match StageRun(scope, stages[0])
      case Err(e) => ExecState(Fail(e), scope)
      case Ok(s) => Run(stages[1..], s)
  }

  /** Running a flow of serial stages only is running their chain. */
  lemma {:induction false} RunSerial(ts: seq<TaskInst>, scope: Scope)
    ensures var r := Run(seq(|ts|, k requires 0 <= k < |ts| => Step(ts[k])), scope);
      (r.outcome.Pass? <==> SerialChain(ts, scope).Ok?) &&
      (r.outcome.Pass? ==> r.scope == SerialChain(ts, scope).value)
    decreases |ts|
  {
    var stages := seq(|ts|, k requires 0 <= k < |ts| => Step(ts[k]));
    if ts != [] {
      assert stages[1..] == seq(|ts[1..]|, k requires 0 <= k < |ts[1..]| => Step(ts[1..][k]));
      if StepRun(scope, ts[0]).Ok? {
        RunSerial(ts[1..], StepRun(scope, ts[0]).value);
      }
    }
  }

  /** A group stage gives each gathered name the list of its values over
      all items, in item order, each computed by the item's own run. */
  lemma GroupStageWrites(scope: Scope, g: Group)
    requires Distinct(g.gathered) && |g.gathered| >= 1
    requires StageRun(scope, Micro(g)).Ok?
    ensures var args := Lookups(scope, g.mapRequests).value;
      var recs := Records(g.mapRequests, args).value;
      && Collected(g.tasks, g.gathered, recs).Ok?
      && forall k :: 0 <= k < |g.gathered| ==>
        && g.gathered[k] in StageRun(scope, Micro(g)).value
        && StageRun(scope, Micro(g)).value[g.gathered[k]] == List(Collected(g.tasks, g.gathered, recs).value[k])
  {
    var args := Lookups(scope, g.mapRequests).value;
    ActionSequential(g, args);
    var recs := Records(g.mapRequests, args).value;
    var cols := Collected(g.tasks, g.gathered, recs).value;
    var res := Shape(g.gathered, cols);
    UnpackPositional(res, g.gathered, scope);
  }

  // ---------------------------------------------------------------------
  // The record lookup of MicroFlow.sequence as written

  /** The input lookup of sequence as written: a name among the group's
      macro requests is always read from the item's record, any other from
      the private scope, which starts empty. */
  function InputsAsWritten(rec: Scope, mapRequests: seq<string>, local: Scope, names: seq<string>): Result<seq<Value>>
  {
    if names == [] then Ok([])
    else
      var n := names[0];
      var v := if n in mapRequests then (if n in rec then Ok(rec[n]) else Err(Runtime))
               else if n in local then Ok(local[n]) else Err(Runtime);
      match v
      case Err(e) => Err(e)
      case Ok(x) =>
        match InputsAsWritten(rec, mapRequests, local, names[1..])
        case Err(e) => Err(e)
        case Ok(xs) => Ok([x] + xs)
  }

  function ChainAsWritten(ts: seq<TaskInst>, mapRequests: seq<string>, rec: Scope, local: Scope): Result<Scope>
    decreases |ts|
  {
    if ts == [] then Ok(local)
    else match InputsAsWritten(rec, mapRequests, local, ts[0].inputs)
      case Err(e) => Err(e)
      case Ok(ins) =>
        match Unpack(ts[0].act(ts[0].attrs, ins), ts[0].outputs, local)
        case Err(e) => Err(e)
        case Ok(l) => ChainAsWritten(ts[1..], mapRequests, rec, l)
  }

  /** The per-item run of sequence as written. */
  function ItemRunAsWritten(ts: seq<TaskInst>, gathered: seq<string>, mapRequests: seq<string>, rec: Scope): Result<seq<Value>>
  {
    match ChainAsWritten(ts, mapRequests, rec, map[])
    case Err(e) => Err(e)
    case Ok(l) => Lookups(l, gathered)
  }

  /** A task that works in place on the single item x. */
  predicate InPlaceOn(t: TaskInst, x: string)
  {
    t.inputs == [x] && t.outputs == [x]
  }

  /** The actions of a chain applied one after the other. */
  function Compose(ts: seq<TaskInst>, v: Value): Value
    decreases |ts|
  {
    if ts == [] then v else Compose(ts[1..], ts[0].act(ts[0].attrs, [v]))
  }

  /** As written, a chain of in-place tasks on a requested item keeps only
      the last task's action, applied to the item's original value: every
      earlier update is lost. */
  lemma {:induction false} AsWrittenKeepsLast(ts: seq<TaskInst>, x: string, mapRequests: seq<string>, rec: Scope, local: Scope)
    requires |ts| >= 1 && x in mapRequests && x in rec
    requires forall k :: 0 <= k < |ts| ==> InPlaceOn(ts[k], x)
    ensures ChainAsWritten(ts, mapRequests, rec, local) ==
      Ok(local[x := ts[|ts| - 1].act(ts[|ts| - 1].attrs, [rec[x]])])
    decreases |ts|
  {
    var t := ts[0];
    assert InPlaceOn(t, x);
    assert t.inputs[1..] == [];
    assert InputsAsWritten(rec, mapRequests, local, []) == Ok([]);
    assert [rec[x]] + [] == [rec[x]];
    assert InputsAsWritten(rec, mapRequests, local, t.inputs) == Ok([rec[x]]);
    if |ts| > 1 {
      AsWrittenKeepsLast(ts[1..], x, mapRequests, rec, local[x := t.act(t.attrs, [rec[x]])]);
      assert local[x := t.act(t.attrs, [rec[x]])][x := ts[|ts| - 1].act(ts[|ts| - 1].attrs, [rec[x]])]
          == local[x := ts[|ts| - 1].act(ts[|ts| - 1].attrs, [rec[x]])];
    }
  }

  /** With the private scope seeded from the record, a chain of in-place
      tasks composes: each task sees its predecessor's result. */
  lemma {:induction false} SeededComposes(ts: seq<TaskInst>, x: string, scope: Scope)
    requires x in scope
    requires forall k :: 0 <= k < |ts| ==> InPlaceOn(ts[k], x)
    ensures SerialChain(ts, scope) == Ok(scope[x := Compose(ts, scope[x])])
    decreases |ts|
  {
    if ts == [] {
      assert scope[x := scope[x]] == scope;
    } else {
      var t := ts[0];
      assert InPlaceOn(t, x);
      var s1 := scope[x := t.act(t.attrs, [scope[x]])];
      LookupOne(scope, x);
      assert StepRun(scope, t) == Ok(s1);
      SeededComposes(ts[1..], x, s1);
      assert s1[x := Compose(ts[1..], s1[x])] == scope[x := Compose(ts, scope[x])];
    }
  }

  lemma LookupOne(scope: Scope, x: string)
    requires x in scope
    ensures Lookups(scope, [x]) == Ok([scope[x]])
  {
    assert [x][1..] == [];
    assert [scope[x]] + [] == [scope[x]];
  }

  /** The increment task of the counterexample. */
  function Incr(): TaskInst
  {
    TaskInst("incr", ["x"], ["x"], map[],
      (attrs: map<string, Value>, ins: seq<Value>) => if |ins| == 1 && ins[0].Int? then Int(ins[0].i + 1) else Nothing)
  }

  /** Two in-place increments of a requested item x = 0: the code as
      written yields 1, where the seeded scope yields 2. */
  lemma AsWrittenLosesUpdate()
    ensures ItemRunAsWritten([Incr(), Incr()], ["x"], ["x"], map["x" := Int(0)]) == Ok([Int(1)])
    ensures ItemRun([Incr(), Incr()], ["x"], map["x" := Int(0)]) == Ok([Int(2)])
  {
    var rec := map["x" := Int(0)];
    var ts := [Incr(), Incr()];
    assert forall k :: 0 <= k < |ts| ==> InPlaceOn(ts[k], "x");
    AsWrittenKeepsLast(ts, "x", ["x"], rec, map[]);
    assert Incr().act(map[], [Int(0)]) == Int(1);
    var l := map[]["x" := Int(1)];
    assert ChainAsWritten(ts, ["x"], rec, map[]) == Ok(l);
    LookupOne(l, "x");
    SeededComposes(ts, "x", rec);
    assert Compose(ts, Int(0)) == Int(2) by {
      assert ts[1..] == [Incr()];
      assert Incr().act(map[], [Int(1)]) == Int(2);
      assert Compose([Incr()], Int(1)) == Compose([], Int(2));
    }
    var s := rec["x" := Int(2)];
    assert SerialChain(ts, rec) == Ok(s);
    LookupOne(s, "x");
  }

  // ---------------------------------------------------------------------
  // Where the seeded run and the code as written agree

  /** The seeded scope holds the record's items with their record values
      and every other item with the value of the private scope as written. */
  ghost predicate Agree(rec: Scope, local: Scope, scope: Scope)
  {
    && (forall x :: x in scope <==> x in rec || x in local)
    && (forall x :: x in rec ==> scope[x] == rec[x])
    && (forall x :: x in local && x !in rec ==> scope[x] == local[x])
  }

  /** When the record holds exactly the requested items, the input lookup
      as written reads what the seeded scope holds. */
  lemma {:induction false} InputsAgree(rec: Scope, mapRequests: seq<string>, local: Scope, scope: Scope, names: seq<string>)
    requires forall x :: x in rec <==> x in mapRequests
    requires Agree(rec, local, scope)
    ensures InputsAsWritten(rec, mapRequests, local, names) == Lookups(scope, names)
    decreases |names|
  {
    if names != [] {
      InputsAgree(rec, mapRequests, local, scope, names[1..]);
    }
  }

  /** Writing items the record does not hold keeps the two scopes in step. */
  lemma {:induction false} ZipAgree(rec: Scope, local: Scope, scope: Scope, keys: seq<string>, vals: seq<Value>)
    requires Agree(rec, local, scope)
    requires forall k :: 0 <= k < |keys| ==> keys[k] !in rec
    ensures Agree(rec, ZipInto(local, keys, vals), ZipInto(scope, keys, vals))
    decreases |keys|
  {
    if keys != [] && vals != [] {
      var x, v := keys[0], vals[0];
      assert Agree(rec, local[x := v], scope[x := v]);
      ZipAgree(rec, local[x := v], scope[x := v], keys[1..], vals[1..]);
    }
  }

  lemma UnpackAgree(rec: Scope, local: Scope, scope: Scope, results: Value, outputs: seq<string>)
    requires Agree(rec, local, scope)
    requires forall k :: 0 <= k < |outputs| ==> outputs[k] !in rec
    ensures Unpack(results, outputs, local).Ok? <==> Unpack(results, outputs, scope).Ok?
    ensures Unpack(results, outputs, local).Ok? ==>
      Agree(rec, Unpack(results, outputs, local).value, Unpack(results, outputs, scope).value)
    ensures Unpack(results, outputs, local).Err? ==> Unpack(results, outputs, scope) == Unpack(results, outputs, local)
  {
    if |outputs| > 1 && Elements(results).Some? {
      ZipAgree(rec, local, scope, outputs, Elements(results).value);
    } else if |outputs| == 1 {
      assert Agree(rec, local[outputs[0] := results], scope[outputs[0] := results]);
    }
  }

  /** The task chain as written and the seeded chain fail together, and on
      success stay in step, while no task writes a requested item. */
  lemma {:induction false} ChainAgrees(ts: seq<TaskInst>, mapRequests: seq<string>, rec: Scope, local: Scope, scope: Scope)
    requires forall x :: x in rec <==> x in mapRequests
    requires forall k, o :: 0 <= k < |ts| && o in ts[k].outputs ==> o !in mapRequests
    requires Agree(rec, local, scope)
    ensures ChainAsWritten(ts, mapRequests, rec, local).Ok? <==> SerialChain(ts, scope).Ok?
    ensures ChainAsWritten(ts, mapRequests, rec, local).Ok? ==>
      Agree(rec, ChainAsWritten(ts, mapRequests, rec, local).value, SerialChain(ts, scope).value)
    ensures ChainAsWritten(ts, mapRequests, rec, local).Err? ==> SerialChain(ts, scope) == ChainAsWritten(ts, mapRequests, rec, local)
    decreases |ts|
  {
    if ts != [] {
      var t := ts[0];
      InputsAgree(rec, mapRequests, local, scope, t.inputs);
      match Lookups(scope, t.inputs)
      case Err(_) =>
      case Ok(ins) =>
        var res := t.act(t.attrs, ins);
        assert forall k :: 0 <= k < |t.outputs| ==> t.outputs[k] !in rec by {
          forall k | 0 <= k < |t.outputs| ensures t.outputs[k] !in rec {
            assert ts[0].outputs[k] in ts[0].outputs;
          }
        }
        UnpackAgree(rec, local, scope, res, t.outputs);
        if Unpack(res, t.outputs, local).Ok? {
          assert forall k, o :: 0 <= k < |ts[1..]| && o in ts[1..][k].outputs ==> o !in mapRequests by {
            forall k, o | 0 <= k < |ts[1..]| && o in ts[1..][k].outputs ensures o !in mapRequests {
              assert ts[1..][k] == ts[k + 1];
            }
          }
          ChainAgrees(ts[1..], mapRequests, rec, Unpack(res, t.outputs, local).value, Unpack(res, t.outputs, scope).value);
        }
    }
  }

  lemma LookupsAgree(rec: Scope, local: Scope, scope: Scope, names: seq<string>)
    requires Agree(rec, local, scope)
    requires forall k :: 0 <= k < |names| ==> names[k] !in rec
    ensures Lookups(local, names) == Lookups(scope, names)
  {
    var a, b := Lookups(local, names), Lookups(scope, names);
    if a.Ok? {
      assert a.value == b.value;
    }
  }

  /** The seeded item run is the item run as written whenever the record
      holds exactly the group's requested items, and no task of the group
      writes, and no gathered name is, a requested item: the two differ
      only where a task overwrites a requested item. */
  lemma AsWrittenAgrees(ts: seq<TaskInst>, gathered: seq<string>, mapRequests: seq<string>, rec: Scope)
    requires forall x :: x in rec <==> x in mapRequests
    requires forall k, o :: 0 <= k < |ts| && o in ts[k].outputs ==> o !in mapRequests
    requires forall k :: 0 <= k < |gathered| ==> gathered[k] !in mapRequests
    ensures ItemRunAsWritten(ts, gathered, mapRequests, rec) == ItemRun(ts, gathered, rec)
  {
    assert Agree(rec, map[], rec);
    ChainAgrees(ts, mapRequests, rec, map[], rec);
    var c := ChainAsWritten(ts, mapRequests, rec, map[]);
    if c.Ok? {
      LookupsAgree(rec, c.value, SerialChain(ts, rec).value, gathered);
    }
  }

  /** The assignments of zip cover exactly the first keys up to the number
      of values. */
  lemma {:induction false} ZipCovers(scope: Scope, keys: seq<string>, vals: seq<Value>)
    requires |keys| <= |vals|
    ensures forall x :: x in ZipInto(scope, keys, vals) <==> x in scope || x in keys
    decreases |keys|
  {
    if keys != [] {
      ZipCovers(scope[keys[0] := vals[0]], keys[1..], vals[1..]);
      assert forall x :: x in keys <==> x == keys[0] || x in keys[1..];
    }
  }

  /** Every record built from one input list per requested name holds
      exactly the requested items. */
  lemma RecordKeys(keys: seq<string>, args: seq<Value>, j: nat)
    requires |args| == |keys|
    requires Records(keys, args).Ok? && j < |Records(keys, args).value|
    ensures forall x :: x in Records(keys, args).value[j] <==> x in keys
  {
    ZipCovers(map[], keys, Column(args, j));
  }
}
