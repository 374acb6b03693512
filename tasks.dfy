/** The task contract of muFlow (muFlow/baseTasks.py): parameter-spec
    validation of a task type, IO-spec overrides and positional argument
    decoding of a task instance, and the fold protocol of reducers. */
module BaseTasks {
  import opened Errors

  /** The values items and parameters take. Python's dynamic values are
      reduced to these; `Nothing` is Python's None. */
  datatype Value = Nothing | Int(i: int) | Real(r: real) | Str(s: string) | List(items: seq<Value>)

  /** A parameter decoder (a Python type such as int or float), as an
      abstract partial function: None where the source raises ValueError. */
  type Decoder = string -> Option<Value>

  /** The per-item or per-call user code of a task: from the decoded
      parameters and the input values to the result. */
  type ActionFn = (map<string, Value>, seq<Value>) -> Value

  /** A parameter spec tuple (name, decoder[, default]). `arity` is the
      tuple's length; the fields past it are absent. Whether the decoder can
      be called on a string is the abstract flag `callable`. */
  datatype ParamSpec = ParamSpec(arity: nat, name: string, callable: bool, decode: Decoder, default: string)

  /** The three kinds of task class. */
  datatype Kind = Serial | Parallel | Reducer

  /** The keys of BaseProcessor's class dictionary (Python 3 before 3.13);
      a parameter with one of these names would overwrite a member. */
  const Reserved: set<string> := {
    "__module__", "__doc__", "__dict__", "__weakref__", "__init__",
    "name", "info", "params", "inputs", "outputs", "isValid",
    "validateParams", "_BaseProcessor__parseIOSpec", "_BaseProcessor__parseArgs",
    "getInputs", "getOutputs", "setup", "action" }

  // ---------------------------------------------------------------------
  // Parameter spec validation

  /** The number of leading 2-element specs. */
  function LeadingTwos(ps: seq<ParamSpec>): (n: nat)
    ensures n <= |ps|
    ensures forall k :: 0 <= k < n ==> ps[k].arity == 2
    ensures n < |ps| ==> ps[n].arity != 2
  {
    if ps == [] || ps[0].arity != 2 then 0 else 1 + LeadingTwos(ps[1..])
  }

  /** Every spec has 2 or 3 elements and no 2-element spec follows a 3-element one. */
  predicate ShapeOk(ps: seq<ParamSpec>)
  {
    && (forall i :: 0 <= i < |ps| ==> ps[i].arity == 2 || ps[i].arity == 3)
    && (forall i, j :: 0 <= i < j < |ps| && ps[i].arity == 3 ==> ps[j].arity == 3)
  }

  /** The shape scan of validateParams from position i: the first offending
      position and why, if any. */
  function ShapeScan(ps: seq<ParamSpec>, i: nat, onDefault: bool): (r: Option<(nat, BadParamWhy)>)
    requires i <= |ps|
    ensures r.Some? ==> i <= r.value.0 < |ps|
    decreases |ps| - i
  {
    if i == |ps| then None
    else if ps[i].arity != 2 && ps[i].arity != 3 then Some((i, IncorrectFormat))
    else if onDefault && ps[i].arity == 2 then Some((i, MissesDefault))
    else ShapeScan(ps, i + 1, onDefault || ps[i].arity == 3)
  }

  /** The first position satisfying p, or |s|. */
  function FindFirst<T>(s: seq<T>, p: T -> bool): (k: nat)
    ensures k <= |s|
    ensures forall i :: 0 <= i < k ==> !p(s[i])
    ensures k < |s| ==> p(s[k])
  {
    if s == [] || p(s[0]) then 0 else 1 + FindFirst(s[1..], p)
  }

  predicate IsReservedName(p: ParamSpec) { p.name in Reserved }
  predicate Uncallable(p: ParamSpec) { !p.callable }
  predicate DefaultFails(p: ParamSpec) { p.arity == 3 && p.decode(p.default).None? }

  /** The error a malformed spec raises: BadParamException names the spec
      by its first element, so an empty spec raises IndexError instead. */
  function ShapeError(p: ParamSpec, why: BadParamWhy): Error
  {
    if p.arity == 0 then Runtime else BadParam(p.name, why)
  }

  /** What validateParams decides: the shape scan first, then reserved names,
      then callability, then the defaults, each reporting its first offender. */
  function Validation(ps: seq<ParamSpec>): Outcome
  {
    match ShapeScan(ps, 0, false)
    case Some((j, why)) => Fail(ShapeError(ps[j], why))
    case None =>
      var r := FindFirst(ps, IsReservedName);
      if r < |ps| then Fail(BadParam(ps[r].name, OverridesMember))
      else
        var c := FindFirst(ps, Uncallable);
        if c < |ps| then Fail(BadParam(ps[c].name, NotCallable))
        else
          var d := FindFirst(ps, DefaultFails);
          if d < |ps| then Fail(BadParam(ps[d].name, BadDefault))
          else Pass
  }

  /** The counters (requiredArgs, maximumArgs) the shape loop leaves behind:
      the leading 2-element specs and the specs seen before it stops, the one
      missing its default included. */
  function ShapeCounters(ps: seq<ParamSpec>): (nat, nat)
  {
    match ShapeScan(ps, 0, false)
    case None => (LeadingTwos(ps), |ps|)
    case Some((j, why)) => (LeadingTwos(ps[..j]), if why == MissesDefault then j + 1 else j)
  }

  /** A task class: its declared spec and the class-level state that
      validation updates in place. */
  class TaskType {
    var name: string
    const kind: Kind
    const params: seq<ParamSpec>
    const inputs: seq<string>
    const outputs: seq<string>
    const action: ActionFn
    const reduction: (Value, Value) -> Value
    const final: Value -> Value
    var requiredArgs: nat
    var maximumArgs: nat
    var isValid: bool

    /** A validated class has consistent counters. */
    ghost predicate Valid()
      reads this
    {
      isValid ==> Validation(params).Pass? && requiredArgs == LeadingTwos(params) && maximumArgs == |params|
    }

    constructor (name: string, kind: Kind, params: seq<ParamSpec>, inputs: seq<string>, outputs: seq<string>,
                 action: ActionFn, reduction: (Value, Value) -> Value, final: Value -> Value)
      ensures Valid() && !isValid
      ensures this.name == name && this.kind == kind && this.params == params
      ensures this.inputs == inputs && this.outputs == outputs
      ensures this.action == action && this.reduction == reduction && this.final == final
    {
      this.name := name;
      this.kind := kind;
      this.params := params;
      this.inputs := inputs;
      this.outputs := outputs;
      this.action := action;
      this.reduction := reduction;
      this.final := final;
      requiredArgs, maximumArgs := 0, 0;
      isValid := false;
    }

    /** validateParams of BaseProcessor: counts the required and the maximum
        number of arguments while checking the shape, then checks names,
        decoders and defaults; marks the class valid on success. */
    method ValidateParams() returns (o: Outcome)
      requires Valid()
      modifies this`requiredArgs, this`maximumArgs, this`isValid
      ensures Valid()
      ensures o == Validation(params)
      ensures o.Pass? ==> isValid && requiredArgs == LeadingTwos(params) && maximumArgs == |params|
      ensures o.Fail? ==> isValid == old(isValid)
      ensures (requiredArgs, maximumArgs) == ShapeCounters(params)
    {
      var bad := CountArgs();
      if bad.Some? {
        o := Fail(ShapeError(params[bad.value.0], bad.value.1));
        return;
      }
      var r := FindFirstLoop(params, IsReservedName);
      if r < |params| {
        o := Fail(BadParam(params[r].name, OverridesMember));
        return;
      }
      var c := FindFirstLoop(params, Uncallable);
      if c < |params| {
        o := Fail(BadParam(params[c].name, NotCallable));
        return;
      }
      var d := FindFirstLoop(params, DefaultFails);
      if d < |params| {
        o := Fail(BadParam(params[d].name, BadDefault));
        return;
      }
      isValid := true;
      o := Pass;
    }

    /** The counting loop of validateParams: the first malformed spec, if any,
        with the counters as the source leaves them. */
    method CountArgs() returns (bad: Option<(nat, BadParamWhy)>)
      modifies this`requiredArgs, this`maximumArgs
      ensures bad == ShapeScan(params, 0, false)
      ensures (requiredArgs, maximumArgs) == ShapeCounters(params)
    {
      requiredArgs, maximumArgs := 0, 0;
      var onDefault := false;
      var i := 0;
      while i < |params|
        invariant 0 <= i <= |params|
        invariant ShapeScan(params, i, onDefault) == ShapeScan(params, 0, false)
        invariant onDefault <==> LeadingTwos(params[..i]) < i
        invariant requiredArgs == LeadingTwos(params[..i]) && maximumArgs == i
      {
        var l := params[i].arity;
        LeadingTwosSnoc(params, i);
        if l != 2 && l != 3 {
          return Some((i, IncorrectFormat));
        }
        if !onDefault {
          if l == 3 {
            onDefault := true;
            maximumArgs := maximumArgs + 1;
          } else {
            requiredArgs := requiredArgs + 1;
            maximumArgs := maximumArgs + 1;
          }
        } else {
          maximumArgs := maximumArgs + 1;
          if l < 3 {
            return Some((i, MissesDefault));
          }
        }
        i := i + 1;
      }
      assert params[..|params|] == params;
      return None;
    }

    /** validateParams of BaseReducer: exactly one input and one output, the
        `reduce_` prefix on the name, then the base validation. */
    method ValidateReducer() returns (o: Outcome)
      requires Valid()
      modifies this`name, this`requiredArgs, this`maximumArgs, this`isValid
      ensures Valid()
      ensures |inputs| != 1 || |outputs| != 1 ==>
        o == Fail(User) && name == old(name) && isValid == old(isValid) &&
        (requiredArgs, maximumArgs) == (old(requiredArgs), old(maximumArgs))
      ensures |inputs| == 1 && |outputs| == 1 ==>
        o == Validation(params) && name == "reduce_" + old(name) && (requiredArgs, maximumArgs) == ShapeCounters(params)
      ensures o.Pass? ==> isValid && requiredArgs == LeadingTwos(params) && maximumArgs == |params|
    {
      if |inputs| != 1 || |outputs| != 1 {
        return Fail(User);
      }
      name := "reduce_" + name;
      o := ValidateParams();
    }

    /** The class's own validateParams: the reducer variant for reducers. */
    method Validate() returns (o: Outcome)
      requires Valid()
      modifies this`name, this`requiredArgs, this`maximumArgs, this`isValid
      ensures Valid()
      ensures o == TypeCheck(kind, params, inputs, outputs)
      ensures o.Fail? ==> isValid == old(isValid)
      ensures o.Pass? ==> isValid && requiredArgs == LeadingTwos(params) && maximumArgs == |params|
      ensures name == (if kind == Reducer && |inputs| == 1 && |outputs| == 1 then "reduce_" + old(name) else old(name))
      ensures (requiredArgs, maximumArgs) ==
        (if kind == Reducer && (|inputs| != 1 || |outputs| != 1) then (old(requiredArgs), old(maximumArgs))
         else ShapeCounters(params))
    {
      if kind == Reducer {
        o := ValidateReducer();
      } else {
        o := ValidateParams();
      }
    }
  }

  /** The scanning loops over the specs; the position of the first spec
      satisfying p, or |s|. */
  method FindFirstLoop(s: seq<ParamSpec>, p: ParamSpec -> bool) returns (k: nat)
    ensures k == FindFirst(s, p)
  {
    k := 0;
    while k < |s| && !p(s[k])
      invariant k <= |s|
      invariant forall i :: 0 <= i < k ==> !p(s[i])
    {
      k := k + 1;
    }
    FindFirstUnique(s, p, k);
  }

  lemma {:induction false} FindFirstUnique<T>(s: seq<T>, p: T -> bool, k: nat)
    requires k <= |s| && (forall i :: 0 <= i < k ==> !p(s[i])) && (k < |s| ==> p(s[k]))
    ensures k == FindFirst(s, p)
    decreases k
  {
    if k > 0 {
      FindFirstUnique(s[1..], p, k - 1);
    }
  }

  lemma {:induction false} LeadingTwosSnoc(ps: seq<ParamSpec>, i: nat)
    requires i < |ps|
    ensures LeadingTwos(ps[..i + 1]) ==
      if LeadingTwos(ps[..i]) == i && ps[i].arity == 2 then i + 1 else LeadingTwos(ps[..i])
    decreases i
  {
    if i > 0 {
      assert ps[..i + 1][1..] == ps[1..][..i];
      assert ps[..i][1..] == ps[1..][..i - 1];
      LeadingTwosSnoc(ps[1..], i - 1);
    }
  }

  /** validateParams accepts exactly the well-shaped specs whose names are
      not reserved, whose decoders are callable and whose defaults decode. */
  lemma ValidationPass(ps: seq<ParamSpec>)
    ensures Validation(ps).Pass? <==>
      && ShapeOk(ps)
      && (forall i :: 0 <= i < |ps| ==> ps[i].name !in Reserved && ps[i].callable)
      && (forall i :: 0 <= i < |ps| && ps[i].arity == 3 ==> ps[i].decode(ps[i].default).Some?)
  {
    ScanNoneShape(ps);
  }

  /** The shape scan from i finds nothing exactly when the rest is well
      shaped and, once a default has been seen, has only 3-element specs. */
  lemma {:induction false} ShapeScanNone(ps: seq<ParamSpec>, i: nat, onDefault: bool)
    requires i <= |ps|
    ensures ShapeScan(ps, i, onDefault).None? <==>
      && (forall k :: i <= k < |ps| ==> ps[k].arity == 2 || ps[k].arity == 3)
      && (forall k, l :: i <= k < l < |ps| && ps[k].arity == 3 ==> ps[l].arity == 3)
      && (onDefault ==> forall k :: i <= k < |ps| ==> ps[k].arity == 3)
    decreases |ps| - i
  {
    if i < |ps| {
      ShapeScanNone(ps, i + 1, onDefault || ps[i].arity == 3);
    }
  }

  /** A scan from i that stops at j found nothing before j. */
  lemma {:induction false} ScanStops(ps: seq<ParamSpec>, i: nat, onDefault: bool)
    requires i <= |ps| && ShapeScan(ps, i, onDefault).Some?
    ensures ShapeScan(ps[..ShapeScan(ps, i, onDefault).value.0], i, onDefault).None?
    decreases |ps| - i
  {
    var j := ShapeScan(ps, i, onDefault).value.0;
    if i < j {
      ScanStops(ps, i + 1, onDefault || ps[i].arity == 3);
      assert ps[..j][i] == ps[i];
    }
  }

  /** A scan that finds nothing before j stops at j when the spec there
      has the wrong length. */
  lemma {:induction false} ScanReaches(ps: seq<ParamSpec>, j: nat, i: nat, onDefault: bool)
    requires i <= j < |ps| && ps[j].arity != 2 && ps[j].arity != 3
    requires ShapeScan(ps[..j], i, onDefault).None?
    ensures ShapeScan(ps, i, onDefault) == Some((j, IncorrectFormat))
    decreases j - i
  {
    if i < j {
      assert ps[..j][i] == ps[i];
      ScanReaches(ps, j, i + 1, onDefault || ps[i].arity == 3);
    }
  }

  /** The shape scan of validateParams finds nothing exactly on a
      well-shaped list. */
  lemma ScanNoneShape(ps: seq<ParamSpec>)
    ensures ShapeScan(ps, 0, false).None? <==> ShapeOk(ps)
  {
    ShapeScanNone(ps, 0, false);
    if ShapeScan(ps, 0, false).None? {
      assert ShapeOk(ps) by {
        forall i, j | 0 <= i < j < |ps| && ps[i].arity == 3 ensures ps[j].arity == 3 {
          assert ps[i].arity == 3 && i >= 0;
        }
      }
    }
  }

  /** validateParams fails with an uncaught IndexError, rather than its own
      exception, exactly when the first spec breaking the shape rules is
      empty. */
  lemma EmptySpecRaises(ps: seq<ParamSpec>)
    ensures Validation(ps) == Fail(Runtime) <==>
      exists j :: 0 <= j < |ps| && ps[j].arity == 0 && ShapeOk(ps[..j])
  {
    var scan := ShapeScan(ps, 0, false);
    if Validation(ps) == Fail(Runtime) {
      var j := scan.value.0;
      ScanStops(ps, 0, false);
      ScanNoneShape(ps[..j]);
    }
    if exists j :: 0 <= j < |ps| && ps[j].arity == 0 && ShapeOk(ps[..j]) {
      var j :| 0 <= j < |ps| && ps[j].arity == 0 && ShapeOk(ps[..j]);
      ScanNoneShape(ps[..j]);
      ScanReaches(ps, j, 0, false);
    }
  }

  /** In a well-shaped spec list the required parameters are exactly the
      ones before the first default. */
  lemma ShapeSplit(ps: seq<ParamSpec>)
    requires ShapeOk(ps)
    ensures forall k :: 0 <= k < |ps| ==> (k < LeadingTwos(ps) <==> ps[k].arity == 2)
  {
    var n := LeadingTwos(ps);
    forall k | n <= k < |ps| ensures ps[k].arity == 3 {
      assert ps[n].arity == 3;
    }
  }

  // ---------------------------------------------------------------------
  // Strings

  predicate StartsWith(s: string, c: char) { |s| > 0 && s[0] == c }
  predicate EndsWith(s: string, c: char) { |s| > 0 && s[|s| - 1] == c }

  /** Python's `sub in s` for a non-empty substring. */
  predicate Contains(s: string, sub: string)
    requires sub != []
    decreases |s|
  {
    |s| >= |sub| && (s[..|sub|] == sub || Contains(s[1..], sub))
  }

  /** Python's str.split(sep): the pieces between non-overlapping
      occurrences of sep, scanning from the left. */
  function SplitOn(s: string, sep: string): (r: seq<string>)
    requires sep != []
    ensures |r| >= 1
    decreases |s|
  {
    if |s| < |sep| then [s]
    else if s[..|sep|] == sep then [""] + SplitOn(s[|sep|..], sep)
    else
      var t := SplitOn(s[1..], sep);
      [[s[0]] + t[0]] + t[1..]
  }

  /** Python's sep.join(parts). */
  function Join(parts: seq<string>, sep: string): string
    requires |parts| >= 1
  {
    if |parts| == 1 then parts[0] else parts[0] + sep + Join(parts[1..], sep)
  }

  /** Splitting and joining back on the same separator gives the string. */
  lemma {:induction false} SplitJoin(s: string, sep: string)
    requires sep != []
    ensures Join(SplitOn(s, sep), sep) == s
    decreases |s|
  {
    if |s| < |sep| {
    } else if s[..|sep|] == sep {
      SplitJoin(s[|sep|..], sep);
      JoinAtSep(s, sep, SplitOn(s[|sep|..], sep));
    } else {
      SplitJoin(s[1..], sep);
      JoinAtChar(s, sep, SplitOn(s[1..], sep));
    }
  }

  /** The step of SplitJoin at a separator: an empty piece, then the rest. */
  lemma JoinAtSep(s: string, sep: string, t: seq<string>)
    requires sep != [] && |s| >= |sep| && s[..|sep|] == sep
    requires |t| >= 1 && Join(t, sep) == s[|sep|..]
    ensures Join([""] + t, sep) == s
  {
    var r := [""] + t;
    assert r[1..] == t;
    assert Join(r, sep) == "" + sep + Join(t, sep);
    assert s == s[..|sep|] + s[|sep|..];
  }

  /** The step of SplitJoin at any other character: it starts the first piece. */
  lemma JoinAtChar(s: string, sep: string, t: seq<string>)
    requires sep != [] && |s| >= 1
    requires |t| >= 1 && Join(t, sep) == s[1..]
    ensures Join([[s[0]] + t[0]] + t[1..], sep) == s
  {
    var r := [[s[0]] + t[0]] + t[1..];
    assert s == [s[0]] + s[1..];
    if |t| > 1 {
      assert r[1..] == t[1..];
      calc {
        Join(r, sep);
        ([s[0]] + t[0]) + sep + Join(t[1..], sep);
        [s[0]] + (t[0] + sep + Join(t[1..], sep));
        [s[0]] + Join(t, sep);
      }
    }
  }

  /** No piece of a string split on a one-character separator contains it,
      and there is one piece more than there are separators. */
  lemma {:induction false} SplitCharPieces(s: string, c: char)
    ensures forall k :: 0 <= k < |SplitOn(s, [c])| ==> c !in SplitOn(s, [c])[k]
    ensures |SplitOn(s, [c])| == multiset(s)[c] + 1
    decreases |s|
  {
    if |s| >= 1 {
      SplitCharPieces(s[1..], c);
      assert s == [s[0]] + s[1..];
      assert s[..1] == [s[0]];
    }
  }

  /** A string without the separator is not split. */
  lemma {:induction false} SplitAbsent(s: string, sep: string)
    requires sep != [] && !Contains(s, sep)
    ensures SplitOn(s, sep) == [s]
    decreases |s|
  {
    if |s| >= |sep| {
      SplitAbsent(s[1..], sep);
      assert [s[0]] + s[1..] == s;
    }
  }

  // ---------------------------------------------------------------------
  // IO specification override

  /** An instance's IO lists after __parseIOSpec, the result telling whether
      an IO spec was present; on an error, the lists as far as they were
      updated before it. */
  datatype IOState = IOState(present: Result<bool>, inputs: seq<string>, outputs: seq<string>)

  /** __parseIOSpec on the instance's lists and its raw arguments. */
  function IOSpec(inputs: seq<string>, outputs: seq<string>, args: seq<string>): IOState
  {
    if args == [] || !StartsWith(args[0], '(') then IOState(Ok(false), inputs, outputs)
    else if !EndsWith(args[0], ')') then IOState(Err(ParseIOSpec(UnbalancedBrackets)), inputs, outputs)
    else
      var spec := args[0][1..|args[0]| - 1];
      var halves := if Contains(spec, "->") then SplitOn(spec, "->") else [spec, ""];
      if |halves| != 2 then IOState(Err(Runtime), inputs, outputs)
      else if halves[0] == "" then OutputOverride(inputs, outputs, halves[1])
      else
        var io := SplitOn(halves[0], ",");
        if |io| != |inputs| then IOState(Err(ParseIOSpec(InputLengthMismatch)), inputs, outputs)
        else OutputOverride(io, if inputs == outputs then io else outputs, halves[1])
  }

  /** The output half of __parseIOSpec, after the input half. */
  function OutputOverride(inputs: seq<string>, outputs: seq<string>, outSpec: string): IOState
  {
    if outSpec == "" then IOState(Ok(true), inputs, outputs)
    else
      var io := SplitOn(outSpec, ",");
      if |io| != |outputs| then IOState(Err(ParseIOSpec(OutputLengthMismatch)), inputs, outputs)
      else IOState(Ok(true), inputs, io)
  }

  /** Arguments that do not start with an IO spec leave the lists alone. */
  lemma NoIOSpec(inputs: seq<string>, outputs: seq<string>, args: seq<string>)
    requires args == [] || !StartsWith(args[0], '(')
    ensures IOSpec(inputs, outputs, args) == IOState(Ok(false), inputs, outputs)
  {
  }

  /** The names an IO spec can list: without a comma and without an
      arrow. */
  predicate IOName(n: string)
  {
    ',' !in n && !Contains(n, "->")
  }

  /** Renaming the inputs of an in-place task, `(a,b)`, renames its outputs
      alike; renaming the inputs of any other task keeps its outputs. */
  lemma {:induction false} RenameInputs(inputs: seq<string>, outputs: seq<string>, names: seq<string>, rest: seq<string>)
    requires |names| == |inputs| >= 1
    requires forall k :: 0 <= k < |names| ==> IOName(names[k])
    requires Join(names, ",") != ""
    ensures IOSpec(inputs, outputs, ["(" + Join(names, ",") + ")"] + rest) ==
      IOState(Ok(true), names, if inputs == outputs then names else outputs)
  {
    InputArgHalves(inputs, outputs, names, rest);
  }

  /** An input rename of the wrong length is an error that leaves both
      lists alone. */
  lemma {:induction false} InputMismatch(inputs: seq<string>, outputs: seq<string>, names: seq<string>, rest: seq<string>)
    requires |names| != |inputs| && |names| >= 1
    requires forall k :: 0 <= k < |names| ==> IOName(names[k])
    requires Join(names, ",") != ""
    ensures IOSpec(inputs, outputs, ["(" + Join(names, ",") + ")"] + rest) ==
      IOState(Err(ParseIOSpec(InputLengthMismatch)), inputs, outputs)
  {
    InputArgHalves(inputs, outputs, names, rest);
  }

  /** Redirecting the outputs, `(->a,b)`, keeps the inputs. */
  lemma {:induction false} RenameOutputs(inputs: seq<string>, outputs: seq<string>, names: seq<string>, rest: seq<string>)
    requires |names| == |outputs| >= 1
    requires forall k :: 0 <= k < |names| ==> IOName(names[k])
    requires Join(names, ",") != ""
    ensures IOSpec(inputs, outputs, ["(->" + Join(names, ",") + ")"] + rest) == IOState(Ok(true), inputs, names)
  {
    OutputArgHalves(inputs, outputs, names, rest);
  }

  /** An output redirection of the wrong length is an error that leaves
      both lists alone. */
  lemma {:induction false} OutputMismatch(inputs: seq<string>, outputs: seq<string>, names: seq<string>, rest: seq<string>)
    requires |names| != |outputs| && |names| >= 1
    requires forall k :: 0 <= k < |names| ==> IOName(names[k])
    requires Join(names, ",") != ""
    ensures IOSpec(inputs, outputs, ["(->" + Join(names, ",") + ")"] + rest) ==
      IOState(Err(ParseIOSpec(OutputLengthMismatch)), inputs, outputs)
  {
    OutputArgHalves(inputs, outputs, names, rest);
  }

  /** Renaming both, `(a,b->c)`: the inputs take the first names and the
      outputs the second ones, also for an in-place task. */
  lemma {:induction false} RenameBoth(inputs: seq<string>, outputs: seq<string>, ins: seq<string>, outs: seq<string>, rest: seq<string>)
    requires |ins| == |inputs| >= 1 && |outs| == |outputs| >= 1
    requires forall k :: 0 <= k < |ins| ==> IOName(ins[k])
    requires forall k :: 0 <= k < |outs| ==> IOName(outs[k])
    requires Join(ins, ",") != "" && Join(outs, ",") != ""
    ensures IOSpec(inputs, outputs, ["(" + Join(ins, ",") + "->" + Join(outs, ",") + ")"] + rest) ==
      IOState(Ok(true), ins, outs)
  {
    var i, o := Join(ins, ","), Join(outs, ",");
    var arg := "(" + i + "->" + o + ")";
    assert arg[1..|arg| - 1] == i + "->" + o;
    JoinNoArrow(ins);
    JoinNoArrow(outs);
    SplitArrow(i, o);
    JoinSplits(ins);
    JoinSplits(outs);
  }

  /** An argument that opens a bracket it does not close is an unbalanced
      IO spec, and the lists stay as they were. */
  lemma UnbalancedIO(inputs: seq<string>, outputs: seq<string>, arg: string, rest: seq<string>)
    requires StartsWith(arg, '(') && !EndsWith(arg, ')')
    ensures IOSpec(inputs, outputs, [arg] + rest) == IOState(Err(ParseIOSpec(UnbalancedBrackets)), inputs, outputs)
  {
  }

  /** `(a,b)`: the spec has no arrow, so it is all input half. */
  lemma InputArgHalves(inputs: seq<string>, outputs: seq<string>, names: seq<string>, rest: seq<string>)
    requires |names| >= 1
    requires forall k :: 0 <= k < |names| ==> IOName(names[k])
    requires Join(names, ",") != ""
    ensures var io := SplitOn(Join(names, ","), ",");
      IOSpec(inputs, outputs, ["(" + Join(names, ",") + ")"] + rest) ==
      (if |io| != |inputs| then IOState(Err(ParseIOSpec(InputLengthMismatch)), inputs, outputs)
       else OutputOverride(io, if inputs == outputs then io else outputs, ""))
    ensures SplitOn(Join(names, ","), ",") == names
  {
    var spec := Join(names, ",");
    var arg := "(" + spec + ")";
    assert arg[1..|arg| - 1] == spec;
    JoinSplits(names);
    JoinNoArrow(names);
  }

  /** `(->a,b)`: the input half is empty, the output half the names. */
  lemma OutputArgHalves(inputs: seq<string>, outputs: seq<string>, names: seq<string>, rest: seq<string>)
    requires |names| >= 1
    requires forall k :: 0 <= k < |names| ==> IOName(names[k])
    requires Join(names, ",") != ""
    ensures IOSpec(inputs, outputs, ["(->" + Join(names, ",") + ")"] + rest) == OutputOverride(inputs, outputs, Join(names, ","))
    ensures SplitOn(Join(names, ","), ",") == names
  {
    var j := Join(names, ",");
    OutputBrackets(j);
    JoinNoArrow(names);
    LeadingArrow(j);
    OutputOnlySpec(inputs, outputs, "(->" + j + ")", j, rest);
    JoinSplits(names);
  }

  /** A bracketed spec that splits at its only arrow into an empty input
      half is all output override. */
  lemma OutputOnlySpec(inputs: seq<string>, outputs: seq<string>, arg: string, j: string, rest: seq<string>)
    requires |arg| >= 2 && arg[0] == '(' && arg[|arg| - 1] == ')'
    requires var spec := arg[1..|arg| - 1]; Contains(spec, "->") && SplitOn(spec, "->") == ["", j]
    ensures IOSpec(inputs, outputs, [arg] + rest) == OutputOverride(inputs, outputs, j)
  {
    assert ([arg] + rest)[0] == arg;
  }

  /** Joining comma-free names and splitting back on commas gives the names. */
  lemma {:induction false} JoinSplits(names: seq<string>)
    requires |names| >= 1
    requires forall k :: 0 <= k < |names| ==> ',' !in names[k]
    ensures SplitOn(Join(names, ","), ",") == names
    decreases |names|
  {
    if |names| == 1 {
      SplitNoSep(names[0], ',');
    } else {
      JoinSplits(names[1..]);
      SplitPrefix(names[0], ',', Join(names[1..], ","));
    }
  }

  /** A string free of the separator character splits into itself. */
  lemma {:induction false} SplitNoSep(w: string, c: char)
    requires c !in w
    ensures SplitOn(w, [c]) == [w]
    decreases |w|
  {
    if |w| >= 1 {
      assert w[..1] == [w[0]];
      SplitNoSep(w[1..], c);
      assert [w[0]] + w[1..] == w;
    }
  }

  /** Splitting at the first separator character. */
  lemma {:induction false} SplitPrefix(w: string, c: char, rest: string)
    requires c !in w
    ensures SplitOn(w + [c] + rest, [c]) == [w] + SplitOn(rest, [c])
    decreases |w|
  {
    var s := w + [c] + rest;
    if w == [] {
      assert s[..1] == [c];
      assert s[1..] == rest;
    } else {
      assert s[..1] == [w[0]];
      assert s[1..] == w[1..] + [c] + rest;
      SplitPrefix(w[1..], c, rest);
      assert [w[0]] + w[1..] == w;
    }
  }

  /** Joining arrow-free names with commas makes no arrow: a comma can
      neither start nor end one. */
  lemma {:induction false} JoinNoArrow(names: seq<string>)
    requires |names| >= 1
    requires forall k :: 0 <= k < |names| ==> !Contains(names[k], "->")
    ensures !Contains(Join(names, ","), "->")
    decreases |names|
  {
    if |names| > 1 {
      JoinNoArrow(names[1..]);
      GlueNoArrow(names[0], ',', Join(names[1..], ","));
    }
  }

  /** Gluing two arrow-free strings with a character that is part of no
      arrow makes no arrow. */
  lemma {:induction false} GlueNoArrow(a: string, c: char, b: string)
    requires c != '-' && c != '>'
    requires !Contains(a, "->") && !Contains(b, "->")
    ensures !Contains(a + [c] + b, "->")
    decreases |a|
  {
    var s := a + [c] + b;
    if a == [] {
      if |s| >= 2 {
        assert s[..2][0] == c;
      }
      assert s[1..] == b;
    } else {
      assert s[..2][0] == a[0];
      assert s[..2][1] == if |a| >= 2 then a[1] else c;
      if |a| >= 2 {
        assert a[..2][1] == a[1];
      }
      assert s[1..] == a[1..] + [c] + b;
      GlueNoArrow(a[1..], c, b);
    }
  }

  lemma OutputBrackets(j: string)
    ensures var arg := "(->" + j + ")"; |arg| >= 2 && arg[1..|arg| - 1] == "->" + j
  {
    var arg := "(->" + j + ")";
    assert forall k :: 0 <= k < |arg| - 2 ==> arg[1..|arg| - 1][k] == ("->" + j)[k];
  }

  /** A spec that opens with the only arrow has an empty input half. */
  lemma LeadingArrow(j: string)
    requires !Contains(j, "->")
    ensures Contains("->" + j, "->") && SplitOn("->" + j, "->") == ["", j]
  {
    var e: string := [];
    assert e + "->" + j == "->" + j;
    SplitArrow(e, j);
  }

  /** An arrow between two arrow-free strings is found, and splitting on
      it gives the two strings. */
  lemma {:induction false} SplitArrow(a: string, b: string)
    requires !Contains(a, "->") && !Contains(b, "->")
    ensures Contains(a + "->" + b, "->")
    ensures SplitOn(a + "->" + b, "->") == [a, b]
    decreases |a|
  {
    var s := a + "->" + b;
    if a == [] {
      assert s[..2] == "->" && s[2..] == b;
      SplitAbsent(b, "->");
    } else {
      assert s[..2][0] == a[0];
      assert s[..2][1] == if |a| >= 2 then a[1] else '-';
      if |a| >= 2 {
        assert a[..2][1] == a[1];
      }
      assert s[1..] == a[1..] + "->" + b;
      SplitArrow(a[1..], b);
      assert [a[0]] + a[1..] == a;
    }
  }

  // ---------------------------------------------------------------------
  // Positional arguments

  /** The defaults of the 3-element specs, in order. */
  function Defaults(ps: seq<ParamSpec>): seq<string>
  {
    if ps == [] then [] else (if ps[0].arity > 2 then [ps[0].default] else []) + Defaults(ps[1..])
  }

  /** Python's s[k:] for any integer k. */
  function SliceFrom<T>(s: seq<T>, k: int): seq<T>
  {
    if k >= 0 then (if k <= |s| then s[k..] else [])
    else if -k <= |s| then s[|s| + k..] else s
  }

  /** The argument list __parseArgs decodes, from the class counters: the
      count errors, or the arguments followed by the defaults of the
      parameters they leave unfilled. */
  function FilledArgs(ps: seq<ParamSpec>, required: nat, maximum: nat, args: seq<string>): Result<seq<string>>
  {
    if |args| < required then Err(ArgsList(false))
    else if |args| > maximum then Err(ArgsList(true))
    else if |args| < maximum then
      var defaults := Defaults(ps);
      Ok(args + SliceFrom(defaults, |defaults| - maximum + |args|))
    else Ok(args)
  }

  /** The attributes an instance holds after __parseArgs and, on a failed
      decode, the error; the attributes set before the failure stay set. */
  datatype ArgsState = ArgsState(outcome: Outcome, attrs: map<string, Value>)

  /** The decoding loop of __parseArgs from position i, over the pairs zip
      forms of the values and the specs. */
  function DecodeFrom(ps: seq<ParamSpec>, vals: seq<string>, i: nat, attrs: map<string, Value>): ArgsState
    decreases |ps| - i
  {
    if i >= |ps| || i >= |vals| then ArgsState(Pass, attrs)
    else match ps[i].decode(vals[i])
      case None => ArgsState(Fail(ParseArgs(ps[i].name)), attrs)
      case Some(v) => DecodeFrom(ps, vals, i + 1, attrs[ps[i].name := v])
  }

  /** __parseArgs on the class counters and an instance's attributes. */
  function ArgsSpec(ps: seq<ParamSpec>, required: nat, maximum: nat, args: seq<string>, attrs: map<string, Value>): ArgsState
  {
    match FilledArgs(ps, required, maximum, args)
    case Err(e) => ArgsState(Fail(e), attrs)
    case Ok(vals) => DecodeFrom(ps, vals, 0, attrs)
  }

  /** In a well-shaped spec list the defaults are those of the parameters
      after the required ones. */
  lemma {:induction false} DefaultsTail(ps: seq<ParamSpec>)
    requires ShapeOk(ps)
    ensures |Defaults(ps)| == |ps| - LeadingTwos(ps)
    ensures forall k :: LeadingTwos(ps) <= k < |ps| ==> Defaults(ps)[k - LeadingTwos(ps)] == ps[k].default
    decreases |ps|
  {
    if ps != [] {
      var t := ps[1..];
      assert ShapeOk(t) by {
        forall i, j | 0 <= i < j < |t| && t[i].arity == 3 ensures t[j].arity == 3 {
          assert ps[i + 1].arity == 3;
        }
      }
      DefaultsTail(t);
      if ps[0].arity == 3 && |t| > 0 {
        assert t[0].arity == 3;
      }
    }
  }

  /** With counters from a successful validation, an argument count between
      the required and the maximum is accepted, and every parameter left
      unfilled takes its own default. */
  lemma FilledWithDefaults(ps: seq<ParamSpec>, args: seq<string>) returns (vals: seq<string>)
    requires ShapeOk(ps)
    requires LeadingTwos(ps) <= |args| <= |ps|
    ensures FilledArgs(ps, LeadingTwos(ps), |ps|, args) == Ok(vals)
    ensures |vals| == |ps| && vals[..|args|] == args
    ensures forall k :: |args| <= k < |ps| ==> vals[k] == ps[k].default
  {
    var n := LeadingTwos(ps);
    var d := Defaults(ps);
    if |args| < |ps| {
      assert |d| == |ps| - n by { DefaultsTail(ps); }
      var tail := d[|args| - n..];
      assert FilledArgs(ps, n, |ps|, args) == Ok(args + tail) by {
        assert |d| - |ps| + |args| == |args| - n;
      }
      assert |args + tail| == |ps| && (args + tail)[..|args|] == args &&
        forall k :: |args| <= k < |ps| ==> (args + tail)[k] == ps[k].default by {
        DefaultsTail(ps);
        FillTail(args, tail, ps, |args| - n, d, n);
      }
      vals := args + tail;
    } else {
      vals := args;
    }
  }

  lemma FillTail(args: seq<string>, tail: seq<string>, ps: seq<ParamSpec>, off: nat, d: seq<string>, n: nat)
    requires n <= |args| < |ps| && off == |args| - n && |d| == |ps| - n && tail == d[off..]
    requires forall k :: n <= k < |ps| ==> d[k - n] == ps[k].default
    ensures |args + tail| == |ps| && (args + tail)[..|args|] == args
    ensures forall k :: |args| <= k < |ps| ==> (args + tail)[k] == ps[k].default
  {
    forall k | |args| <= k < |ps| ensures (args + tail)[k] == ps[k].default {
      assert (args + tail)[k] == tail[k - |args|] == d[k - n];
    }
  }

  /** The argument count errors: too few below the required count, too many
      above the maximum. */
  lemma CountErrors(ps: seq<ParamSpec>, required: nat, maximum: nat, args: seq<string>)
    ensures FilledArgs(ps, required, maximum, args).Err? <==> |args| < required || |args| > maximum
    ensures |args| < required ==> FilledArgs(ps, required, maximum, args) == Err(ArgsList(false))
    ensures required <= |args| && |args| > maximum ==> FilledArgs(ps, required, maximum, args) == Err(ArgsList(true))
  {
  }

  /** Decoding fails exactly when some zipped value does not decode, and the
      first such parameter is the one reported. */
  lemma {:induction false} DecodeFails(ps: seq<ParamSpec>, vals: seq<string>, i: nat, attrs: map<string, Value>)
    ensures DecodeFrom(ps, vals, i, attrs).outcome.Fail? <==>
      exists k :: i <= k < |ps| && k < |vals| && ps[k].decode(vals[k]).None?
    ensures DecodeFrom(ps, vals, i, attrs).outcome.Fail? ==> DecodeFrom(ps, vals, i, attrs).outcome.error.ParseArgs?
    decreases |ps| - i
  {
    if i < |ps| && i < |vals| && ps[i].decode(vals[i]).Some? {
      DecodeFails(ps, vals, i + 1, attrs[ps[i].name := ps[i].decode(vals[i]).value]);
    }
  }

  /** With distinct parameter names, a successful decode sets each
      parameter's attribute to its decoded value and leaves every other
      attribute as it was. */
  lemma {:induction false} DecodeSets(ps: seq<ParamSpec>, vals: seq<string>, i: nat, attrs: map<string, Value>)
    requires |vals| == |ps| && i <= |ps|
    requires forall k, l :: 0 <= k < l < |ps| ==> ps[k].name != ps[l].name
    requires DecodeFrom(ps, vals, i, attrs).outcome.Pass?
    ensures forall k :: i <= k < |ps| ==>
      && ps[k].decode(vals[k]).Some? && ps[k].name in DecodeFrom(ps, vals, i, attrs).attrs
      && DecodeFrom(ps, vals, i, attrs).attrs[ps[k].name] == ps[k].decode(vals[k]).value
    ensures forall key :: key in attrs && (forall k :: i <= k < |ps| ==> ps[k].name != key) ==>
      key in DecodeFrom(ps, vals, i, attrs).attrs && DecodeFrom(ps, vals, i, attrs).attrs[key] == attrs[key]
    decreases |ps| - i
  {
    if i < |ps| {
      var v := ps[i].decode(vals[i]).value;
      DecodeSets(ps, vals, i + 1, attrs[ps[i].name := v]);
    }
  }

  // ---------------------------------------------------------------------
  // Reducers

  /** The reducer's fold: each later item is reduced into the accumulator,
      the item first and the accumulator second. */
  function Fold(red: (Value, Value) -> Value, acc: Value, items: seq<Value>): Value
    decreases |items|
  {
    if items == [] then acc else Fold(red, red(items[0], acc), items[1..])
  }

  /** Reducing one more item extends the fold: streaming items through
      action_first and action_every reaches what action_final computes. */
  lemma {:induction false} FoldSnoc(red: (Value, Value) -> Value, acc: Value, items: seq<Value>, x: Value)
    ensures Fold(red, acc, items + [x]) == red(x, Fold(red, acc, items))
    decreases |items|
  {
    if items != [] {
      assert (items + [x])[1..] == items[1..] + [x];
      FoldSnoc(red, red(items[0], acc), items[1..], x);
    }
  }

  /** SumReduce's reduction on integers. */
  function SumReduction(a: Value, b: Value): Value
  {
    if a.Int? && b.Int? then Int(a.i + b.i) else Nothing
  }

  function Sum(xs: seq<int>): int
  {
    if xs == [] then 0 else xs[0] + Sum(xs[1..])
  }

  function Ints(xs: seq<int>): (r: seq<Value>)
    ensures |r| == |xs| && forall k :: 0 <= k < |xs| ==> r[k] == Int(xs[k])
  {
    if xs == [] then [] else [Int(xs[0])] + Ints(xs[1..])
  }

  /** SumReduce folds integer items into their sum. */
  lemma {:induction false} SumFold(acc: int, xs: seq<int>)
    ensures Fold(SumReduction, Int(acc), Ints(xs)) == Int(acc + Sum(xs))
    decreases |xs|
  {
    if xs != [] {
      assert Ints(xs)[1..] == Ints(xs[1..]);
      SumFold(xs[0] + acc, xs[1..]);
    }
  }

  /** The reduction of the items 3, 5, 8, 0, 2 is 18. */
  lemma SumExample()
    ensures Fold(SumReduction, Int(3), Ints([5, 8, 0, 2])) == Int(18)
  {
    SumFold(3, [5, 8, 0, 2]);
  }

  /** What a task class's validateParams decides: the reducer's IO check
      first, for reducers, then the parameter validation. */
  function TypeCheck(kind: Kind, ps: seq<ParamSpec>, inputs: seq<string>, outputs: seq<string>): Outcome
  {
    if kind == Reducer && (|inputs| != 1 || |outputs| != 1) then Fail(User) else Validation(ps)
  }

  // ---------------------------------------------------------------------
  // Task instances

  /** A task instance: its own IO lists, its decoded parameters as named
      attributes and, for reducers, the accumulator and which of
      action_first and action_every its action currently is. */
  class Task {
    const ty: TaskType
    var inputs: seq<string>
    var outputs: seq<string>
    var attrs: map<string, Value>
    var accumulator: Value
    var folding: bool

    /** A fresh instance reads the class's IO lists. */
    constructor (ty: TaskType)
      ensures this.ty == ty && inputs == ty.inputs && outputs == ty.outputs
      ensures attrs == map[] && accumulator == Nothing && !folding
    {
      this.ty := ty;
      inputs, outputs := ty.inputs, ty.outputs;
      attrs := map[];
      accumulator := Nothing;
      folding := false;
    }

    function GetInputs(): seq<string>
      reads this
    {
      inputs
    }

    function GetOutputs(): seq<string>
      reads this
    {
      outputs
    }

    /** __parseIOSpec: applies the IO override the first argument carries,
        if any, and tells whether there was one. */
    method ParseIOSpec(args: seq<string>) returns (r: Result<bool>)
      modifies this`inputs, this`outputs
      ensures var io := IOSpec(old(inputs), old(outputs), args);
        r == io.present && inputs == io.inputs && outputs == io.outputs
    {
      var io := IOSpec(inputs, outputs, args);
      inputs, outputs := io.inputs, io.outputs;
      r := io.present;
    }

    /** __parseArgs: checks the argument count against the class counters,
        fills in defaults and decodes each argument into its attribute. */
    method ParseArgs(args: seq<string>) returns (o: Outcome)
      modifies this`attrs
      ensures var a := ArgsSpec(ty.params, ty.requiredArgs, ty.maximumArgs, args, old(attrs));
        o == a.outcome && attrs == a.attrs
    {
      var filled := FilledArgs(ty.params, ty.requiredArgs, ty.maximumArgs, args);
      if filled.Err? {
        return Fail(filled.error);
      }
      var vals := filled.value;
      var i := 0;
      while i < |ty.params| && i < |vals|
        invariant 0 <= i
        invariant DecodeFrom(ty.params, vals, i, attrs) == ArgsSpec(ty.params, ty.requiredArgs, ty.maximumArgs, args, old(attrs))
        decreases |ty.params| - i
      {
        var p := ty.params[i];
        var v := p.decode(vals[i]);
        if v.None? {
          return Fail(Error.ParseArgs(p.name));
        }
        attrs := attrs[p.name := v.value];
        i := i + 1;
      }
      o := Pass;
    }

    /** The constructor of BaseProcessor: validates the class on first use,
        then configures the task from its arguments. */
    method Init(args: seq<string>) returns (o: Outcome)
      requires ty.Valid()
      modifies this`inputs, this`outputs, this`attrs, this`folding
      modifies ty`name, ty`requiredArgs, ty`maximumArgs, ty`isValid
      ensures ty.Valid()
      ensures old(ty.isValid) ==> unchanged(ty)
      ensures !old(ty.isValid) ==>
        var reducer := ty.kind == Reducer;
        var badIO := |ty.inputs| != 1 || |ty.outputs| != 1;
        && ty.name == (if reducer && !badIO then "reduce_" + old(ty.name) else old(ty.name))
        && (ty.requiredArgs, ty.maximumArgs) ==
             (if reducer && badIO then (old(ty.requiredArgs), old(ty.maximumArgs)) else ShapeCounters(ty.params))
      ensures !old(ty.isValid) && TypeCheck(ty.kind, ty.params, ty.inputs, ty.outputs).Fail? ==>
        && o == TypeCheck(ty.kind, ty.params, ty.inputs, ty.outputs)
        && inputs == old(inputs) && outputs == old(outputs) && attrs == old(attrs) && folding == old(folding)
      ensures old(ty.isValid) || TypeCheck(ty.kind, ty.params, ty.inputs, ty.outputs).Pass? ==>
        && ty.isValid
        && var io := IOSpec(old(inputs), old(outputs), args);
        && inputs == io.inputs && outputs == io.outputs
        && (io.present.Err? ==> o == Fail(io.present.error) && attrs == old(attrs) && folding == old(folding))
        && (io.present.Ok? ==>
              var a := ArgsSpec(ty.params, LeadingTwos(ty.params), |ty.params|,
                                if io.present.value then args[1..] else args, old(attrs));
              && o == a.outcome && attrs == a.attrs
              && folding == (if o.Pass? && ty.kind == Reducer then false else old(folding)))
    {
      if !ty.isValid {
        var v := ty.Validate();
        if v.Fail? {
          return v;
        }
      }
      o := Configure(args);
    }

    /** The constructor of BaseProcessor on a validated class: applies the
        IO spec and drops it from the arguments, then parses the arguments;
        a reducer's action starts as action_first. */
    method Configure(args: seq<string>) returns (o: Outcome)
      requires ty.Valid() && ty.isValid
      modifies this`inputs, this`outputs, this`attrs, this`folding
      ensures var io := IOSpec(old(inputs), old(outputs), args);
        && inputs == io.inputs && outputs == io.outputs
        && (io.present.Err? ==> o == Fail(io.present.error) && attrs == old(attrs) && folding == old(folding))
        && (io.present.Ok? ==>
              var a := ArgsSpec(ty.params, LeadingTwos(ty.params), |ty.params|,
                                if io.present.value then args[1..] else args, old(attrs));
              && o == a.outcome && attrs == a.attrs
              && folding == (if o.Pass? && ty.kind == Reducer then false else old(folding)))
    {
      var present := ParseIOSpec(args);
      if present.Err? {
        return Fail(present.error);
      }
      var rest := if present.value then args[1..] else args;
      o := ParseArgs(rest);
      if o.Pass? && ty.kind == Reducer {
        folding := false;
      }
    }

    /** action_first: the first item becomes the accumulator and the action
        switches to action_every. */
    method ActionFirst(item: Value)
      modifies this`accumulator, this`folding
      ensures accumulator == item && folding
    {
      accumulator := item;
      folding := true;
    }

    /** action_every: reduces the item into the accumulator. */
    method ActionEvery(item: Value)
      modifies this`accumulator
      ensures accumulator == ty.reduction(item, old(accumulator))
    {
      accumulator := ty.reduction(item, accumulator);
    }

    /** A reducer's current action on one item. */
    method Action(item: Value)
      modifies this`accumulator, this`folding
      ensures folding
      ensures accumulator == if old(folding) then ty.reduction(item, old(accumulator)) else item
    {
      if folding {
        ActionEvery(item);
      } else {
        ActionFirst(item);
      }
    }

    /** action_final: reduces a whole list, its first item being the initial
        accumulator, and returns the final transform of the result; an empty
        list is an IndexError. */
    method ActionFinal(items: seq<Value>) returns (r: Result<Value>)
      modifies this`accumulator
      ensures items == [] ==> r == Err(Runtime) && accumulator == old(accumulator)
      ensures items != [] ==>
        accumulator == Fold(ty.reduction, items[0], items[1..]) && r == Ok(ty.final(accumulator))
    {
      if items == [] {
        return Err(Runtime);
      }
      accumulator := items[0];
      var k := 1;
      while k < |items|
        invariant 1 <= k <= |items|
        invariant Fold(ty.reduction, accumulator, items[k..]) == Fold(ty.reduction, items[0], items[1..])
      {
        assert items[k..][1..] == items[k + 1..];
        ActionEvery(items[k]);
        k := k + 1;
      }
      r := Ok(ty.final(accumulator));
    }

    /** output: the final transform of the accumulator. */
    function Output(): Value
      reads this
    {
      ty.final(accumulator)
    }
  }
}
