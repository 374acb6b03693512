/** The assembler of muFlow (muFlow/assembler.py, class Assembler): the
    normalisation of an IO override's brackets on a line of flow text,
    the construction of a task from a line through the registries of
    serial and parallel task classes, and the assembly of a whole text
    into a macro flow. */
module Assembly {
  import opened Errors
  import opened BaseTasks
  import opened Engine
  import opened Flow
  import opened Micro
  import opened Macro

  // ---------------------------------------------------------------------
  // Whitespace and words

  /** The characters Python's str.split() without arguments splits on
      (str.isspace). */
  predicate IsSpace(c: char)
  {
    var n := c as int;
    || 9 <= n <= 13 || 28 <= n <= 32 || n == 0x85 || n == 0xA0 || n == 0x1680
    || 0x2000 <= n <= 0x200A || n == 0x2028 || n == 0x2029 || n == 0x202F || n == 0x205F || n == 0x3000
  }

  predicate NoSpace(w: string)
  {
    forall i :: 0 <= i < |w| ==> !IsSpace(w[i])
  }

  /** The words of s, the current partial word being cur. */
  function Words(s: string, cur: string): seq<string>
    decreases |s|
  {
    if s == [] then (if cur == [] then [] else [cur])
    else if IsSpace(s[0]) then (if cur == [] then [] else [cur]) + Words(s[1..], [])
    else Words(s[1..], cur + [s[0]])
  }

  /** str.split(): the maximal runs of non-whitespace characters. */
  function SplitWS(s: string): seq<string>
  {
    Words(s, [])
  }

  /** ''.join(words). */
  function Concat(words: seq<string>): string
  {
    if words == [] then [] else words[0] + Concat(words[1..])
  }

  /** The despace helper of assembleFromText: ''.join(x.split()). */
  function Despace(x: string): string
  {
    Concat(SplitWS(x))
  }

  /** The string with every whitespace character removed. */
  function Strip(x: string): (r: string)
    ensures NoSpace(r)
  {
    if x == [] then []
    else if IsSpace(x[0]) then Strip(x[1..])
    else [x[0]] + Strip(x[1..])
  }

  /** Every word is non-empty and free of whitespace. */
  lemma {:induction false} WordsShape(s: string, cur: string)
    requires NoSpace(cur)
    ensures forall k :: 0 <= k < |Words(s, cur)| ==> Words(s, cur)[k] != [] && NoSpace(Words(s, cur)[k])
    decreases |s|
  {
    if s != [] {
      if IsSpace(s[0]) {
        WordsShape(s[1..], []);
      } else {
        WordsShape(s[1..], cur + [s[0]]);
      }
    }
  }

  lemma {:induction false} ConcatAppend(a: seq<string>, b: seq<string>)
    ensures Concat(a + b) == Concat(a) + Concat(b)
    decreases |a|
  {
    if a == [] {
      assert a + b == b;
    } else {
      assert (a + b)[1..] == a[1..] + b;
      ConcatAppend(a[1..], b);
    }
  }

  lemma {:induction false} ConcatWords(s: string, cur: string)
    ensures Concat(Words(s, cur)) == cur + Strip(s)
    decreases |s|
  {
    if s == [] {
      if cur != [] {
        assert Concat([cur]) == cur + Concat([]);
      }
    } else if IsSpace(s[0]) {
      ConcatWords(s[1..], []);
      ConcatAtSpace(s, cur);
    } else {
      ConcatWords(s[1..], cur + [s[0]]);
      assert cur + [s[0]] + Strip(s[1..]) == cur + ([s[0]] + Strip(s[1..]));
    }
  }

  /** The step of ConcatWords at a whitespace character, which ends the
      current word. */
  lemma ConcatAtSpace(s: string, cur: string)
    requires s != [] && IsSpace(s[0])
    requires Concat(Words(s[1..], [])) == Strip(s[1..])
    ensures Concat(Words(s, cur)) == cur + Strip(s)
  {
    var head: seq<string> := if cur == [] then [] else [cur];
    assert Words(s, cur) == head + Words(s[1..], []);
    ConcatAppend(head, Words(s[1..], []));
    assert Concat(head) == cur by {
      if cur != [] {
        assert Concat([cur]) == cur + Concat([]);
      }
    }
  }

  /** despace removes exactly the whitespace characters, keeping the rest
      in order. */
  lemma DespaceStrips(x: string)
    ensures Despace(x) == Strip(x)
  {
    ConcatWords(x, []);
  }

  /** A word free of whitespace continues the current word. */
  lemma {:induction false} WordsGlue(w: string, s: string, cur: string)
    requires NoSpace(w)
    ensures Words(w + s, cur) == Words(s, cur + w)
    decreases |w|
  {
    if w == [] {
      assert w + s == s && cur + w == cur;
    } else {
      assert (w + s)[0] == w[0] && (w + s)[1..] == w[1..] + s;
      WordsGlue(w[1..], s, cur + [w[0]]);
      assert cur + [w[0]] + w[1..] == cur + w;
    }
  }

  // ---------------------------------------------------------------------
  // Bracket normalisation

  function Count(s: string, c: char): nat
  {
    multiset(s)[c]
  }

  /** The IO-override normalisation of assembleFromText for line n: a line
      with brackets must have exactly one of each; the text before the
      opening bracket and the text between the brackets lose their
      whitespace, and the bracketed part becomes a word of its own. A
      closing bracket before the opening one leaves nothing to unpack,
      which is a ValueError. */
  function NormalizeLine(line: string, n: nat): Result<string>
  {
    if '(' !in line then Ok(line)
    else if Count(line, '(') > 1 || Count(line, ')') != 1 then Err(BadLine(n))
    else
      var halves := SplitOn(line, "(");
      if |halves| != 2 then Err(Runtime)
      else
        var inner := SplitOn(halves[1], ")");
        if |inner| != 2 then Err(Runtime)
        else Ok(Despace(halves[0]) + " (" + Despace(inner[0]) + ") " + inner[1])
  }

  /** A character occurring once is absent on either side of its position. */
  lemma OnceSplits(s: string, i: nat)
    requires i < |s| && Count(s, s[i]) == 1
    ensures s[i] !in s[..i] && s[i] !in s[i + 1..]
  {
    assert s == s[..i] + [s[i]] + s[i + 1..];
    assert multiset(s) == multiset(s[..i]) + multiset{s[i]} + multiset(s[i + 1..]);
  }

  /** Lines without brackets pass unchanged; a line with brackets is
      rejected as unbalanced exactly when it has more than one opening or
      not exactly one closing bracket. */
  lemma NormalizeRejects(line: string, n: nat)
    ensures '(' !in line ==> NormalizeLine(line, n) == Ok(line)
    ensures NormalizeLine(line, n) == Err(BadLine(n)) <==>
      '(' in line && (Count(line, '(') > 1 || Count(line, ')') != 1)
  {
  }

  /** With one bracket of each kind, at positions i and j, the line is
      normalised exactly when the opening one comes first, and then the
      text before the bracket and the bracketed text are despaced, the
      rest kept. */
  lemma NormalizeBalanced(line: string, n: nat, i: nat, j: nat)
    requires i < |line| && j < |line| && line[i] == '(' && line[j] == ')'
    requires Count(line, '(') == 1 && Count(line, ')') == 1
    ensures NormalizeLine(line, n).Ok? <==> i < j
    ensures NormalizeLine(line, n).Err? ==> NormalizeLine(line, n).error == Runtime
    ensures i < j ==>
      NormalizeLine(line, n) == Ok(Strip(line[..i]) + " (" + Strip(line[i + 1..j]) + ") " + line[j + 1..])
  {
    OnceSplits(line, i);
    OnceSplits(line, j);
    if i < j {
      NormalizeOrdered(line, n, i, j);
    } else {
      NormalizeReversed(line, n, i, j);
    }
  }

  /** A string with one separator character splits into the text before
      it and the text after it. */
  lemma SplitOnce(w: string, c: char, rest: string)
    requires c !in w && c !in rest
    ensures SplitOn(w + [c] + rest, [c]) == [w, rest]
  {
    SplitPrefix(w, c, rest);
    SplitNoSep(rest, c);
  }

  lemma NormalizeOrdered(line: string, n: nat, i: nat, j: nat)
    requires i < j < |line| && line[i] == '(' && line[j] == ')'
    requires Count(line, '(') == 1 && Count(line, ')') == 1
    requires '(' !in line[..i] && '(' !in line[i + 1..] && ')' !in line[..j] && ')' !in line[j + 1..]
    ensures NormalizeLine(line, n) == Ok(Strip(line[..i]) + " (" + Strip(line[i + 1..j]) + ") " + line[j + 1..])
  {
    var pre, mid, post := line[..i], line[i + 1..j], line[j + 1..];
    var tail := mid + [')'] + post;
    assert line == pre + ['('] + tail by {
      assert line[i + 1..] == tail;
    }
    SplitOnce(pre, '(', tail);
    assert ')' !in mid by {
      assert mid == line[..j][i + 1..];
    }
    SplitOnce(mid, ')', post);
    DespaceStrips(pre);
    DespaceStrips(mid);
  }

  lemma NormalizeReversed(line: string, n: nat, i: nat, j: nat)
    requires j < i < |line| && line[i] == '(' && line[j] == ')'
    requires Count(line, '(') == 1 && Count(line, ')') == 1
    requires '(' !in line[..i] && '(' !in line[i + 1..] && ')' !in line[j + 1..]
    ensures NormalizeLine(line, n) == Err(Runtime)
  {
    var c := line[i + 1..];
    assert line == line[..i] + ['('] + c;
    SplitPrefix(line[..i], '(', c);
    SplitNoSep(c, '(');
    assert SplitOn(line, "(") == [line[..i], c];
    assert ')' !in c by {
      assert c == line[j + 1..][i - j..];
    }
    SplitNoSep(c, ')');
  }

  /** The normalised line word by word: the despaced name, the IO override
      as one word, then the words after the bracket. */
  lemma NormalizedWords(pre: string, mid: string, post: string)
    requires Strip(pre) != []
    ensures SplitWS(Strip(pre) + " (" + Strip(mid) + ") " + post) ==
      [Strip(pre), "(" + Strip(mid) + ")"] + SplitWS(post)
  {
    var p, m := Strip(pre), Strip(mid);
    var spec := "(" + m + ")";
    assert NoSpace(spec) by {
      forall k | 0 <= k < |spec| ensures !IsSpace(spec[k]) {
        if 0 < k < |spec| - 1 { assert spec[k] == m[k - 1]; }
      }
    }
    var rest := " " + spec + " " + post;
    assert p + " (" + m + ") " + post == p + rest;
    WordsGlue(p, rest, []);
    assert [] + p == p;
    assert rest[0] == ' ' && rest[1..] == spec + (" " + post);
    WordsGlue(spec, " " + post, []);
    assert [] + spec == spec;
    assert (" " + post)[0] == ' ' && (" " + post)[1..] == post;
  }

  // ---------------------------------------------------------------------
  // Task construction

  /** What a line needs of a registered task class besides its name, which
      is its registry key. */
  datatype TypeInfo = TypeInfo(params: seq<ParamSpec>, inputs: seq<string>, outputs: seq<string>, action: ActionFn)

  /** Instantiating the validated class registered as name on the words
      after its name: the IO override, if any, then the decoded
      parameters. */
  function Instance(name: string, ti: TypeInfo, args: seq<string>): Result<TaskInst>
  {
    var io := IOSpec(ti.inputs, ti.outputs, args);
    if io.present.Err? then Err(io.present.error)
    else
      var a := ArgsSpec(ti.params, LeadingTwos(ti.params), |ti.params|,
                        if io.present.value then args[1..] else args, map[]);
      if a.outcome.Fail? then Err(a.outcome.error)
      else Ok(TaskInst(name, io.inputs, io.outputs, a.attrs, ti.action))
  }

  /** constructTask: the first word names the class, serial ones looked up
      first, and whether it is serial is returned with the task. An empty
      line has no first word, an IndexError. */
  function ConstructSpec(serial: map<string, TypeInfo>, parallel: map<string, TypeInfo>, text: string): Result<(bool, TaskInst)>
  {
    var words := SplitWS(text);
    if words == [] then Err(Runtime)
    else if words[0] in serial then
      match Instance(words[0], serial[words[0]], words[1..])
      case Err(e) => Err(e)
      case Ok(t) => Ok((true, t))
    else if words[0] in parallel then
      match Instance(words[0], parallel[words[0]], words[1..])
      case Err(e) => Err(e)
      case Ok(t) => Ok((false, t))
    else Err(Construct(words[0]))
  }

  /** A line naming a registered class yields a task of that class's name;
      a serial registration hides a parallel one of the same name; a name
      in neither registry is a ConstructException naming it. */
  lemma ConstructNames(serial: map<string, TypeInfo>, parallel: map<string, TypeInfo>, text: string)
    ensures var r := ConstructSpec(serial, parallel, text);
      var words := SplitWS(text);
      && (words == [] ==> r == Err(Runtime))
      && (words != [] && words[0] !in serial && words[0] !in parallel ==> r == Err(Construct(words[0])))
      && (r.Ok? ==> r.value.1.name == words[0] && (r.value.0 <==> words[0] in serial))
  {
  }

  // ---------------------------------------------------------------------
  // Assembly

  /** The task a line of flow text describes: the line normalised, then
      constructed. */
  function LineTask(serial: map<string, TypeInfo>, parallel: map<string, TypeInfo>, text: string, n: nat): Result<(bool, TaskInst)>
  {
    match NormalizeLine(text, n)
    case Err(e) => Err(e)
    case Ok(line) => ConstructSpec(serial, parallel, line)
  }

  /** A constructed task appended to the flow, as serial or parallel. */
  function AppendTaskF(f: Flow, isSerial: bool, t: TaskInst): (Flow, Outcome)
  {
    if isSerial then AppendSerialF(f, t) else AppendParallelF(f, t)
  }

  /** One line of the loop of assembleFromText: its task appended to the
      flow as serial or parallel. */
  function LineStep(serial: map<string, TypeInfo>, parallel: map<string, TypeInfo>, text: string, n: nat, f: Flow): Result<Flow>
  {
    match LineTask(serial, parallel, text, n)
    case Err(e) => Err(e)
    case Ok(c) =>
      var a := AppendTaskF(f, c.0, c.1);
      if a.1.Fail? then Err(a.1.error) else Ok(a.0)
  }

  /** The loop of assembleFromText from line n on, then the final
      completeParallel. */
  function Lines(serial: map<string, TypeInfo>, parallel: map<string, TypeInfo>, lines: seq<string>, n: nat, f: Flow): Result<Flow>
    decreases |lines| - n
  {
    if n >= |lines| then
      var c := CompleteF(f);
      if c.1.Fail? then Err(c.1.error) else Ok(c.0)
    else
      match LineStep(serial, parallel, lines[n], n, f)
      case Err(e) => Err(e)
      case Ok(g) => Lines(serial, parallel, lines, n + 1, g)
  }

  /** The loop goes on from the flow line n leaves, or stops at its error. */
  lemma LinesCons(serial: map<string, TypeInfo>, parallel: map<string, TypeInfo>, lines: seq<string>, n: nat, f: Flow)
    requires n < |lines|
    ensures Lines(serial, parallel, lines, n, f) ==
      match LineStep(serial, parallel, lines[n], n, f)
      case Err(e) => Err(e)
      case Ok(g) => Lines(serial, parallel, lines, n + 1, g)
  {
  }

  function AssembleSpec(serial: map<string, TypeInfo>, parallel: map<string, TypeInfo>, lines: seq<string>): Result<Flow>
  {
    Lines(serial, parallel, lines, 0, EmptyFlow())
  }

  /** How many stages a flow holds, counting an open group. */
  function Size(f: Flow): nat
  {
    |f.stages| + (if f.open.Some? then 1 else 0)
  }

  /** A line keeps the flow invariant and adds at most one stage. */
  lemma LineStepInv(serial: map<string, TypeInfo>, parallel: map<string, TypeInfo>, text: string, n: nat, f: ValidFlow)
    ensures var r := LineStep(serial, parallel, text, n, f);
      r.Ok? ==> FlowInv(r.value) && Size(r.value) <= Size(f) + 1
  {
    var c := LineTask(serial, parallel, text, n);
    if c.Ok? {
      if c.value.0 {
        AppendSerialSpec(f, c.value.1);
      } else {
        AppendParallelSpec(f, c.value.1);
      }
    }
  }

  /** An assembly result that keeps the flow invariant, has no group left
      open, and has at most bound stages. */
  ghost predicate Assembled(r: Result<Flow>, bound: nat)
  {
    r.Ok? ==> FlowInv(r.value) && r.value.open.None? && |r.value.stages| <= bound
  }

  /** An assembled flow keeps the flow invariant, has no group left open,
      and has at most one stage per line. */
  lemma {:induction false} LinesInv(serial: map<string, TypeInfo>, parallel: map<string, TypeInfo>, lines: seq<string>, n: nat, f: ValidFlow)
    requires n <= |lines| && Size(f) <= n
    ensures Assembled(Lines(serial, parallel, lines, n, f), |lines|)
    decreases |lines| - n
  {
    if n == |lines| {
      LinesDone(serial, parallel, lines, f);
    } else {
      var g := LineStep(serial, parallel, lines[n], n, f);
      if g.Ok? {
        LineStepInv(serial, parallel, lines[n], n, f);
        LinesInv(serial, parallel, lines, n + 1, g.value);
      }
      LinesNext(serial, parallel, lines, n, f);
    }
  }

  /** After the last line the open group is completed. */
  lemma LinesDone(serial: map<string, TypeInfo>, parallel: map<string, TypeInfo>, lines: seq<string>, f: ValidFlow)
    requires Size(f) <= |lines|
    ensures Assembled(Lines(serial, parallel, lines, |lines|, f), |lines|)
  {
    CompleteSpec(f);
  }

  /** A line that fails stops the assembly; one that succeeds hands its flow
      to the next line. */
  lemma LinesNext(serial: map<string, TypeInfo>, parallel: map<string, TypeInfo>, lines: seq<string>, n: nat, f: Flow)
    requires n < |lines|
    requires var g := LineStep(serial, parallel, lines[n], n, f);
      g.Ok? ==> Assembled(Lines(serial, parallel, lines, n + 1, g.value), |lines|)
    ensures Assembled(Lines(serial, parallel, lines, n, f), |lines|)
  {
  }

  lemma AssembleInv(serial: map<string, TypeInfo>, parallel: map<string, TypeInfo>, lines: seq<string>)
    ensures Assembled(AssembleSpec(serial, parallel, lines), |lines|)
  {
    LinesInv(serial, parallel, lines, 0, EmptyFlow());
  }

  /** The record a registry entry gives of its class; it reads only
      fields validation leaves alone. */
  function Info(ty: TaskType): TypeInfo
  {
    TypeInfo(ty.params, ty.inputs, ty.outputs, InstanceAction(ty.kind, ty.action))
  }

  /** The action an instance exposes to the flow: a reducer's is
      action_first, which returns None. */
  function InstanceAction(kind: Kind, action: ActionFn): ActionFn
  {
    if kind == Reducer then (attrs: map<string, Value>, ins: seq<Value>) => Nothing else action
  }

  function Infos(reg: map<string, TaskType>): map<string, TypeInfo>
  {
    map n | n in reg :: Info(reg[n])
  }

  /** The task of a line appended to the flow, as serial or parallel. */
  method AppendTask(flow: MacroFlow, isSerial: bool, t: TaskInst) returns (o: Outcome)
    requires flow.Valid()
    modifies flow, flow.Repr
    ensures flow.Valid() && fresh(flow.Repr - old(flow.Repr))
    ensures (flow.model, o) == AppendTaskF(old(flow.model), isSerial, t)
  {
    if isSerial {
      o := flow.AppendSerial(t);
    } else {
      o := flow.AppendParallel(t);
    }
  }

  /** The assembler with its two registries of validated task classes,
      each class registered under its own name. */
  class Assembler {
    const serial: map<string, TaskType>
    const parallel: map<string, TaskType>

    /** The registered classes. */
    ghost function Types(): set<TaskType>
    {
      (set n | n in serial :: serial[n]) + (set n | n in parallel :: parallel[n])
    }

    ghost predicate Valid()
      reads Types()
    {
      && (forall n :: n in serial ==> serial[n].Valid() && serial[n].isValid && serial[n].name == n)
      && (forall n :: n in parallel ==> parallel[n].Valid() && parallel[n].isValid && parallel[n].name == n)
      && (forall n :: n in serial ==> serial[n].kind != Parallel)
      && (forall n :: n in parallel ==> parallel[n].kind == Parallel)
    }

    /** The registries as __importTasks leaves them. */
    constructor (serial: map<string, TaskType>, parallel: map<string, TaskType>)
      ensures this.serial == serial && this.parallel == parallel
    {
      this.serial := serial;
      this.parallel := parallel;
    }

    /** constructTask on one line. */
    method ConstructTask(text: string) returns (r: Result<(bool, TaskInst)>)
      requires Valid()
      ensures r == ConstructSpec(Infos(serial), Infos(parallel), text)
      ensures r.Ok? ==> var n := SplitWS(text)[0];
        && (r.value.0 ==> n in serial && serial[n].kind != Parallel)
        && (!r.value.0 ==> n in parallel && parallel[n].kind == Parallel)
        && (r.value.0 && serial[n].kind == Reducer ==> forall attrs, ins :: r.value.1.act(attrs, ins) == Nothing)
    {
      var words := SplitWS(text);
      if words == [] {
        return Err(Runtime);
      }
      var name := words[0];
      var ty: TaskType;
      var isSerial: bool;
      if name in serial {
        ty, isSerial := serial[name], true;
      } else if name in parallel {
        ty, isSerial := parallel[name], false;
      } else {
        return Err(Construct(name));
      }
      var task := new Task(ty);
      var o := task.Configure(words[1..]);
      if o.Fail? {
        return Err(o.error);
      }
      r := Ok((isSerial, TaskInst(ty.name, task.inputs, task.outputs, task.attrs, InstanceAction(ty.kind, ty.action))));
    }

    /** assembleFromText: every line normalised, constructed and appended
        to a fresh flow as serial or parallel, then the open group, if
        any, completed. */
    method AssembleFromText(lines: seq<string>) returns (r: Result<MacroFlow>)
      requires Valid()
      ensures match r
        case Ok(flow) => fresh(flow) && flow.Valid() && AssembleSpec(Infos(serial), Infos(parallel), lines) == Ok(flow.model)
        case Err(e) => AssembleSpec(Infos(serial), Infos(parallel), lines) == Err(e)
    {
      var flow := new MacroFlow();
      var o := AddLines(flow, lines);
      if o.Fail? {
        return Err(o.error);
      }
      o := flow.CompleteParallel();
      if o.Fail? {
        return Err(o.error);
      }
      r := Ok(flow);
    }

    /** The loop of assembleFromText over the lines. */
    method AddLines(flow: MacroFlow, lines: seq<string>) returns (o: Outcome)
      requires Valid() && flow.Valid()
      modifies flow, flow.Repr
      ensures flow.Valid() && fresh(flow.Repr - old(flow.Repr))
      ensures o.Fail? ==> AssembleFrom(lines, old(flow.model)) == Err(o.error)
      ensures o.Pass? ==> AssembleFrom(lines, old(flow.model)) == Lines(Infos(serial), Infos(parallel), lines, |lines|, flow.model)
    {
      var n := 0;
      while n < |lines|
        invariant 0 <= n <= |lines|
        invariant flow.Valid() && fresh(flow.Repr - old(flow.Repr))
        invariant Lines(Infos(serial), Infos(parallel), lines, n, flow.model) == AssembleFrom(lines, old(flow.model))
      {
        o := AddNth(flow, lines, n);
        if o.Fail? {
          return;
        }
        n := n + 1;
      }
      o := Pass;
    }

    /** Line n of the loop: the loop from n stops at its error, or goes on
        from the flow it leaves. */
    method AddNth(flow: MacroFlow, lines: seq<string>, n: nat) returns (o: Outcome)
      requires Valid() && flow.Valid() && n < |lines|
      modifies flow, flow.Repr
      ensures flow.Valid() && fresh(flow.Repr - old(flow.Repr))
      ensures o.Fail? ==> Lines(Infos(serial), Infos(parallel), lines, n, old(flow.model)) == Err(o.error)
      ensures o.Pass? ==>
        Lines(Infos(serial), Infos(parallel), lines, n, old(flow.model)) == Lines(Infos(serial), Infos(parallel), lines, n + 1, flow.model)
    {
      ghost var f := flow.model;
      o := AddLine(flow, lines[n], n);
      LinesCons(Infos(serial), Infos(parallel), lines, n, f);
    }

    /** The assembly of lines onto flow f with this assembler's registries. */
    ghost function AssembleFrom(lines: seq<string>, f: Flow): Result<Flow>
    {
      Lines(Infos(serial), Infos(parallel), lines, 0, f)
    }

    /** The task of one line: normalised, then constructed. */
    method ConstructLine(text: string, n: nat) returns (r: Result<(bool, TaskInst)>)
      requires Valid()
      ensures r == LineTask(Infos(serial), Infos(parallel), text, n)
    {
      var line := NormalizeLine(text, n);
      if line.Err? {
        return Err(line.error);
      }
      r := ConstructTask(line.value);
    }

    /** One line of the loop: its task appended to the flow. */
    method AddLine(flow: MacroFlow, text: string, n: nat) returns (o: Outcome)
      requires Valid() && flow.Valid()
      modifies flow, flow.Repr
      ensures flow.Valid() && fresh(flow.Repr - old(flow.Repr))
      ensures o.Fail? ==> LineStep(Infos(serial), Infos(parallel), text, n, old(flow.model)) == Err(o.error)
      ensures o.Pass? ==> LineStep(Infos(serial), Infos(parallel), text, n, old(flow.model)) == Ok(flow.model)
    {
      var c := ConstructLine(text, n);
      if c.Err? {
        return Fail(c.error);
      }
      o := AppendTask(flow, c.value.0, c.value.1);
    }
  }
}
