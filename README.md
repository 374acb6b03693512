# muFlow flow construction and execution, modelled in Dafny

muFlow builds data-processing flows from a few lines of text. Each line
names a task class and can give it an IO override and positional
parameters. The system has four parts, each modelled here.

- **Lexer** (`muFlow/muparse.py`): a table-driven state machine that
  splits a directive line into tokens. Tokens are literals, an opening
  bracket, a closing bracket and the destination operator `>`. Quotes
  keep their contents together and `#` starts a comment.
- **Parser** (same file): a second table-driven state machine that turns
  the tokens into a call record with a name, input names, output names
  and parameters. It rejects a token the current state has no entry for.
- **Task contract** (`muFlow/baseTasks.py`):
  - validation of a task class's parameter specs, and the argument
    counters that validation leaves behind;
  - the IO override `(in1,in2->out1)`, which renames a task instance's
    inputs and outputs;
  - decoding of positional arguments, with default values filled in;
  - the reducer protocol, which folds items into an accumulator.
- **Assembler** (`muFlow/assembler.py`):
  - normalises the brackets of each line;
  - constructs a task from the registered serial and parallel classes;
  - appends it to a `MacroFlow`, either as a serial task or inside the
    currently open parallel group (a `MicroFlow`);
  - checks at construction time that every requested item is in scope,
    and asks a parallel group to gather an item a later serial task needs;
  - executes the finished flow, running each group per item over four
    worker slices and merging their outputs.

The files, one Dafny module each:

| file | module | what it holds |
|---|---|---|
| `errors.dfy` | `Errors` | the error kinds, `Result` and `Outcome` |
| `lexer.dfy` | `MuLexer` | the token table, the `Lexer` class, and an independent reference lexer for lines without quotes or comments |
| `parser.dfy` | `MuParser` | the parser table, the `Parser` class, and a grammar predicate independent of the table |
| `tasks.dfy` | `BaseTasks` | parameter specs, the `TaskType` and `Task` classes, IO override, argument decoding, reducers |
| `engine.dfy` | `Engine` | constructed task values, groups and stages, and the deterministic meaning of executing a flow |
| `flow.dfy` | `Flow` | flow construction as functions on values, and the invariant a flow keeps |
| `micro.dfy` | `Micro` | the `MicroFlow` class and its loops |
| `macro.dfy` | `Macro` | the `MacroFlow` class, whose ghost `model` is kept equal to the value-level flow |
| `assembler.dfy` | `Assembly` | bracket normalisation, `constructTask`, and the `Assembler` class |

Every imperative operation is a method. Its postcondition ties the result,
or the new state, to a specification function. The properties the system
promises are proved as lemmas about those functions.

## Model

| member | source | states |
|---|---|---|
| MuLexer.MakeToken | muFlow/muparse.py:89-99 | flushing yields no token for an empty literal or a lone `#`; `(`, `)` and `>` become their control tokens; any other literal becomes a Literal; the token carries the literal's text |
| MuLexer.Lexer.constructor | muFlow/muparse.py:101-103 | a new lexer has no tokens and an empty pending literal |
| MuLexer.Lexer.PushChar | muFlow/muparse.py:86-87 | the character is appended to the pending literal and the token list is untouched |
| MuLexer.Lexer.PushToken | muFlow/muparse.py:89-99 | the pending literal's token, if it has one, is appended, and the literal is emptied |
| MuLexer.Lexer.Tokenize | muFlow/muparse.py:49-120 | the character loop returns the token list that the transition table and character classes define for the line, and leaves it in `tokens` with the literal empty |
| MuLexer.RunNonEmpty | muFlow/muparse.py:89-120 | from any state, the machine never emits a token with empty text |
| MuLexer.TokensNonEmpty | muFlow/muparse.py:89-120 | no token of a tokenized line has empty text |
| MuLexer.PlainTokens | muFlow/muparse.py:49-120 | a line without quotes or `#` lexes to the independent reference: maximal runs of plain characters as Literals, each control character as its own token, separators dropped |
| MuLexer.LexPlainLiterals | muFlow/muparse.py:40-47 | if such a line also has no control character, every token it lexes to is a Literal |
| MuLexer.RunBareCtrl | muFlow/muparse.py:58-64 | from the control state, the pending control character becomes its own token and the rest lexes as the reference says |
| MuLexer.RunComment | muFlow/muparse.py:56-63 | a `#` reached outside quotes stops the run, whatever follows |
| MuLexer.CommentStops | muFlow/muparse.py:113-119 | a line with an unquoted `#` lexes as the text before it |
| MuLexer.QuotedVerbatim | muFlow/muparse.py:65-71 | inside quotes every character except the quote is accumulated, including separators, brackets and `#`; the closing quote flushes the literal |
| MuLexer.QuotedToken | muFlow/muparse.py:65-71 | a quoted string outside quotes flushes any pending literal, then becomes exactly the token its contents make |
| MuLexer.QuoteUnclosed | muFlow/muparse.py:65-71 | an unterminated quote runs to the end of the line and is flushed there |
| MuParser.Parser.ParseText | muFlow/muparse.py:148-150 | the result is the table parse of the line's tokens |
| MuParser.Parser.ParseTokens | muFlow/muparse.py:152-171 | the token loop returns exactly what the table-driven state machine defines, including the runtime error at the first token the current state has no entry for |
| MuParser.ParseOkIff | muFlow/muparse.py:123-143 | parsing succeeds exactly on an independent grammar: empty, `name words`, or `name ( words [> words] [) words]` |
| MuParser.ParamIff | muFlow/muparse.py:140-142 | in the parameter state, parsing succeeds exactly when every remaining token is a Literal |
| MuParser.OutputIff | muFlow/muparse.py:136-139 | in the output state, parsing succeeds exactly on words, optionally followed by `)` and words |
| MuParser.InputIff | muFlow/muparse.py:131-135 | in the input state, parsing succeeds exactly on words followed by nothing, by `)` and words, or by `>` and an output part |
| MuParser.StepFlat | muFlow/muparse.py:165-170 | one table step after the name keeps the name and appends a Literal token's text to the flattened record |
| MuParser.ParseFlat | muFlow/muparse.py:160-171 | a successful parse keeps the name and stores every Literal text, in order, into the record's fields |
| MuParser.ParseRecord | muFlow/muparse.py:153-171 | on success, no tokens give the empty record; otherwise the first token is a Literal that names the record, and the Literal texts are the name, args, dest and params in that order |
| MuParser.ParseTextCount | muFlow/muparse.py:148-171 | for a lexed line, the number of Literal tokens is the record's word count, counting the name exactly when it is non-empty |
| MuParser.ParseLits | muFlow/muparse.py:131-142 | in a list-collecting state, a run of words is appended to that state's field and the state is kept |
| MuParser.ParseOpen | muFlow/muparse.py:124-128 | a name followed by `(` starts the input part with only the name set |
| MuParser.ParseClose | muFlow/muparse.py:134-141 | `)` followed by words, after the input or output part, appends the words to the parameters |
| MuParser.ParseNameParams | test/parserTest.py:28-39 | `name p1 .. pn` parses to that name with those parameters |
| MuParser.ParseFull | test/parserTest.py:72-75 | `name ( a.. > d.. ) p..` parses to the record with exactly those args, dest and params |
| MuParser.ParseOutputs | muFlow/muparse.py:133-139 | `> d.. ) p..` after the input part stores d as dest and p as params |
| MuParser.ParseInputsOnly | test/parserTest.py:48-59 | `name ( a.. ) p..` parses to those args and params with no dest |
| MuParser.ParseUnclosed | test/parserTest.py:86-89 | `name ( a..` with no closing bracket parses to those args (the table has no end check) |
| MuParser.DestOpOutsideBrackets | test/parserTest.py:98-101 | `>` outside brackets makes the parse fail |
| MuParser.AfterGroupOnlyParams | test/parserTest.py:90-105 | after `( .. )` and its parameters, any non-Literal token makes the parse fail |
| BaseTasks.LeadingTwos | muFlow/baseTasks.py:37-47 | the number of leading 2-element specs: all specs before it have 2 elements and the one at it does not |
| BaseTasks.TaskType.constructor | muFlow/baseTasks.py:7-14 | a class starts unvalidated, with its name, kind, params, IO lists and actions as given |
| BaseTasks.TaskType.ValidateParams | muFlow/baseTasks.py:26-77 | the outcome is the spec decision, an empty spec being an IndexError; on success the class is valid, its required count is the leading 2-element specs and its maximum is all specs; on failure validity is unchanged; the counters are what the shape loop leaves even on failure |
| BaseTasks.TaskType.CountArgs | muFlow/baseTasks.py:30-51 | the shape loop reports the first malformed spec and why, and leaves the counters the loop leaves |
| BaseTasks.TaskType.ValidateReducer | muFlow/baseTasks.py:166-171 | a reducer without exactly one input and one output fails as a user error, keeping its name and counters; otherwise it is renamed `reduce_<name>` and validated as a processor, the counters being the shape loop's |
| BaseTasks.TaskType.Validate | muFlow/baseTasks.py:26-77 | each kind's validateParams: the outcome is the kind's type check, validity is set only on success, a reducer with one input and one output is renamed `reduce_<name>` and every other class keeps its name, and the counters are the shape loop's unless a reducer's IO check stops first |
| BaseTasks.FindFirstLoop | muFlow/baseTasks.py:54-75 | the scanning loop returns the position of the first offending spec, or the length when there is none |
| BaseTasks.ValidationPass | muFlow/baseTasks.py:26-77 | validation passes exactly when every spec has 2 or 3 elements with no 2-element spec after a 3-element one, no name is reserved, every decoder can be called, and every default decodes |
| BaseTasks.ShapeScanNone | muFlow/baseTasks.py:37-51 | the shape loop finds no offender exactly when the remaining specs have 2 or 3 elements and the 3-element ones form a suffix |
| BaseTasks.EmptySpecRaises | muFlow/baseTasks.py:37-41 | validation ends in an uncaught IndexError, instead of a BadParamException, exactly when the first spec breaking the shape rules is empty, because the exception's message reads the spec's first element (muFlow/baseTasks.py:221-224) |
| BaseTasks.ScanNoneShape | muFlow/baseTasks.py:37-51 | the shape loop finds no offender exactly on a well-shaped list |
| BaseTasks.ShapeSplit | muFlow/baseTasks.py:37-51 | in a well-shaped list, a parameter is required exactly when it comes before the first default |
| BaseTasks.SplitJoin | muFlow/baseTasks.py:92-109 | joining the pieces of a split on the same separator gives back the string |
| BaseTasks.SplitCharPieces | muFlow/baseTasks.py:98-109 | splitting on a character gives pieces free of it, one more piece than its occurrences |
| BaseTasks.SplitAbsent | muFlow/baseTasks.py:91-95 | a string without the separator splits into itself |
| BaseTasks.JoinSplits | muFlow/baseTasks.py:98 | comma-joined comma-free names split back into the same names |
| BaseTasks.NoIOSpec | muFlow/baseTasks.py:85-87 | arguments that do not start with `(` leave both IO lists unchanged and report no override |
| BaseTasks.RenameInputs | muFlow/baseTasks.py:96-106 | `(a,b)` with as many names as inputs, each free of commas and arrows and not a single empty name, renames the inputs, and renames the outputs too exactly when the task works in place |
| BaseTasks.RenameOutputs | muFlow/baseTasks.py:107-114 | `(->a,b)` with as many names as outputs, each free of commas and arrows and not a single empty name, renames the outputs and keeps the inputs |
| BaseTasks.OutputMismatch | muFlow/baseTasks.py:108-112 | an output redirection of the wrong length is an output-length error, and both lists stay as they were |
| BaseTasks.RenameBoth | muFlow/baseTasks.py:91-114 | `(a,b->c)` with the right numbers of names renames the inputs and the outputs, the output names winning also for an in-place task |
| BaseTasks.UnbalancedIO | muFlow/baseTasks.py:86-89 | an argument that opens a bracket without closing it is an unbalanced-brackets error, and both lists stay as they were |
| BaseTasks.InputMismatch | muFlow/baseTasks.py:97-101 | an input rename of the wrong length is an input-length error, and both lists stay as they were |
| BaseTasks.DefaultsTail | muFlow/baseTasks.py:126 | in a well-shaped list, the defaults are those of the parameters after the required ones, in order |
| BaseTasks.FilledWithDefaults | muFlow/baseTasks.py:119-128 | with validated counters, an argument count between required and maximum gives the arguments followed by the defaults of exactly the unfilled parameters |
| BaseTasks.CountErrors | muFlow/baseTasks.py:120-124 | filling fails exactly when there are too few or too many arguments, and says which |
| BaseTasks.DecodeFails | muFlow/baseTasks.py:130-136 | decoding fails exactly when some zipped argument does not decode for its parameter, and the error is a parse-args error |
| BaseTasks.DecodeSets | muFlow/baseTasks.py:130-137 | with distinct names, a successful decode sets each parameter's attribute to its decoded value and keeps every other attribute |
| BaseTasks.FoldSnoc | muFlow/baseTasks.py:180-187 | reducing one more item into the accumulator extends the fold by that item |
| BaseTasks.SumFold | test/tasks/testReduce.py:3-9 | SumReduce folds integer items into their sum |
| BaseTasks.SumExample | test/tasks/testReduce.py:3-9 | reducing 3, 5, 8, 0, 2 gives 18 |
| BaseTasks.Task.constructor | muFlow/baseTasks.py:11-13 | a new instance sees its class's IO lists and has no attributes |
| BaseTasks.Task.ParseIOSpec | muFlow/baseTasks.py:79-115 | the lists and the returned flag or error are the IO override function's, covering unbalanced brackets, a bad split, length mismatches and in-place renaming |
| BaseTasks.Task.ParseArgs | muFlow/baseTasks.py:117-137 | outcome and attributes are the argument function's on the class counters, with attributes set before a failure kept |
| BaseTasks.Task.Init | muFlow/baseTasks.py:16-24 | an unvalidated class is validated first, with the new name and counters Validate gives it, and its failure leaves the instance untouched; a validated class is not changed; then the IO override is applied, the override argument is dropped and the rest decoded; a reducer starts with its first-item action |
| BaseTasks.Task.Configure | muFlow/baseTasks.py:20-24 | on a validated class: the IO override, then decoding of the remaining arguments, with the same outcome and state as Init |
| BaseTasks.Task.ActionFirst | muFlow/baseTasks.py:180-183 | the first item becomes the accumulator and later items are reduced |
| BaseTasks.Task.ActionEvery | muFlow/baseTasks.py:185-187 | the item is reduced into the accumulator |
| BaseTasks.Task.Action | muFlow/baseTasks.py:173-187 | the current action: it sets the accumulator to the first item, and folds later items into it |
| BaseTasks.Task.ActionFinal | muFlow/baseTasks.py:189-194 | a non-empty list is folded from its first item and the final transform is returned; an empty list is an IndexError |
| Engine.Lookups | muFlow/assembler.py:134 | reading items succeeds exactly when every name is in the scope; it then gives each name's value, in order, and otherwise a KeyError |
| Engine.ZipHit | muFlow/assembler.py:142-143 | with distinct keys, the k-th value lands under the k-th key |
| Engine.ZipMiss | muFlow/assembler.py:142-143 | a name outside the zipped keys keeps its presence and value |
| Engine.UnpackPositional | muFlow/assembler.py:140-147 | a single output receives the result as it is; several outputs receive the elements of a list, or the characters of a string, positionally, and nothing else changes; no outputs leave the scope alone |
| Engine.Collected | muFlow/assembler.py:231-252 | a worker's collection has one column per gathered name, each as long as the batch |
| Engine.CollectedItems | muFlow/assembler.py:233-252 | collection succeeds exactly when every item runs, and column k, row j holds item j's value of the k-th gathered name |
| Engine.MinLen | muFlow/assembler.py:203 | the record count is no longer than any input list and as long as one of them, and zero with no inputs |
| Engine.Column | muFlow/assembler.py:203 | the j-th record's values are the j-th elements of the input lists |
| Engine.PartitionCovers | muFlow/assembler.py:205-207 | the four slices `[i*bs:(i+1)*bs]` cover the records in order without overlap, each at most `n//4+1` long |
| Engine.Merge | muFlow/assembler.py:213-217 | the merge has one column per gathered name |
| Engine.WorkerOuts | muFlow/assembler.py:206-213 | the four workers give four collections, each with one column per gathered name |
| Engine.CollectedAppend | muFlow/assembler.py:213-217 | collecting two consecutive batches and concatenating their columns is collecting the joined batch |
| Engine.WorkersSequential | muFlow/assembler.py:204-217 | partitioning over four workers and merging their columns in worker order gives what one sequential pass would |
| Engine.WorkersOnRecords | muFlow/assembler.py:204-217 | the four workers over any record list, merged, give the sequential collection, and fail, as a runtime error, exactly when it fails |
| Engine.ActionSequential | muFlow/assembler.py:197-224 | a group's action equals the sequential run over all records, shaped as None, a bare list, or a list of lists |
| Engine.ItemErrors | muFlow/assembler.py:233-252 | every failure of a per-item run is an uncaught runtime error |
| Engine.WorkerErrors | muFlow/assembler.py:204-213 | the workers' result is an error only when an item run fails, and that error is an uncaught runtime error; what the parent process then does is under Left out |
| Engine.ChainErrors | muFlow/assembler.py:237-249 | every failure of a chain of serial steps is an uncaught runtime error |
| Engine.RunSerial | muFlow/assembler.py:132-147 | a flow of serial stages only runs exactly as the chain of its tasks against one scope |
| Engine.GroupStageWrites | muFlow/assembler.py:133-147 | a group stage gives each distinct gathered name the list of its values over all records |
| Engine.AsWrittenKeepsLast | muFlow/assembler.py:239 | as written, a chain of in-place tasks on a requested item keeps only the last task's output, computed from the original record value |
| Engine.SeededComposes | muFlow/assembler.py:233-249 | with the private scope seeded from the record, a chain of in-place tasks composes |
| Engine.AsWrittenLosesUpdate | muFlow/assembler.py:239 | two in-place increments of a requested item 0 give 1 as written and 2 when seeded |
| Engine.InputsAgree | muFlow/assembler.py:239 | when the record holds exactly the requested items, the input lookup as written reads what the seeded scope holds |
| Engine.ChainAgrees | muFlow/assembler.py:237-249 | while no task writes a requested item, the task loop as written and the seeded one fail together and otherwise keep scopes that agree |
| Engine.AsWrittenAgrees | muFlow/assembler.py:233-252 | the seeded item run equals the item run as written when the record holds exactly the requested items and no task output or gathered name is a requested item |
| Engine.RecordKeys | muFlow/assembler.py:203 | every record built from one list per requested name holds exactly the requested names |
| Flow.GroupAgrees | muFlow/assembler.py:233-252 | in a group built by append and gather, where no task writes an item the group requests, the seeded item run equals the code's item run on every record its action builds |
| Flow.External | muFlow/assembler.py:159-166 | the request check passes exactly when each request is local or in the macro scope; the recorded requests are the non-local ones, all in the macro scope |
| Flow.NewGroupInv | muFlow/assembler.py:151-156 | a fresh group keeps the group invariant |
| Flow.AppendGroup | muFlow/assembler.py:158-169 | append succeeds exactly when every request is local or in the macro scope; then the task joins and its outputs become local; otherwise a construct error naming the task, with tasks and local names kept |
| Flow.GatherGroup | muFlow/assembler.py:177-183 | gather fails exactly for a name the group cannot produce; on success the name is gathered; a repeated gather changes nothing |
| Flow.Provider | muFlow/assembler.py:91-93 | the first recorded group that can produce the request, or none |
| Flow.MarkAll | muFlow/assembler.py:110-111 | the scope gains exactly the serial task's output names |
| Flow.GatherStep | muFlow/assembler.py:91-97 | gathering into the providing group succeeds and keeps the flow invariant |
| Flow.ResolveShape | muFlow/assembler.py:87-102 | the request loop changes only the gathered lists of group stages and only grows the scope |
| Flow.ResolveInv | muFlow/assembler.py:87-102 | the request loop keeps the flow invariant |
| Flow.ResolveFails | muFlow/assembler.py:87-102 | the request loop fails exactly when some request is produced by no recorded group and is not in the scope, with the task's own error |
| Flow.ResolveServes | muFlow/assembler.py:87-102 | after a successful request loop every request is in the scope, which gained exactly the group-served requests |
| Flow.CompleteNeverFails | muFlow/assembler.py:120-125 | closing a group never fails, because everything it takes from the macro scope is still there |
| Flow.CompleteSpec | muFlow/assembler.py:120-125 | completion closes the open group and appends it as the one new stage, keeping the earlier task stages and the invariant, and only growing the scope |
| Flow.AttachInv | muFlow/assembler.py:81-112 | adding a stage after its requests are served keeps the flow invariant |
| Flow.AddStageInv | muFlow/assembler.py:107-112 | recording a group, or marking a task's outputs, and adding the stage keeps the invariant |
| Flow.PushStepInv | muFlow/assembler.py:112 | appending a serial stage with no group open keeps the invariant |
| Flow.OpenInv | muFlow/assembler.py:115-117 | opening a group on the scope's names keeps the invariant |
| Flow.AddStageMicros | muFlow/assembler.py:107-108 | recorded groups stay group stages, in stage order |
| Flow.AttachStepFails | muFlow/assembler.py:87-102 | a serial task fails to attach exactly when some input is served by nothing, with a construct error naming it |
| Flow.AttachStepOk | muFlow/assembler.py:81-112 | on success the task is the new last stage, earlier task stages are kept, groups keep their tasks, and its inputs and outputs are all in scope |
| Flow.AppendSerialSpec | muFlow/assembler.py:81-112 | appendSerial completes any open group first; it fails exactly on an unserved input; on success it adds one or two stages, the last being the task, and keeps the invariant |
| Flow.AppendParallelSpec | muFlow/assembler.py:114-118 | appendParallel changes only the open group, opening one on the scope's names if needed; it succeeds exactly when every request is local or in the macro scope |
| Macro.ZipKeys | muFlow/assembler.py:140-147 | unpacking only adds names to the scope |
| Macro.RunKeys | muFlow/assembler.py:127-148 | executing stages only adds names to the scope |
| Macro.MacroFlow.constructor | muFlow/assembler.py:75-79 | a new flow is empty, with no group open |
| Macro.MacroFlow.FindProvider | muFlow/assembler.py:91-93 | the loop finds the first recorded group that can produce the request |
| Macro.MacroFlow.Attach | muFlow/assembler.py:86-112 | the request loop and the stage addition of appendSerial, with no group open, give the flow and the outcome of the specification |
| Macro.MacroFlow.AppendStep | muFlow/assembler.py:109-112 | a serial task's outputs enter the scope and the task becomes the last stage |
| Macro.MacroFlow.MarkScope | muFlow/assembler.py:110-111 | only the scope changes, gaining the outputs |
| Macro.MacroFlow.PushStep | muFlow/assembler.py:112 | the task is appended to the stages and nothing else changes |
| Macro.MacroFlow.AppendMicro | muFlow/assembler.py:107-108 | the group is recorded with its producible names and appended as a stage |
| Macro.MacroFlow.MarkOutputs | muFlow/assembler.py:110-111 | the output loop adds exactly the outputs to the scope |
| Macro.MacroFlow.Requests | muFlow/assembler.py:87-102 | the request loop leaves the flow and outcome the specification defines, and keeps the task list |
| Macro.MacroFlow.Request | muFlow/assembler.py:88-102 | one request is served by the first providing group or by the scope, or raises the error |
| Macro.MacroFlow.GatherOne | muFlow/assembler.py:91-99 | the providing group gathers the request and the name enters the scope; no other group changes |
| Macro.MacroFlow.AppendSerial | muFlow/assembler.py:81-112 | the flow and the outcome are as appendSerial's specification defines |
| Macro.MacroFlow.AppendParallel | muFlow/assembler.py:114-118 | the flow and the outcome are as appendParallel's specification defines |
| Macro.MacroFlow.OpenGroup | muFlow/assembler.py:115-117 | a group on the scope's names is opened unless one is open |
| Macro.MacroFlow.AppendOpen | muFlow/assembler.py:118 | the task is appended to the open group as the specification defines |
| Macro.MacroFlow.CompleteParallel | muFlow/assembler.py:120-125 | the open group, if any, is closed and attached as completeParallel's specification defines |
| Macro.MacroFlow.Execute | muFlow/assembler.py:127-148 | the scope and the outcome are those of running the stages in order against the scope; on an error, the scope the earlier stages left |
| Macro.MacroFlow.RunAll | muFlow/assembler.py:132-147 | the stage loop gives the run's outcome and scope |
| Macro.MacroFlow.RunNode | muFlow/assembler.py:133-147 | one entry runs as its stage does: a serial task once, a group on its requested items |
| Micro.Store | muFlow/assembler.py:140-147 | the result is packed into the scope by its output names, as the unpack specification defines |
| Micro.MergeSnoc | muFlow/assembler.py:215-217 | merging one more worker appends its columns |
| Micro.MicroFlow.constructor | muFlow/assembler.py:151-156 | a new group sees the macro scope's names and has no tasks, gathered names, local names or requests |
| Micro.MicroFlow.Append | muFlow/assembler.py:158-169 | the group and the outcome are append's specification |
| Micro.MicroFlow.TakeRequests | muFlow/assembler.py:159-166 | the request loop records the non-local requests and reports whether every request was satisfiable |
| Micro.MicroFlow.AddOutputs | muFlow/assembler.py:167-168 | the local names gain exactly the task's outputs |
| Micro.MicroFlow.Gather | muFlow/assembler.py:177-183 | the group and the outcome are gather's specification |
| Micro.MicroFlow.RunItem | muFlow/assembler.py:237-249 | an item's task loop is the serial chain over its private scope |
| Micro.MicroFlow.Sequence | muFlow/assembler.py:226-254 | a worker's loop returns the collection specification over its slice |
| Micro.MicroFlow.Action | muFlow/assembler.py:197-224 | action returns the group's action specification on the requested items' values |
| Micro.MicroFlow.Workers | muFlow/assembler.py:204-213 | the four workers return their collections in worker order |
| Micro.AppendItem | muFlow/assembler.py:251-252 | each gathered name's value is appended to its column, or the lookup's KeyError |
| Micro.CollectedStep | muFlow/assembler.py:233-252 | one more record extends every column by its value, or fails the whole slice |
| Micro.MergeColumns | muFlow/assembler.py:213-217 | the merge loop gives the merge specification |
| Assembly.WordsShape | muFlow/assembler.py:45 | every word of `split()` is non-empty and free of whitespace |
| Assembly.ConcatWords | muFlow/assembler.py:62 | the concatenated words are the string with its whitespace removed |
| Assembly.DespaceStrips | muFlow/assembler.py:62 | despace removes exactly the whitespace characters and keeps the rest in order |
| Assembly.NormalizeRejects | muFlow/assembler.py:59-61 | a line without `(` passes unchanged; a line with one is rejected as unbalanced exactly when it has more than one `(` or not exactly one `)` |
| Assembly.NormalizeBalanced | muFlow/assembler.py:59-65 | with one bracket of each kind, normalisation succeeds exactly when `(` comes first, giving the despaced name, the despaced override in brackets, and the rest; otherwise it is an unpacking error |
| Assembly.NormalizeOrdered | muFlow/assembler.py:62-65 | ordered brackets normalise to the despaced prefix, the despaced override and the untouched rest |
| Assembly.NormalizeReversed | muFlow/assembler.py:63-64 | `)` before `(` leaves nothing to unpack, a runtime error |
| Assembly.NormalizedWords | muFlow/assembler.py:45-65 | a normalised line splits into the name, the override as one word, and the words of the rest |
| Assembly.ConstructNames | muFlow/assembler.py:43-53 | an empty line is an IndexError; an unknown first word is a construct error naming it; a constructed task bears the first word as its name and is serial exactly when a serial class is registered under it |
| Assembly.LineStepInv | muFlow/assembler.py:66-70 | one line keeps the flow invariant and adds at most one stage |
| Assembly.LinesInv | muFlow/assembler.py:57-71 | assembly from any line onward keeps the invariant, leaves no group open and has at most one stage per line |
| Assembly.LinesDone | muFlow/assembler.py:71 | the final completion leaves no group open and keeps the invariant |
| Assembly.AssembleInv | muFlow/assembler.py:55-72 | an assembled flow keeps the flow invariant, has no group open and has no more stages than lines |
| Assembly.AppendTask | muFlow/assembler.py:66-70 | a constructed task is appended as serial or parallel, as the specification of each defines |
| Assembly.Assembler.constructor | muFlow/assembler.py:14-15 | the assembler holds the given serial and parallel registries |
| Assembly.Assembler.ConstructTask | muFlow/assembler.py:43-53 | the method returns the construction specification on the line, with instance IO lists and attributes; a serial result comes from a serial or reducer class, a parallel one from a parallel class; a reducer's task returns None, as action_first does (muFlow/baseTasks.py:173-179) |
| Assembly.Assembler.AssembleFromText | muFlow/assembler.py:55-72 | a fresh valid flow whose model is the assembly specification of the lines, or that specification's error |
| Assembly.Assembler.AddLines | muFlow/assembler.py:57-70 | the line loop leaves the flow the specification reaches before the final completion, or stops with its error |
| Assembly.Assembler.AddNth | muFlow/assembler.py:57-70 | line n either ends the loop with the error it raises, or leaves a flow from which the rest of the loop reaches the same result |
| Assembly.Assembler.ConstructLine | muFlow/assembler.py:59-66 | a line is normalised, then constructed, as the specification defines |
| Assembly.Assembler.AddLine | muFlow/assembler.py:57-70 | one line's task joins the flow, or its error is returned, as the specification defines |

## Left out

- `__importTasks` (muFlow/assembler.py:17-41) scans a directory and imports modules. The model passes the two registries to the constructor, each holding validated classes under their own names.
- The worker processes, pipes and `setup` of MicroFlow (muFlow/assembler.py:186-195, 204-213) are modelled as four slices run one after the other. `WorkersSequential` proves that partitioning the records into those slices and merging their collections equals one sequential pass. It says nothing about the processes and pipes themselves.
- The pipes can block for good, which the model does not capture. The parent sends each slice before it starts that slice's worker (muFlow/assembler.py:207-208). It joins every worker before it receives from any (:210-213). So a pickled slice, or a worker's pickled collection, larger than the pipe's buffer leaves the flow hanging.
- Progress reporting (`muFlow/progress.py`), the command-line driver (`muFlow/mu.py`) and `muFlow/metaBase.py` are not part of this model.
- Exception messages are not modelled. An error carries only its kind and the item, parameter or line it names.
- BaseTasks.Task.ParseArgs: a failed decode is the ParseArgs error naming the parameter. The source builds that exception's message from `str(param[1]).split("'")[1]` (muFlow/baseTasks.py:233-235), which is an IndexError for a decoder whose printed form has no quote. Printed forms of decoders are not modelled.
- A token the current state does not list makes the parser raise a ParsingException built from a message alone (muFlow/muparse.py:164). That exception's constructor (muFlow/errors.py:46-53) also needs the token and the state, so the call raises a TypeError, which the model gives as a `Runtime` error. No message pointing at the offending token is ever built, although test/parserTest.py:79-83 expects one.
- Python decoders such as `int` and `float` are abstract partial functions from strings. Whether a decoder can be called at all is an abstract flag.
- Defaults are strings decoded on use. This matches `param[1](param[2])` in muFlow/baseTasks.py:71 and :134. A default given as a non-string Python value is not modelled.
- `Reserved` is the key set of BaseProcessor's class dictionary in Python 3 before 3.13. Other interpreters' extra keys are not modelled.
- Assembly.Assembler.ConstructTask uses `Task.Configure` rather than `Task.Init`, because a registered class has already been validated by `__importTasks`. `Task.Init` models the validating constructor on its own.
- Constructed tasks become `TaskInst` values. These are snapshots of the instance's name, IO lists, attributes and action, rather than live objects.
- `MicroFlow.macro_scope` aliases the macro scope in the source. The model takes a snapshot of its names when the group opens. Nothing adds to the macro scope while a group is open, so the two agree.
- Items are the values `Value` can express. Tuples, dictionaries and other iterables are not modelled.
- Engine.Records: a string among a group's requested items is a TypeError in the model. `zip(*args)` (muFlow/assembler.py:203) would iterate its characters.
- `inputs is not []` (muFlow/assembler.py:136, 240) is always true, so every action is called with its input values as arguments; the model passes them as a sequence.
- MuParser.ParseUnclosed: `task (input` parses to a record. This is what the table in muFlow/muparse.py:123-171 does. test/parserTest.py:86-89 expects a ParsingException, and the model follows the code.
- The reducer wiring described in muFlow/baseTasks.py:158-162 (a reducer built as a parallel task and then again as a serial one) is not done by the assembler's code. The model has the reducer's actions only.
- Assembly.Assembler.ConstructTask: a reducer's task value returns None, as `action_first` does. The accumulator that `action_first` sets is not carried into the flow, because a task value is a snapshot. `BaseTasks.Task.Action` models that update on the instance.
- Engine.WorkerErrors: a failing item is an error of the group stage here. In the code that worker process dies without sending, and the parent blocks for good in `pipe.recv()` (muFlow/assembler.py:213), because it holds both ends of every pipe (:193-195). The error stands for that hang.
- Micro.MicroFlow.Action: a failing item is likewise an error of the action, where the code blocks in `pipe.recv()`.

The per-item run of a parallel group is the corrected one under Findings: the item's private scope starts as its record. It differs from the code only when a task of the group names, among its outputs, an item the group requests from the macro scope. `Engine.AsWrittenAgrees` and `Flow.GroupAgrees` prove that the two agree in every other case. The members built on it carry that difference:

- Micro.MicroFlow.RunItem: seeded private scope, differing from the code as described above.
- Micro.MicroFlow.Sequence: built on the seeded item run.
- Micro.MicroFlow.Workers: built on the seeded item run.
- Micro.MicroFlow.Action: built on the seeded item run.
- Micro.CollectedStep: built on the seeded item run.
- Engine.Collected: built on the seeded item run.
- Engine.CollectedItems: built on the seeded item run.
- Engine.WorkersSequential: built on the seeded item run.
- Engine.WorkersOnRecords: built on the seeded item run.
- Engine.ActionSequential: built on the seeded item run.
- Engine.GroupStageWrites: built on the seeded item run.
- Macro.MacroFlow.RunNode: a group entry runs on the seeded item run.
- Macro.MacroFlow.RunAll: its group entries run on the seeded item run.
- Macro.MacroFlow.Execute: a group stage runs on the seeded item run.

## Findings

| source | as written | input that shows it | evidently intended | confidence | as-written member | corrected member |
|---|---|---|---|---|---|---|
| muFlow/assembler.py:239 | `sequence` reads an input from the item's record whenever its name is among the group's macro requests, even after a local task overwrote that item | two in-place tasks `incr (x)` in one parallel group, on x = 0: the second reads the record's 0 again, giving 1 | each task sees the latest value of the item within the item's private scope, giving 2 | not executed | Engine.AsWrittenLosesUpdate | Engine.SeededComposes |

The rest of the model uses the corrected per-item run, `Engine.ItemRun`.
It seeds the private scope with the item's record. `Engine.ItemRunAsWritten`
and `Engine.AsWrittenKeepsLast` model the code as written.
`Engine.AsWrittenAgrees` and `Flow.GroupAgrees` show that the two runs agree
unless a task of the group names a requested item among its outputs.
