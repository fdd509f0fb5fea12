# Kley evaluation core in Dafny

Kley is a small scripting language in which a backquoted command is a
first-class value: a *command descriptor* (program and arguments) that is
only started when a statement yields it, or when it is converted to text,
an integer or a list. This project models the two pieces of the Rust
implementation that make up that protocol, as pure functions with proofs:

* `Value::convert` (`src/types.rs`), the engine that coerces a value toward
  a structural type: scalars to themselves, integers to and from text, text
  to and from lists, lists element by element, records field by field, and
  a command descriptor by running it and converting its trimmed output.
* the tree-walking evaluator `eval_env` with its environment
  (`src/interpreter.rs`): an ordered list of (name, declared type, value)
  entries with first-match lookup, front insertion for a binding, in-place
  update of the nearest entry for an assignment, blocks that never leak
  their bindings, and statements whose command values are started.

Files and modules:

| file | module | contents |
|---|---|---|
| `wrappers.dfy` | `Wrappers` | `Option` |
| `text.dfy` | `Text` | the Rust string operations the engine uses: `trim`, `split_whitespace`, `join(" ")`, `i64::to_string`, `str::parse::<i64>` |
| `types.dfy` | `Types` | `Type`, `Value`, the process oracle `Host`, the event trace and `Convert` |
| `convert_props.dfy` | `ConvertProps` | what the conversion table promises |
| `interpreter.dfy` | `Interpreter` | the syntax tree, `Env`, `Lookup`, `Bind`, `Reassign`, `Eval` |
| `interpreter_props.dfy` | `InterpreterProps` | what the evaluator promises |
| `quote_props.dfy` | `QuoteProps` | quoted strings and command nodes for any parts |
| `programs.dfy` | `Programs` | small Kley programs evaluated through the general lemmas |

How effects are modelled. Nothing runs a process. A `Host` value gives, for
each descriptor, whether it launches and its standard output (`None` when
the output is not UTF-8); `Convert` and `Eval` return a `Traced` result: an
`Ok` value or an `Err` for one of the source's panics (`unwrap`, `expect`,
`panic!`, `todo!`), together with the processes started, in order. A
conversion that captures output records `Captured(cmd)`; a statement whose
value is a descriptor records `Spawned(cmd)`. The source's `None` from
`convert` is `Ok(None)`, kept apart from the panics.

Behaviours of the code that the model keeps as written:

* the captured output is trimmed at both ends (`trim()`, src/types.rs:110);
* a command descriptor is its own `Value` variant (src/types.rs:97);
* ``let x: str = `cmd` `` converts at the binding (src/interpreter.rs:103-113),
  so the command runs there, once (`BoundCommandRunsOnce`); no binding keeps a
  command deferred, since every declared type either converts it or aborts;
* the unit literal is `todo!()` (src/interpreter.rs:128), so it evaluates to an error;
* an assignment stores the new value without converting it to the entry's
  declared type (src/interpreter.rs:87-101);
* a list converts to text through each element's text conversion
  (src/types.rs:130-142), so an element without one aborts the conversion;
* the evaluator has no function definitions, calls or `display`.

## Model

| member | source | states |
|---|---|---|
| Text.Trim | src/types.rs:110 | `str::trim` leaves no whitespace at either end and never lengthens the text |
| Text.TrimIsInnerSlice | src/types.rs:110 | trimming removes whitespace at the two ends and nothing else: the result is the slice starting at the first non-whitespace character, and everything before and after it is whitespace |
| Text.WordsOfJoin | src/types.rs:124-141 | splitting the single-space join of words on whitespace gives the same words back |
| Text.ParseRenderInt | src/types.rs:119-143 | parsing the decimal rendering of an i64 gives the same i64 |
| ConvertProps.ConvertConforms | src/types.rs:105-168 | every successful conversion yields a value of the requested shape: Int, Str, Bool, a list of conforming elements, or a record with exactly the target's field names, each conforming to its field type |
| ConvertProps.ScalarsConvertToThemselves | src/types.rs:144-147 | Int, Str and Bool convert to their own type unchanged, starting nothing |
| ConvertProps.UnlistedPairingsHaveNoConversion | src/types.rs:166 | every pairing outside the table gives `None` and starts nothing: unit, float, map, tuple and variant targets, unit values, booleans to anything but bool, and so on |
| ConvertProps.TextToIntParsesTrimmed | src/types.rs:119 | text to int parses the trimmed text as a signed i64; a text that does not parse aborts instead of giving `None` |
| ConvertProps.IntTextRoundTrip | src/types.rs:119-143 | an integer converts to its decimal text, and that text converts back to the same integer |
| ConvertProps.ConvertEachElementwise | src/types.rs:120-123 | converting elements succeeds exactly when every element converts; the result keeps the length and holds each element's conversion at its position |
| ConvertProps.ListToListIsElementwise | src/types.rs:120-123 | a list converts to a list type position by position, keeping its length; one element without a conversion aborts the whole conversion |
| ConvertProps.TextToListIsTokenwise | src/types.rs:124-129 | text converts to a list type exactly as the list of the whitespace-separated tokens of the trimmed text does |
| ConvertProps.ListToTextJoins | src/types.rs:130-142 | a list converts to text exactly when every element has a text conversion, and the result is those texts joined with one space; the empty list gives "" |
| ConvertProps.IntListToText | src/types.rs:130-143 | a list of integers converts to the single-space join of their decimal texts |
| ConvertProps.JoinedIntsToList | src/types.rs:124-129 | that joined text converts to a list of integers equal to the original list |
| ConvertProps.IntListTextRoundTrip | src/types.rs:119-143 | a list of integers converted to text and back to a list of integers is the same list, and starts nothing |
| ConvertProps.ConvertFieldsProjects | src/types.rs:150-163 | converting the target's fields succeeds exactly when every target field is present and converts; the result has the accumulated keys plus the target's, each the conversion of the source field |
| ConvertProps.RecordConversionProjects | src/types.rs:149-164 | a record converts to a record type exactly when every target field exists and converts; the result has exactly the target's keys, so extra source fields are dropped |
| ConvertProps.CommandConversionRunsOnce | src/types.rs:107-117 | converting a descriptor to text, int or list starts it exactly once (not at all when it cannot launch, which aborts), fails when its output is not UTF-8, and otherwise equals converting its trimmed output; any other target starts nothing and gives `None` |
| ConvertProps.CommandThenText | src/types.rs:112-117 | a descriptor converted to int or list is the text conversion followed by converting that text, after exactly one capture |
| ConvertProps.CommandFreeConversionRunsNothing | src/types.rs:105-168 | converting a value that holds no descriptor starts no process |
| Interpreter.FirstIndex | src/interpreter.rs:13-18 | the position found holds the name and no earlier entry does; there is none exactly when no entry holds the name |
| Interpreter.Lookup | src/interpreter.rs:13-18 | lookup yields the value of the first entry with the name, and nothing exactly when no entry has it |
| Interpreter.Eval | src/interpreter.rs:24-154 | every node except a binding or an assignment hands back the environment it received, so a block's bindings never leak |
| InterpreterProps.LookupAfterBind | src/interpreter.rs:109-112 | a binding is seen by the next lookup of its name, leaves every other name's lookup unchanged, and keeps all older entries behind it |
| InterpreterProps.ReassignUpdatesFirstMatch | src/interpreter.rs:93-99 | assignment changes only the first matching entry's value: length, every name and declared type, and every other entry are unchanged, and the next lookup sees the new value |
| InterpreterProps.AssignUnboundFails | src/interpreter.rs:88-90 | assigning an unbound name is an error raised before the right-hand side runs |
| InterpreterProps.AssignStoresValue | src/interpreter.rs:87-101 | assigning a bound name evaluates the right-hand side once and stores its value unconverted; the statement is Unit |
| InterpreterProps.BindingConvertsAndShadows | src/interpreter.rs:103-113 | a binding converts the value to the declared type and puts it in front, whether or not the name is taken; the bound value has the declared shape and a value without that conversion aborts |
| InterpreterProps.IfEvaluatesChosenBranch | src/interpreter.rs:129-144 | a non-boolean condition is an error; otherwise only the chosen branch runs and the caller's environment is returned |
| InterpreterProps.IfIgnoresOtherBranch | src/interpreter.rs:138-142 | replacing the branch not taken changes neither the outcome nor the trace |
| InterpreterProps.ApplyOnlyAddsInts | src/interpreter.rs:29-37 | an operator succeeds exactly for `+` on two integers whose sum fits in an i64, and then yields the sum; `+` on anything else is an operand error |
| InterpreterProps.InfixEvaluatesBothOperands | src/interpreter.rs:26-39 | both operands are evaluated in the same environment, left first, before the operator applies; the environment is returned |
| InterpreterProps.QuoteOfConstants | src/interpreter.rs:114-126 | a quoted string of literal parts is their texts concatenated in order, integers rendered in decimal, and starts nothing |
| InterpreterProps.TokensOfConstants | src/interpreter.rs:47-60 | each command token becomes one argument string, the concatenation of its parts' texts |
| QuoteProps.EvalTextConcatenates | src/interpreter.rs:114-126 | a quoted string succeeds exactly when every part evaluates and converts to a `Str`; it is then those texts concatenated in order, its trace is the parts' processes in order, and the environment is returned |
| QuoteProps.EvalTextAbortsAt | src/interpreter.rs:116-121 | the first part without a text aborts: its evaluation's or conversion's error, or `PartNotText` when it converts to nothing or to a non-`Str`; the earlier parts' processes are in the trace and no later part runs |
| QuoteProps.ConstantPartsAreTextParts | src/interpreter.rs:114-127 | string and integer literal parts always have a text and start nothing; their literal texts are exactly the general part texts |
| QuoteProps.ConstantTokensAreTextTokens | src/interpreter.rs:47-60 | command tokens of literal parts always evaluate and start nothing; their literal texts are exactly the general arguments |
| QuoteProps.EvalTokensArgs | src/interpreter.rs:47-60 | command tokens evaluate exactly when every part of every token has a text; the arguments are then one text per token, in order |
| QuoteProps.QuietCommandNode | src/interpreter.rs:43-75 | a command node whose parts start nothing and hold no descriptor starts nothing, whether or not it succeeds |
| QuoteProps.CommandNodeRunsNothing | src/interpreter.rs:43-75 | a command node's trace is exactly its tokens' evaluation trace, so it starts nothing itself; it succeeds exactly when there is a token and every part of every token has a text, and then its descriptor's program is the first token's text and its arguments the other tokens'; no tokens is an error and a failing token's error is the node's |
| InterpreterProps.StmtsAppend | src/interpreter.rs:79-84 | statements run in sequence: `p + q` runs `p`, then `q` from where `p` left off, and an abort in `p` skips `q` |
| InterpreterProps.StmtsSnoc | src/interpreter.rs:79-84 | one more statement after a successful run: an evaluation error becomes the run's error after the earlier trace; a descriptor that cannot launch aborts with a launch failure; otherwise its value becomes the value so far and its descriptor, if any, is started |
| InterpreterProps.EmptyBlockIsUnit | src/interpreter.rs:77-85 | an empty block is Unit and starts nothing |
| InterpreterProps.BlockValueIsLastStatement | src/interpreter.rs:76-86 | a block's value is its last statement's value, that statement's descriptor is started, and the caller's environment is returned; an error in the last statement, or a last descriptor that cannot launch, is the block's error after the earlier statements' processes |
| InterpreterProps.CommandStatementsSpawnEachOnce | src/interpreter.rs:79-84 | a block of command statements that all launch records exactly one start per statement, in statement order |
| InterpreterProps.LaunchFailureStopsBlock | src/interpreter.rs:79-84 | for any statements before it, a statement whose value is a descriptor that cannot launch aborts the block with a launch failure, after the earlier statements' processes and its own evaluation's, and no later statement runs |
| InterpreterProps.NestedBlockRunsCommandTwice | src/interpreter.rs:76-86 | for any inner block whose run ends in a descriptor that launches, the inner block has started it last, and the enclosing block starts it again: the trace ends with two starts of it |
| InterpreterProps.BoundCommandRunsOnce | src/interpreter.rs:103-113 | a command bound as text runs exactly once, at the binding, and a later use of the name reads its trimmed output without running it again |
| InterpreterProps.EntriesCollect | src/interpreter.rs:146-150 | a record literal succeeds exactly when every entry evaluates; its trace is then the entries' processes in entry order, and the map holds exactly the accumulated keys and the entries' keys |
| InterpreterProps.EntriesLastWins | src/interpreter.rs:147-149 | each key holds the value of the last entry that names it |
| InterpreterProps.RecordLiteralHasItsKeys | src/interpreter.rs:145-152 | a record literal is a record with exactly the literal's keys, each holding its last entry's value; its entries' processes start in entry order, and it returns the caller's environment |
| Programs.BlockOfOne | src/interpreter.rs:76-86 | a block holding one integer literal evaluates to that integer, starts nothing and returns the caller's environment |
| Programs.IfLiteral | src/interpreter.rs:129-144 | `if true {1} else {2}` is 1 and `if false {1} else {2}` is 2 |
| Programs.IfOnInteger | src/interpreter.rs:134-137 | `if 1 {..} else {..}` is an error whatever the branches are |
| Programs.LetSum | src/interpreter.rs:103-113 | `{ let x: int = 2 + 3; x }` is 5 |
| Programs.AssignUnbound | src/interpreter.rs:87-90 | `x := 1` in the empty program environment is an unbound-identifier error |
| Programs.ShadowInBlock | src/interpreter.rs:76-86 | an inner `let x` is seen inside the block and the environment handed back keeps the outer `x` |
| Programs.QuoteWithInteger | src/interpreter.rs:114-126 | a quoted string with an integer part renders the integer in decimal |

## Left out

- `src/parse.rs` and `Type::parse`: parsing is not part of this model; the model starts from a syntax tree and a structural `Type`.
- `src/main.rs`: file loading and error printing.
- Processes: starting, waiting and UTF-8 decoding are the `Host` oracle. The oracle's answers depend only on the descriptor, so a process that behaves differently on a second run is not modelled. The exit status is ignored, as in the code.
- Record to text (`src/types.rs:165`): Rust's `{:?}` rendering of a `HashMap` is the opaque `host.debug`.
- `HashMap` iteration order: a record type's fields and a record literal's entries are sequences whose order stands for iteration order. It decides which field is converted, and which process may start, first. A record type with a repeated field name keeps the last one.
- Minus, Times and Divide: `todo!()` in the code, modelled as errors only.
- Apply: i64 overflow of `+` is the debug-build panic (an `Overflow` error), not release-build wrap-around.
- Rc<RefCell<Command>> sharing: a descriptor is an immutable (program, arguments) pair.
- Float, map, tuple and variant values do not exist in the code; those types appear only as conversion targets, which always give `None`.
- Function definitions, calls and `display`: not in the evaluated code.
- InterpreterProps.QuoteOfConstants: covers quoted strings whose parts are string or integer literals; QuoteProps.EvalTextConcatenates states the general case.
- InterpreterProps.TokensOfConstants: covers command tokens built from string or integer literals only; QuoteProps.EvalTokensArgs states the general case.
- InterpreterProps.CommandStatementsSpawnEachOnce: covers blocks made only of literal command statements that all launch.
- InterpreterProps.BoundCommandRunsOnce: covers a literal command bound as `str` and read back once.
