# Moore machine simulator core, in Dafny

This project models the execution core of a Moore-machine editor and simulator written in C++.
A machine has the following parts:

- an ordered list of **states**;
- a start state and a current state, both held as indices into that list;
- declared **inputs** and **outputs**;
- typed **variables**;
- a current output map.

Each state carries two things:

- an **entry expression**, such as `{ output("out", 1) }`;
- a **transition table**, which maps a parsed transition expression `<event> [ <guard> ] @ <delay>` to the index of the next state.

The core has four parts, one Dafny module each:

- **Structs.** The plain records `Variable`, `TransitionExpression` and `State`.
  - The table of a state is a `map<TransitionExpression, int>`. The map type itself says that a state holds at most one next state per distinct expression.
  - Expression equality is field-wise.
- **TransitionSyntax and Machine.** The `MooreMachine` class: its build operations, its parser for transition text, one simulation step `processInput` (and `processStartState`), and the three advisory graph checks.
  - The parser's string helpers (`removeSpaces`, `trimBracketSpaces`, `parseExpr`) live in their own module. The interpreter also uses `removeSpaces`, and Dafny modules cannot depend on each other in a cycle.
- **CodeExecutor.** The interpreter for guards and entry expressions.
  - A value is a `bool`, an `int` or a `string`.
  - The built-ins `defined`, `atoi`, `valueof` and `output` are recognised by substring search, in a fixed order.
  - A guard is split at the first operator of the list `==, !=, <=, >=, <, >` that occurs in it.
  - Values are compared strictly by kind.
  - The only side effect, `output(name, value)` writing into the machine's current outputs, is returned as a list of writes. The machine applies that list.
- **CodeGenerator.** The text that `generateCode` writes for a machine description: the includes, the `States` and `Inputs` enums, the variables table, the initial state, `valueof`, the `processInput` switch with one branch per transition, and the `processOutput` switch.
  - It also models `escapeQuotes`.
  - The model returns the program text as a string, instead of streaming it to a file.

Two supporting modules: Text models `std::string::find`, where `npos` is `None`, and linear search. Wrappers holds `Option` and `Result`.

Wherever the C++ code changes state step by step, the model is imperative Dafny:

- the `MooreMachine` class with `seq` and `map` fields;
- the `processInput` loop over the transition table;
- the recursive `dfs` over a visited set;
- the erase loops of `trimBracketSpaces`;
- the `if{` removal loop and the built-in scan of `executeStateExpr`;
- the `escapeQuotes` loop and the emit loops of `generateCode`.

Each of these methods is proved against a specification function, and that function's properties are proved as lemmas.

Undefined or crashing paths in the C++ code are modelled as explicit `Failure` results:

- `std::stoi` of `""` or of a number above `INT_MAX`;
- `evaluateCond` reaching its comparison with an uninitialised operator;
- the `if{` loop that never ends when a `}` is missing, because `substr(npos + 1)` is the whole text again.

Where the description of the system and its code disagree, the model follows the code. Among those places:

- `valueof(n)` returns the current input's value for *any* declared input `n`. It does not check that `n` is the input being processed.
- `processInput` keeps scanning the table of the state it started in, even after it has moved.
- Nothing acts on a transition's delay at run time.
- `processInput` does not reset `currentOutput` before its scan: outputs not written in this step keep their earlier values.
- A transition on the chosen input with an empty guard does not move the machine; the source only prints that it is not implemented.

## Model

| member | source | states |
|---|---|---|
| Text.Find | src/CodeExecutor.cpp:138 | `find` returns the first occurrence at or after the start, or npos (`None`) when there is none |
| Text.FindOccurs | src/MooreMachine.cpp:37 | a search from 0 succeeds exactly when the pattern occurs somewhere |
| Text.Contains | src/MooreMachine.cpp:232-240 | the linear search answers true exactly when the element is in the list |
| Text.CountAppend | src/generateCode.cpp:7-11 | the character count of a concatenation is the sum of the counts |
| Structs.SameExpression | src/Structs.h:37-41 | two transition expressions are `==` iff all three fields are equal, so it is an equivalence |
| Structs.HashRespectsEquality | src/Structs.h:55-59 | for any string hash, expressions that are `==` get the same combined hash |
| TransitionSyntax.RemoveSpaces | src/MooreMachine.cpp:78-81 | the result has no space and is no longer than the input |
| TransitionSyntax.RemoveSpacesCount | src/MooreMachine.cpp:78-81 | the length drops by the number of spaces, and every other character keeps its count |
| TransitionSyntax.RemoveSpacesAppend | src/MooreMachine.cpp:78-81 | removing spaces distributes over concatenation, so the other characters keep their order |
| TransitionSyntax.RemoveSpacesKeeps | src/MooreMachine.cpp:78-81 | a text without spaces is unchanged |
| TransitionSyntax.RemoveSpacesIdempotent | src/MooreMachine.cpp:78-81 | removing spaces twice equals removing them once |
| TransitionSyntax.Strip | src/MooreMachine.cpp:83-104 | the result is the inner slice between a run of leading and a run of trailing spaces, and does not start or end with a space |
| TransitionSyntax.TrimBracketSpaces | src/MooreMachine.cpp:83-104 | the erase loops give the text with the spaces after the first `[` and before the first `]` removed |
| TransitionSyntax.EraseSpacesAfter | src/MooreMachine.cpp:87-92 | the first loop deletes exactly the run of spaces after the `[` |
| TransitionSyntax.EraseSpacesBefore | src/MooreMachine.cpp:96-102 | the second loop deletes exactly the run of spaces before the `]` and moves the bracket index back by its length |
| TransitionSyntax.BracketTrimmedOf | src/MooreMachine.cpp:83-104 | on `[g]` the trimming keeps the brackets and strips only the spaces touching them |
| TransitionSyntax.BracketContentOf | src/MooreMachine.cpp:52-55 | the text taken from between the trimmed brackets of `[g]` is `g` stripped of its outer spaces |
| TransitionSyntax.ParseExpr | src/MooreMachine.cpp:32-76 | the parsed delay never contains a space |
| TransitionSyntax.ParseDelay | src/MooreMachine.cpp:37-44 | the delay is the space-free text after the first `@`, and `""` when there is no `@` |
| TransitionSyntax.ParseGuard | src/MooreMachine.cpp:48-60 | the guard is the text strictly between the first `[` and the first `]` with its outer spaces stripped (inner spaces kept), and `""` unless both exist with `]` after `[` |
| TransitionSyntax.ParseInputEvent | src/MooreMachine.cpp:62-73 | the event is the space-free prefix before the first `[`, else before the first `@`, else the whole text with its spaces |
| CodeExecutor.EvaluateDefinedCall | src/CodeExecutor.cpp:18-24 | `defined("n")` is true exactly when `n` is the name of the input being processed, false otherwise, and writes nothing |
| CodeExecutor.ValueOf | src/CodeExecutor.cpp:27-34 | `valueof(n)` is the current input's value for every declared `n`, and `""` for an undeclared one |
| CodeExecutor.IsNumber | src/CodeExecutor.cpp:197-205 | true iff every character is a decimal digit, so also for `""` |
| CodeExecutor.Stoi | src/CodeExecutor.cpp:40-42 | a successful `stoi` of a digit string lies between 0 and `INT_MAX` |
| CodeExecutor.StoiDecimal | src/CodeExecutor.cpp:40-42 | `stoi` inverts decimal notation up to `INT_MAX`, and gives out-of-range above it |
| CodeExecutor.DigitsValueDecimal | src/CodeExecutor.cpp:40-42 | the digit value of the decimal notation of `n` is `n` |
| CodeExecutor.Decimal | src/CodeExecutor.cpp:187-188 | decimal notation is a non-empty digit string |
| CodeExecutor.QuotedName | src/CodeExecutor.cpp:140-142 | the quoted name is never longer than the text it is cut from |
| CodeExecutor.QuotedNameAt | src/CodeExecutor.cpp:140-142 | the name cut out is exactly the text between the first `"` at or after the start and the next `"` |
| CodeExecutor.OutputValueAt | src/CodeExecutor.cpp:179-181 | the value cut out is exactly the text between the first `,` at or after the start and the next `)` |
| CodeExecutor.AtoiParen | src/CodeExecutor.cpp:152 | the `(` searched for is the one ending `atoi(` |
| CodeExecutor.AtoiArgument | src/CodeExecutor.cpp:152-154 | the argument handed to the recursive evaluation is strictly shorter than the text |
| CodeExecutor.AtoiArgumentSlice | src/CodeExecutor.cpp:152-154 | the argument is the slice after `atoi(` up to the next `)`, or to the end |
| CodeExecutor.Evaluate | src/CodeExecutor.cpp:132-195 | `""` is -1; the value is a bool exactly when `defined(` occurs; a string only when `valueof(` occurs (the value of each branch is stated by the `Evaluate…` lemmas below) |
| CodeExecutor.EvaluateDefined | src/CodeExecutor.cpp:138-145 | any text containing `defined(` is the bool saying whether its quoted name is the processed input's name, with no writes |
| CodeExecutor.EvaluateAtoi | src/CodeExecutor.cpp:150-158 | when the argument of the first `atoi(` evaluates to a numeral string, the text is `stoi` of it: its failure, or the int with the argument's writes made three times |
| CodeExecutor.EvaluateAtoiFails | src/CodeExecutor.cpp:150-156 | when the argument of `atoi(` fails, the text fails with the same error |
| CodeExecutor.EvaluateAtoiWord | src/CodeExecutor.cpp:150-170 | when the argument of `atoi(` is a non-numeral string, the text gives way to `valueof(`: the value of its quoted input, with the argument's writes made twice |
| CodeExecutor.EvaluateValueof | src/CodeExecutor.cpp:163-170 | without `defined(`, and when `atoi(` is absent or its argument is not a numeral string, a text with `valueof(` is the string value of its quoted input, with no writes when `atoi(` is absent |
| CodeExecutor.EvaluateValueofCall | src/CodeExecutor.cpp:27-34 | `valueof("n")` is the string `valueof(n)` (the input's value for a declared `n`, else `""`) and writes nothing |
| CodeExecutor.EvaluateOutput | src/CodeExecutor.cpp:174-184 | with none of the earlier built-ins, a text with `output(` is -1 and makes exactly one write: its raw value text under its quoted name |
| CodeExecutor.EvaluateOutputCall | src/CodeExecutor.cpp:174-184 | `output("n",v)` is -1 and writes `v` under `n`, nothing else |
| CodeExecutor.EvaluateNumeral | src/CodeExecutor.cpp:186-189 | a numeral is the int it denotes up to `INT_MAX`, and fails out of range above it; no writes |
| CodeExecutor.EvaluateOther | src/CodeExecutor.cpp:191-194 | a text with no built-in that is not a numeral is -1 with no writes |
| CodeExecutor.EvaluateAfterAtoi | src/CodeExecutor.cpp:161-194 | past the `defined`/`atoi` branches no bool arises, new writes need `output(`, a string needs `valueof(` |
| CodeExecutor.WritesNeedOutput | src/CodeExecutor.cpp:132-195 | an evaluation changes outputs only if the text contains `output(` |
| CodeExecutor.EvaluateIgnoresGuard | src/CodeExecutor.cpp:132-195 | an evaluation depends on the inputs, the input name and value, not on the executor's stored guard text |
| CodeExecutor.FirstOperatorIn | src/CodeExecutor.cpp:98-105 | the chosen operator occurs in the text and none listed before it does; `None` when none occurs |
| CodeExecutor.FirstOperator | src/CodeExecutor.cpp:98-105 | the same for the source's operator list |
| CodeExecutor.OperatorChoice | src/CodeExecutor.cpp:98-105 | a guard containing `==` splits at `==`, then `!=`; a guard containing `<=` is never split at `<` |
| CodeExecutor.CompareExprValues | src/CodeExecutor.cpp:207-262 | different kinds compare false even for `==`/`!=`; bools and strings know only `==`/`!=`; ints all six; other operators false |
| CodeExecutor.CompareSides | src/CodeExecutor.cpp:123-129 | a split guard succeeds exactly when both sides do, with the left side's writes before the right side's |
| CodeExecutor.CondWithoutOperator | src/CodeExecutor.cpp:107-117 | a guard without an operator that contains `defined(` is that test of its quoted name, and writes nothing |
| CodeExecutor.CondNeedsDefined | src/CodeExecutor.cpp:107-117 | a guard with neither an operator nor `defined(` (or empty) fails |
| CodeExecutor.CondSplits | src/CodeExecutor.cpp:119-129 | a guard with an operator is the comparison of the text before the operator's first occurrence with the text after it |
| CodeExecutor.CondAtOperator | src/CodeExecutor.cpp:119-129 | when both sides evaluate, the outcome is the comparison of their values and the writes are the left side's then the right side's |
| CodeExecutor.CondWritesNeedOutput | src/CodeExecutor.cpp:93-130 | a guard changes outputs only if it contains `output(` on one of its sides |
| CodeExecutor.CondIgnoresGuard | src/CodeExecutor.cpp:93-130 | a condition's outcome does not depend on the executor's stored guard text |
| CodeExecutor.GuardWrites | src/CodeExecutor.cpp:44-47 | a transition guard changes outputs only if its space-free text has `output(`, and a guard without spaces is evaluated as written |
| CodeExecutor.GuardIgnoresSpaces | src/CodeExecutor.cpp:44-47 | a guard and the same guard without spaces decide a transition alike |
| CodeExecutor.IfBrace | src/CodeExecutor.cpp:59 | the `{` searched for after `if{` is the one in `if{` |
| CodeExecutor.IfBlockStep | src/CodeExecutor.cpp:59-73 | removing one `if{..}{..}` block that ends properly shortens the text |
| CodeExecutor.StripIfBlocks | src/CodeExecutor.cpp:54-74 | when the loop ends, no `if{` is left in the text |
| CodeExecutor.IfBlockSkipsBody | src/CodeExecutor.cpp:56-74 | a leading `if{c}{b}` contributes the writes of condition `c` and nothing of body `b`, then the rest is processed; a failing condition fails the whole |
| CodeExecutor.RemoveIfBlocks | src/CodeExecutor.cpp:54-74 | the `while` loop computes the block stripping, with the condition writes in order |
| CodeExecutor.CallText | src/CodeExecutor.cpp:83 | a call found at `pos` runs up to and including the next `)`, with no `)` before it; with no `)` it is empty at 0 and the rest of the text elsewhere |
| CodeExecutor.LastBuiltinCallPicks | src/CodeExecutor.cpp:78-86 | the scan yields the call of the latest-listed built-in that occurs |
| CodeExecutor.LastBuiltinCallNone | src/CodeExecutor.cpp:78-86 | when no built-in occurs the scan yields `""` |
| CodeExecutor.CallFoundInText | src/CodeExecutor.cpp:78-86 | anything found in the picked call text is found in the scanned text |
| CodeExecutor.FindBuiltinCall | src/CodeExecutor.cpp:78-86 | the `for` loop keeps the call of the last built-in of the list that occurs |
| CodeExecutor.ExecuteStateExpr | src/CodeExecutor.cpp:50-91 | an entry expression yields the writes of its condition blocks, then those of its last built-in call |
| CodeExecutor.StateExprStages | src/CodeExecutor.cpp:50-91 | the writes of an entry expression are those of the `if{` pass on its space-free text followed by those of the call the scan picks |
| CodeExecutor.EntryWritesNeedOutput | src/CodeExecutor.cpp:76-91 | an entry expression without `if{` blocks changes outputs only if it contains `output(` |
| CodeExecutor.ApplyWrites | src/MooreMachine.cpp:179-181 | applying writes adds exactly the written names as keys |
| CodeExecutor.ApplyWritesAppend | src/MooreMachine.cpp:179-181 | applying two lists in turn equals applying their concatenation |
| CodeExecutor.ApplyWritesUntouched | src/CodeExecutor.cpp:174-184 | an output no write names keeps its value, or stays absent |
| CodeExecutor.ApplyWritesLast | src/CodeExecutor.cpp:174-184 | an output ends with the value of its last write |
| CodeExecutor.ApplyWritesRepeat | src/CodeExecutor.cpp:156-157 | repeating the same writes, as the triple `atoi` evaluation does, changes nothing more |
| CodeExecutor.LastWriteTo | src/CodeExecutor.cpp:174-184 | a name that is written has a last write |
| ExecutorExamples.ValueofIn | src/CodeExecutor.cpp:163-170 | `valueof("in"` is a string, the value of input `in` |
| ExecutorExamples.AtoiOfNumeral | src/CodeExecutor.cpp:150-158 | `atoi(valueof("in"))` is the int 1 when the value of `in` is `"1"` |
| ExecutorExamples.AtoiFallsThrough | src/CodeExecutor.cpp:150-170 | when the value is not a numeral, `atoi(valueof("in"))` falls through to `valueof` and is a string |
| ExecutorExamples.NumeralOne | src/CodeExecutor.cpp:186-189 | the literal `1` is the int 1 |
| ExecutorExamples.GuardHolds | src/MooreMachine.cpp:534 | the guard `atoi(valueof("in"))==1` holds without writes whenever the value of `in` is `"1"` |
| ExecutorExamples.WorkedGuard | src/MooreMachine.cpp:534 | with `in` declared and given `"1"`, the guard `atoi(valueof("in"))==1` holds and writes nothing |
| ExecutorExamples.SampleGuardParses | src/MooreMachine.cpp:48-60 | the example transition `in [ atoi(valueof("in")) == 1  ]` parses to the guard `atoi(valueof("in")) == 1`, inner spaces kept |
| ExecutorExamples.WorkedTransition | src/MooreMachine.cpp:534 | that parsed guard, spaces and all, holds with no writes when `in` is given `"1"` |
| ExecutorExamples.OutputCallWrites | src/CodeExecutor.cpp:174-184 | `output("out",1)` is -1 and writes the raw text `1` to `out` |
| ExecutorExamples.BracedScan | src/MooreMachine.cpp:522 | the scan of `{output("out",1)}` picks the call `output("out",1)` |
| ExecutorExamples.OutputWrites | src/MooreMachine.cpp:522 | the entry expression `{ output("out", 1) }` sets `out` to `"1"` |
| ExecutorExamples.EmptyEntry | src/MooreMachine.cpp:523 | the entry expression `{ }` writes nothing |
| Machine.IsValidType | src/MooreMachine.cpp:22-30 | a type is allowed exactly when it is one of `int`, `string`, `char`, `bool`, `double`, `float` (the list of MooreMachine.h:41) |
| Machine.Visit | src/MooreMachine.cpp:202-224 | one loop pass leaves the state or moves to the entry's target only if it fires; other inputs and empty guards change nothing |
| Machine.RunTarget | src/MooreMachine.cpp:195-230 | after any scan, the state is the start one or the target of a transition of the starting table that fires |
| Machine.RunQuiet | src/MooreMachine.cpp:205-222 | a scan of entries for other inputs or with empty guards changes nothing |
| Machine.RunAppend | src/MooreMachine.cpp:202-224 | a scan over two stretches of the table is the second stretch resumed from the end of the first, unless the first stopped at an error, which then ends the scan |
| Machine.Below | src/MooreMachine.cpp:259 | the indices `0 .. n-1` |
| Machine.ReachableStep | src/MooreMachine.cpp:14-17 | a target of `a` that reaches `c` makes `c` reachable from `a` |
| Machine.ReachableSelf | src/MooreMachine.cpp:13 | every state reaches itself |
| Machine.ClosedSetHoldsReachable | src/MooreMachine.cpp:12-20 | a set of states closed under transition targets holds all that its members reach |
| Machine.MooreMachine.constructor | src/MooreMachine.h:29 | an empty machine whose start state is -1 |
| Machine.MooreMachine.IsInputValid | src/MooreMachine.cpp:232-240 | true exactly when the name is a declared input |
| Machine.MooreMachine.AddStartState | src/MooreMachine.cpp:108-122 | while no start state exists, appends it and makes it start and current, returning its index; otherwise -1 and nothing changes |
| Machine.MooreMachine.AddState | src/MooreMachine.cpp:124-128 | appends the state and returns the old length, changing nothing else |
| Machine.MooreMachine.AddTransition | src/MooreMachine.cpp:130-132 | sets the parsed expression's entry of one state, overwriting an equal key; other states unchanged; keeps a closed machine closed |
| Machine.MooreMachine.AddVariable | src/MooreMachine.cpp:136-149 | appends only a variable of an allowed type with an unused name, else leaves the variables unchanged |
| Machine.MooreMachine.AddInput | src/MooreMachine.cpp:151-159 | appends an input only if it is new, so inputs stay distinct |
| Machine.MooreMachine.AddOutput | src/MooreMachine.cpp:161-169 | appends an output only if it is new, so outputs stay distinct |
| Machine.MooreMachine.SetCurrentOutput | src/MooreMachine.cpp:179-181 | sets one output's value and nothing else |
| Machine.MooreMachine.SetInitialOutput | src/MooreMachine.cpp:183-187 | every declared output becomes `""`, other entries keep their values |
| Machine.MooreMachine.ProcessStartState | src/MooreMachine.cpp:189-192 | the current state's entry expression is run and its writes applied; on an error the model's outputs are unchanged (see Left out) |
| Machine.MooreMachine.VisitTransition | src/MooreMachine.cpp:205-223 | the loop body does exactly one pass of the scan |
| Machine.MooreMachine.ProcessInput | src/MooreMachine.cpp:195-230 | an undeclared input changes nothing; otherwise the final state is the scan of the starting table in some order, and is the old state or the target of a firing transition |
| Machine.MooreMachine.Indices | src/MooreMachine.cpp:259 | the indices of the states |
| Machine.MooreMachine.Dfs | src/MooreMachine.cpp:12-20 | the visited set grows by the state, and each newly visited state is reachable and has its targets visited |
| Machine.MooreMachine.CheckReachability | src/MooreMachine.cpp:254-264 | reports, in increasing order, exactly the states not reachable from state 0 |
| Machine.MooreMachine.CheckDeadStates | src/MooreMachine.cpp:266-272 | reports, in increasing order, exactly the states with an empty table |
| Machine.MooreMachine.EquivalentAfter | src/MooreMachine.cpp:276-281 | reports, in order, the states after `i` with the same entry expression and table |
| Machine.MooreMachine.CheckRedundancy | src/MooreMachine.cpp:274-283 | reports, in loop order, exactly the pairs `i < j` with equal entry expressions and tables |
| Machine.MooreMachine.DoAllChecks | src/MooreMachine.cpp:285-289 | runs all three checks with their results as above |
| CodeGenerator.EscapeQuotes | src/generateCode.cpp:4-13 | the loop computes the text with every `"` replaced by `\"`, other characters copied in order |
| CodeGenerator.EscapedAppend | src/generateCode.cpp:7-11 | escaping distributes over concatenation |
| CodeGenerator.EscapedLength | src/generateCode.cpp:4-13 | the escaped length is the length plus the number of quotes |
| CodeGenerator.EscapedIdentity | src/generateCode.cpp:4-13 | escaping a text without quotes changes nothing |
| CodeGenerator.EscapedHead | src/generateCode.cpp:9-10 | an escaped non-empty text never starts with a bare quote |
| CodeGenerator.EscapedRoundTrip | src/generateCode.cpp:4-13 | unescaping recovers the original text, so escaping loses nothing |
| CodeGenerator.JoinSnoc | src/generateCode.cpp:57-65 | joining one more item appends the separator and the item |
| CodeGenerator.ListLinesPrefix | src/generateCode.cpp:57-65 | after `k` items the listing is their comma-joined lines, with a comma after the last only if more follow |
| CodeGenerator.ListLinesJoin | src/generateCode.cpp:57-65 | a full listing is the items joined by `,` and newline, ending in a newline without a comma |
| CodeGenerator.EmitList | src/generateCode.cpp:57-65 | the loop emits nothing for no items, else the comma-joined lines |
| CodeGenerator.Indented | src/generateCode.cpp:59 | every name is indented by three spaces, in order |
| CodeGenerator.EnumListsNames | src/generateCode.cpp:56-78 | the `States` and `Inputs` enums list the names in order, comma-separated, with no comma after the last |
| CodeGenerator.VariableEntries | src/generateCode.cpp:89-93 | one `{type, name, value}` entry per variable, in order |
| CodeGenerator.VariableTableLists | src/generateCode.cpp:86-100 | the variables table lists the entries in order, comma-separated, with no comma after the last |
| CodeGenerator.MoveIsNotGuard | src/generateCode.cpp:130-141 | a branch without a guard does not begin with a guard test |
| CodeGenerator.TransitionCodeEmpty | src/generateCode.cpp:127-158 | a transition emits nothing exactly when both its event and its delay are empty |
| CodeGenerator.InputTransitionCode | src/generateCode.cpp:127-143 | with an event, the branch starts with the input test and wraps a guard test exactly when the guard is non-empty |
| CodeGenerator.DelayTransitionCode | src/generateCode.cpp:144-158 | with no event and a delay, the sleep-then-move block is emitted |
| CodeGenerator.EmitTransition | src/generateCode.cpp:120-159 | the emitted text of one transition is its specified branch |
| CodeGenerator.EmitTransitions | src/generateCode.cpp:120-159 | the transitions' branches in order |
| CodeGenerator.EmitCases | src/generateCode.cpp:114-163 | one `case` block per state's table, in order |
| CodeGenerator.Names | src/generateCode.cpp:26-29 | the state names in order |
| CodeGenerator.OutputsByNameLast | src/generateCode.cpp:31-34 | the output map has exactly the state names as keys, and a repeated name keeps its last state's expression |
| CodeGenerator.CollectOutputs | src/generateCode.cpp:31-34 | the loop builds that map |
| CodeGenerator.EmitOutputCases | src/generateCode.cpp:173-180 | one `case` per state name printing its escaped entry expression |
| CodeGenerator.StartsInFirstState | src/generateCode.cpp:102 | right after the declarations, the program initialises `currentState` to the first state's name |
| CodeGenerator.GenerateCode | src/generateCode.cpp:15-190 | the whole emitted program is the specified text for the description |

## Left out

- The Qt GUI (windows, dialogs, scene items) and the JSON file reader are outside this model.
- JSON persistence (`createJSONFile`, `loadFromJSONFile` and the `*ToJSON` helpers) is left out. It is file streams plus a foreign JSON library.
- `printMachine`, `addMachineName`, `addMachineDescription` and every console message are left out.
  - A diagnostic becomes a returned value where it carries information: the three checks return the states or pairs they would print.
  - The `if{` body the source prints is dropped.
- `getTransitions`, `getVars` and `getInputs` are plain reads of the fields.
- Hashing: the table is a Dafny `map`. The `std::hash` XOR combination is modelled with the string hash as a parameter, because that hash is a foreign call.
- Iteration order of `unordered_map` is unspecified. `processInput` and `dfs` pick entries in an arbitrary order, and `ProcessInput` states its result for an existentially chosen enumeration of the table.
- Delays and timers: no code acts on the `delay` field at run time. The `elapsed` built-in has no evaluation branch, and `setVariable`/`getVariable` are declared without definitions. None of these is modelled beyond parsing the delay.
- CodeExecutor.Evaluate: the writes an evaluation makes before it fails are not kept. In the source they have already reached `currentOutput` when `stoi` throws.
- CodeExecutor.EvaluateCond: when the right side fails, the writes of the left side are not kept, though the source has already made them.
- CodeExecutor.StripIfBlocks: when a later condition fails, the writes of the earlier `if{` conditions are not kept, though the source has already made them.
- Machine.MooreMachine.ProcessStartState: on a failure the model leaves `currentOutput` unchanged, while the source keeps the writes made before the failure.
- Machine.MooreMachine.ProcessInput: the same holds for the entry expression or guard that fails; the writes it made before failing are not applied.
- Machine.MooreMachine.ProcessInput requires a closed machine (every target is a state) and a current state in range: `addTransition` does not check its target, and the source indexes `states` without a check.
- Machine.MooreMachine.ProcessStartState requires the current state to be in range. The source reads whatever index is current, uninitialised before a start state is added; the model starts it at -1.
- Machine.MooreMachine.AddTransition requires `fromState` to be a state, because the source indexes the vector without a check.
- Machine.MooreMachine.Dfs, Machine.MooreMachine.CheckReachability and Machine.MooreMachine.DoAllChecks require a closed, non-empty machine. Otherwise the source reads past the vector.
- CodeGenerator.GenerateCode requires a non-empty state list, because the source reads `stateNames[0]`.
- CodeGenerator.GenerateCode has three inputs that differ in form from the source:
  - The description is a record, not JSON.
  - The variables are a sequence of records, not the flattened `type, name, value` vector stepped by three. The resulting text is the same.
  - The input list is taken as given: the copy loops are not modelled as loops.
- CodeGenerator.GenerateCode: the `ofstream` and its open failure are left out. The code is returned as a string.
- CodeExecutor.IsNumber uses ASCII digits. The locale-dependent `isdigit` on other characters is not modelled.
- Integers are unbounded except where the source's `int` matters, which is `stoi` failing above `INT_MAX`.
