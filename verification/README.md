# bytecode_interpreter in Dafny

A model of a small stack-machine interpreter. A program is a text file with
one instruction per line:

- `LOAD_VAL n` pushes a literal;
- `WRITE_VAR 'x'` and `READ_VAR 'x'` move values between the stack and named variables;
- `ADD`, `SUB`, `MULTIPLY` and `DIVIDE` work on the two top values;
- `CMP n` subtracts `n` from the top value;
- `LABEL l` names a place in the program;
- `JMP l` and `JMP_LE l` jump to it, `JMP_LE` only when the popped value is negative;
- `RETURN_VALUE` moves the top value into the result.

The loader (`byte_code::read_file_to_bytecode`) does several things:

- it splits each line at whitespace and skips blank lines;
- it checks each line's opcode and operand count;
- it parses `i32` literals and checks variable names (`valid_variable`);
- it records each label as one more than the number of instructions before it;
- it requires the program to hold exactly one `RETURN_VALUE`, as its last instruction.

The interpreter (`byte_code::execute`) runs from an empty stack with the
result set to 0. It loops while the instruction counter is inside the
program, and returns the result once the counter leaves it.

Modules, in dependency order:

| module | contents |
|---|---|
| `Wrappers` | `Option` and `Result` with the `:-` operator |
| `Int32` | the `i32` range, division truncating toward zero, decimal parsing and printing |
| `Identifier` | `valid_variable`, including UTF-8 byte length and the order of its checks |
| `Tokenizer` | `split_whitespace` |
| `Bytecode` | `ByteCodeInstruction` and the loaded program (instructions plus label map) |
| `Loader` | `check_length`, one line's decoding, the line-by-line assembly, the `RETURN_VALUE` check |
| `LoaderProperties` | reference definitions of what a load yields, and completeness of the load |
| `Listing` | programs as listings, and the print/load round trip |
| `Interpreter` | one iteration of the `execute` loop, and fuel-bounded runs |
| `InterpreterProperties` | the opcodes' effects, the `i32` range invariant, run composition |
| `LabelArithmetic` | the label `+1` and jump `-1` cancelling, and no counter underflow |
| `ReturnSemantics` | what `RETURN_VALUE` does and does not do |
| `Golden` | worked programs, loaded from text and run to the end |

Integers are unbounded in Dafny. Every `i32` result is checked against the
range explicitly. A result outside the range ends the run as a panic, which
is how a debug build of the source behaves.

`execute` may loop forever, so `Run` takes a fuel bound and reports
`OutOfFuel` when the bound runs out first.

Running off the end of the program is not an error: the loop ends and
`Ok(res)` is returned, 0 when no `RETURN_VALUE` ran and otherwise the last
value popped. `ReturnSemantics.JumpPastReturn` shows that a loaded program
can reach this case.

## Model

| member | source | states |
|---|---|---|
| Int32.TruncDivSpec | src/main.rs:314 | `y / x` on `i32` rounds toward zero: the remainder is smaller than the divisor in magnitude and has the dividend's sign |
| Int32.TruncDivNonNegative | src/main.rs:314 | for a non-negative dividend and a positive divisor, truncating division agrees with Euclidean division |
| Int32.MulIsProduct | src/main.rs:286-294 | the multiplication the interpreter uses, defined by repeated addition, is the product |
| Int32.ParseI32 | src/main.rs:89-92 | what `str::parse::<i32>` accepts is an optional sign followed by one or more digits, and its value is the numeral's value, within the `i32` range |
| Int32.ParseUnsigned | src/main.rs:89-92 | conversely, every string of digits whose value fits an `i32` is accepted with that value |
| Int32.ParseSigned | src/main.rs:89-92 | every string of digits with a `+` or `-` in front is accepted with its signed value when that fits an `i32` |
| Int32.ParseShow | src/main.rs:89-92 | every `i32` printed in decimal parses back to itself |
| Int32.ParseImage | src/main.rs:123-126 | parsing then printing then parsing again is stable |
| Identifier.Utf8LengthBounds | src/main.rs:332 | the byte length is at least the character count, and equal to it for ASCII text |
| Identifier.ValidVariable | src/main.rs:330-364 | a token is accepted exactly when it is a quoted ASCII name. The result is the lower-cased name. `TooShort` comes exactly when the UTF-8 length is under 3, and `NotAscii` exactly when the length is enough but the text is not ASCII |
| Identifier.LowerName | src/main.rs:362 | lower-casing keeps a name a name |
| Identifier.ValidQuote | src/main.rs:340-363 | quoting a valid name and checking it gives back the name in lower case |
| Identifier.ValidVariableCanonical | src/main.rs:362-363 | re-quoting an accepted variable gives the same variable |
| Identifier.CaseInsensitive | src/main.rs:362 | two spellings that differ only in case name the same variable |
| Identifier.LengthBeforeAscii | src/main.rs:331-338 | the length check comes before the ASCII check, and counts bytes rather than characters: `éé`, two characters but four bytes, passes it and is rejected as non-ASCII |
| Identifier.CheckOrder | src/main.rs:339-363 | for every token, the quote error comes exactly when the length and ASCII checks pass and a quote is missing. The first-character error comes exactly when the quotes are there and the first body character is neither a letter nor `_`. The other-character error comes exactly when that character is fine and some body character is not a letter, digit or `_` |
| Identifier.CheckOrderExamples | src/main.rs:339-363 | `abc` lacks quotes, `'1abc'` has a bad first character, `'a-b'` a bad later character, and `'X1_'` is accepted as `x1_` |
| Tokenizer.SkipSpaceSpec | src/main.rs:76 | skipping leading whitespace leaves a suffix of the line, drops only whitespace, and loses no visible character |
| Tokenizer.WordLengthSpec | src/main.rs:76 | a word runs up to the first whitespace character, or to the end of the line |
| Tokenizer.SplitWhitespaceSpec | src/main.rs:74-78 | every token is non-empty and whitespace-free, and together the tokens hold the line's visible characters in order. That each token is a maximal run of visible characters is stated by `Tokenizer.SplitWord` |
| Tokenizer.BlankLine | src/main.rs:79-81 | a line splits into nothing exactly when it is all whitespace |
| Tokenizer.SplitWord | src/main.rs:76 | a token followed by whitespace or by the end of the line is split off whole, as one token, ahead of the split of the rest |
| Tokenizer.SplitAlone | src/main.rs:76 | a line that is a single token splits into exactly that token |
| Tokenizer.SplitSkip | src/main.rs:76 | leading whitespace does not change the split |
| Tokenizer.SplitSpace | src/main.rs:76 | one leading space does not change the split |
| Tokenizer.SplitJoin | src/main.rs:74-78 | tokens joined by single spaces split back into the same tokens |
| Loader.CheckLength | src/main.rs:39-51 | succeeds exactly when the line has the expected number of tokens, and otherwise reports one less than that number |
| Loader.IntegerOperand | src/main.rs:84-96 | the operand of `LOAD_VAL`/`CMP` is accepted exactly when it parses as an `i32` |
| Loader.VariableOperand | src/main.rs:98-118 | the operand of `WRITE_VAR`/`READ_VAR` is accepted exactly when `valid_variable` accepts it. The stored name is the token's body between the quotes, lower-cased |
| Loader.DecodeLine | src/main.rs:82-186 | an unknown opcode is an error, and a known opcode with the wrong token count is an arity error. A decoded instruction is well formed and keeps its opcode. A line is a label definition exactly when it is `LABEL` with one operand, and the operand-free opcodes decode exactly when they stand alone. Which value or name the instruction carries is stated by `Loader.DecodeOperands` |
| Loader.DecodeOperands | src/main.rs:84-172 | a line with one operand fails exactly when its operand is rejected: `LOAD_VAL`/`CMP` when the operand does not parse as an `i32`, with the integer error, and `WRITE_VAR`/`READ_VAR` when `valid_variable` rejects it, with that error. Otherwise the instruction carries the parsed value, the lower-cased body of the quoted name, or the label token as written |
| Loader.DecodeEncode | src/main.rs:84-183 | printing a well-formed instruction and decoding it gives it back |
| Loader.EncodeDecode | src/main.rs:84-183 | a decoded line, printed in canonical form, decodes to the same thing |
| Loader.AssembleLine | src/main.rs:79-183 | after each line the instruction counter equals the number of instructions emitted so far |
| Loader.Assemble | src/main.rs:72-188 | the emitted instructions are well formed, and every label stores a value between 1 and one more than the program length |
| Loader.FirstReturn | src/main.rs:191-198 | finds the first `RETURN_VALUE`, or reports that there is none |
| Loader.CheckReturn | src/main.rs:190-202 | succeeds exactly when the first `RETURN_VALUE` is the last instruction, and reports a missing one separately |
| Loader.Load | src/main.rs:64-204 | a loaded program ends in its only `RETURN_VALUE`, its instructions are well formed, and every label stays in range |
| LoaderProperties.LastMark | src/main.rs:174-183 | finds the last `LABEL` line that defines a given label |
| LoaderProperties.EmittedAppend | src/main.rs:73-188 | the instructions of two stretches of lines are the instructions of each, in order |
| LoaderProperties.AssembleSound | src/main.rs:72-188 | the assembled code is the instructions of the lines in order. A label is defined exactly when some `LABEL` line names it, and it stores one more than the number of instructions before its last definition, so a repeated label overwrites the earlier one |
| LoaderProperties.AssembleErrors | src/main.rs:82-186 | assembly succeeds exactly when every line decodes, and otherwise fails with the error of the first line that does not |
| LoaderProperties.LoadSound | src/main.rs:64-204 | a load succeeds exactly when every line decodes and the instructions end in their only `RETURN_VALUE`. The loaded code and labels are those of the lines |
| LoaderProperties.NoReturns | src/main.rs:190-198 | the count of `RETURN_VALUE`s is zero exactly when none occurs |
| LoaderProperties.ExactlyOneReturn | src/main.rs:190-202 | the return check accepts exactly the programs with one `RETURN_VALUE` in last place, and rejects the empty program |
| LoaderProperties.LoadTextJoined | src/main.rs:73-81 | loading text lines written out from token lines is loading the token lines, with empty lines skipped as blank |
| Listing.Snoc | src/main.rs:174-183 | one more listed entry adds an instruction, or redefines a label as the current count plus one |
| Listing.AppendPlain | src/main.rs:79-172 | listing more instructions appends them and leaves the labels alone |
| Listing.LabelledAt | src/main.rs:174-183 | a label listed before instruction `j` stores `j + 1` |
| Listing.LabelledWellFormed | src/main.rs:84-172 | inserting a label keeps every listed instruction well formed |
| Listing.AssemblePrinted | src/main.rs:72-188 | assembling a printed listing never fails, and gives back its instructions and labels |
| Listing.LoadPrinted | src/main.rs:64-204 | a printed listing loads exactly when its instructions end in their only `RETURN_VALUE`, and then to its instructions and labels |
| Listing.LoadPlain | src/main.rs:64-204 | a valid program printed without labels loads back to itself |
| Listing.LoadLabelled | src/main.rs:64-204 | the same program with one label inserted before instruction `j` loads back with that label storing `j + 1` |
| Interpreter.JumpToSpec | src/main.rs:253-272 | a jump sets the counter to the label's value less one. A missing label is an error, and a label value of 0 is a counter underflow |
| Interpreter.StepUnderflow | src/main.rs:215-323 | an iteration fails with a stack underflow exactly when the instruction needs more values than the stack holds, except that `DIVIDE` on a lone 0 reports the zero divisor. The fault names where the pop happened, with the variable for `WRITE_VAR` and the operand for `CMP`. A successful iteration had all the values it pops |
| Interpreter.StepEffect | src/main.rs:221-323 | a successful iteration pops the instruction's inputs, pushes as many values as the instruction produces on the remaining stack (which values is stated by `InterpreterProperties.Arithmetic`, `Compare` and the per-opcode `*Moves` lemmas), and moves the counter on by one unless it jumps |
| InterpreterProperties.StepInRange | src/main.rs:209-213 | every value on the stack, in the variables and in the result stays in the `i32` range |
| InterpreterProperties.RunInRange | src/main.rs:207-325 | a finished run returns an `i32` |
| InterpreterProperties.RunMoreFuel | src/main.rs:215-324 | more fuel does not change a run that ended within its fuel |
| InterpreterProperties.RunUnfold | src/main.rs:215-324 | a run is its first iteration followed by the run from there |
| InterpreterProperties.RunMoves | src/main.rs:215-324 | a successful iteration from one machine to the next costs one unit of fuel and leaves the rest of the run to the next machine |
| InterpreterProperties.RunMoves2 | src/main.rs:215-324 | the same for two iterations in a row |
| InterpreterProperties.RunMoves3 | src/main.rs:215-324 | the same for three iterations in a row |
| InterpreterProperties.RunMoves4 | src/main.rs:215-324 | the same for four iterations in a row |
| InterpreterProperties.LoadValMoves | src/main.rs:223-225 | `LOAD_VAL n` pushes `n` and changes nothing else |
| InterpreterProperties.WriteVarMoves | src/main.rs:227-235 | `WRITE_VAR x` pops the top value into `x`, overwriting an earlier binding |
| InterpreterProperties.ReadVarMoves | src/main.rs:237-243 | `READ_VAR x` pushes the value bound to `x` |
| InterpreterProperties.ReturnMoves | src/main.rs:317-321 | `RETURN_VALUE` pops the top value into the result and goes on to the next instruction |
| InterpreterProperties.AddMoves | src/main.rs:277-285 | `ADD` replaces the two top values by their sum when it fits an `i32` |
| InterpreterProperties.CmpMoves | src/main.rs:245-251 | `CMP n` replaces the top value `v` by `v - n` when it fits an `i32` |
| InterpreterProperties.JmpMoves | src/main.rs:253-260 | `JMP l` leaves the stack alone and moves the counter to the value stored for `l`, less one |
| InterpreterProperties.JmpLeMoves | src/main.rs:262-274 | `JMP_LE l` pops the top value and jumps as `JMP l` does when it is negative, and goes on to the next instruction otherwise |
| InterpreterProperties.RunTrace | src/main.rs:215-324 | a run through a chain of successful iterations is the run from the chain's last machine |
| InterpreterProperties.Arithmetic | src/main.rs:277-315 | `ADD`, `SUB`, `MULTIPLY` and `DIVIDE` replace the two top values `y, x` by `Apply(op, y, x)`, which takes the second value popped as the left operand and truncates division. A zero divisor is an error, and a result outside `i32` panics instead of being pushed |
| InterpreterProperties.Compare | src/main.rs:245-251 | `CMP n` replaces the top value `v` by `v - n` |
| InterpreterProperties.DivisorCheckedFirst | src/main.rs:304-310 | a lone zero on the stack is a division by zero, not an underflow, because the divisor is checked before the dividend is popped |
| InterpreterProperties.WriteThenRead | src/main.rs:227-243 | `WRITE_VAR x` then `READ_VAR x` leaves the stack as it was and binds `x` to the old top value |
| InterpreterProperties.ReadUnbound | src/main.rs:237-241 | reading a variable never written is an error |
| InterpreterProperties.JumpIfNegative | src/main.rs:262-274 | `JMP_LE` jumps only on a strictly negative value, falls through on zero or more, and pops the value either way |
| LabelArithmetic.MarkEmitsNothing | src/main.rs:174-183 | a `LABEL` line emits no instruction |
| LabelArithmetic.SplitAtMark | src/main.rs:174-183 | a `LABEL` line splits the instructions into those before it and those after it |
| LabelArithmetic.LabelValue | src/main.rs:72-183 | a label stores one more than the number of instructions before its last definition |
| LabelArithmetic.TakenJump | src/main.rs:253-272 | a taken jump sets the counter to the stored value less one |
| LabelArithmetic.TakenJumpStep | src/main.rs:253-272 | a taken `JMP` or `JMP_LE` looks its label up on the machine after the pop, if any |
| LabelArithmetic.PcUnderflowOnJump | src/main.rs:253-272 | a counter underflow can only come from a taken jump to a label that stores 0 |
| LabelArithmetic.JumpLands | src/main.rs:174-183 | in a loaded program a taken jump resumes exactly at the first instruction after the label's last definition, at most one past the end |
| LabelArithmetic.JumpToUndefined | src/main.rs:253-270 | a jump to a label no line defines is a run-time error, not a load error |
| LabelArithmetic.NoCounterUnderflow | src/main.rs:258 | in a loaded program the jump's `inst_num -= 1` never underflows |
| ReturnSemantics.ReturnHalts | src/main.rs:190-202 | once the only `RETURN_VALUE` is last, the loop agrees with a reading in which `RETURN_VALUE` stops the run at once |
| ReturnSemantics.LoadedReturnHalts | src/main.rs:64-204 | for every loaded program, `execute` agrees with that stopping reading |
| ReturnSemantics.ReturnNotTerminal | src/main.rs:317-321 | by itself `RETURN_VALUE` does not end the loop: a second one overwrites the result, and the loader rejects such a program |
| ReturnSemantics.TwoReturnsRun | src/main.rs:317-323 | the loop runs past a first `RETURN_VALUE` and returns the value popped by the second |
| ReturnSemantics.TwoReturnsHalt | src/main.rs:317-321 | read as a return, the first `RETURN_VALUE` ends the run with its value |
| ReturnSemantics.NoReturnKeepsResult | src/main.rs:213 | a run that never executes `RETURN_VALUE` finishes with the result it started from |
| ReturnSemantics.JumpPastReturn | src/main.rs:213-325 | a loaded program can jump past its `RETURN_VALUE` and then finishes with the initial 0 |
| Golden.BinaryTail | src/main.rs:277-321 | an arithmetic instruction followed by `RETURN_VALUE` finishes with the operation's value, or with its error |
| Golden.BinaryRun | src/main.rs:64-325 | a two-literal arithmetic program loads back from its text and finishes with the expected outcome |
| Golden.SubtractExample | src/main.rs:295-303 | `10 - 3` gives 7: the top value is the right operand |
| Golden.DivideExample | src/main.rs:304-315 | `-7 / 2` gives `-3`, truncating toward zero |
| Golden.DivideOverflowExample | src/main.rs:304-315 | `i32::MIN / -1` overflows |
| Golden.DivideByZeroExample | src/main.rs:304-310 | `1 / 0` is a division-by-zero error |
| Golden.VariableSpelling | src/main.rs:330-364 | `'X__'` and `'x__'` name the same variable |
| Golden.VariableDecode | src/main.rs:98-118 | `WRITE_VAR 'X__'` and `READ_VAR 'x__'` decode to the same lower-cased name |
| Golden.VariableRun | src/main.rs:64-325 | for every `i32` value `v` and lower-case name `x`, `LOAD_VAL v`, `WRITE_VAR x`, `READ_VAR x`, `RETURN_VALUE` loads back from its text and finishes with `v`: the value written to a variable is read back |
| Golden.VariableLoads | src/main.rs:64-204 | that program loads from its printed lines |
| Golden.VariableFinishes | src/main.rs:215-323 | that program finishes with `v` after four iterations |
| Golden.LoadLoop | src/main.rs:64-204 | the counting loop's text loads with its label storing 5 |
| Golden.LoopAdd | src/main.rs:223-285 | one pass adds 2 to the accumulator |
| Golden.LoopIncrement | src/main.rs:237-251 | one pass adds 1 to the counter |
| Golden.LoopBranch | src/main.rs:262-274 | the loop's `JMP_LE` goes back to index 4 while the counter is negative, and falls through otherwise |
| Golden.LoopExit | src/main.rs:237-325 | after the loop the accumulator is returned |
| Golden.LoopPass | src/main.rs:215-324 | one full pass of the loop body, then the branch |
| Golden.LoopPassBack | src/main.rs:262-274 | a pass that jumps back to the head costs nine iterations and keeps the run's outcome |
| Golden.LoopLastPass | src/main.rs:262-325 | the pass that brings the counter from -1 to 0 falls through and returns the accumulator |
| Golden.LoopRuns | src/main.rs:215-325 | starting with counter `n < 0`, the loop runs `-n` passes and finishes with the accumulator plus `-2n` |
| Golden.LoopStart | src/main.rs:209-235 | the four set-up instructions bind the counter to `-k` and the accumulator to 0 |
| Golden.LoopResult | src/main.rs:207-325 | a program of the loop's shape finishes with `2k` |
| Golden.LoopProgramShape | src/main.rs:64-204 | the loaded loop program has the loop's shape |
| Golden.LoopExample | src/main.rs:64-325 | the counting loop loads from its text and finishes with `2k` |

## Left out

- File I/O: opening the file, `BufReader::lines()` and `convert_to_result` (src/main.rs:53-75) are not modelled. `Loader.Load` takes the lines already split into tokens. `Loader.LoadText` applies the modelled `split_whitespace` to text lines.
- `main` (src/main.rs:366-384) only opens a fixed file name and prints. It is not modelled.
- Error messages are modelled as datatype constructors, and their wording is left out. Load errors keep the data their message carries: the token line, the expected operand count, the opcode, or the error `valid_variable` returned. A stack underflow records which pop failed, with the variable for `WRITE_VAR` and the operand for `CMP`, as those two messages do. `UnboundVariable` keeps the variable. `UnknownLabel` keeps the label, although the message for a missing label does not name it.
- Non-termination: `Interpreter.Run` takes a fuel bound, so a program that loops forever is modelled only as `OutOfFuel` for every finite fuel.
- InterpreterProperties.Arithmetic: arithmetic overflow is modelled as the debug-build panic. A release build wraps around instead, except for `i32::MIN / -1`, which panics in both builds. Wrap-around is not modelled.
- Interpreter.JumpToSpec: a label value of 0 is modelled as a counter-underflow panic, as in a debug build. `LabelArithmetic.NoCounterUnderflow` shows that a loaded program never stores 0, so the release build's wrap-around cannot happen there.
- Int32.ParseI32: the grammar is an optional `+` or `-` followed by at least one ASCII digit. It is the grammar of `str::parse::<i32>`, but the error kinds it distinguishes are collapsed into one.
- Tokenizer.IsWhitespace: the Unicode White_Space set is written out as code-point ranges; the model includes no Unicode tables beyond it.
- Identifier.ValidVariable: after the ASCII check, `is_alphabetic` and `is_alphanumeric` are needed only on ASCII characters, and are modelled only there.
- The operations on `HashMap` are modelled as Dafny maps. Their hashing and iteration order play no part in the behaviour.
