# CSBasic in Dafny

A model of the core of CSBasic. CSBasic is a small interpreter, written in C#, for a line-numbered BASIC dialect. Every source line has the form `<label> <statement>`. The interpreter does three things:

- It loads the lines into a table sorted by label (`LoadCode` / `ExtractLabels`).
- It runs the statement at the current position, then the next one, until the position passes the last line (`Execute`).
- For each line, it tokenizes the text (`Tokenizer.Tokenize`) and runs one statement: `PRINT`, `IF`, `GOTO` or `LET` (`ExecuteStatement`).

Expressions are evaluated by precedence climbing over a queue of tokens (`EvaluateExpression`, `EvaluateExpression1`, `EvaluatePrimary`, `EvaluateFunction`).

The model has one module per concern:

| file | module | what it holds |
|---|---|---|
| `Failures.dfy` | `Failures` | the exceptions the C# code can raise, as `Error` values; a `Result` type with early return |
| `Int32.dfy` | `Int32` | C# `int`: wrap-around `+ - *`, `/` truncating toward zero, `int.Parse`, decimal printing |
| `Tokenizer.dfy` | `Tokenizer` | the eight token patterns; the priority search (`Lex`); the scanning loop (`Scan`, `Tokenize`) |
| `Evaluator.dfy` | `Evaluator` | precedence, the four operators, `RND(`, and the mutually recursive evaluator (`Primary`, `Function`, `Expression`, `Climb`, `Absorb`), plus a textbook two-level grammar (`RefExpression`) as a reference |
| `LineTable.dfy` | `LineTable` | the sorted line table (`SortedList.Add`, `IndexOfKey`); splitting a source line; `LoadCode` |
| `Statements.dfy` | `Statements` | the interpreter state and `ExecuteStatement` |
| `Machine.dfy` | `Machine` | the fetch–execute loop; the loop's laws are proved once for any line executor and then applied to the real one |
| `Examples.dfy` | `Examples` | worked examples on concrete tokens and text |
| `ExampleRun.dfy` | `ExampleRun` | a whole four-line program, from its source text through loading to the final state |

How C# runtime behaviour is represented:

- Every exception the C# code can throw becomes a `Fail` result that carries the matching `Error`. This covers:
  - `Dequeue` on an empty queue;
  - an unknown variable;
  - division by zero, and `int.MinValue / -1`;
  - a malformed or out-of-range number;
  - a negative `RND(` bound;
  - a source line without a space, and a duplicate label;
  - the failed `=` assertion in `LET`;
  - a negative line index.
- `System.Random` is a parameter. It is an oracle `nat -> nat`, and the state counts how many draws have been made.
- `Console.WriteLine` appends to an output sequence in the state.

Behaviour a reader may not expect, which the model reproduces:

- **A GOTO to a label that does not exist** makes `IndexOfKey` return -1. The counter becomes -2, and the loop's `++` moves it to -1. The next fetch, `lines.Keys[-1]`, then throws. The run crashes; it does not jump to the first line (`Machine.GotoMissingCrashes`).
- **`PRINT -7/2` prints 0, not -3.** There is no unary minus. The `-` token is a primary with the value 0, and the expression ends at the `7` that follows it (`Examples.NoUnaryMinus`, `Evaluator.OtherTokenIsZero`).
- **`IF` never holds for `<=`, `>=` and `<>`.** The tokenizer produces these operators, but the comparison only knows `<`, `>` and `=` (`Statements.CompoundRelopsNeverHold`).
- **A label may carry a sign.** `int.Parse` accepts a leading `+` or `-`, so `-5 PRINT 1` loads as the line labelled -5 (`Int32.ParseInt32`).

## Model

| member | source | states |
|---|---|---|
| Tokenizer.MatchLen | src/basic/tokenization/Tokenizer.cs:11-18 | the anchored match of one pattern never consumes more than the text (what it consumes is stated by MatchLenSpec) |
| Tokenizer.MatchLenSpec | src/basic/tokenization/Tokenizer.cs:11-18 | each kind's matcher returns a prefix in that kind's regular language, and no longer prefix of the text is in the language |
| Tokenizer.FirstMatchFromSpec | src/basic/tokenization/Tokenizer.cs:40-48 | the search returns the first pattern, in `tokenTypes` order, that matches; every pattern before it matches no prefix |
| Tokenizer.TrimStart | src/basic/tokenization/Tokenizer.cs:39 | the input is some number of spaces followed by the result, and the result does not start with a space |
| Tokenizer.Lex | src/basic/tokenization/Tokenizer.cs:40-48 | the token found is a non-empty prefix of the text (which one is stated by LexSpec) |
| Tokenizer.LexSpec | src/basic/tokenization/Tokenizer.cs:20-48 | no token when no pattern matches a non-empty prefix; otherwise the token is the longest match of the first pattern that matches, and no earlier pattern matches anything |
| Tokenizer.Scan | src/basic/tokenization/Tokenizer.cs:35-58 | the text left unread is never longer than the input (ScanStops, ScanDecomposes and ScanTokensWellFormed state the rest) |
| Tokenizer.Tokenize | src/basic/tokenization/Tokenizer.cs:35-58 | each token takes at least one character of the text, so there are never more tokens than characters (ScanDecomposes and ScanPicksByPriority state which tokens) |
| Tokenizer.ScanStops | src/basic/tokenization/Tokenizer.cs:37-54 | tokenizing stops only at the end of the text, or at a non-space where no pattern matches |
| Tokenizer.ScanTokensWellFormed | src/basic/tokenization/Tokenizer.cs:40-48 | every token's text is non-empty, has no spaces, and is in the language of its kind |
| Tokenizer.ScanDecomposes | src/basic/tokenization/Tokenizer.cs:35-58 | the input is exactly, in order, runs of spaces interleaved with the token texts, followed by the unread rest: nothing is dropped but spaces and nothing is reordered |
| Tokenizer.ScanPicksByPriority | src/basic/tokenization/Tokenizer.cs:35-58 | each emitted token is what the priority search picks at its position in the input |
| Tokenizer.LexFunc | src/basic/tokenization/Tokenizer.cs:17 | two or more capitals followed by `(` are one FUNC token that includes the `(` |
| Tokenizer.LexCmd | src/basic/tokenization/Tokenizer.cs:18 | a maximal run of two or more capitals, not followed by `(`, is one CMD token |
| Tokenizer.LexVar | src/basic/tokenization/Tokenizer.cs:13 | a single capital not followed by another capital is a VAR token |
| Tokenizer.LexNumber | src/basic/tokenization/Tokenizer.cs:12 | a maximal run of digits is one NUMBER token |
| Tokenizer.LexMinus | src/basic/tokenization/Tokenizer.cs:14 | `-` is always a BINOP on its own, even directly before digits |
| Tokenizer.LexRelopPair | src/basic/tokenization/Tokenizer.cs:11 | `<>`, `<=`, `>=`, `<ε`, `>ε` are one RELOP token each, not two |
| Tokenizer.LexLoneRelop | src/basic/tokenization/Tokenizer.cs:11 | `<` or `>` not followed by `>`, `=` or `ε` is a one-character RELOP token |
| Tokenizer.LexOperator | src/basic/tokenization/Tokenizer.cs:14 | each of `+ - * /` is a one-character BINOP token, whatever follows |
| Tokenizer.LexEquals | src/basic/tokenization/Tokenizer.cs:11 | a lone `=` is a RELOP token |
| Tokenizer.LexUnmatched | src/basic/tokenization/Tokenizer.cs:11-18 | at a character outside every pattern, no token is found |
| Tokenizer.TokenizeCons | src/basic/tokenization/Tokenizer.cs:39-47 | one step of the loop: emit the token found after the leading spaces, then continue after its text |
| Tokenizer.LeadingSpaces | src/basic/tokenization/Tokenizer.cs:39 | spaces before the text do not change the tokens |
| Tokenizer.BlankInput | src/basic/tokenization/Tokenizer.cs:37-39 | empty and all-space texts give no tokens |
| Tokenizer.OpensUnmatched | src/basic/tokenization/Tokenizer.cs:40-54 | a text that starts with an unmatchable character has no tokens |
| Tokenizer.LexCut | src/basic/tokenization/Tokenizer.cs:11-18 | no pattern reads across an unmatchable character: the token found is the same whatever follows it |
| Tokenizer.StopsAtUnmatched | src/basic/tokenization/Tokenizer.cs:40-54 | the tokens of a text are exactly those of its part before the first unmatchable character: nothing after it is read |
| Int32.Wrap | src/basic/Interpreter.cs:110-120 | unchecked `+ - *`: the result is the 32-bit value congruent to the exact result modulo 2^32 |
| Int32.TruncDiv | src/basic/Interpreter.cs:122-124 | `/` truncates: the remainder is smaller than the divisor in magnitude and never has the opposite sign of the dividend |
| Int32.TruncDivExamples | src/basic/Interpreter.cs:123 | 7/2 is 3 and -7/2 is -3, unlike Euclidean division |
| Int32.ParseInt32 | src/basic/Interpreter.cs:77 | `int.Parse`: a malformed text is BadNumber, a value outside the 32-bit range is Overflow, and digits with an optional `+` or `-` read as their signed decimal value, down to `int.MinValue` |
| Int32.ParseDecimal | src/basic/Interpreter.cs:135 | reading back a printed label gives that label |
| Evaluator.Prec | src/basic/Interpreter.cs:40-52 | `*` `/` bind at level 1, `+` `-` at level 0, and everything else is below every operator |
| Evaluator.Apply | src/basic/Interpreter.cs:109-125 | `+ - *` wrap modulo 2^32 and never fail; `/` fails with DivideByZero exactly on a zero divisor, with Overflow exactly on `int.MinValue / -1`, succeeds in every other case, and then truncates |
| Evaluator.QuotientFits | src/basic/Interpreter.cs:123 | every truncated quotient except `int.MinValue / -1` fits in 32 bits |
| Evaluator.Draw | src/basic/Interpreter.cs:59 | `Random.Next(n)`: fails exactly when n is negative, and otherwise lies in [0, n), or is 0 when n is 0 |
| Evaluator.DrawCovers | src/basic/Interpreter.cs:59 | every value in [0, n) is the draw of some random source |
| Evaluator.Primary | src/basic/Interpreter.cs:67-83 | a primary takes at least one token off the queue, never undoes a draw, and fails on an empty queue |
| Evaluator.Function | src/basic/Interpreter.cs:54-65 | `RND(` never yields a negative value and makes a draw; any other function succeeds exactly when a token follows, yields 0 and draws nothing |
| Evaluator.Expression | src/basic/Interpreter.cs:85-87 | an expression consumes at least one token and never undoes a draw |
| Evaluator.Climb | src/basic/Interpreter.cs:89-129 | the operator loop never grows the queue, and consumes when the front is an operator at the current level |
| Evaluator.Absorb | src/basic/Interpreter.cs:98-107 | the inner loop consumes when the front token binds tighter than the operator, and stops only at the end of the queue or at a token that does not bind tighter |
| Evaluator.ClimbTerm | src/basic/Interpreter.cs:89-129 | at level 1 the operator loop is the `term` rule: fold each `*` or `/` primary in from the left |
| Evaluator.ClimbSum | src/basic/Interpreter.cs:89-129 | at level 0 the operator loop finishes the current term's `*`/`/` factors, then folds in the `+`/`-` terms from the left |
| Evaluator.ExpressionIsReference | src/basic/Interpreter.cs:85-129 | the precedence-climbing evaluator equals the textbook two-level grammar on every input, error cases included |
| Evaluator.ExpressionStops | src/basic/Interpreter.cs:89-129 | an expression stops only at the end of the queue or at a token that is not an operator |
| Evaluator.ExpressionSuffix | src/basic/Interpreter.cs:85-129 | the evaluator only takes tokens off the front of the queue: what is left is a suffix of the input |
| Evaluator.RandomInRange | src/basic/Interpreter.cs:54-65 | `RND(n)` with n > 0 draws once, yields a value in [0, n), and drops the token after the argument |
| Evaluator.RandomNegative | src/basic/Interpreter.cs:57-59 | `RND(` with a negative argument fails |
| Evaluator.OtherFunctionSkipsArgument | src/basic/Interpreter.cs:54-65 | any other function is 0, drops exactly the next token, and reads no variable |
| Evaluator.OtherTokenIsZero | src/basic/Interpreter.cs:82 | a token that is not a number, variable, function or `(` reads as 0 |
| Evaluator.VariablePrimary | src/basic/Interpreter.cs:78-79 | a variable reads its stored value, and an unassigned one is an error |
| Evaluator.NumberPrimary | src/basic/Interpreter.cs:76-77 | a number reads its decimal value, or overflows beyond `int.MaxValue` |
| Evaluator.ParenPrimary | src/basic/Interpreter.cs:72-75 | `(` evaluates the inner expression and drops the next token, whatever it is |
| LineTable.Insert | src/basic/Interpreter.cs:135 | `SortedList.Add` either adds exactly one line, the given one, or fails with DuplicateLabel of its label |
| LineTable.InsertSpec | src/basic/Interpreter.cs:135 | `SortedList.Add` fails exactly on a label already present; otherwise the table stays sorted and gains exactly that line |
| LineTable.IndexOfKey | src/basic/Interpreter.cs:170 | the position of the label in the table, or -1 exactly when it is absent |
| LineTable.SplitLine | src/basic/Interpreter.cs:134-135 | the statement text is a proper suffix of the line, kept verbatim; the only failures are a missing space, a malformed label and an overflowing label |
| LineTable.SplitLineSpec | src/basic/Interpreter.cs:134-135 | a source line is accepted exactly when the part before its first space parses and a space exists; the line is then the label text, a space, and the statement text |
| LineTable.SplitPrinted | src/basic/Interpreter.cs:134-135 | a decimal label, a space and any statement text (spaces included) split back into that label and that text |
| LineTable.LoadInto | src/basic/Interpreter.cs:131-137 | a load adds one line per source line, and fails only with a bad label, a missing space or a repeated label |
| LineTable.LoadCode | src/basic/Interpreter.cs:29-32 | a fresh table holds one line per source line, and the only load errors are a bad label, a missing space or a repeated label |
| LineTable.InsertAtEnd | src/basic/Interpreter.cs:135 | `SortedList.Add` of a label above every label present appends the line at the end |
| LineTable.LoadAscending | src/basic/Interpreter.cs:131-137 | source lines whose labels ascend past the table's load in their own order, after the table's lines |
| LineTable.ListingLoads | src/basic/Interpreter.cs:29-32 | a sorted table written out as `<label> <statement>` lines loads back as the same table |
| LineTable.LoadIntoSpec | src/basic/Interpreter.cs:131-137 | loading succeeds exactly when every line splits and no label repeats; the table then holds the old and new lines in label order |
| LineTable.LoadCodeSpec | src/basic/Interpreter.cs:29-32 | a fresh load succeeds exactly when every line splits and labels are distinct; the table then holds exactly those lines, sorted |
| Statements.Holds | src/basic/Interpreter.cs:150-162 | a comparison can hold only for `<`, `>` or `=` |
| Statements.Execute | src/basic/Interpreter.cs:139-179 | a statement never edits the line table and never undoes a draw |
| Statements.ExecuteOutput | src/basic/Interpreter.cs:139-179 | a line prints at most one value and only ever appends to the output |
| Statements.ExecuteKeepsPc | src/basic/Interpreter.cs:139-179 | without a GOTO token on the line, the program counter is unchanged |
| Statements.PrintAppends | src/basic/Interpreter.cs:142-144 | PRINT succeeds exactly when its expression does, appends its value and changes nothing else |
| Statements.IfRunsRestIff | src/basic/Interpreter.cs:145-168 | IF runs the rest of the line exactly when the operator is `<`, `>` or `=` and the comparison holds |
| Statements.CompoundRelopsNeverHold | src/basic/Interpreter.cs:151-162 | `<=`, `>=` and `<>` never hold |
| Statements.GotoSetsPc | src/basic/Interpreter.cs:169-171 | GOTO leaves the counter one before its target's position, or at -2 when the target is missing |
| Statements.LetAssigns | src/basic/Interpreter.cs:173-177 | LET binds the named variable to the expression's value and leaves every other variable alone |
| Statements.LetNeedsEquals | src/basic/Interpreter.cs:175 | LET whose third token is not `=` fails the assertion |
| Statements.OtherIsNoOp | src/basic/Interpreter.cs:141-178 | a line whose first word is not one of the four statements does nothing |
| Machine.Loop | src/basic/Interpreter.cs:181-189 | a run halts exactly when the counter ends past the last line; when it runs out of fuel the counter is on a line |
| Machine.Turn | src/basic/Interpreter.cs:183-187 | running one line never edits the table |
| Machine.Run | src/basic/Interpreter.cs:181-189 | running a program never edits its line table, and halts exactly when the counter ends past the last line |
| Machine.RunProgram | src/basic/Interpreter.cs:29-32 | a program runs exactly when it loads, on the loaded table; otherwise the result is the load error |
| Machine.LoopKeepsTable | src/basic/Interpreter.cs:181-189 | for any executor that keeps the table, the loop keeps it |
| Machine.LoopOutputGrows | src/basic/Interpreter.cs:181-189 | for any executor that only appends output, the loop only appends output |
| Machine.LoopFuel | src/basic/Interpreter.cs:181-189 | once a run has ended, more fuel does not change it |
| Machine.LoopInOrder | src/basic/Interpreter.cs:181-189 | for any executor that steps the counter by one, the loop runs the lines from the counter on in table order, each once |
| Machine.TurnAdvances | src/basic/Interpreter.cs:183-187 | a line without GOTO moves the counter on by exactly one |
| Machine.RunOutputGrows | src/basic/Interpreter.cs:181-189 | running a program only ever appends to the output |
| Machine.FuelIrrelevant | src/basic/Interpreter.cs:182-188 | the outcome of a finished run does not depend on the fuel bound |
| Machine.GotoLands | src/basic/Interpreter.cs:169-187 | after a GOTO to an existing label, the next line run is that label's line |
| Machine.GotoMissingCrashes | src/basic/Interpreter.cs:169-189 | a GOTO to a missing label crashes the run at the next fetch with index -1 |
| Machine.StraightLine | src/basic/Interpreter.cs:181-189 | a table without GOTO runs from the counter on, in ascending label order, each line once |
| Machine.StraightProgram | src/basic/Interpreter.cs:29-32 | a loaded program without GOTO runs its lines once each in label order, with one turn per line as fuel |
| Examples.TimesBeforePlus | src/basic/Interpreter.cs:89-129 | `1+2*3` is 7 |
| Examples.MinusFromLeft | src/basic/Interpreter.cs:89-129 | `8-2-1` is 5 |
| Examples.NoUnaryMinus | src/basic/Interpreter.cs:67-83 | `-7/2` is 0, with `7 / 2` left in the queue |
| Examples.CommandAndNumber | src/basic/tokenization/Tokenizer.cs:35-58 | a command word, a space and digits are a CMD token and a NUMBER token |
| Examples.CommandThen | src/basic/tokenization/Tokenizer.cs:35-58 | a command word followed by a space is one CMD token, then the tokens of the rest |
| Examples.TokenizeSpaced | src/basic/tokenization/Tokenizer.cs:35-58 | command words, one-letter variables, numbers, one-character comparisons and operators, joined by single spaces, tokenize back to themselves |
| Examples.TokenizeGoto | src/basic/tokenization/Tokenizer.cs:35-58 | `GOTO 10` is the tokens `GOTO` and `10` |
| ExampleRun.ExecIncA | src/basic/Interpreter.cs:173-177 | with A below `int.MaxValue`, `LET A = A + 1` raises A by one and leaves the rest of the state alone |
| ExampleRun.ExecTestA | src/basic/Interpreter.cs:145-171 | `IF A < 4 GOTO 20` sets the counter just before line 20 while A < 4, and otherwise does nothing |
| ExampleRun.ExecSteps | src/basic/Interpreter.cs:139-187 | on a table whose lines read as the program's, each turn of the interpreter moves a counting state as the program text says |
| ExampleRun.Counting | src/basic/Interpreter.cs:181-189 | any executor that behaves so runs the four-line program to a halt in ten turns, printing 1, 2 and 3 and leaving A = 4 |
| ExampleRun.CountsToThree | src/basic/Interpreter.cs:29-32 | the program `10 LET A = 1`, `20 PRINT A`, `30 LET A = A + 1`, `40 IF A < 4 GOTO 20` loads and runs to a halt, printing 1, 2 and 3 |

## Left out

- File input (`LoadFile`), `Program.Main` and console output: the program text is a sequence of strings, and printing appends to a sequence of ints.
- `Parser.ParseLine` only delegates to `Tokenizer.Tokenize`, and the model calls `Tokenize` directly. `Parser.ParseExpression` is never called by the interpreter.
- `System.Random` internals: the generator is an oracle parameter, with one draw per `RND(` call.
- `Debug.WriteLine` in `Tokenize` and `ExtractLabels`: it only writes to the debug log.
- `int.Parse` tolerates surrounding whitespace and culture-specific signs. The model accepts an optional `+` or `-` followed by ASCII digits.
- The Release build of `LET`, where `Debug.Assert` and the `Dequeue` inside it are compiled away. The model follows the Debug build: the token after the name is taken off the queue, and a failed check is an error.
- The state of the interpreter object across calls. `LoadCode` does not reset `curLine` or the variables. The model starts every run from a fresh state (`Machine.Start`).
- A load that throws partway leaves the lines before the bad one in the C# `SortedList`. The model returns only the error.
- Machine.Loop: a run is cut off after a given number of lines (fuel). A program that loops forever shows up as `OutOfFuel` rather than as non-termination.
- Statements.Execute: its contract states only the frame properties. What each statement computes is stated by the per-statement lemmas (`PrintAppends`, `IfRunsRestIff`, `GotoSetsPc`, `LetAssigns`, `LetNeedsEquals`, `OtherIsNoOp`).
