# bytebeat-player: formula compiler, evaluator and editor text utilities

bytebeat-player plays *bytebeat* formulas. A bytebeat is an expression in
`t`, the sample counter. For every sample the player evaluates it and keeps
the low byte of the result as an 8-bit audio sample. This project models the
part of the player that turns formula text into sound values. It also proves
what the model does.

- **The current compiler** (`bytebeat-player/Core/Bytebeat.cpp`).
  `BytebeatExpression::Compile` has a hand-written tokenizer. The tokenizer
  reads numbers with fractions, words, string and array literals, `[]`
  indexing, `.charCodeAt`, and one- and two-character operators. A
  shunting-yard pass then turns the tokens into a reverse Polish program.
  `BytebeatExpression::Eval` runs that program on a 1024-slot stack and
  returns the low byte of the bottom value. `ComplexEngine` cuts a program
  into statements at top-level commas and finds the assignments. It compiles
  each statement, and runs them all for each sample.
- **The earlier compiler** (`bytebeat-player/Bytebeat.cpp`). It has the same
  structure with fewer token kinds. It keeps named variables in a
  `std::map` (`jsVars`), and its `ComplexEngine` cuts the code at every
  comma with `std::getline`.
- **The application state** (`bytebeat-player/Core/GlobalState.h`). Its
  variable-slot allocator is `getVarId`, and `resetVM` clears it. An earlier
  snapshot of the same allocator is in
  `enc_temp_folder/95a952b47b82c7299e6161c327f62bb8/GlobalState.h`.
- **The editor text utilities** (`bytebeat-player/Utils/Utils.cpp` and
  `bytebeat-player/Utils.cpp`):
  - `FormatCode` is the line wrapper.
  - `CompressCode` and `ExpandCode` hide long string literals behind
    `@HIDDEN_DATA_n@` keys and put them back.
  - `FindTrigger` is the oscilloscope trigger search.
  - `UpdateErrorMarkers` reports the line of a compile error.

## Modules

Value-level code is written as functions and lemmas. Code that changes state
is written as methods over classes and arrays. Each method is proved equal to
its function.

- **Tokens, Chars, Numeric.** Token kinds, character classes, and the C++
  casts and bit operations on doubles:
  - truncation toward zero;
  - the `int32_t` and `int64_t` casts, as two's-complement wrap;
  - `fmod`;
  - `& 0xFF`.
- **Lexer, Parser, Compiler, ParserShapes.** The current `Compile` as pure
  functions on a context `Ctx`. The context holds the variable table and the
  string and array pools.
- **Evaluator.** The current `Eval` as a function over a `Machine` (value
  stack, variable memory and the number of `rand()` calls made).
- **Bytebeat.** The imperative current compiler:
  - `Runtime` holds the pools `g_strings` and `g_arrays` and the
    `AppState`.
  - `BytebeatExpression` holds `m_rpn`.
  - The tokenizer loop, the shunting-yard loops and the evaluation loop over
    an `array<real>` stack are methods. Each is proved against the functions
    above.
- **Segments, Engine.** The current `ComplexEngine`:
  - the statement splitter and the assignment finder, as methods with their
    specification functions;
  - `Compile` and `Eval` over `Engine.ComplexEngine`.
- **LegacyLexer, LegacyParser, LegacyCompiler, LegacyEval, LegacyEngine,
  LegacyBytebeat.** The earlier compiler, with the same split between
  functions and imperative code.
- **GlobalState, GlobalStateSnapshot.** `AppState` as a class. The
  allocator is specified by the function `AllocVar`.
- **StringMap.** `std::map<std::string, std::string>` modelled as a sorted
  association list.
- **CodeFormat, Getline.** `FormatCode`, and `std::getline` on a delimiter.
- **HiddenKeys, HiddenSegments, TextReplace, CodeCompression.**
  `CompressCode` and `ExpandCode`, and the proof that expanding undoes
  compressing.
- **EditorUtils.** `FindTrigger` and `UpdateErrorMarkers`.

## Model

| member | source | states |
|---|---|---|
| Tokens.BinaryPrecedence | bytebeat-player/Core/Bytebeat.cpp:20-33 | An incoming `[` (Index) has precedence 13 and `.charCodeAt` 12, `* / %` 10, `+ -` 9, `<< >>` 8 |
| Tokens.ComparisonPrecedence | bytebeat-player/Core/Bytebeat.cpp:27-28 | `< > <= >=` have precedence 7, `== !=` 6 |
| Tokens.BitwisePrecedence | bytebeat-player/Core/Bytebeat.cpp:29 | `&` is 5, `^` 4, `\|` 3 |
| Tokens.LoosePrecedence | bytebeat-player/Core/Bytebeat.cpp:218-223 | Unary `-` and `~` are 12 both arriving and on the stack, `?` and `:` arriving are 2, `=` and `,` 1; `?` and `:` on the stack get the precedence of their default `op` (`Add`, 9) |
| Lexer.UnexpectedIff | bytebeat-player/Core/Bytebeat.cpp:147-172 | A non-blank character stops tokenizing exactly when no token can start with it (stated without the tokenizer), and the message is "Unexpected token: '<c>'" |
| Lexer.LexTokenCases | bytebeat-player/Core/Bytebeat.cpp:58-146 | A word character, quote, bracket, parenthesis, `?`, `:` or `~` always yields a token; every other character goes to the operator branch |
| Lexer.OperatorFailIff | bytebeat-player/Core/Bytebeat.cpp:147-172 | The operator branch fails exactly on a character that is no operator, not `.charCodeAt`, and not a `!` read as negation or in `!=`; the message quotes the character |
| Lexer.TwoCharOperatorFirst | bytebeat-player/Core/Bytebeat.cpp:159-165 | Where a two-character operator (`<< >> <= >= == !=`) starts, it is read as one token and the scan moves on by 2 |
| Lexer.UnaryOperands | bytebeat-player/Core/Bytebeat.cpp:155-158 | Where an operand is expected, `-` is negation and `!` is bitwise not, one character each |
| Lexer.ScanNumber | bytebeat-player/Core/Bytebeat.cpp:62-75 | A numeric literal starting at a digit is non-negative and consumes at least that digit, within the text |
| Lexer.ScanNumberValue | bytebeat-player/Core/Bytebeat.cpp:62-72 | The number loops read the decimal value of the digit run and, after a `.`, add the digit run that follows as the fraction `0.d1d2...`; the literal ends where the last run ends |
| Lexer.IntDigitsValue | bytebeat-player/Core/Bytebeat.cpp:63-64 | The integer loop `v = v * 10 + digit` ends at the end of the digit run with its decimal value |
| Lexer.FracDigitsSum | bytebeat-player/Core/Bytebeat.cpp:66-71 | The fraction loop adds each digit times its weight `0.1`, `0.01`, ... to the value, and stops at the end of the run |
| Lexer.ParseDecimal | bytebeat-player/Core/Bytebeat.cpp:110-117 | The `stod` inside an array literal either rejects the text or consumes at least one character, within the text |
| Lexer.ParseDecimalAgrees | bytebeat-player/Core/Bytebeat.cpp:110-117 | Without a sign and an exponent, the array literal's `stod` reads the same value and the same characters as the number loops of the tokenizer |
| Lexer.ParseDecimalSign | bytebeat-player/Core/Bytebeat.cpp:113 | A leading `-` negates the value read after it, a leading `+` keeps it, and the sign is one more character consumed |
| Lexer.ParseDecimalFraction | bytebeat-player/Core/Bytebeat.cpp:113 | `stod("2.5")` is 2.5 after 3 characters |
| Lexer.ParseDecimalSignedFraction | bytebeat-player/Core/Bytebeat.cpp:113 | `stod("-.5]")` is -0.5 after 3 characters |
| Lexer.ParseDecimalExponent | bytebeat-player/Core/Bytebeat.cpp:113 | `stod("15e-1")` is 1.5 after 5 characters |
| Lexer.ParseDecimalPoint | bytebeat-player/Core/Bytebeat.cpp:113-116 | `stod(".]")` fails, so the scan skips the `.` |
| Lexer.ScanArray | bytebeat-player/Core/Bytebeat.cpp:104-121 | The array scan stops at the closing `]` or at the end, and only appends to the values read so far |
| Lexer.LexWordFacts | bytebeat-player/Core/Bytebeat.cpp:76-91 | A word step yields one token at the word's start, of a kind its first character allows; it only adds to the variable table (`getVarId`) and keeps the table well formed |
| Lexer.LexLiteralFacts | bytebeat-player/Core/Bytebeat.cpp:92-136 | String and bracket steps yield tokens that point at existing pool entries, and only append to the pools |
| Lexer.LexFromFacts | bytebeat-player/Core/Bytebeat.cpp:58-174 | From any point, the tokenizer only adds to the context, yields tokens in position order that each sit on a character of their kind and name existing slots, or fails at a later unexpected character with its message |
| Lexer.LexFacts | bytebeat-player/Core/Bytebeat.cpp:58-174 | The same for the whole text: tokens in order and indexed, or an error at an unexpected character with the quoting message |
| Parser.PopWhileGe | bytebeat-player/Core/Bytebeat.cpp:220-226 | Pops to the output while the top is not `(` and binds at least as tightly as the arriving operator; what stays is a prefix of the stack, and the output only grows, by such entries |
| Parser.PopToLParen | bytebeat-player/Core/Bytebeat.cpp:186-194 | On `)`: pops to the output down to the first `(` and drops it; reports whether there was one, and if not the stack held no `(` and is now empty |
| Parser.PopUntilLParen | bytebeat-player/Core/Bytebeat.cpp:210 | On `,`: pops down to, not including, the first `(`, keeping every `(` |
| Parser.UnmatchedClose | bytebeat-player/Core/Bytebeat.cpp:184-200 | A `)` met where every earlier `(` is closed fails with "Unmatched closing parenthesis ')'" at that `)` |
| Parser.BalancedParens | bytebeat-player/Core/Bytebeat.cpp:184-245 | The pass fails on `)` exactly when some `)` closes nothing, with "Unmatched closing parenthesis ')'" at the first such `)`; otherwise, when a `(` is left open, it fails with "Unmatched opening parenthesis '('" at the last `(` never closed (the top of the stack in the final loop); balanced input succeeds or is "Empty expression" |
| Parser.ShuntErrors | bytebeat-player/Core/Bytebeat.cpp:184-245 | Every error of the pass is one of: "Empty expression" at -1, unmatched `)` at a `)`, unmatched `(` at a `(` |
| Parser.RpnShape | bytebeat-player/Core/Bytebeat.cpp:176-246 | A successful pass keeps every operand, in input order, and emits no parenthesis |
| Parser.ShuntNonEmpty | bytebeat-player/Core/Bytebeat.cpp:242-245 | A successful pass never yields an empty program |
| ParserShapes.LeftGrouping | bytebeat-player/Core/Bytebeat.cpp:217-227 | `a o1 b o2 c` with `o1` at least as tight as `o2` compiles to `a b o1 c o2` (left associativity) |
| ParserShapes.RightGrouping | bytebeat-player/Core/Bytebeat.cpp:217-227 | With `o2` tighter, it compiles to `a b c o2 o1` |
| ParserShapes.UnaryCall | bytebeat-player/Core/Bytebeat.cpp:201-205 | `f(a)` compiles to `a f` |
| ParserShapes.BinaryCall | bytebeat-player/Core/Bytebeat.cpp:208-216 | `f(a, b)` compiles to `a b f`: the comma directly inside a call only separates arguments |
| ParserShapes.Indexing | bytebeat-player/Core/Bytebeat.cpp:130-135 | `x[i]`, lexed as `x Index ( i )`, compiles to `x i Index` |
| ParserShapes.Conditional | bytebeat-player/Core/Bytebeat.cpp:218-223 | `c ? a : b` compiles to `c a ? b :` |
| ParserShapes.ConditionalThenAdd | bytebeat-player/Core/Bytebeat.cpp:218-223 | `c ? a : b + d` compiles to `c a ? b : d +`, i.e. `(c ? a : b) + d`, since `:` on the stack has the precedence of `+` |
| Compiler.CompileErrors | bytebeat-player/Core/Bytebeat.cpp:35-247 | Every failure is explained on the text: empty input with no message, "Empty expression" at -1, or a message naming the character at `errorPos`; "Unmatched closing parenthesis" sits on the first `)` token that closes nothing, and "Unmatched opening parenthesis" on the last `(` token never closed |
| Compiler.CompileSuccess | bytebeat-player/Core/Bytebeat.cpp:176-246 | Compiling only adds to the state and keeps it well formed; success has no message, position -1, a non-empty program without parentheses, the lexed operands in order, and identifiers that name allocated slots |
| Evaluator.Eval | bytebeat-player/Core/Bytebeat.cpp:249-364 | The result is in 0..255 and the memory keeps its size |
| Evaluator.Exec | bytebeat-player/Core/Bytebeat.cpp:260-361 | One token pushes at most one value and never resizes memory |
| Evaluator.ApplyOp | bytebeat-player/Core/Bytebeat.cpp:299-360 | An operator never grows the stack or resizes memory, and draws no random number |
| Evaluator.ApplyFun | bytebeat-player/Core/Bytebeat.cpp:270-291 | A function token leaves memory alone and pushes at most one value (`random`) |
| Evaluator.RunFromStackBound | bytebeat-player/Core/Bytebeat.cpp:257-258 | The stack never outgrows the 1024 slots of the C++ buffer |
| Evaluator.NoAssignKeepsMemory | bytebeat-player/Core/Bytebeat.cpp:304-312 | A program without `=` leaves the variable memory unchanged |
| Evaluator.AssignStores | bytebeat-player/Core/Bytebeat.cpp:304-312 | `ptr val =` replaces both with `val`, writes slot `(int)ptr` when it exists, and leaves every other slot alone |
| Evaluator.DivisionByZero | bytebeat-player/Core/Bytebeat.cpp:340-341 | `a / 0` and `a % 0` evaluate to 0 |
| Evaluator.BottomOfStack | bytebeat-player/Core/Bytebeat.cpp:363 | The result is the byte of the bottom of the stack: the program `1 2` gives 1 |
| Evaluator.ShiftCountModulo | bytebeat-player/Core/Bytebeat.cpp:347-348 | Shifts take the count modulo 32 |
| Evaluator.StringLookup | bytebeat-player/Core/Bytebeat.cpp:324-330 | Indexing a string literal yields its character as a signed byte inside the string and 0 outside |
| Evaluator.ArrayLookup | bytebeat-player/Core/Bytebeat.cpp:316-323 | Indexing an array literal (ids from 200000) yields its element inside the array and 0 outside |
| Evaluator.ConditionalValue | bytebeat-player/Core/Bytebeat.cpp:292-298 | `c a ? b :` leaves `a` when `c` is not 0 and `b` otherwise |
| Numeric.Trunc | bytebeat-player/Core/Bytebeat.cpp:335 | Truncation toward zero: the integer between 0 and `x` less than 1 away |
| Numeric.Wrap32 | bytebeat-player/Core/Bytebeat.cpp:335 | Two's-complement wrap into 32 bits: in range, the identity in range, and it keeps the low byte and the low five bits |
| Numeric.ToInt32 | bytebeat-player/Core/Bytebeat.cpp:335 | `(int32_t)x` lies in the int32 range |
| Numeric.ToInt64 | bytebeat-player/Core/Bytebeat.cpp:301 | `(int64_t)x` lies in the int64 range |
| Numeric.BitNot64Value | bytebeat-player/Core/Bytebeat.cpp:301 | `~(int64_t)x`, computed by inverting the 64 bits of the two's-complement pattern, is `-(int64_t)x - 1` |
| Numeric.FlipBitsValue | bytebeat-player/Core/Bytebeat.cpp:301 | Inverting the low `k` bits of a number below `2^k` gives `2^k - 1` minus it |
| Numeric.Fmod | bytebeat-player/Core/Bytebeat.cpp:341 | `fmod(a, b)` has the sign of `a` and is smaller than `\|b\|` |
| Numeric.ShiftCount | bytebeat-player/Core/Bytebeat.cpp:347 | `ib & 0x1F` is below 32 |
| Numeric.ByteOf | bytebeat-player/Core/Bytebeat.cpp:363 | `(int)x & 0xFF` is the truncation modulo 256, in 0..255 |
| Bytebeat.Runtime.ScanNumberAt | bytebeat-player/Core/Bytebeat.cpp:62-75 | The number loops compute `ScanNumber` |
| Bytebeat.Runtime.ReadWord | bytebeat-player/Core/Bytebeat.cpp:76-91 | The word branch, with `getVarId` on the application state, computes `LexWord` and keeps the table well formed |
| Bytebeat.Runtime.ReadString | bytebeat-player/Core/Bytebeat.cpp:92-103 | The string branch appends to `g_strings` as `LexString` says |
| Bytebeat.Runtime.ReadArray | bytebeat-player/Core/Bytebeat.cpp:104-129 | The array-literal branch appends to `g_arrays` as `LexBracket` says |
| Bytebeat.Runtime.ReadToken | bytebeat-player/Core/Bytebeat.cpp:59-173 | One step of the tokenizer loop computes `LexToken`; a failure changes no state |
| Bytebeat.Runtime.Tokenize | bytebeat-player/Core/Bytebeat.cpp:58-174 | The tokenizer loop computes `Lex`, with the state it leaves |
| Bytebeat.PopWhileAtLeast | bytebeat-player/Core/Bytebeat.cpp:220-226 | The operator's popping loop computes `PopWhileGe` |
| Bytebeat.PopThroughLParen | bytebeat-player/Core/Bytebeat.cpp:185-194 | The `)` popping loop computes `PopToLParen` |
| Bytebeat.PopToLParenExclusive | bytebeat-player/Core/Bytebeat.cpp:210 | The `,` popping loop computes `PopUntilLParen` |
| Bytebeat.ShuntToken | bytebeat-player/Core/Bytebeat.cpp:178-229 | One token of the pass computes the pass's step function, with its early error return |
| Bytebeat.FlushStack | bytebeat-player/Core/Bytebeat.cpp:233-245 | The final loop and the empty check compute `Flush`; success carries no message and position -1 |
| Bytebeat.ShuntTokens | bytebeat-player/Core/Bytebeat.cpp:176-246 | The whole pass computes `Shunt`, with the partial output on an error |
| Bytebeat.Runtime.CompileExpr | bytebeat-player/Core/Bytebeat.cpp:35-247 | The compile method computes `Compiler.Compile`, including the state it leaves |
| Bytebeat.Runtime.ExecuteFun | bytebeat-player/Core/Bytebeat.cpp:270-291 | A function token applied in place on the array stack is `ApplyFun` |
| Bytebeat.Runtime.ExecuteAssign | bytebeat-player/Core/Bytebeat.cpp:304-312 | The assignment, writing `vmMemory` in place, is `ApplyOp(Assign)` |
| Bytebeat.Runtime.ExecuteOp | bytebeat-player/Core/Bytebeat.cpp:299-360 | Operators applied in place are `ApplyOp` |
| Bytebeat.Runtime.Execute | bytebeat-player/Core/Bytebeat.cpp:260-361 | One token of the loop is `Exec` |
| Bytebeat.Runtime.Run | bytebeat-player/Core/Bytebeat.cpp:249-364 | The evaluation loop over the 1024-slot array computes `Evaluator.Eval`: the byte, the memory it leaves and the `rand()` calls made |
| Bytebeat.BytebeatExpression.Compile | bytebeat-player/Core/Bytebeat.cpp:35-247 | `Compile` stores in `m_rpn` the program `Compiler.Compile` gives |
| Bytebeat.BytebeatExpression.Eval | bytebeat-player/Core/Bytebeat.cpp:249-364 | `Eval(t)` is `Evaluator.Eval` on the stored program |
| Segments.SplitCode | bytebeat-player/Core/Bytebeat.cpp:379-408 | The splitting loop computes `Split` |
| Segments.SplitSlices | bytebeat-player/Core/Bytebeat.cpp:384-408 | Every statement is a non-empty slice of the program at its offset, starting at 0 or after a comma; statements do not overlap and come in order |
| Segments.SplitRuns | bytebeat-player/Core/Bytebeat.cpp:379-408 | The statements are exactly the non-empty runs between separating commas: every statement is such a run, and every such run is a statement; a comma separates when it is outside quotes, parentheses and brackets (`TopLevelAt`) |
| Segments.NoCommaOneSegment | bytebeat-player/Core/Bytebeat.cpp:384-408 | A program without commas is one statement at offset 0, or none when it is empty |
| Segments.FindAssignIn | bytebeat-player/Core/Bytebeat.cpp:418-438 | The assignment scan computes `FindAssign` |
| Segments.FindAssignSound | bytebeat-player/Core/Bytebeat.cpp:429-435 | A position found holds an `=` that is not part of `!= <= >= ==` as the code checks it |
| Segments.FindAssignFirst | bytebeat-player/Core/Bytebeat.cpp:418-438 | The scan finds `p` exactly when `p` is the least index holding an `=` outside quotes, at parenthesis depth 0, that is not part of `!= <= >= ==` (`AssignAt`); it finds nothing exactly when no index is such an `=` |
| Segments.NoEqualsNoAssign | bytebeat-player/Core/Bytebeat.cpp:418-438 | A statement without `=` is an expression statement |
| Segments.DoubleEqualsAssigns | bytebeat-player/Core/Bytebeat.cpp:431-434 | `x==1` is taken as an assignment at its second `=`; `a<=b`, `a!=b`, `f(x=1)` and `'a=b'` are not assignments, `y='='` assigns at index 1 |
| Engine.EngineCompileKeeps | bytebeat-player/Core/Bytebeat.cpp:366-465 | Compiling keeps the variable table well formed, only adds slots, and every instruction fits the memory |
| Engine.EngineCompileErrors | bytebeat-player/Core/Bytebeat.cpp:440-464 | Either no statement failed (position -1, success exactly when the program has a non-blank statement, which is exactly when an instruction was kept; the message is cleared by each compiled statement, as the clearing at line 36 does, so it is empty on success and unchanged only when there was no statement) or compilation failed with an error that lands in the program as `ErrorInCode` says (offset plus local position) |
| Engine.EngineCompileClears | bytebeat-player/Core/Bytebeat.cpp:35-36 | A stale message passed in is cleared once a statement compiles: compiling `1` after an error succeeds with no message and position -1 |
| Engine.EngineEval | bytebeat-player/Core/Bytebeat.cpp:467-475 | The result is a byte and the memory keeps its size |
| Engine.RunInstrsResult | bytebeat-player/Core/Bytebeat.cpp:467-474 | The result is a byte: the one the last instruction gives, or the value carried in when no instruction remains; a final assignment leaves its slot equal to the result |
| Engine.EngineEvalResult | bytebeat-player/Core/Bytebeat.cpp:467-474 | No instructions give 0 and touch nothing; a last assignment stores the value returned |
| Engine.ComplexEngine.CompileStatement | bytebeat-player/Core/Bytebeat.cpp:410-463 | One statement of the loop computes `CompileSegment` |
| Engine.ComplexEngine.Compile | bytebeat-player/Core/Bytebeat.cpp:366-465 | `Compile` computes `EngineCompile`: result, instructions, message (cleared by every statement that compiles), position and state, and keeps the engine valid |
| Engine.ComplexEngine.Eval | bytebeat-player/Core/Bytebeat.cpp:467-475 | `Eval(t)` computes `EngineEval` on the stored instructions, changing only `vmMemory` |
| Chars.RemoveSpaces | bytebeat-player/Core/Bytebeat.cpp:445 | The name loses its white space: what is left holds no space, and a name without spaces is kept as it is |
| Chars.RemoveSpacesAppend | bytebeat-player/Core/Bytebeat.cpp:445 | Removal works character by character: each space is dropped, every other character kept, in the original order |
| GlobalState.AllocVar | bytebeat-player/Core/GlobalState.h:48-56 | The name ends up in the table with the returned id; a known name changes nothing; a new one gets the next slot, initialised to 0, and nothing else changes |
| GlobalState.AllocVarWellFormed | bytebeat-player/Core/GlobalState.h:48-56 | Allocation keeps ids exactly the slots `0..n-1` and distinct |
| GlobalState.AllocVarTwice | bytebeat-player/Core/GlobalState.h:48-56 | Asking again for the same name returns the same id and changes nothing |
| GlobalState.AllocVarKeepsSlots | bytebeat-player/Core/GlobalState.h:48-56 | Allocations never change a slot allocated before |
| GlobalState.AppState.GetVarId | bytebeat-player/Core/GlobalState.h:48-56 | `getVarId` updates the state as `AllocVar` says and keeps it well formed |
| GlobalState.AppState.ResetVM | bytebeat-player/Core/GlobalState.h:39-42 | `resetVM` empties memory and table and leaves the hidden chunks alone |
| GlobalStateSnapshot.AppState.GetVarId | enc_temp_folder/95a952b47b82c7299e6161c327f62bb8/GlobalState.h:24-32 | A known name returns its id and changes nothing; a new one gets id `\|vmMemory\|` with a slot holding 0; earlier slots are kept |
| LegacyLexer.Tokenize | bytebeat-player/Bytebeat.cpp:25-91 | The tokenizer loop computes `Lex` |
| LegacyLexer.UnknownCharIff | bytebeat-player/Bytebeat.cpp:57 | Tokenizing fails exactly when the text holds a character no token accepts, with "Unknown char" at the first such character |
| LegacyLexer.LexFromErrors | bytebeat-player/Bytebeat.cpp:25-91 | From any point, the scan fails exactly when an unknown character follows, at the first one |
| LegacyLexer.OperatorAt | bytebeat-player/Bytebeat.cpp:52-87 | The operator branch fails exactly on a character outside `+-*/%&\|^<>!=,` that is no unary `-`, and otherwise consumes known characters |
| LegacyLexer.NumberValue | bytebeat-player/Bytebeat.cpp:29-34 | A literal is the longest run of digits, read as a decimal integer |
| LegacyLexer.WordToken | bytebeat-player/Bytebeat.cpp:35-46 | A word is the longest run of letters; `t`, `int`/`floor` and the other reserved words map to their tokens, any other word to an identifier with that name |
| LegacyLexer.UnaryOperators | bytebeat-player/Bytebeat.cpp:51-54 | Where an operand is due, `-` is negation and `!` (not before `=`) the complement |
| LegacyParser.Prec | bytebeat-player/Bytebeat.cpp:93-105 | `?` and `:` have precedence 2, functions 12, nothing more than 12 |
| LegacyParser.ShuntLoop | bytebeat-player/Bytebeat.cpp:107-122 | The conversion loops compute `Shunt` |
| LegacyParser.ShuntOperands | bytebeat-player/Bytebeat.cpp:107-122 | The output has no `)` and keeps the numbers and `t` in their order |
| LegacyParser.OperandNonEmpty | bytebeat-player/Bytebeat.cpp:109 | A formula with a number or `t` converts to a non-empty program |
| LegacyParser.UnmatchedClose | bytebeat-player/Bytebeat.cpp:111-115 | A `)` with no `(` below empties the whole stack into the output instead of failing |
| LegacyParser.LeftToRight | bytebeat-player/Bytebeat.cpp:117 | `a o1 b o2 c` with `o1` at least as tight is `a b o1 c o2` |
| LegacyParser.TighterFirst | bytebeat-player/Bytebeat.cpp:117 | With `o2` tighter it is `a b c o2 o1` |
| LegacyCompiler.CompileErrors | bytebeat-player/Bytebeat.cpp:19-123 | Success is exactly a non-empty program; a message appears exactly when the text holds an unknown character, and it is "Unknown char" at the first one with no program; no message means position -1 |
| LegacyCompiler.OperandCompiles | bytebeat-player/Bytebeat.cpp:107-122 | A formula that lexes and has an operand compiles, keeping the operands in order |
| LegacyBytebeat.CompileExpr | bytebeat-player/Bytebeat.cpp:19-123 | The imperative compile computes `LegacyCompiler.Compile` |
| LegacyBytebeat.Expression.Compile | bytebeat-player/Bytebeat.cpp:19-123 | `Compile` stores the program `LegacyCompiler.Compile` gives |
| LegacyEval.Eval | bytebeat-player/Bytebeat.cpp:125-187 | The result is in 0..255 |
| LegacyEval.RunFromBound | bytebeat-player/Bytebeat.cpp:130 | The stack never outgrows 1024 slots |
| LegacyEval.Conditional | bytebeat-player/Bytebeat.cpp:146-153 | `c a ? b :` leaves `a` when `c` is not 0 and `b` otherwise |
| LegacyEval.ColonShort | bytebeat-player/Bytebeat.cpp:146-153 | `:` with fewer than three values leaves the stack as it is |
| LegacyEval.IdentifierValue | bytebeat-player/Bytebeat.cpp:141-144 | An identifier pushes its `jsVars` value, or 0 when absent |
| LegacyEval.DivideByZero | bytebeat-player/Bytebeat.cpp:169-170 | `a / 0` and `a % 0` give 0 |
| LegacyEval.CRem | bytebeat-player/Bytebeat.cpp:170 | The C++ integer `%`: sign of the dividend, smaller than the divisor, and differs from the dividend by a multiple of it |
| LegacyEval.RemAsWritten | bytebeat-player/Bytebeat.cpp:170 | The `%` as written is undefined exactly when `b` is not 0 but its int64 truncation is |
| LegacyEval.RemHalfUndefined | bytebeat-player/Bytebeat.cpp:170 | `1 % 0.5` passes the guard and reaches an integer division by zero |
| LegacyEval.Rem | bytebeat-player/Bytebeat.cpp:170 | The corrected `%`: 0 when the int64 divisor is 0, else the C++ remainder of the truncations |
| LegacyEval.RemAgrees | bytebeat-player/Bytebeat.cpp:170 | Wherever the code as written is defined, the corrected `%` agrees with it |
| LegacyEval.IntegerRemainder | bytebeat-player/Bytebeat.cpp:170 | `%` works on truncations and follows the dividend's sign: `7.9 % 2.5` is 1, `-7 % 2` is -1 |
| LegacyBytebeat.Run | bytebeat-player/Bytebeat.cpp:125-187 | The evaluation loop over the array stack computes `LegacyEval.Eval` |
| LegacyBytebeat.Expression.Eval | bytebeat-player/Bytebeat.cpp:125-187 | `Eval(t)` is `LegacyEval.Eval` on the stored program and `jsVars` |
| LegacyEngine.PiecesJoin | bytebeat-player/Bytebeat.cpp:191-193 | The `getline` pieces, each followed by a comma, rebuild the code (plus a final comma), and no piece holds a comma |
| LegacyEngine.FirstEq | bytebeat-player/Bytebeat.cpp:197 | `find('=')` returns the first `=` or none |
| LegacyEngine.EngineCompileResult | bytebeat-player/Bytebeat.cpp:189-213 | Success means the instructions are those of the non-blank pieces and not empty; every kept instruction has a program; `err` ends up as it was, empty, or "Unknown char" |
| LegacyEngine.FirstEqualsAssigns | bytebeat-player/Bytebeat.cpp:197-201 | The first `=` decides: `x==1` assigns `=1` to `x`, and `a<=b` assigns `b` to `a<` |
| LegacyEngine.NameWithoutSpaces | bytebeat-player/Bytebeat.cpp:200-201 | White space is removed from the name; the text after `=` is kept as it is |
| LegacyEngine.RunFromKeys | bytebeat-player/Bytebeat.cpp:218-221 | Running adds exactly the assigned names, keeps every other variable, and a final assignment stores the result |
| LegacyEngine.EngineEvalResult | bytebeat-player/Bytebeat.cpp:215-225 | `t` is stored first; other unassigned variables keep their values; no instructions give 0; a final assignment stores the value returned |
| LegacyBytebeat.ComplexEngine.Compile | bytebeat-player/Bytebeat.cpp:189-213 | The `getline` loop computes `LegacyEngine.EngineCompile` |
| LegacyBytebeat.ComplexEngine.Eval | bytebeat-player/Bytebeat.cpp:215-225 | `Eval(t)` computes `LegacyEngine.EngineEval`, updating `jsVars` |
| CodeFormat.Width | bytebeat-player/Utils/Utils.cpp:152 | The width is `max(maxChars, 20)` |
| CodeFormat.LastBreakFinds | bytebeat-player/Utils/Utils.cpp:184-189 | The downward search finds the last break character in its window, or reports there is none |
| CodeFormat.SplitAtBreak | bytebeat-player/Utils/Utils.cpp:180-198 | A long line is cut just after the last break character in `[(int)(w*0.6), w)`, or at `w` when there is none |
| CodeFormat.FindSplit | bytebeat-player/Utils/Utils.cpp:181-194 | The search loop computes `SplitAt` |
| CodeFormat.WrapInto | bytebeat-player/Utils/Utils.cpp:180-198 | The inner loop appends the wrapped pieces of the line |
| CodeFormat.FormatCode | bytebeat-player/Utils/Utils.cpp:151-202 | The loops compute `Format` |
| CodeFormat.FormatWidth | bytebeat-player/Utils/Utils.cpp:176-199 | No line of the output is longer than the width |
| CodeFormat.FormatOnlyNewlines | bytebeat-player/Utils/Utils.cpp:176-199 | With newlines deleted, output and input are equal: formatting only moves line breaks |
| CodeFormat.FormatKeepsShortCode | bytebeat-player/Utils/Utils.cpp:176-200 | Code with no line longer than the width comes back as it was, less a final newline |
| Getline.PiecesJoin | bytebeat-player/Utils/Utils.cpp:176 | The pieces `getline` reads, each with its delimiter, rebuild the text (plus a final delimiter) and hold no delimiter |
| StringMap.PutGet | bytebeat-player/Utils/Utils.cpp:258 | After `m[k] = v`, `k` maps to `v` and every other key as before |
| StringMap.PutSorted | bytebeat-player/Utils/Utils.cpp:258 | Insertion keeps the map sorted by key |
| HiddenKeys.KeyInjective | bytebeat-player/Utils/Utils.cpp:257 | Different counters give different keys |
| HiddenKeys.DigitsRoundTrip | bytebeat-player/Utils/Utils.cpp:257 | The `to_string` digits read back give the counter |
| CodeCompression.QuoteEnd | bytebeat-player/Utils/Utils.cpp:243-249 | The end of a string is the first matching quote not escaped by a single backslash, or the end of the code |
| CodeCompression.FindQuoteEnd | bytebeat-player/Utils/Utils.cpp:243-249 | The inner loop computes `QuoteEnd` |
| CodeCompression.CompressCode | bytebeat-player/Utils/Utils.cpp:228-267 | Returns the rendered pieces, leaves their sorted table in `hiddenChunks` and their number in `hiddenCounter`, and leaves the variables alone |
| CodeCompression.OriginalSegs | bytebeat-player/Utils/Utils.cpp:235-265 | The pieces `CompressCode` cuts make up the code |
| CodeCompression.SegsFromIds | bytebeat-player/Utils/Utils.cpp:257 | Hidden pieces are numbered consecutively from the counter, each number once |
| CodeCompression.SegsFromWellCut | bytebeat-player/Utils/Utils.cpp:252-261 | Every piece is cut as the hiding rule says (strings over 1000 characters hidden, others kept) |
| CodeCompression.TableContents | bytebeat-player/Utils/Utils.cpp:257-258 | `hiddenChunks` holds one entry per hidden piece, sorted by key |
| CodeCompression.NothingHidden | bytebeat-player/Utils/Utils.cpp:235-265 | Code without long strings comes back unchanged |
| CodeCompression.ExpandCode | bytebeat-player/Utils/Utils.cpp:269-283 | The loops compute `ExpandAll` over the table in its order |
| CodeCompression.ExpandEmpty | bytebeat-player/Utils/Utils.cpp:269-283 | An empty table leaves the code as it is |
| CodeCompression.ExpandCompress | bytebeat-player/Utils/Utils.cpp:228-283 | `ExpandCode` after `CompressCode` gives back the code, provided it has no `HIDDEN_DATA_` of its own |
| HiddenSegments.ExpandAllSegs | bytebeat-player/Utils/Utils.cpp:269-283 | Replacing the keys with a table holding the hidden pieces' entries, in any order, restores the original text |
| TextReplace.FindFirst | bytebeat-player/Utils/Utils.cpp:277 | `find(key, pos)` gives the first occurrence at or after `pos`, or none |
| TextReplace.ReplaceAbsent | bytebeat-player/Utils/Utils.cpp:277-280 | A key that does not occur leaves the text as it is |
| EditorUtils.FirstFireLeast | bytebeat-player/Utils/Utils.cpp:140-149 | The search finds the least step with an upward crossing (byte at most 2, then above 2), or none in the range |
| EditorUtils.TriggerSpec | bytebeat-player/Utils/Utils.cpp:140-149 | `FindTrigger` moves less than 1024 steps, to the first crossing when there is one, otherwise returns `currentT` |
| EditorUtils.FindTrigger | bytebeat-player/Utils.cpp:118-127 | The search loop with its early return computes `Trigger` |
| EditorUtils.UpdateErrorMarkers | bytebeat-player/Utils/Utils.cpp:50-62 | The result is `Markers`: at most one marker, present exactly when compiling failed with a position and a message |
| EditorUtils.ErrorLineOfPosition | bytebeat-player/Utils.cpp:46-58 | An error at column `c` of line `k` is marked on line `k + 1` |
| EditorUtils.NewlinesAppend | bytebeat-player/Utils/Utils.cpp:56-58 | Newlines counted into the second part of a text add to those of the first |

## Left out

- The user interface, audio output, WAV export (`ExportToWav`), WAV import
  (`ConvertWavToBytebeat`), `ApplyTheme`, `LoadCodeToEditor` and handing
  markers to the editor (`SetErrorMarkers`). These are calls into the
  graphics and audio libraries.
- `sin`, `cos`, `tan`, `pow` and `rand()` come from the C library. They are
  the fields of the `Evaluator.Host` parameter. `random` is
  `rand() / RAND_MAX` of the n-th call.
- `FindTrigger` calls `state.expr.Eval`. It is modelled with a parameter
  `eval` that says what `Eval` returns for each `t`.
- Doubles are modelled as exact reals. This leaves out IEEE rounding,
  infinities and NaN (`a / b` overflowing, `pow` of a negative base), and
  the rounding of `v += digit * frac`. Fractional literals are read exactly.
- Out-of-range casts from double to `int32_t` or `int64_t` are undefined in
  C++. The model wraps them in two's complement, as common hardware does.
- Lexer.ParseDecimal: the array literal's `stod` only reads decimal notation: an optional sign, digits with an optional `.`, and an optional exponent.
  Hexadecimal, `inf` and `nan` are left out, and so are out-of-range values
  (where `stod` throws).
- `FormatCode`'s `(int)(maxChars * 0.6)` is `3w/5`. The double product
  truncates to the same integer for every width.
- `hiddenCounter` is an `int` and could overflow after 2^31 strings. That is
  not modelled.
- CodeCompression.ExpandCode: it requires every key of `hiddenChunks` to be
  non-empty. An empty key would make the source loop forever, and the only
  keys `CompressCode` writes are non-empty.
- CodeCompression.ExpandCompress: the round trip is proved only for code
  without the text `HIDDEN_DATA_`. Code that holds a key of its own is
  changed by `ExpandCode`.
- Bytebeat.BytebeatExpression.Eval: it requires identifiers to name existing
  slots. The source would read outside `vmMemory`. Compiling establishes this,
  and `Compiler.CompileSuccess` proves it.
- In the earlier compiler, `Token::ident` and the other factories leave
  fields uninitialised. An identifier then goes through the operator branch
  of the conversion with an uninitialised `op`. That value is the
  parameter `unset`, so the lemmas hold for every value it could take.
- `Core/Bytebeat.h` declares `double Eval`, but the definition returns
  `int`. The model follows the definition.
- Concurrency between the audio callback and the editor is left out.
- `==` is not skipped as a whole by `ComplexEngine`'s assignment
  detection: only the two neighbours of each `=` are checked, so the second
  `=` of `x==1` is taken as an assignment (see `Segments.DoubleEqualsAssigns`).
- Evaluator.ApplyFun, Evaluator.ApplyOp, Evaluator.Exec: their own contracts
  state only frame and size facts. The values they compute are stated by the
  lemmas `DivisionByZero`, `AssignStores`, `StringLookup`, `ArrayLookup`,
  `ConditionalValue` and `ShiftCountModulo`.

## Findings

| source | as written | input that shows it | evidently intended | confidence | as-written member | corrected member |
|---|---|---|---|---|---|---|
| bytebeat-player/Bytebeat.cpp:170 | `%` is guarded by `b != 0` on the double, then divides the `int64_t` truncations | `1 % 0.5`: the guard passes, `(int64_t)0.5` is 0, and the integer remainder by 0 is undefined behaviour | the result is 0 whenever the integer divisor is 0 | not executed | LegacyEval.RemHalfUndefined | LegacyEval.Rem |
