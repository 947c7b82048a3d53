# A verified model of a small PHP-subset interpreter

The modelled program is a small interpreter, written in C, for a subset of PHP. It has two stages.

- **The lexer.** `lexer_tokenize` in `lexer.c` makes one pass over the source text and produces a token array. The array ends in a single EOF token.
- **The parser.** `parse_expression`, `parse_block` and `parser_run` in `parser.c` walk the token array with a cursor and execute each statement as they read it. There is no syntax tree. The statements are:
  - `echo`;
  - assignment, with at most one `+ - * /`;
  - `if`/`else`;
  - `for`;
  - `foreach`.

  Variables live in a flat table of names, each holding a scalar text and/or an array. Numbers are texts: `operate_values` and `evaluate_condition` convert them with `atof` and print results with `"%.2f"`. Blocks that are not run are skipped by counting brace depth. Loops rewind the cursor to the first token of their body after every pass.

The Dafny modules follow that structure:

| module | file | models |
|---|---|---|
| `Tokens` | tokens.dfy | the token kinds and tokens of lexer.h; the well-formedness of a token array |
| `CType` | ctype.dfy | the `<ctype.h>` classes the lexer uses, and the C terminator |
| `Lexer` | lexer.dfy | one iteration of the scanning loop (`Scan`) and the whole scan (`Lex`) |
| `LexerProps` | lexer_props.dfy | what each scanning rule produces, stated against the text |
| `LexerRoundTrip` | lexer_roundtrip.dfy | scanning the spelling of a token list gives the list back |
| `Faults` | faults.dfy | the `Outcome` type: a value, or the undefined behaviour the C code would reach |
| `Environment` | environment.dfy | the variable table: lookup and set |
| `Arith` | arith.dfy | `atof`, `"%.2f"`, `operate_values`, `evaluate_condition` |
| `Cursor` | cursor.dfy | reading the current token, and the brace-depth skip |
| `ArrayLiteral` | array_literal.dfy | `parse_array` |
| `ArrayProps` | array_props.dfy | `parse_array` reads a spelled literal of strings, numbers and variables back exactly |
| `Interpreter` | interpreter.dfy | `parse_expression`, `parse_block` and `parser_run` as state transformers |
| `InterpreterProps` | interpreter_props.dfy | the dispatcher, echo and assignment |
| `ControlProps` | control_props.dfy | `if`/`else`, `for` and `foreach` |

The interpreter state is `State(pos, env, out, diagnostics)`:

- `pos` is the cursor;
- `env` is the variable table;
- `out` is everything printed to stdout;
- `diagnostics` counts the division-by-zero messages written to stderr.

The C code has no error handling of its own. Every point where it would hand NULL to a C library routine, read past the token array, or read freed memory becomes a `Fail` with a named `Fault`. The model stops there instead of guessing what the machine would do:

- `strdup` or `printf("%s")` of NULL gives `NullText`;
- `atof` of NULL gives `NullNumber`;
- `strcmp` with a NULL name gives `NullName`;
- reading past the end of the token array gives `ReadPastEnd`;
- reading an array that was freed during a `foreach` gives `UseAfterFree`.

Loops and blocks consume `fuel`, which stands for the unbounded running time of the C loops.

Some behaviour of the code is easy to miss; the model follows the code:

- `<?php` is skipped wherever it occurs (lexer.c:45-48), not only at the start of the text.
- A division by zero yields the text `"0"` (parser.c:108-111), not a two-decimal zero.
- An undefined variable used as an arithmetic operand is `atof(NULL)` (parser.c:96-97), which is undefined behaviour, not zero.
- The `for` initializer stores the raw token text (parser.c:326-327), so the counter reads `"0"`, then `"1.00"`, and so on.
- A token `parse_expression` does not handle is never consumed, so `parser_run` and `parse_block` spin for ever (parser.c:143-146, 435-437). In the model they run out of fuel.

## Model

| member | source | states |
|---|---|---|
| Faults.Dup | parser.c:231-234 | copying a text succeeds exactly when it is present, and gives that text |
| CType.DigitSpan | lexer.c:107-111 | the end of the longest digit run: everything before is a digit, the character at the end is not |
| CType.AlnumSpan | lexer.c:92-96 | the end of the longest alphanumeric run: everything before is alphanumeric, the character at the end is not |
| CType.DigitSpanExact | lexer.c:107-111 | a digit run followed by a non-digit is exactly what DigitSpan finds |
| CType.AlnumSpanExact | lexer.c:92-96 | an alphanumeric run followed by a non-alphanumeric is exactly what AlnumSpan finds |
| Lexer.QuoteSpan | lexer.c:216-221 | the string scan stops at the first `"` or terminator, with neither before it |
| Lexer.Scan | lexer.c:37-233 | every loop iteration consumes at least one character; it never emits EOF; its token carries a text exactly when the kind is variable, number or string |
| Lexer.Emit | lexer.c:26-34 | add_token, written as a definition without a contract: a step's token, if any, is appended. LexStep and LexSkips state its effect on the token array |
| Lexer.Lex | lexer.c:36-236 | the token array is well formed: one EOF, last, text only on textual tokens |
| LexerProps.ScanKeyword | lexer.c:50-90 | a keyword followed by a non-alphanumeric is that keyword, even though shorter keywords are checked first (`foreach` is not `for`) |
| LexerProps.ScanKeywordOnlyAtBoundary | lexer.c:50-90 | conversely, a keyword token comes only from its spelling at a word boundary, consumes that spelling and has no text |
| LexerProps.ScanSpace | lexer.c:40-43 | whitespace produces no token and consumes one character |
| LexerProps.ScanOpenTag | lexer.c:45-48 | `<?php` produces no token and consumes five characters, wherever it stands, ahead of `<` |
| LexerProps.ScanVariable | lexer.c:92-105 | `$name` gives a variable whose text is the longest, possibly empty, alphanumeric run after `$`, without the `$` |
| LexerProps.ScanNumber | lexer.c:107-119 | a number's text is the longest digit run, and never empty |
| LexerProps.ScanEquals | lexer.c:127-136 | `=>` is one arrow of two characters; any other `=` is an equals sign of one |
| LexerProps.ScanString | lexer.c:216-230 | a terminated string's text is exactly what lies between the quotes, and scanning resumes after the closing quote |
| LexerProps.ScanUnterminatedString | lexer.c:216-230 | an unterminated string takes the rest of the text and consumes it all |
| LexerProps.QuoteSpanExact | lexer.c:218-221 | the quote scan stops exactly at the first quote or terminator |
| LexerProps.ScanPunct | lexer.c:121-214 | each punctuation or operator character is one text-less token of length one |
| LexerProps.ScanUnknown | lexer.c:232-233 | an UNKNOWN token is produced exactly for a character no rule recognises, and it consumes one character |
| LexerProps.LexSkips | lexer.c:40-48 | skipped input contributes no tokens |
| LexerProps.LexStep | lexer.c:26-34 | a scanned token is appended ahead of the tokens of the rest of the text |
| LexerRoundTrip.ScanSpelling | lexer.c:37-233 | one scanning step reads any spellable token back from its spelling followed by a blank |
| LexerRoundTrip.ScanSpellingKeyword | lexer.c:50-90 | a keyword's spelling reads back as that keyword |
| LexerRoundTrip.ScanSpellingVariable | lexer.c:92-105 | `$` and an alphanumeric name read back as that variable |
| LexerRoundTrip.ScanSpellingNumber | lexer.c:107-119 | a digit string reads back as that number |
| LexerRoundTrip.ScanSpellingString | lexer.c:216-230 | a quoted text without quotes reads back as that string |
| LexerRoundTrip.ScanSpellingSymbol | lexer.c:121-214 | each operator and punctuation spelling, `=` and `=>` included, reads back as its token |
| LexerRoundTrip.PunctSpelling | lexer.c:121-214 | each remaining symbol is spelled by the one character that maps to its kind |
| LexerRoundTrip.ScanPunctSpelled | lexer.c:121-214 | a punctuation character followed by a blank is one token of length one |
| LexerRoundTrip.LexUnlex | lexer.c:36-236 | scanning the spelled token list gives back exactly the list followed by EOF |
| LexerRoundTrip.LexThenBlank | lexer.c:36-43 | a token followed by a blank yields that token and then the tokens of the rest |
| Environment.Find | parser.c:44-51 | the search returns the first entry holding the name, or the table length when there is none |
| Environment.Set | parser.c:62-93 | after a set the name is bound; a known name keeps the table length, a new one grows it by one; unique names stay unique |
| Environment.SetLookup | parser.c:62-93 | after a set, lookups of that name give the new scalar and array, and the entry's replacement count moves on |
| Environment.SetOthers | parser.c:63-78 | a set leaves every other name's scalar, array and replacement count unchanged |
| Environment.SetKeepsOthers | parser.c:62-93 | setting one name leaves all other names' contents as they were |
| Environment.SetShape | parser.c:62-93 | a known name is replaced in place with every other entry untouched; a new name is appended |
| Environment.FindIs | parser.c:44-51 | any index that is the first holding the name, or the length when none does, is what the search returns |
| Environment.GetAbsent | parser.c:44-60 | looking up a name that was never set finds neither a scalar nor an array |
| Environment.LookupValue | parser.c:44-51 | a NULL name is a fault as soon as there is an entry to compare with; an empty table answers nothing |
| Environment.LookupArray | parser.c:53-60 | the same for the array lookup |
| Environment.SetNamed | parser.c:62-93 | setting through a NULL name is a fault; otherwise it is Set |
| Arith.Atof | parser.c:96-97 | C `atof`, written as a definition without a contract: skip blanks, an optional sign, digits, an optional fraction and exponent. What it reads is stated by AtofDecimal, AtofDigits, AtofWithoutDigits and AtofFmt2 |
| Arith.AtofWithoutDigits | parser.c:96-97 | a text without a digit, such as a name, reads as zero |
| Arith.NatText | parser.c:121-122 | a natural number prints as a non-empty digit string |
| Arith.Fmt2 | parser.c:121-122 | `"%.2f"` output is an optional minus sign, a whole part without leading zeros, a point and exactly two digits; the sign is there exactly for a negative value |
| Arith.OperateValues | parser.c:95-124 | NULL operands are a fault. The diagnostic is written exactly for `/` by a zero operand. The result is `"0"` exactly for such a division or an operator outside `+ - * /`. Otherwise the result is the exact result printed with `"%.2f"`, so it reads back as that result rounded to two decimals |
| Arith.EvaluateCondition | parser.c:126-138 | NULL operands are a fault; only `<` and `>` can be true, and they compare the two numbers |
| Arith.SpaceSpan | parser.c:96-97 | atof's leading blanks end at a non-blank |
| Arith.DigitsValueNatText | parser.c:121-122 | reading a printed natural number back gives the number |
| Arith.UnsignedDecimal | parser.c:96-97 | atof reads `d.f` as d plus the fraction f |
| Arith.AtofDecimal | parser.c:96-97 | atof reads an optionally negated `d.f` as the signed value |
| Arith.AtofNegatedDecimal | parser.c:96-97 | atof reads `-d.f` as minus (d plus the fraction f) |
| Arith.AtofPlainDecimal | parser.c:96-97 | atof reads `d.f` as d plus the fraction f |
| Arith.AtofNegated | parser.c:96-97 | a leading minus negates what follows |
| Arith.AtofFromDigit | parser.c:96-97 | a text opening with a digit reads as the unsigned number it starts with |
| Arith.FractionTwoDigits | parser.c:121-122 | two printed decimals read back as hundredths |
| Arith.AtofFmt2 | parser.c:121-122 | printing with `"%.2f"` and reading back with atof gives the value rounded to two decimals |
| Arith.Round2Close | parser.c:121-122 | rounding to two decimals moves a value by at most 0.005 |
| Arith.OperateValuesClose | parser.c:95-124 | an arithmetic result printed by operate_values and read back by atof is within half a hundredth of the exact result |
| Arith.Round2Whole | parser.c:366-367 | whole numbers survive printing, so `for` counters read back unchanged |
| Arith.AtofDigits | parser.c:326-327 | a digit string, such as a raw `for` initializer, reads as its decimal value |
| Cursor.At | parser.c:36-38 | reading the current token succeeds exactly when the cursor is on the array, and gives that token |
| Cursor.Skip | parser.c:290-295 | the brace-depth skip only moves the cursor forward, and on an EOF-terminated array stays on it |
| Cursor.DepthStep | parser.c:290-295 | each token read changes the depth by its brace change |
| Cursor.SkipFindsMatch | parser.c:371-376 | from depth d the skip never faults. It stops where the depth first reaches zero or at EOF. Before that the depth stays positive and no EOF is met |
| Cursor.SkipStopsAfterClose | parser.c:421-426 | when the skip stops at depth zero, the token just before is the matching `}` |
| ArrayLiteral.Resolve | parser.c:168-170 | a variable element is the variable's current scalar; any other token gives its own text |
| ArrayLiteral.Element | parser.c:167-183 | an element has a key exactly when an arrow follows its first value, and ends after one or three tokens accordingly |
| ArrayLiteral.Elements | parser.c:160-193 | the element loop ends just after a `]` or on EOF |
| ArrayLiteral.ParseArray | parser.c:152-196 | parse_array ends just after its `]`, or on EOF for an unclosed literal, and on an EOF-terminated array stays on it |
| ArrayProps.ResolveDenotes | parser.c:168-170 | an element token reads as the text it denotes: its own text, or a variable's current scalar |
| ArrayProps.ElementKeyed | parser.c:167-183 | `a => b`, for any tokens that denote texts (strings, numbers, variables with a scalar), reads as the item keyed by a's text with b's text as value |
| ArrayProps.ElementPlain | parser.c:167-183 | a token that denotes a text and is not followed by an arrow reads as an item without a key |
| ArrayProps.ElementsAfter | parser.c:160-189 | one turn of the loop: the element, an optional comma, then the rest, in order |
| ArrayProps.ElementOfHead | parser.c:167-188 | a spelled item reads as that item and ends at its comma or at the next item |
| ArrayProps.ElementsStep | parser.c:160-189 | a spelled item is read ahead of everything the loop reads after it |
| ArrayProps.SpellsOfSlice | parser.c:160-189 | a spelled item list splits into one spelled item after another |
| ArrayProps.NextIsNotSeparator | parser.c:173-188 | after a spelled item and its optional comma comes the next item's first token or `]`, never an arrow or a comma |
| ArrayProps.ElementsOfSpelled | parser.c:160-193 | the loop returns exactly the spelled items in source order, keyed exactly where an arrow was written, with the values the tokens denote, with or without a comma after each item (a trailing one included), and stops after `]` |
| ArrayProps.EntriesSplit | parser.c:160-189 | a non-empty entry list reads as its first entry's item followed by the rest's items, and ends where the rest, spelled after the first entry, ends |
| ArrayProps.HeadStartsWithOperand | parser.c:167-170 | a spelled item starts with a token the loop reads as an element, never `]`, an arrow or a comma |
| ArrayProps.ParseArrayOfLiteral | parser.c:152-196 | parse_array inverts the literal's spelling for any written items (strings, numbers, variables with a scalar, each keyed or not, each with or without a comma), `[]` included, and leaves the cursor just after `]` |
| ArrayProps.ParseArrayReads | parser.c:152-158 | parse_array is the element loop started just inside the bracket |
| ArrayProps.ElementsAtClose | parser.c:191-193 | at `]` the loop stops with no items, after the bracket |
| ArrayProps.ElementSnapshotsVariable | parser.c:168-170 | a variable element takes the variable's scalar at the moment the literal is read; with no scalar it is a fault |
| Interpreter.EchoStmt | parser.c:201-219 | echo only appends to the output, never changes the table or the diagnostics, and always advances |
| Interpreter.Operand | parser.c:227-238 | a right-hand side holds a scalar or an array, never both; the cursor never moves back |
| Interpreter.Arithmetic | parser.c:240-251 | an operator consumes exactly two tokens and needs a present first value. Without an operator nothing is consumed and the value is unchanged. At most one diagnostic is written |
| Interpreter.RightHandSide | parser.c:227-251 | the new contents never hold both a scalar and an array; at most one diagnostic is written |
| Interpreter.AssignStmt | parser.c:219-260 | assignment never prints, always advances, and keeps names unique |
| Interpreter.AssignValue | parser.c:223-256 | the part after `=` never prints and never moves the cursor back |
| Interpreter.Commit | parser.c:253-259 | committing replaces the variable with exactly the new contents, adds the diagnostics, prints nothing, and consumes an optional `;` |
| Interpreter.Branch | parser.c:287-296 | a block that is not selected is skipped, with nothing but the cursor changed |
| Interpreter.IfStmt | parser.c:261-316 | an if keeps names unique, only appends output, and keeps the cursor on the array |
| Interpreter.IfHead | parser.c:262-285 | the condition can be true only for `<` or `>`, and the if-block starts seven tokens after `if` |
| Interpreter.IfArms | parser.c:287-313 | running one arm and skipping the other preserves the state invariants |
| Interpreter.ForLoop | parser.c:359-370 | the loop ends only when its condition is false, with the cursor back at the body's start |
| Interpreter.ForCondition | parser.c:360-363 | the condition is readable exactly when the variable has a scalar and the limit a text; it is true exactly when atof of the counter's scalar is below (`<`) or above (`>`) atof of the limit text, and false for any other operator |
| Interpreter.ForPass | parser.c:359-369 | a pass only appends output, never lowers the diagnostic count, keeps names unique, and rewinds the cursor to the body's start |
| Interpreter.Increment | parser.c:364-369 | the increment succeeds exactly when its variable has a scalar and the step a text; the variable then holds operate_values of atof of its scalar and atof of the step printed with `"%.2f"` (`"0"` and one diagnostic for a division by zero), loses its array, and every other name keeps its contents |
| Interpreter.ForInit | parser.c:322-332 | the initializer always advances and keeps names unique |
| Interpreter.ForHead | parser.c:317-332 | the header keeps names unique; a complete header ends just after a `{` |
| Interpreter.ForTail | parser.c:334-358 | the condition and increment are read without changing the table; a complete header ends just after a `{` |
| Interpreter.ForStmt | parser.c:317-380 | a for statement keeps the state invariants |
| Interpreter.Store | parser.c:414-416 | setting the variable that holds the iterated array to an item of that array is a use after free; anything else is an ordinary set |
| Interpreter.ForeachLoop | parser.c:410-420 | the loop ends with the cursor back at the body's start |
| Interpreter.ForeachPass | parser.c:413-418 | a value variable that is the array variable, or a key variable that is the array variable when the item has a key, is a use after free |
| Interpreter.ForeachHead | parser.c:382-408 | a complete header ends just after a `{`; a found array has a name |
| Interpreter.ForeachStmt | parser.c:381-431 | a foreach keeps the state invariants |
| Interpreter.Statement | parser.c:198-432 | a token outside the five statement kinds leaves the state unchanged |
| Interpreter.Block | parser.c:142-150 | a block only appends output and diagnostics, keeps names unique and the cursor on the array |
| Interpreter.Run | parser.c:434-438 | a finished run ends on EOF |
| Interpreter.Interpret | main.c:21-25 | a whole program ends on the lexer's EOF token with unique variable names |
| InterpreterProps.RunStuck | parser.c:434-438 | a token parse_expression does not handle makes parser_run spin: no fuel is enough |
| InterpreterProps.BlockStuck | parser.c:142-146 | the same inside a block, unless the token is `}` |
| InterpreterProps.Dispatch | parser.c:198-431 | the branch is chosen by the current token's kind alone |
| InterpreterProps.EchoString | parser.c:205-218 | `echo "x"` prints exactly x and consumes an optional `;` |
| InterpreterProps.EchoVariable | parser.c:208-218 | `echo $n` prints n's scalar, or nothing when n has none |
| InterpreterProps.AssignLiteral | parser.c:230-259 | `$n = literal;` stores the literal's text and clears n's array; other names are unchanged |
| InterpreterProps.RightHandSideOfText | parser.c:230-232 | a literal without an operator is the whole right-hand side |
| InterpreterProps.AssignCommits | parser.c:219-260 | `$n =` commits exactly what the right-hand side reads |
| InterpreterProps.AssignHead | parser.c:219-225 | after `$n =` the rest of the statement is read at the next token |
| InterpreterProps.AssignSets | parser.c:219-259 | whatever the right-hand side reads is stored as n's scalar and array, every other name keeps its contents, the right-hand side's diagnostics are added, nothing is printed, and an optional `;` is consumed |
| InterpreterProps.ValueCommits | parser.c:253-259 | a right-hand side that reads successfully is committed as read |
| InterpreterProps.AssignCopy | parser.c:233-235 | `$n = $m;` copies m's scalar as it is now and clears n's array; copying a missing scalar is a fault |
| InterpreterProps.RightHandSideOfVariable | parser.c:233-235 | a variable operand without an operator reads as a copy of its scalar |
| InterpreterProps.AssignArray | parser.c:236-259 | `$n = [ ... ];` with any written entries (strings, numbers, variables with a scalar, keyed or not, commas or not) stores the items they denote, in order and resolved before n changes, as n's array, leaves n without a scalar, leaves every other name's scalar and array as they were, prints nothing, and ends just past the literal, or past a `;` that follows it |
| InterpreterProps.RightHandSideOfLiteral | parser.c:236-240 | such an array literal without an operator is the whole right-hand side: its items, no scalar, no diagnostic, ending after `]` |
| InterpreterProps.SecondOperandIsAName | parser.c:244-250 | a second operand that is not a number is looked up as a variable name, so `a + "m"` reads as `a + $m` |
| InterpreterProps.SameArithmetic | parser.c:245-246 | the operator tail treats a string operand as a variable name |
| InterpreterProps.AssignArithmetic | parser.c:240-259 | `$n = a op b;`, for a first operand that denotes x (a string, a number, or a variable with a scalar) and a second that is a number y or names a variable with scalar y, stores x op y printed with `"%.2f"` and clears n's array; a division by zero stores `"0"` and writes one diagnostic; every other name keeps its scalar and array, nothing is printed, and the statement ends after an optional `;` |
| InterpreterProps.RightHandSideOfArithmetic | parser.c:240-251 | such operands give operate_values' result and end after the second operand |
| InterpreterProps.ArithmeticOfUnset | parser.c:244-247 | a second operand that names a variable without a scalar is atof of NULL, a fault |
| InterpreterProps.RightHandSideOfUnset | parser.c:244-247 | an operator whose second operand names a variable without a scalar makes the right-hand side a fault |
| ControlProps.IfCondition | parser.c:262-288 | the arm is chosen by the numeric comparison of the two operands, evaluated once before the block, and only `<` or `>` choose the if-block |
| ControlProps.IfHeadEnters | parser.c:262-285 | a complete header yields the evaluated condition and the block after `{` |
| ControlProps.IfFalseNoElse | parser.c:289-298 | a false condition without else skips the block and changes nothing else |
| ControlProps.IfTrueNoElse | parser.c:287-298 | a true condition without else does exactly what its block does |
| ControlProps.IfTrueSkipsElse | parser.c:298-311 | a true condition runs the if-block and skips the else-block without effect |
| ControlProps.IfFalseRunsElse | parser.c:298-304 | a false condition skips the if-block without effect and runs the else-block |
| ControlProps.ForInitStoresText | parser.c:322-332 | the initializer stores the token's raw text, unconverted |
| ControlProps.ForHeadReadsHeader | parser.c:317-358 | the header is read as written: the limit and step are fixed token texts (never looked up) and the token after the increment's `=` is never read |
| ControlProps.ForTailReads | parser.c:334-358 | the condition and increment part of a complete header is read as written |
| ControlProps.ForLoopNotEntered | parser.c:359-370 | a condition false from the start runs the body zero times |
| ControlProps.ForEndsPastBody | parser.c:371-376 | after the loop the cursor is just past the body's matching `}` or on EOF, and the loop's state is kept |
| ControlProps.ForStmtOfLoop | parser.c:317-380 | a for statement is its header, then its loop, then the skip |
| ControlProps.BodyFollowsBrace | parser.c:371-376 | on an EOF-terminated array the skip over a for body always finds the matching `}` or EOF |
| ControlProps.ForPassOfBlock | parser.c:359-369 | a pass is the body followed by the increment of the state the body leaves |
| ControlProps.ForUnroll | parser.c:359-370 | while the condition holds, the loop is one pass followed by the loop from the state the pass leaves |
| ControlProps.CounterPass | parser.c:359-369 | with body `echo $i;` and step 1, a pass prints the counter's text and leaves the counter at k + 1 printed with two decimals, which reads back as k + 1; nothing else changes |
| ControlProps.CountCondition | parser.c:360-363 | a counter reading as k against a limit reading as m keeps the loop going exactly when k < m |
| ControlProps.NextCounter | parser.c:364-369 | the incremented whole counter is stored and reads back exactly, with no rounding drift |
| ControlProps.CounterNext | parser.c:359-369 | after a pass the counting conditions hold again one number higher |
| ControlProps.CountStep | parser.c:359-370 | below the limit, the counting loop is one pass followed by the loop from the next number |
| ControlProps.CountDone | parser.c:359-362 | at or past the limit the counting loop stops at once with the cursor at the body's start |
| ControlProps.CountInduction | parser.c:359-370 | any run obeying the step and stop rules of the counting loop ends in the state of counting up to the limit |
| ControlProps.CountLoop | parser.c:359-370 | a counting loop whose body echoes the counter runs exactly once per whole number from k up to m and ends in that state |
| ControlProps.CountedRunPrints | parser.c:359-369 | that end state has printed the first counter text and then every later whole number below the limit with two decimals, holds the limit in the counter, and adds no diagnostics |
| ControlProps.CounterIncrement | parser.c:364-369 | the increment of a counter reading as k by a step reading as 1 stores k + 1 printed with two decimals, with nothing else changed and the cursor at the body's start |
| ControlProps.CountingForReads | parser.c:317-358 | the header of `for ($i = n; $i < lim; $i = $i + 1)` stores n raw, reads n and lim as numbers, and the body `echo $i; }` is skipped in four tokens |
| ControlProps.ForCounts | parser.c:317-380 | `for ($i = n; $i < lim; $i = $i + 1) { echo $i; }` with digit strings n and lim stores n raw, counts up to lim and ends just past its `}` |
| ControlProps.ForeachAliasFails | parser.c:413-416 | a loop variable that is the array's own variable releases the array under the loop |
| ControlProps.EchoBody | parser.c:142-150 | the block `echo $v; }` prints v's scalar and ends after `}` |
| ControlProps.BlockStep | parser.c:142-146 | a block is its first statement followed by the rest of the block |
| ControlProps.EchoPrintsValue | parser.c:201-219 | that block prints v's scalar from any state |
| ControlProps.ForeachPrintsInOrder | parser.c:410-420 | a body printing the value variable prints the remaining values in array order |
| ControlProps.ForeachDone | parser.c:410-412 | past the last item the loop stops with the cursor at the body's start |
| ControlProps.PrintStep | parser.c:412-419 | one pass prints its item's value ahead of the rest |
| ControlProps.ForeachEchoesInOrder | parser.c:410-420 | `echo $v` as the body prints all the values in order |
| ControlProps.ForeachUnroll | parser.c:412-419 | the loop is one pass followed by the loop from the next item |
| ControlProps.PrintPass | parser.c:413-418 | a pass binds the value variable to the item's value and leaves the array variable untouched |
| ControlProps.ForeachHeadReads | parser.c:382-408 | the array is resolved once, when its name is read, and the body starts after `{` |
| ControlProps.ForeachSkipsAbsentArray | parser.c:410-426 | an absent array runs the body zero times, and only the cursor moves, to just past the body |
| ControlProps.KeyedPass | parser.c:413-418 | with a key variable, the key (absent for an indexed item) is bound first and the value second, then the body runs |
| ControlProps.ForeachStatementEchoes | parser.c:381-431 | `foreach ( $a as $v ) { echo $v; }` prints the array's values in order and ends just past its `}` |
| ControlProps.ForeachStmtOfLoop | parser.c:381-431 | a foreach over an array, with or without a key variable, is its header, then its loop, then the skip |
| ControlProps.BodySkip | parser.c:421-426 | the skip over `echo $v; }` stops just past the `}` |

## Left out

- File reading and the command line (utils.c, main.c): the model starts from the source text as a string.
- Memory management: allocation, capacity doubling, `realloc` and `free`. Storage is `seq` append and replacement. Only frees that the program can observe, a `foreach` array released while it is iterated, are modelled, through each entry's replacement count.
- `lexer_create`, `lexer_free`, `parser_create` and `parser_free`: they only allocate and release. `Interpret` starts from the empty table that `parser_create` builds.
- Output streams: stdout is the `out` string; the stderr division message is only counted.
- Lexer.Scan: each `char` stands for one byte of the source (a value below 256); the C code works on bytes, so multi-byte characters are not modelled.
- Lexer.Scan: an unterminated string stops at the end of the text. The C code steps past the terminator, which is undefined behaviour.
- Arith.Atof: hexadecimal, `inf`, `nan` and locale forms are not read. Values are exact reals, not doubles.
- Arith.Fmt2: rounding is ties-to-even on the exact real, not on the nearest double. For example, 0.015 prints as `0.02` here, while the double nearest 0.015 prints as `0.01`.
- Arith.OperateValues: the 32-byte buffer of `snprintf` is not modelled, so results are not truncated: a positive result with more than 28 whole digits, or a negative one with more than 27, is cut short in C. Arithmetic is on exact reals, with no overflow to infinity and no negative zero: `-5 * 0` prints `-0.00` in C and `0.00` here.
- Integer widths: the cursor, counts and lengths are unbounded, not C `int`.
- ControlProps.CountLoop: the full counting behaviour is proved only for `echo $i;` as the body and a step of 1; ForCounts further assumes digit-string bounds and `<`. Other loops are covered by ForUnroll, ForPass and Increment one pass at a time.
- Interpreter.Run: the fuel bound stands for unbounded running time. A `Fail(OutOfFuel)` says only that the bound was too small, or that the program spins.
- Interpreter.Statement: a run that the C program would continue after undefined behaviour stops with a `Fault` instead.
