# A verified model of a one-line expression translator

The program reads one assignment `name = expression` from standard input and, while it
recognises it, prints Motorola 68000 assembly that computes the expression and stores it
into the name. It is a single-pass recursive-descent translator with one character of
lookahead: a global `Look`, `GetChar`, `SkipWhite` and `Match` form the cursor; `GetName`
and `GetNum` scan bounded tokens into ten-byte buffers holding at most nine characters; `Factor`, `Term`,
`Expression`, `Ident` and `Assignment` (with `Multiply`, `Divide`, `Add`, `Subtract`) emit
code as they go; `Init` drives one line and demands the line terminator. The first
`Expected(...)` prints a message and exits.

The model has three layers.

- **Grammar** (`grammar.dfy`): each C function is a function from the cursor position
  (the number of `getchar` calls so far) to an `Outcome`: where it stopped, the
  instructions it emitted, and either what it recognised or what it expected when it
  aborted. The recognised value is a tree (`Ast.Expr`) used only to state properties; the
  C code builds none.
- **Translator** (`translator.dfy`): the C code as it runs. Class `Parser` holds the
  lookahead, the read position, the output and the error flag. Its methods update them in
  place, the scanners fill a caller's `char` array, and `Term` and `Expression` are
  `while` loops. Every method is proved to end in exactly the state its Grammar function
  describes.
- **Meaning** (`m68k.dfy`, `ast.dfy`, `roundtrip.dfy`, `correctness.dfy`): an abstract
  machine with D0, D1, A0, a stack and memory, on unbounded integers. On top of it sit a
  reference evaluator with the usual precedence, a reference code generator `Gen` and a
  printer `Show`. The proofs show four things. Everything the translator accepts is
  well formed and comes with exactly `Gen` of what it recognised. That code keeps the
  stack balanced and leaves the expression's value in D0. Printing any well-formed
  assignment and translating the printed line gives the assignment back, with its code.
  The emitted lines read back as the instructions they spell, except for the clipping
  under Findings.

Input is a `seq<char>`. Past its end the lookahead is `EndMarker` (the byte 0xFF that
EOF becomes in a signed `char`), which is not blank, not alphanumeric, not an operator and
not `'\n'`. The output is a sequence of `M68k.Instr`; `M68k.Printed` gives the line the
program prints for each (clipped to its 19-character buffer where one is used).

## Model

| member | source | states |
|---|---|---|
| Chars.ToUpper | parser-v1.c:93 | lower-case letters become capitals, nothing else changes class or value |
| Chars.ClassesDisjoint | parser-v1.c:43-66 | blank, alphanumeric, additive and multiplicative characters are disjoint classes; the end marker and `'\n'` are in none |
| Grammar.LookAt | parser-v1.c:11-16 | the lookahead is the character last read, NUL before the first read, the end marker after the input |
| Grammar.Advance | parser-v1.c:14-16 | `GetChar` moves the lookahead to the next character, or to the end marker past the input |
| Grammar.SkipWhite | parser-v1.c:68-72 | skipping never moves back and stops on a character that is not a space or tab |
| Grammar.SkipWhiteSkipsBlanks | parser-v1.c:68-72 | every character `SkipWhite` passes over is a space or tab |
| Grammar.Match | parser-v1.c:75-84 | succeeds exactly when the lookahead is `x`, then stands on a non-blank after it; otherwise aborts expecting `x` without reading |
| Grammar.MatchSkipsBlanks | parser-v1.c:75-84 | on success `Match` reads `x` and then exactly the blanks after it |
| Grammar.Scan | parser-v1.c:92-96 | the token loop keeps at most nine characters, stores the lookahead as its next one when it accepts it, and stops early only on a character it does not accept |
| Grammar.ScanStoresForm | parser-v1.c:92-109 | names are stored as upper-case letters and digits, numerals as digits |
| Grammar.ScanTakes | parser-v1.c:92-109 | the token is the accepted prefix of the input with blanks removed, in stored form, cut at nine characters |
| Grammar.ScanLeaves | parser-v1.c:92-109 | after the scan, the blank-free input has lost exactly the characters the token took, so a tenth character stays unread |
| Grammar.GetName | parser-v1.c:87-98 | aborts expecting a name exactly when the lookahead is not a letter, reading nothing; otherwise delivers a valid name and moves on |
| Grammar.GetNum | parser-v1.c:100-111 | aborts expecting an integer exactly when the lookahead is not a digit; otherwise delivers one to nine digits and moves on |
| Grammar.GetNameVisible | parser-v1.c:87-98 | the name delivered is the run of letters and digits at the front of the blank-free input, upper-cased, cut at nine |
| Grammar.GetNumVisible | parser-v1.c:100-111 | the numeral delivered is the run of digits at the front of the blank-free input, cut at nine |
| Grammar.NameAcrossBlank | parser-v1.c:92-96 | `a b` is read as the single name `AB` |
| Grammar.IdentSound | parser-v1.c:124-138 | what `Ident` recognises is a well-formed call or variable and its code is exactly the reference code for it (`BSR` for a call, a variable load otherwise) |
| Grammar.FactorSound | parser-v1.c:140-154 | whatever `Factor` recognises is well formed and its code is exactly the reference code |
| Grammar.MultiplySound | parser-v1.c:156-160 | `Multiply` emits the factor's code followed by `MULS (SP)+, D0` |
| Grammar.DivideSound | parser-v1.c:162-168 | `Divide` emits the factor's code followed by the pop into D1, `DIVS D0, D1` and the move back |
| Grammar.TermLoopSound | parser-v1.c:172-179 | each round of the `Term` loop extends the term by exactly the push and the operator's code; the loop stops on a non-`*`/`/` |
| Grammar.TermSound | parser-v1.c:170-180 | whatever `Term` recognises is well formed and its code is exactly the reference code |
| Grammar.AddSound | parser-v1.c:182-186 | `Add` emits the term's code followed by `ADD (SP)+,D0` |
| Grammar.SubtractSound | parser-v1.c:188-193 | `Subtract` emits the term's code followed by `SUB (SP)+,D0` and `NEG D0` |
| Grammar.ExprLoopSound | parser-v1.c:201-208 | each round of the `Expression` loop extends the expression by exactly the push and the operator's code |
| Grammar.ExpressionSound | parser-v1.c:195-209 | whatever `Expression` recognises, a leading sign applied to a cleared D0 included, is well formed and its code is exactly the reference code |
| Grammar.AssignmentSound | parser-v1.c:211-220 | `Assignment` emits the expression's code, then `LEA` of the name, then the store, and recognises a well-formed assignment |
| Grammar.InitDemandsNewline | parser-v1.c:226-229 | after a recognised assignment the line succeeds exactly when `'\n'` follows; otherwise it aborts expecting Newline with the assignment's whole reference code already emitted |
| Grammar.InitSound | parser-v1.c:223-230 | a translation that succeeds stops at the line terminator and emitted exactly the reference code; every emitted line is well formed, also when it aborts |
| Translator.TokenText | parser-v1.c:130-135 | reading a NUL-terminated buffer as `%s` yields the characters before the first NUL |
| Translator.Parser.constructor | parser-v1.c:11 | a fresh translator has read nothing, emitted nothing and has no error |
| Translator.Parser.GetChar | parser-v1.c:14-16 | `GetChar` advances the cursor as `Grammar.Advance` and keeps `Look` equal to the lookahead |
| Translator.Parser.SkipWhite | parser-v1.c:68-72 | the loop ends where `Grammar.SkipWhite` does |
| Translator.Parser.Match | parser-v1.c:75-84 | ends where `Grammar.Match` does, or sets the error flag to what it expected without reading |
| Translator.Parser.Collect | parser-v1.c:92-110 | the scanning loop fills the buffer with exactly `Grammar.Scan`'s token, NUL-terminated, and stops where it does |
| Translator.Parser.GetName | parser-v1.c:87-98 | ends in the state `Grammar.GetName` describes, and the buffer holds the name |
| Translator.Parser.GetNum | parser-v1.c:100-111 | ends in the state `Grammar.GetNum` describes, and the buffer holds the digits |
| Translator.Parser.EmitLn | parser-v1.c:119-122 | one instruction is appended to the output |
| Translator.Parser.Ident | parser-v1.c:124-138 | ends in the state `Grammar.Ident` describes |
| Translator.Parser.Factor | parser-v1.c:140-154 | ends in the state `Grammar.Factor` describes |
| Translator.Parser.Multiply | parser-v1.c:156-160 | ends in the state `Grammar.Multiply` describes |
| Translator.Parser.Divide | parser-v1.c:162-168 | ends in the state `Grammar.Divide` describes |
| Translator.Parser.Term | parser-v1.c:170-180 | the loop ends in the state `Grammar.Term` describes; its `default` branch is unreachable |
| Translator.Parser.Add | parser-v1.c:182-186 | ends in the state `Grammar.Add` describes |
| Translator.Parser.Subtract | parser-v1.c:188-193 | ends in the state `Grammar.Subtract` describes |
| Translator.Parser.Expression | parser-v1.c:195-209 | the loop ends in the state `Grammar.Expression` describes; its `default` branch is unreachable |
| Translator.Parser.Assignment | parser-v1.c:211-220 | ends in the state `Grammar.Assignment` describes |
| Translator.Parser.Init | parser-v1.c:223-230 | the whole run ends in the state `Grammar.Init` describes |
| Translator.Translate | parser-v1.c:232-235 | `main` emits exactly `Grammar.Init`'s code and aborts exactly when it does |
| M68k.Clip | parser-v1.c:130-135 | `snprintf` into the 20-byte `instruction` buffers (also lines 150-151 and 216-217) keeps a prefix of at most 19 characters, the whole text when it fits |
| M68k.Decode | parser-v1.c:131-219 | reads a printed line back as an instruction; whatever it accepts carries an operand of the form the scanners deliver |
| M68k.DecodeText | parser-v1.c:131-219 | every full instruction text reads back as that instruction: the listing is unambiguous |
| M68k.PrintedIsText | parser-v1.c:130-217 | clipping changes a printed line exactly for a variable load or address load of a nine-character name |
| M68k.NineCharLoadClipped | parser-v1.c:134-135 | loading a nine-character variable prints `MOVE ABCDEFGHI(PC)D`, which is no instruction |
| M68k.NineCharStoreClipped | parser-v1.c:216-217 | storing into a nine-character variable prints `LEA ABCDEFGHI(PC),A`, which is no instruction |
| M68k.Quot | parser-v1.c:166 | `DIVS` truncates toward zero: the remainder is smaller than the divisor and has the dividend's sign |
| M68k.RunAppend | parser-v1.c:119-122 | running two pieces of code in turn is running their concatenation |
| Ast.CombineComputes | parser-v1.c:156-193 | with the left operand pushed and the right one in D0, the combining instructions pop it and leave left op right in D0: `SUB` then `NEG` gives left − right, the pop into D1 then `DIVS` gives left ÷ right |
| Ast.GenComputes | parser-v1.c:140-209 | the reference code for a tree leaves its value in D0 and the stack, memory and A0 as they were, and faults exactly on a division by zero |
| Ast.GenStmtStores | parser-v1.c:211-220 | the code for an assignment stores the expression's value into the target and changes no other variable |
| Ast.GenBalanced | parser-v1.c:156-209 | every push in the code for a tree is matched by exactly one pop |
| RoundTrip.ParseFactor | parser-v1.c:140-154 | `Factor` on a printed factor recognises that tree and emits exactly its reference code |
| RoundTrip.ParseTerm | parser-v1.c:170-180 | `Term` on a printed term reads it whole and recognises the tree, left-associatively |
| RoundTrip.ParseExpression | parser-v1.c:195-209 | `Expression` on a printed expression reads it whole and recognises the tree, with `*` and `/` binding tighter and parentheses overriding |
| RoundTrip.ScanText | parser-v1.c:92-109 | a run of token characters in stored form is scanned as it stands, stopping after it or at nine characters |
| Correctness.TranslateLine | parser-v1.c:211-230 | translating the printed line of any well-formed assignment recognises that assignment, stops at the terminator and emits exactly its reference code |
| Correctness.TranslationStores | parser-v1.c:211-230 | running the code for a printed assignment stores the value of its expression into its target, and faults exactly on a division by zero |
| Correctness.AcceptedLinesNormalise | parser-v1.c:223-230 | any accepted line recognises a well-formed assignment whose printed line translates to the same code |
| Correctness.ExpressionComputes | parser-v1.c:140-209 | the code for any expression the translator accepts keeps the stack balanced and computes the expression's value in D0 |
| Correctness.AcceptedLineStores | parser-v1.c:211-230 | the code for any accepted line stores the value of the recognised expression into the recognised target and leaves the stack as it was |
| Correctness.CapExpression | parser-v1.c:105-109 | nine digits followed by a tenth form an expression of the first nine that stops in front of the tenth |
| Correctness.NumeralCap | parser-v1.c:105-109 | a ten-digit numeral is stored as its first nine digits and the line is then refused expecting a newline, all its code already emitted |
| Correctness.PrecedenceExample | parser-v1.c:170-209 | `A=2+3*4` emits the product's code nested inside the sum's |
| Correctness.ParenthesesExample | parser-v1.c:141-144 | `A=(2+3)*4` makes the sum the left operand of the product |
| Correctness.NegationExample | parser-v1.c:195-200 | `A=-5` clears D0, subtracts five and stores minus five |
| Correctness.CallExample | parser-v1.c:127-137 | `X=F()+Y` emits `BSR F` for the call and a variable load for `Y` |
| Correctness.MissingTargetExample | parser-v1.c:89-91 | `1=2` is refused expecting a name before anything is emitted |
| Correctness.MissingEqualsExample | parser-v1.c:76-83 | `AB` followed by the terminator is refused expecting `=` |
| Correctness.TrailingTextExample | parser-v1.c:211-229 | `A=1)` emits the whole assignment and is then refused expecting a newline |

## Left out

- Printing: `Emit`/`EmitLn` write a tab, the line and a newline to standard output. The model keeps the list of instructions in order; `M68k.Printed` gives each line's text.
- Process exit and message text: `Expected` formats "... Expected" and exits. The model records only what was expected (`Diagnostics.Expect`, carried by an `Abort` result in the grammar functions and by the parser's `error` field) and stops there. `Match`'s three-byte message buffer turns `'x'` into `'x`; the model does not reproduce the text.
- Locale: `isalpha`, `isdigit` and `toupper` are taken in the "C" locale (ASCII). The end of input is the byte 0xFF that EOF becomes in a signed `char`; on an unsigned-`char` platform it would differ.
- Machine arithmetic: the abstract machine uses unbounded integers. It has no 16-bit `MULS`/`DIVS` operands, no remainder in D1's upper word and no overflow. A division by zero is a fault (`None`).
- `BSR`: a call is modelled as the subroutine leaving a fixed value in D0 (`Machine.subroutines`). Nothing is known of the subroutine's code.
- Memory reads of names never written give 0.
- The `instruction` buffers for `BSR` and `MOVE #` always fit (at most 13 and 18 characters), so only the two clipped forms under Findings differ from the full text.
- The missing comma in `MOVE %s(PC)D0` is kept as written: `M68k.Text` and `M68k.Decode` use `MOVE <name>(PC)D0`.
- Translator.Parser methods require that no error has been raised. After `exit(1)` nothing runs, so each method returns as soon as a call it made sets the flag.
- `GetName` and `GetNum` share one loop, `Translator.Parser.Collect`; their C bodies differ only in the accepted class and the upper-casing.

## Findings

| source | as written | input that shows it | evidently intended | confidence | as-written member | corrected member |
|---|---|---|---|---|---|---|
| parser-v1.c:134-135 | the operand lines are formatted into `char instruction[20]`, so `MOVE %s(PC)D0` and (lines 216-217) `LEA %s(PC),A0` lose their last character when the name has the nine characters `GetName` allows | `ABCDEFGHI=ABCDEFGHI` prints `MOVE ABCDEFGHI(PC)D` and `LEA ABCDEFGHI(PC),A` | a buffer large enough for the longest line, so that every printed line is the full instruction text | not executed | M68k.NineCharLoadClipped | M68k.DecodeText |
