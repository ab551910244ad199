# YZlang compiler core, modelled in Dafny

YZlang is a toy compiler written in C++. It turns a small language into
x86-64 assembly (NASM syntax). Source text is scanned into tokens, the
tokens are parsed into a tree, and the tree is walked to emit assembly that
keeps every value on the machine stack. This project models the core of
that pipeline and proves what each stage promises:

- `outcomes.dfy` (module `Outcomes`): `Option` and `Result`. A `Fatal(msg)`
  result stands for the compiler printing `msg` and calling `exit(EXIT_FAILURE)`.
- `ascii.dfy` (module `Ascii`): the character classes of `<cctype>` in the
  C locale, `Span` (the maximal run a scanning loop accumulates), and
  decimal numerals.
- `tokenizer.dfy` (module `Tokenizer`): the current lexer,
  `src/tokenizer.hpp`. `Lex` is the reference definition. The class
  `Tokenizer` is the cursor-based scan, proved equal to it. Lemmas state
  when the scan fails, what shape every token has, that there are never
  more tokens than characters, and that writing tokens back as text and
  scanning again is the identity.
- `tokenize_early.dfy` (module `EarlyTokenizer`): the earlier lexer,
  `src/Tokenize.hpp`. It knows only `exit`, integer literals and `;`, and
  skips everything else. `LexEarly` is its reference definition and the
  class `Tokenizer` is proved against it.
- `lexer_comparison.dfy` (module `LexerComparison`): on every text the
  current lexer accepts, the earlier lexer yields exactly the `exit`,
  literal and `;` tokens of the current one.
- `parser.dfy` (module `Parser`): `src/parser.hpp`, a cursor over the
  earlier lexer's tokens that recognises `exit INT ;`. The class `Parser` is
  proved against the functions `ExprAt` and `ExitAt`. Those functions
  classify every outcome: no match, a node, or one of the two fatal
  diagnostics.
- `arena.dfy` (module `Arena`): the bump allocator `src/arena.hpp`, with
  pointers into the buffer reduced to byte offsets. A ghost list of the
  blocks handed out shows that they tile the used prefix of the buffer, so
  no two blocks overlap.
- `ast.dfy` (module `Ast`): the tree the generator walks, and the meaning
  of a program. A `val` binds a name, and the first `exit` ends the program
  with the low 8 bits of its 64-bit value.
- `x86.dfy` (module `X86`): the instruction lines the generator emits,
  their text, and a small machine that runs them. It has a stack of
  64-bit words and the registers `rax`, `rbx` and `rdi`; `syscall` with
  `rax = 60` is `exit`.
- `codegen.dfy` (module `Codegen`): the Linux branch of
  `src/genration.hpp`. The functions give the generator's effect for a
  term, an expression, a statement and a program. The class `Generator` is
  the imperative walk over the output buffer, `m_stack_size` and `m_vars`,
  proved to have exactly that effect. Lemmas state when generation
  succeeds, what the output looks like, and that pushes minus pops equals
  the stack counter.
- `codegen_correct.dfy` (module `CodegenCorrect`): the generated code is
  correct. Run on the machine, the code of an expression pushes its value.
  The code of a program exits with the status of its first `exit`, or
  with 0. The identifier addressing `(m_stack_size - stack_loc - 1) * 8`
  is what makes this hold.

The generator binds a `val` name before it generates the initializer. In
`val x = x;` the read of `x` therefore computes `(n - n - 1) * 8` in
64-bit `size_t`, which wraps to 2^64 - 8. The compiler accepts this
program, and the model shows that its code reads outside the pushed words
(`SelfReferenceWraps`). The correctness theorem is stated for programs in
which no `val` reads its own name.

## Model

| member | source | states |
|---|---|---|
| Ascii.Span | src/tokenizer.hpp:28-32 | the run a scanning loop collects is a prefix of the text, every character satisfies the class, and the next character (if any) does not |
| Ascii.SpanUnique | src/tokenizer.hpp:29-32 | any prefix of class characters that stops at the end or at a non-class character is that run, so the loop's result is determined |
| Ascii.ToDecimal | src/genration.hpp:48 | the decimal text `<<` writes for a displacement is a numeral that reads back as the same number, with no leading zero (just `0` for zero), one digit exactly when it is below 10 |
| Tokenizer.Lex | src/tokenizer.hpp:19-98 | the reference scan of the current lexer; the only way it stops the compiler is the unknown-token diagnostic, which a first character that is not alphanumeric, not whitespace and not an operator always gives |
| Tokenizer.LexFailsIff | src/tokenizer.hpp:65-94 | the scan stops the compiler exactly when the text holds a character that is not alphanumeric, not whitespace and not one of the eight operators |
| Tokenizer.LexWellFormed | src/tokenizer.hpp:26-90 | every token of a successful scan has its kind's shape: identifiers carry a letter-led alphanumeric word other than `exit` and `val`, literals carry a digit string, all other kinds carry nothing |
| Tokenizer.LexCount | src/tokenizer.hpp:24-95 | a successful scan yields no more tokens than the text has characters |
| Tokenizer.LexTokenText | src/tokenizer.hpp:26-90 | the text of a well-formed token followed by a space or by nothing scans to that token first |
| Tokenizer.LexUnlex | src/tokenizer.hpp:19-98 | writing well-formed tokens back as text, separated by spaces, and scanning again gives the same tokens |
| Tokenizer.RelexPayload | src/tokenizer.hpp:26-59 | the text an identifier or literal token carries scans back to exactly that token |
| Tokenizer.LexUnlexLex | src/tokenizer.hpp:19-98 | the canonical text of a successful scan scans to the same result |
| Tokenizer.Tokenizer.constructor | src/tokenizer.hpp:14-17 | keeps the source text and puts the cursor at 0 |
| Tokenizer.Tokenizer.Peek | src/tokenizer.hpp:101-107 | no character exactly when cursor plus offset is past the end, otherwise the character there |
| Tokenizer.Tokenizer.Consume | src/tokenizer.hpp:109-112 | returns the character under the cursor and advances the cursor by one |
| Tokenizer.Tokenizer.ConsumeRun | src/tokenizer.hpp:28-32 | collects exactly the maximal run of class characters at the cursor and moves the cursor past it |
| Tokenizer.Tokenizer.Tokenize | src/tokenizer.hpp:19-98 | the result is the reference scan of the text from the cursor, an unknown character gives the fatal diagnostic, and on success the cursor is reset to 0 |
| EarlyTokenizer.LexEarlyWellFormed | src/Tokenize.hpp:36-70 | only literal tokens carry text, and that text is a non-empty digit string |
| EarlyTokenizer.LexEarly | src/Tokenize.hpp:29-74 | the reference scan of the earlier lexer: `exit`, literals and `;` become tokens and everything else is skipped; each token consumes at least one character, so there are never more tokens than characters |
| EarlyTokenizer.LexEarlyCongruent | src/Tokenize.hpp:36-70 | two tails that begin at a word boundary and scan alike still scan alike after any common prefix |
| EarlyTokenizer.LexEarlySkips | src/Tokenize.hpp:67-70 | a character that is neither alphanumeric nor `;` behaves like a blank wherever it stands: it ends a word or literal and yields nothing |
| EarlyTokenizer.Tokenizer.constructor | src/Tokenize.hpp:24-27 | keeps the source text and puts the cursor at 0 |
| EarlyTokenizer.Tokenizer.Peak | src/Tokenize.hpp:77-83 | no character exactly when cursor plus offset is past the end, otherwise the character there |
| EarlyTokenizer.Tokenizer.Consume | src/Tokenize.hpp:85-88 | returns the character under the cursor and advances the cursor by one |
| EarlyTokenizer.Tokenizer.ConsumeRun | src/Tokenize.hpp:38-42 | collects exactly the maximal run of class characters at the cursor and moves the cursor past it |
| EarlyTokenizer.Tokenizer.Next | src/Tokenize.hpp:36-70 | one round of the loop consumes at least one character, and what it yields followed by the scan of the rest is the scan of the text from where it started |
| EarlyTokenizer.Tokenizer.Tokenize | src/Tokenize.hpp:29-74 | the result is the reference scan of the text from the cursor, and the cursor is reset to 0 |
| LexerComparison.LexersAgree | src/Tokenize.hpp:29-74 | on text the current lexer accepts, the earlier lexer yields exactly the current lexer's `exit`, literal and `;` tokens, in order and with the same literal text |
| Parser.ExprAt | src/parser.hpp:23-29 | an expression exactly when the token at the cursor is an integer literal; the cursor then moves one place, and otherwise it stays |
| Parser.ExitAt | src/parser.hpp:31-56 | no match with the cursor unchanged exactly when the token is not `exit`; a node and a cursor moved by 3 exactly for `exit INT ;`; "Invalid expression" exactly when `exit` is not followed by a literal; "Expected semicolon" exactly when `exit INT` is not followed by `;` |
| Parser.ParseUnparse | src/parser.hpp:31-56 | the three tokens of an exit statement, wherever they stand, parse back to the same node and are consumed whole |
| Parser.LexKeyword | src/Tokenize.hpp:36-49 | `exit` followed by a non-alphanumeric character scans to the `exit` token |
| Parser.LexLiteral | src/Tokenize.hpp:50-61 | a numeral followed by a non-digit scans to one literal token carrying the numeral |
| Parser.LexExitStatement | src/Tokenize.hpp:29-74 | the text `exit <digits>;` scans to the three tokens of an exit statement, followed by the scan of the rest |
| Parser.ParseLexedExit | src/parser.hpp:31-56 | scanning and then parsing `exit <digits>;` yields the exit node holding that literal, with the cursor after all three tokens |
| Parser.Parser.constructor | src/parser.hpp:19-21 | keeps the tokens and puts the cursor at 0 |
| Parser.Parser.Peak | src/parser.hpp:59-65 | no token exactly when cursor plus offset is past the end, otherwise the token there |
| Parser.Parser.Consume | src/parser.hpp:67-70 | returns the token under the cursor and advances the cursor by one |
| Parser.Parser.ParseExpr | src/parser.hpp:23-29 | result and new cursor are those `ExprAt` gives for the old cursor |
| Parser.Parser.ParseExit | src/parser.hpp:31-56 | result and new cursor are those `ExitAt` gives for the old cursor, including both fatal diagnostics |
| Arena.TilesOrdered | src/arena.hpp:16-27 | blocks laid out back to back lie inside the used prefix, in increasing order, each starting where the previous one ends, so no two overlap |
| Arena.TilesExtend | src/arena.hpp:24-26 | a block carved at the current offset extends the back-to-back layout up to the new offset |
| Arena.ArenaAlloc.constructor | src/arena.hpp:9-14 | a buffer of the requested size with the offset at its start and nothing handed out |
| Arena.ArenaAlloc.Alloc | src/arena.hpp:16-27 | succeeds exactly when the block fits before the end of the buffer, returns the old offset and bumps the offset by the size; otherwise "Arena allocator out of memory!" and nothing changes; the blocks handed out keep tiling the used prefix |
| Codegen.Offset | src/genration.hpp:48 | the `size_t` displacement `(m_stack_size - stack_loc - 1) * 8` is always a whole number of 8-byte words and below 2^64 |
| Codegen.TermCode | src/genration.hpp:18-62 | a term can be generated exactly when it is a literal or a bound name; an unbound name gives "Undeclared identifier: " followed by that name |
| Codegen.ExprCode | src/genration.hpp:64-98 | the code of a sum is the left operand's code, then the right operand's with the counter one higher, then `pop rax`, `pop rbx`, `add rax, rbx`, `push rax`; what it promises is stated by `ExprCodeOkIff`, `ExprCodeNet` and `ExprCorrect` |
| Codegen.StmtGen | src/genration.hpp:100-139 | `exit` appends the expression's code, `mov rax, 60`, `pop rdi`, `syscall`; `val` rejects a bound name with "Identifier already used: " and binds the name to the counter before it generates the initializer; what it promises is stated by `StmtGenOkIff` and `StmtGenEffect` |
| Codegen.StmtsGen | src/genration.hpp:155-156 | statements are generated one after another from the state the previous one left; stated by `StmtsGenOkIff`, `StmtsGenAppend` and `StmtsGenEffect` |
| Codegen.ProgGen | src/genration.hpp:141-171 | the header, the statements, then `mov rax, 60`, `mov rdi, 0`, `syscall`; stated by `ProgGenEffect` and `ProgCorrect` |
| X86.Render | src/genration.hpp:175-185 | the text of every emitted line is non-empty and ends with a newline (the memory push ends with two, since its operand already carries one) |
| Codegen.OffsetOfSlot | src/genration.hpp:46-49 | for a slot below the counter the displacement is its distance from the top in bytes; for the slot the counter names it wraps to 2^64 - 8 |
| Codegen.ExprCodeOkIff | src/genration.hpp:18-98 | an expression can be generated exactly when every name it reads is bound; otherwise the message is "Undeclared identifier: " followed by one of its unbound names |
| Codegen.ExprCodeNet | src/genration.hpp:64-98 | the code of an expression pushes exactly one word more than it pops |
| Codegen.StmtGenEffect | src/genration.hpp:100-139 | a statement appends its code; `exit` leaves the counter and the bindings as they were, `val` raises the counter by one and binds a new name to the old counter; pushes minus pops is the counter's rise |
| Codegen.StmtsGenAppend | src/genration.hpp:155-156 | statements are generated in order: the code of `a + b` is the code of `a` and then of `b`, and a failure in `a` stops everything |
| Codegen.StmtGenOkIff | src/genration.hpp:100-139 | `exit(e)` can be generated exactly when every name `e` reads is bound; `val x = e` exactly when `x` is not yet bound and `e` reads only bound names or `x` itself |
| Codegen.StmtsGenOkIff | src/genration.hpp:100-156 | a run of statements can be generated exactly when its names are declared once and before use |
| Codegen.StmtsGenEffect | src/genration.hpp:100-156 | when a run of statements is generated, the output only grows, the counter rises by the number of `val` statements, and that is also pushes minus pops of the appended code |
| Codegen.ProgGenEffect | src/genration.hpp:141-171 | a program compiles exactly when it is well scoped; the output starts with the header and always ends with the exit-0 epilogue, and the counter equals the number of `val` statements and the net pushes of the whole output |
| Codegen.Generator.constructor | src/genration.hpp:13-16 | keeps the program, with empty output, counter 0 and no bindings |
| Codegen.Generator.Emit | src/genration.hpp:110-112 | writes a line that does not move the stack: the line is appended and the counter and bindings stay |
| Codegen.Generator.Push | src/genration.hpp:175-185 | appends `push` with the operand and raises the counter by one |
| Codegen.Generator.Pop | src/genration.hpp:187-197 | appends `pop` into the register and lowers the counter by one |
| Codegen.Generator.GenTerm | src/genration.hpp:18-62 | fails exactly when the term function fails, with the same "Undeclared identifier: " message; otherwise the state advances exactly as the term function says |
| Codegen.Generator.AddTop | src/genration.hpp:80-83 | appends `pop rax`, `pop rbx`, `add rax, rbx`, `push rax`; the counter drops by one and the bindings stay |
| Codegen.Generator.GenExpr | src/genration.hpp:64-98 | fails exactly when `ExprCode` fails, with the same message; otherwise the output grows by `ExprCode` and the counter rises by one |
| Codegen.Generator.GenStmt | src/genration.hpp:100-139 | fails exactly when `StmtGen` fails, with the same message; otherwise the new state is the one `StmtGen` gives |
| Codegen.Generator.Generate | src/genration.hpp:141-171 | fails exactly when `ProgGen` fails, with the same message; otherwise the new state is the one `ProgGen` gives and the returned text is the rendering of the output lines |
| CodegenCorrect.LitCorrect | src/genration.hpp:23-34 | the code of a literal pushes its value truncated to 64 bits |
| CodegenCorrect.IdentCorrect | src/genration.hpp:37-57 | the code of a bound name pushes the word in the slot the name was bound to |
| CodegenCorrect.AddTail | src/genration.hpp:80-83 | the four combining lines replace the two top words by their 64-bit sum |
| CodegenCorrect.ExprCorrect | src/genration.hpp:64-98 | from a stack whose slots hold the bound names' values, the code of an expression pushes its value and leaves the words below untouched |
| CodegenCorrect.ExitTailEffect | src/genration.hpp:110-112 | `mov rax, 60`, `pop rdi`, `syscall` end the process with the low 8 bits of the top word |
| CodegenCorrect.ExitCorrect | src/genration.hpp:108-112 | the code of `exit(e)` ends the process with the low 8 bits of the value of `e` |
| CodegenCorrect.LetCorrect | src/genration.hpp:124-134 | the code of a `val` whose initializer does not read its own name pushes the value into the slot the name is bound to |
| CodegenCorrect.StmtsCorrect | src/genration.hpp:155-156 | the code of a run of statements exits with the status of the first `exit`; without one it leaves a stack that matches the generator's new bindings |
| CodegenCorrect.EpilogueEffect | src/genration.hpp:159-161 | the epilogue ends the process with status 0 |
| CodegenCorrect.HeaderEffect | src/genration.hpp:145 | the header changes nothing |
| CodegenCorrect.ProgCorrect | src/genration.hpp:141-171 | the whole program run from an empty stack exits with the status of its first `exit`, or with 0 |
| CodegenCorrect.ExampleExitSix | src/genration.hpp:141-171 | `val a = 5; val b = a + 1; exit(b);` compiles and exits with status 6 |
| CodegenCorrect.SelfReferenceWraps | src/genration.hpp:124-134 | `val x = x;` compiles; its read of `x` is addressed at 2^64 - 8 and reads outside the pushed words |

## Left out

- The drivers `src/main.cpp` and `src/main.c` (reading files, writing the assembly, calling the assembler and linker) are not part of this model; all I/O is left out.
- `src/lexer.h` and `src/core/Token.h` are not part of this model: they are not used by the modelled files.
- `src/core/nodes.hpp` and `src/nods.hpp` declare the tree but are not part of this model. The datatypes of `Ast` follow what `src/genration.hpp` reads from it: a term (`NodeTerm`) is a literal or a name, and a binary expression is a sum reached through its `add` member. The multiplication node `NodeBinExprMulti` (`src/core/nodes.hpp:47-51`, `55`) and the flat `NodeExprIntLit`/`NodeExprIdent` layout of an expression (`src/core/nodes.hpp:31-39`, `58-61`) are not modelled. The source has no parser that builds the tree (there is no `parse_prog`), so the generator is modelled on trees given directly.
- The Windows branch of `src/genration.hpp` is left out; only the Linux branch is modelled.
- `LLOG`, `std::cerr` and `exit(EXIT_FAILURE)` become a `Fatal` result carrying the message text; colouring and the trailing newline and name that `LLOG` adds are not modelled.
- Arena.ArenaAlloc: `malloc`, `free`, the deleted copy operations and the returned typed pointer are left out; the buffer is reduced to byte offsets, and a failed `malloc` is not modelled.
- Character classes are ASCII in the C locale; locale-dependent `isalpha`/`isspace` and characters outside 0-255 are not modelled.
- Tokenizer.Tokenizer.Tokenize: requires the cursor to lie within the text, which always holds since the source only scans from 0 and resets to 0.
- EarlyTokenizer.Tokenizer.Tokenize: requires the cursor to lie within the text, for the same reason.
- Codegen.Generator.Push: the counter is an unbounded number; the `size_t` overflow of `m_stack_size` after 2^64 pushes is not modelled.
- Codegen.Generator.Pop: requires a positive counter; the generator only pops words it has just pushed, so the `size_t` wrap of `m_stack_size--` at zero never arises.
- CodegenCorrect.ProgCorrect: holds for programs whose literals are numerals, in which no `val` reads its own name, and whose stack use stays below 2^61 words; the self-reference case is shown separately by `SelfReferenceWraps`.
- The machine of `X86` has no initial process stack (argc, argv, environment) below the pushed words; a read outside the pushed words is a fault rather than a read of that memory. It gives a meaning only to `exit`, and an `exit` status is the low 8 bits of `rdi`, as the kernel keeps them.
- How the assembler would encode a displacement of 2^64 - 8 is not modelled; it is treated as out of range.
