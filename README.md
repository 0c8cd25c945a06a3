# A verified model of a toy C++ compiler pipeline

The system compiles and runs a tiny language of assignments, `cin(x);` and
`cout(expr);` statements over integer and string values. Its stages are a
hand-written scanner (`Lexer`), a recursive-descent parser building an AST,
a declare-before-use semantic analyser, a generator of three-address IR, a
peephole optimizer (constant folding, algebraic identities, dead-temporary
removal, a summary block of notes), a pseudo-assembly generator with a
register allocator, and a tree-walking interpreter that works on text values.

The model has one Dafny module per source file:

| file | module | models |
|---|---|---|
| `wrappers.dfy` | `Wrappers` | `Option` and `Result` |
| `decimal.dfy` | `Decimal` | ASCII character classes, `std::to_string`, `strtol`, the `isNumber` helper, C's truncating `/` |
| `tokens.dfy` | `Tokens` | `include/token.h` |
| `ast.dfy` | `Ast` | `ASTNode` from `include/parser.h`, with `Option` children for nullable pointers |
| `instruction.dfy` | `Instr` | `IRInstruction` from `include/ir.h` and the IR printer of `src/main.cpp` |
| `lexer.dfy` | `Lex` | `src/lexer.cpp` |
| `parser.dfy` | `Parse` | `src/parser.cpp` |
| `semantic.dfy` | `Semantic` | `src/semantic.cpp` |
| `ir.dfy` | `IRGen` | `src/ir.cpp` |
| `optimizer.dfy` | `Optimizer` | `src/optimizer.cpp` |
| `codegen.dfy` | `CodeGen` | `src/codegen.cpp` |
| `interpreter.dfy` | `Interpret` | `src/interpreter.cpp` |
| `pipeline.dfy` | `Pipeline` | the IR generator and optimizer composed on one program |

Each stage is written twice. A pure function (or a family of them) says
what the stage computes. Then the stage is written as the source writes it,
as a class with fields its methods update or as methods with the source's
loops, and its `ensures` ties it to the pure function. The lemmas state
the properties about the pure functions. Exceptions become `Result`/`Err`
values (or `Fail`/`PErr` states that keep the state reached when the
exception was thrown). Standard input, output and error become lists of
lines.

## Model

| member | source | states |
|---|---|---|
| Decimal.IntToString | src/optimizer.cpp:76 | `std::to_string` of a signed value: a '-' before the digits of a negative value; `Decimal.IntToStringRoundTrip` proves `isNumber` accepts it and `strtol` reads it back |
| Decimal.ToLong | src/optimizer.cpp:20-22 | `strtol` in base 10: an optional sign, then the longest run of digits, 0 when there are none; `Decimal.LeadingDigits` and `Decimal.IntToStringRoundTrip` state its behaviour |
| Decimal.IsNumber | src/optimizer.cpp:10-18 | non-empty, and every character after an optional leading sign is a digit; `Decimal.ScanNumber` proves the source's loop decides exactly this |
| Decimal.TruncDiv | src/optimizer.cpp:72 | C's `/`, truncating toward zero; `Decimal.TruncDivIsCDivision` proves the remainder is smaller than the divisor and has the dividend's sign |
| Decimal.NatToString | src/optimizer.cpp:76 | `std::to_string` of a natural number is a non-empty string of digits, with no leading zero unless it is "0" |
| Decimal.NatToStringRoundTrip | src/optimizer.cpp:76 | reading the printed digits back as decimal gives the number again |
| Decimal.NatToStringInjective | src/optimizer.cpp:76 | different numbers print differently |
| Decimal.LeadingDigits | src/optimizer.cpp:20-22 | the run of digits `strtol` reads is all digits and stops at the first non-digit |
| Decimal.ScanNumber | src/optimizer.cpp:10-18 | the loop of `isNumber` returns true exactly for a non-empty text whose characters after one optional sign are all digits (so a lone sign passes) |
| Decimal.IntToStringRoundTrip | src/optimizer.cpp:20-22 | what `std::to_string` prints passes `isNumber`, and `strtol` reads it back as the same integer |
| Decimal.TruncDivIsCDivision | src/optimizer.cpp:72 | the quotient is C's: the remainder is smaller than the divisor in size and has the sign of the dividend |
| Instr.Render | src/main.cpp:50-59 | a printed instruction starts with its op, and is the op alone exactly when both operands are empty |
| IRGen.MakeTemp | src/ir.cpp:9-11 | a temporary's name is at least two characters and starts with 't' |
| IRGen.MakeTempRoundTrip | src/ir.cpp:9-11 | the number can be read back from a temporary's name |
| IRGen.MakeTempInjective | src/ir.cpp:9-11 | different counters give different temporary names |
| IRGen.NotATemp | src/ir.cpp:9-11 | text not of the form "t" plus a number is no temporary's name |
| IRGen.ExprIR | src/ir.cpp:21-71 | the `genExpr` lambda on values: the code appended and the temporary returned from counter k; `IRGen.ExprTemps`, `IRGen.BinopLayout` and `IRGen.BinopNumbering` state its numbering and order |
| IRGen.StmtIR | src/ir.cpp:74-104 | one pass of the statement loop; `IRGen.StmtShape` and `IRGen.StmtTemps` state each statement kind's code |
| IRGen.ProgramIR | src/ir.cpp:14-108 | the statement loop over the program; `IRGen.ProgramTempsDistinct` states that no temporary is written twice, and `IRGen.Generate` is proved equal to it |
| IRGen.IrOp | src/ir.cpp:50-55 | + - * / map to ADD SUB MUL DIV; other operator text passes unchanged |
| IRGen.ExprTemps | src/ir.cpp:21-71 | lowering an expression from counter k defines temporaries k, k+1, … in that order, each exactly once, and the value is held in the last one; a null node or a node of unknown kind emits nothing |
| IRGen.BinopTemps | src/ir.cpp:45-67 | for a binop, its temporaries are those of the left operand, then the right operand, then its own |
| IRGen.BinopLayout | src/ir.cpp:45-67 | a binop lowers its left operand fully, then its right operand, then the operation on their two temporaries, then one divide-by-zero note only when the divisor is the literal 0 |
| IRGen.BinopNumbering | src/ir.cpp:45-67 | every temporary the left operand defines is numbered below every one the right operand defines, and both are below the operation's own temporary |
| IRGen.StmtShape | src/ir.cpp:73-105 | an assignment stores the expression's temporary into the variable; cin is one READ with no temporary; cout of a bare variable loads it into a temporary but prints the variable; other cout prints the temporary; any other statement becomes one annotation |
| IRGen.StmtTemps | src/ir.cpp:73-105 | statement lowering keeps the temporary numbering of its expression |
| IRGen.ProgramTempsDistinct | src/ir.cpp:14-108 | over a whole program in which no variable is named like a temporary, temporaries are defined in strictly increasing order, so none is defined twice |
| IRGen.TempCollision | src/ir.cpp:76-81 | a variable named like a temporary collides with one: `t1 = 5;` gives `MOV 5 -> t1` then `STORE t1 -> t1` |
| IRGen.Lowering.constructor | src/ir.cpp:15-16 | the instruction vector starts empty and the temporary counter at 1 |
| IRGen.Lowering.NewTemp | src/ir.cpp:25 | returns the temporary numbered by the counter and bumps the counter |
| IRGen.Lowering.EmitLeaf | src/ir.cpp:24-43 | appends `op arg -> t` for a fresh temporary t and returns t |
| IRGen.Lowering.GenExpr | src/ir.cpp:21-71 | the `genExpr` lambda appends exactly the expression's lowering and advances the counter as that lowering says |
| IRGen.Lowering.GenBinop | src/ir.cpp:45-67 | the binop case of `genExpr`, the same for one binop |
| IRGen.Generate | src/ir.cpp:14-108 | `generate` returns the lowering of the statements in order, skipping null ones |
| Optimizer.Arith | src/optimizer.cpp:61-74 | the folded value, with C's truncating division; `Optimizer.FoldLiterals` and `Optimizer.FoldPrinted` state the folds built on it |
| Optimizer.Move | src/optimizer.cpp:85-101 | the single MOV an identity rewrites to, with the "folded" flag raised; `Optimizer.Identities` states which identity gives which MOV |
| Optimizer.FoldPass | src/optimizer.cpp:35-105 | pass 1 over the first n instructions: the code and the four flags; `Optimizer.FoldPassShape`, `Optimizer.FoldedFlag` and `Optimizer.DivByZeroFlag` state its behaviour |
| Optimizer.DeadPass | src/optimizer.cpp:116-140 | pass 2: the instructions that are kept; `Optimizer.DeadPassSubsequence`, `Optimizer.KeptPositionsExact` and `Optimizer.DeadPassMembers` state what it keeps |
| Optimizer.Summary | src/optimizer.cpp:144-160 | the summary block; `Optimizer.SummaryLayout`, `Optimizer.SummaryNotes`, `Optimizer.SummaryMentions` and `Optimizer.SummaryFolded` state its lines |
| Optimizer.Optimized | src/optimizer.cpp:24-169 | the whole optimizer; `Optimizer.SummaryShape`, `Optimizer.OutputIsRewritten` and `Optimizer.SecondRunFoldsNothing` state its output, and `Optimizer.Optimize` is proved equal to it |
| Optimizer.FoldInstr | src/optimizer.cpp:38-104 | pass 1 on one instruction keeps its result; an annotation is copied; a rewrite is always a MOV with no second operand; a kept division by 0 is flagged and unchanged; an instruction not rewritten is unchanged and records no example; a non-annotation is rewritten exactly when it is arithmetic on two literals other than a division by 0, or, not being that, matches one of the identities x+0, 0+x, x*0, 0*x, x*1, 1*x, x-0, x/1, so every other instruction is copied through unchanged |
| Optimizer.FoldPassShape | src/optimizer.cpp:35-105 | pass 1 pushes one instruction per input instruction, in order, copies annotations and never changes a destination |
| Optimizer.FoldedFlag | src/optimizer.cpp:60-101 | `foldedAny` is set exactly when some instruction was rewritten, and at most one example is recorded per instruction |
| Optimizer.DivByZeroFlag | src/optimizer.cpp:65-70 | `divByZeroFound` is set exactly when a division of two literals has a divisor that reads as 0 |
| Optimizer.FoldLiterals | src/optimizer.cpp:60-81 | folding two literals gives a MOV of the printed result (C division for DIV) and records the example `(a op b) -> v` |
| Optimizer.FoldPrinted | src/optimizer.cpp:60-81 | folding the printed forms of two integers gives the printed sum, difference, product or C quotient |
| Optimizer.DivByZeroKept | src/optimizer.cpp:65-70 | a literal division by a literal reading as 0 is kept as it is, flagged, and not counted as folded |
| Optimizer.Identities | src/optimizer.cpp:84-101 | x+0, 0+x, x-0, x/1 become MOV x; x*0 and 0*x become MOV 0 (tried before x*1); x*1 and 1*x become MOV x, each only when the operation was not already folded |
| Optimizer.FoldIdempotent | src/optimizer.cpp:38-104 | pass 1 on an instruction it already rewrote changes nothing |
| Optimizer.ChainOnlyRecords | src/optimizer.cpp:49-58 | MOV-chain detection changes no instruction, and its flag is set exactly when a MOV copies from a 't' name that an earlier MOV of the input wrote |
| Optimizer.UsedNames | src/optimizer.cpp:107-114 | a name is used exactly when some instruction has it as a 't' operand, or as a first operand that is not a number outside a PRINT |
| Optimizer.DeadPassSubsequence | src/optimizer.cpp:116-140 | pass 2 returns an order-preserving subsequence of its input |
| Optimizer.KeptPositionsExact | src/optimizer.cpp:119-140 | a position survives pass 2 exactly when its instruction is kept |
| Optimizer.DeadPassShorter | src/optimizer.cpp:116-140 | pass 2 never lengthens the code, and `removedAny` is set exactly when it shortens it |
| Optimizer.DeadPassMembers | src/optimizer.cpp:119-140 | an instruction is in pass 2's output exactly when it is in its input and is kept; annotations, PRINT, STORE and READ are never dropped |
| Optimizer.FoldedNotesFacts | src/optimizer.cpp:149-154 | one annotation per example, in order, reading "; Constant folded: " followed by the example |
| Optimizer.SummaryLayout | src/optimizer.cpp:144-160 | the summary starts with the header and holds only annotations; every folded line sits in one of the three places after the header and dead-code line and reports that place's example, so at most three are listed |
| Optimizer.SummaryFoldedLines | src/optimizer.cpp:149-154 | a summary line is a folded example exactly when something was folded and it is one of the first min(3, examples) places after the header and dead-code line |
| Optimizer.SummaryNotes | src/optimizer.cpp:144-160 | "no changes" appears exactly when no flag is set, and the divide note exactly when a fatal divide was found |
| Optimizer.SummaryMentions | src/optimizer.cpp:148-155 | the dead-code note appears exactly when pass 2 removed something, and the MOV-chain note exactly when pass 1 saw a chain |
| Optimizer.SummaryFolded | src/optimizer.cpp:149-154 | when something was folded, each of the first three examples is listed; a folded-example line appears exactly when something was folded and an example was recorded |
| Optimizer.SummaryShape | src/optimizer.cpp:162-168 | the output is the summary block followed by pass 2's result |
| Optimizer.DivByZeroReported | src/optimizer.cpp:65-70 | a literal division by 0 in the input stays in pass 1's output unchanged and the summary reports the fatal divide |
| Optimizer.OutputIsRewritten | src/optimizer.cpp:24-169 | every output instruction is a summary annotation or pass 1's rewrite of some input instruction |
| Optimizer.SecondRunFoldsNothing | src/optimizer.cpp:34-105 | running the optimizer on its own output folds nothing more |
| Optimizer.DeadCodeNeedsTwoRuns | src/optimizer.cpp:107-140 | dead temporaries go one level per run: a temporary used only by a dropped instruction survives the first run and is dropped by the second |
| Optimizer.FirstRun | src/optimizer.cpp:107-140 | the first run on that example keeps the inner temporary |
| Optimizer.SecondRun | src/optimizer.cpp:107-140 | the second run drops it |
| Optimizer.FoldOne | src/optimizer.cpp:44-104 | the loop body of pass 1 computes the rewrite of one instruction |
| Optimizer.HasEarlierMov | src/optimizer.cpp:52-57 | the look-back loop finds an earlier MOV writing the name exactly when one exists |
| Optimizer.FoldLoop | src/optimizer.cpp:35-105 | pass 1's loop builds the folded code, the flags and the examples |
| Optimizer.CollectUsed | src/optimizer.cpp:108-114 | the loop collects exactly the used names |
| Optimizer.DropDead | src/optimizer.cpp:116-140 | the filter loop returns pass 2's result and whether it removed anything |
| Optimizer.Summarize | src/optimizer.cpp:144-160 | builds the summary block |
| Optimizer.Optimize | src/optimizer.cpp:24-169 | `optimize` returns the summary block followed by pass 2 of pass 1 |
| Optimizer.Prepend | src/optimizer.cpp:162-168 | the output vector is the summary followed by the filtered code |
| CodeGen.AllocReg | src/codegen.cpp:24-30 | the `alloc` lambda on values; `CodeGen.AllocStable`, `CodeGen.AllocGrows` and `CodeGen.AllocFresh` state first-come, stable registers |
| CodeGen.Emit | src/codegen.cpp:33-117 | the loop body on one instruction; the `CodeGen.Emit...` case lemmas state each branch and `CodeGen.EmitKeeps` the invariant it keeps |
| CodeGen.EmitMove | src/codegen.cpp:40-50 | the MOV branch; `CodeGen.EmitMov` states its line |
| CodeGen.EmitBinary | src/codegen.cpp:83-108 | the arithmetic branch; `CodeGen.EmitArith` states its lines and registers |
| CodeGen.Run | src/codegen.cpp:32-118 | the loop over the first n instructions; `CodeGen.RunKeeps` states the allocator invariant and stable registers across it |
| CodeGen.Assembly | src/codegen.cpp:19-122 | the whole generator; `CodeGen.AssemblyShape` states the placeholder rule, and `CodeGen.GenerateAssembly` is proved equal to it |
| CodeGen.RegNameInjective | src/codegen.cpp:27 | different counters give different register names |
| CodeGen.AllocStable | src/codegen.cpp:24-30 | allocating a name already bound returns its register and changes nothing |
| CodeGen.AllocGrows | src/codegen.cpp:24-30 | allocation keeps every binding and never decreases the counter |
| CodeGen.AllocFresh | src/codegen.cpp:24-30 | a new name gets R followed by the counter, a register no other name holds, and the counter goes up by one; no two names share a register |
| CodeGen.InitialValid | src/codegen.cpp:21-22 | the empty map with counter 1 satisfies the allocator invariant |
| CodeGen.EmitAnnotation | src/codegen.cpp:33-36 | an annotation is emitted verbatim and allocates nothing (the `; ERROR` branch at line 111 is reached only through this rule) |
| CodeGen.EmitMov | src/codegen.cpp:40-50 | MOV of an immediate is a LOAD into the destination's register; otherwise a MOV between the source's and destination's registers |
| CodeGen.EmitLoad | src/codegen.cpp:52-56 | LOAD emits its operand as written into the destination's register, allocating only the destination |
| CodeGen.EmitStorePrint | src/codegen.cpp:58-72 | STORE writes the source's register to the variable name; PRINT prints a literal as it is and otherwise the operand's register |
| CodeGen.EmitRead | src/codegen.cpp:74-80 | READ gives a read into the variable's register and a store of that register to the variable |
| CodeGen.EmitArith | src/codegen.cpp:83-108 | arithmetic gives one LOAD per immediate operand (the first line for arg1, the line before last for arg2) into the register its `<const#lit>` key is bound to, then `OP ra, rb, rd` naming the registers bound to the two operands' keys and to the destination |
| CodeGen.EmitUnhandled | src/codegen.cpp:116-117 | any other instruction becomes one "UNHANDLED IR" comment and allocates nothing |
| CodeGen.EmitKeeps | src/codegen.cpp:32-117 | each instruction gives one to three lines, keeps the allocator invariant and every earlier binding |
| CodeGen.NextRegUnused | src/codegen.cpp:24-30 | under the allocator invariant, the register numbered by the counter is held by no name |
| CodeGen.NewBindingValid | src/codegen.cpp:24-30 | binding a new name to that register and bumping the counter keeps the invariant |
| CodeGen.AllocKeeps | src/codegen.cpp:24-30 | one allocation keeps the invariant and every earlier binding |
| CodeGen.MovKeeps | src/codegen.cpp:40-50 | the MOV branch gives one line, keeps the invariant and every earlier binding |
| CodeGen.ArithKeeps | src/codegen.cpp:83-108 | the arithmetic branch gives one to three lines, keeps the invariant and every earlier binding |
| CodeGen.OperandKeeps | src/codegen.cpp:88-102 | loading an operand keeps the allocator invariant and every earlier binding |
| CodeGen.RunKeeps | src/codegen.cpp:32-118 | over the loop, the invariant holds, a name keeps its first register and each instruction adds at least one line |
| CodeGen.AssemblyShape | src/codegen.cpp:19-122 | the output is never empty: the placeholder for an empty input, otherwise the instructions' lines in order, at least one each |
| CodeGen.PlaceholderAmbiguous | src/codegen.cpp:120 | an input holding just an annotation with the placeholder's text gives the same output as an empty input |
| CodeGen.ExampleLoads | src/codegen.cpp:40-56 | the first lines for `x = 2 + y;` |
| CodeGen.ExampleAddLine | src/codegen.cpp:83-108 | the ADD line for `x = 2 + y;` |
| CodeGen.ExampleAdd | src/codegen.cpp:83-108 | the registers of the ADD for `x = 2 + y;` |
| CodeGen.ExampleStoreLine | src/codegen.cpp:58-62 | the STORE line for `x = 2 + y;` uses the register the sum was put in |
| CodeGen.AssemblyExample | src/codegen.cpp:19-122 | for `x = 2 + y;` registers are handed out in order of first use and the ADD uses them |
| CodeGen.Allocator.constructor | src/codegen.cpp:21-22 | the map starts empty and the counter at 1 |
| CodeGen.Allocator.Alloc | src/codegen.cpp:24-30 | the `alloc` lambda updates the map and counter as the allocation function says |
| CodeGen.LoadOperand | src/codegen.cpp:88-102 | getting one operand into a register emits and allocates what the model says: a LOAD into the constant key's register for an immediate, nothing for a name |
| CodeGen.EmitArithmetic | src/codegen.cpp:83-108 | the arithmetic branch emits what the model says and updates the allocator |
| CodeGen.EmitInstruction | src/codegen.cpp:32-117 | the loop body emits what the model says for one instruction |
| CodeGen.GenerateAssembly | src/codegen.cpp:19-122 | `generateAssembly` returns the modelled assembly |
| Lex.LineCommentEnd | src/lexer.cpp:22-26 | a line comment ends at the next newline or the end of text, with no newline before that |
| Lex.BlockComment | src/lexer.cpp:29-44 | a closed block comment ends right after a `*/`; an unclosed one runs to the last character |
| Lex.Skip | src/lexer.cpp:11-49 | skipping never moves back and never lowers the line; on success it stops at the end or at a character that is neither blank nor the start of a comment; it fails only near the end of text |
| Lex.DigitsEnd | src/lexer.cpp:51-58 | a number is the maximal run of digits |
| Lex.WordEnd | src/lexer.cpp:60-68 | an identifier is the maximal run of letters, digits and '_' |
| Lex.StringEnd | src/lexer.cpp:70-84 | a string body runs to the first '"' or '\0' |
| Lex.NextProgress | src/lexer.cpp:86-119 | `getNextToken` keeps the position within the text and never moves it back; it advances unless it returns END |
| Lex.SkipFailAdvances | src/lexer.cpp:41-43 | an unterminated comment error consumes at least the opening `/*` and reports the line reached |
| Lex.EndIsStable | src/lexer.cpp:89-90 | after END the scanner stays put and returns END again |
| Lex.EndWhenExhausted | src/lexer.cpp:86-90 | when only blanks and comments remain the token is END on the current line |
| Lex.BlockCommentConsistent | src/lexer.cpp:29-40 | a block comment counts every newline it consumes |
| Lex.StringEndConsistent | src/lexer.cpp:74-78 | a string body counts every newline it consumes |
| Lex.SkipConsistent | src/lexer.cpp:11-49 | skipping keeps line equal to one plus the newlines before the position |
| Lex.NextConsistent | src/lexer.cpp:86-119 | every token and every error keeps line equal to one plus the newlines before the position |
| Lex.Scan | src/lexer.cpp:89-118 | `getNextToken` after the skip: END, a number, a word, a string, or a single-character token; the token lemmas below state each case |
| Lex.Next | src/lexer.cpp:86-119 | `getNextToken` on values; `Lex.NextProgress` and `Lex.NextConsistent` state its progress and line count, and `Lex.Lexer.GetNextToken` is proved equal to it |
| Lex.Lexer.SkipComment | src/lexer.cpp:21-45 | the comment cases of the skipping loop: progress and the same outcome as `Skip`, or the unclosed-comment error |
| Lex.NumberToken | src/lexer.cpp:92-94 | a NUMBER token is the maximal non-empty run of digits where scanning resumed, on the current line |
| Lex.WordToken | src/lexer.cpp:96-101 | a word is the maximal run of word characters; exactly "cout" and "cin" are keywords, every other word an IDENTIFIER |
| Lex.StringToken | src/lexer.cpp:103 | a STRING token holds the text between the quotes unprocessed; with no closing quote it is an error reporting the line reached |
| Lex.SingleCharTokens | src/lexer.cpp:105-118 | exactly `+ - * / = ( ) ;` are one-character tokens carrying the character; any other character is consumed and reported as invalid |
| Lex.NextOperatorText | src/lexer.cpp:108-111 | an operator token's text is its own character |
| Lex.Comments | src/lexer.cpp:21-45 | a line comment is skipped to its end of line and an unclosed block comment fails |
| Lex.UnterminatedCommentLine | src/lexer.cpp:41-43 | for `/*` then a newline and `x`, the error reports line 2, the line reached, not the opening line 1 |
| Lex.Lexer.constructor | src/lexer.cpp:5 | a scanner starts at position 0 on line 1 |
| Lex.Lexer.CurrentChar | src/lexer.cpp:7-9 | the character at the position, or '\0' past the end |
| Lex.Lexer.SkipLineComment | src/lexer.cpp:22-26 | moves to the end of the line comment |
| Lex.Lexer.SkipBlockComment | src/lexer.cpp:29-44 | the inner loop moves and counts lines as the block comment scan says |
| Lex.Lexer.SkipWhitespaceAndComments | src/lexer.cpp:11-49 | the loop does what `Skip` says, error included |
| Lex.Lexer.Number | src/lexer.cpp:51-58 | reads the digits up to the first non-digit |
| Lex.Lexer.Identifier | src/lexer.cpp:60-68 | reads the word up to the first non-word character |
| Lex.Lexer.StringLiteral | src/lexer.cpp:70-84 | reads the string body and its closing quote, or fails at the end |
| Lex.Lexer.GetNextToken | src/lexer.cpp:86-119 | returns the token, or the error, and leaves the state `Next` says |
| Parse.Advance | src/parser.cpp:11 | reading the next token never moves back; a scanner error keeps the current token |
| Parse.PEat | src/parser.cpp:9-15 | `eat` succeeds only on the expected kind, and otherwise fails with "Unexpected token" naming the token and its line and consumes nothing |
| Parse.PFactor | src/parser.cpp:18-48 | `factor` yields a well-formed expression tree and consumes at least one token when it succeeds |
| Parse.TermLoop | src/parser.cpp:54-59 | the `term` loop keeps the tree well formed and stops at a token that is not `*` or `/` |
| Parse.PTerm | src/parser.cpp:51-62 | `term` yields a well-formed expression and leaves no `*` or `/` as current token |
| Parse.ExprLoop | src/parser.cpp:68-73 | the `expr` loop keeps the tree well formed and stops at a token that is not `+` or `-` |
| Parse.PExpr | src/parser.cpp:65-76 | `expr` yields a well-formed expression and leaves none of `+ - * /` as current token |
| Parse.PAssignment | src/parser.cpp:79-97 | `assignment` yields the assign node named by the leading identifier, on its line, whose value is the expression parsed after `=`; it yields no node, with the state unchanged, exactly when the statement does not start with an identifier |
| Parse.PCin | src/parser.cpp:101-114 | a cin statement yields the cin node, on the line of `cin`, named by the identifier read inside the parentheses |
| Parse.PCout | src/parser.cpp:116-124 | a cout statement yields the cout node, on the line of `cout`, whose child is the expression parsed after `(` |
| Parse.PStatement | src/parser.cpp:100-132 | `statement` yields a statement node on the line of its first token and consumes input |
| Parse.ParseLoop | src/parser.cpp:137-148 | the loop of `parse`; `Parse.ParseLoopStatements`, `Parse.ErrorsDoNotStopParsing` and `Parse.MessagesBeforeAbortKept` state what it collects and that messages written before a scanner error are kept |
| Parse.AssignmentNeedsEquals | src/parser.cpp:90-93 | an identifier not followed by `=` fails with "Expected '=' after identifier" at the identifier's line |
| Parse.MessagesBeforeAbortKept | src/parser.cpp:137-148 | for `1; @`, the caught "Unknown statement" message stays written when the scanner error met during recovery escapes |
| Parse.Recover | src/parser.cpp:142-145 | recovery skips to just past the next ';' or stops at END, and a scanner error there escapes |
| Parse.ParseProgram | src/parser.cpp:135-149 | every node `parse` returns is an assign, cin or cout statement |
| Parse.TermLoopLeftAssoc | src/parser.cpp:54-59 | `*` and `/` associate to the left |
| Parse.ExprLoopLeftAssoc | src/parser.cpp:68-73 | `+` and `-` associate to the left |
| Parse.TermLoopSpine | src/parser.cpp:54-59 | the `term` loop builds a left-grouped chain whose every right operand is exactly the factor parsed after its `*` or `/` |
| Parse.ExprLoopSpine | src/parser.cpp:68-73 | the `expr` loop builds a left-grouped chain whose every right operand is exactly the whole term parsed after its `+` or `-` |
| Parse.TermIsProductOfFactors | src/parser.cpp:51-62 | a term is its first factor followed by `*` and `/` operations, each taking the one factor after its operator |
| Parse.ExprIsSumOfTerms | src/parser.cpp:65-76 | `*` and `/` bind tighter than `+` and `-`: each `+`/`-` takes as right operand the whole term after it |
| Parse.SumOfProduct | src/parser.cpp:51-76 | `a + b * c` parses as `a + (b * c)` |
| Parse.ProductThenSum | src/parser.cpp:51-76 | `a * b + c` parses as `(a * b) + c` |
| Parse.SumOfProductText | src/parser.cpp:51-76 | scanned and parsed, the text `a+b*c;` gives `a + (b * c)` and stops at the `;` |
| Parse.FactorLeaves | src/parser.cpp:21-32 | number, string and identifier tokens become leaves with the token's text and line |
| Parse.FactorMinusAndParens | src/parser.cpp:33-45 | unary minus becomes `0 - operand` on the line of the sign; parentheses leave no node of their own |
| Parse.FactorRejects | src/parser.cpp:47 | any other token is an "Invalid factor" error naming it and its line, consuming nothing |
| Parse.StatementShape | src/parser.cpp:100-132 | the statement kind follows the first token (cin, cout, identifier) and the node has that token's line |
| Parse.StatementRejects | src/parser.cpp:126-131 | a statement starting with anything else is an "Unknown statement" error on its line, consuming nothing |
| Parse.ParseLoopStatements | src/parser.cpp:135-149 | the parse loop only appends statements and errors; when a scanner error escapes, the messages written so far, plus the failing statement's, are kept |
| Parse.ErrorsDoNotStopParsing | src/parser.cpp:138-146 | an error in one statement is recorded and parsing goes on after the next ';' |
| Parse.RecoverStops | src/parser.cpp:143-145 | recovery stops at END or just after a ';' |
| Parse.Parser.constructor | src/parser.cpp:6 | the parser holds the scanner and its first token |
| Parse.Parser.NextToken | src/parser.cpp:11 | reads the next token as `Advance` says |
| Parse.Parser.Eat | src/parser.cpp:9-15 | `eat` as `PEat` says |
| Parse.Parser.Factor | src/parser.cpp:18-48 | `factor` as `PFactor` says |
| Parse.Parser.Term | src/parser.cpp:51-62 | `term`, loop included, as `PTerm` says |
| Parse.Parser.Expr | src/parser.cpp:65-76 | `expr`, loop included, as `PExpr` says |
| Parse.Parser.Assignment | src/parser.cpp:79-97 | `assignment` as `PAssignment` says |
| Parse.Parser.Cin | src/parser.cpp:101-114 | the cin branch of `statement` |
| Parse.Parser.Cout | src/parser.cpp:116-124 | the cout branch of `statement` |
| Parse.Parser.Statement | src/parser.cpp:100-132 | `statement` as `PStatement` says |
| Parse.Parser.SkipToSemicolon | src/parser.cpp:143-145 | the recovery loops as `Recover` says |
| Parse.Parser.Parse | src/parser.cpp:135-149 | `parse` as the parse loop says |
| Parse.ParseText | src/parser.cpp:6 | constructing the parser over a fresh scanner and parsing gives `ParseProgram` |
| Semantic.CheckNode | src/semantic.cpp:14-45 | the declared set only grows |
| Semantic.CheckAll | src/semantic.cpp:8-12 | the declared set only grows over a statement list |
| Semantic.ExprCheck | src/semantic.cpp:24-36 | an expression declares nothing and fails exactly when it reads an undeclared variable, naming one such variable and its line |
| Semantic.AssignCheck | src/semantic.cpp:18-22 | an assignment declares its target before checking its value, so its value may read the target |
| Semantic.SelfAssignmentAccepted | src/semantic.cpp:18-22 | `x = x;` is accepted whatever was declared |
| Semantic.CinCheck | src/semantic.cpp:38-43 | cin declares its non-empty name and reports nothing |
| Semantic.CoutCheck | src/semantic.cpp:38-43 | cout declares nothing and fails exactly when its expression reads an undeclared variable |
| Semantic.LiteralsAccepted | src/semantic.cpp:14-45 | number and string literals are accepted and change nothing |
| Semantic.BinopLeftFirst | src/semantic.cpp:32-36 | a binop checks its left operand first, and the right one only when the left passed |
| Semantic.CheckAllAppend | src/semantic.cpp:8-12 | a program checked in two parts: the second from what the first declared, only if the first passed |
| Semantic.FirstErrorStops | src/semantic.cpp:8-12 | the first failing statement's error is the result and nothing after it is checked |
| Semantic.UseBeforeAssignmentRejected | src/semantic.cpp:25-29 | `cout(x); x = 1;` is rejected with the error for x on line 1 |
| Semantic.SemanticAnalyzer.constructor | include/semantic.h:9-11 | the declared set starts empty |
| Semantic.SemanticAnalyzer.AnalyzeNode | src/semantic.cpp:14-45 | `analyzeNode` updates the declared set and reports as `CheckNode` says |
| Semantic.SemanticAnalyzer.Analyze | src/semantic.cpp:8-12 | `analyze` as `CheckAll` says |
| Interpret.LeadingSpaces | src/interpreter.cpp:11 | the maximal run of leading blanks, which `std::stol` skips |
| Interpret.TryParseInt | src/interpreter.cpp:8-18 | a text is an integer exactly when, after leading blanks, it is an optional sign and at least one digit with nothing after, and its value is what `strtol` reads |
| Interpret.TryParseIntToString | src/interpreter.cpp:8-18 | a printed integer reads back as itself |
| Interpret.TryParseIntDigits | src/interpreter.cpp:8-18 | a NUMBER token's text reads as its decimal value |
| Interpret.TryParseIntRejects | src/interpreter.cpp:8-18 | text starting with anything but a blank, a sign or a digit is not an integer |
| Interpret.BinopValue | src/interpreter.cpp:38-64 | `+` never fails, an unknown operator always does, and so does `/` by a right operand reading 0 |
| Interpret.Eval | src/interpreter.cpp:20-98 | `eval` on values; `Interpret.LiteralValue`, `Interpret.VariableValue`, `Interpret.ExprBinop`, `Interpret.AssignStores`, `Interpret.CinReads` and `Interpret.CoutPrints` state each node kind |
| Interpret.ExecuteAll | src/interpreter.cpp:100-109 | at most one error line per statement |
| Interpret.LiteralValue | src/interpreter.cpp:24-25 | number and string literals evaluate to their text |
| Interpret.VariableValue | src/interpreter.cpp:27-31 | a set variable gives its value; an unset one is an error that changes nothing |
| Interpret.ExprKeepsState | src/interpreter.cpp:20-65 | evaluating an expression changes no variable, input or output, even when it fails |
| Interpret.ExprBinop | src/interpreter.cpp:33-65 | a binop fails with its left operand's error, else its right operand's, else applies the operator to their values |
| Interpret.PlusAddsOrJoins | src/interpreter.cpp:42-49 | `+` adds two integers (the sum reads back as a number) and otherwise joins the texts |
| Interpret.ArithmeticNeedsNumbers | src/interpreter.cpp:50-57 | `-`, `*`, `/` fail unless both sides are integers; the difference and product read back as such |
| Interpret.DivisionTruncates | src/interpreter.cpp:58-62 | division fails exactly on a zero divisor; otherwise its result reads back as C's truncated quotient |
| Interpret.AssignStores | src/interpreter.cpp:67-77 | an assignment stores its value and returns it; on an error nothing changes |
| Interpret.CinReads | src/interpreter.cpp:79-84 | cin stores and consumes the next input line, or stores "" when input is exhausted |
| Interpret.CoutPrints | src/interpreter.cpp:86-95 | cout appends exactly its value to the output, and prints nothing on an error |
| Interpret.EvalOnlyAppends | src/interpreter.cpp:20-98 | evaluation only appends to the output and consumes input from the front |
| Interpret.ExecuteAllAppend | src/interpreter.cpp:100-109 | a program run in two parts: the second from the state the first left, errors from both |
| Interpret.ErrorsDoNotStopExecution | src/interpreter.cpp:100-109 | a failing statement's message is recorded and the statements after it still run, from the state it left |
| Interpret.FailedStatementKeepsState | src/interpreter.cpp:67-95 | a failing assignment or cout leaves the state as it was, so earlier updates persist |
| Interpret.PlusAddsExample | src/interpreter.cpp:42-49 | `2 + 3` gives "5" |
| Interpret.PlusJoinsExample | src/interpreter.cpp:42-49 | `"1" + "a"` gives "1a" |
| Interpret.ExampleAssignStores | src/interpreter.cpp:67-77 | `x = 2 + 3;` stores "5" in x |
| Interpret.ExampleProgram | src/interpreter.cpp:100-109 | `x = 2 + 3; cout(x);` prints exactly the line 5 and reports no error |
| Interpret.Interpreter.constructor | include/interpreter.h:9-11 | no variables, nothing printed yet |
| Interpret.Interpreter.Evaluate | src/interpreter.cpp:20-98 | `eval` updates variables, input and output as `Eval` says |
| Interpret.Interpreter.Execute | src/interpreter.cpp:100-109 | `execute` runs as `ExecuteAll` says and appends its error lines |
| Pipeline.TwoPlusThreeLowered | src/ir.cpp:24-80 | `x = 2 + 3;` lowers to `MOV 2 -> t1`, `MOV 3 -> t2`, `ADD t1 t2 -> t3`, `STORE t3 -> x` |
| Pipeline.TwoPlusThreeNotFolded | src/optimizer.cpp:60-104 | the optimizer folds nothing in that code, because the ADD's operands are temporaries, not literals |

## Left out

- Input and output of the driver (`src/main.cpp`): reading files, walking the `tests/` directory, printing banners and stage results, and running the stages. Only the IR printer (`Instr.Render`) is modelled.
- Standard input, output and error are lists of lines. `std::getline` on a real stream and `std::endl` flushing are not modelled.
- The heap: `ASTNode*` values are a datatype, so sharing, leaks and null-pointer crashes are not modelled. A null child is `None`.
- `Parser` takes its `Lexer` by value. The model's parser holds the one scanner object it is given; nothing else uses that scanner.
- The declaration of `IRGenerator::genNode` at `include/ir.h:20` has no definition in the source files and is not part of this model.
- Characters are ASCII under the "C" locale. There is no byte or encoding model.
- Optimizer.Arith: folds with unbounded integers. The source uses `long`, so a fold that overflows, including `LONG_MIN / -1`, is undefined behaviour there and not modelled.
- Decimal.ToLong: reads the digits as an unbounded number. It does not model `strtol` saturating at the `long` range or skipping leading blanks. No IR operand starts with a blank, and `toLong` is only applied to text that `isNumber` accepted, which holds no blank.
- Interpret.TryParseInt: does not model the `std::out_of_range` case of `std::stol` or the narrowing `static_cast<int>`, because integers are unbounded here.
- Interpret.BinopValue: does not model `int` overflow of `li + ri`, `li - ri` and `li * ri`. It does not model `INT_MIN / -1`.
- Lex.StringToken: C++ leaves open whether the `line` argument in `Token(STRING, stringLiteral(), line)` is read before or after the string body is scanned. The model uses the line of the opening quote.
- Exceptions are modelled as values. The message text of each `std::runtime_error` is kept, with the state reached when it was thrown.
- In the code generator, the `; ERROR` branch (`src/codegen.cpp:111-114`) can never be reached, because any op starting with ';' is already emitted by the annotation rule at lines 33-36. `CodeGen.EmitAnnotation` covers both.

Behaviour of the code worth knowing, each backed by a lemma:

- `x = 2 + 3;` is not folded end to end. The IR generator first moves each literal into a temporary, so the optimizer sees `ADD t1 t2` and folds nothing (`Pipeline.TwoPlusThreeNotFolded`).
- An input made only of annotations gives those annotations, not the placeholder line. The placeholder appears only for an empty input (`CodeGen.AssemblyShape`). An annotation that spells the placeholder gives the same output as an empty input (`CodeGen.PlaceholderAmbiguous`).
- A second optimizer run can remove more code: dead temporaries go one level per run (`Optimizer.DeadCodeNeedsTwoRuns`). A second run folds nothing more (`Optimizer.SecondRunFoldsNothing`).
- The "Unterminated comment starting at line" message reports the line the scan reached, not the line where the comment opened (`Lex.UnterminatedCommentLine`).
