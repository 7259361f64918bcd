# A verified model of the Radium kernel's Helios, PNG, AVFS and rChat code

This project models four parts of the kernel and proves what they are for. Code that the kernel writes as
loops over mutable state is modelled as classes and methods with loops; each of them is proved against a
specification function, and lemmas state what that function means. Expression-shaped code is modelled as
datatypes and functions.

**Helios compiler and VM** (`Helios*.dfy`). `HeliosSemantics` gives the source language a big-step meaning:
function-wide variables, constants before locals on read, strict `&&` and `||`, `for` bounds evaluated again
on every round, wrapping arithmetic, division by zero giving zero. `HeliosEmitter.Emitter` is the single-pass
emitter with its back-patched jumps, loops, matches and calls; it is proved to produce `ProgramImage`, the
code described by symbolic cells in `HeliosCode`. `HeliosMachine.Vm` is the stack machine, proved against the
step function of `HeliosVm`. `CompilerCorrect` says that whenever a program finishes, its compiled form prints
the same text; `StopsOnlyWithSource` and `DivergenceKept` are the other direction: the machine stops only on
programs that finish or get stuck, and runs for ever on those that go on for ever. `ProgramIsSafe` says that
every state the machine reaches, in terminating runs or not, is at the start of an emitted instruction with a
stack height between known bounds, and `ProgramKeepsSlots` that a local keeps its value until its own frame
stores to it or returns. `HeliosRxe` is the executable container with its loader and `strip`.

What compiler and machine share is pinned from outside: `HeliosValues` states the operators as laws of
arithmetic modulo 2^32, of order and of bits; `HeliosLaws` the statements in terms of one another;
`HeliosStack` the instructions on a stack as a sequence; `HeliosSample` one program with its file byte for
byte and its output.

`HeliosLexer`, `HeliosParser` and `HeliosFormat` are the lexer, the expression ladder and the printer of
`helios fmt`; `ParsePrinted` says exactly which expressions survive printing and parsing. `HeliosSparse`
writes expressions with few parentheses over operator groups written out on their own, and `SparseParses`
reads all of them back, which is precedence and associativity. `HeliosNumerals` gives numbers by the value of
their digits, and what blanks and comments leave unchanged.

**PNG decoder** (`Png*.dfy`). The bit reader over scattered spans, canonical Huffman construction and
decoding, inflate with its 32 KiB ring, in-place unfiltering and the streaming downscale. `PngDeflate` is a
reference decoder for RFC 1951 with unbounded history; `InflateDeflate` is proved equal to it. `PngEncode` is
an encoder used only in statements: everything it writes, dynamic blocks included, is decoded back.
`PngTables` proves the tables to be those of the standard: every length at every distance has its match.
`PngDecode.Draw` ties the pieces together, and `PngChunks` goes from the bytes of a file to the screen: every
valid file whose image data is an image, filtered and deflated in any way, shows that image. `PngColours` says
what the chosen palette entries look like next to the pixels, and `PngSample` follows one known file from its
bytes to the pixel on the screen.

**AVFS** (`Avfs*.dfy`). The RAM file system as a class over arrays. Its invariant says that the files own
pairwise disjoint runs of blocks and that the bitmap marks exactly the owned blocks, that sibling names are
unique, and that every directory hangs under directories, no deeper than a path can reach. Every operation keeps
it, with two exact exceptions: removing the root, and creating a file whose block count overflows. Contents are
byte sequences; each operation changes only the file it names. Path resolution and the recursive removal of
directories are part of it.

**rChat** (`Rchat*.dfy`). The delivery protocol between server, Rust profile and chat screen as a state
machine over polls, storing and acknowledgements on a link that may lose any request or reply; canonical
base64url; JSON escaping against JSON scanning. `RchatGrammar` defines the spellings of a JSON string from the
writer's side, and the reader accepts exactly those.

Main results that are not plain confirmations:

- `helios fmt` does not always print what it read. `ParsePrinted` and `FormattedTextParses` give the exact
  condition: only `i32::MIN` literals, a minus directly before a digit, and operators applied in an order the
  text does not show are lost. `(x as int)[0]` and `-(5)` are two such texts (`TextsThatChange`).
- Growing a file adds zeros if and only if it gets more blocks (`GrowthIsZeroFilled`). Inside its last block it
  shows stale bytes: saving 1, 7, truncating to one byte and then to two reads 1, 7 (`StaleByteShown`).
- The block count of a file wraps for sizes above 0xFFFFFE00, and creating such a file is the only way in which
  `CreateFile` loses the invariant (`CountIsRight`, `CountOverflows`).
- Recursive removal of a directory removes the whole subtree if and only if no file in it is right below a
  directory of depth 64 (`WholeSubtreeGoes`); such a file stays and loses its parent (`LadderFileStays`).
- A path deeper than 32 components does not resolve to its entry (`FullPathResolves`, `FullPathMisses`).
- `..` is not read any more behind 64 components: `p/x/..` is p if and only if p has not 63 components, and in a
  directory 64 deep `cd ..` stays where it is (`UpAndStay`, `ChangeUp`).
- A pixel of a grey that is in the palette is not always shown in it: 6 is shown black (`GreyMissed`). Every colour
  is right to within one step of the cube (`SampleShows`).
- A client can get stuck for ever in two ways: a stranger writes while the contact list is full, or a message
  comes that does not verify. On a link without losses a refresh gets past exactly the messages before the first
  such one, and a client is stuck if and only if that message is the next one (`Refresh`, `StuckOnStranger`,
  `StuckOnInvalid`).
- A constant pool survives packing exactly if it has fewer than 65536 constants, each shorter than 65536 bytes
  (`PoolRoundTrip`); a constant of 65536 bytes comes back empty (`LongConstLost`).

## Model

| member | source | states |
|---|---|---|
| `HeliosCorrect.CompilerCorrect` | rust_lib/src/helios.rs:2570-2924 | For every well-formed program whose source evaluation finishes, the machine running the emitted bytes from the entry address halts with the same printed text, for every step budget above a number the lemma returns; nested loops, break and continue, match, early return and recursion included |
| `HeliosDivergence.StopsOnlyWithSource` | rust_lib/src/helios.rs:2570-2924 | The converse of compiler correctness: if the machine stops within a number of instructions, the source evaluation with one more unit of fuel than that has its final answer, the text the machine printed or none with any amount of fuel |
| `HeliosDivergence.DivergenceKept` | rust_lib/src/helios.rs:2570-2924 | If the source evaluation is cut off by every fuel bound, the machine running the emitted code stops under no step limit |
| `HeliosDivergence.StarvesOrFinal` | rust_lib/src/helios.rs:2700-2924 | A source evaluation that finishes is not cut off, and more fuel changes nothing for one that is not cut off |
| `HeliosDivergence.MarchStmt` | rust_lib/src/helios.rs:2700-2907 | A statement whose evaluation the fuel bound cuts off keeps the machine busy for at least as many instructions |
| `HeliosDeterminism.OutputUnique` | rust_lib/src/helios.rs:2700-2924 | The text a program prints does not depend on the depth and fuel bounds of the source evaluation, whenever it finishes |
| `HeliosSimulation.SimExpr` | rust_lib/src/helios.rs:2570-2698 | Running an expression's code pushes exactly its value, leaves everything below untouched and prints what its evaluation prints |
| `HeliosSimulation.SimCall` | rust_lib/src/helios.rs:2689-2698 | A user call leaves exactly its return value on the caller's stack, with the caller's frame as it was |
| `HeliosSimulation.SimFn` | rust_lib/src/helios.rs:2909-2917 | From a function's entry with its arguments on the stack, its code reaches a `Ret` with the value and output of the source call |
| `HeliosSimulation.SimStmt` | rust_lib/src/helios.rs:2700-2907 | Running a statement's code ends after it, at the break target, at the continue target or at a `Ret`, as its evaluation says, with the variables and output of the evaluation |
| `HeliosSimulation.SimWhile` | rust_lib/src/helios.rs:2797-2808 | The code of `while` runs as many rounds as the source loop, with break and continue |
| `HeliosSimulation.SimForLoop` | rust_lib/src/helios.rs:2819-2844 | The code of `for` follows the source loop, which evaluates end and step again on every round |
| `HeliosSimulation.SimMatch` | rust_lib/src/helios.rs:2845-2891 | The code of `match` runs the first arm that fits and drops the scrutinee on every way out |
| `HeliosVm.RunOfSteps` | rust_lib/src/helios.rs:3205-3220 | A run that takes n steps to a stopping instruction finishes there under every larger budget |
| `HeliosVm.CutShort` | rust_lib/src/helios.rs:3205-3220 | A run under a smaller step limit ends the same way or is cut off with a prefix of the output |
| `HeliosEmitter.Emitter.EmitExpr` | rust_lib/src/helios.rs:2570-2698 | Appends exactly the code cells of the expression and records the names, constants and call sites it needs |
| `HeliosEmitter.Emitter.EmitStmt` | rust_lib/src/helios.rs:2700-2907 | Appends exactly the code cells of the statement, with its forward jumps patched and its open break and continue jumps left to the enclosing loop |
| `HeliosEmitter.Emitter.EmitFor` | rust_lib/src/helios.rs:2819-2844 | The same for `for`, with test, body, increment and back jump |
| `HeliosEmitter.Emitter.EmitMatch` | rust_lib/src/helios.rs:2845-2891 | The same for `match`, with the chain of tests and the jumps to the common end |
| `HeliosEmitter.Emitter.EmitIf` | rust_lib/src/helios.rs:2787-2796 | The same for `if` with both branches |
| `HeliosEmitter.Emitter.Patch` | rust_lib/src/helios.rs:2338-2340 | Filling in an address turns exactly that open reference into a resolved one |
| `HeliosEmitter.Emitter.LoopPop` | rust_lib/src/helios.rs:2562-2568 | Leaving a loop resolves every break of this loop to its end and every continue to its next round, and no other reference |
| `HeliosEmitter.Emitter.EmitLoopJump` | rust_lib/src/helios.rs:2892-2906 | A break or continue jump is left open for the innermost loop |
| `HeliosEmitter.Emitter.Local` | rust_lib/src/helios.rs:2349-2354 | A name gets one slot, the one it has or the next |
| `HeliosEmitter.Emitter.AddConst` | rust_lib/src/helios.rs:2342-2348 | A string gets one place in the pool, terminated by a NUL |
| `HeliosEmitter.Emitter.EmitFn` | rust_lib/src/helios.rs:2909-2917 | A function's code starts at its recorded address and consists of its body and the closing return of zero |
| `HeliosEmitter.Emitter.PatchCalls` | rust_lib/src/helios.rs:2355-2361 | After patching, every call site holds the address of the function it names, and no other byte has changed |
| `HeliosEmitter.Emitter.EmitProgram` | rust_lib/src/helios.rs:2918-2924 | The bytes, pool and entry produced are those of the program's image |
| `HeliosMachine.Vm.Push` | rust_lib/src/helios.rs:3126-3128 | Pushing on a full stack changes nothing; otherwise it stores the value above the others |
| `HeliosMachine.Vm.Pop` | rust_lib/src/helios.rs:3129-3131 | Popping an empty stack gives zero |
| `HeliosMachine.Vm.Call` | rust_lib/src/helios.rs:3258-3270 | A call saves return address and frame and counts its arguments into the new frame, or keeps no frame past the depth limit, or panics if it counts more arguments than there are |
| `HeliosMachine.Vm.Ret` | rust_lib/src/helios.rs:3271-3281 | A return restores the saved frame and leaves the value in place of the callee's frame; at the bottom it stops |
| `HeliosMachine.Vm.Store` | rust_lib/src/helios.rs:3287-3295 | Storing a local may raise the stack pointer over its slot |
| `HeliosMachine.Vm.Run` | rust_lib/src/helios.rs:3205-3922 | The loop of the machine computes the run of the step function: halted, out of steps, or panicked, with the value left on top |
| `HeliosValues.ArithmeticWraps` | rust_lib/src/helios.rs:3227-3232 | Sums, differences, products and negations are right modulo 2^32 |
| `HeliosValues.SubUndoesAdd` | rust_lib/src/helios.rs:3227-3232 | Subtraction and addition undo each other, and negation is the difference from zero |
| `HeliosValues.MulIsRepeatedAdd` | rust_lib/src/helios.rs:3229 | Multiplication is repeated addition |
| `HeliosValues.DivisionTruncates` | rust_lib/src/helios.rs:3230-3231 | Dividend = divisor times quotient plus a remainder smaller than the divisor and of the sign of the dividend; by zero both are zero; only i32::MIN by -1 has no value |
| `HeliosValues.ComparisonsOrder` | rust_lib/src/helios.rs:3243-3248 | Exactly one of `<`, `==` and `>` holds, `<` is the order of the integers, and the other three are complements |
| `HeliosValues.LogicIsBoolean` | rust_lib/src/helios.rs:3249-3251 | And, or, not and the cast to bool go by truth values, with results 0 and 1 |
| `HeliosValues.BitwiseBits` | rust_lib/src/helios.rs:3235-3238 | The bitwise operators act on every two's complement bit alone |
| `HeliosValues.ShiftBits` | rust_lib/src/helios.rs:3239-3240 | Shifts move the bits by the count modulo 32 and fill up with zeros, to the right as well |
| `HeliosValues.BitsDetermineValue` | rust_lib/src/helios.rs:3235-3240 | A value is known from its 32 bits |
| `HeliosStack.TwoEffects` | rust_lib/src/helios.rs:3219-3251 | An instruction with two operands takes them from the top of the stack, the first operand lying below the second one |
| `HeliosStack.OneEffects` | rust_lib/src/helios.rs:3219-3295 | What instructions with one operand leave on the stack; storing replaces exactly the named slot |
| `HeliosStack.PushEffects` | rust_lib/src/helios.rs:3219-3286 | What instructions without operands leave on the stack |
| `HeliosStack.JumpEffects` | rust_lib/src/helios.rs:3254-3257 | Jumps are taken on zero or on anything else, and printing takes the value it shows |
| `HeliosStack.CallEffects` | rust_lib/src/helios.rs:3258-3270 | A call leaves the arguments as the first slots of a new frame, saved unless there are 256 |
| `HeliosStack.ReturnEffects` | rust_lib/src/helios.rs:3271-3278 | A return replaces the frame by the value |
| `HeliosStack.OperandOpcodes` | rust_lib/src/helios.rs:441-460 | The bytes of the opcodes with operands, least significant byte first |
| `HeliosLaws.CompoundIsAssign` | rust_lib/src/helios.rs:2718-2731 | `x op= e` is `x = x op e` for the eight operators that have a compound form; any other operator adds |
| `HeliosLaws.ForIsWhile` | rust_lib/src/helios.rs:2819-2844 | `for` is the `while` loop with the increment at the end of its body, for every body that does not continue the loop |
| `HeliosLaws.WhileIsLoop` | rust_lib/src/helios.rs:2797-2808 | `while c { b }` is `loop { if !c { break } b }` |
| `HeliosLaws.MatchIsIf` | rust_lib/src/helios.rs:2845-2891 | `match` on a variable is a chain of `if ==`, and does nothing if no arm fits |
| `HeliosLaws.ForCounts` | rust_lib/src/helios.rs:2819-2844 | `for i in a..b { print(i) }` prints the numbers from a to below b, and `..=` prints b as well |
| `HeliosLaws.PrintsDifference` | rust_lib/src/helios.rs:3228 | `print(a - b)` prints the difference modulo 2^32, and `print(10 - 3)` prints 7 |
| `HeliosLaws.PrintedInDecimal` | rust_lib/src/helios.rs:262-279 | Every number but i32::MIN prints in decimal without leading zeros, negative ones with a minus sign |
| `HeliosLaws.ShownText` | rust_lib/src/helios.rs:3329-3338 | A string is shown up to its first NUL |
| `HeliosLaws.ConstantWins` | rust_lib/src/helios.rs:2575-2582 | A constant hides a variable of the same name wherever it is read |
| `HeliosPipeline.CompileAndRun` | rust_lib/src/helios.rs:4035-4110 | Emitter and machine together, on every program: if the source finishes, the run halts with exactly its text or is cut off by the step limit with a prefix of it; a run that is not cut off means that the source has its final answer, and a source that goes on for ever is always cut off |
| `HeliosTyping.ExprChecks` | rust_lib/src/helios.rs:2570-2698 | Every instruction of an expression finds the operands it pops, and fallthrough, jump and call targets carry the stack height they expect |
| `HeliosTyping.StmtChecks` | rust_lib/src/helios.rs:2700-2907 | The same for every instruction of a statement, including patched forward jumps and jumps out of loops |
| `HeliosSafety.StepIsSafe` | rust_lib/src/helios.rs:3205-3295 | From a state that keeps the invariant, one step neither pops below the frame's expression part nor changes a live slot of a frame other than by a store to it or by leaving the frame, nor does it leave the invariant |
| `HeliosSafety.SlotKept` | rust_lib/src/helios.rs:3205-3295 | Over any number of steps, a live slot of a frame, running or suspended, keeps its value as long as that frame neither stores to it nor returns |
| `HeliosSafety.RunStaysSound` | rust_lib/src/helios.rs:3205-3295 | The invariant (program counter at an instruction start, frames nested, stack height between the parameter count and locals plus expression depth) holds after any number of steps |
| `HeliosSafety.ProgramIsSafe` | rust_lib/src/helios.rs:2918-2924 | Every state reached by a compiled program from its entry keeps the invariant and its next step is safe, whether or not the run ends |
| `HeliosSafety.ProgramKeepsSlots` | rust_lib/src/helios.rs:2918-2924 | The same from every state a compiled program reaches: neither temporaries nor callees overwrite a local |
| `HeliosSafety.AssignedStays` | rust_lib/src/helios.rs:3287-3295 | A value stored by a compiled program is in its slot until the frame stores to the slot again or returns |
| `HeliosRxe.ParseConstPool` | rust_lib/src/helios.rs:3926-3940 | The loop computes the pool of the data section, cut off at the first constant that does not fit |
| `HeliosRxe.PoolRoundTrip` | rust_lib/src/helios.rs:2930-2940 | Parsing a packed pool gives the pool back if and only if there are fewer than 65536 constants, each shorter than 65536 bytes |
| `HeliosRxe.ConstIsCut` | rust_lib/src/helios.rs:2930-2940 | A single constant comes back cut to its length modulo 65536 |
| `HeliosRxe.LongConstLost` | rust_lib/src/helios.rs:2930-2940 | A constant of 65536 bytes comes back empty |
| `HeliosRxe.Pack` | rust_lib/src/helios.rs:2930-2944 | The packed file is the header, the code section, the data section and the end mark |
| `HeliosRxe.LoadRxe` | rust_lib/src/helios.rs:4071-4091 | The section loop of the loader finds the last code and data sections before the end, and refuses a file whose header is not valid |
| `HeliosSample.LoadAccepts` | rust_lib/src/helios.rs:2946-2960 | A file is accepted if and only if it has 32 bytes, the magic bytes, version 5 or 6 and the architecture; its entry stands at byte 10 |
| `HeliosRxe.RxeRoundTrip` | rust_lib/src/helios.rs:2930-2956 | Loading a packed program gives exactly its code, constants and entry, if and only if the counts fit in 16 bits |
| `HeliosRxe.StripRxe` | rust_lib/src/helios.rs:5165-5179 | The loop of `strip` computes the stripped file, or stops where a section runs past the end of the file |
| `HeliosRxe.StripRemovesSymbols` | rust_lib/src/helios.rs:5165-5179 | On every well-formed file, the result is the same file without its symbol sections and without what follows the end mark |
| `HeliosRxe.StripKeepsProgram` | rust_lib/src/helios.rs:5165-5179 | A stripped file loads exactly as before |
| `HeliosRxe.StripTwice` | rust_lib/src/helios.rs:5165-5179 | Stripping twice gives what stripping once gives |
| `HeliosRxe.CompiledProgramLoads` | rust_lib/src/helios.rs:4035-4068 | What the compiler packs is what the loader runs |
| `HeliosSample.SampleCompiles` | rust_lib/src/helios.rs:2700-2907 | A program with a call, a local and a string compiles to these 44 bytes, byte for byte |
| `HeliosSample.SampleFile` | rust_lib/src/helios.rs:2930-2944 | Its executable is this file, byte for byte, and loading the file gives code, string and entry back |
| `HeliosSample.SampleRuns` | rust_lib/src/helios.rs:3205-3220 | Loading that file and running it prints x=7 on any stack of at least six slots |
| `HeliosLexer.Lexer.SkipBlanks` | rust_lib/src/helios.rs:844-860 | Skips white space and comments of both kinds, in any order, and nothing else |
| `HeliosLexer.Lexer.LexNumber` | rust_lib/src/helios.rs:914-949 | Reads a signed decimal, hexadecimal or binary number, wrapping to 32 bits, and drops a type suffix |
| `HeliosNumerals.HexNumber` | rust_lib/src/helios.rs:914-949 | `0x` and hexadecimal digits in either case read as their value modulo 2^32 |
| `HeliosNumerals.BinaryNumber` | rust_lib/src/helios.rs:914-949 | `0b` and binary digits read as their value modulo 2^32 |
| `HeliosNumerals.DecimalNumber` | rust_lib/src/helios.rs:914-949 | Decimal digits read as their value modulo 2^32, and a suffix of letters is dropped |
| `HeliosNumerals.LineComment` | rust_lib/src/helios.rs:844-860 | A comment up to the end of its line leaves the tokens behind it as they are |
| `HeliosNumerals.BlockComment` | rust_lib/src/helios.rs:844-860 | So does a comment up to the first end mark; comments do not nest |
| `HeliosNumerals.KeywordsRead` | rust_lib/src/helios.rs:951-991 | The keywords |
| `HeliosNumerals.WordsAreNames` | rust_lib/src/helios.rs:951-991 | Every word that is no keyword is a name |
| `HeliosNumerals.LongSymbols` | rust_lib/src/helios.rs:996-1043 | Symbols of two and three characters are read as a whole |
| `HeliosLexer.Lexer.Tokenise` | rust_lib/src/helios.rs:996-1056 | The tokens of the text, up to the end of the text |
| `HeliosReading.LexText` | rust_lib/src/helios.rs:914-1043 | The printed text of an expression lexes to its tokens, whatever follows, except that a minus before a digit joins the number and i32::MIN prints as symbols |
| `HeliosReading.LexNumber` | rust_lib/src/helios.rs:262-280 | A printed 32-bit number other than i32::MIN lexes back to itself |
| `HeliosReading.LexMin` | rust_lib/src/helios.rs:262-280 | The text printed for i32::MIN contains no digit and lexes to eleven symbols |
| `HeliosParser.Parser.ParseExpr` | rust_lib/src/helios.rs:1470-1483 | The parser methods compute the parse of the ladder, with casts outermost |
| `HeliosParser.Parser.ParseLevel` | rust_lib/src/helios.rs:1392-1469 | One level of the ladder: operands of the tighter levels, joined to the left |
| `HeliosParser.Parser.ParsePostfix` | rust_lib/src/helios.rs:1352-1381 | Subscripts and field chains after a primary expression |
| `HeliosParser.Parser.ParsePrimary` | rust_lib/src/helios.rs:1232-1350 | Literals, names, calls, groups, arrays and prefix operators, or no result where a diagnostic is reported |
| `HeliosParser.ParseWhole` | rust_lib/src/helios.rs:996-1483 | Lexing and parsing a text give the expression the whole text stands for |
| `HeliosPrecedence.SparseParses` | rust_lib/src/helios.rs:1383-1483 | Every expression, written with few parentheses by the operator groups of the source, is read back unchanged |
| `HeliosPrecedence.HasText` | rust_lib/src/helios.rs:996-1483 | An expression is what some text stands for if and only if its names are identifiers and no array in it is empty |
| `HeliosPrecedence.SparseFormats` | rust_lib/src/helios.rs:996-1483 | Rewriting any accepted text with few parentheses keeps what it stands for |
| `HeliosPrecedence.TwoOperators` | rust_lib/src/helios.rs:1392-1469 | In `a op1 b op2 c` the second operator gets b if it is in a tighter group, and the first one otherwise, for all operands |
| `HeliosPrecedence.ThreeNames` | rust_lib/src/helios.rs:1392-1469 | The same for three names in a text |
| `HeliosStable.ReadPrim` | rust_lib/src/helios.rs:1232-1350 | A printed expression of primary shape is read back by the primary parser, which stops right behind it |
| `HeliosStable.ReadOperand` | rust_lib/src/helios.rs:1383-1391 | A printed operand (at most one prefix operator outside its subscripts) is read back by the unary parser |
| `HeliosStable.ReadExpr` | rust_lib/src/helios.rs:1232-1483 | A printed expression of stable shape is read back through the whole ladder |
| `HeliosAccounts.ExprGood` | rust_lib/src/helios.rs:1232-1483 | Whatever the parser accepts, the tokens it consumes are those of the tree it returns, in order, up to parentheses and commas, and its parentheses match |
| `HeliosExact.SplitComma` | rust_lib/src/helios.rs:1241-1250 | Although commas between arguments are optional to the parser, an argument read back unchanged ends exactly at its comma |
| `HeliosExact.ExactExpr` | rust_lib/src/helios.rs:1232-1483 | An expression whose tokens are read back unchanged has a stable shape |
| `HeliosRoundTrip.ReadIsWhole` | rust_lib/src/helios.rs:4354-4411 | An expression read back unchanged contains no i32::MIN and no minus directly before a digit |
| `HeliosRoundTrip.ParsePrinted` | rust_lib/src/helios.rs:4354-4411 | Printing an expression, then lexing and parsing the text, gives the expression back if and only if it has a stable shape, no literal i32::MIN and no minus directly before a digit |
| `HeliosNamed.ExprNamed` | rust_lib/src/helios.rs:1219-1483 | Every tree the parser builds from lexed tokens has identifiers for names and no empty field chain |
| `HeliosNamed.FormattedTextParses` | rust_lib/src/helios.rs:4354-4411 | For every text the parser accepts: formatting its expression gives a text that stands for the same expression if and only if that expression has a stable shape, no i32::MIN and no minus directly before a digit |
| `HeliosNamed.GroupedIndexChanges` | rust_lib/src/helios.rs:4354-4411 | A subscript of a parenthesized expression that is no postfix expression is read, but formatting changes what it stands for |
| `HeliosNamed.GroupedMinusChanges` | rust_lib/src/helios.rs:4354-4411 | A minus before a parenthesized number is read as a negation, but formatting turns it into a negative number |
| `HeliosNamed.TextsThatChange` | rust_lib/src/helios.rs:4354-4411 | The parser accepts `(x as int)[0]` and `-(5)`, and formatting changes what both stand for |
| `PngBits.BitReader.NextByte` | rust_lib/src/png.rs:62-77 | The next byte of the concatenated spans, or an error at their end |
| `PngBits.BitReader.GetBits` | rust_lib/src/png.rs:78-95 | The next n bits of the concatenated spans, least significant first, with fewer than 8 bits left buffered; an error exactly if n is above 16 or too few are left |
| `PngBits.BitReader.AlignByte` | rust_lib/src/png.rs:96-100 | Drops exactly the rest of the current byte |
| `PngBits.BitReader.ReadU16Le` | rust_lib/src/png.rs:101-107 | The 16 bits after the next byte boundary, or an error exactly if they are not there |
| `PngHuffman.Huffman.Construct` | rust_lib/src/png.rs:123-158 | Succeeds if and only if at most 288 symbols have a length other than 0, all lengths are at most 15, and the Kraft sum is at most one; the table then holds exactly the used symbols ordered by length and symbol |
| `PngHuffman.Huffman.Decode` | rust_lib/src/png.rs:160-180 | Returns the symbol whose canonical codeword comes next and consumes exactly that codeword; fails if and only if no codeword comes next |
| `PngHuffman.PrefixFree` | rust_lib/src/png.rs:160-180 | At most one codeword stands at a place |
| `PngHuffman.KraftIffLeft` | rust_lib/src/png.rs:135-141 | The running count of unused codes stays non-negative exactly if the Kraft sum is at most one |
| `PngHuffman.CodeFits` | rust_lib/src/png.rs:123-158 | In an accepted table every canonical code fits in its length |
| `PngHuffman.CodewordSpells` | rust_lib/src/png.rs:160-180 | The codeword of a used symbol, between any other bits, is read as that symbol |
| `PngFilter.UnfilterRow` | rust_lib/src/png.rs:261-294 | In place, a scanline becomes its reconstruction from the row above, for all five filter types; a higher type fails |
| `PngFilter.UnfilterFiltered` | rust_lib/src/png.rs:261-294 | Reconstruction undoes filtering, for every type, pixel size and row above |
| `PngFilter.FilterUnfiltered` | rust_lib/src/png.rs:261-294 | Filtering a reconstructed row gives the stored row back |
| `PngFilter.PaethIsNearest` | rust_lib/src/png.rs:514-529 | The Paeth predictor is the neighbour nearest to left + up - upper left, with ties going to left, then up |
| `PngColours.FilterTypes` | rust_lib/src/png.rs:261-294 | The filters store differences from nothing, from the pixel before, from the row above and from their mean |
| `PngScale.DestSizeFits` | rust_lib/src/png.rs:562-572 | The drawn size is at least 1 by 1, fits into the screen right of and below the origin, and never enlarges |
| `PngScale.SampleFits` | rust_lib/src/png.rs:296-317 | Every sample taken for a drawn pixel lies within its scanline |
| `PngColours.KeepsAspect` | rust_lib/src/png.rs:562-572 | A source that fits keeps its size; otherwise one side fills its room and the other one is in proportion, rounded down |
| `PngColours.SampledPlaces` | rust_lib/src/png.rs:296-317 | Places on the screen sample the source evenly, and an image that is not scaled pixel by pixel |
| `PngColours.FillCubePalette` | rust_lib/src/png.rs:541-560 | Sets the palette to the 6 by 6 by 6 cube and forty greys |
| `PngColours.IndexColour` | rust_lib/src/png.rs:531-539 | The colour chosen is the brightest of the cube that is not brighter in any channel; a grey is at most 7 darker |
| `PngColours.GreyMissed` | rust_lib/src/png.rs:531-560 | A grey of the palette need not be shown as itself: 6 is shown black |
| `PngColours.BlendMeans` | rust_lib/src/png.rs:303-313 | Blending is the product with the opacity, rounded down: an opaque value stays and a transparent one is black |
| `PngColours.SampleShows` | rust_lib/src/png.rs:296-317 | The sample taken from a scanline shows the pixel of that place, to within one step in each channel, for all five colour types |
| `PngSink.Sink.CopyByte` | rust_lib/src/png.rs:222-227 | The ring gives the byte at a distance of up to 32768 from the end of the whole output, or an error exactly before its start |
| `PngSink.Sink.Emit` | rust_lib/src/png.rs:199-220 | Takes one more byte exactly if the output so far still consists of good scanlines, keeping the ring, the rows and the drawn pixels those of the whole output |
| `PngSink.Sink.DrawRow` | rust_lib/src/png.rs:229-253 | A finished scanline draws exactly the screen rows that sample it |
| `PngSink.Sink.FinishRow` | rust_lib/src/png.rs:229-258 | A full scanline is reconstructed, drawn and kept as the row above; it fails exactly for an unknown filter type |
| `PngSink.Sink.RowsArrived` | rust_lib/src/png.rs:199-220 | All rows are complete exactly if enough bytes have arrived |
| `PngSink.Sink.Complete` | rust_lib/src/png.rs:229-258 | After the last row every pixel of the destination rectangle was written exactly once with the sample at the scaled position of the reconstructed image, all others are 0, and the count of drawn pixels is width times height |
| `PngDeflate.CopyRepeats` | rust_lib/src/png.rs:405-408 | A match that overlaps its own output repeats the last bytes periodically |
| `PngDeflate.DistancesTile` | rust_lib/src/png.rs:41-46 | The distance codes cover 1 to 32768 without gap or overlap |
| `PngTables.LengthsTile` | rust_lib/src/png.rs:35-41 | The length rows tile 3 to 258 with the extra bits of section 3.2.5 of RFC 1951, and 258 has a row of its own |
| `PngTables.DistanceRows` | rust_lib/src/png.rs:42-48 | The distance rows start at 1 and tile up to 32768, with the extra bits of the standard |
| `PngTables.MatchFor` | rust_lib/src/png.rs:393-410 | Every length from 3 to 258 at every distance from 1 to 32768 has a match that copies that many bytes |
| `PngTables.RunInflates` | rust_lib/src/png.rs:383-413 | A byte and a match of any length n at distance 1 inflate to n + 1 times the byte |
| `PngTables.RunLengths` | rust_lib/src/png.rs:450-478 | The runs of code lengths are 3 to 6 repetitions, 3 to 10 zeros and 11 to 138 zeros, and no others |
| `PngTables.ClenOrderZigzag` | rust_lib/src/png.rs:49 | The code length symbols come as the runs, zero, and the lengths from 8 outwards |
| `PngTables.IncompleteCodes` | rust_lib/src/png.rs:123-150 | A code with one codeword of any length is accepted, and so is an empty one; three codewords of one bit are not |
| `PngTables.BoundaryIsNext` | rust_lib/src/png.rs:96-99 | The byte boundary is the first one not before a position |
| `PngDeflate.DistanceInWindow` | rust_lib/src/png.rs:399-404 | No distance the tables produce exceeds the ring |
| `PngDeflate.FixedCodes` | rust_lib/src/png.rs:415-432 | The fixed lengths give the codewords listed in section 3.2.6 of RFC 1951 |
| `PngDeflate.FixedTreesBuild` | rust_lib/src/png.rs:415-432 | The fixed trees are always accepted, and the literal tree is complete |
| `PngDeflate.BlockStep` | rust_lib/src/png.rs:381-413 | What a symbol does to the output in the reference decoder |
| `PngInflate.InflateStored` | rust_lib/src/png.rs:368-379 | A stored block is accepted exactly if its lengths agree and its bytes are there, and delivers those bytes |
| `PngInflate.CopyMatch` | rust_lib/src/png.rs:405-408 | A match extends the output by the LZ77 copy over the whole history |
| `PngInflate.InflateHuffman` | rust_lib/src/png.rs:381-413 | A compressed block delivers the reference expansion over the whole output, from the same bits, and fails exactly where the reference fails or a scanline is bad |
| `PngInflate.ReadLengths` | rust_lib/src/png.rs:450-478 | The code lengths with runs 16, 17 and 18 equal the reference expansion and never exceed their 318 places |
| `PngInflate.BuildDynamicTrees` | rust_lib/src/png.rs:434-481 | The trees of a dynamic block are those of the reference decoder, or both refuse |
| `PngInflate.BuildFixedTrees` | rust_lib/src/png.rs:415-432 | Builds the fixed trees and never fails |
| `PngInflate.InflateDeflate` | rust_lib/src/png.rs:483-508 | The streaming decoder succeeds if and only if the reference decoder does with output the sink accepts, and then delivers the same bytes |
| `PngEncode.ExpandDecodes` | rust_lib/src/png.rs:450-478 | Encoded runs of code lengths expand to those lengths |
| `PngEncode.BlockDecodes` | rust_lib/src/png.rs:381-413 | A block encoded with any two accepted trees decodes to its tokens' expansion |
| `PngEncode.HeaderDecodes` | rust_lib/src/png.rs:434-481 | An encoded dynamic header gives its two trees back |
| `PngEncode.InflateDecodes` | rust_lib/src/png.rs:483-508 | Every encoded sequence of stored, fixed and dynamic blocks decodes to its output, or fails exactly where a match reaches before the output |
| `PngDecode.ReadHeader` | rust_lib/src/png.rs:718-729 | Accepts exactly the zlib headers with method 8, a right check value and no dictionary |
| `PngDecode.Draw` | rust_lib/src/png.rs:674-751 | Succeeds if and only if the spans hold a decodable image of the size promised, and then the screen shows exactly that image downscaled |
| `PngDecode.EncodedImageShown` | rust_lib/src/png.rs:674-751 | Any image, filtered with any types and deflated with any encoding, is decodable, and each drawn pixel is the sample of the original image |
| `PngChunks.FindPng` | rust_lib/src/png.rs:318-331 | The place of the first signature in the data, or none exactly if there is none |
| `PngChunks.WalkChunks` | rust_lib/src/png.rs:595-642 | The loop over chunks computes the walk: the last header, the palette size and the image data spans, or a refusal |
| `PngChunks.WalkGood` | rust_lib/src/png.rs:595-642 | The spans of a walk lie inside the file, are at most 32, and their total is the length of the image data |
| `PngChunks.PlanDraws` | rust_lib/src/png.rs:644-695 | For every accepted header and place on the screen, the row length and the drawn size meet the requirements of drawing; the check of the row length never fails |
| `PngChunks.PlanAccepts` | rust_lib/src/png.rs:644-695 | Exactly which headers are accepted; the test of the row buffers never adds to the others |
| `PngChunks.DecodePng` | rust_lib/src/png.rs:574-753 | Succeeds if and only if the place is off the screen or the image data decodes, and then the screen shows the picture |
| `PngChunks.DecodeToScreen` | rust_lib/src/png.rs:574-753 | The same for a file with other bytes in front of its first signature; data without a signature is refused |
| `PngChunks.FileRead` | rust_lib/src/png.rs:595-642 | A file made of a header, palettes, up to 32 pieces of image data, unknown chunks and an end mark is walked to its end, and what is seen is its header and its image data |
| `PngChunks.FileShown` | rust_lib/src/png.rs:574-753 | Every such file whose image data is an image, filtered with any types and deflated with any encoding, is drawn, and each pixel drawn has the colour of the image pixel that scaling assigns to it |
| `PngSample.RedPixelShown` | rust_lib/src/png.rs:574-751 | A known file of 69 bytes, byte for byte, shows one pixel of full red wherever it is drawn, and nothing else |
| `PngPicture.PictureShown` | rust_lib/src/png.rs:574-751 | For every image in every valid file: each place of the drawn rectangle shows the pixel at the same fraction of width and height, to within one step in each channel |
| `AvfsPath.NormalizePath` | src/Avfs/Avfs.c:41-114 | The loop over path components computes the normal form |
| `AvfsPath.NormalizedClean` | src/Avfs/Avfs.c:41-114 | A normal form has no empty, `.` or `..` component |
| `AvfsPath.NormalizedTwice` | src/Avfs/Avfs.c:41-114 | Normalizing is idempotent, from whatever directory the second time |
| `AvfsPath.RelativeIsAbsolute` | src/Avfs/Avfs.c:41-114 | A relative path means the same as its absolute form |
| `AvfsPath.DotVanishes` | src/Avfs/Avfs.c:77-92 | A component `.` changes nothing, wherever it stands |
| `AvfsPath.UpCancels` | src/Avfs/Avfs.c:77-92 | A name and the `..` behind it cancel anywhere in a path, unless 63 components come before them |
| `AvfsPath.UpAndStay` | src/Avfs/Avfs.c:41-114 | `p/x/..` is p if and only if p has not 63 components; `..` is the directory above if and only if the current one is not 64 deep; at the root it is the root |
| `AvfsPath.FindEntry` | src/Avfs/Avfs.c:188-233 | Walks the components and gives the entry they lead to |
| `AvfsPath.ChildFound` | src/Avfs/Avfs.c:205-226 | With unique sibling names, an entry is what its parent and name lead to |
| `AvfsPath.GetFullPath` | src/Avfs/Avfs.c:747-776 | The names from the root, cut off after 32 |
| `AvfsPath.FullPathResolves` | src/Avfs/Avfs.c:747-776 | The full path of an entry resolves to that entry if and only if it is at most 32 levels deep |
| `AvfsPath.FullPathMisses` | src/Avfs/Avfs.c:747-776 | An entry at depth 33 whose full path leads to the entry at depth 32 |
| `AvfsBlocks.CountIsRight` | src/Avfs/Avfs.c:322-323 | The computed block count is the number of blocks needed if and only if the size is at most 0xFFFFFE00 |
| `AvfsBlocks.BlocksOfLeast` | src/Avfs/Avfs.c:322-323 | The number of blocks needed is the least number of 512 bytes each, and at least one |
| `AvfsBlocks.CountOverflows` | src/Avfs/Avfs.c:322-323 | For the largest size the count wraps to one block |
| `AvfsBlocks.AllocMeans` | src/Avfs/Avfs.c:170-185 | The allocation invariant in plain words: extents lie inside the disk, are pairwise disjoint, and a bit is set if and only if some file owns the block |
| `AvfsBlocks.AllocTake` | src/Avfs/Avfs.c:350-372 | Giving a free run to a new file keeps the invariant |
| `AvfsBlocks.AllocDrop` | src/Avfs/Avfs.c:604-615 | Releasing a file's run keeps the invariant |
| `AvfsBlocks.ContentKept` | src/Avfs/Avfs.c:499-519 | Writing inside blocks a file does not own leaves its contents alone |
| `AvfsBlocks.OverlapMovesDown` | src/Avfs/Avfs.c:170-185 | A first fit that overlaps the file's old run starts at or below it, so an ascending copy is sound |
| `AvfsBlocks.PlacedContent` | src/Avfs/Avfs.c:683-704 | Copying a file to its new run, even an overlapping one, keeps its contents and everybody else's |
| `Avfs.FileSystem.constructor` | src/Avfs/Avfs.c:155-168 | A fresh file system keeps the invariant and holds only the root |
| `Avfs.FileSystem.FindFreeBlocks` | src/Avfs/Avfs.c:170-185 | The first run of free blocks long enough, or -1 exactly if there is none |
| `Avfs.FileSystem.CopyDown` | src/Avfs/Avfs.c:683-704 | An ascending byte copy to a lower or disjoint place moves the bytes unharmed |
| `Avfs.FileSystem.FilePartsAgree` | src/Avfs/Avfs.c:236-249 | Finding a file and normalizing agree on every path but the empty one |
| `Avfs.FileSystem.CreateFile` | src/Avfs/Avfs.c:313-374 | Creates an entry with a first-fit run, or refuses with the code of the first failed check and changes nothing; it keeps the invariant if and only if it refuses or the size is at most 0xFFFFFE00 |
| `Avfs.FileSystem.CreateDir` | src/Avfs/Avfs.c:266-311 | Creates a directory under a directory, or refuses with the code of the first failed check and changes nothing; keeps the invariant |
| `Avfs.FileSystem.WriteFile` | src/Avfs/Avfs.c:499-519 | Replaces a stretch of the named file and changes no other file |
| `Avfs.FileSystem.ReadFile` | src/Avfs/Avfs.c:521-532 | Gives the stretch of the file's contents asked for |
| `Avfs.FileSystem.Relocate` | src/Avfs/Avfs.c:683-704 | Moves a file to the first fit computed with its own blocks freed, or restores the bitmap and changes nothing |
| `Avfs.FileSystem.AppendFile` | src/Avfs/Avfs.c:661-706 | The contents become old contents plus buffer and no other file changes, or nothing changes; it fails for space exactly if no run is long enough |
| `Avfs.FileSystem.Truncate` | src/Avfs/Avfs.c:855-917 | The contents keep the common prefix and are extended by zeros or by what the last block holds; the data is not touched unless the file gets more blocks; no other file changes, or nothing changes |
| `Avfs.FileSystem.SaveFile` | src/Avfs/Avfs.c:431-487 | The named file holds the buffer afterwards and no other file changes, or nothing changes, with the code of the first failed check |
| `Avfs.FileSystem.RemoveFile` | src/Avfs/Avfs.c:591-617 | Frees the entry and its blocks, or refuses a non-empty directory; keeps the invariant if and only if it refuses or the entry is not the root |
| `Avfs.FileSystem.RemoveDirRecursive` | src/Avfs/Avfs.c:619-657 | Removes exactly the directory and everything below it that a path can reach, with its blocks; keeps the invariant if and only if it refuses or the directory is not the root |
| `Avfs.FileSystem.ChangeDir` | src/Avfs/Avfs.c:725-738 | The current directory becomes the normal form of the path of an existing directory, or nothing changes |
| `Avfs.FileSystem.ChangeUp` | src/Avfs/Avfs.c:725-738 | Changing to `..` goes to the path of the parent of the current directory's entry, unless that path has 64 components: then it stays |
| `Avfs.GrowthIsZeroFilled` | src/Avfs/Avfs.c:855-917 | A growing file gets zeros, whatever the disk holds, if and only if its block count grows |
| `Avfs.ShrinkAndRegrow` | src/Avfs/Avfs.c:855-917 | Shrinking a file and growing it back without giving up a block leaves entries and data exactly as they were |
| `Avfs.StaleByteShown` | src/Avfs/Avfs.c:855-917 | On a new file system: a file saved as 1, 7, truncated to one byte and then to two, reads 1, 7 |
| `AvfsPath.PruneAll` | src/Avfs/Avfs.c:619-657 | Removing the children in reach with what is below them and then the directory is removing all entries below it in reach |
| `AvfsPath.WholeSubtreeGoes` | src/Avfs/Avfs.c:619-657 | What recursive removal takes is the whole subtree if and only if no file in it is right below a directory of depth 64 |
| `AvfsPath.LadderFileStays` | src/Avfs/Avfs.c:619-657 | In 64 directories inside each other with a file in the last one, removing the first leaves the file behind |
| `AvfsPath.NestedWithout` | src/Avfs/Avfs.c:591-617 | Directories stay under directories when an entry goes that has no directory right below it |
| `AvfsPath.LookupKept` | src/Avfs/Avfs.c:188-233 | A change to entries off the way to an entry does not change what its path leads to |
| `RchatDelivery.Session.AcknowledgePending` | rust_lib/src/rchat.rs:1144-1159 | The cursor moves only past a message whose acknowledgement the server has, and a lost reply leaves it pending |
| `RchatDelivery.Session.Poll` | rust_lib/src/rchat.rs:1170-1300 | At most one message is pending; a poll hands out the message right after the cursor and moves no cursor |
| `RchatDelivery.Session.AppendMessage` | src/commands/tui.c:569-578 | A conversation keeps its latest messages in order |
| `RchatDelivery.Session.StorePending` | src/commands/tui.c:640-674 | The pending message is stored once with its sender, or not at all, exactly if the list is full and the sender is unknown |
| `RchatDelivery.Session.SettleStored` | src/commands/tui.c:622-629 | A stored message is acknowledged, or stays marked as stored so that it is not stored again |
| `RchatDelivery.Session.Refresh` | src/commands/tui.c:614-683 | For every script of losses and arrivals: messages are stored in server order, each once, never skipped by the cursor; when it catches up, exactly the server's messages are stored; it answers -7 if and only if a message was already pending that an earlier refresh could not store. Without losses it gets past exactly the messages, at most eight, before the first one that cannot pass, stores something if and only if the next one can, and a client stuck on such a message stays stuck |
| `RchatDelivery.Session.FetchBatch` | src/commands/tui.c:631-683 | The rounds of a refresh, at most eight, with the same guarantees |
| `RchatDelivery.Session.FetchOne` | src/commands/tui.c:631-676 | One round of a refresh: poll, store and settle one message, or the error or empty result that ends the refresh |
| `RchatDelivery.RanStops` | src/commands/tui.c:614-683 | How far a batch gets splits at any message that got past |
| `RchatDelivery.PassedIsLongest` | src/commands/tui.c:614-683 | The messages that get past are the longest stretch in which all verify and no fifth sender appears |
| `RchatDelivery.EightAtOnce` | src/commands/tui.c:614-683 | A refresh ends after eight messages, and a history has the last eight |
| `RchatDelivery.InboxInOrder` | src/commands/tui.c:569-578 | The messages of a sender come in the order they were sent |
| `RchatDelivery.StuckOnStranger` | src/commands/tui.c:640-674 | Four senders fill the list, and a message of a fifth one stops delivery for good |
| `RchatDelivery.StuckOnInvalid` | rust_lib/src/rchat.rs:1170-1300 | A message that does not verify stops delivery for good |
| `RchatDelivery.StoredOne` | src/commands/tui.c:664-665 | Storing the next message keeps every conversation the latest messages of its sender |
| `RchatDelivery.LastAppend` | src/commands/tui.c:569-578 | Trimming at every message keeps the same as trimming once |
| `RchatBase64.EncodeValue` | rust_lib/src/rchat.rs:137-175 | An encoding, read as a number in base 64, is the bytes read as a number in base 256, padded with zero bits |
| `RchatBase64.EncodeInjective` | rust_lib/src/rchat.rs:137-175 | Different byte strings have different encodings |
| `RchatBase64.AlphabetIsStandard` | rust_lib/src/rchat.rs:137-139 | The alphabet is that of section 5 of RFC 4648 |
| `RchatBase64.Base64Url` | rust_lib/src/rchat.rs:137-175 | Writes the encoding and a terminator, or refuses a buffer that is too short |
| `RchatBase64.DecodeBase64Url` | rust_lib/src/rchat.rs:198-222 | Accepts exactly the encodings of n bytes and gives those bytes |
| `RchatBase64.DecodeBase64UrlVec` | rust_lib/src/rchat.rs:225-248 | Accepts exactly the encodings of at most the given number of bytes and gives those bytes |
| `RchatJson.JsonEscape` | rust_lib/src/rchat.rs:251-269 | The loop computes the escaped text |
| `RchatJson.DecodeJsonString` | rust_lib/src/rchat.rs:396-447 | The loop decodes a quoted string with its escapes and surrogate pairs, or fails as its specification does |
| `RchatJson.JsonUnescapedField` | rust_lib/src/rchat.rs:461-491 | The scan finds the field's text, refusing a field given twice |
| `RchatJson.EscapeDecodes` | rust_lib/src/rchat.rs:251-447 | Decoding an escaped text gives the text back, wherever it stands |
| `RchatJson.PayloadRoundTrip` | rust_lib/src/rchat.rs:1098-1099 | The field `text` of the sender's payload is exactly the text sent, for every text, including one that looks like a field |
| `RchatGrammar.StringReads` | rust_lib/src/rchat.rs:396-447 | The reader gives a text if and only if the characters up to the next quote are a spelling of it by section 7 of RFC 8259, in any mix of escapes, digits in either case and surrogate pairs |
| `RchatGrammar.LoneSurrogates` | rust_lib/src/rchat.rs:412-433 | A second surrogate on its own, and a first one that no second one follows, are refused |
| `RchatGrammar.EscapeSpells` | rust_lib/src/rchat.rs:251-269 | What the sender writes for a text is a spelling of it |
| `RchatGrammar.ObjectField` | rust_lib/src/rchat.rs:461-491 | In an object of strings with any white space and spelling, the scan finds the value of the only member with the key, and nothing if there is none or more than one |
| `RchatGrammar.PayloadText` | rust_lib/src/rchat.rs:1098-1099 | The payload is the braces, the two names, the time in decimal and the escaped text |

## Left out

- Helios machine effects: hardware, ports, heap and raw pointers, string values, inline assembly, PRP and fetch opcodes. An opcode of this kind ends the modelled run; emitted code of the modelled fragment contains none.
- Helios statements outside the fragment: arrays and structs, `assert!`, hexadecimal printing, `break` with a value (it leaves a value on the stack), a `match` without arms or with arms after `_`, string patterns. String literals are modelled as arguments of `print` only.
- HeliosCorrect.CompilerCorrect: assumes code shorter than 2^32 bytes, at most 0x8000 pool strings, a stack of fewer than 2^31 slots with room for the call depth, and at most 256 nested calls; `main` takes no parameters and parameter names are distinct. The machine's own result is whatever is left on top of the stack, not the value `main` returns, and no claim is made about it.
- HeliosSafety.ProgramIsSafe: assumes that no call is made with 256 frames in use, where the machine saves no frame for the call.
- HeliosEmitter.Emitter.EmitExpr: arrays, fields, dereference, address-of, `input` and `asm!` are outside the modelled fragment.
- HeliosEmitter.Emitter.EmitStmt: the one long method of the source is split into one method per statement form; array lets, indexed assignment, hexadecimal printing, `assert!`, `asm!` and `break` with a value are outside the modelled fragment.
- HeliosEmitter.Emitter.EmitMatch: requires at least one arm and `_` only as the last one, where the source accepts an empty match and arms after `_`.
- HeliosMachine.Vm.Run: the loop is split into one method for each group of opcodes; an opcode outside the modelled fragment ends the run as a panic, where the source executes it.
- HeliosLexer.Lexer.Tokenise: string and character literals end the list of tokens in the model.
- The machine's instrumentation, messages and keyboard capture; the step function counts an instruction where the machine's loop does.
- Diagnostics: the parser's recovery after an error is not modelled. A parse either has no diagnostic or no result; the warning for large arrays is not modelled.
- HeliosParser.Parser.ParsePrimary: string and character literals, array fills, `new` and `asm!` give no result in the model.
- HeliosParser.ParseWhole: a text with string or character literals, array fills, `new` or `asm!` gives no result in the model.
- HeliosNamed.FormattedTextParses: texts with string literals, array fills or `asm!` are not part of it.
- HeliosParser.Parser.ParseExpr: `asm!`, `new`, array fills, string and character literals give no result, although the source reads them; the eight ladder functions, which differ in their operators only, are one method with a level.
- HeliosRoundTrip.ParsePrinted: assumes that names are identifiers and field chains are not empty, which `HeliosNamed.ExprNamed` shows of every tree the parser builds; trees with string literals, array fills and inline assembly are not part of it. In a debug build, printing i32::MIN panics; the model takes the wrapping arithmetic of a release build.
- Statements are not printed or parsed; only expressions are.
- HeliosRxe.StripRxe: where the source would slice past the end of the file and panic, the model gives no result. Positions are unbounded numbers; on a 32-bit machine the source's `pos + len` can wrap for a malformed file with a section length near 2^32, which is not modelled. The same holds for `HeliosRxe.LoadRxe` and `PngChunks.WalkChunks`.
- The arithmetic modelled is that of a release build, which wraps: printing i32::MIN, and the sums of the lexer. A panic of the modelled machine (`Abort`) stands for a failed bounds check, a division overflow, or an argument count above the stack height; only the last one depends on the build, since a release build goes on with the wrapped difference. `HeliosSafety.ProgramIsSafe` shows that compiled programs never get there.
- PNG: the colours of a file's own palette, the copy to video memory, messages, CRC and Adler values (never checked by the decoder).
- PngDecode.Draw: spans and picture are inputs; `PngChunks.DecodePng` takes them from the file.
- PngChunks.FileShown: files whose header chunk is the first one; the walk itself is modelled for every file.
- PngHuffman.Huffman.Construct: the offsets are a local sequence instead of a fixed array; counters are unbounded integers where the source has 16 bits, which its length checks keep sufficient.
- PngSink.Sink.Emit: the unchanging fields of the sink are grouped in one value; buffers of the source's statics are fields.
- PngScale.DestSizeFits: products are unbounded; the source bounds both sides of a picture by 4096.
- AVFS paths are sequences of components: the 512 and 128 byte buffers, and the character checks of the save operation, are not modelled. Listing and information calls are left out.
- Avfs.FileSystem.CreateFile: as in the source, the parent is not checked to be a directory, so files may have children.
- Avfs.FileSystem.WriteFile: requires offset plus length below 2^32, where the 32-bit sum of the source wraps.
- Avfs.FileSystem.ReadFile: requires offset plus size below 2^32, where the 32-bit sum of the source wraps.
- Avfs.FileSystem.AppendFile: requires that the new size does not overflow the block count, which takes a buffer of almost 4 GB.
- Avfs.FileSystem.RemoveFile: removing a file that has children leaves them without a parent, as in the source; nothing is said of what is done to a file system whose root is gone.
- Avfs.FileSystem.RemoveDirRecursive: nothing is said of what is done to a file system whose root is gone.
- Avfs.FileSystem.SaveFile: the failure of the write after a successful create cannot occur and has no branch; the checks of the name's characters, length and trailing slash are not modelled.
- rChat cryptography, sessions, sockets and sending. Whether a message verifies and whether a request or reply is lost are inputs. The server keeps messages in order and its acknowledgement is idempotent. One server profile is modelled.
- RchatDelivery.Session.Refresh: the rounds of its loop are a method of their own; messages sent by the user are not part of the histories.
- RchatJson.JsonUnescapedField: works on characters instead of UTF-8 bytes; invalid UTF-8 is not modelled.
- RchatBase64.DecodeBase64Url: shifts and masks are written as multiplication and division.
- Text editor, shell commands, search and the user interface: mostly screen and keyboard code.
