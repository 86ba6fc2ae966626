# Verified models of Rainbow-OS

Rainbow-OS is a hobby operating system for 32-bit x86 machines. This project
models its self-contained cores in Dafny and proves what each of them is for.

**The C compiler's back end** (`Word32`, `Machine`, `Syntax`, `Arithmetic`,
`Equations`, `Compile`, `Operators`, `ExprProof`, `CallProof`, `ExprCorrect`,
`ExprEndless`, `StmtProof`, `Shapes`, `StmtCorrect`, `FunctionProof`, `Calls`,
`Encoding`, `Link`, `Cpu`, `InMemory`, `Labels`, `Emission`, `CodeGen`,
`Program`, `Compiler`, `Disasm`). Expressions, statements and functions that
call one another, recursively or not, have a big-step meaning on 32-bit words;
the compiler emits instructions with labels and references into byte buffers
and links them. The main results go from the source meaning to the linked
bytes: a processor whose code, data and stack are bytes of one memory, started
at the image's first byte, computes what the source says, returns with the
callee-saved registers restored, never overwrites the code, and runs on when a
loop or a recursion does. What C promises of its operators and statements is
proved of the source meaning by itself. The disassembler prints the emitted
code in assembly. `CodeGen.Generator` is the imperative emitter, proved to
append exactly the code whose behaviour is analysed.

**The FAT12 volume** (`FatTable`, `FatDisk`, `FatFiles`, `FatRuns`,
`FatLayout`, `FatVolume`, `FatNames`, `Ramdisk`, `RamdiskImage`). The driver
works in place on one byte array. Each of its methods is tied to an operation
on disks in closed form, and those operations refine a map from 8.3 names to
byte strings over every run of writes and deletes. The on-disk rules are in the
sections "Boot Sector and BPB", "FAT Data Structure" and "FAT Directory
Structure" of Microsoft's FAT32 File System Specification 1.03.

**The editor's gap buffer and its history** (`Lines`, `History`, `Buffer`,
`Typing`, `Counted`, `Words`, `Editor`, `Motions`). The ring of 2048 entries
refines a bounded edit log whose replay is the text; undo, redo, word motions
and operators are proved on it.

**The framebuffer console** (`Svga`, `Console`). A dirty-checked shadow grid
over a banked 64 KB window agrees with plain rendering in every reachable state.

**BASIC** (`Expressions`, `BasicArithmetic`, `Evaluator`, `ProgramLines`,
`ProgramStore`, `Tokens`, `TokenCode`, `Tokenizer`, `SaveLoad`, `BasicText`,
`SaveDisk`). The recursive-descent evaluator matches a precedence tree, the
packed store refines a finite map, and a program saved to a FAT12 volume and
loaded again after any other work on the volume is the same program.

**Asteroids and the debugger** (`Bresenham`, `Asteroids`, `AsteroidsGame`,
`Breakpoints`, `Debugger`). Line drawing with exact bounds, conservation laws
over whole games, and a patch/unpatch state machine over whole sessions.

`Basics` holds what all of them share.

## Where the code differs from what one would expect

The model follows the code, and the members named prove it.

- A file name whose first byte is 0xE5 is written with success and never found
  again, because that byte marks an erased slot (`FatRuns.ReadBack`,
  `FatRuns.ErasedNameIsLost`); a BASIC program saved under such a name is lost
  (`SaveDisk.SaveWorkLoad`).
- A rewrite that runs out of clusters returns -1 after the old chain was freed
  and all free clusters were linked; its directory slot keeps pointing into
  them, so a later stretch of the new bytes appears under the old size
  (`FatFiles.LostChain`, `FatRuns.LostContent`). All chains stay disjoint even so.
- A new file that finds no directory slot loses its clusters for good
  (`FatRuns.WriteFreeSpace`).
- `add_file` with no data records the cluster the next file will get
  (`Ramdisk.AddKeepsConsistent`).
- The constants of the disk driver's own volume do not meet the geometry
  hypothesis (`Ramdisk.OnDiskUnsound`).
- `u` restores the text after deleting 1 to 2047 characters; from 2048 on the
  first deletions have left the ring. It leaves the cursor behind the first
  character restored, not on it (`Editor.DeleteThenUndo`).
- Deleting the breakpoint the program is parked on and then continuing leaves a
  stray trap in memory (`Breakpoints.DeletedTrapStays`); six events after loading
  a program are enough (`Breakpoints.DeletedTrapReached`).
- Going on from a breakpoint while another one waits to be put back forgets that
  one: it is active, but no longer in memory. This happens after stepping off a
  breakpoint at an `int 0x80` onto one behind it, because entering the kernel
  suspends the trap flag (`Breakpoints.ResumeArmed`, `Breakpoints.ForgottenReached`).
  The program is seen and restored as it was loaded even so.
- A function of the program finds its arguments in reverse: its first parameter
  is the last argument of the call (`Calls.ParametersReversed`).
- `>>` is a logical shift (`Operators.BinaryRuns`).
- The cursor takes another color where text and background agree, so as to be seen;
  on light grey it cannot be (`Console.InkSeen`).
- BASIC's true is -1, but NOT gives 0 or 1 (`Expressions.Evaluates`). Dividing
  the smallest number by -1 is neither a value nor an error but a processor
  fault, and `2147483648/-1` is such a division (`Expressions.FaultReached`).
- A numeric literal of 2^31 or more is stored negative and does not survive
  SAVE and LOAD (`Tokens.ShowAndSplit`).
- A line of a BASIC file that holds only a number does not delete that line, and a number
  is taken modulo 65536 (`BasicText.EnteredLine`).
- A line of 253 to 255 tokens overflows the length byte of its record and is
  lost (`ProgramStore.LongLineLost`); the tokenizer writes fewer than 120.

Only in a comment: apps/basic/program.h:7-11 ends the program with line number
0, while the code ends it at `prog_end`.

## How the models read the code

- The proofs about expressions, statements and functions use a memory of dwords
  in use, a finite map outside which an access stops the machine; `InMemory`
  keeps those dwords, the code and all else as bytes of one memory, on the
  hypothesis that dwords in use do not overlap each other or the code. Flags are
  defined after `cmp` and `test` only. A variable never set has no value, and a
  program that reads one has no meaning. The memory the source sees excludes
  stack scratch, saved registers and code. The string table is given.
- Builtin calls go to a kernel that fixes argument counts, answers and writes to
  program memory. It is confined: what it does with the dwords a program has
  does not depend on other dwords and does not change them.
- Calls have a meaning for every nesting depth, and a finished execution has the
  same result for every larger depth (`Program.MainSettled`). An execution that is
  not finished for want of fuel, in main or in a function it calls, lasts as many
  steps as it has fuel; one whose calls go deeper than that, as many as it has depth.
- Expressions and statements come with a hypothesis that the stack has room
  for their depth and that of the calls in them, builtin calls with one of at
  most 32 arguments, loops with one of at most 16 levels, programs with one of
  fitting the code, label and reference tables.
- A FAT12 volume comes with the geometry hypothesis `FatLayout.Sound`: one
  table has an entry for every data cluster, cluster numbers stay below the end
  marks, and the volume is smaller than 2 GB. `RamdiskImage.Boot` establishes it.
- Bytes are integers below 256; `& 0x0F` and shifts are written as remainders
  and quotients. Block copies are taken by their meaning on sequences.
- The font is a parameter whose space glyph is blank; `Console.ClearNeedsBlank`
  shows that this is needed. Video memory is one megabyte behind the bank register.
- The evaluator's arithmetic wraps at 32 bits. A literal cut off by the end of
  its line reads zeros. The position in a line is a byte, and the evaluator's
  lines have at most 251 tokens, so that it does not wrap.
- What SAVE writes and LOAD reads goes through the volume in memory; copying
  that volume to the hard disk is left out.
- Line drawing and the score use unbounded integers.
- The program being debugged does not write its own code. While it runs, an int3
  may be executed anywhere, and under the trap flag a step trap may come at any time.

## Model

| member | source | states |
|---|---|---|
| `Operators.CompareMeaning` | kernel/cc/codegen.c:261-276 | the conditions set by `cmp` and read by `setcc` mean the six signed comparisons of C |
| `Operators.UnaryRuns` | kernel/cc/codegen.c:240-257 | the code of `-`, `!` and `~` leaves the C value in EAX and everything else as it was |
| `Operators.BinaryRuns` | kernel/cc/codegen.c:166-276 | with the left operand in ECX and the right one in EAX, the code of every binary operator leaves the C value in EAX (`>>` is logical, division truncates) and keeps the rest of the state |
| `Word32.DivisionLaw` | kernel/cc/codegen.c:185-201 | truncating quotient and remainder are the only two numbers that make up the dividend with a remainder smaller than the divisor and of the dividend's sign |
| `Arithmetic.DivisionLaws` | kernel/cc/codegen.c:185-201 | the values of `/` and `%` obey that law, and are missing for a zero divisor and for the smallest number over -1 alone |
| `Arithmetic.ExactLaws` | kernel/cc/codegen.c:166-183 | sum, difference, product and negative are exact whenever they fit an int |
| `Arithmetic.BitLaws` | kernel/cc/codegen.c:204-257 | the bitwise operators act on each bit by itself |
| `Arithmetic.ShiftLaws` | kernel/cc/codegen.c:217-229 | shifts move each bit by the count modulo 32 and bring in zeros, also to the right of a negative number |
| `Arithmetic.CompareLaws` | kernel/cc/codegen.c:261-276 | comparisons give 0 or 1, `<` is a strict order on ints with exactly one of `<`, `==`, `>` true, and the other three are their denials |
| `ExprProof.StoreVarRuns` | kernel/cc/codegen.c:123-140 | storing a local or global changes exactly that variable of the source program |
| `CallProof.SwapReverses` | kernel/cc/codegen.c:390-409 | one swap of the in-place reversal advances the reversed prefix by one pair |
| `CallProof.ReverseRuns` | kernel/cc/codegen.c:390-409 | the emitted swaps reverse the argument cells in place and touch no other memory |
| `CallProof.SyscallRuns` | kernel/cc/codegen.c:381-389 | the kernel is entered with EBX pointing at the arguments, its answer arrives in EAX, and memory changes as the call means and nowhere the source cannot see |
| `CallProof.CallRuns` | kernel/cc/parser.c:101-105 | a builtin sees its arguments at EBX in source order, its result is in EAX and its writes in program memory, ESP is back above the arguments and other memory above it is unchanged |
| `CallProof.WritesAgree` | kernel/cc/codegen.c:381-389 | a confined kernel does the same to the machine's memory as to what the source knows of it |
| `ExprCorrect.ExprRuns` | kernel/cc/parser.c:238-456 | running the code of any expression of the subset, calls of builtins and of the program's functions included, leaves its 32-bit value in EAX and the variables the source evaluation gives, with ESP and the memory above it unchanged |
| `ExprCorrect.DerefRuns` | kernel/cc/parser.c:252-257 | `*e` loads the dword at the address e evaluates to |
| `ExprCorrect.BinaryExprRuns` | kernel/cc/parser.c:277-368 | operands are evaluated left to right around a push and the operator is applied to both values |
| `ExprCorrect.ShortExprRuns` | kernel/cc/parser.c:370-402 | short-circuit and/or skip the right operand exactly when the left one decides, and yield 0 or 1 |
| `Equations.DeMorgan` | kernel/cc/parser.c:370-402 | De Morgan's law: the denial of a short-circuit and is the or of the denials, side effects, missing results and endless calls included |
| `Equations.CalleesApart` | kernel/cc/parser.c:128-163 | a call has a meaning or is endless, never both |
| `ExprCorrect.AssignRuns` | kernel/cc/parser.c:405-427 | an assignment stores its right side and has its value |
| `Equations.AssignThenRead` | kernel/cc/parser.c:405-427 | an assigned variable reads back, and no other place changes but by the right side |
| `Equations.StoreThenLoad` | kernel/cc/parser.c:556-580 | what is stored through a pointer is read back through it |
| `Equations.PointerToLocal` | kernel/cc/parser.c:252-275 | `*&x` is `x` |
| `ExprCorrect.AssignOpRuns` | kernel/cc/parser.c:428-456 | a compound assignment reads, combines and stores the variable once |
| `Equations.CompoundAssign` | kernel/cc/parser.c:428-456 | `x op= e` means `x = x op e` |
| `ExprCorrect.StoreThroughRuns` | kernel/cc/parser.c:556-580 | `*e = v` stores to the address e evaluates to |
| `ExprCorrect.BuiltinRuns` | kernel/cc/parser.c:128-163 | a builtin call evaluates its arguments left to right and has the kernel's answer as its value |
| `ExprCorrect.InvokeRuns` | kernel/cc/parser.c:128-163 | a call of a function of the program pushes its arguments left to right, calls it, drops them, and has its value and effect |
| `ExprEndless.EndlessRuns` | kernel/cc/parser.c:128-456 | evaluating an expression that comes to an endless call runs for as many steps as such a call lasts |
| `StmtProof.OptRuns` | kernel/cc/parser.c:728-772 | an omitted expression of `for` or `return` behaves as its default |
| `StmtCorrect.StmtRuns` | kernel/cc/parser.c:683-905 | running a statement's jump code reaches exactly the state the structured big-step meaning gives, at the end, at the loop's labels or at the epilogue, with ESP at its statement-level value; without enough fuel it runs at least that many steps |
| `StmtCorrect.IfElseRuns` | kernel/cc/parser.c:683-703 | exactly one branch of `if`/`else` runs, chosen by the condition |
| `Equations.ConditionLaws` | kernel/cc/parser.c:683-703 | short-circuit operators and `!` in a condition mean nested conditionals and swapped branches |
| `StmtCorrect.WhileRuns` | kernel/cc/parser.c:705-726 | `while` tests before each round; `break` and `continue` in it go to its end and its test |
| `Equations.WhileUnrolls` | kernel/cc/parser.c:705-726 | one round of `while` is its condition, its body and the loop again |
| `StmtCorrect.ForRuns` | kernel/cc/parser.c:728-772 | `for` runs init once, then condition, body and step, in spite of the emitted order of step and body |
| `Equations.ForAsWhile` | kernel/cc/parser.c:728-772 | `for` means init and `while` with the step behind the body, unless a `continue` would pass over the step |
| `StmtCorrect.DoWhileRuns` | kernel/cc/parser.c:774-799 | `do`/`while` runs its body before each test; `continue` goes to the test |
| `Equations.DoAsWhile` | kernel/cc/parser.c:774-799 | `do s while (c)` means `s` and then `while (c) s` |
| `StmtCorrect.JumpRuns` | kernel/cc/parser.c:801-895 | `return`, `break` and `continue` leave with the value or the state they should |
| `Equations.TrailingContinue` | kernel/cc/parser.c:872-895 | a `continue` at the end of the body of any of the three loops changes nothing |
| `Equations.TrailingBreak` | kernel/cc/parser.c:872-895 | a `break` there ends the loop after one round |
| `Equations.SequenceLaws` | kernel/cc/parser.c:852-895 | statements run in order and nothing behind a jump runs |
| `FunctionProof.PrologueRuns` | kernel/cc/codegen.c:337-353 | the prologue saves EBP, EBX, ESI and EDI below the return address and opens the frame |
| `FunctionProof.EpilogueRuns` | kernel/cc/codegen.c:355-367 | the epilogue restores what the prologue saved |
| `FunctionProof.FunctionRuns` | kernel/cc/codegen.c:337-367 | a whole function, calls of others in it included, returns with the body's outcome, EBX, ESI, EDI, EBP and ESP restored, the return address intact and the caller's stack untouched |
| `FunctionProof.FunctionLasts` | kernel/cc/parser.c:683-905 | a function that is not finished within some fuel, or comes to an endless call, keeps the machine running for that long |
| `FunctionProof.FunctionDiverges` | kernel/cc/parser.c:705-799 | a source function that no amount of fuel finishes keeps the machine running for ever, when what it calls lasts as long |
| `FunctionProof.MoreFuel` | kernel/cc/parser.c:705-799 | a finished execution does not depend on the fuel given to it |
| `Calls.ParametersReversed` | kernel/cc/sym.c:54-65 | parameter i at [ebp + 8 + 4i] is the i-th argument from the end |
| `Calls.FrameOpens` | kernel/cc/codegen.c:337-353 | at its entry a function sees the caller's world, its parameters and 32 locals without values |
| `Calls.CallAnswered` | kernel/cc/codegen.c:369-379 | one call instruction, given that calls nested in it work, runs the function and comes back behind itself with its value, its world and the stack as it was |
| `Calls.AllCallsWork` | kernel/cc/codegen.c:369-379 | so calls work to every depth, recursion included, and endless ones go on |
| `Calls.CallLasts` | kernel/cc/codegen.c:369-379 | an endless call lasts one step longer than what it comes to |
| `Calls.SelfCallEndless` | kernel/cc/parser.c:128-163 | a function that calls itself is endless to every depth the stack has frames for |
| `Calls.ExecMore` | kernel/cc/parser.c:683-905 | a finished execution stays the same when calls mean more |
| `Calls.MeaningMore` | kernel/cc/codegen.c:369-379 | what a call means does not depend on how much depth and fuel it is given, once they suffice |
| `Encoding.DecodeEncode` | kernel/debug/disasm.c:42-163 | decoding the emitted bytes of an instruction, whatever follows them, gives that instruction and its length back |
| `Word32.DwordValue` | kernel/cc/codegen.c:55-60 | a dword is stored with its lowest byte first |
| `Link.FixupsDisjoint` | kernel/cc/codegen.c:63-141 | no two recorded references overlap |
| `Link.LinkResolves` | kernel/cc/codegen.c:477-527 | patching all recorded references turns the emitted bytes into the encoding of the resolved instructions, and changes no byte that is not part of a reference |
| `Link.LinkedHere` | kernel/cc/codegen.c:477-527 | each resolved instruction stands at the offset at which it was emitted |
| `Cpu.InstrOnCpu` | kernel/cc/codegen.c:455-532 | fetching and decoding an instruction from the image has the effect of the abstract instruction |
| `Cpu.CallOnCpu` | kernel/cc/codegen.c:490-498 | a linked call pushes the address behind it and goes to its function's first byte |
| `Cpu.RetOnCpu` | kernel/cc/codegen.c:355-367 | a return goes back behind the call whose address is on the stack |
| `InMemory.StoredDwords` | kernel/cc/codegen.c:123-140 | storing dwords that do not overlap gives them back and changes no other byte |
| `InMemory.StepInMemory` | kernel/cc/codegen.c:455-532 | one processor step on bytes is the step on dwords, and writes only dwords in use |
| `InMemory.RunInMemory` | kernel/cc/codegen.c:455-532 | a run over labelled instructions is a run of the processor over the bytes in memory, which leaves the code as it was linked |
| `Labels.StmtCount` | kernel/cc/codegen.c:307-317 | every label a statement asks for is placed exactly once, and no other |
| `Labels.FunctionCount` | kernel/cc/codegen.c:307-367 | the same for a whole function with its epilogue label |
| `Labels.LabelIndexSound` | kernel/cc/codegen.c:314-317 | when no label is placed twice, each label position is where the label stands |
| `Emission.StmtFine` | kernel/cc/codegen.c:63-85 | every jump of a statement goes to a label it placed itself or was given by an enclosing loop or function |
| `Emission.FunctionFine` | kernel/cc/codegen.c:63-85 | every jump of a function goes to one of its own labels |
| `CodeGen.Generator.Emit` | kernel/cc/codegen.c:50-61 | appends the bytes of one instruction and records its reference |
| `CodeGen.Generator.NewLabel` | kernel/cc/codegen.c:307-312 | hands out the next label, or label 0 when the table is full |
| `CodeGen.Generator.PlaceLabel` | kernel/cc/codegen.c:314-317 | binds a label to the current position |
| `CodeGen.Generator.EmitJump` | kernel/cc/codegen.c:63-85 | emits a jump with a recorded reference to its label |
| `CodeGen.Generator.EmitReverse` | kernel/cc/codegen.c:390-409 | the loop over pairs emits the whole reversal |
| `CodeGen.Generator.EmitBuiltinCall` | kernel/cc/parser.c:101-105 | reversal, kernel entry and stack clean-up, in this order |
| `CodeGen.Generator.EmitInvoke` | kernel/cc/parser.c:128-163 | arguments, call with a recorded reference, and stack clean-up, in this order |
| `CodeGen.Generator.EmitExpr` | kernel/cc/parser.c:238-555 | the parser's recursive emission appends exactly the expression's code and asks for exactly its labels |
| `CodeGen.Generator.EmitShort` | kernel/cc/parser.c:370-402 | one link of a chain of short-circuit operators |
| `CodeGen.Generator.EmitAssign` | kernel/cc/parser.c:405-456 | assignments and compound assignments |
| `CodeGen.Generator.EmitStmt` | kernel/cc/parser.c:860-905 | statement emission with the parser's break and continue label stack |
| `CodeGen.Generator.EmitIf` | kernel/cc/parser.c:683-703 | as `parse_if` |
| `CodeGen.Generator.EmitWhile` | kernel/cc/parser.c:705-726 | as `parse_while`, the label stack restored |
| `CodeGen.Generator.EmitDoWhile` | kernel/cc/parser.c:774-799 | as `parse_do_while`, the label stack restored |
| `CodeGen.Generator.EmitForLoop` | kernel/cc/parser.c:728-772 | as `parse_for`, the label stack restored |
| `CodeGen.Generator.EmitFunction` | kernel/cc/codegen.c:337-367 | prologue, body, epilogue label and epilogue; the returned offset is where the function begins |
| `Compiler.ResolveFixups` | kernel/cc/codegen.c:477-509 | the patch loop applies all label and call references |
| `Compiler.ResolveStrings` | kernel/cc/codegen.c:514-524 | the patch loop applies all string references |
| `Compiler.Output` | kernel/cc/codegen.c:455-532 | the image is the entry jump, the code with all label, call, data and string references resolved, the strings and zeroed data, byte for byte |
| `Compiler.CompileProgram` | kernel/cc/parser.c:970-985 | within capacity, compiling functions one after another, each at the offset calls are linked to, gives that image |
| `Program.LabelsSound` | kernel/cc/codegen.c:307-317 | in a whole program every label has one place |
| `Program.ReturnsSound` | kernel/cc/codegen.c:369-379 | every call of a program has its own return address, and it leads back behind that call |
| `Program.ProgHosts` | kernel/cc/codegen.c:337-379 | every function of a program is where calls go, and all calls work |
| `Program.EntryStep` | kernel/cc/codegen.c:464-470 | the first jump of the image lands on main |
| `Program.ProgramRuns` | kernel/cc/codegen.c:455-532 | the image in memory, executed from its first byte, runs main to the result its source meaning gives, functions calling one another to any depth the stack holds, and returns to the caller; only dwords in use are written |
| `Program.ProgramDiverges` | kernel/cc/codegen.c:455-532 | if main never finishes, in its own loops or in a function it calls, the bytes run for ever |
| `Program.ProgramLasts` | kernel/cc/codegen.c:455-532 | as long as main is not finished the bytes keep running, in proportion to its fuel or depth |
| `Program.ProgramRecurses` | kernel/cc/codegen.c:455-532 | recursion not finished at a depth keeps the bytes running as far as a stack for that depth allows |
| `Program.MainSettled` | kernel/cc/parser.c:683-905 | main's result is the same for every larger call depth and fuel |
| `Disasm.ListingInStep` | kernel/debug/disasm.c:42-163 | decoding from any instruction to the end stays in step with emission: same instructions, offsets and lengths |
| `Disasm.DisassemblesDecoded` | kernel/debug/disasm.c:42-163 | whatever the bytes, the text printed is that of the decoded instruction in assembly, with mnemonic, registers and operands, and its length is the decoded one |
| `Disasm.PrintedProgram` | kernel/debug/disasm.c:42-163 | what is printed of a linked program is the assembly of its instructions as emitted and linked, from any of them to the end |
| `Disasm.PlaceShown` | kernel/debug/disasm.c:21-38 | a frame place is printed with its sign and digits that read back as its distance from EBP, except for the smallest displacement |
| `Disasm.TargetsPrinted` | kernel/debug/disasm.c:70-151 | each jump, conditional jump and call is printed with its mnemonic and eight digits that read back as the linked address |
| `FatTable.PathIsChain` | kernel/fs/fat12.c:163-178 | a terminated, acyclic chain in range is what the bounded walk visits, and no longer than the number of data clusters |
| `FatTable.ChainFrame` | kernel/fs/fat12.c:187-199 | a chain survives every change of the table outside its own clusters |
| `FatTable.FreeAfterLinking` | kernel/fs/fat12.c:216-224 | linking the first free clusters leaves exactly the other free ones, in order |
| `FatTable.FreeAfterClearing` | kernel/fs/fat12.c:202-213 | freeing a chain adds exactly its length to the free clusters |
| `FatTable.LinkedSuffix` | kernel/fs/fat12.c:259-275 | from any cluster of a freshly linked run the walk visits the rest of it |
| `FatTable.ClearLinked` | kernel/fs/fat12.c:202-275 | freeing what was just allocated restores every table entry |
| `FatDisk.NameIsKey` | kernel/fs/fat12.c:77-105 | which names become directory names that look erased |
| `FatLayout.SoundFits` | kernel/fs/fat12.c:107-122 | the geometry hypothesis keeps table, directory and clusters apart and inside the volume |
| `FatLayout.SetEntry` | kernel/fs/fat12.c:187-199 | storing a packed 12-bit entry changes that entry and no neighbour, directory slot or cluster |
| `FatLayout.EntriesPacked` | kernel/fs/fat12.c:37-49 | two entries fill three bytes, the lower-numbered one in their low bits |
| `FatLayout.AreasFollow` | kernel/fs/fat12.c:107-122 | tables, directory and clusters follow one another, the directory in as few sectors as hold it and as many clusters as the rest holds |
| `FatLayout.SlotFields` | kernel/fs/fat12.c:25-34 | a directory entry is 32 bytes with name, attribute, first cluster and size where they are, low bytes first |
| `FatLayout.SetCluster` | kernel/fs/fat12.c:266-271 | writing into a cluster changes that cluster alone |
| `FatLayout.SetSlot` | kernel/fs/fat12.c:295-301 | writing a directory slot changes that slot alone |
| `FatFiles.FindListed` | kernel/fs/fat12.c:149-160 | in a tidy directory the search finds the one listed slot of a name |
| `FatFiles.GatherFilled` | kernel/fs/fat12.c:171-178 | reading a filled chain from any of its clusters gives the bytes laid out there |
| `FatFiles.OthersKept` | kernel/fs/fat12.c:226-304 | whatever a write is granted, every other file keeps its chain and its bytes |
| `FatFiles.WriteConsistent` | kernel/fs/fat12.c:226-304 | writing keeps all chains acyclic, in range and disjoint, also when it returns -1 |
| `FatFiles.WriteThenRead` | kernel/fs/fat12.c:143-304 | a successful write reads back exactly |
| `FatFiles.WriteElsewhere` | kernel/fs/fat12.c:226-304 | every other name reads as before, also when the write returns -1 |
| `FatFiles.LostChain` | kernel/fs/fat12.c:259-261 | after a rewrite without enough clusters the old slot owns the lost clusters from its old first one on |
| `FatRuns.WriteSucceeds` | kernel/fs/fat12.c:226-304 | a write succeeds exactly when it has a directory slot and free clusters plus the old chain suffice |
| `FatRuns.WriteFreeSpace` | kernel/fs/fat12.c:226-304 | clusters are conserved over every write; one that fails for want of a slot loses those of its data |
| `FatRuns.ReadBack` | kernel/fs/fat12.c:143-304 | after a successful write the name reads back what was written if and only if its first byte is not 0xE5 |
| `FatRuns.ErasedNameIsLost` | kernel/fs/fat12.c:151-151 | a name of the single character 0xE5 is written with success and then not found |
| `FatRuns.LostContent` | kernel/fs/fat12.c:259-261 | the exact bytes a failed rewrite leaves under its name |
| `FatRuns.DeleteRemoves` | kernel/fs/fat12.c:306-334 | deleting succeeds exactly when the name is found and removes that name and no other |
| `FatRuns.DeleteFreeSpace` | kernel/fs/fat12.c:306-334 | deleting returns exactly the file's clusters |
| `FatRuns.WriteThenDelete` | kernel/fs/fat12.c:226-334 | writing a new file and deleting it restores every table entry and every name |
| `FatRuns.WriteEntry` | kernel/fs/fat12.c:273-301 | a successful write leaves one entry of the right size, with the attribute and stamp there were or those of a new file, and no other entry changes |
| `FatRuns.DeleteEntry` | kernel/fs/fat12.c:306-334 | a delete changes the first byte of one name in the directory and no cluster |
| `FatRuns.StepEffect` | kernel/fs/fat12.c:226-334 | what one write or delete, successful or not, does to the map from names to bytes |
| `FatRuns.RunConsistent` | kernel/fs/fat12.c:187-334 | every run of writes and deletes keeps the volume consistent |
| `FatRuns.RunEffect` | kernel/fs/fat12.c:226-334 | in every run every request has its effect on the map and nothing else |
| `FatRuns.RunElsewhere` | kernel/fs/fat12.c:226-334 | a name no request mentions reads the same at the end of any run |
| `FatRuns.WriteWorkRead` | kernel/fs/fat12.c:143-334 | a file written and, after any run of requests about other names, read again gives the bytes written, or nothing when its name looks erased |
| `FatVolume.NameTo83` | kernel/fs/fat12.c:77-105 | the loops compute the 8.3 form |
| `FatNames.NameCut` | kernel/fs/fat12.c:77-104 | of a stem longer than eight bytes the first eight count, of an extension longer than three the first three |
| `FatNames.NameStored` | kernel/fs/fat12.c:77-104 | an upper-case name that fits is stored as it is, each part filled up with spaces |
| `FatNames.NameAnyCase` | kernel/fs/fat12.c:77-104 | names that differ in the case of letters are the same |
| `FatNames.ShippedName` | kernel/fs/ramdisk.c:63-110 | a file placed on the ramdisk is found under stem, dot and extension |
| `FatVolume.Volume.constructor` | kernel/fs/fat12.c:107-122 | reads the geometry from the boot sector |
| `FatVolume.Volume.ReadFat` | kernel/fs/fat12.c:37-48 | reads a packed entry |
| `FatVolume.Volume.WriteFat` | kernel/fs/fat12.c:187-199 | changes one table entry of the disk |
| `FatVolume.Volume.FreeChain` | kernel/fs/fat12.c:202-213 | clears exactly the chain |
| `FatVolume.Volume.AllocCluster` | kernel/fs/fat12.c:216-224 | the lowest free cluster, or 0 |
| `FatVolume.Volume.FindEntry` | kernel/fs/fat12.c:149-160 | the slot of a name, or -1 |
| `FatVolume.Volume.FreeSlot` | kernel/fs/fat12.c:286-292 | the first unused or erased slot, or -1 |
| `FatVolume.Volume.Store` | kernel/fs/fat12.c:254-275 | the allocation loop links and fills the first free clusters in order |
| `FatVolume.Volume.ReadFile` | kernel/fs/fat12.c:143-184 | copies the file's bytes as far as both it and the buffer reach; -1 when there is none |
| `FatVolume.Volume.WriteFile` | kernel/fs/fat12.c:226-304 | in place, exactly the disk-level write; bytes before the table stay |
| `FatVolume.Volume.DeleteFile` | kernel/fs/fat12.c:306-334 | in place, exactly the disk-level delete |
| `FatNames.FormatThenParse` | kernel/fs/fat12.c:56-105 | a displayed name leads back to its directory form exactly when that form is canonical |
| `FatNames.ListingComplete` | kernel/fs/fat12.c:124-141 | the listing holds all listed files and nothing else |
| `FatNames.ListingInOrder` | kernel/fs/fat12.c:124-141 | the listing is in slot order |
| `FatNames.ListedReads` | kernel/fs/fat12.c:124-184 | a canonically named file can be read under its listed name |
| `FatNames.ListRoot` | kernel/fs/fat12.c:124-141 | the loop produces the first listed files in slot order |
| `Ramdisk.AddKeepsConsistent` | kernel/fs/ramdisk.c:63-110 | placing a new name keeps the volume consistent if and only if the file is not empty |
| `Ramdisk.AddReads` | kernel/fs/ramdisk.c:63-110 | a placed file reads back and no other name changes |
| `Ramdisk.ImageHolds` | kernel/fs/ramdisk.c:135-204 | non-empty files with distinct names that fit make a consistent volume holding exactly them |
| `Ramdisk.OnDiskUnsound` | kernel/fs/diskfs.c:37-49 | the geometry of the disk driver's volume does not meet the hypothesis: its table runs into the root directory at cluster 1024 |
| `RamdiskImage.Image.constructor` | kernel/fs/ramdisk.c:112-145 | formats the blank volume and its boot sector |
| `RamdiskImage.Image.AddFile` | kernel/fs/ramdisk.c:63-110 | in place, exactly the placement of one file |
| `RamdiskImage.Boot` | kernel/fs/ramdisk.c:135-208 | building the ramdisk hands the driver a valid volume with exactly the given files |
| `Lines.PlaceReadsBack` | apps/editor/editor.c:63-69 | a position reached by line and column is on that line and in that column |
| `Lines.PlaceFound` | apps/editor/buffer.c:227-266 | every position is given back by its line and column |
| `History.RecordGood` | apps/editor/buffer.c:25-33 | recording an edit, with or without dropping the oldest entry, keeps the history replayable to the current text |
| `History.MoveGood` | apps/editor/buffer.c:143-214 | undo and redo keep the history good |
| `History.UndoThenRedo` | apps/editor/buffer.c:143-214 | a successful undo followed at once by redo restores the text, and the other way round; a failing one changes no text |
| `Typing.TypedUndone` | apps/editor/buffer.c:135-214 | whatever is typed and removed at the cursor in a group of fewer than 2048 edits: undo brings back the text and the cursor, one further if the first edit removed the character under it, and redo the text and the cursor as editing left them |
| `History.GroupUndone` | apps/editor/buffer.c:135-179 | undo after a group of edits restores the text before it, short of exactly the edits that fell out of the ring, and leaves the cursor at the oldest edit taken back |
| `History.GroupsUndone` | apps/editor/buffer.c:135-179 | after any series of groups, undoing j times gives the text before the last j groups, short of exactly the entries that fell out of the ring |
| `History.UndoCut` | apps/editor/buffer.c:143-179 | forgetting old entries does not change where undo stops, except that it cannot go further back than the oldest entry kept |
| `History.UndoLasts` | apps/editor/buffer.c:143-179 | the j-th undo succeeds exactly when the groups undone before it and two more entries fit the ring |
| `Buffer.RingPush` | apps/editor/buffer.c:25-33 | overwriting the write position of the ring records an entry, also when it wraps |
| `Buffer.GapBuffer.UndoPush` | apps/editor/buffer.c:25-33 | records an entry unless replaying |
| `Buffer.GapBuffer.Load` | apps/editor/buffer.c:44-49 | replaces the text and forgets all history |
| `Buffer.GapBuffer.Insert` | apps/editor/buffer.c:55-59 | inserts at the cursor and records it; a full buffer changes nothing |
| `Buffer.GapBuffer.DeleteBack` | apps/editor/buffer.c:61-66 | removes the character before the cursor and records it |
| `Buffer.GapBuffer.DeleteFwd` | apps/editor/buffer.c:68-73 | removes the character at the cursor and records it |
| `Buffer.GapBuffer.MoveTo` | apps/editor/buffer.c:91-101 | moves the gap as far as the text reaches, the text unchanged |
| `Buffer.GapBuffer.CharAt` | apps/editor/buffer.c:107-111 | the character at a position, NUL past the end |
| `Buffer.GapBuffer.GetContent` | apps/editor/buffer.c:113-131 | copies the text around the gap |
| `Buffer.GapBuffer.UndoBoundary` | apps/editor/buffer.c:135-141 | records a boundary unless one was just recorded |
| `Buffer.GapBuffer.Undo` | apps/editor/buffer.c:143-179 | the ring replays exactly one group backwards; the text stays the replay of the history and the cursor stands at the last edit taken back |
| `Buffer.GapBuffer.Redo` | apps/editor/buffer.c:181-214 | the ring replays exactly one group forwards; the cursor stands at the last edit made again |
| `Buffer.GapBuffer.LineCount` | apps/editor/buffer.c:218-225 | one more than the newlines of the text |
| `Buffer.GapBuffer.LineStart` | apps/editor/buffer.c:246-257 | the position after the line's newline, or the end |
| `Buffer.GapBuffer.LineLength` | apps/editor/buffer.c:259-265 | the distance to the next newline or the end |
| `Buffer.GapBuffer.CursorCol` | apps/editor/buffer.c:236-244 | the distance from the start of the cursor's line |
| `Words.StartsInverse` | apps/editor/editor.c:101-154 | forward and backward word motions are inverse on word starts |
| `Words.Kinds` | apps/editor/editor.c:91-99 | blanks are the four characters they are, word characters the 63 letters, digits and underscore, and big words take in all others |
| `Motions.ToWordReaches` | apps/editor/editor.c:302-385 | `w` with a count reaches exactly that many word starts further, or the end of the text where there are fewer |
| `Motions.ToPreviousReaches` | apps/editor/editor.c:302-385 | `b` with a count reaches back over exactly that many word starts, or to the start |
| `Motions.ToEndReaches` | apps/editor/editor.c:302-385 | `e` with a count takes in the last character of that many words, or all up to the last character |
| `Motions.LetterMotions` | apps/editor/editor.c:302-385 | `h` and `l` go as far as their count and the text say, `0` and `$` around the cursor's line |
| `Editor.Editor.WordForwardPos` | apps/editor/editor.c:101-123 | `w` and `W` land on the nearest word start after the position, or the end |
| `Editor.Editor.WordBackwardPos` | apps/editor/editor.c:126-154 | `b` and `B` land on the nearest word start before it, or the start |
| `Editor.Editor.WordEndPos` | apps/editor/editor.c:157-187 | `e` and `E` land on the nearest word end after it, or the last character |
| `Editor.Editor.MoveToLineCol` | apps/editor/editor.c:63-69 | goes to line and column, or the end of a shorter line |
| `Editor.Editor.YankRange` | apps/editor/editor.c:191-197 | stores the range, up to 4095 characters |
| `Editor.Editor.DeleteRange` | apps/editor/editor.c:199-206 | removes exactly the range as far as the text reaches, recording each deletion |
| `Editor.CoveredInside` | apps/editor/editor.c:318-385 | every charwise motion stays inside the text, word ends on an empty text excepted |
| `Editor.Editor.ApplyOperatorCharwise` | apps/editor/editor.c:254-269 | yank, delete and change over a range, with the history they leave |
| `Editor.Editor.OperatorMotion` | apps/editor/editor.c:302-385 | an operator with a motion and counts acts on exactly the range between the cursor and the motion's end: text, yank buffer, cursor, history and mode |
| `Editor.DeleteThenUndo` | apps/editor/editor.c:908-915 | `u` after an operator deleted n > 0 characters restores the text if and only if n is at most 2047, and puts the cursor behind the first of them |
| `Editor.UndoKey` | apps/editor/editor.c:908-915 | `u` with a count after a series of groups gives the text before that many of them, short of what has left the ring |
| `Counted.UndoneRedone` | apps/editor/editor.c:908-922 | as many redos as undos succeeded make all edits again |
| `Counted.CountedUndoCursor` | apps/editor/editor.c:908-915 | a counted undo leaves the cursor at the oldest edit taken back, wherever it was |
| `Counted.CountedRedoCursor` | apps/editor/editor.c:916-922 | a counted redo leaves it at the end of the newest edit made again |
| `Editor.Editor.UndoCommand` | apps/editor/editor.c:908-915 | takes back up to the given number of groups, with the cursor where the last undo leaves it, and marks the text modified |
| `Editor.Editor.RedoCommand` | apps/editor/editor.c:916-922 | makes up to the given number of groups again, with the cursor where the last redo leaves it, and marks the text modified |
| `Svga.MovedMore` | kernel/drivers/svga.c:345-353 | a downward copy in pieces never reads what it has overwritten |
| `Svga.Framebuffer.SetBank` | kernel/drivers/svga.c:50-54 | after the cached switch the register maps the requested bank |
| `Svga.Framebuffer.Clear` | kernel/drivers/svga.c:293-304 | fills exactly the screen through the window |
| `Svga.Framebuffer.PutPixel` | kernel/drivers/svga.c:306-311 | sets exactly one pixel, or none off the screen |
| `Svga.Framebuffer.FbRead` | kernel/drivers/svga.c:314-323 | reads a linear range across banks |
| `Svga.Framebuffer.FbWrite` | kernel/drivers/svga.c:325-334 | writes a linear range across banks and nothing else |
| `Svga.Framebuffer.Copy` | kernel/drivers/svga.c:345-353 | the banked, line-by-line copy is the linear overlapping copy |
| `Svga.Framebuffer.FillRect` | kernel/drivers/svga.c:365-368 | fills exactly the clipped rectangle |
| `Console.RedrawAgrees` | kernel/drivers/vga.c:62-67 | redrawing one cell keeps screen and shadow grid in agreement |
| `Console.HideAgrees` | kernel/drivers/vga.c:81-85 | redrawing the cursor's cell removes its strip |
| `Console.StripAgrees` | kernel/drivers/vga.c:69-79 | drawing the cursor changes nothing outside its strip, which then shows it |
| `Console.ScrollAgrees` | kernel/drivers/vga.c:87-106 | shifting pixels and shadow cells together and blanking the last row keeps the agreement |
| `Console.ClearNeedsBlank` | kernel/drivers/vga.c:116-126 | clearing agrees with the grid exactly when the space glyph is blank |
| `Console.TypeThenErase` | kernel/drivers/vga.c:132-162 | a character and a backspace blank one cell and return the cursor, except in the last cell |
| `Console.EraseAtStart` | kernel/drivers/vga.c:132-162 | at the very start a backspace blanks the cell and stays |
| `Console.TextFills` | kernel/drivers/vga.c:132-167 | printable text fills consecutive cells over line ends and changes nothing else |
| `Console.NewlineText` | kernel/drivers/vga.c:132-167 | a newline behind printable text puts what follows from column 0 of the next row on and changes nothing else |
| `Console.ReturnText` | kernel/drivers/vga.c:132-167 | a carriage return puts it over the start of the same row |
| `Console.TabText` | kernel/drivers/vga.c:132-167 | a tab puts it at the first column beyond the cursor that is a multiple of eight, or on the next row |
| `Console.BottomScrolls` | kernel/drivers/vga.c:87-162 | at the bottom every row comes to show what the one below showed, and the last is blank |
| `Console.GlyphLine` | kernel/drivers/vga.c:45-59 | the eight pixels of a glyph's line, from left to right, are the binary digits of its byte |
| `Console.StripPlace` | kernel/drivers/vga.c:69-79 | the cursor takes the two lowest pixel lines of its cell |
| `Console.InkSeen` | kernel/drivers/vga.c:69-79 | the cursor has a color unlike the background unless both colors of the cell are light grey |
| `Console.ColorBack` | kernel/drivers/vga.c:29-31 | both colors can be read back from an attribute |
| `Console.Terminal.RenderCell` | kernel/drivers/vga.c:45-59 | draws exactly the glyph's pixels in exactly one cell |
| `Console.Terminal.BlitCell` | kernel/drivers/vga.c:62-67 | the dirty check never leaves screen and grid apart |
| `Console.Terminal.DrawCursor` | kernel/drivers/vga.c:69-79 | the strip shows the cursor's color, all else agrees |
| `Console.Terminal.HideCursor` | kernel/drivers/vga.c:81-85 | the whole grid agrees again |
| `Console.Terminal.Scroll` | kernel/drivers/vga.c:87-106 | scrolls screen and grid together when the cursor has left the screen |
| `Console.Terminal.Clear` | kernel/drivers/vga.c:116-126 | blank screen, cursor at the top left |
| `Console.Terminal.PutChar` | kernel/drivers/vga.c:132-162 | the screen becomes what typing the character means, every pixel outside the strip in agreement |
| `Console.Terminal.Write` | kernel/drivers/vga.c:164-167 | the same for a string |
| `Console.Terminal.SetCursor` | kernel/drivers/vga.c:184-191 | moves the cursor, clipped to the screen |
| `Console.Terminal.SetColor` | kernel/drivers/vga.c:128-130 | later characters get the new colors, shown ones keep theirs |
| `Console.Terminal.PutCharAt` | kernel/drivers/vga.c:193-197 | sets one cell, or none off the screen |
| `Expressions.Reads` | apps/basic/expr.c:271-497 | a written tree is read at the level where it stands to its value and its end, or ends with the error or fault its evaluation raises |
| `Expressions.Evaluates` | apps/basic/expr.c:271-497 | any written numeric expression evaluates to its tree's value and is consumed with the spaces behind it; the error flag rises exactly when a division or MOD carried out has a zero divisor, and the processor faults exactly when one divides the smallest number by -1 |
| `Expressions.ValueExists` | apps/basic/expr.c:357-382 | only the operands of the divisions carried out decide whether a tree has a value, an error or a fault |
| `Expressions.FaultReached` | apps/basic/expr.c:371-377 | the tokens of 2147483648/-1 fault |
| `BasicArithmetic.SumLaws` | apps/basic/expr.c:366-412 | `+`, `-` and `*` are exact when the result fits 32 bits, and otherwise its low 32 bits |
| `BasicArithmetic.DivisionLaws` | apps/basic/expr.c:368-379 | `/` and MOD obey the law of truncating division, with exactly the source's error and fault cases |
| `BasicArithmetic.ComparisonLaws` | apps/basic/expr.c:419-492 | comparisons, AND and OR give -1 or 0; `<` is a strict order with exactly one of `<`, `=`, `>` true, and the others follow |
| `BasicArithmetic.SignLaws` | apps/basic/expr.c:125-157 | a negative adds up to zero with its operand, NOT is 1 for zero alone, ABS is not below zero, each but for the smallest number |
| `BasicArithmetic.MinusTwice` | apps/basic/expr.c:276-286 | minus twice is nothing, for the smallest number too |
| `BasicArithmetic.VariablesApart` | apps/basic/expr.c:320-350 | two names are the same variable exactly when letter, in either case, and digit agree |
| `BasicArithmetic.Precedence` | apps/basic/expr.c:357-492 | of two operators the tighter one is carried out first, of two equally tight ones, other than two comparisons, the left one |
| `BasicArithmetic.OperatorSpelled` | apps/basic/tokenizer.c:98-179 | every operator as it is typed becomes the token the evaluator takes for it |
| `BasicArithmetic.FunctionsSpelled` | apps/basic/tokenizer.c:30-43 | so do NOT, ABS and INT |
| `BasicArithmetic.TextEvaluates` | apps/basic/tokenizer.c:98-179 | two numbers and an operator as typed, tokenized and evaluated, come to what the operator makes of the numbers |
| `Evaluator.Evaluator.ParsePrimary` | apps/basic/expr.c:271-354 | one primary, by the reading function |
| `Evaluator.Evaluator.ParseMul` | apps/basic/expr.c:357-382 | the loop over `*`, `/` and MOD, with its zero divisors and its divide fault |
| `Evaluator.Evaluator.ParseAdd` | apps/basic/expr.c:385-416 | the loop over `+` and `-` |
| `Evaluator.Evaluator.ParseCompare` | apps/basic/expr.c:419-458 | at most one comparison, true being -1 |
| `Evaluator.Evaluator.ParseAnd` | apps/basic/expr.c:461-475 | the loop over AND |
| `Evaluator.Evaluator.ParseOr` | apps/basic/expr.c:478-492 | the whole expression; position and error flag as the reading function says |
| `Evaluator.Evaluator.ParseFunction` | apps/basic/expr.c:125-157 | ABS and INT with their parentheses |
| `ProgramLines.ReplacedGet` | apps/basic/program.c:62-84 | inserting a line sets its number in the map and nothing else |
| `ProgramLines.WithoutGet` | apps/basic/program.c:52-60 | deleting a line removes its number from the map and nothing else |
| `ProgramLines.GetListed` | apps/basic/program.c:32-40 | a number is found exactly when a line has it |
| `ProgramStore.RecordAt` | apps/basic/program.c:12-30 | every record of the packed buffer can be read at its offset |
| `ProgramStore.Program.FindLine` | apps/basic/program.c:32-40 | the record of a number, or none |
| `ProgramStore.Program.DeleteLine` | apps/basic/program.c:52-60 | the buffer packs the remaining lines |
| `ProgramStore.Program.InsertLine` | apps/basic/program.c:62-84 | the buffer packs the lines in order; a line that does not fit acts as a delete of its number; a line of 253 tokens or more leaves a record with a wrapped length |
| `ProgramStore.LongLineLost` | apps/basic/program.c:66-83 | after such a line the buffer packs no record there: it is a program only if nothing followed and nothing was counted, and then the line is gone |
| `Tokens.ShowAndSplit` | apps/basic/tokenizer.c:72-267 | showing a line's items and splitting the text again gives the same items if and only if no stored number is negative |
| `Tokens.Back` | apps/basic/tokenizer.c:72-81 | no keyword arises in the shown text that was not in the source |
| `TokenCode.DecodeCode` | apps/basic/tokenizer.c:206-267 | decoding the code of a line's items gives them back |
| `TokenCode.EnterListEnter` | apps/basic/tokenizer.c:98-267 | entering, listing and entering again stores the same tokens |
| `Tokenizer.MatchKeyword` | apps/basic/tokenizer.c:72-81 | case-insensitive match not followed by a letter or digit |
| `BasicText.KeywordAnyCase` | apps/basic/tokenizer.c:54-81 | keywords are found in any case |
| `BasicText.WordEnds` | apps/basic/tokenizer.c:72-81 | a keyword found is spelled by the text and followed by no letter or digit unless it ends in a dollar sign |
| `Tokenizer.ParseNumber` | apps/basic/tokenizer.c:83-96 | the digits' 32-bit value |
| `Tokenizer.Tokenize` | apps/basic/tokenizer.c:98-179 | the buffer holds the code of the line's items, cut as the buffer demands; fewer bytes than it holds |
| `Tokenizer.IntToStr` | apps/basic/tokenizer.c:189-204 | a number as decimal text |
| `Tokenizer.Detokenize` | apps/basic/tokenizer.c:206-267 | the buffer holds the listing of the decoded items, cut as the buffer demands |
| `BasicText.ListedAsTyped` | apps/basic/tokenizer.c:206-267 | a line typed with capitals, closed strings and plain numbers is listed character for character as typed |
| `SaveLoad.SavedAll` | apps/basic/basic.c:190-208 | all lines are written while those before the last leave room |
| `SaveLoad.SaveThenLoad` | apps/basic/basic.c:179-264 | SAVE then LOAD is the identity on every program of savable lines |
| `BasicText.SavedAsTyped` | apps/basic/basic.c:190-208 | SAVE writes a program so typed as it was typed, each line behind its number and a space and ended by a newline |
| `SaveLoad.LineTextLength` | apps/basic/basic.c:190-208 | one line never takes more than the margin kept free for it |
| `SaveLoad.Save` | apps/basic/basic.c:179-208 | what SAVE hands to the disk |
| `SaveLoad.ParseLineNumber` | apps/basic/basic.c:69-78 | the digits' value in sixteen bits |
| `SaveLoad.Load` | apps/basic/basic.c:231-261 | entering a file line by line |
| `BasicText.LoadedLine` | apps/basic/basic.c:231-261 | a file is entered line by line, empty lines passed over, longer ones in pieces of 158 characters |
| `BasicText.EnteredLine` | apps/basic/basic.c:247-260 | a numbered line is stored under the low sixteen bits of its number, whatever spaces follow it; without text, with number zero or without a number it changes nothing |
| `BasicText.StoredGet` | apps/basic/program.c:62-84 | storing sets its number to the tokens, or to nothing when there is no room for them, and keeps every other number |
| `SaveDisk.SaveCommand` | apps/basic/basic.c:179-213 | SAVE writes exactly the program's text under the name, or reports a missing name or a failed write |
| `SaveDisk.LoadCommand` | apps/basic/basic.c:217-264 | LOAD replaces the program by what the named file says, or leaves it when there is none |
| `SaveDisk.SaveWorkLoad` | apps/basic/basic.c:179-264 | a savable program saved and, after any work on other files, loaded again is the same program, exactly when its name does not look erased |
| `Bresenham.LineEnds` | apps/asteroids/asteroids.c:104-117 | the line starts and ends at its end points |
| `Bresenham.LineSteps` | apps/asteroids/asteroids.c:104-117 | each step moves one pixel along the longer axis and at most one along the other |
| `Bresenham.HalfPixel` | apps/asteroids/asteroids.c:104-117 | every point lies within half a pixel of the ideal line |
| `Bresenham.Canvas.GLine` | apps/asteroids/asteroids.c:104-117 | the error-driven loop ends after exactly as many steps as the longer side and sets exactly the rounded points |
| `Asteroids.RoomForRock` | apps/asteroids/asteroids.c:150-165 | with a total weight of at most 44 there is a free slot |
| `Asteroids.SpeedLimit` | apps/asteroids/asteroids.c:290-298 | thrust and friction keep each speed component within 2520 |
| `Asteroids.SpeedLimitReached` | apps/asteroids/asteroids.c:290-298 | below the limit full thrust still accelerates, at the limit it does not |
| `Asteroids.WrapInside` | apps/asteroids/asteroids.c:143-148 | one wrap brings back anything less than a screen away |
| `Asteroids.Friction` | apps/asteroids/asteroids.c:297-298 | friction takes a sixty-fourth of the speed, rounded down |
| `Asteroids.Circle` | apps/asteroids/asteroids.c:43-76 | the sine and cosine of every angle lie on one circle up to rounding |
| `Asteroids.QuarterRises` | apps/asteroids/asteroids.c:43-52 | over a quarter turn the sine rises, ever less steeply |
| `Asteroids.Turns` | apps/asteroids/asteroids.c:43-76 | angle 0 points right and 64 down, half a turn points back, and opposite angles mirror one another |
| `Asteroids.EveryValueDrawn` | apps/asteroids/asteroids.c:81-83 | every value of a range can be drawn |
| `Asteroids.SeedsApart` | apps/asteroids/asteroids.c:81-83 | no two seeds have the same successor |
| `Bresenham.PixelOrder` | apps/asteroids/asteroids.c:100-102 | pixels follow one another along the lines and line by line |
| `AsteroidsGame.Game.SpawnRock` | apps/asteroids/asteroids.c:150-165 | fills the first free slot with a rock of the size's radius, speed and outline, and nothing else |
| `AsteroidsGame.Game.NewWave` | apps/asteroids/asteroids.c:183-192 | brings its large rocks in the top 61 lines, each worth 520, and one more level |
| `AsteroidsGame.WaveSizes` | apps/asteroids/asteroids.c:183-186 | the first wave brings four rocks, each later one more, up to eleven |
| `AsteroidsGame.Game.HitRock` | apps/asteroids/asteroids.c:216-225 | the rock is gone, two of the next smaller size are in its place unless it was of the smallest, and the score grows by exactly what the remaining rocks lose |
| `AsteroidsGame.Game.FireBullet` | apps/asteroids/asteroids.c:201-214 | the first idle bullet leaves from the nose of the ship |
| `AsteroidsGame.Directions` | apps/asteroids/asteroids.c:201-214 | to each of the four sides a shot leaves sixteen pixels ahead and 2200 faster, and thrust adds 40 |
| `AsteroidsGame.TurnBack` | apps/asteroids/asteroids.c:288-289 | turning left and right cancel |
| `AsteroidsGame.FiresEveryEighth` | apps/asteroids/asteroids.c:294-295 | with the key held down a shot leaves every eighth frame |
| `AsteroidsGame.Game.MoveShip` | apps/asteroids/asteroids.c:297-302 | friction, motion and one wrap keep the ship on the screen and within its speed limit |
| `AsteroidsGame.Game.MoveBullets` | apps/asteroids/asteroids.c:304-310 | every bullet in flight is on the screen after its move |
| `AsteroidsGame.FlightLasts` | apps/asteroids/asteroids.c:304-310 | a bullet that hits nothing flies straight on around the screen for exactly its life |
| `AsteroidsGame.Game.MoveRocks` | apps/asteroids/asteroids.c:312-318 | every rock is on the screen after its move |
| `AsteroidsGame.DriftGoesOn` | apps/asteroids/asteroids.c:312-318 | a rock that is not hit drifts straight on around the screen, turning at its rate |
| `AsteroidsGame.Game.BulletHits` | apps/asteroids/asteroids.c:320-330 | every bullet breaks the first rock in its reach and ends with it; something is scored if and only if some bullet reached some rock, a rock out of reach of all bullets stays as it is, and only a bullet in reach of a rock ends |
| `AsteroidsGame.VolleyScores` | apps/asteroids/asteroids.c:320-330 | the bullets score if and only if one of them reaches a rock at first |
| `AsteroidsGame.VolleySpares` | apps/asteroids/asteroids.c:320-330 | a rock no bullet reaches is spared |
| `AsteroidsGame.VolleyEnds` | apps/asteroids/asteroids.c:320-330 | a bullet that ends has reached one of the rocks there were, for pieces lie inside the rock they come from |
| `AsteroidsGame.ReachAlong` | apps/asteroids/asteroids.c:326-328 | along an axis a bullet reaches a rock exactly when it is nearer than the radius |
| `AsteroidsGame.ReachAround` | apps/asteroids/asteroids.c:326-328 | a bullet at a rock's centre reaches it, one a radius away does not |
| `AsteroidsGame.Game.ShipHits` | apps/asteroids/asteroids.c:333-348 | a rock in touch costs a life, unless the ship just appeared, and the ship is put back or the game ends |
| `AsteroidsGame.TouchAround` | apps/asteroids/asteroids.c:339-341 | along an axis the ship touches a rock exactly when it is nearer than the radius and ten pixels |
| `AsteroidsGame.Game.Frame` | apps/asteroids/asteroids.c:282-348 | a whole frame: keys steer and fire, all things move, rocks in reach break, a touch costs a life, an empty field brings the next wave, and weight, books, speeds and positions are kept |
| `AsteroidsGame.Game.Play` | apps/asteroids/asteroids.c:270-351 | through a whole game under any input, score and remaining worth make up 520 for each rock of the waves up to the level, and the score determines the level |
| `Breakpoints.NextKeeps` | kernel/debug/debugger.c:44-262 | every command and trap, wherever it comes, but a harmful deletion keeps the program and its traps: memory is the loaded program but for traps at active breakpoints, which remember the loaded bytes |
| `Breakpoints.RunTransparent` | kernel/debug/debugger.c:81-84 | throughout every such run `code_byte` shows the loaded program, and memory differs from it by traps at active breakpoints alone |
| `Breakpoints.SessionTransparent` | kernel/debug/debugger.c:238-262 | the same from loading the program on, and clearing all breakpoints at any time restores it |
| `Breakpoints.ResumeArmed` | kernel/debug/debugger.c:191-200 | continuing or stepping keeps every active breakpoint in memory or due to come back if and only if it forgets no waiting one, that is none waits, or it is the one parked on, or the step is from no breakpoint |
| `Breakpoints.SessionArmed` | kernel/debug/debugger.c:223-237 | in every session of such commands all active breakpoints are in memory while the program runs freely |
| `Breakpoints.ResumeForgets` | kernel/debug/debugger.c:191-200 | going on from a breakpoint with another one waiting leaves that one active and out of memory |
| `Breakpoints.StaysForgotten` | kernel/debug/debugger.c:44-84 | it stays out of memory until it is deleted or an int3 of the program's own traps at its address |
| `Breakpoints.ForgottenReached` | kernel/debug/debugger.c:191-237 | a session of eight events that forgets its first breakpoint and then runs freely |
| `Breakpoints.ClearRestores` | kernel/debug/debugger.c:75-78 | clearing all breakpoints restores the loaded program exactly |
| `Breakpoints.StepStops` | kernel/debug/debugger.c:196-237 | a step executes one instruction and stops behind it, and the breakpoint stepped off is back in memory |
| `Breakpoints.GoRuns` | kernel/debug/debugger.c:191-237 | going on from a breakpoint takes one step, puts it back and runs freely; from elsewhere the program runs freely at once |
| `Breakpoints.HitStops` | kernel/debug/debugger.c:223-230 | running onto a breakpoint stops in front of the instruction there with its byte back; onto a trap of the program's own, behind it |
| `Breakpoints.SetThenDelete` | kernel/debug/debugger.c:53-73 | a new breakpoint is a trap in memory and takes a free slot; deleting it undoes that |
| `Breakpoints.DeletedTrapStays` | kernel/debug/debugger.c:67-73 | deleting the breakpoint parked on and continuing leaves a trap that no breakpoint accounts for |
| `Breakpoints.DeletedTrapReached` | kernel/debug/debugger.c:67-73 | a session that sets, hits, deletes and leaves the first breakpoint shows the stray trap |
| `Debugger.Debugger.SetBp` | kernel/debug/debugger.c:53-65 | in place, exactly the setting of a breakpoint |
| `Debugger.Debugger.DelBp` | kernel/debug/debugger.c:67-73 | in place, exactly its deletion |
| `Debugger.Debugger.ClearAllBps` | kernel/debug/debugger.c:75-78 | takes all breakpoints out |
| `Debugger.Debugger.CodeByteAt` | kernel/debug/debugger.c:81-84 | the byte shown at an address |
| `Debugger.Debugger.ContinueCommand` | kernel/debug/debugger.c:191-195 | the `c` command |
| `Debugger.Debugger.StepCommand` | kernel/debug/debugger.c:196-200 | the `s` command |
| `Debugger.Debugger.BpHandler` | kernel/debug/debugger.c:223-230 | parks on a breakpoint |
| `Debugger.Debugger.StepHandler` | kernel/debug/debugger.c:232-237 | puts the breakpoint back and stops or goes on |

## Left out

- Program.ProgramRuns: assumes a stack deep enough for main and the calls it makes; what happens when the stack overflows is not stated.
- CallProof.CallRuns: a kernel that depends on memory outside the program, and the jump out of exit, are not captured.
- ExprCorrect.ExprRuns: covers scalar variables, address-of locals and dword access; array indexing, postfix ++ and --, byte access through char pointers and addresses of global arrays are outside the subset.
- Expressions.Evaluates: covers numeric expressions without RND and PEEK; strings and string functions end the model's reading with a separate outcome.
- ProgramStore.Program.InsertLine: a line of 253 tokens or more within 258 bytes of the buffer's end, where the code writes behind the buffer, is excluded.
- SaveLoad.SaveThenLoad: printable lines that were neither cut on entry nor too wide for a line of the file.
- AsteroidsGame.Game.Frame: drawing, timing and key reading are left out, and the score is not bounded.
- Lexing, preprocessing and declarations of the C compiler: trees are given, so macro expansion and symbol tables are not modelled.
- BASIC statement execution, where GOTO, GOSUB and RETURN do not do what they mean.
- BASIC string values and variables, with their pool.
- Linewise operators, visual selections, paste, replace and case toggling of the editor, and its screen.
- `vga_write_dec`, palettes, fonts read from video memory, text mode and mode setting.
- Rendering in asteroids except its line drawing.
- The debugger's views of registers, memory and stack, its command line, and traps raised while it is inactive or from kernel code.
- Disk and device input and output, interrupts, paging, the page allocator, the shell and the system call dispatcher.
