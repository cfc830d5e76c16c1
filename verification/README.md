# storthc: a verified model

storthc compiles source text to tokens, a syntax tree, a typed tree, an intermediate representation in static
single assignment form, and x86-64 assembly with DWARF line tables. This project models the stages of that path
that carry properties over all inputs and all runs, and proves them. `dafny verify dfyconfig.toml` checks it.

Code that updates state in place is modelled as classes and methods with loops (`SsaBuilder.Builder`,
`Emitter.Writer`, `CallEmitter.Output`, `Parser.Reader`, `Lexer.Cursor`, `Loads.Loader`, `Modules.Context`,
`TypeChecker.TypeTable`, `SyntaxNodes.SyntaxNode`, `Asan.Heap`, and so on), each proved against functions and predicates; the theorems are
about those.

* **SSA construction** (`Cfg`, `Ir`, `Ssa*`): reading and writing variables, blocks that are sealed later, pending
  phis, removal of trivial phis that leaves `repl` chains behind. A read gives the value last written on the run,
  over every rooted graph and every order of calls that the lowering may make; `ArrayZero` makes them for one of its
  loops, and `CountLoop` and `CountRun` follow a function with a loop from the calls of the lowering to the machine's
  answer. The same reads are a function of the tables on any graph (`SsaRead`),
  and `SsaEnds` says when they end. The shadow
  tables (roots of chains, what a block answered, the log of reads and writes) are ghosts. A run is a path with arbitrary results of the
  ordinary instructions.
* **Code generation** (`Word`, `Asm`, `IrSem`, `Codegen`, `CodegenOps`, `Simulation*`, `Emitter`): a machine with
  64-bit registers, flags and a stack of words, an interpreter for the representation, and the simulation between
  them over any number of blocks. `Compose` and `ReadsInside` join it to the construction: source variables to
  machine words, at each read.
* **Calls** (`Passing`, `CallArgs`, `Calling`, `Calls`, `Returns`, `CallEmitter`, `Win64`, `Conventions`): what the code
  before a call places is what the parameter instructions read, under both conventions, and results come back; and
  register by register it is what the conventions ask for.
* **Frames and data** (`Rounding`, `FrameLayout`, `StructData`, `ArgCopy`).
* **DWARF** (`Leb`, `LineProgram`, `DwarfWriter`): the encodings of section 7.6 and the line-number state machine of
  section 6.2 of DWARF 5, and what is emitted for them.
* **Front end** (`Scanner`, `Lexer`, `Lexemes`, `Loads`, `Grammar`, `ParseRight`, `ParseSound`, `ParseCrash`, `Precedence`, `Printer`,
  `Parser`): lexing is exact, `#load` contributes each file once, operators bind as the language says, expression
  parsing and printing undo each other.
* **Graph passes** (`Digraph`, `Search`, `Modules`, `TypeLayout`, `TypeChecker`): one account of depth-first search with
  in-progress marks serves imports and type completion.
* **Compile time** (`Ast`, `LoopValues`, `Unroll`, `UnrollLoop`, `SyntaxNodes`, `PackFolds`): what statements do at run time, with
  scopes, loops in both directions and deferred statements; when a compile-time loop is unrolled without changing its
  meaning; the cloning and overwriting of nodes that does it.
* **Runtime** (`Asan`, `Arena`).

Where the code does less than its design suggests, the project says exactly when it holds, or in one direction where
"Left out" says so:

* A read that reaches the entry block while it is unsealed leaves a phi without operands; variables then do not read
  0 there (`SsaMeaning.StartBlockExact`). The lowering seals the entry first.
* On blocks that no run reaches a read may not end: it calls itself for ever, or two phis are replaced by each other
  and the loops over `repl` go round (`SsaRead.SelfLoopEndless`, `SsaRead.IslandEndless`, `SsaRead.CoastEndless`).
  Rooted graphs exclude it (`SsaBuilder.Builder.ReadVar`), and so does an answer in every circle (`SsaEnds.EveryReadEnds`).
* `~` and `<<` are not cut to their type (`CodegenOps.NotExactly`, `CodegenOps.ShlExactly`).
* Argument k arrives if and only if k is below 256 (`Calls.ArrivesExactly`).
* Finite types are refused as infinite when a circle goes through elements of arrays behind pointers, and only then
  (`TypeChecker.RefusedWrongly`).
* Struct data has the right length exactly when the fields are apart and inside (`StructData.LengthExact`).
* A `#for` whose bounds count down is unrolled to nothing, while the loop would run; with the largest number of the type
  as a bound that is visited the loop would not end (`UnrollLoop.UnrollExactly`). Bodies that defer at their top or
  declare the iterator again change their meaning (`UnrollLoop.DeferMatters`, `UnrollLoop.RebindingMatters`).
* Pushes onto the arena that wrap around in 64 bits overlap earlier regions (`Arena.PushExactly`, `Arena.PushWraps`).
* Expressions that nest 512 deep are refused (`ParseRight.TextAccepted`); when the tokens end there, the report takes
  the line of a token that is not there (`ParseCrash.CrashExactly`).
* Sizes that wrap around are granted too small a block, error codes of the kernel other than -1 are taken for blocks,
  and an allocation made with a full table is unknown to `free` (`Asan.RoomExactly`, `Asan.ErrorTakenForBlock`,
  `Asan.LookupFinds`).

Inputs that come from outside are parameters: the kernel's answers to `mmap`, the files on disk and how names are
resolved to canonical paths, the order in which a hash table is visited, and how floats are rounded.

## Model

| member | source | states |
|---|---|---|
| SsaMeaning.ReadsAreRight | src/middle/st_ir.c:208-323 | Main result. In every finished construction over a rooted graph, on every run from a start block that was not read while unsealed, the slot behind the instruction that a read returned (found through `repl`, a phi taking the operand of the edge just taken) holds the value last assigned to that variable on this run, or 0 if none was, whatever the other instructions deliver and whatever the slots held before |
| SsaMeaning.StartBlockExact | src/middle/st_ir.c:296-314 | Variables read 0 in a block where runs start, for every initial content of the slots, if and only if no read reached the block while it was unsealed; otherwise a phi without operands is left |
| SsaMeaning.AlreadyExecuted | src/middle/st_ir.c:283-323 | What a read or an assignment stands for has been executed by then: an instruction of the same block that is not a phi is older |
| SsaMeaning.ReadValueIsKept | src/middle/st_ir.c:316-323 | A value read in a block may be used in every block it dominates: its slot is not written again before the run comes back |
| SsaMeaning.OneOperandPerPredecessor | src/middle/st_ir.c:226-243 | After the construction every phi has exactly one operand for each predecessor, in order, and operand j is what predecessor j answers for its variable |
| SsaMeaning.OperandsKeepMeaning | src/middle/st_ir.c:119-224 | Rewriting some uses and leaving those of loads, stores and addresses to `repl` makes no difference: on every run an operand has the slot value of the instruction given at creation |
| SsaRemove.NoReplCycle | src/middle/st_ir.c:208-224 | Removing a trivial phi never closes a `repl` cycle, because a first visit of its block exists; this is what makes the chasing loops end |
| SsaRemove.RemoveKeeps | src/middle/st_ir.c:104-224 | Replacing and unlinking a trivial phi keeps the whole invariant: answers, chains, lists, operands of the other phis |
| SsaRead.IslandRead | src/middle/st_ir.c:208-323 | Reading as a function of the tables on any graph: on two blocks that only jump to each other, with both arms of a branch, the read ends and leaves two phis that are replaced by each other |
| SsaRead.IslandEndless | src/middle/st_ir.c:208-323 | Why the graph must be rooted: after that first read no later one there ends, whatever the fuel |
| SsaRead.CoastEndless | src/middle/st_ir.c:208-323 | A read in a third block, which asks such a block twice, does not end at all, although no cycle is without a block of two predecessors |
| SsaRead.SelfLoopEndless | src/middle/st_ir.c:296-314 | A sealed block that is its own only predecessor: the read calls itself for ever |
| SsaEnds.EveryReadEnds | src/middle/st_ir.c:208-323 | On any graph, rooted or not: if some block of every circle has an answer for the variable or is not sealed, every read of it ends and so do all later ones, with all chains of `repl` ending |
| SsaEnds.ReadEnds | src/middle/st_ir.c:208-323 | The same by the numbers of the blocks, with the phis in the making kept out of every answer and every replacement |
| SsaRead.TriangleEnds | src/middle/st_ir.c:208-323 | Not every other graph does harm either: on three blocks that each jump to both others a read ends, and so does every later one |
| SsaRead.ReadMore | src/middle/st_ir.c:296-323 | Fuel only bounds the depth: with more of it a read that ended ends in the same way |
| SsaRead.OtherExact | src/middle/st_ir.c:208-224 | The loop over the operands finds one other instruction exactly when there is one and no second |
| SsaRead.ReadTyped | src/middle/st_ir.c:296-323 | A read for a variable with its type answers with an instruction of that type, and all operands of phis and all replacements keep the types of their variables |
| Cfg.OnlyPredecessorIsCloser | src/middle/st_ir.c:302-303 | The measure for the recursion that leaves no marker: the only predecessor of a block is closer to where runs start |
| SsaInv.Available | src/middle/st_ir.c:119-323 | On every run the instruction behind every instruction and every variable of the current block has been passed: definitions reach uses through all removals |
| SsaInv.ReplacedFromElsewhere | src/middle/st_ir.c:208-224 | An instruction is never replaced by one of its own block |
| SsaInv.RemovedPhiOperand | src/middle/st_ir.c:208-224 | A removed phi still stands for what every predecessor of its block answers |
| SsaEmit.EmitKeeps | src/middle/st_ir.c:272-294 | A new instruction keeps the invariant and everything known |
| SsaEmit.EmitPhiKeeps | src/middle/st_ir.c:296-311 | A new phi, pending in an unsealed block and open in a sealed one with several predecessors, keeps the invariant |
| SsaEmit.AddOperandKeeps | src/middle/st_ir.c:226-232 | The next operand of an open phi keeps the invariant when it is the answer of the next predecessor |
| SsaEmit.CacheKeeps | src/middle/st_ir.c:268-270 | Remembering what was found for a variable makes it the block's answer and changes no other |
| SsaEmit.RecacheKeeps | src/middle/st_ir.c:296-314 | Remembering an answer again, also after its phi was removed meanwhile, leaves what it stands for |
| SsaLowering.WriteKeeps | src/middle/st_ir.c:268-270 | An assignment in a block that nothing jumps from yet keeps the invariant when every run has computed its value there |
| SsaLowering.AddEdgeKeeps | src/middle/st_ir.c:245-247 | A new edge into an unsealed block keeps the invariant |
| SsaLowering.SealFlagKeeps | src/middle/st_ir.c:235-243 | Sealing a block whose predecessors are complete keeps the invariant; its pending phis become open |
| SsaLowering.SetTermKeeps | src/middle/st_ir.c:484-520 | A terminator with operands in range keeps the invariant |
| SsaBuilder.Builder.constructor | src/middle/st_ir.c:13-28 | An empty function starts out right for every rooted graph |
| SsaBuilder.Builder.Chase | src/backend/st_nasm_x86_64_linux.c:60-64 | The loop over `repl` ends, at an instruction that was not removed, the root of the chain |
| SsaBuilder.Builder.ReplaceAllUses | src/middle/st_ir.c:119-206 | The pass over all lists and terminators rewrites exactly the operands of the kinds it knows |
| SsaBuilder.Builder.RewriteBlock | src/middle/st_ir.c:119-206 | Its inner loop along one list |
| SsaBuilder.Builder.InstRemove | src/middle/st_ir.c:104-117 | The instruction leaves its list and is marked; nothing else changes |
| SsaBuilder.Builder.TryRemovalTrivialPhi | src/middle/st_ir.c:208-224 | A complete phi is replaced exactly when all its operands are itself or one other instruction, and by that one; otherwise nothing changes |
| SsaBuilder.Builder.FindOther | src/middle/st_ir.c:208-219 | The loop over its operands, which gives up at the second other one |
| SsaBuilder.Builder.ReadVar | src/middle/st_ir.c:316-323 | It ends on every rooted graph, keeps everything, returns an instruction that stands for the block's answer, and is the function `SsaRead.Read` of the tables |
| SsaBuilder.Builder.ReadVarRec | src/middle/st_ir.c:296-314 | The same for the recursive case: by blocks without an answer, then by distance to a start block |
| SsaBuilder.Builder.ReadForward | src/middle/st_ir.c:302-303 | Its branch with one predecessor |
| SsaBuilder.Builder.ReadPhi | src/middle/st_ir.c:306-312 | Its branch with several, where the phi is remembered before and after its operands are read |
| SsaBuilder.Builder.AddPhiOperands | src/middle/st_ir.c:226-233 | The phi gets the answers of all predecessors in order, and goes if it is trivial |
| SsaBuilder.Builder.AddOneOperand | src/middle/st_ir.c:226-232 | One round of that loop |
| SsaBuilder.Builder.EmitInst | src/middle/st_ir.c:283-294 | An instruction is appended, with the next number |
| SsaBuilder.Builder.EmitPhiFor | src/middle/st_ir.c:296-311 | A phi is made and remembered before its operands are looked for |
| SsaBuilder.Builder.Remember | src/middle/st_ir.c:268-270 | What was found is remembered for the block |
| SsaBuilder.Builder.BlockNew | src/middle/st_ir.c:94-102 | A new block: no predecessors, not sealed |
| SsaBuilder.Builder.Append | src/middle/st_ir.c:272-294 | An instruction of the program: the state stays right and terminators, edges and seals as they are |
| SsaBuilder.Builder.Assign | src/middle/st_ir.c:268-270 | An assignment of the program is recorded as the last one of its block |
| SsaBuilder.Builder.Use | src/middle/st_ir.c:316-323 | A read of the program is recorded; instructions, edges, seals, the targets of terminators and which blocks have one stay, and the answer has the type of the variable |
| SsaBuilder.Builder.Edge | src/middle/st_ir.c:245-247 | One predecessor more |
| SsaBuilder.Builder.TermBr | src/middle/st_ir.c:494-501 | The terminator and its edge |
| SsaBuilder.Builder.TermCondBr | src/middle/st_ir.c:503-514 | Both edges are added, also when both lead to the same block |
| SsaBuilder.Builder.TermEnd | src/middle/st_ir.c:484-520 | A terminator without edges |
| SsaBuilder.Builder.Seal | src/middle/st_ir.c:235-243 | All pending phis of the block get their operands; only this block becomes sealed, no block gains or loses a terminator, and the new tables are the function `SsaRead.Seal` of the old ones |
| SsaBuilder.Builder.CompletePhis | src/middle/st_ir.c:235-243 | Its loop over the pending phis |
| ArrayZero.LowerArrayZero | src/middle/st_lower.c:612-660 | A loop as the lowering builds it, its head read before it is sealed: every call is allowed where it is made, and what remains is known of every block |
| ArrayZero.OneElement | src/middle/st_lower.c:648-654 | Its body: reads, instructions and the assignment to the counter |
| ArrayZero.ZeroFunction | src/middle/st_lower.c:612-660 | A whole function with that loop: its construction ends complete; of its run nothing is said, because addresses and stores have no value in the interpreter |
| CountLoop.CountFunction | src/middle/st_lower.c:3014-3049 | A function over integers whose `while` loop counts: the calls of the lowering, in its order, end complete, with exactly these instructions and blocks |
| CountLoop.SealHead | src/middle/st_ir.c:226-243 | Sealing the head of the loop gives its phi the first value and the next one |
| CountRun.Counts | src/middle/st_ir.c:226-323 | Its run in the interpreter goes through the loop and returns the number counted to, for every bound of the type |
| CountRun.MachineCounts | src/backend/st_nasm_x86_64_linux.c:463-1149 | The machine that runs the code generated for the function that was built returns to its caller with that number in rax |
| SimulationRun.FunctionRight | src/backend/st_nasm_x86_64_linux.c:463-1149 | Main result. After any number of blocks the machine started at the function gets to where the interpreted function is, with every computed value in its slot; when it has returned, the machine is at the return address with the results in rax and rdx, rsp and rbp given back, and the caller's memory as before |
| SimulationRun.RunRight | src/backend/st_nasm_x86_64_linux.c:463-1038 | The same from behind the prologue, by induction on the number of blocks |
| SimulationRun.BlockRight | src/backend/st_nasm_x86_64_linux.c:463-1038 | One block: its instructions, its terminator, the copies of the edge taken |
| SimulationRun.TermRight | src/backend/st_nasm_x86_64_linux.c:970-1038 | A terminator leads to the block, or back to the caller, where the interpreted one leads |
| SimulationRun.CondBrTaken | src/backend/st_nasm_x86_64_linux.c:1017-1033 | A condition that is not 0: the copies of the true edge run, and only those |
| SimulationRun.CondBrToEdge | src/backend/st_nasm_x86_64_linux.c:1017-1033 | A condition that is 0, with phis in the target: the copies behind the edge label run, and only those |
| SimulationRun.CondBrDirect | src/backend/st_nasm_x86_64_linux.c:1017-1033 | A condition that is 0, without phis in the target: straight to the target |
| SimulationRun.RetRight | src/backend/st_nasm_x86_64_linux.c:970-1006 | Results in rax and rdx, and the frame is left |
| SimulationRun.PrologueRight | src/backend/st_nasm_x86_64_linux.c:1098-1149 | rbp is saved and the frame made; the caller's memory is untouched |
| SimulationRun.EdgePlace | src/backend/st_nasm_x86_64_linux.c:1017-1033 | The edge label of a conditional branch is found where the copies of its false edge begin |
| Simulation.InstRight | src/backend/st_nasm_x86_64_linux.c:463-705 | One instruction: if the interpreter has a result, the code has it in the slot of the instruction, and no other word at or above the frame's values changes |
| Simulation.InstsRight | src/backend/st_nasm_x86_64_linux.c:463-705 | A whole list of instructions |
| Simulation.EdgeRight | src/backend/st_nasm_x86_64_linux.c:933-968 | Phi edges are parallel assignments: after the copies every phi of the target has what its operand held before any phi was written, rsp is where it was, and the rest of the frame is untouched |
| Simulation.CopiesMove | src/backend/st_nasm_x86_64_linux.c:941-961 | Pushing forwards and popping backwards moves all words at once, whatever the overlap of sources and targets |
| CodegenOps.WorkRight | src/backend/st_nasm_x86_64_linux.c:463-705 | All modelled operations at widths 8 to 64: operands in rax and rcx, the value extended from its width in rax |
| CodegenOps.TruncateRight | src/backend/st_nasm_x86_64_linux.c:415-425 | Cutting to the type gives the wrapped value from any word with the right low bits |
| CodegenOps.NarrowRight | src/backend/st_nasm_x86_64_linux.c:66-85 | The moves of a cast do the same |
| CodegenOps.DivisionRight | src/backend/st_nasm_x86_64_linux.c:498-546 | Signed and unsigned quotients and remainders, rounding toward zero; division by zero and the one overflow at 64 bits are excluded |
| CodegenOps.NarrowMinimum | src/backend/st_nasm_x86_64_linux.c:498-504 | At widths below 64 the minimum divided by -1 does not fault |
| CodegenOps.BitwiseRight | src/backend/st_nasm_x86_64_linux.c:579-593 | and, or, xor need no cutting: they compute the two's complement operation within the type |
| CodegenOps.FlagsRight | src/backend/st_nasm_x86_64_linux.c:427-433 | Every condition code after a comparison tells how the values of the type compare |
| CodegenOps.CmpRight | src/backend/st_nasm_x86_64_linux.c:427-433 | The comparison sequence leaves 0 or 1 |
| CodegenOps.NotExactly | src/backend/st_nasm_x86_64_linux.c:609-612 | `~` is not cut to its type: the slot is right if and only if the result fits, that is for signed types and for 64 bits |
| CodegenOps.ShlExactly | src/backend/st_nasm_x86_64_linux.c:594-598 | `<<` is not cut either: right if and only if the shifted value fits the type |
| CodegenOps.ShiftRight | src/backend/st_nasm_x86_64_linux.c:594-608 | The shifts are right wherever the interpreter gives them a value |
| CodegenOps.FitsExactly | src/backend/st_nasm_x86_64_linux.c:415-425 | A 64-bit result needs no cutting exactly when it fits |
| CodegenOps.ValueInRange | src/backend/st_nasm_x86_64_linux.c:463-705 | Every modelled value is in the range of its type |
| Word.WordBitsRight | src/backend/st_nasm_x86_64_linux.c:579-593 | Bitwise operations on words compute those on integers of unbounded width |
| Emitter.Writer.Slot | src/backend/st_nasm_x86_64_linux.c:60-64 | The loop over `repl` finds the slot of the root |
| Emitter.Writer.GenerateInst | src/backend/st_nasm_x86_64_linux.c:463-705 | The emitted instruction code: operands, operation, slot |
| Emitter.Writer.Operation | src/backend/st_nasm_x86_64_linux.c:463-705 | The instructions between the operands and the slot, by the kind of operation |
| Emitter.Writer.BinOperation | src/backend/st_nasm_x86_64_linux.c:476-608 | Those of the arithmetic and bitwise operations |
| Emitter.Writer.Divide | src/backend/st_nasm_x86_64_linux.c:498-546 | Quotient or remainder, signed or not |
| Emitter.Writer.TruncateInt | src/backend/st_nasm_x86_64_linux.c:415-425 | Cutting to the type, by its width |
| Emitter.Writer.IntNarrow | src/backend/st_nasm_x86_64_linux.c:66-85 | The moves of a cast |
| Emitter.Writer.GeneratePhiCopies | src/backend/st_nasm_x86_64_linux.c:941-961 | Both loops: the copies of an edge |
| Emitter.Writer.PushIncoming | src/backend/st_nasm_x86_64_linux.c:941-951 | The first one, forwards |
| Emitter.Writer.PopPhis | src/backend/st_nasm_x86_64_linux.c:952-961 | The second one, backwards |
| Emitter.Writer.EdgeHasPhi | src/backend/st_nasm_x86_64_linux.c:963-968 | True exactly when the target has a phi |
| Emitter.Writer.GenerateTerm | src/backend/st_nasm_x86_64_linux.c:970-1038 | The emitted terminator code |
| Emitter.Writer.GenerateFn | src/backend/st_nasm_x86_64_linux.c:1098-1149 | Prologue and blocks in order: the code that the simulation is about |
| Compose.SourceToMachine | src/backend/st_nasm_x86_64_linux.c:60-64 | From source variables to machine words: when the compiled function stands at the start of a block, the word that the slot of the block's answer for a variable addresses is the value last assigned to that variable on the run so far |
| ReadsInside.ReadToMachine | src/backend/st_nasm_x86_64_linux.c:60-64 | The same at each read inside a block, the entry block included: when the instructions made before the read have run, the word that the slot of its answer addresses is the value last assigned to the variable, or 0 |
| ReadsInside.ReadKnown | src/middle/st_ir.c:283-323 | What a read stands for has a value in the interpreter by then, and it is that of the slot |
| ReadsInside.PrefixRight | src/backend/st_nasm_x86_64_linux.c:463-705 | The code of the first instructions of a block leads to where their values are in their slots |
| Compose.BuiltIsWellFormed | src/middle/st_ir.c:208-323 | A finished construction whose entry was not read while unsealed meets all that the code generator needs |
| Compose.BuiltIsTyped | src/middle/st_ir.c:226-232 | The operands of its phis have the types of the phis, because the variables have types |
| Compose.Agrees | src/middle/st_ir.c:296-323 | The interpreter of the code generator and the slots of the construction agree at every block of every run |
| Compose.StepIsEdge | src/middle/st_ir.c:494-514 | Steps of the interpreter follow edges of the graph |
| Conventions.CallerKeepsAbi | src/backend/st_nasm_x86_64_linux.c:336-413 | What a function in any language finds at the call, as section 3.2.3 of the psABI has it: of the first 256 arguments, integer number j is in the register number h + j of rdi, rsi, rdx, rcx, r8, r9 (h is 1 if rdi holds the address of the result buffer), float number j below 8 in xmm j, and every other one in the word at rsp of its rank among the rest; al holds the number of float registers used, and rsp is a multiple of 16 under exactly those words, rounded up |
| Conventions.CalleeKeepsAbi | src/backend/st_nasm_x86_64_linux.c:707-735 | Whoever calls: from exactly these registers and words the parameters of a function get their values, and the hidden pointer is taken from rdi; all slots lie above rsp, which is a multiple of 16 again |
| Conventions.ResultsLeft | src/backend/st_nasm_x86_64_linux.c:973-1006 | The first result is left in rax or xmm0 and the second in rdx or xmm1, by position; more than two lie behind the hidden pointer, which rax then holds |
| Conventions.ResultsTaken | src/backend/st_nasm_x86_64_linux.c:737-787 | One or two results are taken from these registers, singles widened, and more from the buffer |
| Conventions.CallerKeepsWin64 | src/backend/st_nasm_x64_win32.c:239-280 | The Win64 convention: position k + h alone decides; rcx, rdx, r8, r9 or xmm0 to xmm3, a float in both, and the words from 32 bytes above rsp for all later positions; rcx has the address of the result buffer |
| Calls.SysVAgrees | src/backend/st_nasm_x86_64_linux.c:336-413 | For every signature and every state with enough stack: rsp is a multiple of 16 at the call, and when the callee has read its parameters each of the first 256 has the value of its argument, the hidden pointer has arrived, and the caller's frame is untouched; through which registers, `Conventions` says |
| Calls.BeforeCallRight | src/backend/st_nasm_x86_64_linux.c:737-787 | At the call every argument is in its place, the hidden pointer in rdi, the number of float registers in al, and rsp a multiple of 16 |
| Calls.ArrivesExactly | src/backend/st_nasm_x86_64_linux.c:336-413 | Parameter k gets the value of argument k in every call that has enough stack if and only if k is below 256 |
| Calls.LaterIgnored | src/backend/st_nasm_x86_64_linux.c:336-413 | The code of a call does not depend on where arguments beyond the first 256 are |
| Calling.ArgumentsArrive | src/backend/st_nasm_x86_64_linux.c:707-735 | For either convention: what stands ready at the call is what the parameter instructions read; no place is overwritten before it is read |
| Calling.EntryRight | src/backend/st_nasm_x86_64_linux.c:1040-1149 | The callee's frame is set up and the hidden pointer saved |
| CallArgs.SysVOk | src/backend/st_nasm_x86_64_linux.c:336-413 | No two arguments of the System V plan share a place, and none is in the hidden pointer's or a scratch register; which places they are, `Conventions.CallerKeepsAbi` says |
| CallArgs.PlacesOfPrefix | src/backend/st_nasm_x86_64_linux.c:336-413 | Where an argument goes does not depend on the later ones |
| CallArgs.PlacesApart | src/backend/st_nasm_x86_64_linux.c:336-413 | Two arguments never travel in the same place |
| Passing.PassAllRight | src/backend/st_nasm_x86_64_linux.c:336-413 | Both passes: every argument reaches its place and stays there while the later ones are placed |
| Passing.StackPassRight | src/backend/st_nasm_x86_64_linux.c:336-413 | The pass over the stack arguments, with the floats narrowed |
| Passing.RegPassRight | src/backend/st_nasm_x86_64_linux.c:336-413 | The pass over the register arguments: a register once loaded keeps its argument |
| Passing.ParamsRight | src/backend/st_nasm_x86_64_linux.c:707-735 | Reading all parameters in order puts each into its slot, although xmm0 serves as scratch |
| Passing.ParamRight | src/backend/st_nasm_x86_64_linux.c:707-735 | One parameter, with a single widened to a double |
| Returns.ResultsReturn | src/backend/st_nasm_x86_64_linux.c:970-1006 | The callee's `ret` goes back to the call; then the caller's rsp and frame are as before and every result of a scalar list of any length is where the caller reads it |
| Returns.RetFewRight | src/backend/st_nasm_x86_64_linux.c:970-1006 | Up to two results go to rax and rdx, or xmm0 and xmm1 |
| Returns.RetManyRight | src/backend/st_nasm_x86_64_linux.c:970-1006 | More than two results go through the hidden pointer |
| Returns.ReadBackRight | src/backend/st_nasm_x86_64_linux.c:737-787 | What the caller does with the result registers after the call |
| CallEmitter.Output.Classify | src/backend/st_nasm_x86_64_linux.c:342-371 | The first loop finds exactly the arguments for which no register is left |
| CallEmitter.Output.StackArgs | src/backend/st_nasm_x86_64_linux.c:373-393 | The second loop emits the stack arguments, each with its word |
| CallEmitter.Output.RegArgs | src/backend/st_nasm_x86_64_linux.c:395-412 | The third loop emits the register arguments |
| CallEmitter.Output.EmitCallArgs | src/backend/st_nasm_x86_64_linux.c:336-413 | All three: the code that `Conventions.CallerKeepsAbi` is about, the size of the stack area and the count for al |
| CallEmitter.Output.EmitBefore | src/backend/st_nasm_x86_64_linux.c:737-747 | All that stands before the call instruction: the hidden pointer, the arguments, and al |
| CallEmitter.ParamReader.GenerateParam | src/backend/st_nasm_x86_64_linux.c:707-735 | The three counters of the callee give the next parameter the place that the plan of the caller gives it |
| CallEmitter.ParamReader.GenerateParams | src/backend/st_nasm_x86_64_linux.c:707-735 | The same for a whole signature |
| Win64.WinAgrees | src/backend/st_nasm_x64_win32.c:239-280 | For every signature on Win64, with or without a hidden pointer: alignment at the call, all of the first 256 arguments arrive, the caller's frame is untouched |
| Win64.WinBeforeRight | src/backend/st_nasm_x64_win32.c:239-280 | At the call the arguments are where the positions say, floats also in the integer register |
| Win64.WinPlanOk | src/backend/st_nasm_x64_win32.c:239-280 | The positional plan has no conflicts |
| Win64.Output.EmitCallArgs | src/backend/st_nasm_x64_win32.c:239-280 | The loops emit the code of the positional plan |
| Win64.Output.StackArgs | src/backend/st_nasm_x64_win32.c:239-280 | The stack arguments, behind the shadow space |
| Win64.Output.RegArgs | src/backend/st_nasm_x64_win32.c:239-280 | The register arguments |
| FrameLayout.Frame.Layout | src/backend/st_nasm_x86_64_linux.c:1040-1111 | For every function: values, hidden pointer, variables and return buffers are pairwise disjoint and inside the frame, which is a multiple of 16; a variable is aligned when its size is a multiple of its power-of-two alignment |
| FrameLayout.PlacedSound | src/backend/st_nasm_x86_64_linux.c:1040-1078 | What the loop has placed stays disjoint |
| FrameLayout.AllocaRoom | src/middle/st_ir.c:420-433 | A variable is large enough for its type and for the eight bytes of a widened store |
| FrameLayout.AllocaAligned | src/middle/st_ir.c:420-433 | The rounded size is a multiple of the alignment exactly when the type is not empty or wants at most 8 |
| Rounding.RoundUpBounds | src/frontend/st_semantic.c:1831-1835 | For every alignment, a power of two or not, rounding up never falls below and rises by less than the alignment |
| Rounding.RoundUpAligned | src/frontend/st_semantic.c:1831-1835 | For powers of two it is the next multiple |
| ArgCopy.EmitCopy | src/backend/st_nasm_x86_64_linux.c:310-334 | In every memory with both places apart the emitted moves bring exactly the bytes [0, size) over and change nothing else |
| StructData.Output.StructGlobal | src/backend/st_nasm_x86_64_linux.c:197-230 | For up to 256 sized initialisers in any order: if they are apart and inside, the data is the image of the struct; and if the data has the right length, they were apart and inside |
| StructData.Output.WriteFields | src/backend/st_nasm_x86_64_linux.c:213-229 | The loop with the cursor |
| StructData.LengthExact | src/backend/st_nasm_x86_64_linux.c:213-229 | Too many bytes are written exactly when two fields overlap or one sticks out |
| StructData.FitIsApart | src/backend/st_nasm_x86_64_linux.c:213-229 | Of sorted fields, neighbours apart means all apart |
| StructData.Sort | src/backend/st_nasm_x86_64_linux.c:198-212 | The selection sort orders the array in place and keeps its elements |
| StructData.Smallest | src/backend/st_nasm_x86_64_linux.c:203-206 | Its inner loop |
| StructData.WrittenIsImage | src/backend/st_nasm_x86_64_linux.c:213-229 | Padding and fields make the image |
| StructData.ImageUnique | src/backend/st_nasm_x86_64_linux.c:197-230 | There is only one image, so the order of the initialisers does not matter |
| StructData.FieldHolds | src/backend/st_nasm_x64_win32.c:114-142 | In the image, the bytes of each field read lowest first are its integer, the bits of its float or the address of its function, modulo the size of the field |
| LineProgram.LineTableRight | src/backend/st_dwarf.c:486-529 | Run by the state machine of section 6.2 of DWARF 5, the emitted program gives exactly the table: for each function its declaration, its own rows in order with file and line, then the end of its sequence |
| LineProgram.FnDone | src/backend/st_dwarf.c:486-529 | One function, from any registers |
| LineProgram.AfterIsLast | src/backend/st_dwarf.c:486-529 | The file and line carried through the loop are those of the function's last row |
| Leb.UlebRoundTrip | src/backend/st_dwarf.c:303-317 | Decoding what is written gives back every number, followed by anything |
| Leb.SlebRoundTrip | src/backend/st_dwarf.c:319-337 | The same for signed numbers |
| Leb.TenBytes | src/backend/st_dwarf.c:303-337 | 64-bit numbers take at most ten bytes |
| Leb.UlebShortest | src/backend/st_dwarf.c:303-317 | No encoding of a number is shorter |
| Leb.SlebShortest | src/backend/st_dwarf.c:319-337 | No signed encoding is shorter |
| DwarfWriter.SlebLen | src/backend/st_dwarf.c:261-273 | The length loop counts exactly the bytes that are written |
| DwarfWriter.Output.WriteUleb | src/backend/st_dwarf.c:303-317 | The loop writes the encoding |
| DwarfWriter.Output.WriteSleb | src/backend/st_dwarf.c:319-337 | The loop writes the signed encoding |
| DwarfWriter.Output.WriteFbregLoc | src/backend/st_dwarf.c:275-280 | The block of a frame offset |
| DwarfWriter.FrameLocationRight | src/backend/st_dwarf.c:275-280 | Its length covers the operation and its operand and nothing else, and the operand is the offset |
| DwarfWriter.Output.WriteRows | src/backend/st_dwarf.c:503-520 | The row loop with the line and file it carries |
| DwarfWriter.Output.WriteFn | src/backend/st_dwarf.c:486-529 | One function |
| DwarfWriter.Output.WriteProgram | src/backend/st_dwarf.c:486-529 | The whole line program |
| DwarfWriter.FileTable.Reserve | src/backend/st_dwarf.c:29-38 | Growing keeps the names |
| DwarfWriter.FileTable.Intern | src/backend/st_dwarf.c:293-301 | The same index for the same name, the first one, and no name twice |
| Lexer.Lex | src/frontend/st_lexer.c:624-638 | Main result. It succeeds if and only if the source can be cut into tokens, blanks and comments; then the token texts and what lies between them are exactly the source, and the tokens are those of the only way to cut it |
| Lexer.LexPrinted | src/frontend/st_lexer.c:624-669 | Every string, printed with escapes between quotes, is lexed to exactly one token, and it is that string |
| Lexer.Cursor.Next | src/frontend/st_lexer.c:557-608 | Each step advances, returns a token that the grammar has at the line and column of its first byte, and stops only at the end |
| Lexer.Cursor.Advance | src/frontend/st_lexer.c:76-88 | Line and column are always those of the cursor |
| Lexer.Cursor.SkipBlockComment | src/frontend/st_lexer.c:210-235 | It stops behind the comment that begins here, or reports that it does not end |
| Lexer.Cursor.Escape | src/frontend/st_lexer.c:237-282 | The byte that the escape stands for |
| Lexer.Cursor.String | src/frontend/st_lexer.c:284-315 | A value exactly when the literal is right, and which |
| Lexer.Cursor.Char | src/frontend/st_lexer.c:317-356 | The same for a character |
| Lexer.Cursor.Number | src/frontend/st_lexer.c:358-476 | Accepted exactly when the grammar has a number here that no letter follows |
| Lexer.Cursor.DocComment | src/frontend/st_lexer.c:496-513 | The text of a doc comment and its body without the slashes and one space |
| Lexer.Cursor.SymbolToken | src/frontend/st_lexer.c:515-555 | Accepted exactly when a symbol stands here |
| Scanner.TilesUnique | src/frontend/st_lexer.c:557-608 | A source has at most one tiling: tokens are unambiguous and maximal |
| Scanner.NoTiling | src/frontend/st_lexer.c:557-608 | Where the lexer reports an error, no tiling gets past |
| Scanner.KindOf | src/frontend/st_lexer.c:557-608 | How a part begins tells its kind |
| Scanner.SymbolLongest | src/frontend/st_lexer.c:20-26 | A symbol that is not a `#name` is the longest entry of the tables that stands there |
| Scanner.BlockExact | src/frontend/st_lexer.c:210-235 | Skipping ends exactly behind the one properly nested comment that begins here |
| Scanner.EscapeRoundTrip | src/frontend/st_lexer.c:640-669 | For every string, reading a quote, the printed bytes and a quote gives the string back and uses up the text |
| Lexemes.EscapeExactly | src/frontend/st_lexer.c:237-282 | What stands behind a backslash, in both directions: n t r 0 e, a backslash or either quote, each for its byte, or x and two hexadecimal digits in either case for theirs; nothing else |
| Lexemes.PositionRight | src/frontend/st_lexer.c:76-89 | Lines count the newlines before a position, and columns the bytes since the last one, both from 1 |
| Lexemes.SymbolTable | src/frontend/st_lexer.c:20-26 | The symbols of the language |
| Lexemes.IntegerForm | src/frontend/st_lexer.c:413-455 | Digits and underscores are one number when fewer than 127 bytes long |
| Lexemes.FractionForm | src/frontend/st_lexer.c:413-430 | So are they with a point and digits on both sides |
| Lexemes.ExponentForm | src/frontend/st_lexer.c:430-455 | Or with e or E, perhaps a sign, and digits |
| Lexemes.RadixForm | src/frontend/st_lexer.c:364-412 | Or behind 0x, 0b and 0o, in either case, with digits of that base |
| Scanner.QuotedIsOneToken | src/frontend/st_lexer.c:557-669 | A printed string between quotes has a tiling, and every tiling of it has that one token |
| Scanner.TilesAreSource | src/frontend/st_lexer.c:624-638 | The texts of a tiling make up the source |
| Loads.LoadFile | src/frontend/st_load.c:96-103 | It succeeds if and only if every file that the entry leads to can be read, lexed and parsed into items; then exactly those contribute, each its own tokens once and in order, and what a file loads stands before everything behind the `#load`, unless it leads back to that file |
| Loads.Loader.Expand | src/frontend/st_load.c:40-94 | One file, loaded now or before, in whatever circle: it ends, because fewer files are left |
| Loads.Loader.Walk | src/frontend/st_load.c:71-93 | The loop over the tokens of a file |
| Loads.LoadSpelled | src/frontend/st_load.c:71-93 | `#load` and a string are one item, with one semicolon behind them or without |
| Loads.OtherSpelled | src/frontend/st_load.c:71-93 | Every other token is an item of its own, and `#load` without a string an error |
| Loads.DoneStays | src/frontend/st_load.c:40-94 | What a file has contributed stays complete and in place while others are expanded |
| Precedence.ChainParsed | src/frontend/st_parser.c:950-1116 | Which operators bind tighter, without the table: any chain of operands (with prefix operators and members) joined by operators of the ten groups is parsed to its end, and the root of its tree is the last of its loosest operators, and so on down; the words for or, and and not become their symbols; members bind tighter than prefix operators and those tighter than all others |
| Precedence.TwoOperators | src/frontend/st_parser.c:977-982 | For all atoms and operators: a p b q c is a p (b q c) if q is of a later group than p, and (a p b) q c otherwise |
| Precedence.FoldExactly | src/frontend/st_parser.c:984-995 | `( pack op ... )` is a fold if and only if op is a symbol of the ten groups |
| Precedence.GroupIsLevel | src/frontend/st_parser.c:977-982 | The rows of the table are these groups, and the prefix operators are - ! not ~ * & |
| ParseRight.TextAccepted | src/frontend/st_parser.c:905-1130 | Every text of the grammar, whose levels are the groups of `Precedence`, is parsed to its tree and to its end, if and only if its parentheses and brackets nest fewer than 512 deep; deeper ones are refused |
| ParseSound.OnlyTexts | src/frontend/st_parser.c:905-1130 | Whatever is accepted is a text of the grammar, and the answer is its tree |
| ParseSound.Unambiguous | src/frontend/st_parser.c:977-982 | The ten-level table is unambiguous: texts with the same tokens mean the same tree |
| Printer.ParseOfPrint | src/frontend/st_parser.c:905-1130 | Parsing undoes printing with as few parentheses as possible, for every tree and whatever follows that does not carry the expression on |
| Printer.PrintOfParse | src/frontend/st_parser.c:905-1130 | Printing undoes parsing on texts without spare parentheses |
| Printer.PrintInjective | src/frontend/st_parser.c:1094-1116 | Two trees that print alike are the same |
| Printer.LeanIsRendered | src/frontend/st_parser.c:1094-1116 | There is only one text without spare parentheses for a tree |
| Grammar.TableLevels | src/frontend/st_parser.c:977-982 | No operator is on two levels of the table, which are those of `Precedence.GroupIsLevel` |
| ParseRight.NotAFold | src/frontend/st_parser.c:876-899 | The look-ahead for a fold never fires on an expression in parentheses |
| Parser.Reader.MatchBinop | src/frontend/st_parser.c:997-1008 | The walk through a row finds exactly the operators of that group |
| Parser.Reader.ParseExpr | src/frontend/st_parser.c:1120-1130 | The cursor, the depth and the flag are left as the grammar says; at depth 512 without a token left the original takes the line of no token, which is an answer of its own |
| ParseCrash.CrashExactly | src/frontend/st_parser.c:905-1130 | Which inputs get there: exactly those that one literal and 512 closing brackets complete to a text of the grammar in which that literal stands 512 brackets deep, right behind the innermost one, and everything in front of it nests less deep |
| ParseCrash.Completed | src/frontend/st_parser.c:1120-1130 | Such a text is the input, the literal, and one closer for each open bracket; the input ends with an opening bracket |
| ParseCrash.CrashEnds | src/frontend/st_parser.c:1120-1130 | So such an input ends with an opening bracket and holds at least 512 of them |
| ParseRight.OpensCrash | src/frontend/st_parser.c:1120-1130 | An instance: 512 opening parentheses and nothing else get there, and fewer end in an ordinary error |
| Parser.Reader.ParseBinary | src/frontend/st_parser.c:1094-1116 | The loop of one level, building to the left |
| Parser.Reader.ParseCastExpr | src/frontend/st_parser.c:1036-1092 | Behind the operators of the table, without a cast |
| Parser.Reader.ParseUnary | src/frontend/st_parser.c:950-971 | Prefix operators |
| Parser.Reader.ParsePostfix | src/frontend/st_parser.c:905-948 | Field access and indexing |
| Parser.Reader.ParsePrimary | src/frontend/st_parser.c:575-903 | Literals, names, parentheses and folds; the flag against struct literals is restored |
| TypeChecker.TypeTable.CompleteAll | src/frontend/st_semantic.c:5868-5886 | It ends on every declaration graph, reports a recursion if and only if some declaration needs itself (through fields, payloads, and elements of fixed arrays even behind pointers), and otherwise gives every declaration its layout in memory: fields in order, each at the first place where its type may start, payloads behind a tag of 8 bytes, array elements one behind the other |
| TypeChecker.RefusedWrongly | src/frontend/st_semantic.c:1149-1171 | Which programs are refused although all their types are finite: those in which something needs itself and each such circle has a step that only names the next declaration as the element of fixed arrays behind pointers or slices |
| TypeLayout.NeededExactly | src/frontend/st_semantic.c:1149-1171 | What must be laid out before a type is what it holds by value, and the elements of fixed arrays behind its pointers and slices |
| TypeLayout.PointerToArrayRefused | src/frontend/st_semantic.c:1149-1171 | An instance: a struct with a pointer to an array of itself holds nothing by value |
| TypeLayout.ByValueCycleFound | src/frontend/st_semantic.c:1890-1915 | Every type of infinite size is found |
| TypeLayout.StructRight | src/frontend/st_semantic.c:1837-1865 | Fields are aligned, in order and disjoint; the size is a multiple of the alignment and no longer than it must be |
| TypeLayout.PackedRight | src/frontend/st_semantic.c:1837-1865 | A packed struct has no gaps |
| TypeLayout.UnionRight | src/frontend/st_semantic.c:1867-1888 | Every payload fits behind the tag, and the size is no longer than the largest needs |
| TypeChecker.FinishedInMemory | src/frontend/st_semantic.c:1837-1888 | A finished struct: the first field is at 0, each later one at the first multiple of its alignment behind the one before, the alignment is that of the strictest field (1 if there is none), and the size the next multiple of it; a finished union: 8 bytes of tag, room for the largest payload, a multiple of 8 |
| TypeChecker.KnownIsRight | src/frontend/st_types.c:108-146 | In every state of the walk: element j of a known array lies at j times the size of an element and inside, the array is no longer than its elements and has their alignment; pointers have 8 bytes, slices 16 and dynamic arrays 24 |
| TypeChecker.NestedElement | src/frontend/st_types.c:112-115 | Elements of elements: number l of row j is at (j n + l) times the size of one |
| TypeChecker.UsableExactly | src/frontend/st_semantic.c:1149-1171 | A type is usable if and only if no array that occurs in it has a negative length |
| TypeLayout.NeedsAreElements | src/frontend/st_semantic.c:1149-1171 | Resolving a type needs exactly the declarations that occur in it, at any depth, as the element of a fixed array |
| TypeChecker.AlignIsPower | src/frontend/st_semantic.c:1837-1915 | All final alignments are powers of two when those of the primitive types are |
| TypeChecker.AllLaidOut | src/frontend/st_semantic.c:1890-1915 | Without a report everything is final and nothing needs itself |
| TypeChecker.CycleReported | src/frontend/st_semantic.c:1890-1915 | A report means that there is such a cycle |
| TypeChecker.TypeTable.CompleteFresh | src/frontend/st_semantic.c:1890-1915 | Entering, completing what is needed, storing, leaving |
| TypeChecker.TypeTable.CompleteStruct | src/frontend/st_semantic.c:1837-1865 | The running offset and alignment give the layout of the usable fields |
| TypeChecker.TypeTable.CompleteUnion | src/frontend/st_semantic.c:1867-1888 | The running maximum gives the layout |
| TypeChecker.TypeTable.ResolveArray | src/frontend/st_semantic.c:1149-1171 | The element type is completed before the array type is made; a negative length makes the type unusable |
| TypeChecker.TypeTable.Intern | src/frontend/st_types.c:112-115 | The size that is fixed when an array type is first made is final, and right by `TypeChecker.KnownIsRight` |
| Search.Verdict | src/frontend/st_module.c:602-715 | A depth-first search with in-progress marks: its reports are exact, what it finishes is what it reaches, in topological order if there is no cycle |
| Digraph.TopologicalAcyclic | src/frontend/st_module.c:602-715 | A topological order excludes cycles |
| Digraph.BackEdge | src/frontend/st_module.c:602-715 | An edge back into the current walk closes one |
| Modules.Process | src/frontend/st_module.c:717-784 | On every finite import graph: circular imports and faults are reported if and only if there are any among what the program reaches, each canonical path is read at most once, and the table holds the modules reached; each exports exactly the names of its public definitions, extern ones as they are and the others with the name of an import of it as prefix, and of several definitions the last; the merged program has exactly the definitions of the files reached and, without a cycle, those of a file behind all that it imports; if nothing was reported, a bare name is visible exactly when a module imported by the program defines it publicly, as that of the module if there is only one |
| Modules.EndOfRun | src/frontend/st_module.c:602-784 | The same of the final state alone |
| Modules.MergeExports | src/frontend/st_module.c:162-188 | In whatever order the table is visited: a bare name is exposed exactly when some merged module exports it, and ambiguous exactly when two do; order and repetition of imports do not matter |
| Modules.ExposureIsVisible | src/frontend/st_module.c:162-188 | And in terms of the files: exactly when an imported file has a public definition of that name |
| Modules.ImportsFirst | src/frontend/st_module.c:717-784 | In the merged program the definitions of a file stand behind those of every file it imports, and those of the program last |
| Modules.MergedExactly | src/frontend/st_module.c:717-784 | The merged program has the definitions of every file in the table and no others |
| Modules.ProcessRootImport | src/frontend/st_module.c:740-770 | One import of the program itself |
| Modules.Context.ProcessFile | src/frontend/st_module.c:602-715 | A module met before, in progress, or new |
| Modules.Context.LoadFile | src/frontend/st_module.c:602-715 | A new file: entered, gone through, closed, with the prefix given and the exports of its public definitions; none if it cannot be read |
| Modules.Context.ProcessDecls | src/frontend/st_module.c:647-689 | The first loop over the declarations: the exports are the public definitions, and without errors the bare names visible in the file are those that its imports offer |
| Modules.Context.ProcessImport | src/frontend/st_module.c:652-679 | One import: processed, and its exports merged if that went well |
| Modules.Context.Close | src/frontend/st_module.c:691-714 | The declarations follow those of everything imported |
| UnrollLoop.UnrollExactly | src/frontend/st_semantic.c:5060-5092 | Main result. For all bounds that the type of the iterator can hold, with the upper one visited or not: every body that neither rebinds nor assigns the iterator, declares and defers nothing at its top, does not leave the loop except by returning, and mentions the iterator only where the substitution goes is unrolled to a block that does what the loop does at run time, if and only if the upper bound as written is not below the lower one and, when it is visited, is not the largest number of the type |
| LoopValues.LoopVisits | src/middle/st_lower.c:3154-3264 | Which numbers a loop visits at run time, for every operation that records them: upwards from the lower bound, below the upper one or up to it, and downwards to the upper bound as written when that is the smaller |
| UnrollLoop.UnrollRight | src/middle/st_lower.c:3154-3264 | One direction, with bounds given by any constant expressions, for every meaning of operators, calls and stores, every state and every depth of the run |
| UnrollLoop.Descending | src/frontend/st_semantic.c:5069-5072 | Counting down, as in `3..0` or `1..=0`, the loop has a first round and the unrolled block is empty |
| UnrollLoop.Endless | src/middle/st_lower.c:3168-3258 | A loop that visits the largest number of its type does not end, because the step wraps; the unrolled block ends |
| UnrollLoop.DeferMatters | src/middle/st_lower.c:3228-3239 | Why nothing may be deferred at the top of the body: the loop runs it at the end of the round, the unrolled block leaves it to what surrounds it |
| UnrollLoop.RebindingMatters | src/frontend/st_semantic.c:4691-4763 | A body that declares the iterator again: the loop returns 5, the unrolled code the number of the round |
| Unroll.ExecSubst | src/frontend/st_semantic.c:4691-4763 | A statement with the number put in for the iterator does the same: assignments, several bindings, conditionals, switches, loops in both directions, blocks, bodies with what is deferred in them |
| Unroll.BodySubst | src/middle/st_lower.c:159-163 | So does a body, however it is left, with its deferred statements run from the last to the first |
| Unroll.ForSubst | src/middle/st_lower.c:3154-3264 | So does an inner loop, counting up or down |
| Unroll.EvalSubst | src/frontend/st_semantic.c:4620-4689 | An expression with the number put in has the same value and effects |
| SyntaxNodes.SyntaxNode.Unroll | src/frontend/st_semantic.c:5060-5092 | On nodes that are overwritten in place and may be shared: only the node of the loop changes, every node of the template spells what it spelled before, the new block is made of new nodes and spells the copies, and it does what the loop would have done whenever the conditions hold |
| SyntaxNodes.SyntaxNode.Clone | src/frontend/st_semantic.c:1216-1433 | New nodes all the way down, no two places sharing one, that spell the same tree |
| SyntaxNodes.SyntaxNode.Substitute | src/frontend/st_semantic.c:4620-4763 | Overwriting the nodes found makes the substituted tree and touches nothing outside this tree |
| SyntaxNodes.SyntaxNode.RewriteAsBlock | src/frontend/st_semantic.c:4500-4503 | The node becomes the block of the given ones |
| SyntaxNodes.CloneRounds | src/frontend/st_semantic.c:5074-5089 | The loop over the rounds |
| SyntaxNodes.CloneAll | src/frontend/st_semantic.c:1323-1328 | The loop over the statements of a body |
| SyntaxNodes.SubstituteAll | src/frontend/st_semantic.c:5080-5082 | One statement after the other, while the rest keeps still |
| PackFolds.PackFold | src/frontend/st_semantic.c:4005-4081 | For every operator and number of elements: refused exactly beyond 64 elements, or without any unless the operator is the logical and or or; otherwise the value is 1 exactly if all elements (for and) or some (for or) are not 0, with none too; that of a single element is its own, and that of any other operator the fold from the right |
| PackFolds.FoldApply | src/frontend/st_semantic.c:4061-4073 | The numbers are combined from the last one to the first |
| PackFolds.FoldShort | src/frontend/st_semantic.c:4061-4073 | With the operators that may stop early it is whether all elements, or some, are not 0 |
| PackFolds.EmptyFolded | src/frontend/st_semantic.c:4015-4030 | The empty pack is worth what all, or some, of no elements are |
| Asan.FaultsTold | src/backend/st_address_sanitizer.c:474-531 | In every state a run can reach: exactly the pages of live allocations can be touched; a fault from 4096 bytes before the pointer to the end of the second guard page is held against the right allocation and told apart by whether it was freed; one before that, in its first guard page, is not |
| Asan.FindsExactly | src/backend/st_address_sanitizer.c:474-506 | No two allocations claim an address, so the first record found is the only one |
| Asan.LookupFinds | src/backend/st_address_sanitizer.c:507-531 | A pointer is found exactly when it was handed out while there was room in the table |
| Asan.RoomExactly | src/backend/st_address_sanitizer.c:849-889 | User bytes and both guard pages fit the block exactly when the size does not wrap around in 64 bits |
| Asan.ErrorTakenForBlock | src/backend/st_address_sanitizer.c:866-874 | Of the error codes of the kernel only -1 is noticed; after any other the pointer handed out lies in the first two pages |
| Asan.AllocSane | src/backend/st_address_sanitizer.c:849-924 | An allocation that fits and was granted keeps the table and the pages right |
| Asan.FreeSane | src/backend/st_address_sanitizer.c:926-960 | A free keeps them right |
| Asan.Heap.Alloc | src/backend/st_address_sanitizer.c:849-924 | The record, the pages left open and the pointer, for every size and every answer of the kernel |
| Asan.Heap.Free | src/backend/st_address_sanitizer.c:926-960 | Over any run: a free succeeds exactly once for each recorded pointer, later ones are double frees, all others invalid |
| Asan.Heap.FindByPtr | src/backend/st_address_sanitizer.c:507-531 | The loop finds the first record with the pointer |
| Asan.Heap.Report | src/backend/st_address_sanitizer.c:666-795 | The loop and the verdict on a fault |
| Asan.Heap.ReportLeaks | src/backend/st_address_sanitizer.c:1028-1074 | Exactly the recorded allocations that were not freed, in order |
| Arena.AlignedExactly | src/utils/st_arena.c:9-13 | For every position and size of 64 bits the rounded position does not fall if and only if the masked one is 0 or the sum under the mask stays below 2^64 |
| Arena.AlignedRight | src/utils/st_arena.c:9-13 | Then it rises by less than the size, and to a multiple of it when that is a power of two |
| Arena.PushExactly | src/utils/st_arena.c:43-60 | For every size: the region handed out lies inside its chunk and apart from everything in use if and only if neither the rounding nor the end of the region nor the header of a new chunk wraps around |
| Arena.PushSound | src/utils/st_arena.c:43-60 | Under that condition all regions of the run stay apart and inside |
| Arena.PushWraps | src/utils/st_arena.c:43-60 | At position 17 a push of 2^64 - 8 bytes puts the position of the chunk back to 0, and the next push overlaps what was handed out before |
| Arena.Bump.Push | src/utils/st_arena.c:43-60 | For every size: the new chunks and the region, with nothing done for size 0; the chunks stay sound exactly as `PushFine` says |
| Arena.Bump.Pop | src/utils/st_arena.c:68-71 | The regions above the new position are given back, the others stay |

## Left out

- SsaBuilder.Builder.ReadVar: ends on rooted graphs, where every block is reached from one without predecessors. `SsaRead.IslandEndless` and its neighbours show what happens elsewhere; `SsaEnds.EveryReadEnds` covers graphs with an answer in every circle, and `SsaRead.TriangleEnds` is one without that does no harm all the same. So both conditions go one way; which of the remaining graphs are harmless is not characterised.
- SsaBuilder.Builder.ReadVarRec: rooted graphs, for the same reason.
- SsaMeaning.ReadsAreRight: is about runs that do not start in a block read while unsealed; for those `SsaMeaning.StartBlockExact` says that the promise is lost.
- SsaBuilder.Builder.Assign: requires that the value has been computed on every run that gets there and that nothing jumps from the block yet, which is how the lowering uses it. Of the lowering itself only the loop of `ArrayZero`, with elements that are numbers, and the function of `CountLoop` are modelled.
- SimulationRun.FunctionRight: covers integer constants, arithmetic, division, bitwise operations, shifts where they fit, comparisons, integer casts, branches and returns of up to two integers. Floats, loads, stores, addresses, inline assembly and calls inside the simulated function are not part of it; calls are treated by themselves. Division by zero and the minimum of 64 bits divided by -1 have no value in the interpreter.
- Calls.SysVAgrees: scalar arguments only; aggregates passed in memory, variadic functions and indirect calls through a closure are not modelled. Stack addresses are assumed not to wrap around.
- CallEmitter.Output.Classify: scalar arguments; those passed in memory as a whole are left out.
- CallEmitter.Output.StackArgs: the same.
- CallEmitter.Output.EmitCallArgs: the same.
- CallEmitter.ParamReader.GenerateParam: scalar parameters; those that are forced to the stack are left out.
- CallEmitter.ParamReader.GenerateParams: the same.
- Conventions.CallerKeepsAbi: scalar arguments, as above; the result registers go by position, where the psABI counts integers and floats apart, so a float behind an integer comes back in xmm1.
- Conventions.CallerKeepsWin64: arguments only.
- Win64.WinAgrees: arguments only; results on Win64, and the calling convention of external functions, are not modelled.
- Returns.ResultsReturn: scalar results; `ST_abi_classify_arg` and the parts of aggregates are not modelled.
- ParseRight.TextAccepted: literals, names, prefix and table operators, field access, indexing, parentheses and pack folds. Casts, calls, struct literals, types and the other primary forms are answered with "not modelled" and are outside the theorems.
- ParseCrash.CrashExactly: for the modelled forms; an input that reaches a form outside them first is answered with "not modelled".
- ParseSound.Unambiguous: for texts within the nesting limit.
- Parser.Reader.ParseCastExpr: answers "not modelled" for casts in front of and behind an operand.
- Parser.Reader.ParsePostfix: answers "not modelled" for calls.
- Parser.Reader.ParsePrimary: answers "not modelled" for struct literals, type queries, brackets and directives.
- UnrollLoop.UnrollExactly: for bounds that the type of the iterator can hold; at run time others are cast to it first, as `Ast.Exec` says. The unroller's own counter has 64 bits and overflows when the largest of them is a bound that is visited; here it is unbounded.
- UnrollLoop.UnrollRight: loops over constant bounds; unrolling over arrays, packs and the fields of a type, and the second substitution for the elements of a pack, are not modelled. A case of a `switch` is compared with its first value, as in the original. A block that stands by itself, declares a variable and leaves a statement deferred has no meaning here; names are found by scope, where the original keeps one list of names for the function. Loops over arrays, labels and `goto` are outside.
- UnrollLoop.RebindingMatters: one body for every range of one round; which bodies outside the conditions keep their meaning all the same is not characterised.
- SyntaxNodes.SyntaxNode.Clone: nested functions and the tokens of inline assembly, which the original copies by pointer or as they are, are not nodes here.
- PackFolds.PackFold: the elements are given; how an index into the pack becomes a parameter name is left out.
- TypeChecker.TypeTable.CompleteAll: structs, tagged unions, pointers and fixed arrays; generic declarations, enums, and slices with their own field tables are left out. Sizes are unbounded: the 32-bit overflow of a huge array is not modelled.
- Modules.Process: the rewriting of names in the tree and the search for a file on disk are left out; a module's exports are its names with their prefix. The flag for the root file is 0 at both calls of the original and is no parameter here.
- Lexer.Lex: keyword, type and identifier tokens are one kind, and so are integers and floats; the numeric value of a number is left out, its extent is not.
- Lexer.Cursor.Number: the numeric value is left out, as above.
- Loads.LoadFile: how a name is made a canonical path is a parameter.
- Asan.Heap.Free: and the theorems over runs assume of all allocations so far that they fit and were granted; `Asan.Heap.Alloc` says what happens otherwise. Signals, the printing of traces and the rewriting of calls in the tree are left out.
- Arena.Bump.Push: a refused `calloc` stops the program by an assertion and is not modelled; sizes are those of 64 bits. Freeing walks a list of chunks, here a sequence, once.
- StructData.Output.StructGlobal: at most 256 fields, the size of the array that is sorted; floats are given by their bits.
- ArgCopy.EmitCopy: source and target are apart, as the target is new stack space.
- Doubly linked instruction lists are sequences and instructions are numbers, so pointers that dangle are not captured. Removed instructions keep their links in the original for a walk in progress; here the walk goes on by index.
- Growable arrays, hash tables and string builders are sequences and maps.
- The lowering from tree to representation, the compile-time virtual machine, constant evaluation, overload resolution, traits and generics.
- The FASM back end, which repeats the NASM one, and DWARF type and abbreviation entries.
- Diagnostics, dumps, the command line and the documentation server.
- Minimality of the phis: removal does not revisit the users of a removed phi, so meaning is claimed, not minimality.
