# UTMS7: a verified model of its core

UTMS7 is a hobby operating system for x86-64. This project models the parts of it that are state,
arithmetic and control flow, in Dafny, and proves what they promise. `dafny verify dfyconfig.toml`
checks everything.

| area | files | what is proved |
|---|---|---|
| C compiler back end | `Words`, `X86`, `MiniC`, `Assembly`, `ExprProof`, `StmtProof`, `FuncProof`, `Backpatch`, `CodeGen`, `CMeaning` | the bytes that the single-pass, backpatching generator appends, decoded and run by a byte-level x86-64 machine, do what the source function does, including traps and endless loops |
| expression parser | `Parser`, `ParserProof`, `ParserOps`, `ParserMin`, `ExprParser` | parsing undoes printing, for every tree, place and context, the printed text is the shortest that parses to its tree, and every operator has its precedence |
| kernel heap | `Arith`, `Heap` | blocks tile the region, free neighbours never touch, payloads never overlap, freeing everything restores the one block, over whole runs |
| page allocator | `Bitmap`, `Pmm` | the bitmap and its circular cursor are a set of pages |
| page tables | `PageTree`, `PageOwn`, `PageCopy`, `Paging`, `PageSpaces`, `PageRuns` | mapping changes exactly one page, splitting a huge page changes none, copying gives every private page on a new frame, freeing returns each private frame once, effective rights are exact, and any number of address spaces stay apart over whole runs |
| UFS | `Extents`, `UfsBooks`, `UfsFiles`, `UfsDir`, `UfsSpec`, `Ufs`, `UfsTree`, `UfsRuns`, `UfsNames`, `UfsNamed`, `UfsLimits` | which operations keep a volume consistent, as conditions in both directions; consistency and a tree of names over whole runs from format on, and when every inode in use has a name; runs that break a volume or hide a name; reads and writes are byte sequences |
| block devices | `Devfs` | unaligned access by sector read-modify-write is a byte array |
| ELF loader | `Elf` | every page holds the last segment that has it, so all segments are in place if and only if they agree on shared pages |
| scheduler | `Sched`, `SchedSpec`, `SchedSleep` | what every step does to every slot and queue; every process is in exactly one place in every reachable state, a sleeper is lost if and only if a switch falls between the halves of its sleep, bounded waiting, sleeping times over whole runs |
| calendar | `Calendar` | `mktime` undoes `gmtime_r`, and both agree with the formula of section 4.16 of POSIX.1-2017 Base Definitions |

## How it is modelled

- Regions with interrupts disabled are single steps; `sched_sleep`, which starts with interrupts enabled, is two.
  Physical memory is identity mapped. Clocks, device registers and the outcome of calls into code outside the model are parameters.
- Words are integers with the wrap-around of the C type written out where it can happen.
- Code that works in place is a class whose methods carry contracts against a specification function;
  the theorems are lemmas about that function. Ghost owners of frames and blocks make "nobody shares"
  a statement about one map: a block or frame has one owner, so two owners cannot exist.
- The scheduler, the heap, UFS and the address spaces have theorems over every finite run of their operations.
  Requests to UFS in such runs give paths, which are resolved anew each time.

## What the code does that one might not expect

Each of these is proved on the model.

- `&&` and `||` evaluate both sides and give a truth value but not 0 or 1 (`256 && 256` is 257):
  `CMeaning.LogicNodeExact` says exactly when the value and the effects are C's. In a test only the truth
  matters, and there compiled and C meaning agree (`CMeaning.TestAgrees`, `CodeGen.GeneratedCodeIsC`).
- A literal is exact if and only if it fits a sign-extended 32-bit immediate (`CMeaning.LiteralExact`).
- `kmalloc` rounds sizes above 2^64 - 8 to 0 (`Heap.RoomForRequest`). `kmalloc_aligned` masks with 32
  bits and adds in 64, so its pointer, the saved word and the bytes asked for lie in the block if and only if the
  address fits 32 bits and the total does not wrap (`Heap.Allocator.KmallocAligned`, with `Heap.WrappedRequest` as
  an instance).
- A sleep lasts as asked if and only if milliseconds times 1000 fit 32 bits (`Sched.SleepTicksExact`), and the clock
  does not wrap before its end (`SchedSleep.SleepHoldsIff`).
- `sched_sleep` marks the process before it disables interrupts. A switch in between loses the process for good:
  `SchedSleep.LosingRun` is such a run from boot, `SchedSleep.NoneLostIff` the condition over whole runs.
- `ufs_append_block` extends the first adjacent extent, so a file can be read back in another order:
  `Extents.AppendInOrder` gives the exact condition, `Extents.AppendOutOfOrder` an instance.
- Unlinking "." of a directory leaves the parent's entry naming a free inode (`UfsLimits.UnlinkDot`); unlinking that entry
  counts the inode as free twice (`UfsLimits.FreedTwice`). `Ufs.Mount.Unlink` keeps a volume consistent if and
  only if the inode was in use.
- A write into a hole takes a block that no inode lists (`UfsLimits.LostBlock`). `Ufs.Mount.Write` keeps a
  volume consistent if and only if it takes no block, or the inode is in use and the file gets longer.
- A directory's size counts its entries, and scans go only as far as the size: when the size shrinks to a block
  boundary, the entries of the last block are no longer found. Sixty-three files and one removal are enough
  (`UfsLimits.HiddenName`); `UfsNames.RemovedLookup` and `UfsNames.AddedFound` are the exact conditions.
- Tables of slot [0][3], the last GiB below 4 GiB, are never returned. Creating and freeing an address space leaves the
  allocator as it was if and only if that slot has no directory; if frames last, that is when no device lies in it
  (`Paging.Memory.CreateAndFree`). A framebuffer at 3.9 GiB is enough (`Paging.Memory.FramebufferLost`).
- A page mapped over another loses the frame that was there, even when the space is freed (`Paging.Memory.Displaced`).
- Of segments that share a page the last one wins: all are in place if and only if they agree there (`Elf.AllInIff`,
  with `Elf.SharedPageLost` as an instance). No frame is lost if and only if they share no page and none of their
  pages was mapped before (`Elf.Load`).
- Parameters from the seventh on are what lies on the stack below the caller's frame (`FuncProof.SeventhIsStale`).
- `gmtime_r` overflows its year if and only if the moment is 67767976233532800 or later (`Calendar.YearFits`).
- Device requests, and reads and writes of UFS files, return their count as a 32-bit int: it is the number of bytes moved if
  and only if that is below 2^31 (`Devfs.BlockDevice.Read`, `Ufs.Mount.Read`). A device read of 2 GiB returns -2^31, one
  of 4 GiB returns 0 (`Devfs.ReadHuge`).
- A file or directory whose parent has no place for its entry stays without a name. From format on every inode in use has
  a name if and only if no request did that (`UfsNamed.FormatAndRun`, with `UfsNamed.NamelessFile` as an instance).

## Model

| member | source | states |
|---|---|---|
| `X86.DecodeEncode` | apps/cc/codegen.c:45-63 | the machine decodes every emitted instruction back from its bytes, with its length, wherever they lie |
| `X86.RunAdd` | apps/cc/codegen.c:404-601 | running m + n steps is running m and then n |
| `Assembly.StmtLen` | apps/cc/codegen.c:586-601 | the size of a statement's code does not depend on where it is or where its jumps go |
| `ExprProof.BinCorrect` | apps/cc/codegen.c:489-548 | the code of every binary operator turns the operands in rax and rcx into the operator's value, traps exactly on division by zero or overflow, and restores the stack |
| `ExprProof.UnCorrect` | apps/cc/codegen.c:561-571 | unary minus and not |
| `ExprProof.StoreCorrect` | apps/cc/codegen.c:123-164 | an assignment writes exactly the target's slot; an unknown target writes nothing |
| `ExprProof.ExprCorrect` | apps/cc/codegen.c:404-571 | for every expression the code leaves its value in rax, restores rsp, writes nothing at or above rsp but assigned parameters, and traps exactly when the source traps |
| `StmtProof.StmtSim` | apps/cc/codegen.c:586-601 | for every statement the emitted bytes reach the same parameter values and the same end (fall through, break, continue, return, trap) at the right address, and keep running while the source does |
| `StmtProof.IfSim` | apps/cc/codegen.c:219-238 | both branches of an if come out at its end |
| `StmtProof.LoopSim` | apps/cc/codegen.c:240-317 | loops: a break lands at the loop's exit, a continue at its step or test, for every number of rounds |
| `FuncProof.PrologueCorrect` | apps/cc/codegen.c:603-638 | called with its arguments in rdi, rsi, rdx, rcx, r8 and r9, in this order, the prologue saves them in the slots of the first six parameters and reserves all slots; a parameter from the seventh on is the word that lies in its slot |
| `FuncProof.SlotOf` | apps/cc/codegen.c:70-85 | the slot of parameter i of n is 8 (n - i) bytes below rbp; of two parameters of one name the last has it |
| `FuncProof.FuncCorrect` | apps/cc/codegen.c:603-644 | called with its arguments in those registers, the code of a function returns the source's value to the caller with rsp and rbp restored, parameters as the source left them and the caller's memory untouched, or traps as the source does |
| `FuncProof.FuncDiverges` | apps/cc/codegen.c:603-644 | a function that never ends keeps the machine running inside its own code for ever |
| `FuncProof.SeventhIsStale` | apps/cc/codegen.c:617-633 | a function that returns its seventh parameter returns the word that lies in the slot, whatever was passed |
| `Backpatch.PatchAllAppend` | apps/cc/codegen.c:181-217 | patching two lists of holes is patching one after the other |
| `Backpatch.Fill` | apps/cc/codegen.c:185-217 | filling exactly the recorded holes of a statement gives the code assembled with that target, and changes no other byte |
| `CodeGen.Generator.constructor` | apps/cc/codegen.c:5-36 | empty code and empty patch stacks |
| `CodeGen.Generator.EmitByte` | apps/cc/codegen.c:45-51 | one byte is appended |
| `CodeGen.Generator.Emit` | apps/cc/codegen.c:45-63 | the bytes of an instruction are appended |
| `CodeGen.Generator.PatchJmp` | apps/cc/codegen.c:65-68 | four bytes become the distance from their end to the target |
| `CodeGen.Generator.EmitJmp` | apps/cc/codegen.c:166-171 | a jump with an open distance, whose place is returned |
| `CodeGen.Generator.EmitJe` | apps/cc/codegen.c:173-179 | the same for the conditional jump |
| `CodeGen.Generator.PatchBreaks` | apps/cc/codegen.c:203-209 | patches the holes recorded since the loop began and drops them |
| `CodeGen.Generator.PatchContinues` | apps/cc/codegen.c:211-217 | the same for continues |
| `CodeGen.Generator.FindSlot` | apps/cc/codegen.c:70-77 | the offset of the first local of that name, or -1 |
| `CodeGen.Generator.SaveParams` | apps/cc/codegen.c:617-635 | the bytes chosen for each of the first six parameters store its argument register in its slot |
| `CodeGen.Generator.GenExpr` | apps/cc/codegen.c:404-584 | appends exactly the specified code of the expression |
| `CodeGen.Generator.GenBinary` | apps/cc/codegen.c:483-559 | right operand, push, left operand, pop, operator |
| `CodeGen.Generator.GenAssign` | apps/cc/codegen.c:144-164 | value, and the store only if the target is known |
| `CodeGen.Generator.GenBlock` | apps/cc/codegen.c:101-110 | the statements in order; locals and stack offset are restored |
| `CodeGen.Generator.GenIf` | apps/cc/codegen.c:219-238 | the patched bytes are the assembled if; holes of the branches stay recorded |
| `CodeGen.Generator.GenWhile` | apps/cc/codegen.c:240-268 | the patched bytes are the assembled loop and both patch stacks are back at their entry height |
| `CodeGen.Generator.GenFor` | apps/cc/codegen.c:270-317 | initial statement, then the loop; only the initial statement's holes stay |
| `CodeGen.Generator.GenForLoop` | apps/cc/codegen.c:275-316 | the patched bytes are the assembled loop and both patch stacks are back at their entry height |
| `CodeGen.Generator.GenBreak` | apps/cc/codegen.c:319-324 | an open jump recorded for the innermost loop, nothing outside loops |
| `CodeGen.Generator.GenContinue` | apps/cc/codegen.c:326-337 | a jump to the known target or an open jump recorded for the innermost loop |
| `CodeGen.Generator.GenReturn` | apps/cc/codegen.c:339-346 | the value, or 0, and the epilogue |
| `CodeGen.Generator.GenStmt` | apps/cc/codegen.c:586-601 | appends the specified code and records exactly the statement's open breaks and continues |
| `CodeGen.Generator.GenPrologue` | apps/cc/codegen.c:603-638 | parameters get their slots, then the specified prologue, which `FuncProof.PrologueCorrect` is about |
| `CodeGen.Generator.GenFunc` | apps/cc/codegen.c:603-644 | the bytes appended are the two-pass assembly of the function, and no hole is left |
| `CodeGen.GeneratedCodeRuns` | apps/cc/codegen.c:603-644 | what the generator appends, run as machine code among any other bytes, behaves as the source function |
| `CodeGen.GeneratedCodeIsC` | apps/cc/codegen.c:603-644 | for functions whose stored and returned values and whose tests keep to C's meaning, the generated code computes what the function computes in C |
| `CMeaning.ExecMono` | apps/cc/codegen.c:586-601 | the source meaning does not depend on the step bound once it is large enough |
| `CMeaning.CallUnique` | apps/cc/codegen.c:603-644 | a function has one result |
| `CMeaning.LiteralExact` | apps/cc/codegen.c:408-411 | a literal has its value if and only if it fits 32 signed bits |
| `CMeaning.AndExact` | apps/cc/codegen.c:529-538 | && is non-zero if and only if both sides are; its value is 0 or 1 if and only if the higher bytes of the sides share no bit or a side is 0 |
| `CMeaning.OrExact` | apps/cc/codegen.c:539-548 | the same for the or operator |
| `CMeaning.AndIsNotOne` | apps/cc/codegen.c:529-538 | 256 && 256 is 257 |
| `CMeaning.ShortCircuitAgrees` | apps/cc/codegen.c:529-548 | the compiled value is C's where operands of && and || are small and pure |
| `CMeaning.LogicNodeExact` | apps/cc/codegen.c:529-548 | for operands that agree with C, the left one pure: compiled and C meaning of && and the or operator agree if and only if the bits are clean and, where C skips the right side, it neither traps nor changes a parameter |
| `CMeaning.LogicOfParameters` | apps/cc/codegen.c:529-548 | over two parameters: they agree if and only if the bits are clean |
| `CMeaning.TestAgrees` | apps/cc/codegen.c:529-548 | in a test the compiled code takes C's branch, with no condition on the size of operands |
| `CMeaning.CExecAgrees` | apps/cc/codegen.c:586-601 | statements whose tests are such and whose values are exact mean what they mean in C |
| `CMeaning.CCallAgrees` | apps/cc/codegen.c:603-644 | so do functions of them |
| `CMeaning.SkippedAssignment` | apps/cc/codegen.c:529-538 | 0 && (x = 1) assigns x, which C does not |
| `ParserProof.RoundTrip` | apps/cc/parser.c:55-270 | for every tree with at most 16 arguments per call, printed at any level inside any tokens, the cascade returns the tree and stops right behind it unless the next token carries it on |
| `ParserProof.PrintThenParse` | apps/cc/parser.c:268-270 | a whole text parses to its tree and all tokens are consumed |
| `ParserProof.Chained` | apps/cc/parser.c:163-238 | binary levels associate to the left |
| `ParserProof.Assigned` | apps/cc/parser.c:240-266 | assignment associates to the right |
| `ParserProof.Suffixed` | apps/cc/parser.c:103-138 | index and member suffixes nest from the left |
| `ParserProof.Atom` | apps/cc/parser.c:55-101 | literals, names, calls and anything in parentheses |
| `ParserMin.Shortest` | apps/cc/parser.c:55-270 | among the texts without compound assignments that parse to a tree the printed one is shortest |
| `ParserMin.NoneToSpare` | apps/cc/parser.c:55-270 | dropping any two tokens of the printed text, such as a pair of parentheses, changes what it parses to |
| `ParserMin.MinLevel` | apps/cc/parser.c:163-238 | whatever a binary level accepts is at least as long as the printed text for that level |
| `ParserMin.MinSuffixes` | apps/cc/parser.c:103-138 | likewise for suffixes |
| `ParserMin.MinPrimary` | apps/cc/parser.c:55-101 | likewise for primary expressions |
| `ParserOps.Precedence` | apps/cc/parser.c:163-238 | of two binary operators in a row, named by their tokens, the right one takes the middle operand if and only if it is in a tighter one of the six groups, for all operands |
| `ParserOps.Grouping` | apps/cc/parser.c:163-238 | likewise for five tokens with literals or names as operands |
| `ParserOps.NoGroup` | apps/cc/parser.c:163-238 | no other token is a binary operator |
| `ParserOps.Prefixes` | apps/cc/parser.c:140-161 | `-`, `!`, `&` and `*` bind tighter than every binary operator, on either side of it |
| `ParserOps.NoPrefix` | apps/cc/parser.c:140-161 | no other token is a prefix operator |
| `ParserOps.Compound` | apps/cc/parser.c:252-264 | the tree of `+=`, `-=`, `*=` and `/=`: the target is assigned the operator applied to target and value |
| `ExprParser.Cursor.Match` | apps/cc/parser.c:25-31 | moves on if and only if the token is the one asked for |
| `ExprParser.Cursor.Expect` | apps/cc/parser.c:33-39 | moves on or records an error |
| `ExprParser.Cursor.Primary` | apps/cc/parser.c:55-101 | the outcome, tree and position or error, is the grammar's |
| `ExprParser.Cursor.Arguments` | apps/cc/parser.c:75-88 | likewise for the rest of a call |
| `ExprParser.Cursor.ArgumentList` | apps/cc/parser.c:78-85 | likewise for the arguments |
| `ExprParser.Cursor.Suffixed` | apps/cc/parser.c:103-138 | likewise for suffixes |
| `ExprParser.Cursor.Prefix` | apps/cc/parser.c:140-161 | likewise for prefix operators |
| `ExprParser.Cursor.Level` | apps/cc/parser.c:163-238 | likewise for the six binary levels, with termination on the remaining tokens; `ParserOps.Precedence` says which operator has which level |
| `ExprParser.Cursor.Expression` | apps/cc/parser.c:240-270 | likewise for assignment and compound assignment |
| `Heap.Allocator.constructor` | kernel/core/memory.c:21-58 | one free block that fills the aligned region, or none when the region is too small |
| `Heap.Allocator.Kmalloc` | kernel/core/memory.c:76-107 | NULL if and only if the size is 0 or nothing fits; otherwise the first fitting block is split or taken |
| `Heap.Allocator.KmallocAligned` | kernel/core/memory.c:212-223 | the block for the wrapped total is taken, nothing is when none fits, and what is returned lies in it if and only if that condition holds |
| `Heap.Allocator.Kfree` | kernel/core/memory.c:109-146 | the block is freed and merged with both neighbours; a second free changes nothing |
| `Heap.AllocKeepsInv` | kernel/core/memory.c:84-101 | allocation keeps tiling and coalescing, and used memory grows by the block |
| `Heap.ReleaseKeepsInv` | kernel/core/memory.c:117-144 | release keeps them, and used memory shrinks by the block |
| `Heap.PayloadsDisjoint` | kernel/core/memory.c:76-107 | no byte of a payload belongs to another block |
| `Heap.AllFree` | kernel/core/memory.c:125-144 | with nothing live there is one block, the whole region |
| `Heap.AllocLive` | kernel/core/memory.c:84-101 | allocation adds exactly one live block |
| `Heap.ReleaseLive` | kernel/core/memory.c:109-146 | release removes exactly that live block |
| `Heap.RunKeepsInv` | kernel/core/memory.c:76-146 | every run of allocations and frees keeps the invariant |
| `Heap.FreeAllRestores` | kernel/core/memory.c:76-146 | a run that frees everything, in any order, ends with the original block and 0 bytes used |
| `Heap.StepLive` | kernel/core/memory.c:76-146 | a free takes away exactly the live block with that pointer; an allocation adds one block with room for the request if some free block has room, and does nothing otherwise |
| `Heap.Waste` | kernel/core/memory.c:84-93 | a block is larger than was asked for if and only if less than 40 bytes would have been left over; the rest becomes a free block right behind it |
| `Heap.RunAligned` | kernel/core/memory.c:76-146 | in every run all headers and pointers are multiples of 8 |
| `Heap.RoomForRequest` | kernel/core/memory.c:79 | rounding up leaves room for the request if and only if it is at most 2^64 - 8 |
| `Heap.AlignedInside` | kernel/core/memory.c:212-223 | for every block that serves the total: the aligned pointer, its saved word and the bytes asked for lie in it if and only if the address fits 32 bits and size, alignment and 8 add up to at most 2^64 - 8 |
| `Heap.AlignedPower` | kernel/core/memory.c:219 | for powers of two the pointer is a multiple of the alignment |
| `Heap.NotAligned` | kernel/core/memory.c:219 | for an alignment of 12 it need not be |
| `Heap.WrappedRequest` | kernel/core/memory.c:212-223 | a request of 2^64 - 8 bytes gets 8 bytes and a pointer behind them |
| `Bitmap.GetSet` | kernel/core/memory.c:182-189 | writing a bit changes that bit and no other |
| `Bitmap.OneBit` | kernel/core/memory.c:182-189 | bit k of a byte counts 2^k |
| `Pmm.Allocator.InitRegion` | kernel/core/memory.c:158-175 | the first region with at least three whole pages is taken, all others are ignored; the bitmap starts at the first page boundary and has one page for each 32768 pages, and the rest of the region is handed out |
| `Pmm.WholePagesAre` | kernel/core/memory.c:158-164 | the pages counted are exactly those that lie wholly in the region |
| `Pmm.Allocator.AllocPage` | kernel/core/memory.c:177-195 | NULL if and only if all pages are out; otherwise the first page from the cursor on, going round, that was not out, aligned and inside |
| `Pmm.Allocator.FreePage` | kernel/core/memory.c:197-210 | exactly the page of the address is no longer out |
| `Pmm.RoundTrip` | kernel/core/memory.c:181-182 | going round from any cursor reaches every page |
| `Pmm.PagesDisjoint` | kernel/core/memory.c:158-175 | pages overlap neither each other nor the bitmap |
| `PageTree.PathOfVirt` | kernel/arch/x86_64/paging.c:200-201 | the four indices of a page are those its address was built from |
| `PageTree.Unaffected` | kernel/arch/x86_64/paging.c:80-130 | in a tree of tables, changing an entry leaves every page alone whose walk does not read it |
| `PageTree.NewTable` | kernel/arch/x86_64/paging.c:86-99 | a new blank table keeps the tree, changes no page, and limits no page that will be mapped below it |
| `PageTree.Split` | kernel/arch/x86_64/paging.c:109-118 | splitting a 2 MiB entry keeps target, leaf flags and effective writable and user bits of all 512 pages, and what the levels above them let through |
| `PageTree.EditPage` | kernel/arch/x86_64/paging.c:126-127 | a page-table entry decides its page and no other; what the levels above let through stays |
| `PageTree.EditHuge` | kernel/arch/x86_64/paging.c:102-107 | a huge entry decides its 512 pages, and what they allow, and no other page |
| `PageTree.TableThere` | kernel/arch/x86_64/paging.c:102-107 | a region has a table of single pages if and only if its directory entry is present and not huge |
| `PageTree.NewRights` | kernel/arch/x86_64/paging.c:80-130 | a page that was mapped allows what its flags and the levels that were above it before let through; missing levels count as letting everything through |
| `Paging.Memory.AllocFrame` | kernel/core/memory.c:177-195 | a blank frame that was not out, or none when all are out |
| `Paging.Memory.FreeFrame` | kernel/core/memory.c:197-210 | exactly that frame is no longer out |
| `Paging.Memory.Descend` | kernel/arch/x86_64/paging.c:86-100 | the next table is found or added; no page changes; the frames taken are exactly the new tables |
| `Paging.Memory.SplitHuge` | kernel/arch/x86_64/paging.c:109-118 | the split, in memory: no page changes |
| `Paging.PagesOf` | kernel/arch/x86_64/paging.c:114-116 | the 512 entries of the split table |
| `Paging.Memory.MapPage` | kernel/arch/x86_64/paging.c:80-130 | success gives exactly the requested page (or 2 MiB region) its target and flags, and effective writable and user bits that follow from the flags and the tables that were there, new ones taking nothing away; failure changes no page and happens only without frames, or for a huge request exactly when the region has a table |
| `Paging.Memory.Unmap` | kernel/arch/x86_64/paging.c:249-268 | the page is not mapped afterwards; only its entry, or its region's huge entry, was cleared; failure changes nothing |
| `Paging.Memory.MapOwned` | kernel/arch/x86_64/paging.c:80-130 | mapping a frame of the allocator keeps the ownership of all private pages and tables |
| `Paging.Memory.MapDevice` | kernel/arch/x86_64/paging.c:163-177 | so does mapping a device frame |
| `Paging.Memory.UnmapOwned` | kernel/arch/x86_64/paging.c:249-268 | so does unmapping |
| `Paging.Memory.FreeSpace` | kernel/arch/x86_64/paging.c:220-247 | the allocator gets back exactly the private tables and pages; nothing for NULL or the kernel's own table |
| `Paging.Memory.FreeOnce` | kernel/arch/x86_64/paging.c:234-246 | every frame handed back is out at that moment, so none is freed twice |
| `Paging.Memory.FreeLeaves` | kernel/arch/x86_64/paging.c:233-238 | exactly the pages of one table |
| `Paging.Memory.FreeBelow` | kernel/arch/x86_64/paging.c:229-241 | exactly the tables and pages below a directory |
| `Paging.Memory.FreeDirs` | kernel/arch/x86_64/paging.c:225-243 | exactly the private directories below a slot, never [0][0] or [0][3] |
| `Paging.Memory.NewTop` | kernel/arch/x86_64/paging.c:145-159 | fails if and only if fewer than two frames are left; the upper half and the first GiB translate as the kernel's, nothing else is mapped; a failure returns the first frame |
| `Paging.Memory.MapRegion` | kernel/arch/x86_64/paging.c:163-177 | exactly the first pages of a device region are added, to themselves, all unless no frame is left: writable, and usable by programs if and only if it is the framebuffer; slot [0][3] gets tables only for pages in it |
| `Paging.Memory.CreateSpace` | kernel/arch/x86_64/paging.c:145-180 | fails if and only if fewer than two frames are left; the new space owns exactly the frames taken since, all other memory is as before, and the shared slots translate as the kernel's; outside them it has exactly the first pages of each device region, with these rights, and all of them if frames are left; slot [0][3] then has tables if and only if a device lies in it |
| `Paging.Memory.DeviceRights` | kernel/arch/x86_64/paging.c:163-176 | each device page that no later page replaces leads to itself, with flags 7 and user rights for the framebuffer, flags 3 and no user rights for the others, and may be written |
| `Paging.LastPage` | kernel/arch/x86_64/paging.c:163-176 | of device pages at the same place the one mapped last counts |
| `Paging.Memory.CopyPage` | kernel/arch/x86_64/paging.c:197-212 | one page is copied, or the frame goes back |
| `Paging.Memory.CopySpace` | kernel/arch/x86_64/paging.c:182-218 | every private 4 KiB page of the parent is in the child with the same flags and contents on a frame that was not out; all translations of the parent stay, on success and on failure; a failure gives all frames back but the tables that the walk finds in slot [0][3] of the discarded child, and all if and only if there are none; each page the child holds is one of the parent's |
| `Paging.Memory.FreeBuilt` | kernel/arch/x86_64/paging.c:220-247 | freeing a space built since gives back all frames taken but the tables of its slot [0][3]: the allocator is as before if and only if that slot has no directory |
| `Paging.Memory.CreateAndFree` | kernel/arch/x86_64/paging.c:145-247 | the same for a space that is created and freed, in terms of the device regions |
| `Paging.Memory.FramebufferLost` | kernel/arch/x86_64/paging.c:145-247 | with a framebuffer page at 0xFD000000 and three frames left, creating and freeing a space loses frames |
| `Paging.Memory.Displaced` | kernel/arch/x86_64/paging.c:126-127 | a frame displaced from its page stays out when the space is freed |
| `PageOwn.LeakedAre` | kernel/arch/x86_64/paging.c:225-226 | the own tables that freeing passes over are exactly those the walk finds in slot [0][3] |
| `PageOwn.NewKernel` | kernel/arch/x86_64/paging.c:148-159 | the upper half of a new space translates as the kernel's, and the first GiB does up to what the kernel's own top entry allows; no table outside those slots takes rights away |
| `PageOwn.OpenRights` | kernel/arch/x86_64/paging.c:80-130 | in such a space a page outside the shared slots allows exactly what its own flags say |
| `PageOwn.MapsNext` | kernel/arch/x86_64/paging.c:126-127 | mapping a page adds exactly this page, with the rights of its flags, to those the space has |
| `PageOwn.NewSpace` | kernel/arch/x86_64/paging.c:148-159 | the tables of a new space form a tree with the shared kernel tables in it |
| `PageOwn.MapKeepsPages` | kernel/arch/x86_64/paging.c:126-127 | each private frame stays mapped at its one page |
| `PageCopy.ProcessCopyable` | kernel/arch/x86_64/paging.c:182-218 | a process whose frames are out and whose private pages are small can be copied |
| `PageSpaces.Isolated` | kernel/arch/x86_64/paging.c:145-247 | no two address spaces have the same frame of the allocator at private pages |
| `PageSpaces.MapIn` | kernel/arch/x86_64/paging.c:80-130 | mapping in one space keeps all spaces apart, and all others translate as they did |
| `PageSpaces.UnmapIn` | kernel/arch/x86_64/paging.c:249-268 | so does unmapping |
| `PageSpaces.CreateIn` | kernel/arch/x86_64/paging.c:145-180 | a new space is apart from all others, which translate as they did |
| `PageSpaces.CopyIn` | kernel/arch/x86_64/paging.c:182-218 | so is a copy, which has every private page of its parent; a failure leaves all spaces as they were |
| `PageSpaces.FreeIn` | kernel/arch/x86_64/paging.c:220-247 | freeing one space takes nothing from the others |
| `PageSpaces.OneChanged` | kernel/arch/x86_64/paging.c:80-130 | a space that writes only its own tables and takes frames nobody reaches stays apart from the others |
| `PageSpaces.OneAdded` | kernel/arch/x86_64/paging.c:145-218 | a space on frames that were not out is apart from the others |
| `PageRuns.RunAll` | kernel/arch/x86_64/paging.c:80-268 | every run of creating, mapping, unmapping, copying and freeing keeps all live spaces apart from each other and from the kernel |
| `PageRuns.Perform` | kernel/arch/x86_64/paging.c:80-268 | each request does what it says, with its result and rights: a new space has its device pages, a page is mapped on a frame that was not out and allows what its flags say, a copy has every page of its parent with the same contents and rights; spaces the request does not name keep their tables, pages and translations |
| `PageRuns.RightsCopied` | kernel/arch/x86_64/paging.c:195-213 | a copied page allows what the parent's page allows |
| `PageRuns.NeverShared` | kernel/arch/x86_64/paging.c:80-268 | so at any time a frame of the allocator is at a private page of at most one of them |
| `PageRuns.KernelStays` | kernel/arch/x86_64/paging.c:148-159 | the kernel's tables stay in place as long as nobody writes or frees them |
| `PageRuns.NoneRunning` | kernel/arch/x86_64/paging.c:145-159 | runs can start from any memory with the kernel's tables in place |
| `Extents.AppendInserts` | kernel/fs/ufs.c:229-242 | the new block is inserted behind the first adjacent extent or at the end, and no other block moves |
| `Extents.AppendInOrder` | kernel/fs/ufs.c:229-242 | it becomes the file's last block if and only if no extent but the last ends right before it |
| `Extents.AppendOutOfOrder` | kernel/fs/ufs.c:236-239 | blocks 4, 8 and then 5 are read back as 4, 5, 8 |
| `Extents.GetBlock` | kernel/fs/ufs.c:220-227 | block number idx of the file, 0 beyond its end |
| `Extents.AppendBlock` | kernel/fs/ufs.c:229-242 | the loop does what the specification says, and fails exactly when it does |
| `UfsBooks.Consistent` | kernel/fs/ufs.c:130-252 | when the books agree, nothing is in progress and unused inodes have no blocks, the volume passes its check: a data block is marked if and only if a live inode covers it, none is covered twice, and both counters are exact |
| `UfsBooks.TakeGood` | kernel/fs/ufs.c:159-166 | taking the lowest free block keeps the books |
| `UfsBooks.GiveExact` | kernel/fs/ufs.c:172-178 | releasing a block keeps the books if and only if it was taken and belongs to no inode |
| `UfsBooks.AttachGood` | kernel/fs/ufs.c:229-242 | so does appending a taken block to a live inode |
| `UfsBooks.DetachGood` | kernel/fs/ufs.c:244-252 | so does taking all blocks off an inode |
| `UfsBooks.BirthGood` | kernel/fs/ufs.c:197-203 | so does bringing a free inode into use |
| `UfsBooks.FreeInodeExact` | kernel/fs/ufs.c:209-218 | freeing an inode keeps the books if and only if it was in use |
| `UfsBooks.DeadOwner` | kernel/fs/ufs.c:484-530 | an unused inode with a block makes the check fail |
| `UfsBooks.Unwritten` | kernel/fs/ufs.c:498-526 | so does a block appended to an inode that is not written back |
| `UfsSpec.BitsSet` | kernel/fs/ufs.c:139-148 | setting a bit of the on-disk bitmap sets that bit and no other |
| `Ufs.Mount.BitmapGet` | kernel/fs/ufs.c:130-137 | the bit, or -1 beyond the volume |
| `Ufs.Mount.BitmapSet` | kernel/fs/ufs.c:139-148 | exactly that bit changes |
| `Ufs.Mount.CursorScan` | kernel/fs/ufs.c:150-169 | the search from the cursor finds the lowest free data block, 0 if and only if none is free |
| `Ufs.Mount.PlainScan` | tools/ufs/ufs.c:94-120 | the reference scan finds the same block |
| `Ufs.Mount.AllocBlock` | kernel/fs/ufs.c:150-170 | the lowest free block, zeroed and marked; no other block changes |
| `Ufs.Mount.FreeBlock` | kernel/fs/ufs.c:172-178 | whatever the block's state was: its bit is cleared, it is counted, the cursor moves back to it, and the superblock is written; 0 and numbers beyond the volume change nothing |
| `Ufs.Mount.AllocInode` | kernel/fs/ufs.c:180-207 | 0 if and only if no inode is free; otherwise the first free one from the cursor on, going round, cleared and no longer counted as free |
| `Ufs.Mount.FreeInode` | kernel/fs/ufs.c:209-218 | the inode is cleared and counted; the books agree afterwards if and only if it was in use, otherwise the count is one too high |
| `Ufs.Mount.FreeInodeBlocks` | kernel/fs/ufs.c:244-252 | exactly the inode's blocks become free, whether it is in use or not |
| `Ufs.Mount.Read` | kernel/fs/ufs.c:448-482 | exactly the bytes in the range for which the file has both size and blocks; the returned count is their number if and only if that is below 2^31 |
| `Ufs.Mount.Write` | kernel/fs/ufs.c:484-530 | for every inode and offset: the exact number of bytes written and blocks taken; the returned count is that number if and only if it is below 2^31; other files keep their bytes; the volume passes its check if and only if it took no block, or the inode is in use and the file gets longer; a file without holes that grows in order below 4 GiB has exactly the bytes written replaced |
| `Ufs.Mount.WriteBlocks` | kernel/fs/ufs.c:496-519 | the loop: what has been written so far is in place, other files are spared, and it stops exactly where a block cannot be had |
| `Ufs.Mount.WriteThenRead` | kernel/fs/ufs.c:448-530 | what is written to a file without holes, growing in order, is read back |
| `UfsFiles.FileKept` | kernel/fs/ufs.c:484-530 | a file whose blocks are spared keeps its bytes |
| `UfsFiles.HalfwayPut` | kernel/fs/ufs.c:507-518 | writing a chunk through the scratch buffer moves the write on by exactly that chunk |
| `UfsFiles.HalfwayGrow` | kernel/fs/ufs.c:498-505 | growing the file changes none of its bytes |
| `UfsFiles.FillGrow` | kernel/fs/ufs.c:498-518 | a block is taken exactly where the file has none, and the count of blocks still to be had goes down by one |
| `UfsFiles.FillDone` | kernel/fs/ufs.c:496-519 | the loop ends with the specified number of bytes and blocks |
| `UfsFiles.GrowsPast` | kernel/fs/ufs.c:521-526 | a file without holes that took blocks got longer, so its inode is written back |
| `UfsSpec.WriteExact` | kernel/fs/ufs.c:484-530 | a write leaves a volume that passes its check if and only if the blocks it took are accounted for |
| `UfsSpec.ListExact` | kernel/fs/ufs.c:273-313 | an added entry leaves a volume that passes its check if and only if the directory's inode is in use |
| `UfsDir.NewEntryHolds` | kernel/fs/ufs.c:284-288 | a directory entry holds its inode number, its kind, and its name cut to 55 bytes with its length |
| `UfsDir.ScanBlock` | kernel/fs/ufs.c:263-268 | the first fitting entry of a block |
| `Ufs.Mount.Scan` | kernel/fs/ufs.c:257-269 | the first fitting entry of the directory's visible blocks |
| `Ufs.Mount.FindInDir` | kernel/fs/ufs.c:254-271 | the inode of the first entry of that name |
| `Ufs.Mount.AddToDir` | kernel/fs/ufs.c:273-313 | for every inode: works if and only if a slot in sight is free or the directory can grow; the first free slot, or the first of a new block, holds the entry; nothing else changes; the volume passes its check if and only if the directory is in use |
| `Ufs.Mount.RemoveFromDir` | kernel/fs/ufs.c:315-336 | the first entry of that name is cleared and nothing else changes; failure changes nothing |
| `Ufs.Mount.Create` | kernel/fs/ufs.c:363-377 | for every directory number: when each result (0, -1, -17, -28) is returned and what it leaves: an inode of mode 0x8000 plus the nine permission bits with one link, and an entry of kind 1; the volume passes its check unless the entry went to an inode that is not in use |
| `Ufs.Mount.Mkdir` | kernel/fs/ufs.c:379-410 | a directory of mode 0x4000 plus the nine permission bits, with two links and its two dots on a new block, listed in the parent with kind 2; nothing is left behind without an inode or block; consistency as for a file |
| `Ufs.Mount.Unlink` | kernel/fs/ufs.c:412-446 | in every case: the named inode and its blocks are free and the entry is cleared; a directory with entries is refused; the volume passes its check if and only if the inode was in use or nothing was removed |
| `UfsLimits.UnlinkDot` | kernel/fs/ufs.c:412-446 | unlinking "." frees the directory, clears no entry, and the parent's entry still names the inode, which is not in use |
| `UfsLimits.FreedTwice` | kernel/fs/ufs.c:412-446 | format, mkdir d, unlink d/., unlink d: the volume does not pass its check |
| `UfsLimits.LostBlock` | kernel/fs/ufs.c:484-530 | format, create a file, write a byte at 8192 and one at 4096: the volume does not pass its check |
| `UfsLimits.MakeHole` | kernel/fs/ufs.c:484-530 | the first of these writes leaves a consistent volume and a file of 8193 bytes with one block |
| `UfsLimits.HiddenName` | kernel/fs/ufs.c:254-336 | format, create 63 files in the root, remove the first: the last one's inode is in use and its name is not found |
| `UfsLimits.AddLast` | kernel/fs/ufs.c:295-313 | the 63rd file is found under its name before that |
| `UfsLimits.HideLast` | kernel/fs/ufs.c:315-336 | the removal that hides it |
| `UfsSpec.DotIsSelf` | kernel/fs/ufs.c:401-406 | "." of a new directory is the directory |
| `Ufs.Mount.Format` | kernel/fs/ufs.c:648-722 | succeeds if and only if there is a data block, and leaves a consistent volume with nothing but the root and its dots |
| `Ufs.Mount.Remount` | kernel/fs/ufs.c:594-637 | the counters on disk are those in memory, and the volume is consistent with fresh cursors |
| `Ufs.Mount.Audit` | kernel/fs/ufs.c:130-252 | a consistent volume passes the check of bitmap, extents and counters |
| `UfsRuns.Perform` | kernel/fs/ufs.c:363-530 | every request by path, none of which is turned away, does what the driver's operation does, with its result, and keeps the volume consistent, files without holes and the tree of names, if it does not remove a dot and writes start within the file or at its end |
| `UfsRuns.RunAll` | kernel/fs/ufs.c:363-530 | so does every sequence of such requests and remounts, step by step, and the volume passes its check |
| `UfsRuns.NewVolume` | kernel/fs/ufs.c:648-722 | a formatted volume is in such a state |
| `UfsRuns.Resolve` | kernel/core/vfs.c:308-348 | a path leads to the inode its names stand for, one after the other, and that inode is in use |
| `UfsRuns.LookedLive` | kernel/fs/ufs.c:338-361 | a name other than the dots stands for an inode in use, neither the root nor the directory itself |
| `UfsTree.TreeListed` | kernel/fs/ufs.c:273-313 | adding an entry for an unnamed inode keeps: every entry but the dots names an inode in use, and no two the same |
| `UfsTree.TreeMade` | kernel/fs/ufs.c:379-406 | so does making a directory |
| `UfsTree.TreeUnlisted` | kernel/fs/ufs.c:443-445 | so does removing a name together with its inode |
| `UfsTree.TreeWrote` | kernel/fs/ufs.c:484-530 | so does writing a file |
| `UfsNames.AddedFound` | kernel/fs/ufs.c:254-313 | a new name is found if and only if it has at most 55 bytes and its slot is in sight: it was a free one, or the size accounts for the new block |
| `UfsNames.AddedOthers` | kernel/fs/ufs.c:254-313 | where scans go through the whole directory all other names stand for what they stood for |
| `UfsNames.RemovedLookup` | kernel/fs/ufs.c:254-336 | a removed name stands for its next entry, all others for what they stood for, as far as they are still in sight |
| `UfsNamed.FormatAndRun` | kernel/fs/ufs.c:363-530 | from format on: every inode in use but the root has a name if and only if no request took an inode and then found no place for its entry |
| `UfsNamed.RunNames` | kernel/fs/ufs.c:363-530 | the same over every run |
| `UfsNamed.StepNames` | kernel/fs/ufs.c:363-530 | the same for one request, with the condition given before the call; directories keep their dots first and a size that counts their entries |
| `UfsNamed.NamelessFile` | kernel/fs/ufs.c:363-377 | on a volume with one data block the 63rd file in the root stays without a name |
| `UfsNamed.NotBusy` | kernel/fs/ufs.c:424-441 | a directory that unlink accepts has nothing but its dots |
| `UfsNamed.UsedBound` | kernel/fs/ufs.c:273-313 | a directory has no more entries than there are inodes, so its size does not wrap |
| `Devfs.FlatPut` | kernel/fs/devfs.c:81-86 | replacing part of a sector replaces that part of the disk |
| `Devfs.BlockDevice.ReadPieces` | kernel/fs/devfs.c:50-60 | sector by sector: exactly the slice, up to the end of the disk |
| `Devfs.BlockDevice.Read` | kernel/fs/devfs.c:43-68 | both paths return exactly the slice, an aligned request is all or nothing; the returned count is the number of bytes read if and only if that is below 2^31 |
| `Devfs.BlockDevice.WritePieces` | kernel/fs/devfs.c:77-90 | read-modify-write changes exactly the byte range |
| `Devfs.BlockDevice.Write` | kernel/fs/devfs.c:70-98 | exactly the bytes moved, a number given by size, offset and room, are replaced and no other byte of the disk; the returned count is that number if and only if it is below 2^31 |
| `Devfs.ReadHuge` | kernel/fs/devfs.c:61-67 | 2 GiB are read and -2^31 is returned; 4 GiB are read and 0 is returned |
| `Devfs.WriteHuge` | kernel/fs/devfs.c:91-97 | 4 GiB are written and 0 is returned |
| `Devfs.AllOrNothing` | kernel/fs/devfs.c:43-68 | a request in whole sectors of 512 bytes moves all or nothing, any other as much as there is |
| `Devfs.WholeCount` | kernel/fs/devfs.c:62 | the 32-bit sector count loses 2^32 sectors at most, which the returned count does not show |
| `Devfs.WriteThenRead` | kernel/fs/devfs.c:43-98 | what is written is read back, by either path |
| `Elf.FindLowest` | kernel/core/elf.c:50-58 | the lowest address of a PT_LOAD segment, 0 without one |
| `Elf.Space.FillPage` | kernel/core/elf.c:100-114 | a page holds the segment's file bytes that lie in it and zeros elsewhere |
| `Elf.Space.LoadSegment` | kernel/core/elf.c:82-115 | all pages of the segment are in place and no other page changed |
| `Elf.Load` | kernel/core/elf.c:43-123 | works if and only if the header is good and as many pages are to be had as the segments take; then every page holds the last segment that has it; all segments are in place if and only if they agree on shared pages; no frame is lost if and only if they share no page and none of their pages was mapped before; one base for all; the heap bound; the entry point; pages of no segment are untouched |
| `Elf.LoadSegments` | kernel/core/elf.c:60-115 | the loop over the segments, with the same condition on the pages |
| `Elf.AllInIff` | kernel/core/elf.c:82-115 | of what the loader leaves, all segments are in place if and only if the segments that share a page ask for the same bytes there |
| `Elf.LostNext` | kernel/core/elf.c:86-98 | a segment finds a page mapped if and only if it was before, or an earlier segment has it |
| `Elf.SegmentBytes` | kernel/core/elf.c:100-114 | if all segments are in place, each byte of a PT_LOAD segment below filesz is the file's, then zeros up to memsz, at its address shifted so that the lowest lies at 1 GiB |
| `Elf.HeapAbove` | kernel/core/elf.c:77-120 | the heap starts on a page boundary above every segment |
| `Elf.SharedPageLost` | kernel/core/elf.c:86-100 | two segments on one page: the loader leaves the second one's bytes, and the first one's have become zeros |
| `Elf.LoadShared` | kernel/core/elf.c:43-123 | the loader run on these two segments, which also loses a frame |
| `Sched.Scheduler.constructor` | kernel/core/sched.c:270-346 | only idle exists, current and alone in the ready queue |
| `Sched.Scheduler.EnqueueReady` | kernel/core/sched.c:80-90 | a READY slot goes to the tail; both queues stay linked |
| `Sched.Scheduler.DequeueReady` | kernel/core/sched.c:92-100 | the head is taken off, NULL when empty |
| `Sched.Scheduler.DoSwitch` | kernel/core/sched.c:102-166 | the switch step: wake, requeue, dispatch, which `SchedSpec.SwitchExact` describes slot by slot |
| `Sched.Scheduler.WakeSleepers` | kernel/core/sched.c:108-126 | the loop moves exactly the expired sleepers |
| `Sched.Scheduler.CreateThread` | kernel/core/sched.c:348-426 | the create step: first unused slot, next pid |
| `Sched.Scheduler.SleepFor` | kernel/core/sched.c:435-454 | both halves in one, for a caller with interrupts off: queued behind earlier and equal deadlines |
| `Sched.Scheduler.MarkSleeping` | kernel/core/sched.c:435-442 | the first half: state and deadline |
| `Sched.Scheduler.QueueSleeper` | kernel/core/sched.c:444-451 | the second half: the place in the sleep queue |
| `Sched.Scheduler.ExitWith` | kernel/core/sched.c:456-468 | the exit step |
| `Sched.Scheduler.TimerTick` | kernel/core/sched.c:203-487 | the tick step; a switch is asked for if and only if the slice ended, a sleeper is due, or it was before |
| `Sched.Scheduler.ReapZombie` | kernel/core/sched.c:496-520 | the wait step: the first zombie of that pid is released and its code returned |
| `Sched.Scheduler.BlockCurrent` | kernel/core/sched.c:847-854 | the block step |
| `Sched.Scheduler.WakeChannel` | kernel/core/sched.c:856-868 | the wakeup step; a switch is asked for if and only if somebody waited |
| `Sched.StepKeeps` | kernel/core/sched.c:80-868 | every step keeps the invariant |
| `Sched.RunKeeps` | kernel/core/sched.c:80-868 | so does every run |
| `Sched.Partition` | kernel/core/sched.c:80-166 | a live slot is current, once in the ready queue, once in the sleep queue, marked for sleep and in neither, blocked or zombie, as its state says |
| `Sched.OneRuns` | kernel/core/sched.c:128-163 | at most one process besides idle is RUNNING, the current one |
| `Sched.WakeExact` | kernel/core/sched.c:111-126 | a switch wakes exactly the sleepers whose deadline has passed |
| `Sched.NoEarlyWake` | kernel/core/sched.c:108-454 | a sleeper leaves the queue if and only if a switch happens at or after its deadline |
| `Sched.DeadlineKept` | kernel/core/sched.c:435-454 | no step changes the deadline of a sleeper |
| `Sched.WakeupExact` | kernel/core/sched.c:856-868 | a wakeup readies exactly the processes blocked on its channel |
| `Sched.SleepTicksExact` | kernel/core/sched.c:438-439 | a sleep lasts its milliseconds if and only if the product fits 32 bits |
| `Sched.BoundedWaiting` | kernel/core/sched.c:92-166 | the process at position k of the ready queue runs after the (k+1)-th switch, whatever else happens |
| `SchedSpec.SwitchExact` | kernel/core/sched.c:102-163 | a switch runs the first of those that were ready, then those whose deadline has passed, then the process taken off the CPU; both queues, the slice of ten ticks and every slot after it; no other slot changes |
| `SchedSpec.Preempted` | kernel/core/sched.c:128-143 | the process taken off the CPU keeps it if and only if nobody else is in line; otherwise it is READY at the end of the ready queue |
| `SchedSpec.Transitions` | kernel/core/sched.c:80-868 | in every step each slot enters a state for exactly one kind of cause: ZOMBIE only by its own exit, UNUSED only by a wait that finds it first |
| `SchedSpec.Identity` | kernel/core/sched.c:348-520 | pid, parent and exit status of a slot change only when it is given to a new thread or its process exits |
| `SchedSpec.PidsGoRound` | kernel/core/sched.c:181-185 | pids go round from 1 to 9999 |
| `SchedSpec.Slice` | kernel/core/sched.c:470-476 | after n of its ticks a process has n less of its slice left, and nothing else but the clock changed |
| `SchedSpec.QueuesExact` | kernel/core/sched.c:80-868 | without a switch nobody leaves a queue or the CPU; who joins the ready queue and in which order; a sleeper is queued behind all with an earlier or the same deadline and before all others |
| `SchedSpec.BlockUntilWakeup` | kernel/core/sched.c:847-868 | a blocked process stays so through every run without a wakeup of its channel, and the next one makes it READY and queues it |
| `SchedSpec.ExitStatus` | kernel/core/sched.c:456-505 | over every run the code given to exit is the one that the wait which releases the process returns |
| `SchedSleep.NoneLostIff` | kernel/core/sched.c:435-454 | over whole runs: no marked process is lost if and only if no switch falls between the halves of a sleep |
| `SchedSleep.RestoredIff` | kernel/core/sched.c:441-451 | for one sleep: it can be finished, with every sleeper queued, if and only if no switch happened in between; otherwise no run makes it good |
| `SchedSleep.LostForever` | kernel/core/sched.c:102-166 | no later run dispatches a lost process |
| `SchedSleep.FullPartition` | kernel/core/sched.c:80-454 | after a run without such switches every SLEEPING process is once in the sleep queue |
| `SchedSleep.LosingRun` | kernel/core/sched.c:435-454 | a run from boot that loses a thread: a sleeper is due in the tick that falls between the halves |
| `SchedSleep.SleepWithInterruptsOff` | kernel/core/sched.c:435-454 | a caller that enters with interrupts off is queued |
| `SchedSleep.AsleepIff` | kernel/core/sched.c:108-126 | over whole runs a process sleeps exactly as long as no switch comes at or after its deadline |
| `SchedSleep.NotBefore` | kernel/core/sched.c:435-454 | a process that asked for some ticks sleeps through every run of fewer |
| `SchedSleep.FirstDueSwitch` | kernel/core/sched.c:108-126 | the first switch at or after the deadline readies it |
| `SchedSleep.SleepHoldsIff` | kernel/core/sched.c:442 | a sleep is not over at once if and only if the clock plus its ticks fit 32 bits |
| `Calendar.GmTime` | lib/libc.c:453-487 | works if and only if the moment is below 67767976233532800, where the year fits an int; the fields are in range, day of year and day of week follow from the others, and the date is the moment's, also by the POSIX formula; months have their lengths |
| `Calendar.MkTime` | lib/libc.c:503-519 | the sum over years and months, which is the POSIX formula from 1970 on |
| `Calendar.ThereAndBack` | lib/libc.c:453-519 | converting to a date and back gives the moment, for exactly the moments whose year fits |
| `Calendar.YearFits` | lib/libc.c:466-519 | the year of a date fits an int if and only if its seconds are below that bound |
| `Calendar.SecondsInjective` | lib/libc.c:503-519 | two dates with the same seconds are the same date |
| `Calendar.DaysFormula` | lib/libc.c:507-509 | the loop over years equals the closed count of leap days |
| `Calendar.MonthStarts` | lib/libc.c:447-517 | the sums of the table of month lengths are (367 m + 5) / 12, less 1 or 2 days from March on |
| `Calendar.PosixFormula` | lib/libc.c:503-519 | the loops equal the POSIX formula, with the day of the year in closed form from year, month and day, for every year from 1970 on |

## Left out

- Code generation for calls, strings, indexing, members, address-of, dereference and block-local
  declarations: `sub rsp` reserves space for parameters only, so locals overlap pushed operands, and the
  fourth and sixth argument of a call go to each other's registers.
- The growth of the code buffer and of the patch arrays; offsets stay below 2^31. More than 256 parameters.
- CodeGen.Generator.GenStmt: loops nested deeper than 64 overrun the generator's arrays and are excluded, here and in the
  members for each kind of statement and for functions.
- Statements and declarations in the parser, and the characters below the tokens. A tree built after an
  error is not described.
- ExprParser.Cursor.ArgumentList: the array of 16 arguments, which longer calls overrun, is not modelled.
- Several heap regions: regions are pushed at the head of the list, so sortedness is a single-region claim.
- Heap.Allocator.Kfree: pointers that no allocation returned, or whose block has been merged into another, are not
  described, because the code reads whatever lies before them. `kfree_aligned` frees the word before its pointer.
- `paging_init`, `paging_map` and TLB invalidation.
- Paging.Memory.MapRegion: as for creating a space.
- Paging.Memory.CreateSpace: device regions are required to lie outside the allocator's memory and outside the
  shared slots; a device below 1 GiB would be mapped into the kernel's own tables.
- Paging.Memory.CopySpace: private page-table entries with bit 7 set are excluded, because the flags are
  passed on and the bit means huge there. Frames beyond the end of memory read as blank.
- Paging.Memory.MapPage: flags are the low twelve bits; bit 63 is part of the frame number.
- The kernel's checksums, times, user and group numbers, and the blocks field of inodes.
- The bytes of the superblock and of the inode table: those areas of the disk are typed. Disk errors do not occur.
- Ufs.Mount.Write: block numbers beyond 2^32, which the driver cuts, are not described.
- Ufs.Mount.Unlink: like all operations it is described for a consistent volume; what requests do to one that is
  already inconsistent is not.
- UfsRuns.RunAll: files that are kept open while their name is removed, and writes that start beyond the end, are
  not among the requests; Ufs.Mount.Write says what such writes do. ".." at the root of the volume stays there.
- UfsNames.AddedFound: new blocks that do not become the directory's last are not described.
- UfsNames.AddedOthers: likewise.
- Listing, rename, symbolic links and stat of UFS.
- Devfs.BlockDevice.Read: requests that reach beyond sector 2^32 wrap in the driver and are excluded. The disk is taken to
  transfer every sector it is asked for; the AHCI command has a 16-bit sector count and one transfer descriptor.
- Devfs.BlockDevice.Write: likewise.
- Elf.Space.LoadSegment: pages hold bytes here and table entries in the paging model; the two are not joined.
- The decoding of ELF headers from bytes, `elf_load_current`, and the user stack.
- Elf.Load: programs whose segments lie outside the file or wrap around the address space are excluded,
  because the loader trusts them.
- `sched_kill` and `sched_wake_irq`, which change a state without touching the queues; fork, clone and program
  start beyond the slot and the queue; FPU, CR3 and TSS handling; the TSC clock.
- Sched.Scheduler.MarkSleeping: the two writes before interrupts are disabled, state and deadline, are one step; the caller
  is a running process other than idle.
- Sched.Scheduler.ExitWith: the caller is a running process other than idle.
- Sched.Scheduler.BlockCurrent: likewise.
- Sched.Scheduler.SleepFor: likewise.
- Sched.Scheduler.ReapZombie: the caller is running.
- Calendar.MkTime: months above 12 read beyond the table of month lengths; sums that overflow int are not described.
- Drivers, interrupts, the console, the network, the shell, and the rest of the C library.
