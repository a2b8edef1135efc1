# Verified models of the CS:APP labs

This project models the core algorithms of the repository in Dafny and proves what they are for: a boundary-tag
allocator, a Y86-64 instruction set with its SEQ processor, assembler and three machine programs, an LRU cache
simulator, a concurrent web-proxy cache and its bounded buffer, a buffered reader, tiled transposes and
bit-level floating point. `dafny verify dfyconfig.toml` checks everything.

Code that updates state in place is a class or a method over arrays, proved against a specification function;
what the code promises is then proved about that function, over every input, every run or every interleaving.

| files | component |
|---|---|
| Lists | sequences without duplicates, shared by the others |
| HeapModel, HeapMemory, HeapSteps, HeapFacts, HeapShapes, Requests, Mm, MmClient, MmRun | `malloclab/src/mm.c` over `memlib.c`: the heap as a map of blocks, its image in one array of 8-byte words, the allocator on that array, and the runs of a client, as in `mdriver.c` |
| Words, ByteMemory, Isa, Alu, Meaning | 64-bit words, byte memory and the interpreter of `isa.c`, what its ALU computes bit by bit and what each instruction does |
| SeqHcl, SeqSim, SeqRefinement | the HCL signals and the SEQ simulator, and its refinement of the instruction set |
| Assembly, Programs, Ncopy, RsumList, CopyBlock, Layout, SeqPrograms | encoded instructions and the three machine programs, on the instruction set and on SEQ |
| ObjectText, YoLines, Yas, YasGrammar, Assembler, Sources, ProgramText, CopyProgram | the .yo text, the assembler, its grammar and the loader, whole programs through them, the three machine programs from their source, and `copy_block.asm` from source text to halt |
| Bits, Lru, CacheSim, DCache, DCacheBlocks | the cache simulator `csim.c` |
| ProxyModel, ProxyRuns, ProxyCache, ProxyThreads, Sbuf | the proxy's object cache, alone and under any number of threads, and the bounded buffer |
| Rio, Trans, Floats, HowManyBits | the buffered reader, the transposes, the float puzzles and `howManyBits` |

Results about behaviour that differs from what the repository says of itself:

- `mm_malloc` stores the adjusted size in an `int`. A request is served with a block large enough for it exactly
  when it is at most 0x7FFFFFF0 bytes (`Requests.MallocSizeIffSmall`); four gigabytes get eight bytes
  (`Requests.LargeRequestShrinks`). `mm_realloc` asks for twice the size, so a block that must move is covered
  always up to 0x3FFFFFF8 bytes, never from there to 2^31, and beyond only by the lower bits of the size
  (`Requests.DoubledCoversIff`).
- SEQ accepts an instruction that the instruction set refuses exactly when its operand bytes are missing or name
  no register while its data address is inside memory (`SeqRefinement.AcceptsRefusedIff`); rrmovq with a register
  byte of 0xFF is one (`SeqRefinement.RefusedExample`).
- The simulator's built-in check compares SEQ one uncommitted instruction behind: for a program without errors it
  fails exactly when the instruction limit cuts the program off after an instruction that changed registers,
  memory or condition codes (`SeqRefinement.CheckVerdict`), as for a single irmovq with the limit 1
  (`SeqRefinement.CheckFailsExample`).
- A label defined twice keeps its first address (`Yas.LabelsResolve`).

## Model

| member | source | states |
|---|---|---|
| HeapModel.FirstFitFound | malloclab/src/mm.c:205-217 | find_fit answers the first listed block that is large enough, and nothing exactly when every listed block is too small |
| HeapModel.FitIffSomeFreeBlock | malloclab/src/mm.c:205-217 | on a well-formed heap the list search fails exactly when no free block of the whole heap is large enough |
| HeapModel.PlaceWellFormed | malloclab/src/mm.c:219-237 | placing in a free block keeps the heap well formed: blocks tile it, the list holds exactly the free blocks, no two free blocks are adjacent |
| HeapModel.CoalesceWellFormed | malloclab/src/mm.c:292-327 | all four cases of coalescing turn a heap with one unlisted free block into a well-formed heap |
| HeapModel.FreeWellFormed | malloclab/src/mm.c:144-160 | freeing any live block of a well-formed heap gives a well-formed heap |
| HeapModel.ExtendWellFormed | malloclab/src/mm.c:239-253 | growing over the old epilogue and coalescing keeps the heap well formed and yields a free block of at least the size asked for |
| HeapModel.MallocWellFormed | malloclab/src/mm.c:103-138 | allocation keeps the heap well formed; a result is a live block of at least the size, a failure leaves the heap alone |
| HeapMemory.Unpack | malloclab/src/mm.c:42-47 | the header macros read back size, allocation bit and previous-allocation bit, and setting or clearing the latter changes nothing else |
| HeapMemory.Macros | malloclab/src/mm.c:44-47 | the macros that read and change a header are these functions, as and, or and shift on the bits of a size_t |
| HeapMemory.PackIs | malloclab/src/mm.c:42-43 | packing a header joins its three fields by or |
| HeapMemory.UnlinkLinks | malloclab/src/mm.c:270-290 | the stores of remove_from_free_list leave exactly the doubly linked list without that block |
| HeapMemory.PushLinks | malloclab/src/mm.c:255-268 | the stores of add_to_free_list leave exactly the list with the block at its head |
| HeapSteps.SplitShows | malloclab/src/mm.c:222-230 | the split's writes make headers, footers and bits true of the split heap, although they hard-code the previous-allocation bit |
| HeapSteps.TakeShows | malloclab/src/mm.c:231-236 | taking a whole block keeps every header, bit and footer true |
| HeapSteps.MergeShows | malloclab/src/mm.c:297-311 | merging with the next block writes the tags of the merged heap and touches no live payload |
| HeapSteps.MergeBothShows | malloclab/src/mm.c:312-322 | merging with both neighbours writes the tags of the merged heap and touches no live payload |
| HeapSteps.FreeShows | malloclab/src/mm.c:151-154 | the three stores of mm_free make the tags true of the heap with that block free |
| HeapSteps.GrowShows | malloclab/src/mm.c:248-250 | the three stores of extend_heap make the tags true of the grown heap with its new epilogue |
| HeapSteps.MallocAllocated | malloclab/src/mm.c:103-138 | an allocated block is live, large enough, distinct from every block live before, all of which stay live with their sizes |
| HeapSteps.MallocFresh | malloclab/src/mm.c:115-137 | the block handed out was not allocated before |
| HeapSteps.MallocKeeps | malloclab/src/mm.c:103-138 | allocation moves and shrinks no live block |
| HeapSteps.MoveContents | malloclab/src/mm.c:186-199 | across allocate, copy and free, the moved block holds the old payload and every other live payload is untouched |
| HeapSteps.PayloadWriteShows | malloclab/src/mm.c:193 | writing inside a live payload disturbs no tag, no link and no other payload |
| HeapFacts.EveryWordOwnedOnce | malloclab/src/mm.c:49-56 | every word below the epilogue belongs to exactly one block |
| HeapFacts.AllFreed | malloclab/src/mm.c:292-327 | once everything has been freed the heap is one free block of all words but three, or none if it was never extended |
| HeapFacts.MallocGrowsIff | malloclab/src/mm.c:115-137 | the break moves exactly when no free block fits and there is room, and the call fails, changing nothing, exactly when neither holds |
| HeapFacts.ServedIff | malloclab/src/mm.c:115-137 | a request is served exactly when some free block is large enough or the region has room for one more chunk |
| HeapFacts.LiveAfterMalloc | malloclab/src/mm.c:103-138 | the live blocks after an allocation are exactly those before and the one answered, if any |
| HeapFacts.LiveAfterFree | malloclab/src/mm.c:144-160 | the live blocks after a free are exactly those before less the freed one, with their sizes |
| HeapShapes.CoalesceShape | malloclab/src/mm.c:292-327 | coalescing reaches from the start of a free block below to the end of a free block above, and the result is first in the list, before all others in their old order |
| HeapShapes.FreeShape | malloclab/src/mm.c:144-160 | a freed block ends up in a block that joins exactly its free neighbours to it and is first in the list |
| HeapShapes.ExtendShape | malloclab/src/mm.c:239-253 | growth yields one free block from a free block at the end of the heap, or from the old end, to the new end |
| HeapShapes.PlaceShape | malloclab/src/mm.c:219-237 | placing cuts the block to the size asked for exactly if the rest can be a block, which is then free and first in the list, and otherwise takes all of it |
| HeapShapes.MallocShape | malloclab/src/mm.c:103-138 | exactly which block is taken, the first listed with room or the grown end, and what is left of it: a rest of at least the smallest block is cut off, free and first in the list, and a smaller one is not |
| HeapShapes.MallocTight | malloclab/src/mm.c:219-237 | the block answered has the size asked for or wastes less than a smallest block |
| Requests.MallocSizeIffSmall | malloclab/src/mm.c:115 | in machine widths the block covers header and request exactly for requests up to 0x7FFFFFF0 bytes |
| Requests.LargeRequestShrinks | malloclab/src/mm.c:115 | a request of 2^32 bytes is given an 8-byte block |
| Requests.SmallRequest | malloclab/src/mm.c:115 | block sizes are aligned, at least the minimum, hold the request and waste less than a word beyond it |
| Requests.DoubledRoom | malloclab/src/mm.c:182-193 | the copy of mm_realloc fits the new block as well as the old |
| Requests.DoubledCoversIff | malloclab/src/mm.c:180-193 | for every size_t and block size that make mm_realloc move, exactly when the doubled request covers the copy: always up to 0x3FFFFFF8 bytes, never from there to 2^31, and beyond by the size's lower bits |
| Mm.Allocator.constructor | malloclab/src/memlib.c:25-38 | a region with the break at its start and no heap |
| Mm.Allocator.MmInit | malloclab/src/mm.c:81-97 | from whatever state, once the break is at the start: builds the empty heap, or fails without writing when three words do not fit |
| Mm.Allocator.MemResetBrk | malloclab/src/memlib.c:48-51 | moves the break back to the start, so that mm_init can be called again |
| Mm.Allocator.MemSbrk | malloclab/src/memlib.c:58-69 | moves the break or refuses, exactly at the end of the region |
| Mm.Allocator.FindFit | malloclab/src/mm.c:205-217 | the loop over the links in memory computes first fit of the list |
| Mm.Allocator.RemoveFromFreeList | malloclab/src/mm.c:270-290 | in memory: the list without the block, headers and payloads as before |
| Mm.Allocator.AddToFreeList | malloclab/src/mm.c:255-268 | in memory: the list with the block in front, headers and payloads as before |
| Mm.Allocator.Place | malloclab/src/mm.c:219-237 | in memory: the placed heap of the model, no live payload touched |
| Mm.Allocator.Coalesce | malloclab/src/mm.c:292-327 | in memory: the coalesced heap of the model, well formed, no live payload touched |
| Mm.Allocator.ExtendHeap | malloclab/src/mm.c:239-253 | in memory: the extended heap of the model, or no change at all when the break cannot move |
| Mm.Allocator.MmMalloc | malloclab/src/mm.c:103-138 | in memory: exactly the model's allocation from the current or freshly initialised heap, live payloads untouched |
| Mm.Allocator.MmFree | malloclab/src/mm.c:144-160 | in memory: exactly the model's free, every other live payload untouched |
| Mm.Allocator.MmRealloc | malloclab/src/mm.c:168-203 | each branch's heap and memory: in place, refused, freed, or moved with the old payload copied and all others untouched |
| MmClient.AdvanceGood | malloclab/src/mdriver.c:604-675 | after every legal operation the heap is well formed and its live blocks are exactly the blocks that the client holds |
| MmClient.SucceedsIff | malloclab/src/mdriver.c:604-675 | an allocation or a moving reallocation of a non-zero size succeeds exactly if a free block is large enough or the region has room; one that fits its block always succeeds, an operation that the client may not do never |
| MmClient.ServedTightly | malloclab/src/mm.c:103-203 | after any allocation or moving reallocation of a run, the block is large enough and wastes less than a smallest block |
| MmClient.HoldsLastWritten | malloclab/src/mdriver.c:604-675 | the client holds a word exactly if it was written to it and no later write, free, renewal or shrinking ended that |
| MmClient.HoldsLastGranted | malloclab/src/mdriver.c:604-675 | exactly the ids with a grant that nothing took back are held, with as many words as the size last granted |
| MmClient.NothingLeaks | malloclab/src/mdriver.c:577-685 | whatever the operations were, a client that ends holding nothing has left one free block of all words but three, or a heap never extended |
| MmRun.RunAlloc | malloclab/src/mdriver.c:604-630 | one allocation in memory: heap, answer and place of the block are exactly the model's, the block wastes less than a smallest block, and every client array is as it was |
| MmRun.RunResize | malloclab/src/mdriver.c:632-667 | one reallocation in memory: heap, answer and place are exactly the model's; a block that moved wastes less than a smallest block; the array keeps its contents up to the smaller size and all other arrays theirs |
| MmRun.RunFree | malloclab/src/mdriver.c:669-675 | one free in memory: the heap is exactly the model's, without that block, and all other arrays are as they were |
| MmRun.Run | malloclab/src/mdriver.c:577-685 | from an allocator in any state, for any sequence of allocations, frees, resizes and writes: heap, answers and places are the model's outcome, the live blocks are the client's alone, every word last written is in memory, and once all is freed one free block is left |
| ByteMemory.WordRoundTrip | archlab/sim/misc/isa.c:310-343 | storing a word as eight bytes and reading it back is the identity on 64-bit words |
| ByteMemory.ToBytesAt | archlab/sim/misc/isa.c:333-343 | byte k of a stored word is its digit of weight 256^k |
| ByteMemory.ReadBack | archlab/sim/misc/isa.c:310-343 | get_word_val after set_word_val at the same place |
| ByteMemory.ReadOther | archlab/sim/misc/isa.c:310-343 | a store does not change words it does not overlap |
| ByteMemory.GetWordVal | archlab/sim/misc/isa.c:310-323 | the byte loop reads the little-endian word, and fails exactly outside memory |
| ByteMemory.SetWordVal | archlab/sim/misc/isa.c:333-343 | the byte loop stores the word and nothing else, and fails without effect exactly outside memory |
| Isa.SubDecidesOrder | archlab/sim/misc/isa.c:482-506 | after a subtraction every condition compares the operands in true signed order, overflow included |
| Isa.AddDecidesSign | archlab/sim/misc/isa.c:590-623 | after an addition the sign conditions compare the true sum with zero |
| Isa.AndTests | archlab/sim/misc/isa.c:460-480 | andq of a register with itself keeps it and compares it with zero |
| Alu.LogicBits | archlab/sim/misc/isa.c:460-480 | for all operands each bit of andq is set exactly if it is in both, and of xorq exactly if it is in one |
| Alu.BitsDetermine | archlab/sim/misc/isa.c:460-480 | sixty-four bits determine a word, so that the above fixes every answer |
| Alu.SumsModulo | archlab/sim/misc/isa.c:460-480 | addq and subq are the sum and difference modulo 2^64, and an unknown operation answers zero |
| Alu.FlagsSay | archlab/sim/misc/isa.c:482-506 | each flag by itself: zero, negative, and overflow of the true sum or difference |
| Meaning.RegisterInstruction | archlab/sim/misc/isa.c:677-943 | from the bytes in memory to the next state: halt, nop, conditional moves, constants, ALU operations and iaddq |
| Meaning.MoveInstruction | archlab/sim/misc/isa.c:733-791 | loads and stores with and without base register, and that outside memory they change nothing |
| Meaning.StackInstruction | archlab/sim/misc/isa.c:824-908 | push, pop, call and return, with %rsp as operand too, and what each leaves behind when its address is outside memory |
| Meaning.JumpInstruction | archlab/sim/misc/isa.c:806-823 | a jump goes to its target exactly if its condition holds |
| Meaning.Refused | archlab/sim/misc/isa.c:627-943 | which instructions are refused before anything changes, and with which status |
| Isa.IsaMachine.StepState | archlab/sim/misc/isa.c:627-943 | the in-place interpreter does exactly the step function, status and partial effects of failing instructions included |
| SeqSim.Simulator.UpdateState | archlab/sim/seq/ssim.c:615-656 | commits exactly the pending results, the memory port last |
| SeqSim.Simulator.SimStep | archlab/sim/seq/ssim.c:660-784 | commits and computes the next pending results as the datapath function says |
| SeqSim.Simulator.RunDatapath | archlab/listings/seq-full.hcl:28-131 | the staged latches hold the datapath's signals for the fetched instruction |
| SeqSim.Simulator.FetchInstruction | archlab/listings/seq-full.hcl:3-26 | the fetch signals, with the defaults for bytes outside memory |
| SeqSim.Simulator.SimRun | archlab/sim/seq/ssim.c:795-810 | runs until the limit or the first status that is not AOK, and the printed count is exactly the number of instructions until then |
| SeqRefinement.StepRefines | archlab/sim/seq/ssim.c:660-784 | with fine operands SEQ and the instruction set agree on the status, and after AOK the pending update gives exactly the ISA successor, pushq and popq of %rsp included |
| SeqRefinement.AcceptedOperands | archlab/sim/misc/isa.c:654-908 | every instruction the ISA executes or halts on has fine operands, so the refinement covers all such steps |
| SeqRefinement.AcceptsRefusedIff | archlab/listings/seq-full.hcl:110-116 | exactly when SEQ lets through an instruction that the ISA refuses |
| SeqRefinement.RefusedExample | archlab/listings/seq-full.hcl:110-116 | such an instruction: rrmovq with the register byte 0xFF, at reset |
| SeqRefinement.RunRefines | archlab/sim/seq/ssim.c:795-810 | runs without error end alike; after a halt registers, memory and condition codes are identical |
| SeqRefinement.CheckVerdict | archlab/sim/seq/ssim.c:246-282 | for which error-free runs the built-in check succeeds, both directions |
| SeqRefinement.CheckFailsExample | archlab/sim/seq/ssim.c:246-282 | a program of an irmovq and a halt for which the built-in check fails when one instruction is allowed |
| SeqRefinement.HaltingProgramPasses | archlab/sim/seq/ssim.c:246-282 | a program that halts within the limit ends the reference loop in its halting state |
| Assembly.AtParts | archlab/sim/misc/isa.c:652-674 | where the parts of an encoded instruction lie in memory |
| Assembly.EncodingIs | archlab/sim/misc/isa.c:62-104 | the bytes of every instruction |
| Assembly.FetchEncoded | archlab/sim/misc/isa.c:652-674 | decoding an encoded instruction recovers code, function, registers, constant and next address |
| Programs.WordsKept | archlab/sim/misc/isa.c:333-343 | a row of words survives stores to a disjoint row |
| Programs.WordsWritten | archlab/sim/misc/isa.c:333-343 | a stored row of words can be read back |
| Ncopy.TestsRun | archlab/listings/ncopy.asm:35-54 | the five tests of the unrolled loop add the number of positive words to %rax |
| Ncopy.LoopRun | archlab/listings/ncopy.asm:23-59 | the loop terminates with fewer than five words left and everything before them copied and counted |
| Ncopy.TailRun | archlab/listings/ncopy.asm:71-135 | each of the four tails copies and counts exactly the remaining words |
| Ncopy.NcopyCorrect | archlab/listings/ncopy.asm:14-140 | called with any arrays that fit, ncopy returns with the words copied, %rax the number of positive words, %rsp popped, other registers intact and no other byte changed |
| RsumList.RsumListCorrect | archlab/listings/rsum_list.asm:26-36 | for every list, rsum_list returns the sum modulo 2^64, restores %r12 and writes only 16 bytes of stack for each node and 8 more |
| CopyBlock.XorAllBits | archlab/listings/copy_block.asm:26-41 | a bit of the exclusive or of all words is set exactly if an odd number of them have it |
| CopyBlock.CopyBlockCorrect | archlab/listings/copy_block.asm:26-41 | for every block that fits, copy_block returns with the words copied, each bit of %rax the parity of that bit over the words, other registers intact and no other byte changed |
| Layout.NcopyCanBeLoaded | archlab/listings/ncopy.asm:14-140 | the listing is consistent: some memory holds it at any address at which it fits |
| Layout.RsumCanBeLoaded | archlab/listings/rsum_list.asm:26-36 | the same for rsum_list |
| Layout.CopyCanBeLoaded | archlab/listings/copy_block.asm:27-41 | the same for copy_block |
| ProgramText.RsumFromSource | archlab/listings/rsum_list.asm:26-36 | with any names for its labels, on the line of their instruction or on lines of their own among empty ones, the source of rsum_list assembles without error and loading the output puts exactly the listing into memory, every label being the address of the next instruction |
| ProgramText.NcopyFromSource | archlab/listings/ncopy.asm:14-140 | the same for ncopy |
| ProgramText.CopyFromSource | archlab/listings/copy_block.asm:27-41 | the same for copy_block |
| CopyProgram.ProgramAssembles | archlab/listings/copy_block.asm:1-45 | the whole file, with directives, data and stack label, for blocks of any words and any length up to 21, with which the code just ends below the stack: it assembles without error and loading the output leaves every instruction and word at its address |
| CopyProgram.CopyProgramCorrect | archlab/listings/copy_block.asm:1-45 | from source lines to halt: assembled, loaded into any memory and started at reset with any registers, both the ISA and SEQ halt in the same state, the destination holding the source block and %rax the parity of every bit |
| CopyProgram.ChecksumExample | archlab/listings/copy_block.asm:8-12 | for the block of the file that answer is 0xcba |
| SeqPrograms.SeqFollows | archlab/sim/seq/ssim.c:660-784 | SEQ follows any error-free run of the ISA, one uncommitted instruction behind |
| SeqPrograms.NcopyOnSeq | archlab/listings/ncopy.asm:14-140 | the result of ncopy on the SEQ processor |
| SeqPrograms.RsumListOnSeq | archlab/listings/rsum_list.asm:26-36 | the result of rsum_list on the SEQ processor |
| SeqPrograms.CopyBlockOnSeq | archlab/listings/copy_block.asm:26-41 | the result of copy_block on the SEQ processor |
| SeqPrograms.NcopyLoop | archlab/sim/pipe/ncopy.c:12-25 | the simple C loop leaves the same memory and count as the unrolled program |
| SeqPrograms.DiffMem | archlab/sim/misc/isa.c:163-181 | the word-wise comparison reports a difference exactly when the memories differ |
| SeqPrograms.RunTtySim | archlab/sim/seq/ssim.c:193-283 | the terminal simulator's verdict is the comparison of the two runs, and it is success whenever the ISA run halts |
| ObjectText.HexStuff | archlab/sim/misc/yas.c:122-131 | writes the low hexadecimal digits in place, most significant first |
| ObjectText.PrintCode | archlab/sim/misc/yas.c:133-190 | the filled template is the address column, the code column and the source text |
| YoLines.ColumnsAre | archlab/sim/misc/yas.c:133-190 | column by column what a printed line says: address digits, colon, pairs of digits from column 7 on, blanks, bar and source text |
| ObjectText.ParsePrinted | archlab/sim/misc/isa.c:216-265 | parsing a printed line gives back its address and code bytes, whatever source text follows |
| ObjectText.BlankSkipped | archlab/sim/misc/yas.c:172-174 | a line printed without an address loads nothing |
| YoLines.BlankColumns | archlab/sim/misc/yas.c:172-174 | a line without tokens is blanks up to the same bar, and the source text |
| YoLines.DigitIs | archlab/sim/misc/isa.c:183-191 | a character is a hexadecimal digit of either case for exactly its value |
| YoLines.CodeLineTaken | archlab/sim/misc/isa.c:216-297 | every line of the accepted shape, not only printed ones, gives the bytes of its pairs to the address of its digits |
| YoLines.OtherLines | archlab/sim/misc/isa.c:216-255 | a line without 0x is skipped, one without a colon behind its digits is rejected |
| YoLines.LineStores | archlab/sim/misc/isa.c:256-297 | the bytes of a line go one after the other to its address as far as memory reaches, and it is accepted exactly if they fit |
| YoLines.FileStores | archlab/sim/misc/isa.c:212-300 | a file is loaded line by line up to the first line rejected, and the bytes are counted |
| ObjectText.LoadMem | archlab/sim/misc/isa.c:194-300 | the loader's loops leave the memory and count of the line-by-line specification, rejected lines included |
| Yas.StatementEncodes | archlab/sim/misc/yas.c:380-442 | whatever valid instruction is written, with its constant as number, label or omitted displacement, the code buffer ends up with its encoding |
| Yas.DataEncodes | archlab/sim/misc/yas.c:227-243 | a data directive prints the low bytes of its number or label, lowest first |
| Yas.AlignMoves | archlab/sim/misc/yas.c:364-379 | .align moves to the least multiple that is not below the address |
| Yas.CodesAre | archlab/sim/misc/isa.c:62-104 | first byte and size of every mnemonic |
| Yas.Int32Is | archlab/sim/misc/yas.c:350-379 | the operands of .pos and .align are kept modulo 2^32 |
| Yas.DivTruncIs | archlab/sim/misc/yas.c:364-379 | the division of .align truncates toward zero |
| YasGrammar.LineIff | archlab/sim/misc/yas.c:305-443 | in the second pass a line is an error exactly if it does not obey the grammar or its address is out of range |
| YasGrammar.AssemblesIff | archlab/sim/misc/yas.c:548-624 | a program assembles without error exactly if every line obeys the grammar with the labels it defines, and no printed address is above 0xFFFF |
| Yas.RoundTrip | archlab/sim/misc/yas.c:305-443 | assembling, printing, loading and fetching a written instruction recovers it with its operands |
| Yas.LabelsResolve | archlab/sim/misc/yas.c:505-522 | throughout the second pass a label means the address which that pass reaches at its first definition, and undefined labels are not found |
| Yas.SamePositions | archlab/sim/misc/yas.c:350-394 | both passes reach the same addresses, errors or not |
| Yas.OutputLoads | archlab/sim/misc/isa.c:194-300 | loading a printed program gives memory with each line's code at its address, in order, and the number of bytes |
| Yas.LoadedInstruction | archlab/sim/misc/isa.c:652-674 | an instruction that no later line overlaps is fetched from the loaded program |
| Sources.AssembledInstruction | archlab/sim/misc/yas.c:548-624 | from a source line to the simulator: in a program that assembles without error, the line's instruction is fetched at the line's address, unless later lines overlap it |
| Sources.NoCode | archlab/sim/misc/yas.c:328-342 | in either pass a line with only a label leaves the address alone, and a line without tokens everything |
| Sources.ProgramLoads | archlab/sim/misc/yas.c:305-443 | any program of instructions, data, directives, lone labels and empty lines whose constants are numbers or labels of its lines and whose lines do not overlap assembles without error, and loading the output leaves every line's bytes, labels resolved, at its address and all other bytes as they were |
| Sources.FetchedFrom | archlab/sim/misc/isa.c:652-674 | each instruction of such a program is fetched from the address of its line |
| Assembler.Assembler.RegOperand | archlab/sim/misc/yas.c:205-223 | in place: one half of the register byte, or an error |
| Assembler.Assembler.NumOperand | archlab/sim/misc/yas.c:227-243 | in place: the little-endian constant or label address, or an error |
| Assembler.Assembler.MemOperand | archlab/sim/misc/yas.c:255-291 | in place: base register and displacement, or the error and token position of the first syntax fault |
| Assembler.Assembler.FinishLine | archlab/sim/misc/yas.c:305-443 | one line's effect on address, labels, code buffer, error flag and output, in either pass, and none for a line that has already failed |
| Assembler.Assemble | archlab/sim/misc/yas.c:548-624 | the two passes print the second pass's lines and report an error exactly when one of them met one |
| Lru.HoldsMostRecent | cachelab/csim.c:53-146 | a set of e lines always holds the e most recently used distinct tags in recency order |
| Lru.HitIff | cachelab/csim.c:98-146 | an access hits exactly when its tag was used before with fewer than e distinct other tags since |
| Lru.Inclusion | cachelab/csim.c:53-146 | the lines held with e ways are the most recent of those held with e + 1 |
| Lru.HitsMonotone | cachelab/csim.c:98-146 | more ways never mean fewer hits |
| Lru.Accounting | cachelab/csim.c:53-146 | hits and misses add up to the accesses, misses less evictions to the lines held |
| CacheSim.CacheSet.Evict | cachelab/csim.c:53-73 | the list loses its first line, head, tail and size consistent |
| CacheSim.CacheSet.Load | cachelab/csim.c:75-96 | a new line at the end, after evicting exactly when the set was full |
| CacheSim.CacheSet.IsCached | cachelab/csim.c:98-146 | finds a tag exactly when present and moves its first line to the end |
| CacheSim.CacheSet.DCacheOperate | cachelab/csim.c:190-196 | the linked list is one LRU access further, with the right hit and eviction verdicts |
| CacheSim.CreateRightBitMask | cachelab/csim.c:148-157 | the exclusive-or loop builds 2^n - 1 |
| DCache.Simulator.constructor | cachelab/csim.c:159-180 | empty sets, separate from each other, and right masks |
| DCache.Simulator.ParseAddress | cachelab/csim.c:182-188 | the masks and shifts split an address into its set, tag and block offset, each the quotient or remainder by powers of two |
| DCache.Simulator.Operate | cachelab/csim.c:190-196 | counters and every set's list follow the trace |
| DCache.Simulator.DCacheSimulate | cachelab/csim.c:198-232 | loads and stores access once, modifies twice, other commands not at all |
| DCache.Replay | cachelab/csim.c:303-318 | for every trace the totals are those of the abstract LRU cache |
| DCache.SameRefIffSameBlock | cachelab/csim.c:182-188 | two addresses are treated alike exactly when they lie in one block |
| DCache.LocateIs | cachelab/csim.c:182-188 | in integers: the set is the block number modulo the number of sets, the tag the rest |
| DCacheBlocks.HitIffFewRivals | cachelab/csim.c:98-146 | in addresses: an access hits exactly if its block was used before and fewer than E other blocks that agree with it modulo the number of sets have been used since |
| DCacheBlocks.TotalsAre | cachelab/csim.c:198-232 | for every trace the hits counted are the number of accesses with few rivals, and the misses all others |
| DCache.HitIffReused | cachelab/csim.c:98-146 | LRU exactness in the whole cache: per set, fewer than E distinct other tags since |
| DCache.MoreWaysMoreHits | cachelab/csim.c:98-146 | over all sets, hits never decrease with the associativity and every access is a hit or a miss |
| DCache.ResidentLines | cachelab/csim.c:53-96 | over all sets, misses less evictions are the resident lines |
| ProxyModel.LookupIsLatest | proxylab/cache.c:98-122 | although keys may occur twice, a scan finds the most recent addition of a key, or nothing if that was evicted |
| ProxyModel.GetAnswers | proxylab/cache.c:98-122 | a lookup answers the newest addition of its key exactly if that is still held, and misses if not |
| ProxyModel.EvictKeeps | proxylab/cache.c:38-47 | eviction keeps the invariant: the older of two entries with one key goes first |
| ProxyModel.MakeRoom | proxylab/cache.c:37-47 | the eviction loop ends, never meets an empty list and leaves room |
| ProxyModel.MakeRoomKeepsMost | proxylab/cache.c:37-47 | what stays is exactly the longest recently used part that leaves room |
| ProxyModel.InsertKeeps | proxylab/cache.c:49-75 | adding an entry in front keeps the invariant and adds its size |
| ProxyModel.TouchKeeps | proxylab/cache.c:108-109 | moving the found entry to the end keeps the eviction order of duplicates |
| ProxyModel.GetIsCurrent | proxylab/cache.c:28-142 | over every sequence of calls, a lookup misses or returns the value most recently added and accepted |
| ProxyModel.AddThenGet | proxylab/cache.c:28-142 | an accepted value can be read back at once |
| ProxyRuns.LruByUse | proxylab/cache.c:98-155 | over every sequence of calls the eviction list is in order of last use |
| ProxyRuns.HeldIff | proxylab/cache.c:28-142 | over every sequence of calls, an accepted value is still held exactly when every later accepted object fitted beside it and everything used since its own last use |
| ProxyRuns.AnswersIff | proxylab/cache.c:28-142 | over every sequence of calls a lookup answers the current value exactly if each later accepted object left room beside it and everything used since, and misses otherwise |
| ProxyCache.Cache.constructor | proxylab/cache.c:15-26 | the empty cache |
| ProxyCache.Cache.AppendLru | proxylab/cache.c:145-155 | the doubly linked list with the node at its end |
| ProxyCache.Cache.RemoveLru | proxylab/cache.c:158-171 | the doubly linked list without the node |
| ProxyCache.Cache.PrependItem | proxylab/cache.c:174-183 | the item list with the node in front, its size added |
| ProxyCache.Cache.RemoveItem | proxylab/cache.c:186-197 | the item list without the node |
| ProxyCache.Cache.CacheAdd | proxylab/cache.c:28-81 | both lists hold the same entries with inverse links and the size is their sum and within the limit, after exactly the model's addition |
| ProxyCache.Cache.CacheGet | proxylab/cache.c:83-142 | answer and both lists are exactly the model's lookup |
| ProxyCache.Serve | proxylab/cache.c:28-142 | any sequence of calls on the linked lists: every lookup answers the current value exactly if each later accepted object left room beside it, and otherwise misses |
| ProxyThreads.WritersExcludeReaders | proxylab/cache.c:33-35 | no writer is inside together with a reader that has entered |
| ProxyThreads.OneMutator | proxylab/cache.c:104-111 | at most one thread is in a section that changes the lists |
| ProxyThreads.StepKeeps | proxylab/cache.c:28-142 | every step of every thread keeps locks, lists and all threads' knowledge of them right |
| ProxyThreads.Exclusion | proxylab/cache.c:86-134 | both exclusions in every state of every interleaving |
| ProxyThreads.CountsAreTrue | proxylab/cache.c:90-131 | readers_count is the number of registered lookups, the size is the sum, and no thread follows a null link or uses an entry that has been freed or unlinked |
| ProxyThreads.AnswersAreCurrent | proxylab/cache.c:98-122 | in every interleaving there is a state during the call in which the answer was current: the newest accepted value of the key if it was held then, a miss exactly if it was not |
| ProxyThreads.AddsArguments | proxylab/cache.c:28-35 | in every interleaving an addition keeps the key and data of its call throughout |
| ProxyThreads.AddedOwn | proxylab/cache.c:49-75 | a call that has added its object has put exactly its own key and data into the history, once, and there they stay |
| ProxyThreads.AddedIffSmall | proxylab/cache.c:28-81 | a call that returns has added its object exactly if that was small enough |
| ProxyThreads.ListsAgree | proxylab/cache.c:144-197 | whenever no list operation is halfway both lists hold the same entries within the size limit |
| ProxyThreads.SomeThreadCanStep | proxylab/cache.c:33-134 | no deadlock: if some call is unfinished some thread can step |
| Sbuf.StepKeeps | proxylab/sbuf.c:27-61 | every step keeps slots, items and contents conserved |
| Sbuf.WriteSlot | proxylab/sbuf.c:35 | a producer about to write points to a slot without an unread item |
| Sbuf.ReadStep | proxylab/sbuf.c:53 | a consumer reads the oldest item not yet read |
| Sbuf.InsertsItem | proxylab/sbuf.c:27-43 | in every interleaving an insertion keeps the item of its call throughout |
| Sbuf.InsertedOwn | proxylab/sbuf.c:27-43 | a call that has inserted has put exactly its own item, once, at its place among all insertions |
| Sbuf.RemovedOwn | proxylab/sbuf.c:45-61 | the item that a call hands its caller is the one that its own step took out |
| Sbuf.FirstInFirstOut | proxylab/sbuf.c:3-61 | in every interleaving the items removed are a prefix of those inserted, at most n behind |
| Sbuf.NoOverwrite | proxylab/sbuf.c:35 | no write in any interleaving falls on an unread item |
| Sbuf.StuckExactlyWhen | proxylab/sbuf.c:27-61 | all threads are blocked exactly when all insert into a full buffer or all remove from an empty one |
| Sbuf.SomeThreadCanStep | proxylab/sbuf.c:27-61 | with a producer and a consumer in their calls some thread can step |
| Rio.LineStops | proxylab/csapp.c:906-926 | a line stops at the first newline, the limit or the end, whichever is first |
| Rio.Rio.Refill | proxylab/csapp.c:836-849 | refilling through interruptions loses nothing and fails only at the end of the stream |
| Rio.Rio.RioRead | proxylab/csapp.c:832-859 | delivers some next bytes, none only at the end |
| Rio.Rio.RioReadnb | proxylab/csapp.c:878-894 | delivers exactly the next n bytes or all that are left |
| Rio.Rio.RioReadlineb | proxylab/csapp.c:901-929 | delivers exactly the next line cut to fit, terminated, and its length |
| Rio.DeliveriesConsecutive | proxylab/csapp.c:832-929 | deliveries are consecutive pieces of the stream |
| Rio.ReadAll | proxylab/csapp.c:832-929 | however read() splits or is interrupted, a mixture of calls delivers what the stream alone determines |
| Trans.TransX | cachelab/trans.c:27-51 | for all sizes the tiled loops transpose every cell, edge tiles included |
| Trans.Trans64 | cachelab/trans.c:53-78 | the same for the unrolled 64-by-64 case |
| Trans.Trans32 | cachelab/trans.c:80-110 | the same for the unrolled 32-by-32 case |
| Trans.TransposeSubmit | cachelab/trans.c:9-25 | for all sizes the result is the naive loop's |
| Trans.IsTranspose | cachelab/trans.c:130-145 | answers 1 exactly for a transpose |
| Trans.TransposeAndCheck | cachelab/trans.c:9-145 | the check after a transposition always succeeds |
| Floats.Masks | datalab/bits.c:333-347 | the masks and shifts select sign, exponent and fraction |
| Floats.Scale2Doubles | datalab/bits.c:331-361 | doubles the decoded value across the denormal boundary, gives infinity exactly when that overflows, and keeps NaN and infinity |
| Floats.PatternUnique | datalab/bits.c:331-361 | a finite pattern is determined by sign and magnitude, so the result is right bit by bit |
| Floats.Power2Exact | datalab/bits.c:417-435 | the pattern of 2^x exactly from -149 to 127, zero below and infinity above |
| Floats.Float2IntTruncates | datalab/bits.c:374-402 | truncates toward zero, and 0x80000000 exactly when out of range or not finite |
| HowManyBits.LeadingOnesIs | datalab/bits.c:301-309 | the shifts and ands leave exactly the ones that repeat the sign |
| HowManyBits.OnesIs | datalab/bits.c:311-315 | the masked sums of fields count the ones of every 32-bit pattern |
| HowManyBits.HowManyBitsIsLeast | datalab/bits.c:289-318 | for every int the answer is the least width in which two's complement represents it |

## Left out

- Mm.Allocator.MmMalloc: requests above 0x7FFFFFF0 bytes, where the adjusted size no longer covers the request (see Requests.MallocSizeIffSmall); sizes and addresses are counted in words from the heap start, with 0 for NULL.
- Mm.Allocator.MmRealloc: sizes whose double is above that bound; payload words are natural numbers, a payload's bytes are not told apart within a word.
- Mm.Allocator.MmInit: a second initialisation without mem_reset_brk, which would start a heap in the middle of the region.
- Isa.IsaMachine.StepState: the register file is an array of fifteen words, not 128 bytes of memory; error messages are not modelled; memory lengths are those of a C int.
- SeqRefinement.StepRefines: final states after instructions that fail in both simulators.
- Ncopy.NcopyCorrect: negative lengths and overlapping arrays, outside the program's purpose.
- Yas.RoundTrip: starts from tokens; the lexer, over-long lines and Verilog output are not modelled, and addresses other than those set by .pos and .align are unbounded integers.
- Assembler.Assemble: lines that failed in the lexer (see Assembler.Assembler.FinishLine for what happens to one); more than 1000 labels, which add_symbol writes past the end of its table without a check.
- ObjectText.LoadMem: addresses of sixteen or more digits, which overflow in C; a file is a sequence of lines.
- DCache.Replay: zero associativity, bit counts of 32 and more, verbose output and the parsing of trace files.
- ProxyCache.Cache.CacheAdd: failing semaphores and allocations, and messages; keys are strings without terminators.
- ProxyThreads.AnswersAreCurrent: fairness and starvation; one step is one semaphore or list operation, on values rather than in place.
- Sbuf.FirstInFirstOut: overflow of the counters front and rear, failing semaphores and fairness; the buffer's update in place is modelled on values because threads interleave between its steps.
- Rio.ReadAll: hard read errors and empty line buffers (maxlen zero).
- Floats.Float2IntTruncates: the other puzzles of bits.c.
- HowManyBits.OnesIs: signed overflow and the shift of negative numbers, which C leaves open, wrap and copy the sign.
- PIPE and SEQ+ are not part of this model: the control logic of PIPE is left to the exercise.
- The hit rates of the transposes, the shell, the bomb and attack labs, networking and the graphical interfaces.
