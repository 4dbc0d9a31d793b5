# brk-user: verified models of its allocator, compiler back end and library code

This project models, in Dafny, the parts of the brk-user sources in which several
redundant pieces of state have to agree, and proves what they promise.

**The TLSF allocator** (`Tlsf*.dfy`, `Words.dfy`). `Tlsf.Allocator` is
`malloc.c` as a class over an address-indexed memory: block headers with size,
used bit and boundary tag, free-list links stored inside free blocks, two levels
of bitmaps, the active regions and the cache of empty regions. Its invariant
`Valid()` ties all views together: every active region is tiled exactly from its
first block to its end sentinel, every boundary tag is the size of the block
before it, no two neighbours are both free, a block is on the list of its size
class if and only if it is free, bits are set exactly for non-empty lists, every
mapped region is active or cached exactly once, the cache counters are right and
bounded, no active region is entirely free, and every live payload lies inside
its own used block. A log of what `mmap` was asked and answered makes failure exact:
an allocation returns null only for a size that is refused or that no region can hold,
or when the kernel gave nothing. `TlsfClient.Run` shows that a program making any
sequence of calls sees nothing but independent byte arrays.

**The C compiler's back end** (`Rv*.dfy`, `Cc*.dfy`). A small RV64IM step
semantics with a decoder from 32-bit words (`RvMachine`, `RvEncode`); the source
meaning of expressions and statements over signed `int` and `long` locals with
truncation to each node's type (`CcSource`, `CcStmt`), with every operator tied to
its exact result by relations (`CcMeaning`); the code the generator
means to emit as a function of the tree (`CcCode`, and `Laid` in `CcStmt` for
statements); and the generator itself as an imperative emitter that appends words
to a buffer, hands out labels, records fixups and patches them (`CcEmitter`,
`CcGenExpr`, `CcGenStmt`, `CcGenFunction`). `CcGenFunction.CompileUnit` states the
whole result for the functions of a translation unit: the patched words, loaded
anywhere and any function of them called in any state with enough stack, return what
the source returns with the caller's `sp`, `s0`, `ra` and memory intact, and run on
as long as the source does. `CcCall` adds the call itself: arguments evaluated onto
the stack and popped into their registers, `sp` aligned at the jump, the callee's
source meaning, and the return into the caller's frame. Around it are constant
folding (`CcFold`), address relocations (`CcLink`, `CcReloc`), the object file format
(`CcObject`), linking one unit in memory and through a file (`CcRelink`), what the
linked data holds (`CcPointers`), symbol resolution and linking of whole programs
(`CcResolve`), section layout (`CcLayout`), the loaded image (`CcImage`), the two
initialiser back ends (`CcInit`) and the bytes of an initialised variable, down to the
machine's loads and stores (`CcInitBytes`).

**Buffered stdio** (`Stdio.dfy`): one buffer shared by reads and writes, over a
kernel file that accepts any non-empty part of a write and returns any non-empty
part of a read, refines a plain file with one offset; what has left the buffer after a
write is exact, and no complete line is ever held back.

**The line editor** (`Edit.dfy`): an array of lines with a (row, column) cursor
refines a flat text with one offset. **The sed matcher** (`Sed.dfy`) decides the
language of its patterns, takes the leftmost start and makes every star greedy.
**qsort** (`Qsort.dfy`) is an in-place heapsort.

Four properties turned out to need a condition, and each condition is proved
exact. Folding a constant expression agrees with running it on every evaluated part
if and only if each folded value fits the type of its node (`CcFold.FoldExactly`;
`INT_MAX + 1` is the counterexample). A `lui`/`addi` pair computes a 64-bit address
if and only if it is below 0x7ffff800 or within 0x80000800 of 2^64
(`CcLink.LaExact`). An object file reverses the list of data relocations of every
symbol; linking the unit read back gives the same image if and only if on every byte
the first and the last relocation that cover it, among those of the last symbol that
has any there, write the same (`CcRelink.RelinkExactly`). A structure whose
initialiser designates one pointer member twice is the counterexample: linked in
memory it keeps one pointer, linked through a file the other
(`CcRelink.RelinkDiffers`). A global and a local with the same initialiser end up with
the same bytes if and only if all values fold and on every byte the last value that
covers it folds to the byte it computes (`CcInit.InitExactly`;
`long a[1] = { 2147483647 + 1 }` is accepted and differs, and `{ 1 / 0 }` is an error
for the global alone, `CcInit.DeclarationDiffers`).

## Model

| member | source | states |
|---|---|---|
| Words.Clz64 | src/include/brk/bits.h:15-28 | the loop counts the zeros above the highest set bit, so 63 minus it is the base-2 logarithm; 64 for zero |
| Words.Ctz64 | src/include/brk/bits.h:30-43 | the loop finds the lowest set bit; 64 for zero |
| TlsfMapping.ClassBounds | src/libbrkc/stdlib/malloc.c:107-124 | a block of a legal size is mapped to a valid list whose half-open size range, as tlsf_class_min gives it, contains the size |
| TlsfMapping.ClassOrder | src/libbrkc/stdlib/malloc.c:107-149 | a block's list is at or above a list in search order if and only if the block reaches that list's minimum size |
| TlsfMapping.SearchBounds | src/libbrkc/stdlib/malloc.c:126-142 | the list a search starts at holds only blocks that are large enough, its minimum exceeds the request by less than one step, and the search gives up exactly within one step of the largest size |
| TlsfMapping.SizeToBlock | src/libbrkc/stdlib/malloc.c:244-263 | the block size is aligned, legal, has room for the header and wastes less than one granule; it is refused exactly for zero and for sizes past the largest block |
| TlsfLists.InsertLists | src/libbrkc/stdlib/malloc.c:176-192 | pushing a block on its class's list keeps every doubly linked list well formed, with the block added |
| TlsfLists.RemoveLists | src/libbrkc/stdlib/malloc.c:194-214 | unlinking a block from the middle or the head keeps every list well formed, with the block gone |
| TlsfBitmap.ListContents | src/libbrkc/stdlib/malloc.c:176-214 | following next pointers from a head meets exactly the listed blocks of that class, each once |
| TlsfBitmap.SetBits | src/libbrkc/stdlib/malloc.c:188-191 | setting a list's head and both bits keeps: a bit is set if and only if its list or level is non-empty |
| TlsfBitmap.ClearBits | src/libbrkc/stdlib/malloc.c:209-213 | emptying a list, clearing its bit and the level's bit when the level became empty keeps the same equivalence |
| TlsfBitmap.NoneAbove | src/libbrkc/stdlib/malloc.c:216-242 | when both masked bitmaps are zero no listed block reaches the class minimum |
| Tlsf.Allocator.FreeInsert | src/libbrkc/stdlib/malloc.c:176-192 | in place: lists and bitmaps stay in agreement, exactly this block is added, and memory changes only in the links |
| Tlsf.Allocator.FreeRemove | src/libbrkc/stdlib/malloc.c:194-214 | in place: lists and bitmaps stay in agreement, exactly this block is removed |
| Tlsf.Allocator.Find | src/libbrkc/stdlib/malloc.c:216-242 | good fit: a block found reaches the class minimum of the rounded-up request, and no free block that does is of a lower class; failure means no free block reaches it |
| TlsfHeap.SplitPhys | src/libbrkc/stdlib/malloc.c:432-464 | cutting a block keeps the region tiled, blocks disjoint and boundary tags right |
| TlsfHeap.MergePhys | src/libbrkc/stdlib/malloc.c:466-499 | joining a block with its right neighbour keeps the region tiled, blocks disjoint and boundary tags right |
| TlsfTiling.RegionTiled | src/libbrkc/stdlib/malloc.c:289-320 | walking an active region by block sizes meets every block of the region exactly and the sizes sum to the usable size |
| TlsfSteps.SplitStage | src/libbrkc/stdlib/malloc.c:432-464 | splitting keeps tiling, lists and coalescing, leaves one new free block to be listed, and touches no byte of the kept payload or of another used block |
| TlsfSteps.MergeStage | src/libbrkc/stdlib/malloc.c:466-499 | merging keeps tiling, lists and coalescing and touches no byte of the left payload or of another used block |
| TlsfSteps.ActivateStage | src/libbrkc/stdlib/malloc.c:289-320 | stamping the three headers of a fresh region adds it to the heap as one free block, and no used block changes |
| TlsfSteps.DropStage | src/libbrkc/stdlib/malloc.c:279-287 | taking an entirely free region out of the heap keeps all other regions in order |
| Tlsf.Allocator.Split | src/libbrkc/stdlib/malloc.c:432-464 | in place: the block keeps at least what is needed, the remainder (merged with a free right neighbour) is listed, other used blocks keep their contents |
| Tlsf.Allocator.Coalesce | src/libbrkc/stdlib/malloc.c:466-487 | marking a block free and merging it right and left leaves one free block with used neighbours |
| Tlsf.Allocator.RegionFind | src/libbrkc/stdlib/malloc.c:265-277 | finds the active region containing an address, none if and only if there is none |
| Tlsf.Allocator.RegionRemove | src/libbrkc/stdlib/malloc.c:279-287 | removes exactly that region from the active list |
| Tlsf.Allocator.PutCache | src/libbrkc/stdlib/malloc.c:334-346 | the region is cached exactly when fewer than 4 regions and at most 4 MiB result, otherwise unmapped; counters and conservation of regions hold |
| Tlsf.Allocator.TakeCache | src/libbrkc/stdlib/malloc.c:348-374 | takes the smallest cached region that is large enough, none if and only if all are too small; counters and conservation hold |
| Tlsf.Allocator.CacheFlush | src/libbrkc/stdlib/malloc.c:322-332 | empties the cache, unmaps its regions and disturbs nothing active |
| Tlsf.Allocator.Activate | src/libbrkc/stdlib/malloc.c:289-320 | the region joins the active list as one listed free block of its usable size; used blocks are unchanged |
| Tlsf.RegionSizeLeast | src/libbrkc/stdlib/malloc.c:398-404 | a region is whole pages, at least 64 KiB, and otherwise the fewest pages with room for the block |
| Tlsf.Allocator.MapRegion | src/libbrkc/stdlib/malloc.c:406-420 | mmap is asked, and once more after flushing the cache if it refused; the kernel log says what was asked for and given, and failure means it gave nothing usable |
| Tlsf.Allocator.Supply | src/libbrkc/stdlib/malloc.c:391-420 | memory for a region is the smallest cached region with room, and only without one the kernel is asked, for exactly the region size; failure means none is cached and the kernel gave none |
| Tlsf.Allocator.Grow | src/libbrkc/stdlib/malloc.c:376-430 | success adds the region supplied as one free block that reaches the searched class; failure happens only when there is no such class, it exceeds the largest region, or no cached region fits and mmap gave none, and then the active regions are as they were |
| Tlsf.Allocator.Obtain | src/libbrkc/stdlib/malloc.c:509-512 | a good fit without asking the kernel, or, if there was none, the block of a new region, which the second search always finds; failure means nothing fitted and the heap could not grow |
| Tlsf.Allocator.FreeBlock | src/libbrkc/stdlib/malloc.c:466-499 | frees and coalesces a block and leaves no entirely free region active: the region that became free goes into the cache if that has room, else back to the kernel; other used blocks keep their contents |
| TlsfRegions.BusyNotIdle | src/libbrkc/stdlib/malloc.c:489-495 | a region that holds an allocation, as every active one does between calls, is not one free block |
| Tlsf.Allocator.Malloc | src/libbrkc/stdlib/malloc.c:501-518 | keeps the heap invariant and all live contents; a non-null result is a new, aligned payload in a good-fit block too small to be cut again; null only if the size is refused, or no free block fits and the heap cannot grow |
| Tlsf.Allocator.Calloc | src/libbrkc/stdlib/malloc.c:520-535 | as malloc for the product, with every byte zero; a product of 2^64 or more gives null |
| Tlsf.Allocator.Realloc | src/libbrkc/stdlib/malloc.c:537-591 | keeps the first min(old, new) bytes when shrinking, growing in place and moving; stays in place if and only if the block, alone or with its free right neighbour, is large enough; what is not needed is cut off; failure changes nothing and happens only as in malloc |
| Tlsf.Allocator.InPlace | src/libbrkc/stdlib/malloc.c:555-580 | decides exactly whether the block can be resized where it is and does so, leaving a block too small to be cut again |
| Tlsf.Allocator.Move | src/libbrkc/stdlib/malloc.c:582-591 | allocates, copies and frees: the prefix is preserved at the new address, other payloads are untouched |
| Tlsf.Allocator.Free | src/libbrkc/stdlib/malloc.c:593-605 | removes exactly this allocation, keeps all other contents, and retires at most the region it was in; null and an already free block change nothing |
| TlsfPayload.PayloadsDisjoint | src/libbrkc/stdlib/malloc.c:501-518 | live payloads are 16-byte aligned, pairwise disjoint and inside their region |
| TlsfPayload.Memcpy | src/libbrkc/stdlib/malloc.c:586-588 | the copy gives the destination the source's bytes and changes no byte outside it |
| TlsfPayload.Memset | src/libbrkc/stdlib/malloc.c:520-535 | the fill sets every byte of the range and no other |
| TlsfClient.Run | src/libbrkc/stdlib/malloc.c:501-605 | for every sequence of malloc, calloc, realloc, free and payload writes, from an empty heap: the invariant holds throughout, every slot reads as its own independent byte array, and an allocation fails only for a size no region can hold or when the kernel log shows that mmap gave nothing |
| RvEncode.RoundTrip | src/cmd/cc/emit.c:16-62 | decoding the encoder's word gives back the instruction, for the R, I, S, B, U and J formats and every legal operand |
| RvEncode.JalRoundTrip | src/cmd/cc/emit.c:55-62 | the scattered J immediate decodes to the same offset |
| CcMacros.LiCorrect | src/cmd/cc/emit.c:180-202 | for every 64-bit value the emitted sequence leaves exactly that value in rd and changes nothing else |
| CcMacros.AddiCorrect | src/cmd/cc/emit.c:64-83 | adds any 32-bit immediate, wrapping at 64 bits, and changes no register but rd and t6 |
| CcMacros.PushCorrect | src/cmd/cc/codegen.c:47-51 | push stores the register at sp - 16 and moves sp there |
| CcMacros.PopCorrect | src/cmd/cc/codegen.c:53-57 | pop loads the word at sp and moves sp back |
| CcSource.EvalInType | src/cmd/cc/codegen.c:283-389 | every expression's value lies in the range of its node's type, and stores keep the locals in range |
| CcExpr.ExprCorrect | src/cmd/cc/codegen.c:484-629 | running an expression's code leaves its meaning in a0, applies its side effects to the locals' slots, restores sp, s0 and ra and changes no other memory at or above sp |
| CcExpr.BinRuns | src/cmd/cc/codegen.c:283-389 | both operands are evaluated left to right around a push and pop, and the truncated arithmetic result is left in a0 |
| CcExpr.CompareRuns | src/cmd/cc/codegen.c:363-385 | the slt/xor/seqz/xori sequences compute all six comparisons |
| CcExpr.LogicRuns | src/cmd/cc/codegen.c:562-591 | the logical and and or evaluate the right operand only when the left one leaves the answer open, and give 0 or 1 |
| CcExpr.CondRuns | src/cmd/cc/codegen.c:549-561 | exactly one arm of a conditional runs, the one the condition selects |
| CcExpr.OpAssignRuns | src/cmd/cc/codegen.c:391-456 | a compound assignment reads the variable once, before its right-hand side, and stores the truncated result |
| CcExpr.IncDecRuns | src/cmd/cc/codegen.c:458-482 | ++ and -- store the stepped value truncated to the type; the prefix form yields the new value, the postfix form the old one |
| CcMeaning.ArithMeans | src/cmd/cc/codegen.c:283-389 | the function behind all operators gives the exact result defined by relations and nothing else does: quotient and remainder with the sign of the dividend, floor shifts, operators bit by bit |
| CcMeaning.BinMeans | src/cmd/cc/codegen.c:283-389 | a binary node evaluates left to right and its value is the exact result reduced to the operands' common type |
| CcMeaning.NodeTypes | src/cmd/cc/codegen.c:283-629 | constants are int if they fit, comparisons are int, and one long operand or arm makes the whole long |
| CcMeaning.DivisionMeans | src/cmd/cc/codegen.c:283-389 | for a non-zero divisor a division or remainder node has the C quotient or remainder whenever that fits its type |
| CcMeaning.StoreMeans | src/cmd/cc/codegen.c:391-482 | assignments, compound assignments and steps store the exact result reduced to the variable's type; postfix nodes keep the old value |
| CcMeaning.UnMeans | src/cmd/cc/codegen.c:484-629 | casts and negation reduce to their type, complement and logical negation are exact |
| CcMeaning.InstructionMeans | src/cmd/cc/codegen.c:283-389 | each register operation leaves the exact result reduced to 64 bits |
| CcStmt.BudgetIrrelevant | src/cmd/cc/codegen.c:631-800 | the source meaning does not depend on the loop budget once it suffices |
| CcStmtProof.StmtCorrect | src/cmd/cc/codegen.c:631-800 | for every statement, entered at its start or at a case label, the machine reaches the end, the break, the continue or the return point that the source meaning gives, in the state it gives; while the source loops, the machine keeps running |
| CcStmtProof.DispatchCorrect | src/cmd/cc/codegen.c:750-776 | the comparisons of a switch jump to the selected case, else to default, else past the body |
| CcStmtProof.EpilogueCorrect | src/cmd/cc/codegen.c:651-660 | a return path restores the caller's sp, s0 and ra and jumps to the return address with a0 kept |
| CcFunction.FrameLayout.NewLocal | src/cmd/cc/types.c:216-235 | each new slot lies below all earlier ones and clear of the saved ra and s0 |
| CcFunction.FrameLayout.FrameSize | src/cmd/cc/parser.c:792-824 | the frame is a multiple of 16 that contains every slot |
| CcFunction.ScalarFrame | src/cmd/cc/parser.c:805-824 | int and long parameters, the 64-byte va area of a variadic function and the other locals get the pairwise disjoint slots that the correctness proof uses |
| CcFunction.PrologueCorrect | src/cmd/cc/codegen.c:806-833 | after the prologue sp is aligned below all locals, ra and s0 are saved, each parameter's slot holds its argument register truncated to its type, a variadic function's area holds all eight argument registers, and memory at or above the caller's sp is unchanged |
| CcFunction.NoEscape | src/cmd/cc/codegen.c:740-749 | a body without stray break or continue never ends in one |
| CcFunction.FunctionCorrect | src/cmd/cc/codegen.c:835-850 | a laid-out function, called in any state with enough stack, returns the source's value (0 when it falls off the end) with the caller's sp, s0, ra and all memory from sp up intact |
| CcEmitter.Emitter.NewLabel | src/cmd/cc/emit.c:209-216 | a fresh label, open, with all others as they were |
| CcEmitter.Emitter.PlaceLabel | src/cmd/cc/emit.c:218-221 | the label gets the current position; nothing emitted or placed changes |
| CcEmitter.Emitter.JumpTo | src/cmd/cc/emit.c:223-249 | a zero-offset jal is emitted and remembered with its label |
| CcEmitter.Emitter.PutLi | src/cmd/cc/emit.c:180-202 | the loop and branches emit exactly the words of the sequence proved in LiCorrect |
| CcEmitter.Emitter.PutAddi | src/cmd/cc/emit.c:64-83 | emits exactly the words of the sequence proved in AddiCorrect |
| CcEmitter.Emitter.PatchFixups | src/cmd/cc/emit.c:251-273 | succeeds if and only if every pending jump has a placed label within reach; then each decodes to a jump to its label and no other word changes |
| CcGenExpr.GenExpr | src/cmd/cc/codegen.c:484-629 | the generator with its labels and fixups emits, once labels are resolved, the code that ExprCorrect is about |
| CcGenStmt.GenStmt | src/cmd/cc/codegen.c:631-800 | the generator emits the statement wherever open labels end up, restores the break and continue targets, and fails exactly for a stray break or continue |
| CcGenFunction.GenFunction | src/cmd/cc/codegen.c:835-850 | behind finished code, which stays as it is, the patched buffer holds the laid-out function; it fails exactly for a stray break or continue or an unpatchable jump, and every function without a stray break or continue is accepted when the code stays under the reach of a jal |
| CcGenFunction.CompileUnit | src/cmd/cc/main.c:40-45 | source to words for a list of functions: each one, called at its own offset in any state in which it may be called, runs as its source says; acceptance is guaranteed below one mebibyte |
| CcGenFunction.Compile | src/cmd/cc/codegen.c:835-850 | the same for a single function: all words decode, and in every state in which the function may be called they run as the source says; acceptance is guaranteed below one mebibyte |
| CcGenFunction.CompiledCorrect | src/cmd/cc/codegen.c:283-850 | the decoded words compute the source meaning at any load address, whatever word the function starts at |
| CcGenFunction.LoopsForever | src/cmd/cc/codegen.c:678-739 | a function that never returns in the source keeps the machine running for any number of steps |
| CcCall.GenCall | src/cmd/cc/codegen.c:224-275 | gen_call of a function that is not built in, direct or through a pointer, emits the code that ArgsReady and CallRuns are about |
| CcCall.ArgsReady | src/cmd/cc/codegen.c:224-240 | in any frame, so at any depth of an expression: at the jump the operands have been evaluated left to right, their values are in a0, a1, ... (an indirect callee in t2), and sp is where it was and 16-byte aligned |
| CcCall.CallRuns | src/cmd/cc/codegen.c:224-275 | a call of a compiled function enters it aligned with its parameters set to the truncated argument values, and ends as the callee's source meaning says: back behind the call in the caller's frame with the truncated result, or running on while the callee loops |
| CcCall.VariadicArgs | src/cmd/cc/codegen.c:191-200 | from the address va_start computes, consecutive words hold the arguments passed beyond the parameters |
| CcUnique.FunctionUnique | src/cmd/cc/codegen.c:631-850 | being laid out determines every word of a function |
| CcUnique.JumpHasLabel | src/cmd/cc/emit.c:251-273 | in a finished function no jump is left without a placed label |
| CcFold.TruncateConverts | src/cmd/cc/parser.c:830-849 | mask and sign flip equal the conversion to the type, for all eight integer types and every 64-bit value |
| CcFold.CastConverts | src/cmd/cc/codegen.c:59-85 | the emitted shift or mask sequence equals the same conversion |
| CcFold.FoldedCastAgrees | src/cmd/cc/parser.c:830-849 | folding a cast gives what its instructions compute |
| CcFold.FoldAgrees | src/cmd/cc/parser.c:851-917 | a constant expression whose folded values fit their node types folds to its meaning and has no effect |
| CcFold.FoldedRuns | src/cmd/cc/parser.c:851-917 | running the code of such an expression leaves its folded value in a0 |
| CcFold.FoldExactly | src/cmd/cc/parser.c:851-917 | folding and running agree on every evaluated part if and only if every folded value fits its node's type |
| CcFold.FoldDiffersOnOverflow | src/cmd/cc/parser.c:864-865 | INT_MAX + 1 folds to 2147483648 while its code computes -2147483648 |
| CcMeaning.FoldMeans | src/cmd/cc/parser.c:851-917 | folding an operator is an error exactly for a missing operand or a zero divisor, and else the exact result reduced to 64 bits |
| CcMeaning.SevenHalves | src/cmd/cc/parser.c:870-884 | -7 / 2 folds to -3 and -7 % 2 to -1 |
| CcLink.LaDecodes | src/cmd/cc/link.c:143-188 | patching the HI20/LO12 pair of i_la gives words that decode to lui and addi with the rounded upper and signed lower part of the target |
| CcLink.LaRuns | src/cmd/cc/emit.c:287-293 | the patched pair leaves the combined value in rd |
| CcLink.LaExact | src/cmd/cc/link.c:143-188 | for every 64-bit target that value is the target, as a signed number, if and only if the target is below 0x7ffff800 or at least 2^64 - 0x80000800 |
| CcLink.CallLands | src/cmd/cc/link.c:143-188 | an R_JAL word is refused exactly when the offset is odd or out of reach, and otherwise decodes to a jump to the symbol |
| CcLink.PatchCode | src/cmd/cc/link.c:143-188 | in place, the loop over the relocation list computes the fold of single patches of the byte code, and fails when one fails |
| CcLink.PatchPointwise | src/cmd/cc/link.c:143-188 | when sites share no byte each site gets its own patch of the original word and every other byte is unchanged |
| CcLink.PatchReversed | src/cmd/cc/link.c:143-188 | when sites share no byte the order of the list does not matter |
| CcReloc.CodeBuffer.La | src/cmd/cc/emit.c:275-293 | the two blank words are emitted with their relocations; every site stays inside the code and no two share a byte |
| CcReloc.CodeBuffer.CallSym | src/cmd/cc/emit.c:295-299 | the blank jal is emitted with its relocation, under the same invariant |
| CcReloc.UsesLinked | src/cmd/cc/link.c:143-188 | after a successful link, for any symbol addresses and text base, every emitted address pair decodes to lui/addi of its symbol plus addend and every call to a jal onto its symbol |
| CcReloc.LinkedLoads | src/cmd/cc/link.c:143-188 | running a linked pair changes rd only, and leaves symbol plus addend there if and only if that address is within the reach of lui and addi |
| CcObject.WriteObject | src/cmd/cc/link.c:487-568 | the writer's loops produce the file of the unit |
| CcObject.ReadObject | src/cmd/cc/link.c:570-670 | the reader's loops parse any byte sequence, refusing short, ill-tagged and out-of-range input, and hang each data relocation on its symbol |
| CcObject.ObjectRoundTrip | src/cmd/cc/link.c:487-670 | reading a written unit gives the unit with its relocation lists reversed |
| CcObject.TwoTrips | src/cmd/cc/link.c:487-670 | the unit read back can be written again, and reading that gives back the original unit |
| CcObject.HangFlatten | src/cmd/cc/link.c:626-641 | the flat file list of data relocations is distributed back to its owners, each list reversed |
| CcObject.U64Back | src/cmd/cc/link.c:420-431 | a little-endian 64-bit field reads back |
| CcObject.FileStarts | src/cmd/cc/link.c:513-524 | every object file starts with CCO1, version 1 and the three lengths and three counts as little-endian words |
| CcUnit.U64Value | src/cmd/cc/link.c:25-31 | the eight bytes written for a 64-bit number stand for it, the lowest first |
| CcRelink.ReversalExactly | src/cmd/cc/link.c:190-204 | reversing any list of data relocations leaves the patched data the same if and only if on every byte the first and the last that cover it write the same |
| CcRelink.PutOrder | src/cmd/cc/link.c:190-204 | applying the same data relocations in any order gives the same bytes when their sites are apart |
| CcRelink.LinkedDataExactly | src/cmd/cc/link.c:190-204 | for the lists of all symbols together: the data is the same after reversal if and only if every byte is settled |
| CcRelink.SeparateSettled | src/cmd/cc/link.c:190-204 | every byte is settled when no symbol has two relocations on one byte |
| CcRelink.PatchUnit | src/cmd/cc/link.c:143-205 | patches code and data in place as the definition of a linked unit says, and fails exactly where it has no value: an undefined symbol, an instruction out of reach, a data relocation past the end |
| CcPointers.LinksExactly | src/cmd/cc/link.c:143-205 | a unit links exactly when its code can be patched and every data relocation names a known symbol and lies inside the data |
| CcPointers.PointerLinked | src/cmd/cc/link.c:190-204 | a data relocation that none behind it overwrites leaves the address of its symbol plus its addend, modulo 2^64, at its place |
| CcPointers.RestUntouched | src/cmd/cc/link.c:190-204 | every data byte that no relocation touches is the unit's own |
| CcRelink.RelinkExactly | src/cmd/cc/link.c:143-670 | a unit read back from its object file links if and only if the unit in memory does, to the same code, and to the same data if and only if every byte is settled |
| CcRelink.RelinkDiffers | src/cmd/cc/link.c:143-670 | the unit of a structure whose initialiser designates one pointer twice links to different data through its object file |
| CcResolve.LinkTable.Find | src/cmd/cc/link.c:41-50 | the newest entry of that name, none if and only if there is none |
| CcResolve.LinkTable.Define | src/cmd/cc/link.c:52-65 | an exported symbol is added, an error if and only if its name is there already |
| CcResolve.LinkTable.DefineAll | src/cmd/cc/link.c:294-297 | the loops over all units and symbols succeed if and only if no name is exported twice |
| CcResolve.TableFinds | src/cmd/cc/link.c:41-65 | the finished table has an entry for a name if and only if the program exports the name, and the entry is an export |
| CcResolve.ResolvesRight | src/cmd/cc/link.c:67-78 | a defined symbol has its own address, another one that of the one exported definition of its name, and it is undefined if and only if there is no such definition |
| CcResolve.LinkProgram | src/cmd/cc/link.c:294-317 | all units are resolved and patched, or it fails and the program has no linked form |
| CcResolve.ProgramRelinks | src/cmd/cc/link.c:294-670 | separate compilation: a program whose units went through object files links to the same code, and in each unit to the same data if and only if every byte of it is settled |
| CcImage.LinkAndWrite | src/cmd/cc/link.c:250-344 | bases, addresses, patching and the two copies: linked code and data of every unit stand in the file where the unit is placed; failure means the program has no linked form |
| CcImage.AddressesMeet | src/cmd/cc/link.c:299-313 | the addresses relocations are resolved to are those of the section layout: section start plus unit base plus offset |
| CcImage.CodeAddress | src/cmd/cc/link.c:302-304 | a code symbol is at 0x11000 plus its unit's base plus its offset |
| CcImage.PointerLoaded | src/cmd/cc/link.c:67-341 | in the loaded file a pointer of any unit holds, at its variable's address, the address of the one definition it refers to plus its addend |
| CcImage.InitialLoaded | src/cmd/cc/link.c:87-341 | in the loaded file every byte of a variable that no relocation touches is its initial byte |
| Bytes.AlignTo | src/cmd/cc/util.c:59-62 | the least multiple of the alignment at or above the offset |
| CcLayout.AssignOffsets | src/cmd/cc/link.c:87-141 | the loop gives every symbol of the section the start that the layout defines and leaves others alone |
| CcLayout.SymbolsApart | src/cmd/cc/link.c:87-141 | symbols of a section get disjoint, aligned ranges inside the section |
| CcLayout.SymbolsTight | src/cmd/cc/link.c:87-141 | a section starts with its first symbol, and each further one starts less than its alignment behind the one before |
| CcLayout.BuildData | src/cmd/cc/link.c:87-141 | the second pass agrees with the first: the data at each symbol's offset is its initial bytes, zero where it has none |
| CcLayout.FinalizeUnit | src/cmd/cc/link.c:87-141 | the passes together: offsets for data and bss symbols, nothing else about a symbol changed, and each data symbol's initial bytes at its offset |
| CcLayout.AssignBases | src/cmd/cc/link.c:272-313 | the loop gives each unit its 16-aligned base and returns the section's length |
| CcLayout.UnitsApart | src/cmd/cc/link.c:272-313 | units of a section do not overlap |
| CcLayout.UnitsTight | src/cmd/cc/link.c:272-291 | units follow each other with less than 16 bytes between, from the start of the section to its end |
| CcLayout.SectionsTight | src/cmd/cc/link.c:288-293 | text starts at 0x11000, data and bss follow 16-aligned with less than 16 bytes between |
| CcLayout.AddressInside | src/cmd/cc/link.c:272-341 | every defined data or bss symbol lies in its section and in the loaded segment |
| CcLayout.AddressAligned | src/cmd/cc/link.c:272-313 | a symbol's final address has the symbol's alignment, for alignments that divide 16 |
| CcLayout.AddressesApart | src/cmd/cc/link.c:272-341 | any two defined data or bss symbols of any units occupy disjoint ranges |
| CcInit.MaterializeInPlace | src/cmd/cc/parser.c:1428-1506 | the in-place writer fills the buffer as the recursive definition says, and fails where it fails |
| CcInit.InitExactly | src/cmd/cc/parser.c:1306-1506 | for every initialiser, whatever its values: the global is accepted if and only if the local is and all values fold, and then the bytes agree if and only if on every byte the last value covering it folds to the byte it computes |
| CcInit.InitAgrees | src/cmd/cc/parser.c:1306-1377 | for constants that fit their nodes' types: at any place, the bytes written for a global equal the memory left by the local's assignments, and both fail on the same initialisers |
| CcInit.DeclarationAgrees | src/cmd/cc/parser.c:1578-1595 | for constants that fit their nodes' types: zeroing a local and running its assignments gives the bytes of the same global |
| CcInit.DeclarationDiffers | src/cmd/cc/parser.c:1306-1506 | an overflowing constant gives a global and a local different bytes, and a division by zero is an error for the global only |
| CcInitBytes.AcceptedExactly | src/cmd/cc/parser.c:1306-1506 | a local initialiser is accepted exactly when it has the shape of the type, a global one when its values also fold |
| CcInitBytes.StoredValue | src/cmd/cc/parser.c:919-925 | the n bytes stored for a number are its remainder modulo 256^n, the lowest first |
| CcInitBytes.GlobalHolds | src/cmd/cc/parser.c:1428-1506 | each value of a global that none behind it overwrites reads back from its bytes as its folded value cut to its size, each string as its characters |
| CcInitBytes.LocalHolds | src/cmd/cc/parser.c:1306-1377 | the same for a local, with the value its expression computes |
| CcInitBytes.TextHolds | src/cmd/cc/parser.c:1454-1463 | a string fills an array of char as far as both go and leaves the rest |
| CcInitBytes.RestStays | src/cmd/cc/parser.c:1306-1506 | bytes no value covers keep what was there, in both back ends |
| CcInitBytes.StoreWrites | src/cmd/cc/parser.c:919-925 | a store instruction of four or eight bytes writes those same bytes into memory and no other |
| CcInitBytes.LoadReads | src/cmd/cc/parser.c:919-925 | a load gives the signed number the bytes at its address stand for |
| Stdio.Stream.FlushWbuf | src/libbrkc/stdio/fflush.c:6-28 | for any partial writes, the pending bytes reach the file and the plain view is unchanged |
| Stdio.Stream.PurgeReadbuf | src/libbrkc/stdio/fflush.c:30-45 | dropping read-ahead moves the kernel offset back so that the plain view is unchanged |
| Stdio.Stream.Flush | src/libbrkc/stdio/fflush.c:47-59 | afterwards the kernel's file and offset are the plain ones |
| Stdio.Stream.FileWriteSync | src/libbrkc/stdio/fwrite.c:8-32 | is a plain write that leaves nothing pending |
| Stdio.Stream.FileWrite | src/libbrkc/stdio/fwrite.c:34-55 | is a plain write, and exactly the bytes behind the last newline or the last full buffer are still pending, no newline among them |
| Stdio.Stream.Write | src/libbrkc/stdio/fwrite.c:57-85 | fwrite is a plain write of size times nmemb bytes and returns nmemb; the file has all that was pending or written but what is pending now, which is nothing on an unbuffered stream |
| Stdio.LinesOut | src/libbrkc/stdio/fwrite.c:34-55 | every line written is in the file, its newline included |
| Stdio.PendingStays | src/libbrkc/stdio/fwrite.c:34-55 | bytes without a newline that fit stay in the buffer |
| Stdio.PendingLine | src/libbrkc/stdio/fwrite.c:34-55 | after a newline nothing is pending |
| Stdio.Stream.Read | src/libbrkc/stdio/fread.c:10-67 | fread returns the next bytes, the count of whole items, moves the position past them and sets EOF when short |
| Stdio.Stream.Getc | src/libbrkc/stdio/fgetc.c:6-51 | fgetc returns the next byte and steps, or EOF exactly at the end |
| Stdio.Stream.Seek | src/libbrkc/stdio/fseek.c:6-17 | moves the position relative to start, position or end, clears EOF, and fails without effect for a negative target |
| Stdio.Stream.Tell | src/libbrkc/stdio/ftell.c:6-18 | returns the plain position |
| Stdio.Run | src/libbrkc/stdio/fwrite.c:8-85 | any interleaving of the calls gives the results, final contents and position of an unbuffered file |
| Edit.Editor.InsertByte | src/cmd/edit.c:569-577 | inserts the byte at the cursor's offset of the text and steps |
| Edit.Editor.InsertNewline | src/cmd/edit.c:579-599 | splitting a line is inserting a newline and stepping |
| Edit.Editor.Backspace | src/cmd/edit.c:601-621 | deletes the character before the cursor, joining lines when it is a newline; nothing at the start; the buffer is marked exactly when the text changed |
| Edit.Editor.DeleteForward | src/cmd/edit.c:623-639 | deletes the character at the cursor; nothing at the end; the buffer is marked exactly when the text changed |
| Edit.Editor.KillToEol | src/cmd/edit.c:641-650 | deletes up to, not including, the next newline; the buffer is marked exactly when the text changed |
| Edit.Editor.MoveLeft | src/cmd/edit.c:520-528 | one offset back, none at the start |
| Edit.Editor.MoveRight | src/cmd/edit.c:530-540 | one offset on, none at the end |
| Edit.Editor.MoveHome | src/cmd/edit.c:542-545 | to the start of the line the offset is in |
| Edit.Editor.MoveEnd | src/cmd/edit.c:547-550 | to the end of the line the offset is in |
| Edit.Editor.MovePage | src/cmd/edit.c:552-567 | a screen less one row up or down, as far as there are rows, the column cut to the new line |
| Edit.Editor.Clamp | src/cmd/edit.c:368-382 | brings any row and column into the text, changing no more than needed |
| Edit.CursorUnique | src/cmd/edit.c:368-382 | an offset names one row and column |
| Edit.LinesUnique | src/cmd/edit.c:166-190 | a text names one array of newline-free lines |
| Edit.RowUpFlat | src/cmd/edit.c:506-511 | going up by rows is, in the flat text, going to the same column of the line that many lines above |
| Edit.RowDownFlat | src/cmd/edit.c:513-518 | going down by rows is going to the same column of the line that many lines below |
| Edit.Type | src/cmd/edit.c:506-650 | any sequence of editing, cursor and page keys acts on the lines as on the flat text with an offset, keeps the cursor in range, and marks the buffer exactly when a key changed the text |
| Sed.AtomMatch | src/cmd/sed.c:58-95 | decides whether the first atom (escape, class with ranges and negation, dot, literal) accepts a character and how long the atom is |
| Sed.ClassLists | src/cmd/sed.c:68-90 | a bracket matches exactly the characters it lists |
| Sed.ClassExcludes | src/cmd/sed.c:68-90 | behind ! or ^ it matches exactly the others |
| Sed.ClassSpans | src/cmd/sed.c:68-90 | a dash between two characters stands for the characters between them |
| Sed.ClassDash | src/cmd/sed.c:68-90 | a dash before the closing bracket stands for itself |
| Sed.AtomsMean | src/cmd/sed.c:58-94 | a dot matches everything, an escaped or ordinary character itself |
| Sed.MatchHere | src/cmd/sed.c:97-127 | returns the greedy match length when some prefix matches, and -1 if and only if none does |
| Sed.RegexMatch | src/cmd/sed.c:129-148 | finds the leftmost matching start, only the first place when anchored, and fails if and only if there is none |
| Sed.GreedyMatches | src/cmd/sed.c:97-127 | the greedy length is a match in the pattern's language |
| Sed.GreedyUnique | src/cmd/sed.c:97-127 | the greedy length is unique |
| Qsort.Heapify | src/libbrkc/stdlib/qsort.c:4-24 | sifts in place as the recursive definition says |
| Qsort.SiftHeap | src/libbrkc/stdlib/qsort.c:4-24 | sifting restores the heap below a node whose subtrees are heaps |
| Qsort.SiftPerm | src/libbrkc/stdlib/qsort.c:4-24 | sifting permutes the elements and touches none outside the heap |
| Qsort.SiftDepthBound | src/libbrkc/stdlib/qsort.c:4-24 | the recursion depth is at most the base-2 logarithm of the heap size |
| Qsort.QSort | src/libbrkc/stdlib/qsort.c:26-41 | for every total-preorder comparator the array ends sorted and a permutation of the input |

## Left out

- TLSF: the active and cached region lists are sequences instead of linked headers, the used bit is a field instead of the low bit of the size, and bitmaps are unbounded words with 32-bit contents; `mmap` may refuse or return any memory apart from what is mapped, and `errno` is not modelled.
- Tlsf.Allocator.Free: takes null, a live payload or a block still recognisably free; any other pointer is undefined in the source.
- Compiler: only signed `int` and `long` locals; pointers, globals, calls inside compiled expressions, unsigned and sub-int arithmetic, builtins, aggregates and `goto` are not in the compiled language. Switches have no duplicate case values and case labels stand inside a switch.
- CcGenFunction.Compile: at most eight parameters; the value returned is not cut to the return type, as in the source; registers `s1` to `s11`, which the generator never writes, are not mentioned. The emitter's code buffer holds 32-bit words rather than bytes, and case labels are numbered when the switch is generated rather than when it is parsed.
- RV64IM memory is doublewords at aligned addresses with 4-byte access inside them; unaligned access is an error.
- CcFold.FoldAgrees: shifts by counts outside 0 to 63 and the division of the smallest long by -1, undefined in C, are taken as the machine computes them.
- CcCall.GenCall: calls stand in a frame of int and long locals, with operands from the compiled language; the jal of a direct call has its distance filled in by CcReloc, and `ra` is not promised after a call, as each function reloads its own from its frame. The built-in `putchar`, `puts`, `exit` and system calls are not modelled, nor is va_start inside a compiled body.
- CcObject.ReadObject: takes the remaining input instead of a position, and checks symbol indexes after the tables are read instead of entry by entry, against the number of symbols read instead of the unsigned header field, which differ only for a symbol count of 2^31 or more (the source then indexes an empty table).
- CcRelink.PatchUnit: code sites are taken to lie inside the code, which the source does not check. Offsets are natural numbers; the source's ints turn negative from 2^31 up.
- CcImage.LinkAndWrite: the runtime and start units, the entry point and the 120 bytes of ELF and program headers are not modelled, the area before the text is zero; sizes are natural numbers. Code sites of each unit lie inside its code, and in CcResolve.ProgramRelinks share no byte, as CcReloc shows for emitted code.
- CcLayout.AddressAligned: alignments above 16 are not promised, since units are placed at multiples of 16.
- CcInit.InitExactly: the values of a local's initialiser all see the locals as they were before it, so side effects of one value on a later one are not modelled; parsing of initialisers into trees, pointer initialisers and copies of whole aggregates are not modelled; struct layout in parse_struct_spec is taken as given.
- Stdio: kernel errors, append mode and streams without a buffer are not modelled.
- Editor: allocation failure, scrolling, loading and saving are not modelled.
- sed: only the matcher. qsort: elements are values of a type instead of byte ranges, swapped whole.
- The preprocessor, lexer, shell, other commands, printf and system call wrappers are not modelled.
