# Packetgraph, verified models

This project models the parts of Packetgraph whose correctness is least obvious
from their code, and proves what they promise. Run `dafny verify dfyconfig.toml`
to check everything. Each module follows one part of the system.

**The BPF just-in-time compiler** (`Bpf`, `BpfOptimizer`, `BpfMachine`,
`BpfBlocks`, `BpfJit`, `BpfLaws`). `Bpf` is the language with a reference
interpreter that checks every packet read. `BpfOptimizer` holds the three passes
over the per-instruction records: reachability and initialisation, hoisting of
bounds checks, removal of redundant checks. `BpfMachine` is a machine with 64-bit
registers, whose operations have a meaning of their own, and the blocks of
operations emitted for each instruction. `BpfBlocks` proves that a block does what
its instruction does: the low half of register A and all of X follow the
reference, and what lies in upper halves never matters. `BpfJit` puts blocks and
passes together. `BpfLaws` says what the arithmetic and the conditions of the
language mean. Main results: the passes fail exactly when a jump that can be
reached leaves the program; the generated code returns what the reference returns
for every packet and whatever registers and memory hold at the start, stores the
same words, and never reads outside the packet; and exactly the words that the
analysis finds read before they are written are cleared at the start.

**The regular-expression front end** (`RegexSyntax`, `RegexParser`,
`RegexNotation`, `RegexExpansion`, `RegexFrontEnd`, `RegexGenerator`,
`RegexTransitions`, `RegexNfa`, `RegexTrace`, `RegexClosure`, `RegexStack`). A
pattern is parsed onto a stack of linked fragments, iterators are expanded by
copying inside it, and one pass that pops the stack writes a linear program of
branches and jumps. Main results: for every pattern the parser accepts, the
program accepts exactly the texts the pattern denotes; a syntax tree is the
reading of some pattern if and only if it can be written down, and writing it
down and parsing gives it back; the size counted while parsing is exactly the
number of cells written; tracing finds exactly the cells that the program reaches
without consuming a character, with the largest id on any way there; the stack of
linked fragments refines a sequence, also while two stacks share fragments.

**The executable-memory allocator** (`ExecAllocator`). Memory is a map from
header addresses to headers. Main results: after any sequence of allocations and
frees, and whatever users write into their blocks, chunks are tiled by blocks
whose tags agree, free blocks are never adjacent and are on the list once each,
live blocks are disjoint, and both counters are exact. The order of the free
list is fixed throughout, so that the block freed last is the first one given out
again.

**Bricks and graphs** (`Bricks`, `BrickLinks`, `BrickReach`, `BrickGraph`,
`GraphSplit`, `GraphMerge`, `GraphRoundTrip`, `GraphExamples`). Pointers to
bricks are identifiers into a heap; a link is a pair of slots that name each
other. Main results: every operation keeps links symmetric, counters and
reference counts exact, so a free slot is always found and unlinking never frees
a brick; exploration yields exactly the connected component; a split at a bridge
yields two disjoint graphs that cover the old one, and merging them restores it
if and only if no two friend queues lie on different sides of the bridge. Those
that do are what a successful merge loses, and nothing else.

**The MAC table and the switch** (`MacTable`, `MacIterator`, `Switch`). The
two-level bitmap table refines a map from 48-bit addresses; a 64-bit word is
modelled by its bits. Main results: the iterator visits every key once, in
order, except the keys in word 0 of the first sub-table when that is not
sub-table 0; it does so too when any of the keys already visited are unset
between two of its moves. A packet that the switch marks for a port is sent
there or stays marked, even after an error; a burst without an error sends on
exactly the ports that are linked and numbered below the count of linked ports
of their side, and leaves no mark if and only if every packet is meant for such
ports only. When the linked ports are the first ones of each side, addresses
were learned on them and nothing was marked before, this is the switch one
expects. After any run of bursts and unlinks an address is known on a port
exactly if it was last heard there and not forgotten since. Group and bridge
addresses are also given as numbers.

**The worker mailbox** (`Mailbox`). A state machine of clients and worker with an
explicit lock. Main result: in every interleaving a client reads the reply to its
own request, graph ids are handed out only while they are not in use, and errors
come back with the graph they belong to, the latest first.

**The header checksum and the queue brick** (`Checksum`, `QueueBrick`). The
incremental checksum is the checksum of the full header; polled bursts are an
in-order selection of pushed ones, and only the oldest burst of a full queue is
dropped.

Where the code does not do what one may expect of it, the model follows the code:

- The initialisation analysis of bpfjit carries what is unwritten before a return on
  to the next instruction it looks at. `BpfOptimizer.KeptPastReturn` is a program in
  which a word is cleared that is written on every way to its use;
  `BpfOptimizer.PendingIsUnwritten` says that this takes code after a return.
- A fresh MAC-table iterator does not load word 0 of the first sub-table unless
  sub-table 0 is present. `MacIterator.SkipsOnlyKey` shows a key it misses and
  `MacIterator.CompleteIff` says exactly when an iteration is complete. The
  consequence for a switch that forgets an unlinked port is in
  `Switch.SwitchState.UnlinkNotify`.
- `pg_brick_unlink_edge` breaks the first link between two bricks, which need not
  be the last one made: `BrickReach.UnlinkEdgeUndoes` says when it is, and
  `GraphExamples.LinkTwiceUnlink` links twice and loses the first link.
- Merging after a split also merges friend queues that the split separated.
  `GraphRoundTrip.SplitThenMerge` says exactly when a split is undone and what is
  lost otherwise; `GraphExamples.FriendsLost` builds a graph that loses two queues.
- The switch serves as many ports of a side as are linked, counted from the first
  one. `Switch.UnlinkedPortMisses` unlinks the first of two neighbours: the second
  one no longer gets packets for a group, and marks for the first one stay behind.
- A worker without room for a graph keeps the mailbox locked for ever; in the
  model it is then `Stuck`.

Addresses the system returns for new chunks, packets, downstream results and the
outcome of polling a graph are parameters or free choices of a step.

## Model

| member | source | states |
|---|---|---|
| Bpf.MaskIsMod | src/npf/bpfjit/bpfjit.c:1097-1150 | masking with a power of two minus one is the remainder |
| BpfOptimizer.OptimizeInit | src/npf/bpfjit/bpfjit.c:1270-1285 | every record starts without jumps to it and with no cell invalid |
| BpfOptimizer.RecordJump | src/npf/bpfjit/bpfjit.c:1447-1464 | a jump is put on the lists of both targets, and what is invalid there becomes invalid at the targets |
| BpfOptimizer.OptimizePass1 | src/npf/bpfjit/bpfjit.c:1291-1471 | fails exactly if a reachable jump leaves the program; else jump lists and reachability are exact, and the initialisation mask holds exactly the cells read while the walk counts them as unwritten |
| BpfOptimizer.UnwrittenIsPending | src/npf/bpfjit/bpfjit.c:1291-1471 | a cell that some path leaves unwritten is counted as unwritten |
| BpfOptimizer.PendingIsUnwritten | src/npf/bpfjit/bpfjit.c:1291-1471 | in a program without code after a return only such cells are |
| BpfOptimizer.KeptPastReturn | src/npf/bpfjit/bpfjit.c:1311-1332 | a program with code after a return in which a word written on the only path to its use is still counted |
| BpfOptimizer.LowerJumps | src/npf/bpfjit/bpfjit.c:1549-1552 | the hoisted length of every jump to an instruction becomes the minimum of its own and the instruction's |
| BpfOptimizer.OptimizePass2 | src/npf/bpfjit/bpfjit.c:1476-1554 | hoisted lengths satisfy the backward equations at every reachable instruction |
| BpfOptimizer.LowestChecked | src/npf/bpfjit/bpfjit.c:1568-1571 | the smallest length checked on any way to an instruction |
| BpfOptimizer.OptimizePass3 | src/npf/bpfjit/bpfjit.c:1556-1585 | checked lengths satisfy the forward equations, and a check is kept exactly where it adds something |
| BpfOptimizer.Optimize | src/npf/bpfjit/bpfjit.c:1587-1602 | the three passes together |
| BpfJit.UnreachableNeverRuns | src/npf/bpfjit/bpfjit.c:1291-1471 | no run of any packet executes an instruction marked unreachable |
| BpfJit.RunAgree | src/npf/bpfjit/bpfjit.c:1291-1471 | whatever is read before it is written is in the initialisation mask: runs that differ elsewhere cannot be told apart |
| BpfJit.UnwrittenWordsKept | src/npf/bpfjit/bpfjit.c:975-1000 | a run changes only the memory words it stores to |
| BpfJit.ShortPacketReturnsZero | src/npf/bpfjit/bpfjit.c:1476-1554 | a packet shorter than the hoisted length makes the rest return 0 with no visible effect |
| BpfBlocks.IndexedReadRuns | src/npf/bpfjit/bpfjit.c:843-871 | with buflen at least k plus width the subtraction does not wrap and the test against X decides whether the read is in bounds |
| BpfBlocks.ReadBytesRuns | src/npf/bpfjit/bpfjit.c:364-515 | loading bytes one by one, shifting and adding gives their big-endian value |
| BpfBlocks.MshRuns | src/npf/bpfjit/bpfjit.c:1006-1090 | X gets four times the low nibble of the byte and A is kept |
| BpfBlocks.ReadBlock | src/npf/bpfjit/bpfjit.c:812-894 | every packet read is reached with buflen at least k plus width and does what the checked read does |
| BpfJit.LabelsResolve | src/npf/bpfjit/bpfjit.c:1745-1756 | every label that a reachable jump needs is set |
| BpfJit.JumpBlock | src/npf/bpfjit/bpfjit.c:2003-2053 | a jump block goes where the jump goes |
| BpfBlocks.BranchRuns | src/npf/bpfjit/bpfjit.c:1632-1660 | a comparison of low halves, or a mask and a test for zero, decides as the condition does; negated for a jump on false |
| BpfBlocks.JumpOpsRun | src/npf/bpfjit/bpfjit.c:2003-2053 | the operations of a jump leave through the slot of its target, or fall through |
| BpfBlocks.CalculateLow | src/npf/bpfjit/bpfjit.c:1607-1629 | on 64-bit registers with anything in their upper halves every operation leaves the 32-bit result in the low half |
| BpfBlocks.PlainBlock | src/npf/bpfjit/bpfjit.c:1765-2146 | the blocks of loads, stores, moves and arithmetic do what their instructions do, and leave no upper half in X |
| BpfBlocks.PowerOfTwo | src/npf/bpfjit/bpfjit.c:1097-1150 | a number that shares no bit with its predecessor is a power of two |
| BpfBlocks.PowerOfTwoBlock | src/npf/bpfjit/bpfjit.c:1097-1150 | division and remainder by a power of two as shift and mask |
| BpfBlocks.DivideBlock | src/npf/bpfjit/bpfjit.c:1155-1225 | division and remainder, with a zero divisor returning 0 |
| BpfJit.ExecMatchesRun | src/npf/bpfjit/bpfjit.c:1693-2146 | hoisted checks change nothing a caller can see, and no block reads out of bounds |
| BpfJit.OptimizedCodeImplements | src/npf/bpfjit/bpfjit.c:1476-1585 | optimised code implements the program on every packet and every start state |
| BpfLaws.AddSub | src/npf/bpfjit/bpfjit.c:1607-1629 | sum and difference undo each other, and are exact where they fit |
| BpfLaws.NegIsSub | src/npf/bpfjit/bpfjit.c:1935-1944 | negation is subtraction from zero |
| BpfLaws.MulStep | src/npf/bpfjit/bpfjit.c:1607-1629 | multiplication is repeated addition |
| BpfLaws.DivModLaw | src/npf/bpfjit/bpfjit.c:1155-1225 | quotient times divisor plus remainder gives the number back; a zero divisor has no result |
| BpfLaws.LogicBits | src/npf/bpfjit/bpfjit.c:1607-1629 | and, or and exclusive or, bit by bit |
| BpfLaws.ShiftStep | src/npf/bpfjit/bpfjit.c:1607-1629 | shifts are repeated doubling and halving |
| BpfLaws.RefusedMeans | src/npf/bpfjit/bpfjit.c:1811-1955 | memory accesses are refused exactly beyond the words there are, shifts exactly where they always give 0 |
| BpfLaws.Trichotomy | src/npf/bpfjit/bpfjit.c:1632-1660 | greater, equal and less exclude each other and leave nothing out |
| BpfLaws.JsetCommonBit | src/npf/bpfjit/bpfjit.c:1632-1660 | the bit test holds if and only if some bit is set in both |
| BpfLaws.SuccessorsTight | src/npf/bpfjit/bpfjit.c:1310-1464 | the flow graph of pass 1 has an edge exactly where some run goes, unless the outcome of the instruction is decided by its constant |
| BpfMachine.ShiftFor | src/npf/bpfjit/bpfjit.c:1110-1119 | the shift found by halving is the logarithm |
| BpfMachine.EmitPow2ModDiv | src/npf/bpfjit/bpfjit.c:1097-1150 | emits the operations that PowerOfTwoBlock proves to be the division or the remainder |
| BpfJit.GenerateInsnCode | src/npf/bpfjit/bpfjit.c:1693-2146 | code is generated for every program without an unsupported reachable instruction |
| BpfJit.GenerateCode | src/npf/bpfjit/bpfjit.c:2148-2300 | exactly the programs whose reachable part is well formed are compiled, and correctly on a machine with operations of its own; what is cleared at the start is exact |
| RegexStack.Stack.Push | src/npf/sljit/regexJIT.c:229-265 | appends, adding a fragment only if none is left |
| RegexStack.Stack.Pop | src/npf/sljit/regexJIT.c:267-283 | removes the top item and leaves the fragments alone |
| RegexStack.Stack.Top | src/npf/sljit/regexJIT.c:223-227 | the last item |
| RegexStack.Stack.Clone | src/npf/sljit/regexJIT.c:285-288 | the same contents on the same fragments |
| RegexStack.Stack.Become | src/npf/sljit/regexJIT.c:285-288 | a stack in use becomes a clone of another |
| RegexStack.Stack.PushCopy | src/npf/sljit/regexJIT.c:290-343 | a stretch of items is repeated on top |
| RegexStack.PushIntoGap | src/npf/sljit/regexJIT.c:489-497 | pushing through a clone fills a gap in the original and changes nothing else |
| RegexStack.PushBelow | src/npf/sljit/regexJIT.c:489-497 | an item is put below the top items through a clone that shares the fragments |
| RegexExpansion.BoundedCopies | src/npf/sljit/regexJIT.c:499-535 | min copies and max minus min optional ones match between min and max copies |
| RegexExpansion.OpenCopies | src/npf/sljit/regexJIT.c:536-549 | min copies, the last one under a plus, match min or more copies |
| RegexExpansion.ExpandMatches | src/npf/sljit/regexJIT.c:423-556 | the expansion of an iterator matches what the iterator denotes |
| RegexExpansion.ElabAltMatches | src/npf/sljit/regexJIT.c:423-556 | expanding every iterator of a pattern preserves its language |
| RegexFrontEnd.ScanLast | src/npf/sljit/regexJIT.c:433-473 | scanning down the stack finds exactly the tokens of the last item and the size of its code |
| RegexFrontEnd.FindLastItem | src/npf/sljit/regexJIT.c:433-473 | a clone is popped down to what lies below the last item, and the size of its code is returned |
| RegexFrontEnd.OpenBelow | src/npf/sljit/regexJIT.c:433-497 | puts an open bracket below the last item |
| RegexFrontEnd.BuildBounded | src/npf/sljit/regexJIT.c:499-535 | the stack holds the copies of a bounded iterator |
| RegexFrontEnd.BuildOpen | src/npf/sljit/regexJIT.c:536-549 | the stack holds the copies of an open iterator |
| RegexFrontEnd.Delete | src/npf/sljit/regexJIT.c:476-485 | {0,0} leaves an empty group, and the shrinkage returned is exact |
| RegexFrontEnd.Iterate | src/npf/sljit/regexJIT.c:423-556 | the last item is replaced by its expansion, and the growth returned is exact |
| RegexNotation.NumberRead | src/npf/sljit/regexJIT.c:403-421 | the decimal digits of a number, followed by no digit, are read as that number |
| RegexNotation.IdRead | src/npf/sljit/regexJIT.c:558-662 | an id in braces is read back |
| RegexNotation.BoundsRead | src/npf/sljit/regexJIT.c:558-662 | bounds in braces are read back, with and without an upper one |
| RegexNotation.ShortBounds | src/npf/sljit/regexJIT.c:558-662 | one number means both bounds, a missing lower one means 0 |
| RegexNotation.RangeRead | src/npf/sljit/regexJIT.c:664-761 | a range with its members, escaped where needed and inverted or not, is read back |
| RegexNotation.ShowParse | src/npf/sljit/regexJIT.c:763-931 | every tree that can be written down is read back exactly, with or without anchors |
| RegexNotation.ParsedIsWritable | src/npf/sljit/regexJIT.c:763-931 | trees that can be written down are exactly the trees some pattern has |
| RegexNotation.Refused | src/npf/sljit/regexJIT.c:763-931 | brackets left open or closed once too often, a final backslash, and operators with nothing before them are refused |
| RegexFrontEnd.DecodeNumber | src/npf/sljit/regexJIT.c:403-421 | the number that NumberRead pins, and where it ends |
| RegexFrontEnd.DecodeIterator | src/npf/sljit/regexJIT.c:558-662 | the bounds or id in braces, or that there are none |
| RegexFrontEnd.ApplyBounds | src/npf/sljit/regexJIT.c:558-662 | bounds turn the last item into its expansion and the size grows by the same amount |
| RegexFrontEnd.ParseIterator | src/npf/sljit/regexJIT.c:558-662 | one step of the reference parser |
| RegexFrontEnd.ParseCharRange | src/npf/sljit/regexJIT.c:664-761 | fails exactly if the range is malformed; else pushes its members |
| RegexFrontEnd.ParseElement | src/npf/sljit/regexJIT.c:763-931 | one step of the reference parser, tokens and size included |
| RegexFrontEnd.Parse | src/npf/sljit/regexJIT.c:763-931 | accepts what the reference accepts; the stack holds the tokens of the expanded tree, and the size counts their cells |
| RegexFrontEnd.Compile | src/npf/sljit/regexJIT.c:1861-1885 | the program accepts exactly the texts that the pattern denotes |
| RegexFrontEnd.CompileShown | src/npf/sljit/regexJIT.c:1861-1885 | a tree written down compiles, to a program that accepts exactly the texts the tree matches |
| RegexGenerator.ItemSize | src/npf/sljit/regexJIT.c:974-1052 | an item emits exactly the cells counted for its tokens |
| RegexGenerator.GenItem | src/npf/sljit/regexJIT.c:974-1052 | the tokens of an item emit its code and complete whatever waits for it |
| RegexGenerator.GenProgram | src/npf/sljit/regexJIT.c:974-1052 | the array is filled to its first cell and the depth stack ends empty |
| RegexTransitions.CompleteIteratives | src/npf/sljit/regexJIT.c:944-972 | the pending operators on top of the depth stack are completed in the array |
| RegexTransitions.ProcessToken | src/npf/sljit/regexJIT.c:987-1048 | one token, as the generator's specification handles it |
| RegexTransitions.GenerateTransitions | src/npf/sljit/regexJIT.c:974-1052 | the stack is popped empty and the array holds the code of the pattern |
| RegexNfa.MembersHave | src/npf/sljit/regexJIT.c:664-761 | the cells of a range contain exactly the characters of its members |
| RegexNfa.ProgramAccepts | src/npf/sljit/regexJIT.c:974-1052 | the program accepts exactly the texts the pattern matches |
| RegexTrace.TraceTransitions | src/npf/sljit/regexJIT.c:1229-1278 | terminates; the marked cells are the closure, pushed once each, with the largest id on any walk |
| RegexClosure.AttainedIffPath | src/npf/sljit/regexJIT.c:1229-1278 | a walk leads to a cell if and only if the program gets there without consuming a character |
| RegexClosure.InteriorDiffers | src/npf/sljit/regexJIT.c:1229-1278 | inside a range it would not, so no trace starts there |
| RegexClosure.TracedFinds | src/npf/sljit/regexJIT.c:1229-1278 | marked cells are those reached without consuming a character; a mark is the largest id on any way there |
| RegexClosure.ProgramTidy | src/npf/sljit/regexJIT.c:974-1052 | every generated program leads into ranges only at their start |
| RegexClosure.TraceProgram | src/npf/sljit/regexJIT.c:1229-1278 | tracing behind the start, a character or a range of a generated program finds exactly the cells reached without consuming a character |
| RegexTrace.ProgramClosed | src/npf/sljit/regexJIT.c:1229-1278 | every generated program can be traced from each of its cells |
| ExecAllocator.Allocator.constructor | src/npf/sljit/sljitExecAllocator.c:146-148 | the empty allocator is valid |
| ExecAllocator.Allocator.InsertFree | src/npf/sljit/sljitExecAllocator.c:150-160 | a used block becomes free and is put in front of the list |
| ExecAllocator.Allocator.RemoveFree | src/npf/sljit/sljitExecAllocator.c:162-173 | one block leaves the doubly linked list, the others keep their order; tags stay |
| ExecAllocator.Allocator.FirstFit | src/npf/sljit/sljitExecAllocator.c:187-210 | the first free block that is long enough, or that there is none |
| ExecAllocator.Allocator.TakeWhole | src/npf/sljit/sljitExecAllocator.c:199-207 | a free block becomes used as a whole |
| ExecAllocator.Allocator.CarveEnd | src/npf/sljit/sljitExecAllocator.c:191-198 | the end of a free block becomes a used block |
| ExecAllocator.Allocator.TakeFrom | src/npf/sljit/sljitExecAllocator.c:187-210 | a block that is 64 bytes or less too long is taken whole and leaves the list; else its end is carved off and the list stays |
| ExecAllocator.Allocator.MapChunk | src/npf/sljit/sljitExecAllocator.c:212-243 | a new chunk starts with the used block; the rest is free if it is worth it |
| ExecAllocator.Allocator.MallocExec | src/npf/sljit/sljitExecAllocator.c:175-244 | a fresh block of the size asked for, up to 64 bytes more, from the first free block that fits; blocks, list and chunks afterwards are exact; every live block as it was; a new chunk only if nothing fits |
| ExecAllocator.Allocator.Unuse | src/npf/sljit/sljitExecAllocator.c:251-268 | a used block becomes free space, joined with a free block in front |
| ExecAllocator.Allocator.JoinFree | src/npf/sljit/sljitExecAllocator.c:270-276 | two free neighbours become one and the second leaves the list |
| ExecAllocator.Allocator.ReleaseChunk | src/npf/sljit/sljitExecAllocator.c:278-286 | a chunk that is one free block is given back |
| ExecAllocator.Allocator.FreeExec | src/npf/sljit/sljitExecAllocator.c:246-289 | exactly one live block goes away, joined with its free neighbours; blocks and list afterwards are exact; its chunk is returned if and only if it has become free and enough remains |
| ExecAllocator.FreeThenMalloc | src/npf/sljit/sljitExecAllocator.c:150-289 | freeing a block between used ones and asking for as much again gives the same block and restores blocks, list and chunks |
| ExecAllocator.Allocator.UserWrites | src/npf/sljit/sljitExecAllocator.c:127-144 | writes into used blocks keep the allocator valid |
| ExecAllocator.ChunksTiled | src/npf/sljit/sljitExecAllocator.c:175-244 | every chunk is tiled by its blocks up to the terminator |
| ExecAllocator.LiveDisjoint | src/npf/sljit/sljitExecAllocator.c:175-244 | live allocations do not overlap |
| Bricks.WireBothEnds | src/brick.c:459-505 | every link can be followed from both ends |
| Bricks.LinkKeepsValid | src/brick.c:459-505 | linking free slots keeps pairing, counters and references exact |
| Bricks.LinkAddsWire | src/brick.c:459-505 | linking adds one link and no other |
| Bricks.UnlinkKeepsValid | src/brick.c:569-617 | unlinking keeps the invariant, and neither brick loses its last reference |
| Bricks.UnlinkRemovesWire | src/brick.c:569-617 | unlinking removes one link and no other |
| BrickLinks.EdgeIterator.constructor | src/brick-int.h:309-321 | the iterator starts at the first occupied slot |
| BrickLinks.EdgeIterator.Next | src/brick-int.h:283-307 | it moves to the next occupied slot, skipping none, or ends |
| BrickLinks.World.New | src/brick.c:140-209 | which sizes are refused, and that a new brick changes nothing for the others |
| BrickLinks.World.InsertLink | src/brick.c:409-445 | the first free slot is taken; the panic is never reached |
| BrickLinks.World.Link | src/brick.c:459-505 | succeeds exactly if both bricks exist, differ and have room; then one link between the first free slots is added |
| BrickLinks.World.Decref | src/brick.c:242-268 | the last reference frees the brick and its friend forgets it |
| BrickLinks.World.DoUnlink | src/brick.c:569-617 | the link of one slot is broken at both ends, whatever end one comes from |
| BrickLinks.World.Unlink | src/brick.c:624-631 | exactly the links of the brick go away |
| BrickLinks.World.UnlinkEdge | src/brick.c:785-836 | the first link to the other brick is broken; fails exactly if there is none |
| BrickLinks.World.Destroy | src/brick.c:227-233 | the brick and its links are gone, all else is as before |
| BrickLinks.World.Friend | src/queue.c:158-182 | two queues without friends become each other's |
| BrickLinks.World.Unfriend | src/queue.c:200-206 | both forget each other |
| BrickReach.RefcountExact | src/brick.c:211-268 | a reference count is one plus the slots anywhere that point at the brick |
| BrickReach.PeerOfPeer | src/brick.c:459-505 | going to the other end of a link twice leads back |
| BrickReach.UnlinkAfterLink | src/brick.c:569-617 | breaking the link just made restores every brick up to the stance of monopoles |
| BrickReach.UnlinkEdgeUndoes | src/brick.c:785-836 | unlinking by names undoes the last link if and only if no lower slot led to the same brick |
| GraphExamples.LinkTwiceUnlink | src/brick.c:785-836 | after two links between the same bricks the first one is broken and the second kept |
| BrickReach.AdjacentSymmetric | src/brick.c:459-505 | neighbourhood is symmetric |
| BrickGraph.AddNeighbours | src/graph.c:82-93 | the unseen neighbours are added, each once |
| BrickGraph.Component | src/graph.c:121-137 | the worklist ends with the connected component, each brick once, the start included |
| BrickGraph.Graph.Push | src/graph.c:221-234 | refused exactly if the name is taken |
| BrickGraph.Graph.Pop | src/graph.c:204-213 | one brick leaves the table and the list of bricks to poll |
| BrickGraph.Graph.AnyBrick | src/graph.c:95-109 | some brick of the graph, if there is one |
| BrickGraph.Graph.Explore | src/graph.c:111-153 | succeeds exactly if names are unique in the component; the graph then holds the component |
| GraphSplit.ReachOneMore | src/graph.c:255-284 | one more link joins two components |
| GraphSplit.CutLink | src/graph.c:255-276 | the first link between two bricks is replaced by two queues; when that is possible |
| GraphSplit.Split | src/graph.c:255-284 | both graphs are explored from their queue; when the split succeeds |
| GraphSplit.SplitComponents | src/graph.c:255-284 | the two graphs cover the old component and the queues; disjoint exactly if the link was a bridge, else equal |
| GraphSplit.SplitNames | src/graph.c:255-284 | fresh queue names keep names unique |
| GraphMerge.MergeQueues | src/graph.c:299-320 | two queues are taken out and their neighbours linked, exactly if there is room |
| GraphMerge.AllQueues | src/graph.c:286-297 | the queues of a graph, each once |
| GraphMerge.MergeAll | src/graph.c:332-348 | every pair of friends between the graphs is merged |
| GraphMerge.DestroyAll | src/graph.c:350-362 | merged queues leave their graph and the heap |
| GraphMerge.Merge | src/graph.c:322-373 | exactly the separated friends disappear, pair by pair their neighbours are linked instead, links elsewhere stay, the rest is explored |
| GraphRoundTrip.MergeUndoesSplit | src/graph.c:255-373 | merging restores the links, the cut one between the same bricks |
| GraphRoundTrip.AdjacencyRestored | src/graph.c:255-373 | the same bricks are neighbours as before the split |
| GraphRoundTrip.MatchedApart | src/graph.c:332-348 | the friends that a merge after a split finds are the split's own queues and those that lie on different sides |
| GraphRoundTrip.NeverStuck | src/graph.c:299-348 | a merge of queues that stand between bricks that stay cannot fail on the way, however many pairs there are |
| GraphRoundTrip.NamesAfterMerge | src/graph.c:364-373 | names are unique in what is left, so it can be explored |
| GraphRoundTrip.OnlyLostGone | src/graph.c:322-373 | of the bricks before the split, exactly the friends on different sides are gone |
| GraphRoundTrip.SplitThenMerge | src/graph.c:255-373 | splitting at a bridge and merging succeeds and keeps every brick if and only if the bridge separates no friends, and then restores neighbours and members; otherwise exactly the separated friends are lost |
| GraphExamples.AcrossSeparates | src/graph.c:255-373 | a bridge with a pair of friends beside it separates them |
| GraphExamples.FriendsLost | src/graph.c:255-373 | a graph built by linking and befriending loses two queues by a split and a merge that succeed |
| MacTable.HalvesIdentify | src/utils/mac-table.h:177-178 | the two halves identify the first six bytes |
| MacTable.KeyHasHalves | src/utils/mac-table.h:317-324 | the key an iterator makes has the halves it was made of |
| MacTable.Table.constructor | src/utils/mac-table.h:103-113 | an empty map |
| MacTable.Table.AddSub | src/utils/mac-table.h:223-234 | a new sub-table changes no key |
| MacTable.Table.Set | src/utils/mac-table.h:216-238 | an update of the map |
| MacTable.Table.Unset | src/utils/mac-table.h:240-251 | removes the key, or reports that it is not there |
| MacTable.Table.Get | src/utils/mac-table.h:285-297 | the value of the key, if it is there |
| MacTable.Table.Clear | src/utils/mac-table.h:136-155 | the empty map; every freed sub-table was there |
| MacTable.Table.ComputeLength | src/utils/mac-table.h:115-134 | the number of keys |
| MacIterator.Iterator.constructor | src/utils/mac-table-it-next.h:28-53 | the first key from the start position on |
| MacIterator.Iterator.Next | src/utils/mac-table-it-next.h:73-110 | the next present key, or that there is none |
| MacIterator.UnsetKeepsSynced | src/utils/mac-table-it-next.h:73-110 | unsetting any key that an iterator has passed, or stands on, does not disturb it |
| MacIterator.KeysWhileUnsetting | src/utils/mac-table.h:348-357 | with any visited keys unset after every move, the iteration still yields the keys of the start that are not skipped, once each, in order and with their values; the table loses exactly what was unset |
| MacIterator.Keys | src/utils/mac-table.h:348-357 | an iteration yields the keys that are not skipped, once each and in order |
| MacIterator.CompleteIff | src/utils/mac-table-it-next.h:28-53 | exactly when an iteration misses no key |
| MacIterator.SkipsOnlyKey | src/utils/mac-table-it-next.h:39-52 | a table with one key that looks empty to an iteration |
| MacIterator.RemoveMatching | src/switch.c:350-365 | unsets, while iterating, every visited key with a given value |
| Switch.SwitchState.constructor | src/switch.c:281-303 | nothing is marked and nothing known |
| Switch.SwitchState.Flood | src/switch.c:59-75 | packets are marked for every port in use |
| Switch.AddressBytes | src/switch.c:157-198 | the bytes of an address written out as a number |
| Switch.AddressKinds | src/switch.c:157-198 | group addresses are the odd numbers, bridge addresses are sixteen of them |
| Switch.MeantIsWanted | src/switch.c:157-236 | whom a packet is meant for, by the number of its address alone |
| Switch.SwitchState.LearnFilterMulticast | src/switch.c:157-198 | sources are learned, group packets marked for all ports, bridge packets for none |
| Switch.SwitchState.DoSwitch | src/switch.c:200-236 | each packet is marked for the port its destination is known on, else for all |
| Switch.SwitchState.Forward | src/switch.c:86-106 | the marked packets of a linked port are sent and unmarked |
| Switch.SwitchState.ForwardBursts | src/switch.c:108-137 | ports are served in order up to the first that refuses; what was sent and what stays marked, with and without an error; never the source port |
| Switch.BurstOutcome | src/switch.c:108-137 | serving some ports of both sides sends what is marked for the linked ones among them, and leaves the rest |
| Switch.SwitchState.Burst | src/switch.c:250-279 | for any ports: what was marked or is meant for a port other than the source is sent or stays marked, never both; without an error it is sent if and only if the port is linked and below the count of its side; no mark is left if and only if all packets are meant for such ports; with linked ports first, known addresses on them and no marks before, every packet reaches exactly the ports it is meant for, also as told by the numbers of the addresses |
| Switch.UnlinkedPortMisses | src/switch.c:59-137 | a linked port behind an unlinked one misses a packet for a group |
| Switch.SwitchState.UnlinkNotify | src/switch.c:350-365 | what was learned on a port is forgotten, except keys the iterator skips |
| Switch.LastHeard | src/switch.c:149-155 | after any run of bursts and unlinks an address is known on a port if and only if it was last heard there and not forgotten since |
| Mailbox.ShrinkQueue | src/thread.c:308-324 | the free slots at the end go away and no other |
| Mailbox.InitInv | src/thread.c:256-283 | the invariant holds at the start |
| Mailbox.EnqueueKeeps | src/thread-impl.h:34-52 | appending a request keeps the invariant |
| Mailbox.FinishKeeps | src/thread.c:347-400 | taking a reply and shrinking keeps the slots of the others |
| Mailbox.ServeGraphs | src/thread.c:149-172 | adding gives out an id not in use, removing frees one that is |
| Mailbox.ServeKeeps | src/thread.c:128-219 | handling one slot keeps the invariant |
| Mailbox.StepKeeps | src/thread.c:128-219 | every step of every thread keeps the invariant |
| Mailbox.RunInv | src/thread.c:110-239 | every state of every run satisfies the invariant |
| Mailbox.Exclusive | src/thread.c:89-108 | the lock keeps threads apart and no two clients share a slot |
| Mailbox.AnswerIsOwn | src/thread.c:326-345 | a slot stays below the size, and the answer read is the reply to the client's own request |
| Mailbox.SlotIsKept | src/thread.c:326-380 | a slot belongs to its client until the client frees it |
| Mailbox.ErrorsPaired | src/thread.c:128-219 | every error on the stack has the id of its graph beside it |
| Mailbox.StatusReplies | src/thread.c:128-219 | what a client reads as state, as error, as graph of the error and as number of errors left |
| Mailbox.Starting | src/thread.c:174-199 | which graphs run after a start and after a forced start, and when the worker does |
| Mailbox.GraphReplies | src/thread.c:149-172 | a new id was not in use; a removed id gives back the graph added under it |
| Checksum.OnesSumIsCanonical | src/utils/ip.h:55-70 | end-around carries may be left to the end |
| Checksum.TwoFoldsSuffice | src/utils/ip.h:84-98 | two folds of any 32-bit sum give its one's-complement sum |
| Checksum.IncrementalSum | src/utils/ip.h:55-98 | prepared sum and varying words add up to the header's sum, without overflow |
| Checksum.IncrementalIsFull | src/utils/ip.h:84-98 | the incremental checksum is the checksum of the full header |
| Checksum.HeaderVerifies | src/utils/ip.h:84-98 | with the checksum in place the header sums to 0xffff, in the special case too |
| Checksum.HeaderAddresses | src/utils/ip.h:55-70 | the header holds both addresses with their halves in order |
| Checksum.Vtep.BuildHeader | src/vtep-impl.h:157-176 | every header built verifies and has the version, protocol, length, id and addresses asked for; the packet id wraps around |
| QueueBrick.Queue.constructor | src/queue.c:133-156 | an empty queue; size 0 means 10 |
| QueueBrick.Queue.Start | src/queue.c:66-77 | the decision to drop is taken exactly on a full queue |
| QueueBrick.Queue.Drop | src/queue.c:74-80 | only the oldest burst is dropped |
| QueueBrick.Queue.Push | src/queue.c:82-86 | the length stays within the limit |
| QueueBrick.Queue.Poll | src/queue.c:100-131 | the friend takes the oldest burst |
| QueueBrick.Queue.Burst | src/queue.c:66-98 | an uninterrupted burst |
| QueueBrick.Queue.PolledInOrder | src/queue.c:66-131 | polled bursts are an in-order selection of pushed ones; the others were dropped or still wait |

## Left out

- BPF: coprocessor instructions, kernel builds, register allocation hints and native code; a machine operation on low halves clears the upper half, and buffers are at most 2^32 - 1 bytes long.
- BPF: shifts by a register that holds 32 or more give 0 in the model, while a real machine may use only the low bits of the count; return modes that bpfjit itself rejects as unknown are left out.
- Regular expressions: the newline and anchor flags, the numbering of search states, overflow of decimal numbers, and the code-emitting half.
- RegexTrace.TraceTransitions: is stated for any closed program and one start cell; RegexClosure.TraceProgram has the starts behind a cell that is not a branch, and the loop over them is not modelled.
- RegexStack.Stack.Push: running out of memory is not modelled.
- ExecAllocator: the mapping calls and the lock; addresses are unbounded and headers have the sizes of a 64-bit build.
- ExecAllocator.Allocator.MallocExec: overflow of the request size is not modelled.
- BrickLinks.World.Link: link notifiers other than a monopole's own record of its side are not modelled.
- BrickLinks.World.DoUnlink: unlink notifiers and their errors are not modelled.
- Bricks: packet counters, reset, names in dot output, and burst and poll callbacks.
- BrickLinks.World.New: unknown types, missing configurations and failing initialisers are not modelled; queues always poll, as their initialiser sets.
- GraphMerge.Merge: graphs that share a brick are not modelled; a queue destroyed for the east graph then stays in the table of the west graph, and the source may go on to explore from it.
- GraphMerge.DestroyAll: the destroyed queues belong to one graph only, for the same reason.
- GraphMerge.MergeAll: the two lists share no queue, which they do only for graphs that share a brick.
- MacTable.Table.Set: failing allocation and the recovery by long jump are not modelled.
- MacTable: the table of inline elements, which differs from the table of pointers only in how an entry is addressed.
- MacIterator.Iterator.Next: the read of one word behind the mask at the end is left out; its value is never used.
- Switch.SwitchState.Burst: neighbours that burst back into the switch while it forwards are not modelled.
- Mailbox: quitting, liveness and the order in which requests are served.
- QueueBrick: limits of 2^31 and more, packet reference counts, and the packets inside a burst.
- Not modelled at all: network, tap and vhost bricks, firewall, VTEP beyond the header checksum, hub, nop, diode, collect, print, benchmarks and tools.
