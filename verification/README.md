# The storage manager, the reordering engine, bignum limbs and the buffer registry of Emacs

This project models four parts of Emacs in Dafny and proves what they are for.

- **The bidirectional reordering engine** (`src/bidi.c`). One character at a time, with a cache of iterator
  states, it delivers a line in the order of rule L2 of UAX #9 (the Unicode Bidirectional Algorithm). It resolves
  explicit levels by rules X1 to X8 and pairs brackets by BD16 and N0.
- **The storage manager** (`src/alloc.c`). It marks with an explicit stack, sweeps conses word by word, compacts
  small strings in place, allocates and sweeps vectors in blocks, counts the blocks of aligned groups in a pointer
  field, runs finalizers that may collect again, and keeps a red-black tree of memory regions.
- **Bignum limbs** (`src/bignum.c`). Machine integers to limbs and back, the choice between fixnum and bignum, and
  random numbers below a limit by rejection.
- **The buffer registry** (`src/buffer.c`). Names, indirect buffers, renaming and killing.

What the program changes step by step is a class whose methods change its fields, or a loop over an array. Each
method is proved against functions of the old state, and the laws of those functions are lemmas beside it. Memory
is a map from addresses to contents, or arrays where offsets matter. Sizes are parameters, with the inequalities
that the program relies on.

| files | part |
|---|---|
| `BidiOrder`, `BidiCache`, `BidiReorder` | rule L2, the cache of states, jump and flip |
| `BidiRules`, `BidiLaws`, `BidiExplicit` | rules X1 to X8, what they come to, the machine that resolves explicit levels |
| `BidiBrackets` | BD16 and N0, the bracket scan |
| `MarkGraph`, `MarkStack`, `ConsSweep`, `Collect` | reachability, the mark stack, the sweep of conses, a full collection |
| `MemTreeShape`, `MemTreeBalance`, `MemTreeSteps`, `MemTree` | parent-pointer trees, their balance, the cases of the repair loops, the tree |
| `StringData`, `StringCompact` | records of string bytes, their allocation and compaction |
| `VectorTiles`, `VectorHeap` | rows of tiles, the allocation and the sweep of vectors |
| `AlignedBlocks`, `Finalizers` | aligned blocks, finalizers |
| `BignumLimbs`, `BignumConvert`, `RandomLimbs`, `BignumRandom` | limbs, conversions, the sampler as an automaton, its loops |
| `BufferNames`, `BufferRegistry` | names of buffers, the registry |
| `Lists`, `Powers` | shared vocabulary |

## Model

| member | source | states |
|---|---|---|
| BidiReorder.DeliverLine | src/bidi.c:3199-3285 | For every line of resolved levels with both ends at the base level, ended by a newline or by the end of the text, the positions that repeated visual moves deliver are those of rule L2, in its order; each position of the line is delivered once, and what the cache held below the line stays. |
| BidiReorder.Reorderer.MoveToVisuallyNext | src/bidi.c:3199-3285 | One move, from any position of the line but the last, arrives at its neighbour in the nested-run order (which NextIsL2Successor proves to be rule L2's), with the scan direction forward exactly when level and base have the same parity; the loop over level jumps ends. |
| BidiOrder.NextIsL2Successor | src/bidi.c:3199-3285 | The jump-and-flip step leads from each position of the line to the one after it in the order that rule L2 gives by reversing runs, highest level first. |
| BidiOrder.L2Once | src/bidi.c:3199-3285 | The order that the moves follow has each position of the line once, and no other. |
| BidiReorder.HeadingUp | src/bidi.c:3266-3281 | Inside the loop over level jumps, an ascending jump that has not arrived leads to the edge of the next higher level with the direction flipped, still heading for the same target. |
| BidiReorder.HeadingDown | src/bidi.c:3266-3281 | The same for a descending jump. |
| BidiReorder.HeadingArrives | src/bidi.c:3266-3285 | When the next character is at the level that the jump expects, it is the target that rule L2 prescribes. |
| BidiReorder.Reorderer.ChangeLevel | src/bidi.c:3232-3285 | When the level changes, flipping once for each level between the old and the new one lands on rule L2's next position, in the direction that its level calls for. |
| BidiReorder.Reorderer.FindOtherLevelEdge | src/bidi.c:3144-3197 | Stops at the far edge of the run at or above the level: one step past it, or at its last character when asked to look in the other direction; found in the cache when it is there, and otherwise by reading on. |
| BidiReorder.Reorderer.Walk | src/bidi.c:3168-3188 | Reading forward from the edge of the cache stops just before the first character below the level, and caches every state passed. |
| BidiReorder.Reorderer.LevelOfNextChar | src/bidi.c:2990-3122 | The next state in scan direction, from the cache when it is there, with its resolved level; at the end of the text nothing moves. |
| BidiCache.CoveredOnce | src/bidi.c:624-664 | In a contiguous cache no two states cover the same position, and every position between the ends is covered. |
| BidiCache.RuledOut | src/bidi.c:624-664 | What one look at the last-hit state excludes: all later states, all earlier ones, or all others. |
| BidiCache.Cache.Search | src/bidi.c:624-664 | The search directed by the hint finds a state that covers the position at a level not above the given one, and returns -1 only if no cached state does. |
| BidiCache.Cache.SearchPosition | src/bidi.c:624-664 | With no level given it finds exactly the one slot that a full scan finds, or -1 if a full scan finds none. |
| BidiCache.Cache.FindLevelChange | src/bidi.c:681-713 | The nearest state below the level from the last hit in the given direction, or the one before it, and -1 only if there is none. |
| BidiCache.Cache.IteratorState | src/bidi.c:757-822 | Storing a state updates the slot that covers its position, or adds a slot at the end, after dropping a cache that it does not continue; the states stay contiguous, the hint valid, and outer frames as they were; it fails exactly when a new slot is needed and there is no room or only an update was wanted. |
| BidiCache.Cache.Find | src/bidi.c:830-852 | Fetches the covering state with the caller's scan direction, exactly when there is one and it is resolved if that was asked for; otherwise the caller's state is unchanged. |
| BidiCache.Cache.PeekAtNextLevel | src/bidi.c:854-863 | The level of the state next to the last hit in scan direction; the last state's if there is no hint or nothing after it. |
| BidiCache.Cache.Reset | src/bidi.c:592-605 | Drops the current frame's states and no others. |
| BidiCache.Cache.PushIt | src/bidi.c:875-890 | Puts the current states and the iterator aside as one frame on top of the earlier ones, and starts an empty cache. |
| BidiCache.Cache.PopIt | src/bidi.c:894-915 | Restores exactly the states and the iterator of the last push, whatever was cached since, and leaves the frames below as they were. |
| BidiExplicit.Explicit.Levels | src/bidi.c:1832-2033 | For every paragraph, every character that X9 does not remove gets the level that rules X1 to X8 give it, although pushes for isolates and pops for PDF wait for the next character. Right after an initiator that fits, that is the least greater odd level for RLE, RLO and RLI and the least greater even one for LRE, LRO and LRI (an FSI counts as either); right after one that does not fit, the level around it. |
| BidiExplicit.Explicit.ResolveExplicit | src/bidi.c:1832-2037 | One character, or the end of the text: the machine's settled status is one step of the rules further; an isolate's saved context stays in place inside it, and comes back when its own PDI closes it. |
| BidiExplicit.Explicit.ReadIsolate | src/bidi.c:1992-2001 | Whatever nesting of embeddings and isolates is inside a valid isolate, the matching PDI restores the start-of-sequence direction, last strong type and neutral context saved when the isolate was pushed, exactly so for the types that a saved context can hold. |
| BidiExplicit.RestoredExactly | src/bidi.c:442-451 | What comes back from the three-bit fields is what was saved if and only if the three types are among the first eight of their enumeration, up to AL. |
| BidiExplicit.UsualRestored | src/bidi.c:442-451 | The types that the program assigns to these three members come back exactly. |
| BidiExplicit.Explicit.PushLevel | src/bidi.c:430-452 | Adds one entry above the others; for an isolate the entry holds the context, and the new run starts from a fresh one. |
| BidiExplicit.Explicit.PopLevel | src/bidi.c:457-495 | Removes the top entry, never the last one; an isolate's context comes back and an embedding's run gets a fresh one. |
| BidiExplicit.Explicit.StaleOverride | src/bidi.c:1834-1876 | An isolate initiator is given another type than rules X5a and X5b give it if and only if the previous character's delayed action ends an embedding whose override differs from the one below, or enters a valid isolate inside an override. |
| BidiExplicit.StaleExample | src/bidi.c:1834-1876 | In RLO PDF RLI the isolate initiator gets type R although no override is in force. |
| BidiRules.StepValid | src/bidi.c:430-495 | Every step of the rules keeps the stack strictly increasing and within the maximum depth, and the count of valid isolates equal to the isolate entries on it. |
| BidiRules.StackBound | src/bidi.c:430-452 | Since levels on the stack increase, the n-th entry has at least level n, so the stack never exceeds the maximum depth by more than one entry. |
| BidiRules.CloseOwn | src/bidi.c:1992-2001 | When no isolate inside the k-th entry's is open, a PDI pops exactly to below that entry: the loop finds an isolate and does not run off the stack. |
| BidiRules.StepInside | src/bidi.c:1908-2033 | Nothing but a PDI or a paragraph separator touches the entries up to an open isolate, and only isolate initiators add to what is open inside it. |
| BidiLaws.Enter | src/bidi.c:1844-1953 | What each initiator does to the status: if nothing overflows and the level it enters is at most 125, a new entry at the least greater odd or even level, with the override of its kind, an isolate for RLI and LRI; otherwise only the count of overflowing isolates goes up, or that of embeddings when no isolate overflows. |
| BidiLaws.LeaveEmbedding | src/bidi.c:1867-1876 | What a PDF undoes: an overflowing embedding, else the embedding on top, and nothing under an overflowing isolate, an isolate or the base. |
| BidiLaws.LeaveIsolate | src/bidi.c:1992-2003 | What a PDI undoes: an overflowing isolate, else everything down to and including the last isolate on the stack, and nothing if there is none. |
| BidiLaws.Stay | src/bidi.c:1908-2033 | No other character changes the status. |
| BidiLaws.LevelIs | src/bidi.c:1908-2033 | The level of a character is that of the entry on top before it, of a PDI that of the entry left after it, and of a paragraph separator the paragraph's. |
| BidiLaws.InitiatorTypeIs | src/bidi.c:1834-1876 | Under an override to the left or right an isolate initiator counts as L or R, and otherwise as itself. |
| BidiLaws.IsolateBack | src/bidi.c:1992-2003 | An isolate, valid or not, with any text in it whose isolates are balanced, gives back after its PDI the status before it. |
| BidiLaws.BalancedBack | src/bidi.c:430-495 | Text in which embeddings and isolates are closed in order gives back the status before it. |
| BidiLaws.SameLevelAfter | src/bidi.c:1832-2033 | A character after balanced text gets the level that it would get without it. |
| BidiExplicit.RunStartIs | src/bidi.c:409-423 | The direction at the start of a run is that of the higher of the two levels that meet there, and text before it counts as of that direction. |
| BidiBrackets.Brackets.Resolve | src/bidi.c:2657-2760 | With room on the bracket stack, scanning from each opening bracket not dealt with yet records, for the whole isolating run sequence, exactly the pairs of BD16. In types: at an even level a pair has L if there is left-to-right text between its brackets, else R if there is right-to-left text or a number, else nothing; at an odd level R comes first; spaces, separators and other neutrals are not looked at. |
| BidiBrackets.Brackets.FindPairs | src/bidi.c:2404-2578 | One scan from an opening bracket runs to where no opener waits, or to the end; it records the pairs in between, and says whether the bracket it began with has one. |
| BidiBrackets.PairsNested | src/bidi.c:2437-2528 | Pairs lie inside or beside each other, waiting openers are in order, and no pair encloses a waiting opener or crosses one. |
| BidiBrackets.PairsDoNotCross | src/bidi.c:2437-2528 | Of two pairs, the second begins after the first ends or ends before it does. |
| BidiBrackets.PairsMatch | src/bidi.c:2437-2500 | Each pair is an opening bracket and a closing one, both still other neutrals, and one is the mirror of the other up to canonical equivalence. |
| BidiBrackets.PairIs | src/bidi.c:2437-2500 | A pair joins an opening and a closing bracket that are each other's mirror, U+2329 and U+232A counting as U+3008 and U+3009; when the closing one is met, the opening one is in no pair's inside. |
| BidiBrackets.PairExists | src/bidi.c:2462-2500 | A closing bracket that some opening one before it matches, which is then neither paired nor inside a pair, is paired with the last such one. |
| BidiBrackets.EnclosedIs | src/bidi.c:2502-2528 | What the scan finds between two brackets, in types. |
| BidiBrackets.EnclosedRuled | src/bidi.c:2502-2528 | What rules N0 b to d find there, in types: spaces and separators that an override made strong count, boundary neutrals do not. |
| BidiBrackets.EnclosedByRules | src/bidi.c:2502-2528 | The enclosed type differs from that of rules N0 b to d if and only if nothing that both see decides it and the overridden spaces passed over and the boundary neutrals counted do not make up for each other. |
| BidiBrackets.SpaceExample | src/bidi.c:2502-2528 | Brackets around one space that an override made right-to-left, at level 1: the scan finds nothing inside, the rules find the embedding direction. |
| BidiBrackets.BoundaryExample | src/bidi.c:2502-2528 | Brackets around one boundary neutral of type L at level 0: the scan finds left-to-right text, the rules nothing. |
| MarkGraph.FinalJoin | src/alloc.c:5856-6097 | Marking from some values and then from others marks what marking from all of them does. |
| MarkGraph.FinalVisit | src/alloc.c:5873-6092 | Marking an unmarked object and stacking what it refers to leaves the final set of marks unchanged. |
| MarkGraph.FinalLeast | src/alloc.c:5856-6097 | What must be marked is the least set that holds the marks so far and the values, and what its new members refer to. |
| MarkGraph.NilCdr | src/alloc.c:6051-6072 | Not following a nil cdr loses nothing when nil itself is marked. |
| MarkGraph.FinalIsReachable | src/alloc.c:5856-6097 | From no marks, and with nil among the roots, exactly the plainly reachable objects with mark bits are marked, nil cdrs followed and weak tables not. |
| MarkGraph.FinalHolds | src/alloc.c:5856-6097 | What the values refer to is marked. |
| MarkGraph.FinalFollows | src/alloc.c:5872-6092 | Field by field for every kind of object: from a newly marked one, marking goes on to the contents of vectors, frames, windows (with their glyph strings), char-tables and buffers, to both halves of a cons, to a symbol's function, property list, value, name and successor, to the property lists of text, overlays and undo lists, and to a base buffer. |
| MarkGraph.FinalOnly | src/alloc.c:5872-6092 | And to nothing else: what is marked is in every set that is closed under those same fields. |
| MarkGraph.WeakContents | src/alloc.c:5900-5990 | What is in a weak table makes no difference to what is marked. |
| MarkStack.FlatIsPending | src/alloc.c:5737-5763 | A stack with ranges stands for the flat sequence of its values, with as many pops as it has values. |
| MarkStack.Marker.Pop | src/alloc.c:5749-5763 | Takes one value off what the stack stands for, whether the top entry is a value or a range, and leaves everything below the base. |
| MarkStack.Marker.PushValues | src/alloc.c:5782-5790 | A range entry adds exactly its values, and an empty range adds no entry. |
| MarkStack.Marker.ProcessMarkStack | src/alloc.c:5856-6097 | Ends with the stack cut back to the base, everything below it unchanged, and exactly those objects newly marked that are reachable through unmarked objects from the stacked values, by the fields that FinalFollows and FinalOnly name. |
| MarkStack.Marker.MarkObject | src/alloc.c:6099-6103 | A nested call marks what its value reaches and leaves the caller's stack as it was. |
| MarkStack.Marker.MarkObjects | src/alloc.c:6105-6109 | The same for several values. |
| MarkStack.Marker.MarkVectorlike | src/alloc.c:5575-5593 | Marks a pseudovector and what its slots reach. |
| MarkStack.Marker.MarkCharTable | src/alloc.c:5599-5619 | The recursion over sub-tables marks what the table reaches, although it does not go through the stack. |
| MarkStack.Marker.MarkBuffer | src/alloc.c:5643-5667 | Marks a buffer and what it reaches: text intervals, the undo list of a dead buffer, overlays, and its base buffer. |
| MarkStack.Marker.MarkFrame | src/alloc.c:5692-5711 | Marks a frame and what it reaches. |
| MarkStack.Marker.MarkWindow | src/alloc.c:5713-5725 | Marks a window and what it reaches, the strings of its glyph matrices included. |
| MarkStack.Marker.MarkSymbols | src/alloc.c:5993-6049 | Following a bucket's chain of symbols in a loop, up to the first marked one, loses nothing. |
| Collect.FullCollection | src/alloc.c:6167-6233 | Mark, then sweep: exactly the conses that the program can reach stay in use, with car and cdr unchanged, among them those of the roots and those held in a reached cons or vector; the free list is every other cell of the kept blocks; no mark bit is left; the head block stays; used and free add up to the cells of the kept blocks. |
| Collect.ConsAfter | src/alloc.c:2417-2447 | After a collection a new cons is never a reachable one, and every reachable one keeps its contents. |
| ConsSweep.ConsHeap.Sweep | src/alloc.c:6167-6233 | Exactly the marked cells are in use afterwards, with their contents; the kept blocks are those that the rule for releasing empty blocks keeps; the counts are exact. |
| ConsSweep.ConsHeap.SweepBlock | src/alloc.c:6175-6213 | The word-by-word sweep of a block, with its shortcut for words all marked, adds exactly the unmarked cells to the free list and clears all its words. |
| ConsSweep.ConsHeap.SweepWord | src/alloc.c:6180-6212 | One word: each unmarked cell is freed once, each marked one counted, the word cleared. |
| ConsSweep.SurvivorsHead | src/alloc.c:6215-6229 | The head block is never released. |
| ConsSweep.SurvivorsRule | src/alloc.c:6215-6229 | A block is released exactly when all its cells are free and the blocks kept before it have more free cells than one block holds. |
| ConsSweep.ConsHeap.Cons | src/alloc.c:2417-2447 | A new cons is the first cell of the free list if there is one, else the next unused cell of the head block, else the first cell of a new block; it was not in use, gets the contents, and nothing else changes. |
| ConsSweep.ConsHeap.FreeCons | src/alloc.c:2406-2413 | A freed cell goes to the head of the free list and is the only one no longer in use. |
| ConsSweep.ConsHeap.MarkCell | src/alloc.c:6051-6057 | Sets the one bit, in the right word, that belongs to the cell. |
| MemTree.MemTree.Find | src/alloc.c:3863-3877 | Returns the node of the region that contains the address, and the sentinel only if none does; the search through the rewritten sentinel ends after at most 2 log2(n+1) levels. |
| MemTree.MemTree.Insert | src/alloc.c:3884-3932 | Adds exactly the new region, with a new node, at its place in address order; the links, the black root, no red node with a red child, equal black heights and the bounds of the heap are kept. |
| MemTree.MemTree.Delete | src/alloc.c:4067-4110 | Removes exactly the region of the node, also when the successor's region is copied into the node and when the sentinel's parent is set on the way; the tree stays a red-black search tree. |
| MemTreeSteps.RemovedRegions | src/alloc.c:4067-4110 | Copying the successor's region removes just the one region from the sequence. |
| MemTree.MemTree.InsertFixup | src/alloc.c:3938-3996 | From a tree whose only fault is a red node under a red one, the loop arrives at a red-black tree with the same regions in the same order. |
| MemTree.MemTree.DeleteFixup | src/alloc.c:4116-4178 | From a tree whose only fault is one black missing on the paths through a node, which may be the sentinel, the loop arrives at a red-black tree with the same regions in the same order. |
| MemTree.MemTree.RotateLeft | src/alloc.c:4005-4032 | Changes exactly the links that the rotation calls for, the root included. |
| MemTree.MemTree.RotateRight | src/alloc.c:4041-4062 | The mirror image. |
| MemTreeShape.RotateZip | src/alloc.c:4005-4062 | Those link changes turn the tree that memory holds into the rotated tree: parent and child links agree again, and the sentinel is untouched. |
| MemTreeBalance.HeightBound | src/alloc.c:446-450 | A red-black tree with n regions has height at most 2 log2(n+1). |
| StringCompact.StringHeap.Compact | src/alloc.c:1840-1925 | Every live string keeps its bytes and the records their order; rows of records are packed anew with no dead one among them; strings and records point to each other; the blocks left are the oldest ones, as the allocator expects them. |
| StringCompact.StringHeap.CopyRecord | src/alloc.c:1896-1902 | Moving one record down, also onto part of itself, writes over no record still to be read. |
| StringCompact.StringHeap.NextBlock | src/alloc.c:1885-1894 | When a record does not fit in the block being filled there is a next block, not later than the one being read. |
| StringCompact.StringHeap.Place | src/alloc.c:1896-1905 | The moved record's string points to its new place, and every other string to where it did. |
| StringCompact.StringHeap.AllocateData | src/alloc.c:1629-1714 | A string's bytes get a new record in the current block or in a new one, terminated, and cleared if asked for; no other string changes. |
| StringCompact.StringHeap.FreeString | src/alloc.c:1738-1790 | A dead string's record stays in its row with its size, without owner, so that the row can still be walked; no other record changes. |
| StringData.SizeBounds | src/alloc.c:1413-1419 | The size of a record is the least multiple of the alignment with room for the bytes, their null, and a record at all. |
| StringData.PackedSame | src/alloc.c:1840-1925 | Packing records into blocks in order neither loses, repeats nor reorders one. |
| StringData.PackedTight | src/alloc.c:1884-1894 | Every block is filled before the next: the first record of a block would not have fitted in the one before. |
| StringData.DeadTiled | src/alloc.c:1756-1772 | Storing the size where the bytes began keeps a block of records walkable. |
| VectorHeap.VectorHeap.constructor | src/alloc.c:2734-2753 | The first block holds the vector of no slots, and the rest of it is on a free list. |
| VectorHeap.VectorHeap.Allocate | src/alloc.c:2757-2815 | Exactly one vector of the size asked for is new, at an address where none was: the first chunk of the list of its size, else the first one of the first list for larger chunks from the hint on, else the start of a new block; every block stays tiled by vectors and free chunks, and each free chunk is once on the list of its size. |
| VectorHeap.VectorHeap.UseExact | src/alloc.c:2765-2773 | The same for a free chunk of the very size. |
| VectorHeap.VectorHeap.CutLarger | src/alloc.c:2775-2799 | The same for a larger one, whose remainder is large enough for the lists and goes to the right one. |
| VectorHeap.VectorHeap.FromNewBlock | src/alloc.c:2801-2815 | The same at the beginning of a new block. |
| VectorHeap.VectorHeap.SetupOnFreeList | src/alloc.c:2692-2704 | The chunk becomes the head of the list for its size, and no other list or header changes. |
| VectorHeap.VectorHeap.Sweep | src/alloc.c:3016-3079 | Exactly the marked vectors live on, with their sizes; no two free chunks are neighbours; every block kept has a live vector; the live count is the sum of the sizes of the marked vectors, the free count that of the chunks on the lists, and together they are the units of the kept blocks; no list leads into a released block; no mark is left. |
| VectorHeap.VectorHeap.FreeChunk | src/alloc.c:3041-3067 | A run of dead vectors and free chunks becomes one free chunk on the right list. |
| VectorHeap.VectorHeap.Holding | src/alloc.c:4397-4416 | The scan of a block returns the live vector around an offset, and none only if no live vector contains it. |
| VectorHeap.VectorHeap.MarkVector | src/alloc.c:5575-5580 | Marks are only ever on live vectors. |
| VectorTiles.StartsSplit | src/alloc.c:2789-2798 | Splitting a tile changes only what starts at its offset and at the cut, and not the total. |
| VectorTiles.MergedFacts | src/alloc.c:3044-3066 | Merging free neighbours keeps the total, leaves no two free tiles side by side, and ends as the row ended. |
| VectorTiles.MergedLive | src/alloc.c:3034-3067 | It leaves each live tile where it was, with its size. |
| VectorTiles.MergedRun | src/alloc.c:3044-3064 | A maximal run of free tiles becomes one tile of their total size. |
| AlignedBlocks.AlignHeap.AbaseIs | src/alloc.c:937-970 | From any block of a group, through the counter or through a pointer, one gets the group; its counter is twice its blocks in use plus the alignment bit. |
| AlignedBlocks.AlignHeap.Malloc | src/alloc.c:1003-1091 | Returns an aligned block that was not in use, from a new group exactly when the free list was empty; no other block's use changes. |
| AlignedBlocks.AlignHeap.NewGroup | src/alloc.c:1022-1074 | Puts the blocks of a new group on the free list from the last to the first, sixteen of them, or fifteen when its base is not aligned, with a counter that says none is in use. |
| AlignedBlocks.AlignHeap.Free | src/alloc.c:1093-1133 | The block is no longer in use; its group is released exactly when it was the last one in use there, and then nothing on the free list points into the group. |
| AlignedBlocks.AlignHeap.Unlink | src/alloc.c:1112-1125 | One pass over the free list takes out exactly the blocks in a range and keeps the order of the others. |
| AlignedBlocks.AlignHeap.Release | src/alloc.c:1109-1131 | As many blocks leave the free list as the group has, as the program asserts. |
| AlignedBlocks.OutsideHas | src/alloc.c:1115-1125 | What is left of a list is what was on it and out of the range. |
| AlignedBlocks.OutsideCount | src/alloc.c:1115-1127 | The blocks left and the blocks in the range are as many as there were. |
| AlignedBlocks.Packed | src/alloc.c:1104-1111 | With the counter below two no block is in use, and only then; its lowest bit then tells whether the base is aligned. |
| Finalizers.FinalizerLists.RunFinalizers | src/alloc.c:3634-3647 | Whatever the callbacks make or collect, when it returns the doomed list is empty and the log of calls, which only a call extends, has every doomed finalizer once, in the order in which they were doomed, with the function that it was made with; each call used up an event of the callbacks while there were any, and every event used up was acted on. |
| Finalizers.FinalizerLists.CollectGarbage | src/alloc.c:5378-5410 | A collection dooms exactly the unreachable finalizers after those already doomed, and returns with the functions of all of them called once, in order; the two rings stay well formed and without common members. |
| Finalizers.FinalizerLists.QueueDoomed | src/alloc.c:3603-3616 | The walk over a ring from which it unlinks moves exactly the unreachable members, in order, to the end of the other ring. |
| Finalizers.FinalizerLists.MakeFinalizer | src/alloc.c:3657-3664 | A new finalizer is the last of the live ones. |
| Finalizers.FinalizerLists.TakeDoomed | src/alloc.c:3638-3643 | The first doomed finalizer leaves its ring, and its function, the one it was made with, is taken out of it before it is called. |
| Finalizers.FinalizerLists.CallFunction | src/alloc.c:3623-3632 | The call is logged with its finalizer and function, and what the function does comes after it. |
| Finalizers.FinalizerLists.Insert | src/alloc.c:3572-3580 | Links the finalizer in before an element, and changes no other link. |
| Finalizers.FinalizerLists.Unchain | src/alloc.c:3582-3589 | Joins the neighbours and clears the finalizer's own links; nothing if it is in no list. |
| Finalizers.Parted | src/alloc.c:3598-3616 | Reachable and unreachable members part the list: each goes to one side, and none is lost. |
| Finalizers.PartedInOrder | src/alloc.c:3598-3616 | Each side keeps the order of the list. |
| BignumConvert.Mpz.SetIntmaxSlow | src/bignum.c:155-172 | For every width of limbs, any machine integer, the most negative one included, is stored as its value in limbs without leading zeros. |
| BignumConvert.Mpz.SetUintmaxSlow | src/bignum.c:173-184 | The same for unsigned ones. |
| BignumConvert.Mpz.SetIntmax | src/bignum.h:71-80 | The same through the fast path or the slow one. |
| BignumConvert.Mpz.SetUintmax | src/bignum.h:81-87 | The same for unsigned ones. |
| BignumConvert.Mpz.ToIntmax | src/bignum.c:188-220 | Reading into w bits succeeds if and only if the number is from -2^(w-1) to 2^(w-1)-1, and gives the number, on the fast path and on the slow one. |
| BignumConvert.Mpz.ToUintmax | src/bignum.c:221-248 | The same for unsigned ones; negative numbers do not fit. |
| BignumConvert.Mpz.MakeInteger | src/bignum.c:123-152 | The Lisp integer has the number's value, is a fixnum if and only if the value is in fixnum range, and is refused if and only if it is wider than both the limit set and twice the widest machine integer. |
| BignumConvert.Mpz.MakeBignumBits | src/bignum.c:79-93 | A bignum of the value, or an overflow error, exactly by the number of bits. |
| BignumConvert.Mpz.BignumToIntmax | src/bignum.c:252-255 | Zero stands for a number that does not fit, without ambiguity since no bignum is zero. |
| BignumConvert.Mpz.MakeBigint | src/bignum.c:102-106 | A machine integer outside fixnum range becomes the bignum of its value, never an overflow error. |
| BignumConvert.Mpz.MakeNegBiguint | src/bignum.c:114-119 | So does the negation of an unsigned one. |
| BignumConvert.Canonical | src/bignum.c:155-184 | Equal numbers have equal limbs, whichever path stored them. |
| BignumLimbs.LimbsUnique | src/bignum.c:155-184 | A value has one representation without leading zero limbs. |
| BignumLimbs.BitsFit | src/bignum.c:79-93 | The bit length is at most k if and only if the magnitude is below the k-th power of two. |
| RandomLimbs.EquallyMany | src/bignum.c:466-480 | For each remainder below the limit exactly floor(base / limit) raw limbs are accepted. |
| RandomLimbs.AcceptedExactly | src/bignum.c:485-525 | A stream of raw limbs ends in a number if and only if the number is below the limit and the last draws are that number's, before which every attempt was given up. |
| RandomLimbs.RunSound | src/bignum.c:485-525 | Every accepted number is below the limit; a number drawn in part is below, or equal so far. |
| RandomLimbs.Exchanged | src/bignum.c:485-525 | Exchanging one number's last draws for another's turns a stream that gives the one into a stream that gives the other, and back. |
| RandomLimbs.Uniform | src/bignum.c:485-525 | Over streams of any length, all numbers below the limit are produced equally often. |
| BignumRandom.Draws.LimbBelow | src/bignum.c:466-480 | The loop uses up the rejected limbs and the first accepted one, and gives its remainder. |
| BignumRandom.GetRandomBignum | src/bignum.c:485-525 | The nested loops draw exactly as the automaton does; the result is the number that the stream determines, below the limit, as a fixnum if and only if it is in fixnum range. |
| BufferNames.DecimalOnce | src/buffer.c:1112-1121 | Different counters have different numerals. |
| BufferNames.DecimalReads | src/buffer.c:1112-1121 | A numeral is of digits without a needless zero, and read in base ten it is the counter. |
| BufferNames.NumberedIs | src/buffer.c:1112-1121 | A numbered name is the base name and the counter in angle brackets. |
| BufferNames.NotAllUsed | src/buffer.c:1112-1121 | Of the numbered names, no more can be in use than there are buffers. |
| BufferNames.Generate | src/buffer.c:1093-1121 | Ends, with the name itself if it may be given, else, for a hidden name, the randomly numbered one if that is free, and else the first numbered name that is free or the one to be ignored. |
| BufferNames.FirstNumbered | src/buffer.c:1112-1121 | The loop over numbers ends at the first name that may be given. |
| BufferRegistry.Registry.GetBufferCreate | src/buffer.c:448-558 | The buffer of that name if there is one; an error and no change for an empty name; otherwise a new buffer with that name and a text of its own at the end of the list. |
| BufferRegistry.Registry.MakeIndirectBuffer | src/buffer.c:687-760 | A new buffer that shares the text of the root of the one given, never of an indirect one; which error comes when, with no change. |
| BufferRegistry.Registry.RenameBuffer | src/buffer.c:1477-1511 | The buffer gets the name asked for, or the generated one if a unique one was asked for; which error comes when, with no change; no other name changes. |
| BufferRegistry.Registry.KillBuffer | src/buffer.c:1680-1917 | Killed only together with every buffer that shares its text; nothing but these is killed, and none that is vetoed, at once or late; refused without change if dead or vetoed at once; fails exactly if a live sharer is vetoed, and names one; otherwise all sharers are gone, and it is killed, or refused if vetoed late. |
| BufferRegistry.Registry.KillSharers | src/buffer.c:1768-1785 | The loop over the list kills every buffer that shares the text, or stops at one that is vetoed. |
| BufferRegistry.Registry.Commit | src/buffer.c:1847-1917 | The name and the list entry go, and a base's count goes down by one. |

After every operation of `BufferRegistry.Registry`, `Valid` says that live buffers have distinct names that agree
with the list, that no base is itself indirect, that the base of a live indirect buffer is live, and that each
base counts the live buffers that share its text. In the same way `Valid` of the other classes carries what every
operation keeps.

## Findings

Where the program departs from the rules it implements, the program is modelled as it is, and the exact condition
is proved.

- **A stale override for isolate initiators** (`src/bidi.c:1834-1876`). `bidi_resolve_explicit` reads the override in
  force before it carries out what the previous character left pending, and applies that override to an RLI or LRI.
  By X5a and X5b the override after the pending push or pop is the one that counts. `Explicit.StaleOverride` gives
  the exact condition: the previous character is a PDF that ends an embedding with another override than the one
  below, or an isolate initiator that enters a valid isolate where an override is in force. `StaleExample` is RLO PDF
  RLI. The level of the initiator is right in all cases (`Explicit.Levels`); only its type is concerned.
- **What the bracket scan sees** (`src/bidi.c:2502-2528`). The scan passes over spaces and separators even when an
  override gave them a strong type, and counts boundary neutrals, which are not there by rule X9.
  `EnclosedByRules` says exactly when the enclosed type differs from rules N0 b to d. `SpaceExample` and
  `BoundaryExample` are inputs of the scan: they start from characters with the types that they have after weak
  resolution, which is not part of this model, so no lemma here derives those types from the text.
- **Three bits for a saved type** (`src/bidi.c:443-446`, `src/dispextern.h:1686-1688`). An isolate's entry keeps three
  types in fields of three bits. `RestoredExactly` says that they come back if and only if their codes are below 8.
  The program assigns `UNKNOWN_BT`, `STRONG_L`, `STRONG_R` or `STRONG_AL` to `last_strong` (code 7 at most),
  `STRONG_L`, `STRONG_R`, `WEAK_EN` or `WEAK_AN` to `prev_for_neutral`, and `UNKNOWN_BT`, `STRONG_L` or `STRONG_R`
  to `next_for_neutral` (`src/bidi.c:417-422`, `src/bidi.c:1752-1763`, `src/bidi.c:2622`, `src/bidi.c:2959`);
  `UsualRestored` and `ReadIsolate` say that these come back exactly. That no other type is ever assigned is read
  off the program and not proved, since weak and neutral resolution are not modelled.

## Left out

- BidiExplicit.Explicit.Levels: the direction of the text inside an FSI is an input, since the look-ahead of `find_first_strong_char` is capped and stops at any PDI, so that rule X5c does not hold of it.
- BidiExplicit.Explicit.ReadIsolate: weak and neutral resolution (W1 to W7, N1, N2) are not modelled; what they remember between characters is any context.
- BidiReorder.DeliverLine: the cache is large enough for the line, so that growing it, its size limit and the fallback when it is full do not occur; every state covers one character; how far ahead the resolution of a character caches is given; and each line begins with an empty cache, as `bidi_line_init` leaves it.
- BidiBrackets.Brackets.Resolve: the bracket stack does not overflow; the single-level shortcut at `src/bidi.c:2594-2626` and the shortcuts for long runs of neutrals are left out; the sequence is given with its brackets and types.
- Paragraph direction, display strings and redisplay ticks in `src/bidi.c`.
- Collect.FullCollection: the roots are given; marks of objects are kept in a set while marking, and the bits of conses are set from it before the sweep; a graph of objects stands for the contents of other types.
- MarkStack.Marker.ProcessMarkStack: mark bits of text intervals are left out (the intervals of a string count as marked when the string is, and those of a buffer's text are walked for each buffer that shares it), as are swapping in global bindings, compiled subroutines, growing the mark stack, and finding roots on the stack or in a dump.
- ConsSweep.ConsHeap.Cons: the list of blocks is a sequence, and the cells of a new block are dead until they are handed out.
- MemTree.MemTree.Insert: the mirror images of the repair cases are written once, with a side as parameter.
- MemTree.MemTree.Delete: when the successor is cut out, the node given back to the system is the successor's, which is in no region afterwards; that it may not be used again is not stated.
- StringCompact.StringHeap.Compact: large strings, string headers and their free list are left out, and the list of blocks is a sequence from the oldest to the current one.
- StringCompact.StringHeap.FreeString: the sweep over string headers is left out; this is what it does to one dead string.
- VectorHeap.VectorHeap.Allocate: sizes count the unit of `roundup_size`; large vectors, the clean-up of pseudovectors, the branch for a new block whose rest is too small (it cannot happen with the sizes of the program) and the offset test of `live_vector_pointer` are left out, and nothing is claimed about which fitting chunk is chosen.
- AlignedBlocks.AlignHeap.Malloc: memory from the system is given as a base that overlaps no group; failure, and the calls of `mem_insert` and `mem_delete`, are left out.
- Finalizers.FinalizerLists.RunFinalizers: callbacks are a script of what they make and collect; which finalizers are reachable is given with each collection; errors in a callback, marking from doomed finalizers and weak tables are left out.
- BignumConvert.Mpz.SetIntmax: GMP's own functions do what GMP documents.
- BignumRandom.GetRandomBignum: how a raw limb is put together from random words is left out; the stream of raw limbs is finite, and a run that it does not decide ends with no result.
- Conversions between bignums and floating-point numbers or strings in `src/bignum.c`.
- BufferRegistry.Registry.KillBuffer: hooks, queries and windows are two sets of buffers, refused at once or after the sharing buffers are gone; a hook that itself changes the registry, the current buffer, markers, overlays and undo lists are left out; the loop over the sharing buffers goes through the list as it was.
- BufferRegistry.Registry.RenameBuffer: hooks and auto-save files are left out.
