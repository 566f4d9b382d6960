# Verification of the bundled protobuf runtime

A Dafny model of the hard parts of the protobuf runtime that this repository bundles under
`Libraries/Include/google/protobuf`, with proofs of what those parts promise. All paths below are
in that directory. `dafny verify dfyconfig.toml` checks the project.

## What is modelled

**The arena allocator.** `Bits.dfy` and `Sizes.dfy` have the size arithmetic and its masks,
`ArenaLayout.dfy` the invariants of the memory of one `SerialArena` and what each change does to
them, `SerialArena.dfy` the class
itself over byte addresses: the bump pointer, the cleanup nodes that grow down towards it, block
growth, and the freelist whose directory and links live in memory that was given back. The words
of that memory are modelled one by one. `ThreadSafeArena.dfy` is construction, allocation, Reset
and destruction over the list of SerialArenas. `ThreadProtocol.dfy` is the concurrent part as a system
of interleaved steps: thread caches, hints, list walks, pushes by compare-and-swap, exclusive
resets, and lifecycle ids reserved in batches; it is safe in every interleaving, and a thread left
alone gets its SerialArena. `ArenaString.dfy` is the ownership of strings
behind tagged pointers.

**The descriptor indexes.** `Names.dfy`, `SymbolCompare.dfy` and `SymbolSearch.dfy` have the order
of names, the comparator that does not join package and symbol, and the predecessor search with
its neighbour check; the informal proof in `descriptor_database.h` is carried out there.
`IndexSpec.dfy` says what an index is for, `SimpleIndex.dfy` and `EncodedIndex.dfy` are the two
implementations (the second on `SortedSeq.dfy` and `FlatTable.dfy`), and `IndexRefinement.dfy`
runs both side by side.

**The descriptor pool.** `Tables.dfy` has the tables with nested checkpoints, `ImportSpec.dfy` and
`ImportLoader.dfy` the loading of files with their imports, `ScopeLookup.dfy` name resolution and
public imports, `NumberLookup.dfy` the lookup by number.

**The flat allocator.** `FieldNames.dfy` and `FlatAllocator.dfy` have the two walks over a file,
one that plans its memory and one that uses it.

## What the proofs found

Where the code does less than its comments or its callers expect, the input is given and the exact
condition is proved.

- `CleanupList` passes over the only cleanup of a later block when the size of that block is not a
  multiple of 8 (`ArenaLayout.OddBlockSizeLosesACleanup`). All cleanups run if and only if no block
  is of that kind (`ArenaLayout.ExecutedIsReverse`); a policy, a first block and requests in whole
  words rule it out over any run (`ArenaLayout.WholeRunSkipsNothing`).
- Over-aligned allocation adds `align - 8` to a size that is not rounded up, which only debug builds
  check. 13 bytes at alignment 16 move the pointer by 21, and the next over-aligned object runs over
  its memory (`Sizes.OddOverAlignedRequest`). The pointer stays at a word if and only if the request
  is in whole words (`SerialArenas.SerialArena.AllocateInternal`, `Sizes.RequestInWords`), and an
  object fits if and only if its memory starts at the alignment or at least 8 past it
  (`Sizes.FitsExactly`).
- `AlignTo` masks with `~align + 1`. It aligns every address if and only if the alignment is a power
  of two (`Sizes.AlignsExactlyPowers`); at 24, which nothing rejects, 8 stays 8
  (`Sizes.TwentyFourIsNoAlignment`).
- `Release` is documented to clear a field back to the default state. A default field is left alone,
  so it reads "" afterwards if and only if it held a string or the constant it points at is empty
  (`ArenaStrings.StringFields.Release`, `ArenaStrings.ReleaseLeavesTheDefault`).
- `AllocationPolicy::IsDefault` compares the start size with the default maximum. A policy with the
  default sizes is not dropped, the one with 8192 for both sizes is, and a dropped policy never has
  the sizes that are used (`ThreadSafeArenas.DroppedIsNotDefault`). Over a run a block has the size
  asked for if and only if the request alone fills 8192 bytes or the block before had at least 4096
  (`ThreadSafeArenas.DroppedOverARun`); with small requests the first five blocks differ
  (`ThreadSafeArenas.FiveBlocksDiffer`).
- `AddSymbol` does not look at the first key when all keys come after the new name: with only
  "foo.bar" stored, "foo" is accepted (`SymbolSearch.FooIsAcceptedOverFooBar`). Acceptance is
  characterised by `SymbolSearch.TwoNeighboursSuffice`, and for the two parts of the encoded index
  together by `EncodedIndex.BothPartsDecide`.
- The comparator of the encoded index calls the name of a package and the empty symbol of that
  package equivalent (`SymbolCompare.EmptySymbolIsMisplaced`); it is the order of full names on all
  other pairs (`SymbolCompare.SymbolLessIsLess`). `EncodedIndex.DescriptorIndex.AddFile` asks for
  non-empty names.
- A file that either index rejects can leave its name and its first declarations behind, and in the
  encoded index it takes over the name of the older file (`EncodedIndex.RejectedFileTakesOver`).
  A rejection changes nothing if and only if the name was taken, in the encoded index in the set, or
  there the package name is invalid; what is left otherwise is stated exactly
  (`SimpleIndex.DescriptorIndex.AddFile`, `EncodedIndex.DescriptorIndex.AddFile`,
  `IndexSpec.StopsAtFirstConflict`).
- `LookupSymbol` is documented to try the whole name in every scope; the code commits to the
  innermost scope that has the first part, and the answers differ if and only if that scope hides
  an outer one (`ScopeLookup.DocumentedUnlessHidden`, `ScopeLookup.BarOfFooHidesBar`).
- The loop that computes `sequential_value_limit_` counts to the unsigned 16-bit maximum and stores
  to a signed field. The limit is negative only for dense prefixes of more than 2^15 values
  (`NumberLookup.SequentialValueLimit`), which turns the fast path off and changes no answer
  (`NumberLookup.EnumTables.FindEnumValueByNumber`).
- The table of fields by number is said not to include extensions, but extensions are added to it.
  A message misses its own field if and only if the number is not in the dense prefix and an
  extension with it was added before that field (`NumberLookup.OwnFieldUnlessHidden`,
  `NumberLookup.ExtensionHidesAField`); in a file without conflicts that does not happen
  (`NumberLookup.NoClashHidesNothing`).

## Model

| member | source | states |
|---|---|---|
| Sizes.AlignUpTo8 | Libraries/Include/google/protobuf/arena_impl.h:65-69 | rounds up to a word: the least multiple of 8 not below the size |
| Sizes.AlignToMovesUp | Libraries/Include/google/protobuf/arena.h:93-97 | with the mask of the source, the address does not go down, moves by less than the alignment, and stays a word at any alignment in whole words |
| Sizes.AlignToRounds | Libraries/Include/google/protobuf/arena.h:93-97 | for a power of two, the mask rounds up to the least multiple of the alignment not below the address |
| Sizes.AlignsExactlyPowers | Libraries/Include/google/protobuf/arena.h:93-97 | the mask makes every address a multiple of the alignment if and only if the alignment is a power of two |
| Sizes.TwentyFourIsNoAlignment | Libraries/Include/google/protobuf/arena.h:93-97 | an input where it does not: at alignment 24 the address 8 stays 8 |
| Sizes.EightByMask | Libraries/Include/google/protobuf/arena_impl.h:65-69 | the masks with -8 round up and down to a multiple of 8 |
| Sizes.RequestClass | Libraries/Include/google/protobuf/arena_impl.h:229-238 | every block of the class a request looks in has at least the requested size |
| Sizes.ReturnClass | Libraries/Include/google/protobuf/arena_impl.h:282-295 | an array is filed under the class whose nominal size it has, and not the next |
| Sizes.ClassesMeetAtPowersOfTwo | Libraries/Include/google/protobuf/arena_impl.h:229-295 | a returned array is found again by a request of its own size exactly when that size is a power of two |
| Sizes.RequestsLeastClass | Libraries/Include/google/protobuf/arena_impl.h:229-238 | the class a request looks in is the least one whose nominal size is enough |
| Sizes.BlockSize | Libraries/Include/google/protobuf/arena.cc:56-72 | a new block always has room for its header and the request |
| Sizes.BlockSizes | Libraries/Include/google/protobuf/arena.cc:56-72 | the start size, or double the last block up to the maximum, or 24 bytes more than the request where that is larger |
| Sizes.BlockSizeKeepsWords | Libraries/Include/google/protobuf/arena.cc:56-72 | with start and maximum sizes in whole words, geometric growth keeps every block size in whole words |
| Sizes.RunKeepsWords | Libraries/Include/google/protobuf/arena.cc:56-72 | so no run that starts with a whole block and asks for whole words ever has a block that is not |
| Sizes.RequestInWords | Libraries/Include/google/protobuf/arena.h:319-330 | up to alignment 8 the request is the least number of words that holds the object, above it the size and align - 8; it is in whole words if and only if the object is not over-aligned or its size is a multiple of 8 |
| Sizes.FitsExactly | Libraries/Include/google/protobuf/arena.h:319-330 | at a power of two, an over-aligned object fits in what is allocated for it if and only if that memory starts at the alignment or at least 8 past it |
| Sizes.PlacedFits | Libraries/Include/google/protobuf/arena.h:319-330 | from a word address it fits at any alignment in whole words, power of two or not |
| Sizes.WordLeavesRoom | Libraries/Include/google/protobuf/arena.h:319-330 | which holds for all memory that starts at a word |
| Sizes.OddOverAlignedRequest | Libraries/Include/google/protobuf/arena.h:319-330 | an input where it does not: 13 bytes at alignment 16 take 21, and 16 more at alignment 16 run over |
| ArenaLayout.BumpIsDisjoint | Libraries/Include/google/protobuf/arena_impl.h:255-279 | moving the bump pointer claims memory that overlaps nothing claimed before, in no block twice |
| ArenaLayout.RegionsSurviveNewBlock | Libraries/Include/google/protobuf/arena.cc:152-180 | a new block leaves everything in the older blocks where it is |
| ArenaLayout.PopKeepsFreelist | Libraries/Include/google/protobuf/arena_impl.h:229-246 | taking a cached block gives one that is large enough and in no list any more, and the lists in memory stay chains of exactly the cached blocks |
| ArenaLayout.CandidateIsCached | Libraries/Include/google/protobuf/arena_impl.h:229-246 | a request finds a cached block if and only if it is for at least 16 bytes and some array of the least class that is large enough was given back |
| ArenaLayout.PushKeepsFreelist | Libraries/Include/google/protobuf/arena_impl.h:316-323 | filing an array links it in through its own first word and keeps every list |
| ArenaLayout.PromoteKeepsFreelist | Libraries/Include/google/protobuf/arena_impl.h:295-314 | an array that becomes the directory holds every entry of the old one, and each cached block stays under its index |
| ArenaLayout.DirectoryCovers | Libraries/Include/google/protobuf/arena_impl.h:295-311 | a new directory is long enough for its own size class, which is below 64 |
| ArenaLayout.NodeApartFromRegion | Libraries/Include/google/protobuf/arena_impl.h:335-355 | cleanup nodes, growing down, never overlap memory handed out, growing up |
| ArenaLayout.NodesFrame | Libraries/Include/google/protobuf/arena_impl.h:229-323 | writing freelist words and directories changes no cleanup node |
| ArenaLayout.NodeStoreKeepsFreelist | Libraries/Include/google/protobuf/arena_impl.h:335-356 | filling in a cleanup node changes no freelist word |
| ArenaLayout.WrittenInside | Libraries/Include/google/protobuf/arena_impl.h:229-323 | writing inside one region changes no word the program keeps in another |
| ArenaLayout.NodeWritten | Libraries/Include/google/protobuf/arena_impl.h:344-356 | filling a node changes no word the program keeps |
| ArenaLayout.PushWrites | Libraries/Include/google/protobuf/arena_impl.h:316-319 | filing an array changes no cleanup node and no word the program keeps elsewhere |
| ArenaLayout.NodeAdded | Libraries/Include/google/protobuf/arena_impl.h:335-363 | a filled node is the newest of its block and the others are unchanged |
| ArenaLayout.ExecutedIsReverse | Libraries/Include/google/protobuf/arena.cc:191-206 | walking the blocks runs all cleanups in reverse order if and only if no block is passed over |
| ArenaLayout.ExecutedIsPart | Libraries/Include/google/protobuf/arena.cc:191-206 | whatever the sizes of the blocks, what runs is part of what was registered |
| ArenaLayout.WholeRunSkipsNothing | Libraries/Include/google/protobuf/arena.cc:56-72 | over any run of block growth, with policy, first block and requests in whole words, all cleanups run in reverse order |
| ArenaLayout.OddBlockSizeLosesACleanup | Libraries/Include/google/protobuf/arena.cc:174-206 | an input where one is: a block size of 1001 bytes and one cleanup in that block |
| SerialArenas.SerialArena.constructor | Libraries/Include/google/protobuf/arena.cc:107-123 | a new arena in a given block, owned by one thread, with nothing allocated |
| SerialArenas.SerialArena.AllocateNewBlock | Libraries/Include/google/protobuf/arena.cc:152-180 | the old block is closed at the cleanup limit, its used bytes are counted, and the new one has room and is counted in the space |
| SerialArenas.SerialArena.AllocateFromExisting | Libraries/Include/google/protobuf/arena_impl.h:272-279 | claims the bytes at the pointer, in order; the next ones start at a word if and only if the size is whole words |
| SerialArenas.SerialArena.TryAllocateFromCachedBlock | Libraries/Include/google/protobuf/arena_impl.h:229-246 | takes the first block of the class if there is one, and it is large enough for the request; which requests find one, CandidateIsCached and AllocateAligned state over the memory itself |
| SerialArenas.SerialArena.AllocateAligned | Libraries/Include/google/protobuf/arena_impl.h:255-269 | memory of the requested size that was claimed by nobody: from the freelist if and only if the request is for an array of at least 16 bytes and some array of the least class that is large enough was given back, and then nothing is bumped; else from the head block or a new one, counted in the space; no block is lost and no word the program keeps is changed |
| SerialArenas.SerialArena.ReturnArrayMemory | Libraries/Include/google/protobuf/arena_impl.h:282-323 | files the array under its class, or makes it the directory with all older entries kept; no word the program keeps elsewhere is changed |
| SerialArenas.SerialArena.FileThenTake | Libraries/Include/google/protobuf/arena_impl.h:229-323 | the array just filed is the one the next request of its class gets, with nothing bumped and no block added |
| SerialArenas.SerialArena.CopyAndFill | Libraries/Include/google/protobuf/arena_impl.h:301-306 | copies the directory and clears the rest of the new one |
| SerialArenas.SerialArena.AllocateAlignedWithCleanup | Libraries/Include/google/protobuf/arena_impl.h:335-355 | memory at the pointer and a node at the limit that do not overlap each other or anything else |
| SerialArenas.SerialArena.AddCleanup | Libraries/Include/google/protobuf/arena_impl.h:358-363 | registers a cleanup after all earlier ones, and changes nothing the program keeps |
| SerialArenas.SerialArena.AllocateInternal | Libraries/Include/google/protobuf/arena.h:592-613 | an object of any size and alignment: aligned at every power of two; it fits whenever the pointer was at a word and the alignment is in whole words; what is claimed and counted is the request of the source, the destructor is registered with the final address, and the pointer stays at a word if and only if the request is in whole words |
| SerialArenas.SerialArena.SpaceUsed | Libraries/Include/google/protobuf/arena.cc:183-189 | the bytes claimed by allocations, without underflow |
| SerialArenas.SerialArena.RunBlock | Libraries/Include/google/protobuf/arena.cc:195-203 | runs the nodes of one block newest first, unless the block is the one that is passed over |
| SerialArenas.SerialArena.CleanupList | Libraries/Include/google/protobuf/arena.cc:191-206 | runs what the sizes of the blocks let it run, block by block, newest first; that is the registered cleanups in exactly reverse order if and only if no block is passed over |
| SerialArenas.SerialArena.ToRunIsAll | Libraries/Include/google/protobuf/arena.cc:191-206 | it never runs more than was registered, all of it if and only if no block is passed over, and no block in whole words is |
| SerialArenas.SerialArena.Free | Libraries/Include/google/protobuf/arena.cc:126-136 | gives every block back once, newest first, except the oldest, which goes to the caller |
| SerialArenas.SerialArena.RegionsAreSafe | Libraries/Include/google/protobuf/arena_impl.h:229-363 | any two pieces of memory in use are word-aligned, inside one block above its header, and apart from each other and from every cleanup node |
| ThreadSafeArenas.DroppedIsNotDefault | Libraries/Include/google/protobuf/arena_impl.h:105-119 | the policy dropped as the default is exactly the one without hooks whose start and maximum sizes are 8192, not the default one, and the sizes of a policy are used if and only if it is not dropped |
| ThreadSafeArenas.DroppedOverARun | Libraries/Include/google/protobuf/arena_impl.h:105-119 | over a whole run, a block has the size a dropped policy asked for if and only if the request alone fills 8192 bytes or the block before had at least 4096; it is never larger |
| ThreadSafeArenas.FiveBlocksDiffer | Libraries/Include/google/protobuf/arena_impl.h:105-119 | with requests of at most 232 bytes the first five blocks of a SerialArena have other sizes, and no later one |
| ThreadSafeArenas.ThreadSafeArena.SpaceAllocated | Libraries/Include/google/protobuf/arena.cc:460-467 | the sum of the sizes of all blocks of all SerialArenas |
| ThreadSafeArenas.ThreadSafeArena.SpaceUsed | Libraries/Include/google/protobuf/arena.cc:469-476 | the sum of what the SerialArenas have handed out, less the policy |
| ThreadSafeArenas.ThreadSafeArena.CleanupList | Libraries/Include/google/protobuf/arena.cc:478-481 | runs what each SerialArena runs, in list order; that is everything registered if and only if no SerialArena passes a block over |
| ThreadSafeArenas.ThreadSafeArena.Free | Libraries/Include/google/protobuf/arena.cc:363-371 | every block of every SerialArena is released, in list order, except the oldest block of the oldest one; no two of them share a byte or are the same block |
| ThreadSafeArenas.ThreadSafeArena.TearDown | Libraries/Include/google/protobuf/arena.cc:338-361 | all cleanups run, as CleanupList runs them, before any block is released, every block is released once and no block twice, and a block the user lent is last and is not released |
| ThreadSafeArenas.ThreadSafeArena.InitializeFrom | Libraries/Include/google/protobuf/arena.cc:229-239 | the block of the user is taken if and only if it has at least 104 bytes, else the arena starts empty; a new SerialArena has nothing allocated and no cleanups |
| ThreadSafeArenas.ThreadSafeArena.InitialBlocks | Libraries/Include/google/protobuf/arena.cc:250-274 | an arena with a policy starts on the block of the user if that has at least 144 bytes, else on one of its own, of the start size or of 168 bytes |
| ThreadSafeArenas.ThreadSafeArena.InitializeWithPolicy | Libraries/Include/google/protobuf/arena.cc:241-299 | a policy that counts as default is dropped, and then and only then its sizes are not those used; any other is stored in the first block, which is the one InitialBlocks gives; no cleanups are registered |
| ThreadSafeArenas.ThreadSafeArena.Push | Libraries/Include/google/protobuf/arena.cc:493-505 | a new SerialArena in front of the list, whose blocks are apart from all others |
| ThreadSafeArenas.ThreadSafeArena.ToRunOrAll | Libraries/Include/google/protobuf/arena.cc:478-481 | over all SerialArenas, everything registered runs if and only if none passes a block over, which none does while all blocks are whole words |
| ThreadSafeArenas.ThreadSafeArena.BlocksAreApart | Libraries/Include/google/protobuf/arena.cc:363-371 | no two blocks of an arena, of one SerialArena or of two, share a byte, and so all are different |
| ThreadSafeArenas.ThreadSafeArena.AllocateInternal | Libraries/Include/google/protobuf/arena_impl.h:515-519 | an allocation with or without a destructor on the SerialArena of one thread keeps the arena valid, adds at most the one new block and one cleanup, changes no other SerialArena, and has its room; the next has too if the request was in whole words |
| ThreadSafeArenas.ThreadSafeArena.AllocateForArray | Libraries/Include/google/protobuf/arena_impl.h:483-492 | so does one for an array, and a cached block adds none; it keeps words aligned unless a bump is not in whole words |
| ThreadSafeArenas.ThreadSafeArena.ReturnArrayMemory | Libraries/Include/google/protobuf/arena_impl.h:494-499 | so does giving an array back, which adds no block |
| ThreadSafeArenas.ThreadSafeArena.AddCleanup | Libraries/Include/google/protobuf/arena.cc:423-429 | so does registering a cleanup, which is pending from then on |
| ThreadSafeArenas.ThreadSafeArena.ThreadsShareNoByte | Libraries/Include/google/protobuf/arena_impl.h:483-519 | memory that two threads have in use at once shares no byte |
| ThreadSafeArenas.ThreadSafeArena.StartOver | Libraries/Include/google/protobuf/arena.cc:384-409 | the rest of a reset: an arena with the same flags and policy, with one empty SerialArena if it has a policy or a block of the user, and with none otherwise |
| ThreadSafeArenas.ThreadSafeArena.Reset | Libraries/Include/google/protobuf/arena.cc:373-409 | returns what SpaceAllocated was, runs everything, releases every block but one the user lent, and starts over on that with no cleanups registered |
| ThreadSafeArenas.ThreadSafeArena.ResetTwice | Libraries/Include/google/protobuf/arena.cc:373-409 | a second reset runs nothing |
| ThreadSafeArenas.RunsOnceOverALife | Libraries/Include/google/protobuf/arena.cc:373-481 | over any life of an arena, resets included, no cleanup runs more often than it was registered; and each has run once or is pending as long as no reset passed one over |
| ThreadProtocol.IdIsNew | Libraries/Include/google/protobuf/arena.cc:301-323 | an id taken from a batch, or from a new batch, was never issued, and what is left of each batch stays unissued |
| ThreadProtocol.InitializedKeeps | Libraries/Include/google/protobuf/arena.cc:301-336 | constructing an arena, with or without a first block, keeps the invariant |
| ThreadProtocol.DestroyKeeps | Libraries/Include/google/protobuf/arena.cc:338-361 | destroying an arena that no other thread is inside keeps the invariant, stale caches included |
| ThreadProtocol.ResetKeeps | Libraries/Include/google/protobuf/arena.cc:373-409 | so does resetting it, which takes a new id |
| ThreadProtocol.StartsOver | Libraries/Include/google/protobuf/arena.cc:301-409 | a new or reset arena has just the given SerialArena or none, has it cached and hinted, and has an id never issued; the message-owned bit is as asked for, and a reset keeps it |
| ThreadProtocol.OnlyThisArenaEnds | Libraries/Include/google/protobuf/arena.cc:338-409 | a reset or destroyed arena gives up all its SerialArenas, and no other arena loses any |
| ThreadProtocol.EnterKeeps | Libraries/Include/google/protobuf/arena_impl.h:557-592 | so do the two fast paths |
| ThreadProtocol.WalkOnKeeps | Libraries/Include/google/protobuf/arena.cc:485-491 | so does each step of the list walk |
| ThreadProtocol.AllocateKeeps | Libraries/Include/google/protobuf/arena.cc:493-499 | so does making a SerialArena when the walk ended without one |
| ThreadProtocol.CasKeeps | Libraries/Include/google/protobuf/arena.cc:500-505 | so does each attempt to push it, successful, failed or spuriously failed; PushSucceeds says what it leads to |
| ThreadProtocol.WriteCacheKeeps | Libraries/Include/google/protobuf/arena_impl.h:557-565 | so does writing the thread cache |
| ThreadProtocol.StoreHintKeeps | Libraries/Include/google/protobuf/arena_impl.h:557-565 | so does storing the hint |
| ThreadProtocol.StepKeeps | Libraries/Include/google/protobuf/arena.cc:301-508 | every step of every thread keeps the invariant |
| ThreadProtocol.FastPathAgreesWithWalk | Libraries/Include/google/protobuf/arena_impl.h:557-592 | what the thread cache or the hint returns is the SerialArena the list walk would find, and no fast path follows a freed pointer |
| ThreadProtocol.SlowPathAgreesWithWalk | Libraries/Include/google/protobuf/arena.cc:483-508 | the slow path ends with the only SerialArena of the thread in the arena |
| ThreadProtocol.FindFinds | Libraries/Include/google/protobuf/arena.cc:485-491 | the list walk finds a SerialArena of the thread exactly when the list has one |
| ThreadProtocol.NeverStuck | Libraries/Include/google/protobuf/arena.cc:483-508 | no pointer a thread follows inside the slow path dangles |
| ThreadProtocol.PushSucceeds | Libraries/Include/google/protobuf/arena.cc:500-505 | whatever race was lost, after at most two tries that do not fail spuriously the SerialArena is in front of the list there was, linked to it |
| ThreadProtocol.LeftAloneItFinishes | Libraries/Include/google/protobuf/arena.cc:483-508 | from anywhere inside the slow path, a thread left alone is through after at most 6 steps more than the list has SerialArenas, with its SerialArena cached and hinted and nothing lost |
| ThreadProtocol.StepKeepsHints | Libraries/Include/google/protobuf/arena_impl.h:557-565 | every step keeps it that a thread about to store the hint has its cache written |
| ThreadProtocol.RunKeepsInv | Libraries/Include/google/protobuf/arena.cc:301-508 | the invariant holds in every state of every interleaving |
| ThreadProtocol.EveryInterleavingAgrees | Libraries/Include/google/protobuf/arena.cc:483-508 | in every reachable state fast and slow path agree, and each thread has at most one SerialArena per arena |
| ThreadProtocol.EveryThreadFinishes | Libraries/Include/google/protobuf/arena.cc:483-508 | in every reachable state a thread that needs its SerialArena gets it: on a fast path at once, and else in finitely many steps of its own |
| ThreadProtocol.RunKeepsPushes | Libraries/Include/google/protobuf/arena.cc:500-505 | no push is lost: until reset or destruction a list only grows, at its front |
| ThreadProtocol.FirstUseFillsTheCache | Libraries/Include/google/protobuf/arena.cc:483-508 | such runs exist: a thread makes and pushes its SerialArena on first use, and hits its cache from then on |
| ThreadProtocol.RunIssuesDistinctIds | Libraries/Include/google/protobuf/arena.cc:301-323 | over a whole run no lifecycle id is handed out twice |
| ArenaStrings.TagRoundTrip | Libraries/Include/google/protobuf/arenastring.h:203-208 | tag and pointer of a tagged pointer come apart again |
| ArenaStrings.AccessorsReadTheTag | Libraries/Include/google/protobuf/arenastring.h:163-181 | each accessor, computed on the whole word, answers by the tag alone |
| ArenaStrings.TakeString | Libraries/Include/google/protobuf/arenastring.h:356-365 | a field that takes a string keeps every string with exactly one owner |
| ArenaStrings.SwapFields | Libraries/Include/google/protobuf/arenastring.h:433-439 | so does swapping two fields of one arena |
| ArenaStrings.DropArena | Libraries/Include/google/protobuf/arenastring.h:145-160 | so does destroying an arena with the strings it owns |
| ArenaStrings.StringFields.InitAllocated | Libraries/Include/google/protobuf/arenastring.h:399-406 | an adopted string is held by the field, or by its arena |
| ArenaStrings.StringFields.NewString | Libraries/Include/google/protobuf/arenastring.h:356-365 | a new string likewise, with the given value |
| ArenaStrings.StringFields.Set | Libraries/Include/google/protobuf/arenastring.cc:119-143 | the field has the new value, no other field changes, and no string is lost |
| ArenaStrings.StringFields.Mutable | Libraries/Include/google/protobuf/arenastring.cc:145-183 | the field can be written through, with the value it had or its default |
| ArenaStrings.StringFields.Release | Libraries/Include/google/protobuf/arenastring.cc:186-197 | the caller gets a string of its own with the value of the field, or null from a default field, which is left alone; afterwards the field reads "" if and only if it held a string or the constant it points at is empty |
| ArenaStrings.ReleaseLeavesTheDefault | Libraries/Include/google/protobuf/arenastring.cc:186-197 | an input where it is not: a field at the default "hi" reads "hi" after Release |
| ArenaStrings.StringFields.SetAllocated | Libraries/Include/google/protobuf/arenastring.cc:199-217 | the field takes the string given, and what it held is deleted once or left to the arena |
| ArenaStrings.StringFields.Destroy | Libraries/Include/google/protobuf/arenastring.cc:219-221 | deletes the string exactly when the field owns it |
| ArenaStrings.StringFields.ClearToEmpty | Libraries/Include/google/protobuf/arenastring.cc:223-235 | a string held by the field is empty afterwards, in place; a field at its default keeps the constant it points at, empty or not; no string is lost |
| ArenaStrings.StringFields.ClearToDefault | Libraries/Include/google/protobuf/arenastring.cc:237-247 | a string held by the field has the default value afterwards, in place; a field at its default keeps the constant it points at |
| ArenaStrings.StringFields.InternalSwap | Libraries/Include/google/protobuf/arenastring.h:433-439 | two fields of one arena exchange their values and strings |
| ArenaStrings.StringFields.DropArenaStrings | Libraries/Include/google/protobuf/arenastring.h:145-160 | destroying an arena deletes the strings it owns, once each, and no field elsewhere reads anything else |
| ArenaStrings.StringFields.OwnedOnce | Libraries/Include/google/protobuf/arenastring.cc:119-235 | at all times a string that was created is in exactly one of: held by one field, owned by an arena, handed out, or deleted once |
| Names.BetweenIsDescendant | Libraries/Include/google/protobuf/descriptor_database.h:244-262 | a valid name in order between an ancestor and its descendant descends from that ancestor: '.' sorts first |
| Names.AncestorsAreRelated | Libraries/Include/google/protobuf/descriptor_database.h:219-226 | two ancestors of one name are related themselves |
| Names.SubSymbols | Libraries/Include/google/protobuf/descriptor_database.cc:188-192 | a sub-symbol is the name itself or what stands before one of its dots |
| Names.ValidNames | Libraries/Include/google/protobuf/descriptor_database.cc:152-163 | a name is valid if and only if it has only letters, digits, underscores and dots |
| Names.DotsAreCounted | Libraries/Include/google/protobuf/descriptor.cc:5143-5149 | the count of dots is the number of positions that hold one |
| SymbolCompare.SymbolLessIsLess | Libraries/Include/google/protobuf/descriptor_database.cc:486-521 | the comparator, with its fast path, is the order of full names, with the one exception spelled out |
| SymbolCompare.StrictWeakOrder | Libraries/Include/google/protobuf/descriptor_database.cc:486-521 | on non-empty symbols and plain names it is a strict weak order whose equivalence is equality of full names |
| SymbolCompare.EmptySymbolIsMisplaced | Libraries/Include/google/protobuf/descriptor_database.cc:486-521 | an input for the exception: the empty symbol of package p against the name p |
| SymbolSearch.UpperBound | Libraries/Include/google/protobuf/descriptor_database.cc:168-183 | the place where the keys after a name begin |
| SymbolSearch.FoundIsPredecessor | Libraries/Include/google/protobuf/descriptor_database.cc:165-183 | FindLastLessOrEqual is the last key not after the name, or the first key when all are after it |
| SymbolSearch.SearchFindsTheAncestor | Libraries/Include/google/protobuf/descriptor_database.h:224-268 | the informal proof: among valid keys with no ancestors of one another, the one that is an ancestor of the name is the one found |
| SymbolSearch.TwoNeighboursSuffice | Libraries/Include/google/protobuf/descriptor_database.cc:196-251 | AddSymbol accepts if and only if the keys stay valid and unrelated, or in its blind spot; and in the blind spot they do not |
| SymbolSearch.ExactWhenSomeKeyPrecedes | Libraries/Include/google/protobuf/descriptor_database.cc:196-251 | acceptance is exact whenever the map is empty, some key is not after the name, or the first key is no sub-symbol of it |
| SymbolSearch.FooIsAcceptedOverFooBar | Libraries/Include/google/protobuf/descriptor_database.cc:196-251 | an input in the blind spot: with only foo.bar stored, foo is accepted |
| IndexSpec.AddItemsDeclared | Libraries/Include/google/protobuf/descriptor_database.cc:117-148 | adding the declarations of a file one by one succeeds exactly when none conflicts with the index or with another, and then the order does not matter |
| IndexSpec.DeclaredSymbols | Libraries/Include/google/protobuf/descriptor_database.cc:117-148 | the names a file declares are those of its top-level messages, enums, extensions and services, after its package and a dot if it has one |
| IndexSpec.DeclaredExtensions | Libraries/Include/google/protobuf/descriptor_database.cc:253-290 | the extensions it declares are those at its top and in its messages at any depth whose extendee starts with a dot, under the name after the dot |
| IndexSpec.FileAdded | Libraries/Include/google/protobuf/descriptor_database.cc:117-148 | adding a file maps its name and exactly what it declares to its value, and changes no other answer |
| IndexSpec.AnswerIsUnique | Libraries/Include/google/protobuf/descriptor_database.h:219-226 | at most one stored symbol can answer for a name |
| IndexSpec.StopsAtFirstConflict | Libraries/Include/google/protobuf/descriptor_database.cc:117-148 | where adding stops is determined: unless a conflict was missed, at the first declaration that conflicts |
| SimpleIndex.PredecessorAnswers | Libraries/Include/google/protobuf/descriptor_database.cc:298-306 | the predecessor, if it is an ancestor, is the only answer; otherwise there is none |
| SimpleIndex.RejectedConflicts | Libraries/Include/google/protobuf/descriptor_database.cc:196-251 | a symbol that is rejected does conflict |
| SimpleIndex.DescriptorIndex.AddSymbol | Libraries/Include/google/protobuf/descriptor_database.cc:196-251 | adds exactly that symbol, or changes nothing; only names of letters, digits, underscores and dots get in, and an empty index takes all of them |
| SimpleIndex.DescriptorIndex.AddExtension | Libraries/Include/google/protobuf/descriptor_database.cc:267-290 | adds a fully qualified extension unless its key is taken, and ignores others |
| SimpleIndex.DescriptorIndex.AddNestedExtensions | Libraries/Include/google/protobuf/descriptor_database.cc:253-265 | adds the extensions of a message and of everything nested in it |
| SimpleIndex.DescriptorIndex.AddFile | Libraries/Include/google/protobuf/descriptor_database.cc:117-148 | a file without conflicts is added exactly; a conflict is rejected, or has left related symbols behind. A rejection changes nothing if and only if the file name was taken; else the name and exactly the declarations before the conflict stay |
| SimpleIndex.DescriptorIndex.FindFile | Libraries/Include/google/protobuf/descriptor_database.cc:292-296 | the value of the file |
| SimpleIndex.DescriptorIndex.FindSymbol | Libraries/Include/google/protobuf/descriptor_database.cc:298-306 | the value of the one key that is the name or an ancestor of it, for any string |
| SimpleIndex.DescriptorIndex.FindExtension | Libraries/Include/google/protobuf/descriptor_database.cc:308-313 | the value of the extension |
| SortedSeq.MergeKeepsSorted | Libraries/Include/google/protobuf/descriptor_database.cc:804-812 | merging two sorted ranges without a common key gives a sorted range without duplicates |
| SortedSeq.MergeInOrder | Libraries/Include/google/protobuf/descriptor_database.cc:804-812 | merging two ranges in order, duplicates or not, gives a range in order |
| SortedSeq.MergeIsUnion | Libraries/Include/google/protobuf/descriptor_database.cc:804-812 | for ranges in order, with keys in both or repeated, the merge maps what the two mapped, the set before the vector |
| FlatTable.FlattenKeepsParts | Libraries/Include/google/protobuf/descriptor_database.cc:804-820 | merging the set into the flat vector changes nothing that a search finds, also when keys repeat |
| FlatTable.LowerBoundFinds | Libraries/Include/google/protobuf/descriptor_database.cc:790-802 | lower_bound points at the first entry of a key exactly when there is one |
| FlatTable.InsertKeepsParts | Libraries/Include/google/protobuf/descriptor_database.cc:637-644 | an entry with a key new to the set is the one found from then on, though the vector may have the key; nothing else changes |
| EncodedIndex.PairLessIsStrict | Libraries/Include/google/protobuf/descriptor_database.cc:533-548 | extension keys are ordered strictly by extendee and number |
| EncodedIndex.SymbolUpperBound | Libraries/Include/google/protobuf/descriptor_database.cc:708-717 | searching with the comparator finds the upper bound on full names |
| EncodedIndex.SymbolInserted | Libraries/Include/google/protobuf/descriptor_database.cc:692-729 | a symbol both parts accept is new to both and keeps the table in order |
| EncodedIndex.SymbolRejected | Libraries/Include/google/protobuf/descriptor_database.cc:692-722 | a symbol either part rejects conflicts with the whole table |
| EncodedIndex.BothPartsDecide | Libraries/Include/google/protobuf/descriptor_database.cc:664-729 | a symbol is accepted if and only if it is valid and unrelated to the whole table, or it is in the blind spot of a part that lets it through; and then it is not unrelated |
| EncodedIndex.SymbolsMerged | Libraries/Include/google/protobuf/descriptor_database.cc:804-820 | the merged symbol vector is sorted by full name and maps the same |
| EncodedIndex.SymbolAnswer | Libraries/Include/google/protobuf/descriptor_database.cc:777-788 | the flat predecessor answers for the whole table |
| EncodedIndex.RejectedFileTakesOver | Libraries/Include/google/protobuf/descriptor_database.cc:624-662 | adding a.proto, finding it, and adding it again, which is refused: FindFile answers the refused value from then on |
| EncodedIndex.DescriptorIndex.CheckForMutualSubsymbols | Libraries/Include/google/protobuf/descriptor_database.cc:664-690 | whether the neighbours in one part allow the name |
| EncodedIndex.DescriptorIndex.AddSymbol | Libraries/Include/google/protobuf/descriptor_database.cc:692-729 | accepts when both parts do, and then adds exactly that symbol; only names of letters, digits, underscores and dots get in, and an empty index takes all of them |
| EncodedIndex.DescriptorIndex.AddExtension | Libraries/Include/google/protobuf/descriptor_database.cc:743-769 | accepts exactly when the key is in neither part; a refusal leaves the set as it was if and only if the set had the key, and otherwise the refused value is found from then on |
| EncodedIndex.DescriptorIndex.AddName | Libraries/Include/google/protobuf/descriptor_database.cc:637-644 | accepts exactly a name that is in neither part; a refusal leaves the set as it was if and only if the set had the name, and otherwise the refused value is found from then on |
| EncodedIndex.DescriptorIndex.AddFile | Libraries/Include/google/protobuf/descriptor_database.cc:624-662 | a file without conflicts and with a valid package name is added exactly. A rejection leaves the sets as they were if and only if the package name is invalid or the file name is in the set; otherwise the whole index after it is stated: the file under its name, exactly the declarations before the conflict, and the refused extension if only the vector had it. Unless the blind spot has let related symbols in, the index can be searched and added to after any rejection |
| EncodedIndex.DescriptorIndex.EnsureFlat | Libraries/Include/google/protobuf/descriptor_database.cc:804-820 | empties the sets into the vectors and changes no answer, also after rejections |
| EncodedIndex.DescriptorIndex.FindFile | Libraries/Include/google/protobuf/descriptor_database.cc:854-864 | the value of the file, also after rejections |
| EncodedIndex.DescriptorIndex.FindSymbol | Libraries/Include/google/protobuf/descriptor_database.cc:771-788 | the value of the one key that is the name or an ancestor of it, also after rejections |
| EncodedIndex.DescriptorIndex.FindExtension | Libraries/Include/google/protobuf/descriptor_database.cc:789-802 | the value of the extension, also after rejections |
| IndexRefinement.RunBoth | Libraries/Include/google/protobuf/descriptor_database.cc:117-864 | over any run of additions without conflict and searches, both indexes give the same answers, those of three plain maps |
| Tables.UndoTwice | Libraries/Include/google/protobuf/descriptor.cc:1476-1502 | undoing to a checkpoint and then to an earlier one is undoing to the earlier one |
| Tables.UndoAddition | Libraries/Include/google/protobuf/descriptor.cc:1740-1839 | undoing takes away exactly what was added after the checkpoint |
| Tables.NestedRunKeepsUndo | Libraries/Include/google/protobuf/descriptor.cc:1460-1502 | through any nested run of checkpoints, additions, clears and rollbacks, undoing to the checkpoint gives the same |
| Tables.RollbackRestores | Libraries/Include/google/protobuf/descriptor.cc:1476-1502 | a rollback restores tables, logs and allocations of its checkpoint exactly, whatever inner checkpoints were cleared or rolled back |
| Tables.DoKeepsSafe | Libraries/Include/google/protobuf/descriptor.cc:1460-1502 | after every operation, and after any rollback from there, no entry refers to a freed allocation |
| Tables.RunIsSafe | Libraries/Include/google/protobuf/descriptor.cc:1460-1502 | so it is over every run |
| Tables.RunKeepsStack | Libraries/Include/google/protobuf/descriptor.cc:1460-1502 | over every run the checkpoints stay in the order they were taken, and nothing they marked has gone |
| Tables.AddingAccepts | Libraries/Include/google/protobuf/descriptor.cc:1740-1804 | an addition whose key is free is there afterwards, with all that was there and nothing else; one whose key is taken changes nothing |
| Tables.AcceptedIsFound | Libraries/Include/google/protobuf/descriptor.cc:1460-1502 | what was accepted is found after any run of additions, checkpoints, commits and rollbacks, until a rollback to a checkpoint taken before it |
| Tables.PoolTables.AddCheckpoint | Libraries/Include/google/protobuf/descriptor.cc:1460-1462 | records the five sizes |
| Tables.PoolTables.ClearLastCheckpoint | Libraries/Include/google/protobuf/descriptor.cc:1464-1474 | drops the checkpoint, and the logs with the last one; no table changes |
| Tables.PoolTables.RollbackToLastCheckpoint | Libraries/Include/google/protobuf/descriptor.cc:1476-1502 | the state of the checkpoint; names are read before the objects that hold them are freed |
| Tables.PoolTables.AddSymbol | Libraries/Include/google/protobuf/descriptor.cc:1740-1749 | puts a symbol in the table and in the log, and nothing else anywhere, unless the name is taken; then it changes nothing |
| Tables.PoolTables.AddFile | Libraries/Include/google/protobuf/descriptor.cc:1759-1766 | puts a file in the table and in the log, and nothing else anywhere, unless the name is taken; then it changes nothing |
| Tables.PoolTables.AddExtension | Libraries/Include/google/protobuf/descriptor.cc:1796-1804 | puts an extension in the table and in the log, and nothing else anywhere, unless the key is taken; then it changes nothing |
| Tables.PoolTables.AllocateBytes | Libraries/Include/google/protobuf/descriptor.cc:1815-1822 | a live allocation, unless nothing is asked for |
| Tables.PoolTables.CreateFlatAlloc | Libraries/Include/google/protobuf/descriptor.cc:1824-1839 | a live allocation |
| ImportSpec.LoadableByImports | Libraries/Include/google/protobuf/descriptor.cc:4999-5079 | a file can be loaded exactly when it has no error of its own and all its imports can be |
| ImportSpec.AcceptedFiles | Libraries/Include/google/protobuf/descriptor.cc:5081-5257 | a file has no error of its own if and only if its package has at most 511 characters and 100 dots, its name no NUL, its imports no repetition and not the file itself, each public index is a position among them, and linking succeeds |
| ImportSpec.CycleIsNotLoadable | Libraries/Include/google/protobuf/descriptor.cc:5019-5033 | no file on an import cycle can be loaded |
| ImportSpec.ReachingACycleIsNotLoadable | Libraries/Include/google/protobuf/descriptor.cc:5019-5033 | nor any file whose imports lead to a cycle |
| ImportLoader.PendingIsNotLoadable | Libraries/Include/google/protobuf/descriptor.cc:5019-5033 | a file that is asked for while it is being built is on a cycle |
| ImportLoader.NoAcceptedCycle | Libraries/Include/google/protobuf/descriptor.cc:4999-5079 | no such file ever gets into a pool |
| ImportLoader.DescriptorPool.FindFileByName | Libraries/Include/google/protobuf/descriptor.cc:1996-2015 | terminates on cyclic databases too, finds a file exactly when it can be loaded on top of the pool, and leaves the pool closed under import and acyclic. A file whose imports are in the pool is found if and only if its package has at most 511 characters and 100 dots, its name no NUL, its imports no repetition and not the file itself, each public index is a position among them, and linking succeeds |
| ImportLoader.PublicPosition | Libraries/Include/google/protobuf/descriptor.cc:5241-5257 | a file with two imports and one public index is found if and only if the index is 0 or 1 |
| ImportLoader.DescriptorPool.TryFindFileInFallbackDatabase | Libraries/Include/google/protobuf/descriptor.cc:2410-2424 | succeeds exactly for loadable files; a file known to be bad is not loadable |
| ImportLoader.DescriptorPool.BuildFileFromDatabase | Libraries/Include/google/protobuf/descriptor.cc:4166-4179 | likewise |
| ImportLoader.DescriptorPool.BuildFile | Libraries/Include/google/protobuf/descriptor.cc:4999-5079 | likewise; imports are loaded while no checkpoint is open, and a failure leaves the pool as it was then |
| ImportLoader.DescriptorPool.LoadImports | Libraries/Include/google/protobuf/descriptor.cc:5041-5059 | afterwards an import is in the pool exactly when it is loadable |
| ImportLoader.DescriptorPool.BuildFileImpl | Libraries/Include/google/protobuf/descriptor.cc:5081-5351 | succeeds exactly when the file, which has no weak imports, has no error, as AcceptedFiles spells out, and its imports are in the pool |
| ScopeLookup.ClosedHoldsReached | Libraries/Include/google/protobuf/descriptor.cc:4267-4272 | what is closed under public import holds everything reached by it |
| ScopeLookup.ReachesImports | Libraries/Include/google/protobuf/descriptor.cc:4267-4272 | a file reaches itself and the public imports of what it reaches |
| ScopeLookup.ReachedIsLeast | Libraries/Include/google/protobuf/descriptor.cc:4267-4272 | and nothing outside any set that holds it and the public imports of its members |
| ScopeLookup.WhoMayUse | Libraries/Include/google/protobuf/descriptor.cc:4260-4265 | a package may be used where a file of it or of one inside it is at hand; any other symbol where its own file is, unless dependencies are not enforced |
| ScopeLookup.WhatDecides | Libraries/Include/google/protobuf/descriptor.cc:4398-4420 | a scope decides a compound name by a message, enum, package or service of its first part, and a plain one by any symbol, or by a message or enum when a type is wanted |
| ScopeLookup.WhereResolved | Libraries/Include/google/protobuf/descriptor.cc:4353-4426 | the last scope that decides is where the whole name is looked up; without one it is looked up by itself |
| ScopeLookup.WhereDocumented | Libraries/Include/google/protobuf/descriptor.cc:3798-3817 | likewise for the documented answer, with the last scope that has the whole name |
| ScopeLookup.DescriptorBuilder.RecordPublicDependencies | Libraries/Include/google/protobuf/descriptor.cc:4267-4272 | terminates on any import graph; what it adds is reached from the file and comes with its own public imports |
| ScopeLookup.DescriptorBuilder.RecordAllDependencies | Libraries/Include/google/protobuf/descriptor.cc:5260-5269 | the dependencies are exactly the files reached from the direct imports by public imports |
| ScopeLookup.DescriptorBuilder.FindSymbol | Libraries/Include/google/protobuf/descriptor.cc:4314-4351 | the symbol, exactly when the file being built may use it, packages shared between files included |
| ScopeLookup.DescriptorBuilder.WhatIsFound | Libraries/Include/google/protobuf/descriptor.cc:4314-4351 | what the builder finds, in terms of its own symbols, files and dependencies |
| ScopeLookup.DescriptorBuilder.LookupSymbolNoPlaceholder | Libraries/Include/google/protobuf/descriptor.cc:4353-4426 | the innermost scope that decides gives the answer, even when the rest of a compound name is missing; else the name itself; a name after a dot is looked up as it is |
| ScopeLookup.ResolvesIsUnique | Libraries/Include/google/protobuf/descriptor.cc:4353-4426 | that determines the answer |
| ScopeLookup.DocumentedUnlessHidden | Libraries/Include/google/protobuf/descriptor.cc:3798-3817 | the documented answer, the first full name found, is given if and only if no inner scope hides it, whether any symbol or a type is wanted |
| ScopeLookup.BarOfFooHidesBar | Libraries/Include/google/protobuf/descriptor.cc:4363-4374 | an input where one does |
| NumberLookup.SequentialFieldLimit | Libraries/Include/google/protobuf/descriptor.cc:5396-5407 | the dense prefix of field numbers, all of it or 65535 numbers |
| NumberLookup.SequentialValueLimit | Libraries/Include/google/protobuf/descriptor.cc:6000-6013 | the last index of the dense prefix of enum values, all of it or 65535 values, stored in a signed field: more than 2^15 values wrap to a negative limit |
| NumberLookup.FirstIsFirst | Libraries/Include/google/protobuf/descriptor.cc:1559-1574 | the linear scan: the first match, if there is any |
| NumberLookup.LookupIsScan | Libraries/Include/google/protobuf/descriptor.cc:1559-1574 | once a message is complete, a number leads to its first field declared with it if and only if the number is in the dense prefix or no extension came before the fields that have it |
| NumberLookup.OwnFieldUnlessHidden | Libraries/Include/google/protobuf/descriptor.cc:2201-2208 | a message finds its own first field with a number, or nothing when an extension added first hides it, for all lists of fields and extensions |
| NumberLookup.WhatHides | Libraries/Include/google/protobuf/descriptor.cc:2201-2208 | a field is hidden when its number is not in the dense prefix and the first addition with it is an extension of the message |
| NumberLookup.WhoFits | Libraries/Include/google/protobuf/descriptor.cc:1770-1784 | a field fits if it is the one indexed under its number, or its number is not dense and was not added before |
| NumberLookup.NoClashHidesNothing | Libraries/Include/google/protobuf/descriptor.cc:1770-1784 | in a file without conflicts no field is hidden |
| NumberLookup.ExtensionHidesAField | Libraries/Include/google/protobuf/descriptor.cc:2201-2208 | an input where one is: fields 5 and 7, and an extension with number 7 added between them |
| NumberLookup.FileDescriptorTables.AddFieldByNumber | Libraries/Include/google/protobuf/descriptor.cc:1770-1784 | fails exactly when a field indexed or added before has the number |
| NumberLookup.FileDescriptorTables.FindFieldByNumber | Libraries/Include/google/protobuf/descriptor.cc:1559-1574 | the first field, of those indexed and those added, with the number |
| NumberLookup.FileDescriptorTables.FindOwnFieldByNumber | Libraries/Include/google/protobuf/descriptor.cc:2201-2208 | the first field of the message declared with the number, or nothing exactly when no field has it or an extension hides it |
| NumberLookup.DenseIndex | Libraries/Include/google/protobuf/descriptor.cc:1641-1649 | in the dense prefix the number gives the index of its first value |
| NumberLookup.EnumTables.AddEnumValueByNumber | Libraries/Include/google/protobuf/descriptor.cc:1786-1794 | keeps the first value of each number outside the dense prefix |
| NumberLookup.EnumTables.BuildEnumValues | Libraries/Include/google/protobuf/descriptor.cc:6015-6015 | all values added in order, aliases ignored |
| NumberLookup.EnumTables.FindEnumValueByNumber | Libraries/Include/google/protobuf/descriptor.cc:1641-1658 | the first value declared with the number |
| FieldNames.GetFieldNameCase | Libraries/Include/google/protobuf/descriptor.cc:535-549 | tells names of lower-case letters and digits, with and without underscores, from all others |
| FieldNames.StyleGuideNames | Libraries/Include/google/protobuf/descriptor.cc:418-430 | in such a name lower case is the name itself, and camel case and JSON name agree, differing from it exactly when there is an underscore |
| FieldNames.LettersByAlphabet | Libraries/Include/google/protobuf/descriptor.cc:86-93 | a small letter and its capital have the same place in the alphabet; other characters stand for themselves |
| FieldNames.JoinedIsKept | Libraries/Include/google/protobuf/descriptor.cc:95-137 | camel case and JSON name have no underscore, and as many characters as the field name has others |
| FieldNames.JoinedAt | Libraries/Include/google/protobuf/descriptor.cc:95-137 | each other character stands at its position less the underscores before it, as itself, or as its capital when it is a small letter after an underscore |
| FieldNames.CamelIsJson | Libraries/Include/google/protobuf/descriptor.cc:95-137 | camel case is the JSON name with a small first letter |
| FieldNames.SnakeBack | Libraries/Include/google/protobuf/descriptor.cc:119-137 | putting an underscore and the small letter for each capital gives the field name back, for names of small letters, digits and underscores each before a letter |
| FieldNames.UniqueCountsElements | Libraries/Include/google/protobuf/descriptor.cc:439-443 | sorting and dropping equal neighbours counts different names |
| FieldNames.PlannedNames | Libraries/Include/google/protobuf/descriptor.cc:409-446 | the number of strings planned for a field is the number of its different names and one more |
| FieldNames.AllocatedNames | Libraries/Include/google/protobuf/descriptor.cc:448-509 | as many names as planned, no name shared twice, each index leading to the right one, on the fast paths and off them: the lower-case name character by character, camel case and JSON name as JoinedAt and CamelIsJson spell them out |
| FlatAllocator.Allocator.PlanArray | Libraries/Include/google/protobuf/descriptor.cc:367-383 | whole words for types without a destructor, objects for the others, as UnitsHold spells out |
| FlatAllocator.Allocator.AllocateArray | Libraries/Include/google/protobuf/descriptor.cc:385-399 | the same amount; that it stays within the plan is proved at every call |
| FlatAllocator.UnitsHold | Libraries/Include/google/protobuf/descriptor.cc:367-399 | the bytes of an array are whole words that hold its elements and less than a word more, and objects are counted one by one |
| FlatAllocator.PaddedIsLeast | Libraries/Include/google/protobuf/descriptor.cc:367-383 | bytes are rounded up to the least multiple of 8 |
| FlatAllocator.EnumCounted | Libraries/Include/google/protobuf/descriptor.cc:4880-4902 | the strings, options and bytes an enum needs, counted from its declaration |
| FlatAllocator.ServiceCounted | Libraries/Include/google/protobuf/descriptor.cc:4960-4979 | likewise for a service |
| FlatAllocator.FieldCounted | Libraries/Include/google/protobuf/descriptor.cc:4914-4929 | likewise for a field: its different names, its options, and its default if that is a string or bytes |
| FlatAllocator.MessageCounted | Libraries/Include/google/protobuf/descriptor.cc:4904-4958 | likewise for a message, with all that is declared in it |
| FlatAllocator.FileCounted | Libraries/Include/google/protobuf/descriptor.cc:4981-4997 | likewise for a file, with all that is declared in it |
| FlatAllocator.HeightIsMost | Libraries/Include/google/protobuf/descriptor.cc:5417-5430 | the height of a message is one more than that of the highest message in it |
| FlatAllocator.Allocator.AllocateFieldNames | Libraries/Include/google/protobuf/descriptor.cc:448-509 | the right names in the planned space |
| FlatAllocator.PlanMessages | Libraries/Include/google/protobuf/descriptor.cc:4940-4958 | the plan for messages comes to what their trees need |
| FlatAllocator.PlanAllocationSize | Libraries/Include/google/protobuf/descriptor.cc:4981-4997 | the plan for a file comes to what its tree needs |
| FlatAllocator.MessageNeedInOrder | Libraries/Include/google/protobuf/descriptor.cc:5375-5444 | what a message needs does not depend on the order in which it is counted |
| FlatAllocator.DescriptorBuilder.BuildMessage | Libraries/Include/google/protobuf/descriptor.cc:5375-5444 | uses what the message needs; fails exactly when messages nest too deep, and then uses no more |
| FlatAllocator.DescriptorBuilder.BuildEnum | Libraries/Include/google/protobuf/descriptor.cc:5979-6036 | uses exactly what the enum needs |
| FlatAllocator.DescriptorBuilder.BuildFieldOrExtension | Libraries/Include/google/protobuf/descriptor.cc:5540-5821 | uses exactly what the field needs, its default string included |
| FlatAllocator.DescriptorBuilder.BuildService | Libraries/Include/google/protobuf/descriptor.cc:6161-6182 | uses exactly what the service needs |
| FlatAllocator.DescriptorBuilder.BuildFileImpl | Libraries/Include/google/protobuf/descriptor.cc:5081-5351 | never uses more than the file needs, and exactly that when it succeeds, which it does if and only if the package has at most 100 dots, no message nests deeper than 32 and nothing else is wrong |
| FlatAllocator.BuildFile | Libraries/Include/google/protobuf/descriptor.cc:5061-5079 | no allocation of a build is refused, and a file that is accepted has used up its plan |

## Left out

- The game client, the game server and the networking library: thin code around socket calls, whose main headers are not part of this model.
- Generated message code, parsing and serialisation: it rests on wire-format helpers that are not part of this model.
- Sanitizer hooks, sampling, metrics collectors and log texts: they do not change what is computed.
- Weak memory ordering and the reuse of thread-local addresses after a thread ends: atomics are sequentially consistent steps and threads have unique ids.
- Overflow of `size_t` in sums of block sizes, and lifecycle ids that wrap around 64 bits.
- Destructors run by cleanups are taken not to change the arena they belong to.
- ThreadProtocol: the allocation inside a SerialArena is not part of a step; SerialArena has it.
- SerialArena: block headers are a sequence from oldest to newest instead of `next` pointers in the blocks; the freelist, its directory and the cleanup nodes are words in memory.
- ThreadSafeArenas.ThreadSafeArena: the list of SerialArenas is a sequence here; ThreadProtocol has its pointers.
- ArenaStrings: fixed-size arena strings and string donation, which this version does not create, and `UnsafeSetTaggedPointer`.
- IndexSpec: finding all extension numbers, file names, package names or message names, which add nothing to the searches proved.
- EncodedIndex: the encoding of strings into a file's bytes is left out, an entry has its string.
- Tables: well-known types, unknown enum values and the lazily built maps by lower-case and camel-case name.
- ImportLoader.DescriptorPool.BuildFileImpl: files have no weak imports here; where they are not enforced, a missing one becomes a placeholder in the source.
- ImportLoader: cross-linking and building of contents is one outcome per file and call, an arbitrary function; builds it may trigger, lazy imports, placeholders for unknown imports and an underlying pool are not modelled.
- ScopeLookup: building a missing symbol from the database during lookup, and the record of unused or undeclared imports, which only warnings and messages use.
- NumberLookup: enum values made up for unknown numbers.
- FlatAllocator: the layout of the arrays inside the allocation, and the contents of descriptors other than the names of fields; errors that do not end a build early are one outcome, since they change no allocation.
- Option interpretation, text format, debug strings, proto3 checks and the texts of errors.
