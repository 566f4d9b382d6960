/**
 * SerialArena: a bump allocator over a list of blocks, with cleanup nodes growing down from the
 * other end of each block and a freelist for returned arrays that lives inside those arrays.
 * Addresses are numbers and `words` is the memory the arena itself reads and writes.
 */
module SerialArenas {
  import opened Bits
  import opened Sizes
  import opened ArenaLayout

  datatype Memory = Memory(addr: nat, size: nat)

  /** What tearing an arena down does, in order. */
  datatype Event = Ran(cleanup: Cleanup) | Released(mem: Memory)

  function AsRuns(cs: seq<Cleanup>): seq<Event> { seq(|cs|, i requires 0 <= i < |cs| => Ran(cs[i])) }

  function AsReleases(ms: seq<Memory>): seq<Event> { seq(|ms|, i requires 0 <= i < |ms| => Released(ms[i])) }

  lemma NothingYet(before: seq<Event>)
    ensures before + AsRuns([]) == before && before + AsReleases([]) == before
  {
  }

  lemma RunsAppend(before: seq<Event>, a: seq<Cleanup>, b: seq<Cleanup>)
    ensures before + AsRuns(a + b) == before + AsRuns(a) + AsRuns(b)
  {
    assert AsRuns(a + b) == AsRuns(a) + AsRuns(b);
  }

  lemma RunsOneMore(before: seq<Event>, a: seq<Cleanup>, c: Cleanup)
    ensures before + AsRuns(a + [c]) == before + AsRuns(a) + [Ran(c)]
  {
    assert AsRuns(a + [c]) == AsRuns(a) + [Ran(c)];
  }

  lemma ReleasesAppend(before: seq<Event>, a: seq<Memory>, b: seq<Memory>)
    ensures before + AsReleases(a + b) == before + AsReleases(a) + AsReleases(b)
  {
    assert AsReleases(a + b) == AsReleases(a) + AsReleases(b);
  }

  lemma ReleasesOneMore(before: seq<Event>, a: seq<Memory>, m: Memory)
    ensures before + AsReleases(a + [m]) == before + AsReleases(a) + [Released(m)]
  {
    assert AsReleases(a + [m]) == AsReleases(a) + [Released(m)];
  }

  /** The blocks in the order of the block list: newest first. */
  function NewestFirst(blocks: seq<Block>): (r: seq<Memory>)
    ensures |r| == |blocks|
    ensures |blocks| > 0 ==> r[|r| - 1] == Memory(blocks[0].addr, blocks[0].size)
  {
    if blocks == [] then []
    else
      var h := |blocks| - 1;
      [Memory(blocks[h].addr, blocks[h].size)] + NewestFirst(blocks[..h])
  }

  lemma {:induction false} NewestFirstAt(blocks: seq<Block>, k: nat)
    requires k < |blocks|
    ensures var b := blocks[|blocks| - 1 - k]; NewestFirst(blocks)[k] == Memory(b.addr, b.size)
  {
    if k > 0 { NewestFirstAt(blocks[..|blocks| - 1], k - 1); }
  }

  ghost predicate MemApart(a: Memory, b: Memory) { a.addr + a.size <= b.addr || b.addr + b.size <= a.addr }

  /** No block of one list shares a byte with one of the other. */
  ghost predicate ListsApart(xs: seq<Memory>, ys: seq<Memory>) {
    forall i, j :: 0 <= i < |xs| && 0 <= j < |ys| ==> MemApart(xs[i], ys[j])
  }

  /** No two blocks of a list share a byte. */
  ghost predicate PairwiseApart(xs: seq<Memory>) {
    forall i, j :: 0 <= i < j < |xs| ==> MemApart(xs[i], xs[j])
  }

  ghost predicate NoneEmpty(xs: seq<Memory>) { forall i :: 0 <= i < |xs| ==> xs[i].size > 0 }

  /** The order of the block list does not depend on where cleanup nodes start. */
  lemma {:induction false} NewestFirstIgnoresStart(blocks: seq<Block>, blocks': seq<Block>)
    requires |blocks| == |blocks'|
    requires forall i :: 0 <= i < |blocks| ==> blocks'[i].addr == blocks[i].addr && blocks'[i].size == blocks[i].size
    ensures NewestFirst(blocks') == NewestFirst(blocks)
  {
    if blocks != [] {
      var h := |blocks| - 1;
      NewestFirstIgnoresStart(blocks[..h], blocks'[..h]);
    }
  }

  /** The head written off at its node limit, and a new head in front of it. */
  function Pushed(blocks: seq<Block>, start: nat, b: Block): (r: seq<Block>)
    requires |blocks| > 0
    ensures |r| == |blocks| + 1 && r[|blocks|] == b
  {
    var h := |blocks| - 1;
    blocks[h := blocks[h].(start := start)] + [b]
  }

  lemma NewestFirstPush(blocks: seq<Block>, start: nat, b: Block)
    requires |blocks| > 0
    ensures NewestFirst(Pushed(blocks, start, b)) == [Memory(b.addr, b.size)] + NewestFirst(blocks)
  {
    var h := |blocks| - 1;
    var blocks' := blocks[h := blocks[h].(start := start)];
    NewestFirstIgnoresStart(blocks, blocks');
    assert (blocks' + [b])[..|blocks|] == blocks';
  }

  ghost predicate InWords(blocks: seq<Block>) {
    forall i :: 0 <= i < |blocks| ==> blocks[i].size % 8 == 0
  }

  /** A block that the policy sizes keeps them all in whole words. */
  lemma NewBlockInWords(blocks: seq<Block>, start: nat, b: Block, policy: Policy, n: nat)
    requires |blocks| > 0 && b.size == BlockSize(policy, blocks[|blocks| - 1].size, n)
    requires WholePolicy(policy) && n % 8 == 0 && InWords(blocks)
    ensures InWords(Pushed(blocks, start, b))
  {
    BlockSizeKeepsWords(policy, blocks[|blocks| - 1].size, n);
  }

  ghost predicate AlignedAt(ptr: nat, regions: map<nat, Region>) {
    ptr % 8 == 0 && forall p :: p in regions ==> p % 8 == 0
  }

  /** After n more bytes from the pointer the next ones start at a word exactly when n is whole words. */
  lemma BumpAligned(areas: seq<Area>, regions: map<nat, Region>, n: nat)
    requires |areas| > 0
    ensures var ptr := areas[|areas| - 1].end;
            AlignedAt(ptr, regions) ==> ptr % 8 == 0 && (AlignedAt(ptr + n, Grown(areas, regions, n)) <==> n % 8 == 0)
  {
  }

  lemma FreelistIgnoresBump(areas: seq<Area>, regions: map<nat, Region>, words: map<nat, nat>,
                            dir: nat, len: nat, lists: seq<seq<nat>>, n: nat)
    requires |areas| > 0 && (n > 0 ==> areas[|areas| - 1].end !in regions)
    requires FreelistOk(words, dir, len, regions, lists)
    ensures FreelistOk(words, dir, len, Grown(areas, regions, n), lists)
  {
    hide FreelistOk;
    if n > 0 {
      FreelistIgnoresLive(words, dir, len, regions, lists, areas[|areas| - 1].end, Region(n, |areas| - 1, Live));
    }
  }

  lemma SameStartsAligned(ptr: nat, regions: map<nat, Region>, regions': map<nat, Region>)
    requires regions'.Keys == regions.Keys
    ensures AlignedAt(ptr, regions') <==> AlignedAt(ptr, regions)
  {
    assert forall p :: p in regions' <==> p in regions.Keys;
  }

  lemma PromotedStartsAligned(ptr: nat, regions: map<nat, Region>, dir: nat, len: nat, p: nat)
    requires p in regions && AlignedAt(ptr, regions)
    ensures AlignedAt(ptr, Promoted(regions, dir, len, p))
  {
  }

  /** Everything the new directory leaves in order, at once. */
  lemma PromoteKeeps(areas: seq<Area>, words: map<nat, nat>, words': map<nat, nat>, dir: nat, len: nat,
                     regions: map<nat, Region>, lists: seq<seq<nat>>, registered: seq<seq<Cleanup>>,
                     ptr: nat, p: nat, size: nat)
    requires AreasOk(areas) && RegionsOk(areas, regions) && FreelistOk(words, dir, len, regions, lists)
    requires NodesOk(words, areas, registered)
    requires p in regions && regions[p].role == Live && size <= regions[p].size
    requires var len' := Min(64, size / PTR_SIZE); len <= len' && 0 < len'
    requires forall i :: 0 <= i < Min(64, size / PTR_SIZE) ==>
               (Slot(p, i) in words' && words'[Slot(p, i)] == if i < len then words[Slot(dir, i)] else 0)
    requires forall w :: w in words && (w < p || p + PTR_SIZE * (size / PTR_SIZE) <= w) ==>
               w in words' && words'[w] == words[w]
    ensures var len' := Min(64, size / PTR_SIZE);
            && RegionsOk(areas, Promoted(regions, dir, len, p)) && |lists| == len
            && FreelistOk(words', p, len', Promoted(regions, dir, len, p), Extended(lists, len'))
    ensures NodesOk(words', areas, registered) && UserDataKept(words, words', regions - {p})
    ensures AlignedAt(ptr, regions) ==> AlignedAt(ptr, Promoted(regions, dir, len, p))
  {
    hide AreasOk, RegionsOk, FreelistOk, NodesOk, UserDataKept, Promoted, Extended, AlignedAt, Slot;
    FreelistSizes(words, dir, len, regions, lists);
    PromoteKeepsFreelist(areas, words, words', dir, len, regions, lists, p, size, Min(64, size / PTR_SIZE));
    NodesFrame(areas, regions, words, words', registered);
    WrittenInside(areas, regions, words, words', p);
    if AlignedAt(ptr, regions) { PromotedStartsAligned(ptr, regions, dir, len, p); }
  }

  /** Everything a new block leaves in order, at once. */
  lemma NewBlockKeeps(areas: seq<Area>, blocks: seq<Block>, regions: map<nat, Region>, words: map<nat, nat>,
                      registered: seq<seq<Cleanup>>, ptr: nat, limit: nat, mem: nat, size: nat)
    requires AreasOk(areas) && MappedOk(areas, blocks, ptr, limit) && RegionsOk(areas, regions)
    requires NodesOk(words, areas, registered)
    requires FreshBlock(areas, mem, size) && size >= BLOCK_HEADER_SIZE
    ensures |blocks| > 0 && mem % 8 == 0
    ensures var lo := mem + BLOCK_HEADER_SIZE;
            var areas' := areas + [Area(mem, lo, lo, mem + size, mem + size, mem + size)];
            var blocks' := Pushed(blocks, limit, Block(mem, size, 0));
            && AreasOk(areas') && MappedOk(areas', blocks', lo, mem + size) && RegionsOk(areas', regions)
            && NodesOk(words, areas', registered + [[]])
            && TotalSize(blocks') == TotalSize(blocks) + size
            && NewestFirst(blocks') == [Memory(mem, size)] + NewestFirst(blocks)
  {
    hide AreasOk, MappedOk, RegionsOk, NodesOk, TotalSize, NewestFirst;
    MappedFacts(areas, blocks, ptr, limit);
    var lo := mem + BLOCK_HEADER_SIZE;
    var area := Area(mem, lo, lo, mem + size, mem + size, mem + size);
    RegionsSurviveNewBlock(areas, regions, area);
    NodesSurviveNewBlock(words, areas, registered, area);
    MappedNewBlock(areas, blocks, ptr, limit, mem, size);
    NewestFirstPush(blocks, limit, Block(mem, size, 0));
    TotalSizeIgnoresStart(blocks, limit);
    TotalSizeAppend(blocks[|blocks| - 1 := blocks[|blocks| - 1].(start := limit)], Block(mem, size, 0));
  }

  /** Everything a bump of the pointer leaves in order, at once. */
  lemma BumpKeeps(areas: seq<Area>, blocks: seq<Block>, regions: map<nat, Region>, words: map<nat, nat>,
                  registered: seq<seq<Cleanup>>, ptr: nat, limit: nat, dir: nat, len: nat, lists: seq<seq<nat>>, n: nat)
    requires AreasOk(areas) && MappedOk(areas, blocks, ptr, limit) && RegionsOk(areas, regions)
    requires NodesOk(words, areas, registered) && FreelistOk(words, dir, len, regions, lists)
    requires ptr + n <= limit
    ensures |areas| > 0
    ensures var areas', regions' := Moved(areas, ptr + n, limit), Grown(areas, regions, n);
            && AreasOk(areas') && MappedOk(areas', blocks, ptr + n, limit) && RegionsOk(areas', regions')
            && NodesOk(words, areas', registered) && FreelistOk(words, dir, len, regions', lists)
            && Claimed(regions, regions', ptr, n) && (n > 0 ==> ptr !in regions)
            && areas[|areas| - 1].end == ptr
  {
    hide AreasOk, MappedOk, RegionsOk, FreelistOk, NodesOk, Claimed, Grown, Moved;
    MappedFacts(areas, blocks, ptr, limit);
    MappedMove(areas, blocks, ptr, limit, ptr + n, limit);
    BumpIsDisjoint(areas, regions, n, limit);
    NodesSurviveBump(words, areas, registered, ptr + n);
    FreelistIgnoresBump(areas, regions, words, dir, len, lists, n);
    GrownIsClaimed(areas, regions, n);
  }

  lemma GrownIsClaimed(areas: seq<Area>, regions: map<nat, Region>, n: nat)
    requires |areas| > 0 && (n > 0 ==> areas[|areas| - 1].end !in regions)
    ensures Claimed(regions, Grown(areas, regions, n), areas[|areas| - 1].end, n)
  {
  }

  lemma MappedSizes(areas: seq<Area>, blocks: seq<Block>, ptr: nat, limit: nat)
    requires MappedOk(areas, blocks, ptr, limit)
    ensures |areas| == |blocks|
  {
  }

  /** What an object takes up, with the node for its destructor if it has one. */
  function Needed(size: nat, align: nat, fn: nat): nat {
    RequestSize(size, align) + (if fn == 0 then 0 else CLEANUP_SIZE)
  }

  class SerialArena {
    const owner: nat
    /** The block list, oldest first: `head_` is the last element, and `next` points one to the left. */
    var blocks: seq<Block>
    var spaceUsed: nat
    var spaceAllocated: nat
    var ptr: nat
    var limit: nat
    var cachedBlockLength: nat
    var cachedBlocks: nat
    var words: map<nat, nat>

    ghost var areas: seq<Area>
    ghost var regions: map<nat, Region>
    ghost var lists: seq<seq<nat>>
    ghost var registered: seq<seq<Cleanup>>
    ghost var bumped: nat

    ghost predicate Valid()
      reads this
    {
      && AreasOk(areas)
      && MappedOk(areas, blocks, ptr, limit)
      && RegionsOk(areas, regions)
      && FreelistOk(words, cachedBlocks, cachedBlockLength, regions, lists)
      && NodesOk(words, areas, registered)
      && spaceAllocated == TotalSize(blocks)
      && |blocks| > 0
      && spaceUsed + (ptr - (Head().addr + BLOCK_HEADER_SIZE)) == SERIAL_ARENA_SIZE + bumped
    }

    function Head(): Block
      requires |blocks| > 0
      reads this
    {
      blocks[|blocks| - 1]
    }

    /** Every cleanup registered so far, oldest first. */
    ghost function Registered(): seq<Cleanup>
      reads this
    {
      Flatten(registered)
    }

    ghost predicate IsLive(p: nat, size: nat)
      reads this
    {
      p in regions && regions[p].role == Live && size <= regions[p].size
    }

    constructor (mem: Memory, owner: nat)
      requires mem.addr % 8 == 0 && mem.addr > 0 && mem.addr + mem.size < SIZE_LIMIT
      requires BLOCK_HEADER_SIZE + SERIAL_ARENA_SIZE <= mem.size
      ensures Valid()
      ensures this.owner == owner && blocks == [Block(mem.addr, mem.size, 0)]
      ensures regions == map[] && Registered() == [] && bumped == 0 && spaceAllocated == mem.size
      ensures Aligned() && (WholeWords() <==> mem.size % 8 == 0)
      ensures forall n :: BLOCK_HEADER_SIZE + SERIAL_ARENA_SIZE + n <= AlignDownTo8(mem.size) ==> HasSpace(n)
    {
      this.owner := owner;
      blocks := [Block(mem.addr, mem.size, 0)];
      spaceUsed, spaceAllocated := 0, mem.size;
      ptr := mem.addr + BLOCK_HEADER_SIZE + SERIAL_ARENA_SIZE;
      limit := mem.addr + AlignDownTo8(mem.size);
      cachedBlockLength, cachedBlocks, words := 0, 0, map[];
      var lo, top := mem.addr + BLOCK_HEADER_SIZE + SERIAL_ARENA_SIZE, mem.addr + AlignDownTo8(mem.size);
      areas := [Area(mem.addr, lo, lo, top, top, mem.addr + mem.size)];
      regions, lists, registered, bumped := map[], [], [[]], 0;
    }

    /** Everything handed out, and what will be handed out next, starts at a word. */
    ghost predicate Aligned()
      reads this
    {
      AlignedAt(ptr, regions)
    }

    /** All blocks are whole words; the policy keeps new ones so. */
    ghost predicate WholeWords()
      reads this
    {
      InWords(blocks)
    }

    predicate HasSpace(n: nat)
      reads this
    {
      n <= limit - ptr
    }

    /** The block allocator has room for us: needed only when the head block is too full for n more bytes. */
    ghost predicate CanGrow(n: nat, policy: Policy, mem: nat)
      requires |blocks| > 0
      reads this
    {
      !HasSpace(n) ==> FreshBlock(areas, mem, BlockSize(policy, Head().size, n))
    }

    /** The block a request for n bytes adds, if it adds one. */
    ghost function Grows(n: nat, policy: Policy, mem: nat): seq<Memory>
      requires |blocks| > 0
      reads this
    {
      if HasSpace(n) then [] else [Memory(mem, BlockSize(policy, Head().size, n))]
    }

    /** Retires the head block and starts a new one at `mem`, the address the block allocator returned. */
    method AllocateNewBlock(n: nat, policy: Policy, mem: nat)
      requires Valid() && !HasSpace(n) && CanGrow(n, policy, mem)
      modifies this
      ensures Valid() && HasSpace(n)
      ensures |blocks| == old(|blocks|) + 1 && NewestFirst(blocks) == old(Grows(n, policy, mem) + NewestFirst(blocks))
      ensures Head() == Block(mem, BlockSize(policy, old(Head().size), n), 0) && ptr == mem + BLOCK_HEADER_SIZE
      ensures regions == old(regions) && bumped == old(bumped) && words == old(words)
      ensures registered == old(registered) + [[]]
      ensures cachedBlocks == old(cachedBlocks) && cachedBlockLength == old(cachedBlockLength)
      ensures ptr % 8 == 0 && spaceAllocated == old(spaceAllocated) + Head().size
      ensures WholePolicy(policy) && n % 8 == 0 && old(WholeWords()) ==> WholeWords()
    {
      hide AreasOk, MappedOk, RegionsOk, FreelistOk, NodesOk, TotalSize, Flatten, NewestFirst, InWords, WholePolicy;
      hide BlockSize, FreshBlock, Pushed;
      MappedFacts(areas, blocks, ptr, limit);
      var h := |blocks| - 1;
      var used := ptr - (blocks[h].addr + BLOCK_HEADER_SIZE);
      var size := BlockSize(policy, blocks[h].size, n);
      NewBlockKeeps(areas, blocks, regions, words, registered, ptr, limit, mem, size);
      if WholePolicy(policy) && n % 8 == 0 && WholeWords() {
        NewBlockInWords(blocks, limit, Block(mem, size, 0), policy, n);
      }
      blocks := Pushed(blocks, limit, Block(mem, size, 0));
      spaceUsed := spaceUsed + used;
      spaceAllocated := spaceAllocated + size;
      ptr := mem + BLOCK_HEADER_SIZE;
      limit := mem + size;
      areas := areas + [Area(mem, ptr, ptr, limit, limit, limit)];
      registered := registered + [[]];
    }

    /** Bumps the pointer. */
    method AllocateFromExisting(n: nat) returns (p: nat)
      requires Valid() && HasSpace(n)
      modifies this
      ensures Valid() && p == old(ptr) && ptr == p + n && limit == old(limit)
      ensures (n > 0 ==> p !in old(regions)) && Claimed(old(regions), regions, p, n)
      ensures old(Aligned()) ==> p % 8 == 0 && (Aligned() <==> n % 8 == 0)
      ensures blocks == old(blocks) && registered == old(registered) && bumped == old(bumped) + n && words == old(words)
    {
      hide AreasOk, MappedOk, RegionsOk, FreelistOk, NodesOk, TotalSize, Moved, Grown, AlignedAt, Claimed;
      BumpKeeps(areas, blocks, regions, words, registered, ptr, limit, cachedBlocks, cachedBlockLength, lists, n);
      BumpAligned(areas, regions, n);
      p := ptr;
      ptr := ptr + n;
      regions := Grown(areas, regions, n);
      areas := Moved(areas, ptr, limit);
      bumped := bumped + n;
    }

    /** Takes a block of the size class that is certainly large enough, if one is cached. */
    method TryAllocateFromCachedBlock(size: nat) returns (p: nat)
      requires Valid()
      modifies this
      ensures Valid() && p == old(Candidate(lists, size))
      ensures if p == 0 then regions == old(regions) && lists == old(lists)
              else p in old(regions) && Claimed(old(regions), regions, p, size)
                   && lists == old(lists[RequestClass(size) := lists[RequestClass(size)][1..]])
      ensures blocks == old(blocks) && registered == old(registered) && bumped == old(bumped)
      ensures ptr == old(ptr) && limit == old(limit) && areas == old(areas)
      ensures Aligned() <==> old(Aligned())
      ensures UserDataKept(old(words), words, old(regions))
    {
      hide AreasOk, MappedOk, RegionsOk, FreelistOk, NodesOk, Chain, TotalSize, Flatten, Pow2, Log2Floor,
           RequestClass, ReturnClass, UserDataKept, NewestFirst;
      FreelistSizes(words, cachedBlocks, cachedBlockLength, regions, lists);
      NothingWritten(words, regions);
      if size < 16 { return 0; }
      var index := RequestClass(size);
      if index >= cachedBlockLength { return 0; }
      var slot := cachedBlocks + PTR_SIZE * index;
      assert slot == Slot(cachedBlocks, index);
      DirectoryEntry(words, cachedBlocks, cachedBlockLength, regions, lists, index);
      if words[slot] == 0 { return 0; }
      p := words[slot];
      PopKeepsFreelist(areas, words, words[slot := words[p]], cachedBlocks, cachedBlockLength, regions, lists,
                       index, size);
      assert cachedBlocks <= slot < cachedBlocks + regions[cachedBlocks].size;
      NodesFrame(areas, regions, words, words[slot := words[p]], registered);
      WrittenInside(areas, regions, words, words[slot := words[p]], cachedBlocks);
      words := words[slot := words[p]];
      regions := regions[p := Region(size, regions[p].home, Live)];
      lists := lists[index := lists[index][1..]];
      SameStartsAligned(ptr, old(regions), regions);
    }

    /** `forArray` is the kArray client, which looks through the cached blocks first. */
    method AllocateAligned(n: nat, forArray: bool, policy: Policy, mem: nat) returns (p: nat)
      requires Valid() && CanGrow(n, policy, mem)
      modifies this
      ensures Valid() && Claimed(old(regions), regions, p, n)
      ensures old(Aligned()) ==>
                p % 8 == 0 && (Aligned() <==> n % 8 == 0 || (forArray && old(Candidate(lists, n)) != 0))
      ensures WholePolicy(policy) && n % 8 == 0 && old(WholeWords()) ==> WholeWords()
      ensures if forArray && old(Candidate(lists, n)) != 0 then
                p == old(Candidate(lists, n)) && bumped == old(bumped) && blocks == old(blocks)
              else
                && (n > 0 ==> p !in old(regions)) && bumped == old(bumped) + n
                && (old(HasSpace(n)) ==> blocks == old(blocks) && p == old(ptr))
                && (!old(HasSpace(n)) ==> |blocks| == old(|blocks|) + 1 && p == mem + BLOCK_HEADER_SIZE)
                && spaceAllocated == old(spaceAllocated) + (if old(HasSpace(n)) then 0 else Head().size)
      ensures n > 0 ==> (p in old(regions) <==> forArray && old(Candidate(lists, n)) != 0)
      ensures p in old(regions) && n > 0 ==>
                old(regions)[p].role.Cached? && bumped == old(bumped) && blocks == old(blocks)
      ensures forArray && 0 < n < 16 ==> p !in old(regions)
      ensures forArray && n >= 16 ==>
                forall k :: LeastClass(n, k) ==> (p in old(regions) <==> AnyCached(old(regions), k))
      ensures NewestFirst(blocks) == old((if forArray && Candidate(lists, n) != 0 then [] else Grows(n, policy, mem))
                                         + NewestFirst(blocks))
      ensures Registered() == old(Registered())
      ensures UserDataKept(old(words), words, old(regions))
    {
      hide AreasOk, MappedOk, RegionsOk, FreelistOk, NodesOk, Chain, TotalSize, Flatten, Pow2, Log2Floor,
           RequestClass, ReturnClass, UserDataKept, NewestFirst, Candidate, LeastClass, AnyCached, ListsOk;
      NothingWritten(words, regions);
      FreelistHoldsLists(words, cachedBlocks, cachedBlockLength, regions, lists);
      CandidateIsCached(areas, regions, lists, n);
      if forArray {
        p := TryAllocateFromCachedBlock(n);
        if p != 0 {
          RegionFacts(areas, regions, p);
          return;
        }
      }
      if !HasSpace(n) {
        AllocateNewBlock(n, policy, mem);
        FlattenNewBlock(old(registered));
      }
      p := AllocateFromExisting(n);
    }

    /** Accepts an array back: files it in the freelist, or makes it the freelist's new, larger directory. */
    method ReturnArrayMemory(p: nat, size: nat)
      requires Valid() && size >= 16 && IsLive(p, size)
      modifies this
      ensures Valid()
      ensures if ReturnClass(size) < old(cachedBlockLength) then
                && lists == old(lists)[ReturnClass(size) := [p] + old(lists)[ReturnClass(size)]]
                && regions == old(regions)[p := old(regions)[p].(role := Cached(ReturnClass(size)))]
                && cachedBlocks == old(cachedBlocks)
              else
                && cachedBlocks == p && |lists| == Min(64, size / PTR_SIZE) > ReturnClass(size)
                && lists == Extended(old(lists), |lists|)
                && regions == Promoted(old(regions), old(cachedBlocks), old(cachedBlockLength), p)
      ensures blocks == old(blocks) && registered == old(registered) && bumped == old(bumped)
      ensures ptr == old(ptr) && limit == old(limit) && areas == old(areas)
      ensures UserDataKept(old(words), words, old(regions) - {p})
      ensures old(Aligned()) ==> Aligned()
    {
      hide AreasOk, MappedOk, RegionsOk, FreelistOk, NodesOk, Chain, TotalSize, Flatten, Pow2, Log2Floor,
           RequestClass, ReturnClass, UserDataKept, NewestFirst, Promoted, Extended, AlignedAt;
      var index := ReturnClass(size);
      RegionFacts(areas, regions, p);
      FreelistSizes(words, cachedBlocks, cachedBlockLength, regions, lists);
      if cachedBlockLength > 0 { RegionsApart(areas, regions, p, cachedBlocks); }
      if index >= cachedBlockLength {
        var newSize := size / PTR_SIZE;
        DirectoryCovers(size);
        var words' := CopyAndFill(words, cachedBlocks, cachedBlockLength, p, newSize);
        PromoteKeeps(areas, words, words', cachedBlocks, cachedBlockLength, regions, lists, registered, ptr, p, size);
        words := words';
        regions := Promoted(regions, cachedBlocks, cachedBlockLength, p);
        lists := Extended(lists, Min(64, newSize));
        cachedBlocks, cachedBlockLength := p, Min(64, newSize);
        return;
      }
      var slot := cachedBlocks + PTR_SIZE * index;
      assert slot == Slot(cachedBlocks, index);
      ghost var words' := words[p := words[slot]][slot := p];
      PushKeepsFreelist(areas, words, words', cachedBlocks, cachedBlockLength, regions, lists, index, p);
      PushWrites(areas, words, words', cachedBlocks, cachedBlockLength, regions, lists, registered, index, p);
      SameStartsAligned(ptr, regions, regions[p := regions[p].(role := Cached(index))]);
      words := words[p := words[slot]];
      words := words[slot := p];
      regions := regions[p := regions[p].(role := Cached(index))];
      lists := lists[index := [p] + lists[index]];
    }

    /** An array that was filed is the one the next request of its class gets, with nothing bumped. */
    method FileThenTake(p: nat, size: nat, n: nat, policy: Policy, mem: nat) returns (q: nat)
      requires Valid() && size >= 16 && IsLive(p, size) && ReturnClass(size) < cachedBlockLength
      requires n >= 16 && LeastClass(n, ReturnClass(size)) && CanGrow(n, policy, mem)
      modifies this
      ensures Valid() && q == p && bumped == old(bumped) && blocks == old(blocks)
    {
      hide AreasOk, MappedOk, RegionsOk, FreelistOk, NodesOk, TotalSize, Flatten, Pow2, Log2Floor, RequestClass,
           ReturnClass, LeastClass, UserDataKept, NewestFirst, BlockSize, FreshBlock, AnyCached, Claimed;
      FreelistSizes(words, cachedBlocks, cachedBlockLength, regions, lists);
      RegionFacts(areas, regions, p);
      ReturnArrayMemory(p, size);
      RequestsLeastClass(n, ReturnClass(size));
      assert lists[RequestClass(n)][0] == p;
      q := AllocateAligned(n, true, policy, mem);
    }

    /** `std::copy` of the old directory into the new one and `std::fill` of the rest with null. */
    static method CopyAndFill(words: map<nat, nat>, dir: nat, len: nat, p: nat, newSize: nat)
      returns (words': map<nat, nat>)
      requires len <= newSize
      requires forall i :: 0 <= i < len ==> Slot(dir, i) in words
      requires len > 0 ==> dir + PTR_SIZE * len <= p || p + PTR_SIZE * newSize <= dir
      ensures forall i :: 0 <= i < newSize ==>
                Slot(p, i) in words' && words'[Slot(p, i)] == if i < len then words[Slot(dir, i)] else 0
      ensures forall w :: w in words && (w < p || p + PTR_SIZE * newSize <= w) ==> w in words' && words'[w] == words[w]
    {
      words' := words;
      for i := 0 to len
        invariant forall j :: 0 <= j < i ==> Slot(p, j) in words' && words'[Slot(p, j)] == words[Slot(dir, j)]
        invariant forall w :: w in words && (w < p || p + PTR_SIZE * newSize <= w) ==>
                    w in words' && words'[w] == words[w]
      {
        words' := words'[Slot(p, i) := words'[Slot(dir, i)]];
      }
      for i := len to newSize
        invariant forall j :: 0 <= j < i ==>
                    Slot(p, j) in words' && words'[Slot(p, j)] == if j < len then words[Slot(dir, j)] else 0
        invariant forall w :: w in words && (w < p || p + PTR_SIZE * newSize <= w) ==>
                    w in words' && words'[w] == words[w]
      {
        words' := words'[Slot(p, i) := 0];
      }
    }

    /** Bumps the pointer up and the limit down, leaving a node for the caller to fill. */
    method AllocateAlignedWithCleanup(n: nat, policy: Policy, mem: nat) returns (p: nat, node: nat)
      requires Valid() && CanGrow(n + CLEANUP_SIZE, policy, mem)
      modifies this
      ensures Claimed(old(regions), regions, p, n) && bumped == old(bumped) + n
      ensures old(Aligned()) ==> p % 8 == 0 && (Aligned() <==> n % 8 == 0)
      ensures WholePolicy(policy) && n % 8 == 0 && old(WholeWords()) ==> WholeWords()
      ensures n > 0 ==> p !in old(regions)
      ensures ValidButForNode(node)
      ensures Registered() == old(Registered())
      ensures NewestFirst(blocks) == old(Grows(n + CLEANUP_SIZE, policy, mem) + NewestFirst(blocks))
              && words == old(words)
    {
      hide AreasOk, MappedOk, RegionsOk, FreelistOk, NodesOk, Chain, TotalSize, Flatten, Pow2, Log2Floor,
           RequestClass, ReturnClass, UserDataKept, NewestFirst;
      if !HasSpace(n + CLEANUP_SIZE) {
        AllocateNewBlock(n + CLEANUP_SIZE, policy, mem);
        FlattenNewBlock(old(registered));
      }
      p := AllocateFromExisting(n);
      MappedFacts(areas, blocks, ptr, limit);
      limit := limit - CLEANUP_SIZE;
      node := limit;
    }

    /** The state between reserving a cleanup node and filling it. */
    ghost predicate ValidButForNode(node: nat)
      reads this
    {
      && limit == node && ptr <= node
      && AreasOk(areas)
      && MappedOk(areas, blocks, ptr, node + CLEANUP_SIZE)
      && RegionsOk(areas, regions)
      && FreelistOk(words, cachedBlocks, cachedBlockLength, regions, lists)
      && NodesOk(words, areas, registered)
      && spaceAllocated == TotalSize(blocks)
      && |blocks| > 0
      && spaceUsed + (ptr - (Head().addr + BLOCK_HEADER_SIZE)) == SERIAL_ARENA_SIZE + bumped
    }

    /** Fills the reserved node: `elem` and `cleanup` are set by the caller of AllocateAlignedWithCleanup. */
    method FillNode(node: nat, elem: nat, fn: nat)
      requires ValidButForNode(node)
      modifies this
      ensures Valid()
      ensures Registered() == old(Registered()) + [Cleanup(elem, fn)]
      ensures regions == old(regions) && blocks == old(blocks) && bumped == old(bumped) && ptr == old(ptr)
      ensures UserDataKept(old(words), words, regions)
    {
      hide AreasOk, MappedOk, RegionsOk, FreelistOk, NodesOk, Chain, TotalSize, Flatten, Pow2, Log2Floor,
           RequestClass, ReturnClass, UserDataKept, NewestFirst;
      ghost var h := |areas| - 1;
      MappedFacts(areas, blocks, ptr, node + CLEANUP_SIZE);
      MappedMove(areas, blocks, ptr, node + CLEANUP_SIZE, ptr, node);
      NodeCounts(words, areas, registered);
      FlattenAppend(registered, Cleanup(elem, fn));
      NodeAdded(areas, words, registered, ptr, Cleanup(elem, fn));
      NodeStoreKeepsFreelist(areas, words, cachedBlocks, cachedBlockLength, regions, lists, node, elem, fn);
      NodeWritten(areas, regions, words, node, elem, fn);
      MoveNodes(areas, regions, node);
      words := words[node := elem];
      words := words[node + 8 := fn];
      areas := Moved(areas, ptr, node);
      registered := registered[h := registered[h] + [Cleanup(elem, fn)]];
    }

    method AddCleanup(elem: nat, fn: nat, policy: Policy, mem: nat)
      requires Valid() && CanGrow(CLEANUP_SIZE, policy, mem)
      modifies this
      ensures Valid() && regions == old(regions) && bumped == old(bumped)
      ensures Registered() == old(Registered()) + [Cleanup(elem, fn)]
      ensures NewestFirst(blocks) == old(Grows(CLEANUP_SIZE, policy, mem) + NewestFirst(blocks))
      ensures UserDataKept(old(words), words, old(regions))
      ensures old(Aligned()) ==> Aligned()
      ensures WholePolicy(policy) && old(WholeWords()) ==> WholeWords()
    {
      hide UserDataKept, NewestFirst;
      var p, node := AllocateAlignedWithCleanup(0, policy, mem);
      FillNode(node, elem, fn);
    }

    /**
     * Arena::AllocateInternal on the calling thread's SerialArena, and Arena::AllocateAligned when
     * there is no destructor: room for an object, moved up to its alignment, whose destructor is
     * registered with the object's final address. `fn` is 0 for a null destructor. From a word
     * address the object has its room; and the next one starts at a word again exactly when the
     * request is in whole words.
     */
    method AllocateInternal(size: nat, align: nat, fn: nat, policy: Policy, mem: nat) returns (obj: nat, ghost p: nat)
      requires Valid() && size > 0 && align < SIZE_LIMIT
      requires CanGrow(Needed(size, align, fn), policy, mem)
      modifies this
      ensures Valid() && obj == Placed(p, align) && AlignedTo(obj, align)
      ensures p !in old(regions) && Claimed(old(regions), regions, p, RequestSize(size, align))
      ensures bumped == old(bumped) + RequestSize(size, align)
      ensures old(Aligned()) && WholeAlign(align) ==>
                obj % 8 == 0 && p <= obj && obj + size <= p + regions[p].size
      ensures old(Aligned()) ==> (Aligned() <==> RequestSize(size, align) % 8 == 0)
      ensures Registered() == old(Registered()) + (if fn == 0 then [] else [Cleanup(obj, fn)])
      ensures NewestFirst(blocks) == old(Grows(Needed(size, align, fn), policy, mem) + NewestFirst(blocks))
      ensures UserDataKept(old(words), words, old(regions))
      ensures WholePolicy(policy) && RequestSize(size, align) % 8 == 0 && old(WholeWords()) ==> WholeWords()
    {
      hide AreasOk, MappedOk, RegionsOk, FreelistOk, NodesOk, TotalSize, Flatten, BlockSize, FreshBlock;
      hide UserDataKept, NewestFirst, WholePolicy;
      var n := RequestSize(size, align);
      if fn == 0 {
        var q := AllocateAligned(n, false, policy, mem);
        p, obj := q, Placed(q, align);
      } else {
        var q, node := AllocateAlignedWithCleanup(n, policy, mem);
        p, obj := q, Placed(q, align);
        ghost var claimed := regions;
        FillNode(node, obj, fn);
        KeptThenKept(old(words), old(words), words, old(regions), claimed);
      }
      if align > 8 {
        if IsPow2(align) { AlignToRounds(p, align); }
        if old(Aligned()) && align % 8 == 0 {
          BelowLimit(p, size, align);
          PlacedFits(p, size, align);
        }
      }
    }

    /** Memory that was claimed lies below the end of the address space, with room to move up in. */
    lemma BelowLimit(p: nat, size: nat, align: nat)
      requires Valid() && p in regions && regions[p].size == RequestSize(size, align)
      requires p % 8 == 0 && align > 8 && align % 8 == 0 && size > 0
      ensures p + align <= SIZE_LIMIT
    {
      hide AreasOk, MappedOk, RegionsOk, FreelistOk, NodesOk, TotalSize;
      RegionFacts(areas, regions, p);
    }

    /** The program storing a word into memory it was given. */
    method Store(p: nat, w: nat, x: nat)
      requires Valid() && IsLive(p, 8) && w % 8 == 0 && p <= w && w + 8 <= p + regions[p].size
      modifies this`words
      ensures Valid() && words == old(words)[w := x]
    {
      hide AreasOk, MappedOk, RegionsOk, FreelistOk, NodesOk, Chain, TotalSize, Flatten, Pow2, Log2Floor,
           RequestClass, ReturnClass, UserDataKept, NewestFirst;
      forall q | q in regions && q != p ensures w + 8 <= q || q + regions[q].size <= w {
        RegionsApart(areas, regions, p, q);
      }
      FreelistFrame(areas, words, words[w := x], cachedBlocks, cachedBlockLength, regions, lists);
      NodesFrame(areas, regions, words, words[w := x], registered);
      words := words[w := x];
    }

    /** Bytes bump-allocated for clients. */
    method SpaceUsed() returns (used: nat)
      requires Valid()
      ensures used == bumped
    {
      MappedFacts(areas, blocks, ptr, limit);
      var space := ptr - (Head().addr + BLOCK_HEADER_SIZE);
      space := space + spaceUsed;
      used := space - SERIAL_ARENA_SIZE;
    }

    /** Writes the head's node limit into its header. */
    method SyncHead()
      requires Valid()
      modifies this`blocks
      ensures Valid() && Head().start == limit && |blocks| == old(|blocks|)
      ensures forall i :: 0 <= i < |blocks| ==>
                blocks[i].addr == old(blocks[i].addr) && blocks[i].size == old(blocks[i].size)
    {
      hide AreasOk, MappedOk, RegionsOk, FreelistOk, NodesOk, TotalSize;
      TotalSizeIgnoresStart(blocks, limit);
      MappedSync(areas, blocks, ptr, limit);
      blocks := blocks[|blocks| - 1 := blocks[|blocks| - 1].(start := limit)];
    }

    /**
     * Runs the cleanups of one block, newest first. The node count is taken from the block size
     * rounded down to 8, as the source takes it.
     */
    method RunBlock(b: nat, before: seq<Event>) returns (events: seq<Event>)
      requires Valid() && b < |blocks| && Head().start == limit
      ensures b < |registered|
      ensures events == before + AsRuns(RunOf(b, blocks[b], registered[b]))
    {
      hide RegionsOk, FreelistOk, TotalSize, Flatten, SkipsCleanup, AsRuns;
      NodeCounts(words, areas, registered);
      AreaFacts(areas, b);
      var end := blocks[b].addr + AlignDownTo8(blocks[b].size);
      var it := blocks[b].start;
      var num := (end - it) / CLEANUP_SIZE;
      ghost var list := registered[b];
      ghost var n, j := |list|, 0;
      SkippedCount(b, blocks[b], n, it);
      ghost var ran := [];
      events := before;
      NothingYet(before);
      if num > 0 {
        while it < end
          invariant 0 <= j <= n && it == areas[b].nodes + CLEANUP_SIZE * j
          invariant ran == Reverse(list)[..j] && events == before + AsRuns(ran)
        {
          assert it == NodeAddr(areas[b].top, n - 1 - j);
          assert NodeHolds(words, it, list[n - 1 - j]);
          RunsOneMore(before, ran, Cleanup(words[it], words[it + 8]));
          events := events + [Ran(Cleanup(words[it], words[it + 8]))];
          ran := ran + [Cleanup(words[it], words[it + 8])];
          it := it + CLEANUP_SIZE;
          j := j + 1;
        }
      }
      assert ran == RunOf(b, blocks[b], list);
    }

    /** No block is one whose lone cleanup CleanupList would pass over. */
    ghost predicate CleanupsSeen()
      reads this
    {
      |blocks| == |registered| && NoneSkipped(blocks, registered)
    }

    /** What CleanupList will run, in order. */
    ghost function ToRun(): seq<Cleanup>
      reads this
    {
      if |blocks| == |registered| then Executed(blocks, registered) else []
    }

    /** Never more than was registered; and all of it, newest first, exactly when no block is passed over. */
    lemma ToRunIsAll()
      requires Valid()
      ensures |ToRun()| <= |Registered()| && multiset(ToRun()) <= multiset(Reverse(Registered()))
      ensures CleanupsSeen() <==> ToRun() == Reverse(Registered())
      ensures CleanupsSeen() <==> |ToRun()| == |Registered()|
      ensures WholeWords() ==> CleanupsSeen()
    {
      hide AreasOk, MappedOk, RegionsOk, FreelistOk, TotalSize, Flatten, Executed, Reverse;
      MappedSizes(areas, blocks, ptr, limit);
      NodeCounts(words, areas, registered);
      ExecutedIsReverse(blocks, registered);
      ExecutedLength(blocks, registered);
      ExecutedIsPart(blocks, registered);
      ReverseKeepsAll(Registered());
    }

    /** Runs the cleanups of every block, newest block first. */
    method CleanupList(before: seq<Event>) returns (events: seq<Event>)
      requires Valid()
      modifies this`blocks
      ensures Valid() && |blocks| == |registered| && NewestFirst(blocks) == old(NewestFirst(blocks))
      ensures events == before + AsRuns(ToRun()) && ToRun() == old(ToRun())
      ensures ToRun() == Reverse(Registered()) <==> old(CleanupsSeen())
      ensures |blocks| == old(|blocks|)
      ensures forall i :: 0 <= i < |blocks| ==>
                blocks[i].addr == old(blocks[i].addr) && blocks[i].size == old(blocks[i].size)
    {
      hide AreasOk, MappedOk, RegionsOk, FreelistOk, NodesOk, TotalSize, Flatten, SkipsCleanup,
           NoneSkipped, Executed, Reverse, AsRuns, RunOf, NewestFirst;
      SyncHead();
      NewestFirstIgnoresStart(old(blocks), blocks);
      MappedFacts(areas, blocks, ptr, limit);
      NodeCounts(words, areas, registered);
      NoneSkippedIgnoresStart(old(blocks), blocks, registered);
      ExecutedIgnoresStart(old(blocks), blocks, registered);
      events := before;
      ghost var ran := [];
      NothingYet(before);
      var b := |blocks|;
      assert blocks[..b] == blocks && registered[..b] == registered;
      while b > 0
        modifies {}
        invariant 0 <= b <= |blocks| == |registered|
        invariant events == before + AsRuns(ran)
        invariant ran + Executed(blocks[..b], registered[..b]) == Executed(blocks, registered)
      {
        b := b - 1;
        ExecutedStep(blocks, registered, b);
        events := RunBlock(b, events);
        ghost var more := RunOf(b, blocks[b], registered[b]);
        ghost var rest := Executed(blocks[..b], registered[..b]);
        RunsAppend(before, ran, more);
        assert (ran + more) + rest == ran + (more + rest);
        ran := ran + more;
      }
      ExecutedNone(blocks, registered);
      assert ran == Executed(blocks, registered);
      ExecutedIsReverse(blocks, registered);
    }

    /** Gives every block but the first back to the block allocator, newest first; the first is handed to the caller. */
    method Free(before: seq<Event>)
      returns (mem: Memory, events: seq<Event>, space: nat, ghost released: seq<Memory>)
      requires Valid()
      ensures events == before + AsReleases(released) && released + [mem] == NewestFirst(blocks)
      ensures space + mem.size == spaceAllocated
      ensures mem.addr != 0
    {
      hide AreasOk, MappedOk, RegionsOk, FreelistOk, NodesOk, AsReleases;
      BlocksAreReal();
      var b := |blocks| - 1;
      mem := Memory(blocks[b].addr, blocks[b].size);
      released, space, events := [], 0, before;
      NothingYet(before);
      assert blocks[..|blocks|] == blocks;
      while b > 0
        invariant 0 <= b < |blocks|
        invariant mem == Memory(blocks[b].addr, blocks[b].size)
        invariant events == before + AsReleases(released)
        invariant released + NewestFirst(blocks[..b + 1]) == NewestFirst(blocks)
        invariant space + TotalSize(blocks[..b + 1]) == TotalSize(blocks)
      {
        assert blocks[..b + 1][..b] == blocks[..b];
        b := b - 1;
        assert released + NewestFirst(blocks[..b + 2]) == (released + [mem]) + NewestFirst(blocks[..b + 1]);
        ReleasesOneMore(before, released, mem);
        events, space := events + [Released(mem)], space + mem.size;
        released := released + [mem];
        mem := Memory(blocks[b].addr, blocks[b].size);
      }
      assert blocks[..1] == [blocks[0]] && blocks[..1][..0] == [];
      assert NewestFirst([blocks[0]]) == [mem] && TotalSize([blocks[0]]) == blocks[0].size;
    }

    /** The blocks share no byte. */
    lemma OwnBlocksApart()
      requires Valid()
      ensures PairwiseApart(NewestFirst(blocks)) && NoneEmpty(NewestFirst(blocks))
    {
      hide FreelistOk, NodesOk, RegionsOk, TotalSize, NewestFirst;
      var list, h := NewestFirst(blocks), |blocks| - 1;
      forall i | 0 <= i < |list| ensures list[i].size > 0 {
        NewestFirstAt(blocks, i);
        assert AreaOk(areas[h - i]);
      }
      forall i, j | 0 <= i < j < |list| ensures MemApart(list[i], list[j]) {
        NewestFirstAt(blocks, i);
        NewestFirstAt(blocks, j);
        assert Apart(areas[h - j], areas[h - i]);
      }
    }

    lemma BlocksAreReal()
      requires Valid()
      ensures |blocks| > 0 && forall i :: 0 <= i < |blocks| ==> blocks[i].addr != 0
    {
      forall i | 0 <= i < |blocks| ensures blocks[i].addr != 0 {
        assert AreaOk(areas[i]) && areas[i].base == blocks[i].addr;
      }
    }

    lemma RegionInBlock(p: nat)
      requires Valid() && p in regions
      ensures regions[p].home < |blocks|
      ensures var b := blocks[regions[p].home];
              b.addr + BLOCK_HEADER_SIZE <= p && p + regions[p].size <= b.addr + b.size
    {
      RegionFacts(areas, regions, p);
    }

    /**
     * What holds of any two pieces of memory in use at once: each lies in one block above its
     * header and below that block's cleanup nodes, and no two share a byte.
     */
    lemma RegionsAreSafe(p: nat, q: nat, i: nat, k: nat)
      requires Valid() && p in regions && q in regions && p != q
      requires i < |areas| && k < |registered[i]|
      ensures ptr <= limit && (Aligned() ==> p % 8 == 0)
      ensures regions[p].home < |blocks|
      ensures var b := blocks[regions[p].home];
              b.addr + BLOCK_HEADER_SIZE <= p && p + regions[p].size <= b.addr + b.size
      ensures p + regions[p].size <= q || q + regions[q].size <= p
      ensures var w := NodeAddr(areas[i].top, k);
              && (w + CLEANUP_SIZE <= p || p + regions[p].size <= w)
              && NodeHolds(words, w, registered[i][k])
    {
      MappedFacts(areas, blocks, ptr, limit);
      NodeCounts(words, areas, registered);
      RegionFacts(areas, regions, p);
      RegionsApart(areas, regions, p, q);
      NodeApartFromRegion(areas, regions, i, |registered[i]|, k, p);
    }
  }
}
