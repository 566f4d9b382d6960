/**
 * The invariants of one SerialArena's memory, over plain values: where blocks, allocated
 * regions, cleanup nodes and the freelist lie, and what the words inside them hold.
 */
module ArenaLayout {
  import opened Bits
  import opened Sizes

  /** What is registered to run when the arena goes away: an object and the function to call on it. */
  datatype Cleanup = Cleanup(elem: nat, fn: nat)

  /** The header of a block: its address, its size, and its first cleanup node once it is no longer the head. */
  datatype Block = Block(addr: nat, size: nat, start: nat)

  /** A block as memory: objects in [lo, end), free space in [end, nodes), cleanup nodes in [nodes, top). */
  datatype Area = Area(base: nat, lo: nat, end: nat, nodes: nat, top: nat, bound: nat)

  /** Who a region of bump-allocated memory belongs to. */
  datatype Role = Live | Cached(index: nat) | Directory

  /** A region starting at its map key: its size, the ordinal of its block, and its role. */
  datatype Region = Region(size: nat, home: nat, role: Role)

  // ---------------------------------------------------------------- blocks

  ghost predicate AreaOk(a: Area) {
    && a.base % 8 == 0 && a.lo % 8 == 0
    && 0 < a.base && a.base + BLOCK_HEADER_SIZE <= a.lo
    && a.lo <= a.end <= a.nodes <= a.top <= a.bound < SIZE_LIMIT
  }

  ghost predicate Apart(a: Area, b: Area) {
    a.bound <= b.base || b.bound <= a.base
  }

  ghost predicate AreasOk(areas: seq<Area>) {
    && |areas| > 0
    && (forall i :: 0 <= i < |areas| ==> AreaOk(areas[i]))
    && (forall i, j :: 0 <= i < j < |areas| ==> Apart(areas[i], areas[j]))
  }

  /** The memory handed out by the block allocator touches no block the arena already has. */
  ghost predicate FreshBlock(areas: seq<Area>, addr: nat, size: nat) {
    && addr % 8 == 0 && addr > 0 && addr + size < SIZE_LIMIT
    && forall i :: 0 <= i < |areas| ==> areas[i].bound <= addr || addr + size <= areas[i].base
  }

  lemma AreaFacts(areas: seq<Area>, i: nat)
    requires AreasOk(areas) && i < |areas|
    ensures AreaOk(areas[i])
  {
  }

  // ---------------------------------------------------------------- regions

  ghost predicate Fits(areas: seq<Area>, p: nat, r: Region) {
    && r.size > 0 && r.home < |areas|
    && areas[r.home].lo <= p && p + r.size <= areas[r.home].end
  }

  ghost predicate RegionsOk(areas: seq<Area>, regions: map<nat, Region>) {
    && (forall p :: p in regions ==> Fits(areas, p, regions[p]))
    && (forall p, q :: p in regions && q in regions && p < q ==> p + regions[p].size <= q)
  }

  lemma RegionFacts(areas: seq<Area>, regions: map<nat, Region>, p: nat)
    requires AreasOk(areas) && RegionsOk(areas, regions) && p in regions
    ensures Fits(areas, p, regions[p]) && AreaOk(areas[regions[p].home])
    ensures 0 < p && p + regions[p].size < SIZE_LIMIT
  {
    assert Fits(areas, p, regions[p]);
  }

  lemma RegionsApart(areas: seq<Area>, regions: map<nat, Region>, p: nat, q: nat)
    requires RegionsOk(areas, regions) && p in regions && q in regions && p != q
    ensures p + regions[p].size <= q || q + regions[q].size <= p
  {
  }

  /** The head block with its bump pointer and its cleanup limit moved. */
  function Moved(areas: seq<Area>, end: nat, nodes: nat): (r: seq<Area>)
    requires |areas| > 0
    ensures |r| == |areas|
  {
    var h := |areas| - 1;
    areas[h := areas[h].(end := end, nodes := nodes)]
  }

  function Grown(areas: seq<Area>, regions: map<nat, Region>, n: nat): (r: map<nat, Region>)
    requires |areas| > 0
  {
    var h := |areas| - 1;
    if n == 0 then regions else regions[areas[h].end := Region(n, h, Live)]
  }

  /** What a request of n bytes may do to the regions: claim p, from free memory or from the freelist. */
  ghost predicate Claimed(before: map<nat, Region>, after: map<nat, Region>, p: nat, n: nat) {
    if n == 0 then after == before
    else
      && (p in before ==> before[p].role.Cached? && n <= before[p].size)
      && p in after && after[p].size == n && after[p].role == Live
      && after == before[p := after[p]]
  }

  /** Bumping the pointer by n claims a region that overlaps nothing claimed before. */
  lemma BumpIsDisjoint(areas: seq<Area>, regions: map<nat, Region>, n: nat, nodes: nat)
    requires AreasOk(areas) && RegionsOk(areas, regions)
    requires areas[|areas| - 1].end + n <= nodes <= areas[|areas| - 1].nodes
    ensures n > 0 ==> areas[|areas| - 1].end !in regions
    ensures AreasOk(Moved(areas, areas[|areas| - 1].end + n, nodes))
    ensures RegionsOk(Moved(areas, areas[|areas| - 1].end + n, nodes), Grown(areas, regions, n))
  {
    var h := |areas| - 1;
    var e, areas' := areas[h].end, Moved(areas, areas[h].end + n, nodes);
    MovedAreasOk(areas, e + n, nodes);
    forall q | q in regions ensures Fits(areas', q, regions[q]) && (q + regions[q].size <= e || areas[h].bound <= q) {
      assert Fits(areas, q, regions[q]);
      FreeOfRegions(areas, regions, q);
    }
    forall q | q in regions ensures regions[q].size > 0 { assert Fits(areas, q, regions[q]); }
    if n > 0 {
      BumpFits(areas, areas', n);
      OneMoreRegion(areas', regions, e, Region(n, h, Live), areas[h].bound);
    }
  }

  /** A region put where there is room. */
  lemma OneMoreRegion(areas: seq<Area>, regions: map<nat, Region>, p: nat, r: Region, bound: nat)
    requires forall q :: q in regions ==> Fits(areas, q, regions[q]) && regions[q].size > 0
    requires forall q, u :: q in regions && u in regions && q < u ==> q + regions[q].size <= u
    requires Fits(areas, p, r) && r.size > 0 && p + r.size <= bound
    requires forall q :: q in regions ==> q + regions[q].size <= p || bound <= q
    ensures p !in regions && RegionsOk(areas, regions[p := r])
  {
    hide Fits;
  }

  lemma BumpFits(areas: seq<Area>, areas': seq<Area>, n: nat)
    requires AreasOk(areas) && n > 0 && areas[|areas| - 1].end + n <= areas[|areas| - 1].nodes
    requires var h := |areas| - 1;
             |areas'| == |areas| && areas'[h] == areas[h].(end := areas[h].end + n, nodes := areas'[h].nodes)
    ensures Fits(areas', areas[|areas| - 1].end, Region(n, |areas| - 1, Live))
    ensures areas[|areas| - 1].end + n <= areas[|areas| - 1].bound
  {
    assert AreaOk(areas[|areas| - 1]);
  }

  lemma MovedAreasOk(areas: seq<Area>, end: nat, nodes: nat)
    requires AreasOk(areas)
    requires areas[|areas| - 1].end <= end <= nodes <= areas[|areas| - 1].nodes
    ensures AreasOk(Moved(areas, end, nodes))
  {
    var areas' := Moved(areas, end, nodes);
    forall i, j | 0 <= i < j < |areas'| ensures Apart(areas'[i], areas'[j]) {
      assert Apart(areas[i], areas[j]);
    }
  }

  /** No region reaches into the head block's free space. */
  lemma FreeOfRegions(areas: seq<Area>, regions: map<nat, Region>, q: nat)
    requires AreasOk(areas) && RegionsOk(areas, regions) && q in regions
    ensures q + regions[q].size <= areas[|areas| - 1].end || areas[|areas| - 1].bound <= q
  {
    var h := |areas| - 1;
    assert Fits(areas, q, regions[q]);
    var i := regions[q].home;
    assert AreaOk(areas[i]) && AreaOk(areas[h]);
    if i < h { assert Apart(areas[i], areas[h]); }
  }

  lemma RegionsSurviveNewBlock(areas: seq<Area>, regions: map<nat, Region>, a: Area)
    requires AreasOk(areas) && RegionsOk(areas, regions) && AreaOk(a)
    requires FreshBlock(areas, a.base, a.bound - a.base)
    ensures AreasOk(areas + [a]) && RegionsOk(areas + [a], regions)
  {
    var areas' := areas + [a];
    forall i, j | 0 <= i < j < |areas'| ensures Apart(areas'[i], areas'[j]) {
      if j < |areas| { assert Apart(areas[i], areas[j]); }
    }
    forall q | q in regions ensures Fits(areas', q, regions[q]) {
      assert Fits(areas, q, regions[q]);
    }
  }

  // ---------------------------------------------------------------- freelist

  /** The words from `head` on form a null-terminated list through the first words of the listed blocks. */
  ghost predicate Chain(words: map<nat, nat>, head: nat, list: seq<nat>)
    decreases |list|
  {
    if list == [] then head == 0
    else head == list[0] && head != 0 && head in words && Chain(words, words[head], list[1..])
  }

  ghost predicate NoDup(list: seq<nat>) {
    forall i, j :: 0 <= i < j < |list| ==> list[i] != list[j]
  }

  /** Entry i of the freelist directory. */
  function Slot(dir: nat, i: nat): nat { dir + PTR_SIZE * i }

  ghost predicate DirectoryOk(words: map<nat, nat>, dir: nat, len: nat, regions: map<nat, Region>, lists: seq<seq<nat>>)
  {
    && len <= 64 && |lists| == len
    && (len > 0 ==> dir in regions && regions[dir].role == Directory && regions[dir].size >= PTR_SIZE * len)
    && (forall i :: 0 <= i < len ==> Slot(dir, i) in words && Chain(words, words[Slot(dir, i)], lists[i]))
    && (forall p :: p in regions && regions[p].role == Directory ==> p == dir && len > 0)
  }

  ghost predicate Filed(regions: map<nat, Region>, i: nat, p: nat) {
    p in regions && regions[p].role == Cached(i) && regions[p].size >= Pow2(i + 4)
  }

  /** List i holds exactly the regions cached under index i, each at least as large as the class promises. */
  ghost predicate ListsOk(regions: map<nat, Region>, lists: seq<seq<nat>>) {
    && (forall i, k :: 0 <= i < |lists| && 0 <= k < |lists[i]| ==> Filed(regions, i, lists[i][k]))
    && (forall i :: 0 <= i < |lists| ==> NoDup(lists[i]))
    && (forall p :: p in regions && regions[p].role.Cached? ==>
          regions[p].role.index < |lists| && p in lists[regions[p].role.index])
  }

  ghost predicate FreelistOk(words: map<nat, nat>, dir: nat, len: nat, regions: map<nat, Region>, lists: seq<seq<nat>>)
  {
    DirectoryOk(words, dir, len, regions, lists) && ListsOk(regions, lists)
  }

  /** A directory entry holds the first block of its list, or null. */
  lemma DirectoryEntry(words: map<nat, nat>, dir: nat, len: nat, regions: map<nat, Region>, lists: seq<seq<nat>>,
                       i: nat)
    requires FreelistOk(words, dir, len, regions, lists) && i < len
    ensures |lists| == len && Slot(dir, i) in words
    ensures dir in regions && regions[dir].role == Directory && regions[dir].size >= PTR_SIZE * len
    ensures words[Slot(dir, i)] == if lists[i] == [] then 0 else lists[i][0]
    ensures words[Slot(dir, i)] != 0 <==> lists[i] != []
    ensures lists[i] != [] ==> words[Slot(dir, i)] in words
  {
    assert Chain(words, words[Slot(dir, i)], lists[i]);
  }

  lemma FreelistSizes(words: map<nat, nat>, dir: nat, len: nat, regions: map<nat, Region>, lists: seq<seq<nat>>)
    requires FreelistOk(words, dir, len, regions, lists)
    ensures |lists| == len <= 64
    ensures len > 0 ==> dir in regions && regions[dir].role == Directory && regions[dir].size >= PTR_SIZE * len
    ensures forall i :: 0 <= i < len ==> Slot(dir, i) in words
  {
  }

  lemma FreelistHoldsLists(words: map<nat, nat>, dir: nat, len: nat, regions: map<nat, Region>, lists: seq<seq<nat>>)
    requires FreelistOk(words, dir, len, regions, lists)
    ensures ListsOk(regions, lists)
  {
  }

  /** A list reads only the first words of its blocks. */
  lemma {:induction false} ChainFrame(words: map<nat, nat>, words': map<nat, nat>, head: nat, list: seq<nat>)
    requires Chain(words, head, list)
    requires forall k :: 0 <= k < |list| && list[k] in words ==> list[k] in words' && words'[list[k]] == words[list[k]]
    ensures Chain(words', head, list)
    decreases |list|
  {
    if list != [] {
      assert list[0] in words;
      forall k | 0 <= k < |list[1..]| && list[1..][k] in words
        ensures list[1..][k] in words' && words'[list[1..][k]] == words[list[1..][k]]
      {
        assert list[1..][k] == list[k + 1];
      }
      ChainFrame(words, words', words[head], list[1..]);
    }
  }

  /** An entry of the directory lies inside it, and so apart from every other region's words. */
  lemma SlotInside(areas: seq<Area>, regions: map<nat, Region>, dir: nat, i: nat, p: nat)
    requires RegionsOk(areas, regions)
    requires dir in regions && regions[dir].size >= PTR_SIZE * (i + 1)
    requires p in regions && p != dir
    ensures Slot(dir, i) + PTR_SIZE <= p || p + regions[p].size <= Slot(dir, i)
  {
  }

  /** Storing into one live region, or at addresses no region covers, leaves the freelist as it is. */
  lemma FreelistFrame(areas: seq<Area>, words: map<nat, nat>, words': map<nat, nat>, dir: nat, len: nat,
                      regions: map<nat, Region>, lists: seq<seq<nat>>)
    requires RegionsOk(areas, regions)
    requires FreelistOk(words, dir, len, regions, lists)
    requires forall p, w :: p in regions && !regions[p].role.Live? && p <= w < p + regions[p].size && w in words
               ==> w in words' && words'[w] == words[w]
    ensures FreelistOk(words', dir, len, regions, lists)
  {
    forall i | 0 <= i < len
      ensures Slot(dir, i) in words' && Chain(words', words'[Slot(dir, i)], lists[i])
    {
      assert dir <= Slot(dir, i) < dir + regions[dir].size;
      forall k | 0 <= k < |lists[i]| && lists[i][k] in words
        ensures lists[i][k] in words' && words'[lists[i][k]] == words[lists[i][k]]
      {
        var p := lists[i][k];
        assert p in regions && regions[p].role == Cached(i) && regions[p].size > 0 by {
          assert Fits(areas, p, regions[p]);
        }
      }
      ChainFrame(words, words', words[Slot(dir, i)], lists[i]);
    }
  }

  /** The roles and sizes of regions outside the freelist do not matter to it. */
  lemma FreelistIgnoresLive(words: map<nat, nat>, dir: nat, len: nat,
                            regions: map<nat, Region>, lists: seq<seq<nat>>, p: nat, r: Region)
    requires FreelistOk(words, dir, len, regions, lists)
    requires r.role == Live && (p in regions ==> regions[p].role == Live)
    ensures FreelistOk(words, dir, len, regions[p := r], lists)
  {
  }

  /** The block a request of `size` bytes may take from the freelist, or null. */
  ghost function Candidate(lists: seq<seq<nat>>, size: nat): nat {
    if size < 16 || RequestClass(size) >= |lists| || lists[RequestClass(size)] == [] then 0
    else lists[RequestClass(size)][0]
  }

  ghost predicate AnyCached(regions: map<nat, Region>, k: nat) {
    exists p :: p in regions && regions[p].role == Cached(k)
  }

  /**
   * A request is served from the freelist exactly when there is a cached array of the least class
   * that is large enough, and never below 16 bytes; what it gets is such an array.
   */
  lemma CandidateIsCached(areas: seq<Area>, regions: map<nat, Region>, lists: seq<seq<nat>>, size: nat)
    requires AreasOk(areas) && RegionsOk(areas, regions) && ListsOk(regions, lists)
    ensures size < 16 ==> Candidate(lists, size) == 0
    ensures forall k :: size >= 16 && LeastClass(size, k) ==> (Candidate(lists, size) != 0 <==> AnyCached(regions, k))
    ensures forall k :: LeastClass(size, k) && Candidate(lists, size) != 0 ==>
              Candidate(lists, size) in regions && regions[Candidate(lists, size)].role == Cached(k)
  {
    if size >= 16 {
      var c := RequestClass(size);
      hide Pow2, RequestClass, LeastClass, AreasOk, RegionsOk;
      forall k: nat | LeastClass(size, k) ensures k == c { RequestsLeastClass(size, k); }
      forall p | p in regions ensures p != 0 { RegionFacts(areas, regions, p); }
      if c < |lists| && lists[c] != [] {
        assert Filed(regions, c, lists[c][0]);
      }
    }
  }

  // ---------------------------------------------------------------- popping and pushing cached blocks

  /** Taking the first block of list `index`. */
  lemma PopKeepsFreelist(areas: seq<Area>, words: map<nat, nat>, words': map<nat, nat>, dir: nat, len: nat,
                         regions: map<nat, Region>, lists: seq<seq<nat>>, index: nat, size: nat)
    requires RegionsOk(areas, regions) && FreelistOk(words, dir, len, regions, lists)
    requires index < len && words[Slot(dir, index)] != 0
    requires words[Slot(dir, index)] in words
    requires words' == words[Slot(dir, index) := words[words[Slot(dir, index)]]]
    requires 0 < size <= Pow2(index + 4)
    ensures var p := words[Slot(dir, index)];
            && p in regions && regions[p].role == Cached(index) && size <= regions[p].size
            && |lists[index]| > 0
            && var regions' := regions[p := Region(size, regions[p].home, Live)];
            && RegionsOk(areas, regions')
            && FreelistOk(words', dir, len, regions', lists[index := lists[index][1..]])
  {
    var p := words[Slot(dir, index)];
    var list := lists[index];
    assert Chain(words, p, list);
    assert list != [] && list[0] == p;
    assert regions[p].role == Cached(index);
    var regions' := regions[p := Region(size, regions[p].home, Live)];
    var lists' := lists[index := list[1..]];
    forall q | q in regions' ensures Fits(areas, q, regions'[q]) {
      assert Fits(areas, q, regions[q]);
    }
    PopKeepsLists(regions, regions', lists, index, p);
    forall i | 0 <= i < len
      ensures Slot(dir, i) in words' && Chain(words', words'[Slot(dir, i)], lists'[i])
    {
      PopKeepsChain(areas, words, words', dir, len, regions, lists, index, i);
    }
    hide Chain, ListsOk, RegionsOk, Fits;
  }

  lemma PopKeepsChain(areas: seq<Area>, words: map<nat, nat>, words': map<nat, nat>, dir: nat, len: nat,
                      regions: map<nat, Region>, lists: seq<seq<nat>>, index: nat, i: nat)
    requires RegionsOk(areas, regions) && FreelistOk(words, dir, len, regions, lists)
    requires index < len && i < len && words[Slot(dir, index)] != 0 && words[Slot(dir, index)] in words
    requires words' == words[Slot(dir, index) := words[words[Slot(dir, index)]]]
    ensures |lists[index]| > 0
    ensures Slot(dir, i) in words' && Chain(words', words'[Slot(dir, i)], lists[index := lists[index][1..]][i])
  {
    hide RegionsOk;
    assert Chain(words, words[Slot(dir, index)], lists[index]);
    assert Chain(words, words[Slot(dir, i)], lists[i]);
    forall k | 0 <= k < |lists[i]| ensures lists[i][k] != Slot(dir, index) {
      assert Filed(regions, i, lists[i][k]);
      SlotInside(areas, regions, dir, index, lists[i][k]);
    }
    hide ListsOk;
    if i == index {
      ChainFrame(words, words', words[words[Slot(dir, index)]], lists[i][1..]);
    } else {
      ChainFrame(words, words', words[Slot(dir, i)], lists[i]);
    }
  }

  lemma PopKeepsLists(regions: map<nat, Region>, regions': map<nat, Region>, lists: seq<seq<nat>>, index: nat, p: nat)
    requires ListsOk(regions, lists)
    requires index < |lists| && |lists[index]| > 0 && lists[index][0] == p
    requires p in regions && p in regions' && regions' == regions[p := regions'[p]] && regions'[p].role == Live
    ensures ListsOk(regions', lists[index := lists[index][1..]])
  {
    var list := lists[index];
    var lists' := lists[index := list[1..]];
    forall i, k | 0 <= i < |lists'| && 0 <= k < |lists'[i]|
      ensures Filed(regions', i, lists'[i][k])
    {
      if i == index {
        assert lists'[i][k] == list[k + 1];
        assert NoDup(list);
        assert list[0] != list[k + 1];
      } else {
        assert Filed(regions, i, lists[i][k]);
        assert regions[p].role == Cached(index) by { assert Filed(regions, index, lists[index][0]); }
      }
    }
    assert NoDup(list[1..]) by { assert NoDup(list); }
    forall q | q in regions' && regions'[q].role.Cached?
      ensures regions'[q].role.index < |lists'| && q in lists'[regions'[q].role.index]
    {
      var i := regions[q].role.index;
      assert q in lists[i];
      var k :| 0 <= k < |lists[i]| && lists[i][k] == q;
      if i == index { assert k > 0; assert list[1..][k - 1] == q; }
    }
  }

  /** Filing the live region p under list `index`. */
  lemma PushKeepsFreelist(areas: seq<Area>, words: map<nat, nat>, words': map<nat, nat>, dir: nat, len: nat,
                          regions: map<nat, Region>, lists: seq<seq<nat>>, index: nat, p: nat)
    requires RegionsOk(areas, regions) && FreelistOk(words, dir, len, regions, lists)
    requires index < len && p in regions && regions[p].role == Live && p > 0
    requires regions[p].size >= Pow2(index + 4)
    requires words' == words[p := words[Slot(dir, index)]][Slot(dir, index) := p]
    ensures RegionsOk(areas, regions[p := regions[p].(role := Cached(index))])
    ensures FreelistOk(words', dir, len, regions[p := regions[p].(role := Cached(index))],
                       lists[index := [p] + lists[index]])
  {
    var regions' := regions[p := regions[p].(role := Cached(index))];
    var lists' := lists[index := [p] + lists[index]];
    forall q | q in regions' ensures Fits(areas, q, regions'[q]) {
      assert Fits(areas, q, regions[q]);
    }
    PushKeepsLists(regions, lists, index, p);
    forall i | 0 <= i < len
      ensures Slot(dir, i) in words' && Chain(words', words'[Slot(dir, i)], lists'[i])
    {
      SlotInside(areas, regions, dir, i, p);
      assert Fits(areas, p, regions[p]);
      assert Slot(dir, i) != p;
      assert Chain(words, words[Slot(dir, i)], lists[i]);
      forall k | 0 <= k < |lists[i]| ensures lists[i][k] != Slot(dir, index) && lists[i][k] != p {
        assert Filed(regions, i, lists[i][k]);
        SlotInside(areas, regions, dir, index, lists[i][k]);
        assert Fits(areas, lists[i][k], regions[lists[i][k]]);
      }
      ChainFrame(words, words', words[Slot(dir, i)], lists[i]);
      if i == index {
        SlotInside(areas, regions, dir, index, p);
        assert words'[p] == words[Slot(dir, index)];
        assert lists'[i][1..] == lists[i];
      }
    }
  }

  lemma PushKeepsLists(regions: map<nat, Region>, lists: seq<seq<nat>>, index: nat, p: nat)
    requires ListsOk(regions, lists)
    requires index < |lists| && p in regions && regions[p].role == Live && regions[p].size >= Pow2(index + 4)
    ensures ListsOk(regions[p := regions[p].(role := Cached(index))], lists[index := [p] + lists[index]])
  {
    var regions' := regions[p := regions[p].(role := Cached(index))];
    var list := lists[index];
    var lists' := lists[index := [p] + list];
    forall i, k | 0 <= i < |lists'| && 0 <= k < |lists'[i]|
      ensures Filed(regions', i, lists'[i][k])
    {
      if i == index {
        if k > 0 { assert lists'[i][k] == list[k - 1]; }
      } else {
        assert Filed(regions, i, lists[i][k]);
      }
    }
    forall i | 0 <= i < |lists'| ensures NoDup(lists'[i]) {
      assert NoDup(lists[i]);
      forall j | 0 <= j < |lists[i]| ensures lists[i][j] != p {
        assert Filed(regions, i, lists[i][j]);
      }
    }
    forall q | q in regions' && regions'[q].role.Cached?
      ensures regions'[q].role.index < |lists'| && q in lists'[regions'[q].role.index]
    {
      if q == p {
        assert lists'[index][0] == p;
      } else {
        var i := regions[q].role.index;
        assert q in lists[i];
        if i == index { assert q in [p] + list; }
      }
    }
  }

  // ---------------------------------------------------------------- a larger directory

  /** A returned array is large enough to be a directory that reaches its own size class. */
  lemma DirectoryCovers(size: nat)
    requires 16 <= size < SIZE_LIMIT
    ensures ReturnClass(size) < size / PTR_SIZE
    ensures ReturnClass(size) < 60
  {
    hide Pow2, Log2Floor;
    var c := ReturnClass(size);
    Pow2Double(c + 1);
    Pow2Double(c + 2);
    Pow2Double(c + 3);
    assert size / PTR_SIZE >= Pow2(c + 1);
    SizeBits(size, 64);
  }

  lemma SizeBits(size: nat, bits: nat)
    requires 0 < size < SIZE_LIMIT && bits == 64
    ensures Log2Floor(size) < bits
  {
    hide Pow2, Log2Floor;
    Pow2Of64(bits);
    Log2Below(size, bits);
  }

  /** The regions after p has become the directory: the old directory is given up. */
  function Promoted(regions: map<nat, Region>, dir: nat, len: nat, p: nat): (r: map<nat, Region>)
    requires p in regions
  {
    (if len > 0 then regions - {dir} else regions)[p := regions[p].(role := Directory)]
  }

  /** The lists after the directory has grown: the old ones at their old indices, empty ones above. */
  function Extended(lists: seq<seq<nat>>, len: nat): (r: seq<seq<nat>>)
    requires |lists| <= len
    ensures |r| == len
    ensures forall i :: 0 <= i < len ==> r[i] == if i < |lists| then lists[i] else []
  {
    lists + seq(len - |lists|, i => [])
  }

  lemma EmptyChain(words: map<nat, nat>)
    ensures Chain(words, 0, [])
  {
  }

  /** No list runs through memory that is in use. */
  lemma ChainSurvivesPromotion(areas: seq<Area>, words: map<nat, nat>, words': map<nat, nat>, dir: nat, len: nat,
                               regions: map<nat, Region>, lists: seq<seq<nat>>, p: nat, size: nat, i: nat)
    requires RegionsOk(areas, regions) && FreelistOk(words, dir, len, regions, lists)
    requires p in regions && regions[p].role == Live && size <= regions[p].size && i < len
    requires forall w :: w in words && (w < p || p + size <= w) ==> w in words' && words'[w] == words[w]
    ensures Slot(dir, i) in words && |lists| == len && Chain(words', words[Slot(dir, i)], lists[i])
  {
    forall k | 0 <= k < |lists[i]| && lists[i][k] in words
      ensures lists[i][k] in words' && words'[lists[i][k]] == words[lists[i][k]]
    {
      var q := lists[i][k];
      assert Filed(regions, i, q);
      assert Fits(areas, q, regions[q]) && Fits(areas, p, regions[p]);
    }
    ChainFrame(words, words', words[Slot(dir, i)], lists[i]);
  }

  /** Copying the old entries and clearing the rest turns the returned region p into the directory. */
  lemma PromoteKeepsFreelist(areas: seq<Area>, words: map<nat, nat>, words': map<nat, nat>, dir: nat, len: nat,
                             regions: map<nat, Region>, lists: seq<seq<nat>>, p: nat, size: nat, len': nat)
    requires RegionsOk(areas, regions) && FreelistOk(words, dir, len, regions, lists)
    requires p in regions && regions[p].role == Live && size <= regions[p].size
    requires len <= len' <= 64 && 0 < len' <= size / PTR_SIZE
    requires forall i :: 0 <= i < len' ==>
               (Slot(p, i) in words' && words'[Slot(p, i)] == if i < len then words[Slot(dir, i)] else 0)
    requires forall w :: w in words && (w < p || p + size <= w) ==> w in words' && words'[w] == words[w]
    ensures RegionsOk(areas, Promoted(regions, dir, len, p))
    ensures FreelistOk(words', p, len', Promoted(regions, dir, len, p), Extended(lists, len'))
  {
    hide ListsOk, Pow2, Chain, Slot;
    var regions' := Promoted(regions, dir, len, p);
    var lists' := Extended(lists, len');
    forall q | q in regions' ensures Fits(areas, q, regions'[q]) {
      assert Fits(areas, q, regions[q]);
    }
    forall i | 0 <= i < len'
      ensures Slot(p, i) in words' && Chain(words', words'[Slot(p, i)], lists'[i])
    {
      if i < len {
        ChainSurvivesPromotion(areas, words, words', dir, len, regions, lists, p, size, i);
      } else {
        EmptyChain(words');
      }
    }
    PromoteKeepsLists(regions, regions', lists, dir, len, p, len');
  }

  lemma PromoteKeepsLists(regions: map<nat, Region>, regions': map<nat, Region>, lists: seq<seq<nat>>,
                          dir: nat, len: nat, p: nat, len': nat)
    requires ListsOk(regions, lists) && |lists| == len <= len'
    requires p in regions && regions[p].role == Live
    requires len > 0 ==> dir in regions && regions[dir].role == Directory
    requires regions' == Promoted(regions, dir, len, p)
    ensures ListsOk(regions', Extended(lists, len'))
  {
    var lists' := Extended(lists, len');
    forall i, k | 0 <= i < |lists'| && 0 <= k < |lists'[i]|
      ensures Filed(regions', i, lists'[i][k])
    {
      assert i < len;
      assert Filed(regions, i, lists[i][k]);
    }
    forall i | 0 <= i < |lists'| ensures NoDup(lists'[i]) {
      if i < len { assert NoDup(lists[i]); }
    }
    forall q | q in regions' && regions'[q].role.Cached?
      ensures regions'[q].role.index < |lists'| && q in lists'[regions'[q].role.index]
    {
      assert q in lists[regions[q].role.index];
    }
  }

  // ---------------------------------------------------------------- cleanup nodes

  /** Node k, in order of registration, of a block: nodes are laid down from the top. */
  function NodeAddr(top: nat, k: nat): int { top - CLEANUP_SIZE * (k + 1) }

  ghost predicate NodeHolds(words: map<nat, nat>, w: int, c: Cleanup) {
    w >= 0 && w in words && w + 8 in words && words[w] == c.elem && words[w + 8] == c.fn
  }

  /** Block i holds the cleanups registered while it was the head, in order, and nothing else. */
  ghost predicate NodesOk(words: map<nat, nat>, areas: seq<Area>, registered: seq<seq<Cleanup>>) {
    && |registered| == |areas|
    && (forall i :: 0 <= i < |areas| ==> areas[i].top - areas[i].nodes == CLEANUP_SIZE * |registered[i]|)
    && (forall i, k :: 0 <= i < |areas| && 0 <= k < |registered[i]| ==>
          NodeHolds(words, NodeAddr(areas[i].top, k), registered[i][k]))
  }

  lemma NodeCounts(words: map<nat, nat>, areas: seq<Area>, registered: seq<seq<Cleanup>>)
    requires NodesOk(words, areas, registered)
    ensures |registered| == |areas|
    ensures forall i :: 0 <= i < |areas| ==> areas[i].top - areas[i].nodes == CLEANUP_SIZE * |registered[i]|
  {
  }

  lemma NodesSurviveNewBlock(words: map<nat, nat>, areas: seq<Area>, registered: seq<seq<Cleanup>>, a: Area)
    requires NodesOk(words, areas, registered) && a.top == a.nodes
    ensures NodesOk(words, areas + [a], registered + [[]])
  {
    forall i, k | 0 <= i < |areas + [a]| && 0 <= k < |(registered + [[]])[i]|
      ensures NodeHolds(words, NodeAddr((areas + [a])[i].top, k), (registered + [[]])[i][k])
    {
      assert NodeHolds(words, NodeAddr(areas[i].top, k), registered[i][k]);
    }
  }

  /** Bumping the pointer alone moves no node. */
  lemma NodesSurviveBump(words: map<nat, nat>, areas: seq<Area>, registered: seq<seq<Cleanup>>, end: nat)
    requires NodesOk(words, areas, registered) && |areas| > 0
    ensures NodesOk(words, Moved(areas, end, areas[|areas| - 1].nodes), registered)
  {
    var areas' := Moved(areas, end, areas[|areas| - 1].nodes);
    forall i, k | 0 <= i < |areas| && 0 <= k < |registered[i]|
      ensures NodeHolds(words, NodeAddr(areas'[i].top, k), registered[i][k])
    {
      assert NodeHolds(words, NodeAddr(areas[i].top, k), registered[i][k]);
    }
  }

  lemma NodeInside(areas: seq<Area>, i: nat, n: nat, k: nat)
    requires AreasOk(areas) && i < |areas| && k < n
    requires areas[i].top - areas[i].nodes == CLEANUP_SIZE * n
    ensures areas[i].nodes <= NodeAddr(areas[i].top, k)
    ensures NodeAddr(areas[i].top, k) + CLEANUP_SIZE <= areas[i].top
    ensures k == n - 1 ==> NodeAddr(areas[i].top, k) == areas[i].nodes
  {
  }

  /** Memory of a region and memory of a cleanup node are never the same word. */
  lemma NodeApartFromRegion(areas: seq<Area>, regions: map<nat, Region>, i: nat, n: nat, k: nat, p: nat)
    requires AreasOk(areas) && RegionsOk(areas, regions) && p in regions
    requires i < |areas| && k < n && areas[i].top - areas[i].nodes == CLEANUP_SIZE * n
    ensures var w := NodeAddr(areas[i].top, k); w + CLEANUP_SIZE <= p || p + regions[p].size <= w
  {
    NodeInside(areas, i, n, k);
    assert Fits(areas, p, regions[p]);
    var j := regions[p].home;
    assert AreaOk(areas[i]) && AreaOk(areas[j]);
    if i < j { assert Apart(areas[i], areas[j]); }
    if j < i { assert Apart(areas[j], areas[i]); }
  }

  /** Storing inside regions does not disturb the cleanup nodes. */
  lemma NodesFrame(areas: seq<Area>, regions: map<nat, Region>, words: map<nat, nat>, words': map<nat, nat>,
                   registered: seq<seq<Cleanup>>)
    requires AreasOk(areas) && RegionsOk(areas, regions) && NodesOk(words, areas, registered)
    requires forall w :: w in words && (w !in words' || words'[w] != words[w]) ==>
               exists p :: p in regions && p <= w < p + regions[p].size
    ensures NodesOk(words', areas, registered)
  {
    forall i, k | 0 <= i < |areas| && 0 <= k < |registered[i]|
      ensures NodeHolds(words', NodeAddr(areas[i].top, k), registered[i][k])
    {
      var w := NodeAddr(areas[i].top, k);
      assert NodeHolds(words, w, registered[i][k]);
      forall p | p in regions ensures !(p <= w < p + regions[p].size) && !(p <= w + 8 < p + regions[p].size) {
        NodeApartFromRegion(areas, regions, i, |registered[i]|, k, p);
      }
    }
  }

  /** Filling a node just below the old ones registers one more cleanup with the head block. */
  lemma NodeAdded(areas: seq<Area>, words: map<nat, nat>, registered: seq<seq<Cleanup>>, end: nat, c: Cleanup)
    requires AreasOk(areas) && NodesOk(words, areas, registered)
    requires areas[|areas| - 1].nodes - CLEANUP_SIZE >= end
    ensures var h := |areas| - 1;
            var w := areas[h].nodes - CLEANUP_SIZE;
            NodesOk(words[w := c.elem][w + 8 := c.fn], Moved(areas, end, w), registered[h := registered[h] + [c]])
  {
    var h := |areas| - 1;
    var w := areas[h].nodes - CLEANUP_SIZE;
    var words' := words[w := c.elem][w + 8 := c.fn];
    var areas', registered' := Moved(areas, end, w), registered[h := registered[h] + [c]];
    assert w == NodeAddr(areas[h].top, |registered[h]|);
    forall i, k | 0 <= i < |areas'| && 0 <= k < |registered'[i]|
      ensures NodeHolds(words', NodeAddr(areas'[i].top, k), registered'[i][k])
    {
      if i < h || k < |registered[h]| {
        var v := NodeAddr(areas[i].top, k);
        assert NodeHolds(words, v, registered[i][k]);
        NodeInside(areas, i, |registered[i]|, k);
        assert AreaOk(areas[i]) && AreaOk(areas[h]);
        if i < h { assert Apart(areas[i], areas[h]); }
        assert v + CLEANUP_SIZE <= w || w + CLEANUP_SIZE <= v;
      }
    }
  }

  /** Storing below the nodes, in free memory, changes no freelist word. */
  lemma NodeStoreKeepsFreelist(areas: seq<Area>, words: map<nat, nat>, dir: nat, len: nat,
                               regions: map<nat, Region>, lists: seq<seq<nat>>, w: nat, x: nat, y: nat)
    requires AreasOk(areas) && RegionsOk(areas, regions) && FreelistOk(words, dir, len, regions, lists)
    requires areas[|areas| - 1].end <= w && w + CLEANUP_SIZE <= areas[|areas| - 1].top
    ensures FreelistOk(words[w := x][w + 8 := y], dir, len, regions, lists)
  {
    hide AreasOk, RegionsOk, FreelistOk;
    forall p | p in regions ensures p + regions[p].size <= w || w + CLEANUP_SIZE <= p {
      RegionBesideNodes(areas, regions, w, p);
    }
    FreelistFrame(areas, words, words[w := x][w + 8 := y], dir, len, regions, lists);
  }

  /** No region reaches into the room for nodes of the newest block. */
  lemma RegionBesideNodes(areas: seq<Area>, regions: map<nat, Region>, w: nat, p: nat)
    requires AreasOk(areas) && RegionsOk(areas, regions) && p in regions
    requires areas[|areas| - 1].end <= w && w + CLEANUP_SIZE <= areas[|areas| - 1].top
    ensures p + regions[p].size <= w || w + CLEANUP_SIZE <= p
  {
    var h, j := |areas| - 1, regions[p].home;
    assert Fits(areas, p, regions[p]);
    assert AreaOk(areas[j]) && AreaOk(areas[h]);
    if j < h { assert Apart(areas[j], areas[h]); }
  }

  /** Lowering the cleanup limit alone moves no region. */
  lemma MoveNodes(areas: seq<Area>, regions: map<nat, Region>, nodes: nat)
    requires AreasOk(areas) && RegionsOk(areas, regions)
    requires areas[|areas| - 1].end <= nodes <= areas[|areas| - 1].nodes
    ensures AreasOk(Moved(areas, areas[|areas| - 1].end, nodes))
    ensures RegionsOk(Moved(areas, areas[|areas| - 1].end, nodes), regions)
  {
    BumpIsDisjoint(areas, regions, 0, nodes);
  }

  // ---------------------------------------------------------------- what the program keeps in its memory

  ghost predicate InLive(regions: map<nat, Region>, p: nat, w: nat) {
    p in regions && regions[p].role == Live && p <= w < p + regions[p].size
  }

  /** Every word the program has in memory it holds is as it was. */
  ghost predicate UserDataKept(words: map<nat, nat>, words': map<nat, nat>, regions: map<nat, Region>) {
    forall p, w :: InLive(regions, p, w) && w in words ==> w in words' && words'[w] == words[w]
  }

  lemma NothingWritten(words: map<nat, nat>, regions: map<nat, Region>)
    ensures UserDataKept(words, words, regions)
  {
  }

  lemma KeptThenKept(words: map<nat, nat>, words': map<nat, nat>, words'': map<nat, nat>,
                     regions: map<nat, Region>, more: map<nat, Region>)
    requires UserDataKept(words, words', regions) && UserDataKept(words', words'', more)
    requires forall p :: p in regions ==> p in more && more[p] == regions[p]
    ensures UserDataKept(words, words'', regions)
  {
    forall p, w | InLive(regions, p, w) && w in words ensures w in words'' && words''[w] == words[w] {
      assert InLive(more, p, w);
    }
  }

  /** Writing inside one region changes no other, and nothing of the program's when that region is the freelist's. */
  lemma WrittenInside(areas: seq<Area>, regions: map<nat, Region>, words: map<nat, nat>, words': map<nat, nat>, q: nat)
    requires RegionsOk(areas, regions) && q in regions
    requires forall w :: w in words && (w < q || q + regions[q].size <= w) ==> w in words' && words'[w] == words[w]
    ensures UserDataKept(words, words', regions - {q})
    ensures regions[q].role != Live ==> UserDataKept(words, words', regions)
  {
    forall p, w | InLive(regions, p, w) && p != q && w in words ensures w in words' && words'[w] == words[w] {
      RegionsApart(areas, regions, p, q);
    }
  }

  /** Nor does filling in a node. */
  lemma NodeWritten(areas: seq<Area>, regions: map<nat, Region>, words: map<nat, nat>, n: nat, x: nat, y: nat)
    requires AreasOk(areas) && RegionsOk(areas, regions)
    requires areas[|areas| - 1].end <= n && n + CLEANUP_SIZE <= areas[|areas| - 1].top
    ensures UserDataKept(words, words[n := x][n + 8 := y], regions)
  {
    hide AreasOk, RegionsOk;
    forall p, w | InLive(regions, p, w) && w in words ensures w != n && w != n + 8 {
      RegionBesideNodes(areas, regions, n, p);
    }
  }

  /** Filing an array writes its own first word and the directory entry: nodes and the program's other data stay. */
  lemma PushWrites(areas: seq<Area>, words: map<nat, nat>, words': map<nat, nat>, dir: nat, len: nat,
                   regions: map<nat, Region>,
                   lists: seq<seq<nat>>, registered: seq<seq<Cleanup>>, index: nat, p: nat)
    requires AreasOk(areas) && RegionsOk(areas, regions) && FreelistOk(words, dir, len, regions, lists)
    requires NodesOk(words, areas, registered)
    requires index < len && p in regions && regions[p].role == Live
    requires words' == words[p := words[Slot(dir, index)]][Slot(dir, index) := p]
    ensures NodesOk(words', areas, registered) && UserDataKept(words, words', regions - {p})
  {
    hide AreasOk, ListsOk, NodesOk, Chain, UserDataKept;
    var words1 := words[p := words[Slot(dir, index)]];
    assert dir <= Slot(dir, index) < dir + regions[dir].size;
    assert regions[p].size > 0 by { assert Fits(areas, p, regions[p]); }
    NodesFrame(areas, regions, words, words', registered);
    WrittenInside(areas, regions, words, words1, p);
    WrittenInside(areas, regions, words1, words', dir);
    KeptThenKept(words, words1, words', regions - {p}, regions);
  }

  // ---------------------------------------------------------------- the block list and its two moving ends

  /** The areas describe the blocks, oldest first, and the head's two ends are `ptr` and `limit`. */
  ghost predicate MappedOk(areas: seq<Area>, blocks: seq<Block>, ptr: nat, limit: nat) {
    && |areas| == |blocks| > 0
    && (forall i :: 0 <= i < |blocks| ==>
          && areas[i].base == blocks[i].addr
          && areas[i].bound == blocks[i].addr + blocks[i].size
          && areas[i].lo == blocks[i].addr + BLOCK_HEADER_SIZE + (if i == 0 then SERIAL_ARENA_SIZE else 0)
          && areas[i].top == blocks[i].addr + (if i == 0 then AlignDownTo8(blocks[i].size) else blocks[i].size)
          && (i < |blocks| - 1 ==> areas[i].nodes == blocks[i].start))
    && areas[|areas| - 1].end == ptr
    && areas[|areas| - 1].nodes == limit
  }

  lemma MappedFacts(areas: seq<Area>, blocks: seq<Block>, ptr: nat, limit: nat)
    requires AreasOk(areas) && MappedOk(areas, blocks, ptr, limit)
    ensures var h := |areas| - 1;
            && |areas| == |blocks| > 0
            && AreaOk(areas[h]) && areas[h].end == ptr && areas[h].nodes == limit
            && areas[h].base == blocks[h].addr
            && blocks[h].addr + BLOCK_HEADER_SIZE <= ptr <= limit
            && (|blocks| == 1 ==> blocks[h].addr + BLOCK_HEADER_SIZE + SERIAL_ARENA_SIZE <= ptr)
  {
    assert AreaOk(areas[|areas| - 1]);
  }

  lemma MappedMove(areas: seq<Area>, blocks: seq<Block>, ptr: nat, limit: nat, ptr': nat, limit': nat)
    requires MappedOk(areas, blocks, ptr, limit)
    ensures MappedOk(Moved(areas, ptr', limit'), blocks, ptr', limit')
  {
  }

  /** Syncing the head's node limit to its header changes nothing the invariants see. */
  lemma MappedSync(areas: seq<Area>, blocks: seq<Block>, ptr: nat, limit: nat)
    requires MappedOk(areas, blocks, ptr, limit)
    ensures var h := |blocks| - 1; MappedOk(areas, blocks[h := blocks[h].(start := limit)], ptr, limit)
  {
  }

  lemma MappedNewBlock(areas: seq<Area>, blocks: seq<Block>, ptr: nat, limit: nat, mem: nat, size: nat)
    requires MappedOk(areas, blocks, ptr, limit)
    ensures var h := |blocks| - 1;
            var lo, end := mem + BLOCK_HEADER_SIZE, mem + size;
            MappedOk(areas + [Area(mem, lo, lo, end, end, end)],
                     blocks[h := blocks[h].(start := limit)] + [Block(mem, size, 0)], lo, end)
  {
  }

  // ---------------------------------------------------------------- sums

  function TotalSize(blocks: seq<Block>): nat {
    if blocks == [] then 0 else TotalSize(blocks[..|blocks| - 1]) + blocks[|blocks| - 1].size
  }

  /** All registered cleanups, oldest first. */
  function Flatten(registered: seq<seq<Cleanup>>): seq<Cleanup> {
    if registered == [] then [] else Flatten(registered[..|registered| - 1]) + registered[|registered| - 1]
  }

  lemma TotalSizeAppend(blocks: seq<Block>, b: Block)
    ensures TotalSize(blocks + [b]) == TotalSize(blocks) + b.size
  {
    assert (blocks + [b])[..|blocks|] == blocks;
  }

  lemma TotalSizeIgnoresStart(blocks: seq<Block>, start: nat)
    requires |blocks| > 0
    ensures var h := |blocks| - 1; TotalSize(blocks[h := blocks[h].(start := start)]) == TotalSize(blocks)
  {
    var h := |blocks| - 1;
    assert blocks[h := blocks[h].(start := start)][..h] == blocks[..h];
  }

  lemma FlattenNewBlock(registered: seq<seq<Cleanup>>)
    ensures Flatten(registered + [[]]) == Flatten(registered)
  {
    assert (registered + [[]])[..|registered|] == registered;
  }

  lemma FlattenAppend(registered: seq<seq<Cleanup>>, c: Cleanup)
    requires |registered| > 0
    ensures var h := |registered| - 1; Flatten(registered[h := registered[h] + [c]]) == Flatten(registered) + [c]
  {
    var h := |registered| - 1;
    assert registered[h := registered[h] + [c]][..h] == registered[..h];
  }

  function Reverse<T>(s: seq<T>): (r: seq<T>)
    ensures |r| == |s|
    ensures forall i :: 0 <= i < |s| ==> r[i] == s[|s| - 1 - i]
  {
    if s == [] then [] else [s[|s| - 1]] + Reverse(s[..|s| - 1])
  }

  lemma ReverseConcat<T>(a: seq<T>, b: seq<T>)
    ensures Reverse(a + b) == Reverse(b) + Reverse(a)
  {
  }

  // ---------------------------------------------------------------- running the cleanups

  /**
   * A block whose nodes CleanupList passes over. The first block rounds its limit down to 8, later
   * ones do not, so a later block of a size that is no multiple of 8 seems to hold one node fewer.
   */
  predicate SkipsCleanup(i: nat, b: Block, n: nat) {
    i > 0 && b.size % 8 != 0 && n == 1
  }

  /** What it runs of one block. */
  function RunOf(i: nat, b: Block, registered: seq<Cleanup>): seq<Cleanup> {
    if SkipsCleanup(i, b, |registered|) then [] else Reverse(registered)
  }

  /** What CleanupList runs, in order. */
  function Executed(blocks: seq<Block>, registered: seq<seq<Cleanup>>): seq<Cleanup>
    requires |blocks| == |registered|
  {
    if blocks == [] then []
    else
      var h := |blocks| - 1;
      RunOf(h, blocks[h], registered[h]) + Executed(blocks[..h], registered[..h])
  }

  lemma ExecutedNone(blocks: seq<Block>, registered: seq<seq<Cleanup>>)
    ensures Executed(blocks[..0], registered[..0]) == []
  {
  }

  lemma ExecutedStep(blocks: seq<Block>, registered: seq<seq<Cleanup>>, b: nat)
    requires |blocks| == |registered| && b < |blocks|
    ensures Executed(blocks[..b + 1], registered[..b + 1])
            == RunOf(b, blocks[b], registered[b]) + Executed(blocks[..b], registered[..b])
  {
    assert blocks[..b + 1][..b] == blocks[..b] && registered[..b + 1][..b] == registered[..b];
  }

  /** The node count CleanupList computes is positive unless the block is empty or skipped. */
  lemma SkippedCount(i: nat, b: Block, n: nat, start: nat)
    requires b.addr + (if i == 0 then AlignDownTo8(b.size) else b.size) == start + CLEANUP_SIZE * n
    ensures (b.addr + AlignDownTo8(b.size) - start) / CLEANUP_SIZE > 0 <==> n > 0 && !SkipsCleanup(i, b, n)
  {
  }

  ghost predicate NoneSkipped(blocks: seq<Block>, registered: seq<seq<Cleanup>>)
    requires |blocks| == |registered|
  {
    forall i :: 0 <= i < |blocks| ==> !SkipsCleanup(i, blocks[i], |registered[i]|)
  }

  lemma NoneSkippedIgnoresStart(blocks: seq<Block>, blocks': seq<Block>, registered: seq<seq<Cleanup>>)
    requires |blocks| == |blocks'| == |registered|
    requires forall i :: 0 <= i < |blocks| ==> blocks'[i].addr == blocks[i].addr && blocks'[i].size == blocks[i].size
    ensures NoneSkipped(blocks, registered) <==> NoneSkipped(blocks', registered)
  {
    forall i | 0 <= i < |blocks|
      ensures SkipsCleanup(i, blocks[i], |registered[i]|) == SkipsCleanup(i, blocks'[i], |registered[i]|)
    {
    }
  }

  lemma NoneSkippedPrefix(blocks: seq<Block>, registered: seq<seq<Cleanup>>)
    requires |blocks| == |registered| > 0
    ensures var h := |blocks| - 1;
            var rest := NoneSkipped(blocks[..h], registered[..h]) && !SkipsCleanup(h, blocks[h], |registered[h]|);
            NoneSkipped(blocks, registered) <==> rest
  {
    var h := |blocks| - 1;
    if NoneSkipped(blocks[..h], registered[..h]) && !SkipsCleanup(h, blocks[h], |registered[h]|) {
      forall i | 0 <= i < |blocks| ensures !SkipsCleanup(i, blocks[i], |registered[i]|) {
        if i < h {
          assert blocks[..h][i] == blocks[i] && registered[..h][i] == registered[i];
        }
      }
    }
  }

  lemma {:induction false} ExecutedLength(blocks: seq<Block>, registered: seq<seq<Cleanup>>)
    requires |blocks| == |registered|
    ensures |Executed(blocks, registered)| <= |Flatten(registered)|
    ensures |Executed(blocks, registered)| == |Flatten(registered)| <==> NoneSkipped(blocks, registered)
  {
    if blocks != [] {
      var h := |blocks| - 1;
      ExecutedLength(blocks[..h], registered[..h]);
      NoneSkippedPrefix(blocks, registered);
    }
  }

  /** Every registered cleanup runs, once and in reverse order of registration, exactly when no block is skipped. */
  lemma ExecutedIsReverse(blocks: seq<Block>, registered: seq<seq<Cleanup>>)
    requires |blocks| == |registered|
    ensures Executed(blocks, registered) == Reverse(Flatten(registered)) <==> NoneSkipped(blocks, registered)
  {
    ExecutedLength(blocks, registered);
    if NoneSkipped(blocks, registered) {
      ExecutedWhenNoneSkipped(blocks, registered);
    }
  }

  lemma {:induction false} ExecutedWhenNoneSkipped(blocks: seq<Block>, registered: seq<seq<Cleanup>>)
    requires |blocks| == |registered|
    requires NoneSkipped(blocks, registered)
    ensures Executed(blocks, registered) == Reverse(Flatten(registered))
  {
    if blocks != [] {
      var h := |blocks| - 1;
      ExecutedWhenNoneSkipped(blocks[..h], registered[..h]);
      ReverseConcat(Flatten(registered[..h]), registered[h]);
    }
  }

  /**
   * The blocks of a run: each new one is sized by the policy from the last one and a request in
   * whole words. With the policy and the first block in whole words, all cleanups run.
   */
  lemma WholeRunSkipsNothing(policy: Policy, blocks: seq<Block>, asked: seq<nat>, registered: seq<seq<Cleanup>>)
    requires |blocks| == |registered| == |asked| + 1 && WholePolicy(policy) && blocks[0].size % 8 == 0
    requires forall i :: 0 <= i < |asked| ==>
               asked[i] % 8 == 0 && blocks[i + 1].size == BlockSize(policy, blocks[i].size, asked[i])
    ensures Executed(blocks, registered) == Reverse(Flatten(registered))
  {
    hide BlockSize, Executed, Reverse, Flatten;
    var sizes := seq(|blocks|, i requires 0 <= i < |blocks| => blocks[i].size);
    RunKeepsWords(policy, sizes, asked);
    forall i | 0 <= i < |blocks| ensures !SkipsCleanup(i, blocks[i], |registered[i]|) {
      assert sizes[i] % 8 == 0;
    }
    ExecutedIsReverse(blocks, registered);
  }

  /** What runs is part of what was registered, whatever the sizes of the blocks. */
  lemma {:induction false} ExecutedIsPart(blocks: seq<Block>, registered: seq<seq<Cleanup>>)
    requires |blocks| == |registered|
    ensures multiset(Executed(blocks, registered)) <= multiset(Flatten(registered))
  {
    if blocks != [] {
      var h := |blocks| - 1;
      ExecutedIsPart(blocks[..h], registered[..h]);
      ReverseKeepsAll(registered[h]);
    }
  }

  lemma {:induction false} ReverseKeepsAll<T>(s: seq<T>)
    ensures multiset(Reverse(s)) == multiset(s)
  {
    if s != [] {
      ReverseKeepsAll(s[..|s| - 1]);
      assert s == s[..|s| - 1] + [s[|s| - 1]];
    }
  }

  lemma {:induction false} ExecutedIgnoresStart(blocks: seq<Block>, blocks': seq<Block>, registered: seq<seq<Cleanup>>)
    requires |blocks| == |blocks'| == |registered|
    requires forall i :: 0 <= i < |blocks| ==> blocks'[i].addr == blocks[i].addr && blocks'[i].size == blocks[i].size
    ensures Executed(blocks', registered) == Executed(blocks, registered)
  {
    if blocks != [] {
      var h := |blocks| - 1;
      ExecutedIgnoresStart(blocks[..h], blocks'[..h], registered[..h]);
    }
  }

  /** A policy capped at 1001 bytes gives a second block whose only cleanup never runs. */
  lemma OddBlockSizeLosesACleanup(c: Cleanup)
    ensures BlockSize(Policy(256, 1001), 512, 0) == 1001
    ensures Executed([Block(8, 512, 0), Block(1024, 1001, 2009)], [[], [c]]) == []
    ensures Flatten([[], [c]]) == [c]
  {
    var first, second := Block(8, 512, 0), Block(1024, 1001, 2009);
    var blocks, registered := [first, second], [[], [c]];
    assert blocks[..1] == [first] && registered[..1] == [[]];
    assert [first][..0] == [] && [[]][..0] == registered[..0] == [];
    assert Reverse<Cleanup>([]) == [];
    assert Executed([first], [[]]) == Reverse<Cleanup>([]) + Executed([], []);
    assert SkipsCleanup(1, second, |registered[1]|);
    assert Executed(blocks, registered) == [] + Executed([first], [[]]);
    assert Flatten([[]]) == Flatten([]) + [];
    assert Flatten(registered) == Flatten([[]]) + [c];
  }
}
