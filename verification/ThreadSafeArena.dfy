/**
 * ThreadSafeArena between its concurrent phases: construction, Reset and destruction, and the
 * accounting of space, over the list of SerialArenas its threads have pushed.
 */
module ThreadSafeArenas {
  import opened Options
  import opened Bits
  import opened Sizes
  import opened ArenaLayout
  import opened SerialArenas

  /** `hooks` says whether the policy names its own block allocator, deallocator or metrics collector. */
  datatype AllocationPolicy = AllocationPolicy(sizes: Policy, hooks: bool) {
    /** As the source has it: the start size is compared with the default maximum. */
    predicate IsDefault() {
      sizes.startBlockSize == DEFAULT_POLICY.maxBlockSize && sizes.maxBlockSize == DEFAULT_POLICY.maxBlockSize && !hooks
    }
  }

  /** The sizes new blocks get: those of the policy in use, or the default ones without a policy. */
  function EffectiveSizes(policy: Option<AllocationPolicy>): Policy {
    match policy
    case None => DEFAULT_POLICY
    case Some(p) => p.sizes
  }

  /** What is left of a policy given to an arena. */
  function Kept(given: AllocationPolicy): Option<AllocationPolicy> {
    if given.IsDefault() then None else Some(given)
  }

  /**
   * The policy dropped as the default is the one without hooks that starts at the default maximum,
   * not the default one; and the sizes it asked for are never the ones used.
   */
  lemma DroppedIsNotDefault(p: AllocationPolicy)
    ensures p.IsDefault() <==> p == AllocationPolicy(Policy(8192, 8192), false)
    ensures EffectiveSizes(Kept(p)) == p.sizes <==> !p.IsDefault()
    ensures Kept(AllocationPolicy(DEFAULT_POLICY, false)) == Some(AllocationPolicy(DEFAULT_POLICY, false))
  {
  }

  /** The block sizes of one SerialArena, where asked[k] bytes made the k-th block necessary. */
  ghost predicate SizedBy(policy: Policy, sizes: seq<nat>, asked: seq<nat>) {
    && |sizes| == |asked|
    && forall k :: 0 <= k < |sizes| ==> sizes[k] == BlockSize(policy, if k == 0 then 0 else sizes[k - 1], asked[k])
  }

  lemma SizedAt(policy: Policy, sizes: seq<nat>, asked: seq<nat>, k: nat)
    requires SizedBy(policy, sizes, asked) && k < |asked|
    ensures sizes[k] == BlockSize(policy, if k == 0 then 0 else sizes[k - 1], asked[k])
  {
  }

  /**
   * What dropping it changes, over a whole run: `sizes` are the blocks there are, `wanted` those the
   * policy asked for. They differ until the blocks have doubled up to 8192 bytes, or where one
   * request alone takes that much; and they are never larger.
   */
  lemma {:induction false} DroppedOverARun(p: AllocationPolicy, sizes: seq<nat>, wanted: seq<nat>, asked: seq<nat>,
                                           k: nat)
    requires p.IsDefault() && SizedBy(EffectiveSizes(Kept(p)), sizes, asked) && SizedBy(p.sizes, wanted, asked)
    requires k < |asked|
    ensures sizes[k] == wanted[k] <==> BLOCK_HEADER_SIZE + asked[k] >= 8192 || (k > 0 && 2 * sizes[k - 1] >= 8192)
    ensures 0 < sizes[k] <= wanted[k] && wanted[k] >= 8192
  {
    var last, last' := if k == 0 then 0 else sizes[k - 1], if k == 0 then 0 else wanted[k - 1];
    assert EffectiveSizes(Kept(p)) == DEFAULT_POLICY && p.sizes == Policy(8192, 8192);
    SizedAt(DEFAULT_POLICY, sizes, asked, k);
    SizedAt(Policy(8192, 8192), wanted, asked, k);
    assert sizes[k] == BlockSize(DEFAULT_POLICY, last, asked[k]);
    assert wanted[k] == BlockSize(Policy(8192, 8192), last', asked[k]);
    if k > 0 { DroppedOverARun(p, sizes, wanted, asked, k - 1); }
  }

  /** While requests are small, the first five blocks differ, and no other. */
  lemma {:induction false} FiveBlocksDiffer(p: AllocationPolicy, sizes: seq<nat>, wanted: seq<nat>,
                                            asked: seq<nat>, k: nat)
    requires p.IsDefault() && SizedBy(EffectiveSizes(Kept(p)), sizes, asked) && SizedBy(p.sizes, wanted, asked)
    requires forall j :: 0 <= j < |asked| ==> BLOCK_HEADER_SIZE + asked[j] <= 256
    requires k < |asked|
    ensures sizes[k] == 256 * Pow2(Min(k, 5))
    ensures sizes[k] == wanted[k] <==> k >= 5
  {
    DroppedOverARun(p, sizes, wanted, asked, k);
    assert Pow2(0) == 1 && Pow2(1) == 2 && Pow2(2) == 4 && Pow2(3) == 8 && Pow2(4) == 16 && Pow2(5) == 32;
    assert sizes[k] == BlockSize(DEFAULT_POLICY, if k == 0 then 0 else sizes[k - 1], asked[k]);
    if k > 0 { FiveBlocksDiffer(p, sizes, wanted, asked, k - 1); }
  }

  const NO_MEMORY := Memory(0, 0)

  /** The least initial block of an arena with a policy, which is stored in that block. */
  const MINIMUM_SIZE: nat := BLOCK_HEADER_SIZE + SERIAL_ARENA_SIZE + POLICY_SIZE

  predicate Usable(mem: Memory) { mem.addr % 8 == 0 && mem.addr > 0 && mem.addr + mem.size < SIZE_LIMIT }

  function Concat<T>(lists: seq<seq<T>>): seq<T> {
    if lists == [] then [] else Concat(lists[..|lists| - 1]) + lists[|lists| - 1]
  }

  lemma ConcatNone<T>()
    ensures Concat<T>([]) == []
  {
  }

  lemma ConcatStep<T>(lists: seq<seq<T>>, i: nat)
    requires i < |lists|
    ensures Concat(lists[..i + 1]) == Concat(lists[..i]) + lists[i]
  {
    assert lists[..i + 1][..i] == lists[..i];
  }

  lemma SumStep(ns: seq<nat>, i: nat)
    requires i < |ns|
    ensures Sum(ns[..i + 1]) == Sum(ns[..i]) + ns[i]
  {
    assert ns[..i + 1][..i] == ns[..i];
  }

  function Sum(ns: seq<nat>): (r: nat)
    ensures |ns| > 0 ==> r >= ns[|ns| - 1]
  {
    if ns == [] then 0 else Sum(ns[..|ns| - 1]) + ns[|ns| - 1]
  }

  lemma SumNone()
    ensures Sum([]) == 0
  {
  }

  lemma ReverseLast<T>(s: seq<T>, x: T)
    ensures Reverse(s + [x]) == [x] + Reverse(s)
  {
    assert (s + [x])[..|s|] == s;
  }

  lemma OneRegistered(before: seq<seq<Cleanup>>, after: seq<seq<Cleanup>>, i: nat, was: seq<Cleanup>, c: Cleanup)
    requires i < |before| == |after| && before[i] == Reverse(was) && after[i] == Reverse(was + [c])
    requires forall j :: 0 <= j < |before| && j != i ==> after[j] == before[j]
    ensures after == After(before, Register(i, c))
  {
    ReverseLast(was, c);
    hide Reverse;
  }

  lemma MaybeRegistered(before: seq<seq<Cleanup>>, after: seq<seq<Cleanup>>, i: nat, was: seq<Cleanup>, c: Cleanup)
    requires i < |before| == |after| && before[i] == Reverse(was)
    requires after[i] == Reverse(was + (if c.fn == 0 then [] else [c]))
    requires forall j :: 0 <= j < |before| && j != i ==> after[j] == before[j]
    ensures after == AfterObject(before, i, c)
  {
    if c.fn == 0 {
      assert was + [] == was;
    } else {
      OneRegistered(before, after, i, was, c);
    }
  }

  lemma ConcatLast<T>(lists: seq<seq<T>>, x: seq<T>)
    ensures Concat(lists + [x]) == Concat(lists) + x
  {
    assert (lists + [x])[..|lists|] == lists;
  }

  lemma {:induction false} ConcatPart<T>(xs: seq<seq<T>>, ys: seq<seq<T>>)
    requires |xs| == |ys| && forall i :: 0 <= i < |xs| ==> multiset(xs[i]) <= multiset(ys[i])
    ensures multiset(Concat(xs)) <= multiset(Concat(ys))
  {
    if xs != [] {
      var h := |xs| - 1;
      ConcatPart(xs[..h], ys[..h]);
      assert multiset(xs[h]) <= multiset(ys[h]);
    }
  }

  lemma {:induction false} ConcatShorter<T>(xs: seq<seq<T>>, ys: seq<seq<T>>)
    requires |xs| == |ys|
    requires forall i :: 0 <= i < |xs| ==> |xs[i]| <= |ys[i]| && (|xs[i]| == |ys[i]| ==> xs[i] == ys[i])
    ensures |Concat(xs)| <= |Concat(ys)|
    ensures Concat(xs) == Concat(ys) <==> forall i :: 0 <= i < |xs| ==> xs[i] == ys[i]
    ensures |Concat(xs)| == |Concat(ys)| ==> Concat(xs) == Concat(ys)
  {
    if xs != [] {
      var h := |xs| - 1;
      ConcatShorter(xs[..h], ys[..h]);
      if Concat(xs) == Concat(ys) {
        assert |Concat(xs[..h])| == |Concat(ys[..h])|;
        forall i | 0 <= i < |xs| ensures xs[i] == ys[i] {
          if i < h { assert xs[..h][i] == ys[..h][i]; }
        }
      }
    }
  }

  // ---------------------------------------------------------------- blocks apart

  ghost predicate AllListsApart(lists: seq<seq<Memory>>) {
    forall i, j :: 0 <= i < j < |lists| ==> ListsApart(lists[i], lists[j])
  }

  lemma OneListApart(lists: seq<seq<Memory>>)
    requires |lists| <= 1
    ensures AllListsApart(lists)
  {
  }

  lemma ListInFront(xs: seq<Memory>, lists: seq<seq<Memory>>)
    requires AllListsApart(lists) && forall i :: 0 <= i < |lists| ==> ListsApart(xs, lists[i])
    ensures AllListsApart([xs] + lists)
  {
  }

  lemma NothingIsApart()
    ensures forall ys :: ListsApart([], ys)
  {
  }

  lemma OneListGrows(lists: seq<seq<Memory>>, i: nat, more: seq<Memory>)
    requires AllListsApart(lists) && i < |lists|
    requires forall j :: 0 <= j < |lists| && j != i ==> ListsApart(more, lists[j])
    ensures AllListsApart(lists[i := more + lists[i]])
  {
    var lists' := lists[i := more + lists[i]];
    forall j, k | 0 <= j < k < |lists'| ensures ListsApart(lists'[j], lists'[k]) {
      assert ListsApart(lists[j], lists[k]);
    }
  }

  lemma {:induction false} ConcatApart(lists: seq<seq<Memory>>)
    requires AllListsApart(lists)
    requires forall i :: 0 <= i < |lists| ==> PairwiseApart(lists[i])
    ensures PairwiseApart(Concat(lists))
  {
    if lists != [] {
      var h := |lists| - 1;
      ConcatApart(lists[..h]);
      forall i | 0 <= i < h ensures ListsApart(lists[..h][i], lists[h]) { assert ListsApart(lists[i], lists[h]); }
      ConcatApartFrom(lists[..h], lists[h]);
    }
  }

  lemma {:induction false} ConcatApartFrom(lists: seq<seq<Memory>>, ys: seq<Memory>)
    requires forall i :: 0 <= i < |lists| ==> ListsApart(lists[i], ys)
    ensures ListsApart(Concat(lists), ys)
  {
    if lists != [] {
      var h := |lists| - 1;
      ConcatApartFrom(lists[..h], ys);
      assert ListsApart(lists[h], ys);
    }
  }

  ghost predicate AllDifferent(xs: seq<Memory>) { forall i, j :: 0 <= i < j < |xs| ==> xs[i] != xs[j] }

  /** Blocks apart, none of them empty, are different blocks. */
  lemma ApartIsDistinct(xs: seq<Memory>)
    requires PairwiseApart(xs) && NoneEmpty(xs)
    ensures AllDifferent(xs)
  {
    forall i, j | 0 <= i < j < |xs| ensures xs[i] != xs[j] { assert MemApart(xs[i], xs[j]); }
  }

  lemma {:induction false} ConcatNoneEmpty(lists: seq<seq<Memory>>)
    requires forall i :: 0 <= i < |lists| ==> NoneEmpty(lists[i])
    ensures NoneEmpty(Concat(lists))
  {
    if lists != [] {
      ConcatNoneEmpty(lists[..|lists| - 1]);
      assert NoneEmpty(lists[|lists| - 1]);
    }
  }

  // ---------------------------------------------------------------- the cleanups of an arena over its life

  /** What happens to the cleanups an arena has: `Join` is a SerialArena pushed, `Restart` a reset that ran some. */
  datatype Life = Register(thread: nat, cleanup: Cleanup) | Join(cleanups: seq<Cleanup>)
                | Restart(ran: seq<Cleanup>, threads: nat)

  /** `pending` has the cleanups of each SerialArena, newest first. */
  ghost predicate CanDo(pending: seq<seq<Cleanup>>, op: Life) {
    match op
    case Register(i, _) => i < |pending|
    case Join(_) => true
    case Restart(ran, _) => multiset(ran) <= multiset(Concat(pending))
  }

  function After(pending: seq<seq<Cleanup>>, op: Life): seq<seq<Cleanup>> {
    match op
    case Register(i, c) => if i < |pending| then pending[i := [c] + pending[i]] else pending
    case Join(cs) => [cs] + pending
    case Restart(_, n) => seq(n, k => [])
  }

  /** An object without a destructor registers nothing. */
  function AfterObject(pending: seq<seq<Cleanup>>, i: nat, c: Cleanup): seq<seq<Cleanup>> {
    if c.fn == 0 then pending else After(pending, Register(i, c))
  }

  function AfterAll(pending: seq<seq<Cleanup>>, ops: seq<Life>): seq<seq<Cleanup>> {
    if ops == [] then pending else After(AfterAll(pending, ops[..|ops| - 1]), ops[|ops| - 1])
  }

  ghost predicate CanDoAll(pending: seq<seq<Cleanup>>, ops: seq<Life>) {
    forall k :: 0 <= k < |ops| ==> CanDo(AfterAll(pending, ops[..k]), ops[k])
  }

  /** Each reset ran all that was pending. */
  ghost predicate NothingLost(pending: seq<seq<Cleanup>>, ops: seq<Life>) {
    forall k :: 0 <= k < |ops| && ops[k].Restart? ==> ops[k].ran == Concat(AfterAll(pending, ops[..k]))
  }

  function RanIn(op: Life): multiset<Cleanup> { if op.Restart? then multiset(op.ran) else multiset{} }

  function RegisteredIn(op: Life): multiset<Cleanup> {
    match op
    case Register(_, c) => multiset{c}
    case Join(cs) => multiset(cs)
    case Restart(_, _) => multiset{}
  }

  function RanBy(ops: seq<Life>): multiset<Cleanup> {
    if ops == [] then multiset{} else RanBy(ops[..|ops| - 1]) + RanIn(ops[|ops| - 1])
  }

  function RegisteredBy(ops: seq<Life>): multiset<Cleanup> {
    if ops == [] then multiset{} else RegisteredBy(ops[..|ops| - 1]) + RegisteredIn(ops[|ops| - 1])
  }

  lemma {:induction false} ConcatFront<T>(x: seq<T>, lists: seq<seq<T>>)
    ensures Concat([x] + lists) == x + Concat(lists)
  {
    if lists == [] {
      assert [x][..0] == [];
    } else {
      assert ([x] + lists)[..|lists|] == [x] + lists[..|lists| - 1];
      ConcatFront(x, lists[..|lists| - 1]);
    }
  }

  lemma {:induction false} ConcatGrows<T>(lists: seq<seq<T>>, i: nat, x: T)
    requires i < |lists|
    ensures multiset(Concat(lists[i := [x] + lists[i]])) == multiset(Concat(lists)) + multiset{x}
  {
    var h := |lists| - 1;
    var lists' := lists[i := [x] + lists[i]];
    if i < h {
      assert lists'[..h] == lists[..h][i := [x] + lists[..h][i]];
      ConcatGrows(lists[..h], i, x);
      OneAmong(Concat(lists[..h]), Concat(lists'[..h]), lists[h], x);
    } else {
      assert lists'[..h] == lists[..h];
      OneBetween(Concat(lists[..h]), lists[h], x);
    }
  }

  lemma OneAmong<T>(a: seq<T>, a': seq<T>, b: seq<T>, x: T)
    requires multiset(a') == multiset(a) + multiset{x}
    ensures multiset(a' + b) == multiset(a + b) + multiset{x}
  {
  }

  lemma OneBetween<T>(a: seq<T>, b: seq<T>, x: T)
    ensures multiset(a + ([x] + b)) == multiset(a + b) + multiset{x}
  {
  }

  lemma {:induction false} ConcatOfNone<T>(n: nat)
    ensures Concat<T>(seq(n, k => [])) == []
  {
    if n > 0 {
      var none: seq<seq<T>> := seq(n, k => []);
      assert none[..n - 1] == seq(n - 1, k => []);
      ConcatOfNone<T>(n - 1);
    }
  }

  lemma LifeGoesOn(pending: seq<seq<Cleanup>>, ops: seq<Life>)
    requires ops != []
    ensures var front, op := ops[..|ops| - 1], ops[|ops| - 1];
            && (CanDoAll(pending, ops) ==> CanDoAll(pending, front) && CanDo(AfterAll(pending, front), op))
            && (NothingLost(pending, ops) ==>
                  NothingLost(pending, front) && (op.Restart? ==> op.ran == Concat(AfterAll(pending, front))))
  {
    hide CanDo, AfterAll, Concat;
    var front := ops[..|ops| - 1];
    assert forall k :: 0 <= k < |front| ==> front[..k] == ops[..k] && front[k] == ops[k];
  }

  lemma Balance(ran: multiset<Cleanup>, p: multiset<Cleanup>, start: multiset<Cleanup>, reg: multiset<Cleanup>,
                ran': multiset<Cleanup>, p': multiset<Cleanup>, reg': multiset<Cleanup>)
    requires ran + p <= start + reg && ran' + p' <= p + reg'
    ensures (ran + ran') + p' <= start + (reg + reg')
    ensures ran + p == start + reg && ran' + p' == p + reg' ==> (ran + ran') + p' == start + (reg + reg')
  {
    var left, right := (ran + ran') + p', start + (reg + reg');
    forall c: Cleanup | true ensures left[c] <= right[c] {
      assert (ran + p)[c] <= (start + reg)[c] && (ran' + p')[c] <= (p + reg')[c];
    }
    if ran + p == start + reg && ran' + p' == p + reg' {
      forall c: Cleanup | true ensures left[c] == right[c] {
        assert (ran + p)[c] == (start + reg)[c] && (ran' + p')[c] == (p + reg')[c];
      }
    }
  }

  /**
   * Over any life of an arena a cleanup runs at most as often as it was registered: what has run
   * and what is pending is never more than what was pending at first and was registered since.
   * When no reset passed anything over it is exactly that: each has run once or is still pending.
   */
  lemma {:induction false} RunsOnceOverALife(pending: seq<seq<Cleanup>>, ops: seq<Life>)
    requires CanDoAll(pending, ops)
    ensures RanBy(ops) + multiset(Concat(AfterAll(pending, ops))) <= multiset(Concat(pending)) + RegisteredBy(ops)
    ensures NothingLost(pending, ops) ==>
              RanBy(ops) + multiset(Concat(AfterAll(pending, ops))) == multiset(Concat(pending)) + RegisteredBy(ops)
  {
    hide CanDo, CanDoAll, NothingLost, After, RanIn, RegisteredIn, Concat;
    if ops != [] {
      var front, op := ops[..|ops| - 1], ops[|ops| - 1];
      LifeGoesOn(pending, ops);
      RunsOnceOverALife(pending, front);
      var p := AfterAll(pending, front);
      OneOfALife(p, op);
      Balance(RanBy(front), multiset(Concat(p)), multiset(Concat(pending)), RegisteredBy(front),
              RanIn(op), multiset(Concat(After(p, op))), RegisteredIn(op));
    }
  }

  lemma OneOfALife(p: seq<seq<Cleanup>>, op: Life)
    requires CanDo(p, op)
    ensures RanIn(op) + multiset(Concat(After(p, op))) <= multiset(Concat(p)) + RegisteredIn(op)
    ensures (op.Restart? ==> op.ran == Concat(p)) ==>
              RanIn(op) + multiset(Concat(After(p, op))) == multiset(Concat(p)) + RegisteredIn(op)
  {
    hide Concat;
    match op
    case Register(i, c) => ConcatGrows(p, i, c);
    case Join(cs) => ConcatFront(cs, p);
    case Restart(ran, n) => ConcatOfNone<Cleanup>(n);
  }

  class ThreadSafeArena {
    /** The list headed by `threads_`, newest SerialArena first. */
    var threads: seq<SerialArena>
    var policy: Option<AllocationPolicy>
    var userOwned: bool

    /** The block the user lent, when there is one. */
    ghost var lent: Memory

    ghost predicate Valid()
      reads this, threads
    {
      && (forall i, j :: 0 <= i < j < |threads| ==> threads[i] != threads[j])
      && (forall i :: 0 <= i < |threads| ==> threads[i].Valid())
      && AllListsApart(BlockLists())
      && (userOwned ==> Usable(lent) && lent.size >= MinimumInitial())
      && (userOwned ==> |threads| > 0 && |Last().blocks| > 0 && First() == lent)
      && (policy.Some? ==> |threads| > 0 && !policy.value.IsDefault() && Last().bumped >= POLICY_SIZE)
    }

    function MinimumInitial(): nat
      reads this
    {
      if policy.Some? then MINIMUM_SIZE else BLOCK_HEADER_SIZE + SERIAL_ARENA_SIZE
    }

    function Last(): SerialArena
      requires |threads| > 0
      reads this
    {
      threads[|threads| - 1]
    }

    /** The oldest block of the oldest SerialArena. */
    ghost function First(): Memory
      requires |threads| > 0 && |Last().blocks| > 0
      reads this, Last()
    {
      var list := NewestFirst(Last().blocks);
      list[|list| - 1]
    }

    /** Each SerialArena's blocks, in the order of the lists. */
    ghost function BlockLists(): (r: seq<seq<Memory>>)
      reads this, threads
      ensures |r| == |threads| && forall i :: 0 <= i < |r| ==> r[i] == NewestFirst(threads[i].blocks)
    {
      seq(|threads|, i requires 0 <= i < |threads| reads this, threads => NewestFirst(threads[i].blocks))
    }

    /** Each SerialArena's cleanups, newest first, in the order of the list. */
    ghost function CleanupLists(): (r: seq<seq<Cleanup>>)
      reads this, threads
      ensures |r| == |threads| && forall i :: 0 <= i < |r| ==> r[i] == Reverse(threads[i].Registered())
    {
      seq(|threads|, i requires 0 <= i < |threads| reads this, threads => Reverse(threads[i].Registered()))
    }

    /** What each SerialArena's CleanupList runs, in the order of the list. */
    ghost function ToRunLists(): (r: seq<seq<Cleanup>>)
      reads this, threads
      ensures |r| == |threads| && forall i :: 0 <= i < |r| ==> r[i] == threads[i].ToRun()
    {
      seq(|threads|, i requires 0 <= i < |threads| reads this, threads => threads[i].ToRun())
    }

    ghost function Allocated(): (r: seq<nat>)
      reads this, threads
      ensures |r| == |threads| && forall i :: 0 <= i < |r| ==> r[i] == threads[i].spaceAllocated
    {
      seq(|threads|, i requires 0 <= i < |threads| reads this, threads => threads[i].spaceAllocated)
    }

    ghost function Bumped(): (r: seq<nat>)
      reads this, threads
      ensures |r| == |threads| && forall i :: 0 <= i < |r| ==> r[i] == threads[i].bumped
    {
      seq(|threads|, i requires 0 <= i < |threads| reads this, threads => threads[i].bumped)
    }

    /** No SerialArena has a block whose lone cleanup CleanupList would pass over. */
    ghost predicate AllCleanupsSeen()
      reads this, threads
    {
      forall i :: 0 <= i < |threads| ==> threads[i].CleanupsSeen()
    }

    method SpaceAllocated() returns (space: nat)
      requires Valid()
      ensures space == Sum(Allocated())
    {
      hide NewestFirst, SerialArena.Valid, SerialArena.CleanupsSeen, AllListsApart, BlockLists, Allocated, Sum;
      space := 0;
      assert Sum([]) == 0 by { SumNone(); }
      for i := 0 to |threads|
        invariant space == Sum(Allocated()[..i])
      {
        SumStep(Allocated(), i);
        space := space + threads[i].spaceAllocated;
      }
      assert Allocated()[..|threads|] == Allocated();
    }

    /** Bytes handed to clients: the policy's own copy, in the first block, is not counted. */
    method SpaceUsed() returns (space: nat)
      requires Valid()
      ensures space == Sum(Bumped()) - (if policy.Some? then POLICY_SIZE else 0)
    {
      hide NewestFirst, SerialArena.Valid, SerialArena.CleanupsSeen, AllListsApart, BlockLists, Bumped, Sum;
      space := 0;
      assert Sum([]) == 0 by { SumNone(); }
      for i := 0 to |threads|
        invariant space == Sum(Bumped()[..i])
      {
        SumStep(Bumped(), i);
        var used := threads[i].SpaceUsed();
        space := space + used;
      }
      assert Bumped()[..|threads|] == Bumped();
      if policy.Some? { space := space - POLICY_SIZE; }
    }

    /** All registered cleanups run exactly when no SerialArena passes one over. */
    lemma ToRunOrAll()
      requires forall i :: 0 <= i < |threads| ==> threads[i].Valid()
      ensures Concat(ToRunLists()) == Concat(CleanupLists()) <==> AllCleanupsSeen()
      ensures multiset(Concat(ToRunLists())) <= multiset(Concat(CleanupLists()))
      ensures (forall i :: 0 <= i < |threads| ==> threads[i].WholeWords()) ==> AllCleanupsSeen()
    {
      hide NewestFirst, Reverse, Flatten, NoneSkipped, Executed, Concat, SerialArena.Valid, SerialArena.CleanupsSeen;
      forall i | 0 <= i < |threads|
        ensures |threads[i].ToRun()| <= |Reverse(threads[i].Registered())|
        ensures multiset(threads[i].ToRun()) <= multiset(Reverse(threads[i].Registered()))
        ensures threads[i].CleanupsSeen() <==> threads[i].ToRun() == Reverse(threads[i].Registered())
        ensures threads[i].CleanupsSeen() <==> |threads[i].ToRun()| == |Reverse(threads[i].Registered())|
        ensures threads[i].WholeWords() ==> threads[i].CleanupsSeen()
      {
        threads[i].ToRunIsAll();
      }
      ConcatShorter(ToRunLists(), CleanupLists());
      ConcatPart(ToRunLists(), CleanupLists());
    }

    /** Runs every SerialArena's cleanups, in the order of the list. */
    method CleanupList(before: seq<Event>) returns (events: seq<Event>)
      requires Valid()
      modifies threads`blocks
      ensures Valid()
      ensures BlockLists() == old(BlockLists()) && Allocated() == old(Allocated())
      ensures CleanupLists() == old(CleanupLists()) && Bumped() == old(Bumped())
      ensures events == before + AsRuns(old(Concat(ToRunLists())))
    {
      hide NewestFirst, Reverse, Flatten, NoneSkipped, Executed, SerialArena.Valid, SerialArena.CleanupsSeen,
           SerialArena.ToRun, PairwiseApart, AllListsApart, BlockLists, CleanupLists, ToRunLists, Allocated, Bumped;
      hide AsRuns, Concat;
      ghost var parts;
      events, parts := RunEach(threads, before);
      assert parts == old(ToRunLists());
      assert BlockLists() == old(BlockLists());
    }

    /** The loop of PerSerialArena over CleanupList. */
    static method RunEach(ts: seq<SerialArena>, before: seq<Event>)
      returns (events: seq<Event>, ghost parts: seq<seq<Cleanup>>)
      requires forall i, j :: 0 <= i < j < |ts| ==> ts[i] != ts[j]
      requires forall i :: 0 <= i < |ts| ==> ts[i].Valid()
      modifies ts`blocks
      ensures forall i :: 0 <= i < |ts| ==> ts[i].Valid()
      ensures forall i :: 0 <= i < |ts| ==> NewestFirst(ts[i].blocks) == old(NewestFirst(ts[i].blocks))
      ensures |parts| == |ts| && events == before + AsRuns(Concat(parts))
      ensures forall i :: 0 <= i < |ts| ==> parts[i] == old(ts[i].ToRun())
    {
      hide NewestFirst, Reverse, Flatten, NoneSkipped, Executed, SerialArena.Valid, SerialArena.CleanupsSeen,
           SerialArena.ToRun, AsRuns, Concat;
      events, parts := before, [];
      ConcatNone<Cleanup>();
      NothingYet(before);
      for i := 0 to |ts|
        invariant forall j :: 0 <= j < |ts| ==> ts[j].Valid()
        invariant forall j :: 0 <= j < |ts| ==> NewestFirst(ts[j].blocks) == old(NewestFirst(ts[j].blocks))
        invariant |parts| == i && events == before + AsRuns(Concat(parts))
        invariant forall j :: i <= j < |ts| ==> ts[j].blocks == old(ts[j].blocks)
        invariant forall j :: 0 <= j < i ==> parts[j] == old(ts[j].ToRun())
      {
        ghost var more := ts[i].ToRun();
        events := ts[i].CleanupList(events);
        RunsAppend(before, Concat(parts), more);
        ConcatLast(parts, more);
        parts := parts + [more];
      }
    }

    /** SerialArenas without cleanups are what a reset leaves. */
    lemma NothingPending(before: seq<seq<Cleanup>>, ran: seq<Cleanup>)
      requires forall i :: 0 <= i < |threads| ==> threads[i].Valid() && threads[i].Registered() == []
      ensures CleanupLists() == After(before, Restart(ran, |threads|))
      ensures Concat(CleanupLists()) == [] && Concat(ToRunLists()) == []
    {
      hide NewestFirst, Flatten, NoneSkipped, Executed, Concat, SerialArena.Valid, SerialArena.Registered;
      ConcatOfNone<Cleanup>(|threads|);
      ToRunOrAll();
      assert CleanupLists() == seq(|threads|, k => []);
      assert |Concat(ToRunLists())| == |multiset(Concat(ToRunLists()))| <= 0;
    }

    /** The block lists name no memory twice: what is released is released once. */
    lemma BlocksAreApart()
      requires Valid()
      ensures PairwiseApart(Concat(BlockLists())) && AllDifferent(Concat(BlockLists()))
    {
      hide SerialArena.Valid, SerialArena.CleanupsSeen, NewestFirst, Concat, NoneEmpty, AllDifferent;
      forall i | 0 <= i < |threads| ensures PairwiseApart(BlockLists()[i]) && NoneEmpty(BlockLists()[i]) {
        threads[i].OwnBlocksApart();
      }
      ConcatApart(BlockLists());
      ConcatNoneEmpty(BlockLists());
      ApartIsDistinct(Concat(BlockLists()));
    }

    /** Frees every SerialArena, keeping back the oldest block of the oldest one. */
    method Free(before: seq<Event>)
      returns (mem: Memory, events: seq<Event>, space: nat, ghost released: seq<Memory>)
      requires Valid()
      ensures events == before + AsReleases(released)
      ensures if threads == [] then mem == NO_MEMORY && released == []
              else |Last().blocks| > 0 && mem == First() && mem.addr != 0 && released + [mem] == Concat(BlockLists())
      ensures PairwiseApart(Concat(BlockLists())) && AllDifferent(Concat(BlockLists()))
      ensures space + mem.size == Sum(Allocated())
    {
      hide NewestFirst, Reverse, Flatten, NoneSkipped, Executed, SerialArena.Valid, SerialArena.CleanupsSeen,
           SerialArena.ToRun, PairwiseApart, AllListsApart, BlockLists, CleanupLists, ToRunLists, Allocated,
           Bumped, Concat, Sum, AllDifferent, AsReleases;
      mem, released, space, events := NO_MEMORY, [], 0, before;
      BlocksAreApart();
      ConcatNone<Memory>();
      NothingYet(before);
      assert Sum([]) == 0 by { SumNone(); }
      for i := 0 to |threads|
        invariant events == before + AsReleases(released)
        invariant mem.addr == 0 <==> i == 0
        invariant if i == 0 then mem == NO_MEMORY && released == []
                  else released + [mem] == Concat(BlockLists()[..i])
                       && |threads[i - 1].blocks| > 0
                       && mem == NewestFirst(threads[i - 1].blocks)[|threads[i - 1].blocks| - 1]
        invariant space + mem.size == Sum(Allocated()[..i])
      {
        ConcatStep(BlockLists(), i);
        SumStep(Allocated(), i);
        // Deleting a null block would do nothing.
        if mem.addr != 0 {
          ReleasesOneMore(before, released, mem);
          events, space := events + [Released(mem)], space + mem.size;
          released := released + [mem];
        }
        var bytes;
        ghost var more;
        ghost var kept := released;
        mem, events, bytes, more := threads[i].Free(events);
        assert kept + (more + [mem]) == (kept + more) + [mem];
        ReleasesAppend(before, kept, more);
        released, space := kept + more, space + bytes;
      }
      assert BlockLists()[..|threads|] == BlockLists() && Allocated()[..|threads|] == Allocated();
    }

    /** CleanupList, then Free, then the block that was kept back, unless the user lent it. */
    method TearDown()
      returns (mem: Memory, space: nat, events: seq<Event>, ghost ran: seq<Cleanup>, ghost released: seq<Memory>)
      requires Valid()
      modifies threads`blocks
      ensures events == AsRuns(ran) + AsReleases(released)
      ensures ran == old(Concat(ToRunLists())) && multiset(ran) <= multiset(old(Concat(CleanupLists())))
      ensures ran == old(Concat(CleanupLists())) <==> old(AllCleanupsSeen())
      ensures if userOwned then released + [lent] == old(Concat(BlockLists())) && mem == lent
              else released == old(Concat(BlockLists()))
      ensures PairwiseApart(old(Concat(BlockLists()))) && AllDifferent(old(Concat(BlockLists())))
      ensures space == old(Sum(Allocated()))
      ensures lent == old(lent)
    {
      hide NewestFirst, Reverse, Flatten, NoneSkipped, Executed, SerialArena.Valid, SerialArena.CleanupsSeen,
           SerialArena.ToRun, PairwiseApart, AllListsApart, BlockLists, CleanupLists, ToRunLists, Allocated,
           Bumped, Concat, Sum, AllDifferent, AsRuns, AsReleases;
      ToRunOrAll();
      ran := Concat(ToRunLists());
      events := CleanupList([]);
      assert [] + AsRuns(ran) == AsRuns(ran);
      mem, events, space, released := Free(events);
      space := space + mem.size;
      if !userOwned && mem.addr != 0 {
        ReleasesOneMore(AsRuns(ran), released, mem);
        events := events + [Released(mem)];
        released := released + [mem];
      }
      assert threads == [] ==> BlockLists() == [] && Concat(BlockLists()) == [] by { ConcatNone<Memory>(); }
    }

    /** Whether a block offered by the user is taken as the initial block. */
    static predicate Accepts(mem: Memory, minimum: nat) { mem.addr != 0 && mem.size >= minimum }

    /** The arena of an arena without a policy: empty, or on the user's block. */
    method InitializeFrom(mem: Memory, me: nat)
      requires policy.None? && (mem.addr != 0 ==> Usable(mem))
      requires userOwned ==> mem == lent && Accepts(mem, BLOCK_HEADER_SIZE + SERIAL_ARENA_SIZE)
      modifies this
      ensures Valid() && policy.None?
      ensures userOwned <==> mem.addr != 0 && mem.size >= 104
      ensures if userOwned then lent == mem && |threads| == 1 && fresh(threads[0]) && threads[0].bumped == 0
              else threads == []
      ensures userOwned ==> threads[0].Registered() == [] && threads[0].regions == map[] && threads[0].Aligned()
      ensures userOwned ==> (threads[0].WholeWords() <==> mem.size % 8 == 0)
    {
      hide SerialArena.Valid, SerialArena.CleanupsSeen;
      threads := [];
      if mem.addr != 0 && mem.size >= BLOCK_HEADER_SIZE + SERIAL_ARENA_SIZE {
        userOwned, lent := true, mem;
        var serial := new SerialArena(mem, me);
        NewestFirstOfOne(serial.blocks[0]);
        threads := [serial];
      }
    }

    static lemma NewestFirstOfOne(b: Block)
      ensures NewestFirst([b]) == [Memory(b.addr, b.size)]
    {
      assert [b][..0] == [];
    }

    /** The block an arena with a policy starts on: the user's if it is large enough, else one of its own. */
    static function InitialBlock(mem: Memory, sizes: Policy, block: nat): Memory {
      if Accepts(mem, MINIMUM_SIZE) then mem else Memory(block, BlockSize(sizes, 0, MINIMUM_SIZE))
    }

    /** A block of the user is taken from 144 bytes on; one of its own has the start size, or 168 bytes. */
    static lemma InitialBlocks(mem: Memory, sizes: Policy, block: nat)
      ensures InitialBlock(mem, sizes, block)
           == if mem.addr != 0 && mem.size >= 144 then mem
              else Memory(block, if sizes.startBlockSize < 168 then 168 else sizes.startBlockSize)
    {
    }

    /**
     * An arena with a policy: the policy is copied into the first block. `block` is where the
     * allocator puts a new one.
     */
    method InitializeWithPolicy(mem: Memory, newPolicy: AllocationPolicy, me: nat, block: nat)
      requires policy.None? && (mem.addr != 0 ==> Usable(mem))
      requires !newPolicy.IsDefault() ==> Usable(InitialBlock(mem, newPolicy.sizes, block))
      requires userOwned ==> mem == lent && Accepts(mem, MINIMUM_SIZE) && !newPolicy.IsDefault()
      modifies this
      ensures Valid()
      ensures policy == Kept(newPolicy) && (EffectiveSizes(policy) == newPolicy.sizes <==> !newPolicy.IsDefault())
      ensures userOwned <==> mem.addr != 0 && mem.size >= if policy.Some? then 144 else 104
      ensures userOwned ==> lent == mem
      ensures |threads| == if policy.Some? || userOwned then 1 else 0
      ensures |threads| == 1 ==> fresh(threads[0]) && threads[0].bumped == if policy.Some? then POLICY_SIZE else 0
      ensures policy.Some? ==>
                |Last().blocks| > 0 && First() == InitialBlock(mem, newPolicy.sizes, block)
      ensures |threads| == 1 ==> threads[0].Registered() == [] && threads[0].Aligned()
      ensures policy.Some? ==> (threads[0].WholeWords() <==> InitialBlock(mem, newPolicy.sizes, block).size % 8 == 0)
    {
      hide SerialArena.Valid, SerialArena.CleanupsSeen;
      if newPolicy.IsDefault() {
        InitializeFrom(mem, me);
        return;
      }
      var first := mem;
      if mem.addr != 0 && mem.size >= MINIMUM_SIZE {
        userOwned, lent := true, mem;
      } else {
        first := Memory(block, BlockSize(newPolicy.sizes, 0, MINIMUM_SIZE));
      }
      var serial := new SerialArena(first, me);
      NewestFirstOfOne(serial.blocks[0]);
      var p := serial.AllocateFromExisting(POLICY_SIZE);
      threads, policy := [serial], Some(newPolicy);
    }

    /** An arena on a block the user lends (NO_MEMORY for none), with a policy or without. */
    constructor (mem: Memory, newPolicy: Option<AllocationPolicy>, me: nat, block: nat)
      requires mem.addr != 0 ==> Usable(mem)
      requires newPolicy.Some? && !newPolicy.value.IsDefault() ==>
                 Usable(InitialBlock(mem, newPolicy.value.sizes, block))
      ensures Valid() && fresh(threads)
      ensures policy == if newPolicy.Some? then Kept(newPolicy.value) else None
      ensures userOwned <==> mem.addr != 0 && mem.size >= if policy.Some? then 144 else 104
      ensures userOwned ==> lent == mem
      ensures |threads| <= 1 && forall i :: 0 <= i < |threads| ==> threads[i].Registered() == [] && threads[i].Aligned()
    {
      hide SerialArena.Valid, SerialArena.CleanupsSeen, SerialArena.Registered, SerialArena.Aligned,
           SerialArena.WholeWords, NewestFirst, AllListsApart, BlockLists;
      threads, policy, userOwned, lent := [], None, false, NO_MEMORY;
      new;
      OneListApart(BlockLists());
      match newPolicy
      case None => InitializeFrom(mem, me);
      case Some(p) => InitializeWithPolicy(mem, p, me, block);
    }

    /** A thread's first SerialArena goes in front, so the user's block stays last. */
    method Push(serial: SerialArena)
      requires Valid() && serial.Valid() && serial !in threads
      requires forall i :: 0 <= i < |threads| ==> ListsApart(NewestFirst(serial.blocks), NewestFirst(threads[i].blocks))
      modifies this`threads
      ensures Valid() && threads == [serial] + old(threads)
      ensures CleanupLists() == After(old(CleanupLists()), Join(Reverse(serial.Registered())))
    {
      hide SerialArena.Valid, SerialArena.CleanupsSeen, NewestFirst, ListsApart, AllListsApart, BlockLists;
      hide CleanupLists, Reverse, SerialArena.Registered;
      ListInFront(NewestFirst(serial.blocks), BlockLists());
      threads := [serial] + threads;
      assert BlockLists() == [NewestFirst(serial.blocks)] + old(BlockLists());
      assert CleanupLists() == [Reverse(serial.Registered())] + old(CleanupLists());
      assert old(|threads|) > 0 ==> Last() == old(Last());
    }

    // ---------------------------------------------------------------- allocation, on one thread's SerialArena

    /** Other memory than what the other SerialArenas have. */
    ghost predicate ApartFromOthers(i: nat, more: seq<Memory>)
      requires i < |threads|
      reads this, threads
    {
      forall j :: 0 <= j < |threads| && j != i ==> ListsApart(more, NewestFirst(threads[j].blocks))
    }

    /** The block allocator has room for the i-th SerialArena: memory that no SerialArena of this arena has. */
    ghost predicate CanGrow(i: nat, n: nat, mem: nat)
      requires Valid() && i < |threads| && |threads[i].blocks| > 0
      reads this, threads
    {
      && threads[i].CanGrow(n, EffectiveSizes(policy), mem)
      && ApartFromOthers(i, threads[i].Grows(n, EffectiveSizes(policy), mem))
    }

    /** Arena::AllocateInternal in the thread that the i-th SerialArena belongs to. */
    method AllocateInternal(i: nat, size: nat, align: nat, fn: nat, mem: nat) returns (obj: nat, ghost p: nat)
      requires Valid() && i < |threads| && |threads[i].blocks| > 0 && size > 0 && align < SIZE_LIMIT
      requires CanGrow(i, Needed(size, align, fn), mem)
      modifies threads[i]
      ensures Valid() && obj == Placed(p, align) && AlignedTo(obj, align)
      ensures p !in old(threads[i].regions)
      ensures Claimed(old(threads[i].regions), threads[i].regions, p, RequestSize(size, align))
      ensures old(threads[i].Aligned()) && WholeAlign(align) ==>
                obj % 8 == 0 && p <= obj && obj + size <= p + threads[i].regions[p].size
      ensures old(threads[i].Aligned()) ==> (threads[i].Aligned() <==> RequestSize(size, align) % 8 == 0)
      ensures WholePolicy(EffectiveSizes(policy)) && RequestSize(size, align) % 8 == 0
              && old(threads[i].WholeWords()) ==>
                threads[i].WholeWords()
      ensures BlockLists() == old(BlockLists()[i := threads[i].Grows(Needed(size, align, fn),
                                                                     EffectiveSizes(policy), mem) + BlockLists()[i]])
      ensures Bumped() == old(Bumped())[i := old(Bumped())[i] + RequestSize(size, align)]
      ensures threads[i].Registered() == old(threads[i].Registered()) + (if fn == 0 then [] else [Cleanup(obj, fn)])
      ensures CleanupLists() == AfterObject(old(CleanupLists()), i, Cleanup(obj, fn))
    {
      hide SerialArena.Aligned, SerialArena.HasSpace, SerialArena.WholeWords, SerialArena.Registered, WholePolicy;
      hide NewestFirst, SerialArena.Valid, SerialArena.CleanupsSeen, SerialArena.CanGrow, SerialArena.Grows, Needed;
      hide Claimed, Placed, RequestSize, ListsApart, AllListsApart, UserDataKept, BlockLists, CleanupLists, Bumped,
           Reverse, After,
           AfterObject, AlignedTo, WholeAlign;
      ghost var more := threads[i].Grows(Needed(size, align, fn), EffectiveSizes(policy), mem);
      var sizes := EffectiveSizes(policy);
      obj, p := threads[i].AllocateInternal(size, align, fn, sizes, mem);
      assert BlockLists() == old(BlockLists())[i := more + old(BlockLists())[i]];
      OneListGrows(old(BlockLists()), i, more);
      MaybeRegistered(old(CleanupLists()), CleanupLists(), i, old(threads[i].Registered()), Cleanup(obj, fn));
    }

    ghost function ArrayGrows(i: nat, n: nat, mem: nat): seq<Memory>
      requires i < |threads| && |threads[i].blocks| > 0
      reads this, threads
    {
      if Candidate(threads[i].lists, n) != 0 then [] else threads[i].Grows(n, EffectiveSizes(policy), mem)
    }

    /** Memory for an array: from the i-th SerialArena's freelist, when it has any that is certainly large enough. */
    method AllocateForArray(i: nat, n: nat, mem: nat) returns (p: nat)
      requires Valid() && i < |threads| && |threads[i].blocks| > 0 && CanGrow(i, n, mem)
      modifies threads[i]
      ensures Valid() && Claimed(old(threads[i].regions), threads[i].regions, p, n)
      ensures BlockLists() == old(BlockLists()[i := ArrayGrows(i, n, mem) + BlockLists()[i]])
      ensures threads[i].Registered() == old(threads[i].Registered()) && CleanupLists() == old(CleanupLists())
      ensures old(threads[i].Aligned()) ==>
                p % 8 == 0 && (threads[i].Aligned() <==> n % 8 == 0 || old(Candidate(threads[i].lists, n)) != 0)
      ensures WholePolicy(EffectiveSizes(policy)) && n % 8 == 0 && old(threads[i].WholeWords()) ==>
                threads[i].WholeWords()
    {
      hide SerialArena.Aligned, SerialArena.HasSpace, SerialArena.WholeWords, SerialArena.Registered, WholePolicy;
      hide NewestFirst, SerialArena.Valid, SerialArena.CleanupsSeen, SerialArena.CanGrow, SerialArena.Grows;
      hide Candidate, Claimed, ListsApart, AllListsApart, UserDataKept, BlockLists;
      ghost var more := ArrayGrows(i, n, mem);
      NothingIsApart();
      p := threads[i].AllocateAligned(n, true, EffectiveSizes(policy), mem);
      assert BlockLists() == old(BlockLists())[i := more + old(BlockLists())[i]];
      OneListGrows(old(BlockLists()), i, more);
    }

    method ReturnArrayMemory(i: nat, p: nat, size: nat)
      requires Valid() && i < |threads| && size >= 16 && threads[i].IsLive(p, size)
      modifies threads[i]
      ensures Valid() && BlockLists() == old(BlockLists()) && Bumped() == old(Bumped())
      ensures !threads[i].IsLive(p, size) && threads[i].Registered() == old(threads[i].Registered())
      ensures CleanupLists() == old(CleanupLists())
      ensures old(threads[i].Aligned()) ==> threads[i].Aligned()
      ensures threads[i].WholeWords() <==> old(threads[i].WholeWords())
    {
      hide SerialArena.Aligned, SerialArena.HasSpace, WholePolicy;
      hide NewestFirst, SerialArena.Valid, SerialArena.CleanupsSeen;
      hide ListsApart, AllListsApart, UserDataKept, ReturnClass, Extended, BlockLists, Bumped;
      threads[i].ReturnArrayMemory(p, size);
      assert BlockLists() == old(BlockLists());
    }

    method AddCleanup(i: nat, elem: nat, fn: nat, mem: nat)
      requires Valid() && i < |threads| && |threads[i].blocks| > 0 && CanGrow(i, CLEANUP_SIZE, mem)
      modifies threads[i]
      ensures Valid() && Bumped() == old(Bumped())
      ensures BlockLists() == old(BlockLists()[i := threads[i].Grows(CLEANUP_SIZE, EffectiveSizes(policy), mem)
                                               + BlockLists()[i]])
      ensures threads[i].Registered() == old(threads[i].Registered()) + [Cleanup(elem, fn)]
      ensures CleanupLists() == After(old(CleanupLists()), Register(i, Cleanup(elem, fn)))
      ensures old(threads[i].Aligned()) ==> threads[i].Aligned()
      ensures WholePolicy(EffectiveSizes(policy)) && old(threads[i].WholeWords()) ==> threads[i].WholeWords()
    {
      hide SerialArena.Aligned, SerialArena.HasSpace, SerialArena.WholeWords, SerialArena.Registered, WholePolicy;
      hide NewestFirst, SerialArena.Valid, SerialArena.CleanupsSeen, SerialArena.CanGrow, SerialArena.Grows;
      hide ListsApart, AllListsApart, UserDataKept, BlockLists, CleanupLists, Bumped, Reverse, After;
      ghost var more := threads[i].Grows(CLEANUP_SIZE, EffectiveSizes(policy), mem);
      threads[i].AddCleanup(elem, fn, EffectiveSizes(policy), mem);
      assert BlockLists() == old(BlockLists())[i := more + old(BlockLists())[i]];
      OneListGrows(old(BlockLists()), i, more);
      OneRegistered(old(CleanupLists()), CleanupLists(), i, old(threads[i].Registered()), Cleanup(elem, fn));
    }

    /** Memory that two threads have in use at once shares no byte. */
    lemma ThreadsShareNoByte(i: nat, j: nat, p: nat, q: nat)
      requires Valid() && i < |threads| && j < |threads| && i != j
      requires p in threads[i].regions && q in threads[j].regions
      ensures p + threads[i].regions[p].size <= q || q + threads[j].regions[q].size <= p
    {
      hide NewestFirst, SerialArena.Valid, SerialArena.CleanupsSeen;
      threads[i].RegionInBlock(p);
      threads[j].RegionInBlock(q);
      var x := |threads[i].blocks| - 1 - threads[i].regions[p].home;
      var y := |threads[j].blocks| - 1 - threads[j].regions[q].home;
      NewestFirstAt(threads[i].blocks, x);
      NewestFirstAt(threads[j].blocks, y);
      if i < j {
        assert ListsApart(BlockLists()[i], BlockLists()[j]);
        assert MemApart(BlockLists()[i][x], BlockLists()[j][y]);
      } else {
        assert ListsApart(BlockLists()[j], BlockLists()[i]);
        assert MemApart(BlockLists()[j][y], BlockLists()[i][x]);
      }
    }

    /** What follows in a reset: an arena with the same flags and policy, on the block of the user if there is one. */
    method StartOver(mem: Memory, me: nat, block: nat)
      requires userOwned ==> mem == lent && Usable(lent) && lent.size >= MinimumInitial()
      requires policy.Some? ==> !policy.value.IsDefault()
      requires policy.Some? && !userOwned ==> Usable(InitialBlock(NO_MEMORY, policy.value.sizes, block))
      modifies this
      ensures Valid() && userOwned == old(userOwned) && policy == old(policy) && (userOwned ==> lent == old(lent))
      ensures |threads| == (if policy.Some? || userOwned then 1 else 0) && fresh(threads)
      ensures |threads| == 1 ==> threads[0].bumped == if policy.Some? then POLICY_SIZE else 0
      ensures |threads| == 1 ==> threads[0].Registered() == [] && threads[0].Aligned()
    {
      hide NewestFirst, SerialArena.Valid, AllListsApart, BlockLists, SerialArena.Aligned, SerialArena.WholeWords,
           SerialArena.Registered, First;
      if policy.Some? {
        var saved := policy.value;
        policy := None;
        InitializeWithPolicy(if userOwned then mem else NO_MEMORY, saved, me, block);
      } else if userOwned {
        InitializeFrom(mem, me);
      } else {
        threads := [];
        OneListApart(BlockLists());
      }
    }

    /**
     * Runs all cleanups, then releases every block but the user's, then starts over with the same
     * flags and policy. Returns the space that had been allocated.
     */
    method Reset(me: nat, block: nat)
      returns (space: nat, events: seq<Event>, ghost ran: seq<Cleanup>, ghost released: seq<Memory>)
      requires Valid()
      requires policy.Some? && !userOwned ==> Usable(InitialBlock(NO_MEMORY, policy.value.sizes, block))
      modifies this, threads`blocks
      ensures Valid() && userOwned == old(userOwned) && policy == old(policy) && (userOwned ==> lent == old(lent))
      ensures space == old(Sum(Allocated()))
      ensures events == AsRuns(ran) + AsReleases(released)
      ensures ran == old(Concat(ToRunLists()))
      ensures ran == old(Concat(CleanupLists())) <==> old(AllCleanupsSeen())
      ensures PairwiseApart(old(Concat(BlockLists()))) && AllDifferent(old(Concat(BlockLists())))
      ensures CanDo(old(CleanupLists()), Restart(ran, |threads|))
      ensures CleanupLists() == After(old(CleanupLists()), Restart(ran, |threads|))
      ensures Concat(CleanupLists()) == [] && Concat(ToRunLists()) == []
      ensures if userOwned then released + [lent] == old(Concat(BlockLists()))
              else released == old(Concat(BlockLists()))
      ensures |threads| == (if policy.Some? || userOwned then 1 else 0) && fresh(threads)
      ensures |threads| == 1 ==> threads[0].bumped == if policy.Some? then POLICY_SIZE else 0
      ensures |threads| == 1 ==> threads[0].Registered() == [] && threads[0].Aligned()
    {
      hide NewestFirst, Reverse, Flatten, NoneSkipped, Executed, SerialArena.Valid, SerialArena.CleanupsSeen,
           SerialArena.ToRun, PairwiseApart, AllListsApart, BlockLists, CleanupLists, ToRunLists, Allocated,
           Bumped, Concat, Sum, AllDifferent, After, AsRuns, AsReleases, SerialArena.Aligned, SerialArena.WholeWords,
           SerialArena.Registered, First;
      ghost var before := CleanupLists();
      var mem;
      mem, space, events, ran, released := TearDown();
      StartOver(mem, me, block);
      NothingPending(before, ran);
    }

    /** What a reset ran does not run again: a second one runs nothing. */
    method ResetTwice(me: nat, block: nat, next: nat) returns (ghost ran: seq<Cleanup>, ghost again: seq<Cleanup>)
      requires Valid()
      requires policy.Some? && !userOwned ==>
                 Usable(InitialBlock(NO_MEMORY, policy.value.sizes, block))
                 && Usable(InitialBlock(NO_MEMORY, policy.value.sizes, next))
      modifies this, threads`blocks
      ensures ran == old(Concat(ToRunLists())) && again == []
    {
      hide SerialArena.Valid, SerialArena.CleanupsSeen, AllListsApart, BlockLists, CleanupLists, ToRunLists, Concat,
           After, CanDo, PairwiseApart, AllDifferent;
      var space, events;
      ghost var released;
      space, events, ran, released := Reset(me, block);
      space, events, again, released := Reset(me, next);
    }
  }
}
