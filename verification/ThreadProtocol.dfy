/**
 * ThreadSafeArena as a system of interleaved steps. Threads find or create their SerialArena in
 * the arenas they share: through the thread-local cache, through the arena's hint, or by walking
 * the list and pushing onto it with compare-and-swap. Reset, construction and destruction of an
 * arena are exclusive to one thread. Atomics are sequentially consistent.
 */
module ThreadProtocol {

  type Thread = nat
  type ArenaId = nat
  /** An address; 0 is null. Freed addresses may be handed out again. */
  type Addr = nat

  /** `kDelta`: ids step by 2. A thread reserves `kPerThreadIds`, 256, at a time, so a batch spans 512. */
  const DELTA: nat := 2

  /** `lastSeen` is -1 before the first use; ids do not wrap, so no arena ever has that tag. */
  datatype ThreadCache = ThreadCache(nextId: nat, lastSeen: int, lastSerial: Addr)

  datatype Serial = Serial(owner: Thread, next: Addr)

  /** `tag` is `tag_and_id_`: the lifecycle id plus the message-owned bit. */
  datatype Arena = Arena(tag: nat, threads: Addr, hint: Addr)

  /** Where a thread is inside GetSerialArena. */
  datatype Pc =
    | Idle
    | Missed(a: ArenaId)                               // both fast paths missed
    | Walking(a: ArenaId, cur: Addr)                   // walking the list
    | Allocated(a: ArenaId, serial: Addr)              // has a new SerialArena, not yet on the list
    | Pushing(a: ArenaId, serial: Addr, head: Addr)    // about to compare-and-swap
    | Caching(a: ArenaId, serial: Addr)                // about to write its thread cache
    | Hinting(a: ArenaId, serial: Addr)                // about to store the hint

  /** `lists` and `issued` are history: each arena's list, newest first, and every lifecycle id ever given out. */
  datatype State = State(
    generator: nat,
    caches: map<Thread, ThreadCache>,
    pcs: map<Thread, Pc>,
    heap: map<Addr, Serial>,
    arenas: map<ArenaId, Arena>,
    lists: map<ArenaId, seq<Addr>>,
    issued: seq<nat>)

  datatype Step =
    | Spawn(t: Thread)
    | Construct(t: Thread, a: ArenaId, messageOwned: bool, block: Addr)
    | Reset(t: Thread, a: ArenaId, block: Addr)
    | Destroy(t: Thread, a: ArenaId)
    | Enter(t: Thread, a: ArenaId)
    | LoadThreads(t: Thread)
    | WalkOn(t: Thread)
    | Allocate(t: Thread, addr: Addr)
    | LoadHead(t: Thread)
    | Cas(t: Thread, spurious: bool)
    | WriteCache(t: Thread)
    | StoreHint(t: Thread)

  // ---------------------------------------------------------------- what the code does

  predicate CacheHit(s: State, t: Thread, a: ArenaId)
    requires t in s.caches && a in s.arenas
  {
    s.caches[t].lastSeen == s.arenas[a].tag
  }

  predicate HintHit(s: State, t: Thread, a: ArenaId)
    requires a in s.arenas
  {
    s.arenas[a].hint in s.heap && s.heap[s.arenas[a].hint].owner == t
  }

  /** GetSerialArenaFast: the cached SerialArena, else the hinted one if it is ours, else null. */
  function Fast(s: State, t: Thread, a: ArenaId): Addr
    requires t in s.caches && a in s.arenas
  {
    if CacheHit(s, t, a) then s.caches[t].lastSerial
    else if HintHit(s, t, a) then s.arenas[a].hint
    else 0
  }

  /** The slow search: the first SerialArena on the list that the thread owns, or null. */
  function Find(heap: map<Addr, Serial>, list: seq<Addr>, t: Thread): Addr {
    if list == [] then 0
    else if list[0] in heap && heap[list[0]].owner == t then list[0]
    else Find(heap, list[1..], t)
  }

  /** The lifecycle id Init takes: the next of the thread's batch, or the first of a new batch. */
  function TakenId(s: State, t: Thread): nat
    requires t in s.caches
  {
    var id := s.caches[t].nextId;
    if id % 512 == 0 then s.generator * 512 else id
  }

  function WithId(s: State, t: Thread): State
    requires t in s.caches
  {
    var id := TakenId(s, t);
    s.(generator := if s.caches[t].nextId % 512 == 0 then s.generator + 1 else s.generator,
       caches := s.caches[t := s.caches[t].(nextId := id + DELTA)],
       issued := s.issued + [id])
  }

  /** Init, and SetInitialBlock when there is a first block: its SerialArena is cached and hinted at once. */
  function Initialized(s: State, t: Thread, a: ArenaId, ownedBit: nat, block: Addr): State
    requires t in s.caches
  {
    var tag := TakenId(s, t) + ownedBit;
    var s1 := WithId(s, t);
    if block == 0 then
      s1.(arenas := s1.arenas[a := Arena(tag, 0, 0)], lists := s1.lists[a := []])
    else
      s1.(arenas := s1.arenas[a := Arena(tag, block, block)],
          lists := s1.lists[a := [block]],
          heap := s1.heap[block := Serial(t, 0)],
          caches := s1.caches[t := s1.caches[t].(lastSeen := tag, lastSerial := block)])
  }

  /** Every SerialArena of the arena is freed with its blocks. */
  function Freed(s: State, a: ArenaId): State
    requires a in s.lists
  {
    s.(heap := s.heap - (set x | x in s.lists[a]))
  }

  ghost predicate Exclusive(s: State, a: ArenaId) {
    forall t :: t in s.pcs ==> s.pcs[t].Idle? || s.pcs[t].a != a
  }

  ghost predicate Unused(s: State, addr: Addr) { addr != 0 && addr !in s.heap }

  ghost predicate Enabled(s: State, step: Step) {
    match step
    case Spawn(t) => t !in s.caches && t !in s.pcs
    case Construct(t, a, _, block) => At(s, t) == Idle && t in s.caches && a !in s.arenas
        && (block == 0 || Unused(s, block))
    case Reset(t, a, block) =>
      At(s, t) == Idle && t in s.caches && a in s.arenas && a in s.lists && Exclusive(s, a)
      && (block == 0 || Unused(Freed(s, a), block))
    case Destroy(t, a) => At(s, t) == Idle && t in s.caches && a in s.arenas && a in s.lists && Exclusive(s, a)
    case Enter(t, a) => At(s, t) == Idle && t in s.caches && a in s.arenas
    case LoadThreads(t) => At(s, t).Missed? && At(s, t).a in s.arenas
    case WalkOn(t) => At(s, t).Walking? && At(s, t).cur in s.heap
    case Allocate(t, addr) => At(s, t).Walking? && At(s, t).cur == 0 && Unused(s, addr)
    case LoadHead(t) => At(s, t).Allocated? && At(s, t).a in s.arenas
    case Cas(t, _) =>
      At(s, t).Pushing? && At(s, t).a in s.arenas && At(s, t).a in s.lists && At(s, t).serial in s.heap
    case WriteCache(t) => At(s, t).Caching? && t in s.caches && At(s, t).a in s.arenas
    case StoreHint(t) => At(s, t).Hinting? && At(s, t).a in s.arenas
  }

  function At(s: State, t: Thread): Pc {
    if t in s.pcs then s.pcs[t] else Idle
  }

  function Goto(s: State, t: Thread, pc: Pc): State { s.(pcs := s.pcs[t := pc]) }

  ghost function Apply(s: State, step: Step): State
    requires Enabled(s, step)
  {
    match step
    case Spawn(t) => Goto(s, t, Idle).(caches := s.caches[t := ThreadCache(0, -1, 0)])
    case Construct(t, a, messageOwned, block) => Initialized(s, t, a, if messageOwned then 1 else 0, block)
    case Reset(t, a, block) => Initialized(Freed(s, a), t, a, s.arenas[a].tag % 2, block)
    case Destroy(t, a) => Freed(s, a).(arenas := s.arenas - {a}, lists := s.lists - {a})
    case Enter(t, a) => if CacheHit(s, t, a) || HintHit(s, t, a) then s else Goto(s, t, Missed(a))
    case LoadThreads(t) => Goto(s, t, Walking(At(s, t).a, s.arenas[At(s, t).a].threads))
    case WalkOn(t) =>
      var Walking(a, cur) := At(s, t);
      if s.heap[cur].owner == t then Goto(s, t, Caching(a, cur)) else Goto(s, t, Walking(a, s.heap[cur].next))
    case Allocate(t, addr) =>
      Goto(s, t, Allocated(At(s, t).a, addr)).(heap := s.heap[addr := Serial(t, 0)])
    case LoadHead(t) =>
      var Allocated(a, serial) := At(s, t);
      Goto(s, t, Pushing(a, serial, s.arenas[a].threads))
    case Cas(t, spurious) =>
      var Pushing(a, serial, head) := At(s, t);
      var s1 := s.(heap := s.heap[serial := s.heap[serial].(next := head)]);
      if s.arenas[a].threads == head && !spurious then
        Goto(s1, t, Caching(a, serial)).(
          arenas := s.arenas[a := s.arenas[a].(threads := serial)],
          lists := s.lists[a := [serial] + s.lists[a]])
      else
        Goto(s1, t, Pushing(a, serial, s.arenas[a].threads))
    case WriteCache(t) =>
      var Caching(a, serial) := At(s, t);
      Goto(s, t, Hinting(a, serial)).(
        caches := s.caches[t := s.caches[t].(lastSeen := s.arenas[a].tag, lastSerial := serial)])
    case StoreHint(t) =>
      var Hinting(a, serial) := At(s, t);
      Goto(s, t, Idle).(arenas := s.arenas[a := s.arenas[a].(hint := serial)])
  }

  const INITIAL := State(0, map[], map[], map[], map[], map[], [])

  // ---------------------------------------------------------------- the invariant

  /** The id without the message-owned bit. */
  function IdOf(tag: int): int { tag - tag % 2 }

  ghost predicate Distinct(ids: seq<nat>) {
    forall i, j :: 0 <= i < j < |ids| ==> ids[i] != ids[j]
  }

  /** A thread whose batch is not used up owns the rest of that batch. */
  predicate HoldsBatch(c: ThreadCache) { c.nextId % 512 != 0 }

  /** Of another batch, or earlier in the same one. */
  predicate Before(id: nat, next: nat) { BatchOf(id) == BatchOf(next) ==> id < next }

  function BatchOf(id: nat): nat { id / 512 }

  predicate Below(id: nat, generator: nat) { id < generator * 512 }

  ghost predicate IssuedOk(generator: nat, issued: seq<nat>) {
    Distinct(issued) && forall i :: 0 <= i < |issued| ==> issued[i] % 2 == 0 && Below(issued[i], generator)
  }

  ghost predicate BatchesOk(generator: nat, caches: map<Thread, ThreadCache>) {
    && (forall t :: t in caches ==> caches[t].nextId % 2 == 0)
    && (forall t :: t in caches && HoldsBatch(caches[t]) ==> Below(caches[t].nextId, generator))
    && (forall t, u :: t in caches && u in caches && t != u && HoldsBatch(caches[t]) && HoldsBatch(caches[u]) ==>
          BatchOf(caches[t].nextId) != BatchOf(caches[u].nextId))
  }

  ghost predicate UnissuedOk(caches: map<Thread, ThreadCache>, issued: seq<nat>) {
    forall t, i :: t in caches && HoldsBatch(caches[t]) && 0 <= i < |issued| ==> Before(issued[i], caches[t].nextId)
  }

  /** Issued ids differ, and what is left of each thread's batch is its own and was never issued. */
  ghost predicate IdsOk(generator: nat, caches: map<Thread, ThreadCache>, issued: seq<nat>) {
    IssuedOk(generator, issued) && BatchesOk(generator, caches) && UnissuedOk(caches, issued)
  }

  /** Tags in use are tags of issued ids, and no two arenas share an id. */
  ghost predicate TagsOk(arenas: map<ArenaId, Arena>, caches: map<Thread, ThreadCache>, issued: seq<nat>) {
    && (forall a :: a in arenas ==> IdOf(arenas[a].tag) in issued)
    && (forall a, b :: a in arenas && b in arenas && a != b ==> IdOf(arenas[a].tag) != IdOf(arenas[b].tag))
    && (forall t :: t in caches ==> caches[t].lastSeen == -1 || IdOf(caches[t].lastSeen) in issued)
  }

  /** The pointers from `head` on run through exactly the listed SerialArenas and end in null. */
  ghost predicate Linked(heap: map<Addr, Serial>, head: Addr, list: seq<Addr>) {
    && head == (if list == [] then 0 else list[0])
    && (forall i :: 0 <= i < |list| ==>
          list[i] != 0 && list[i] in heap && heap[list[i]].next == (if i + 1 < |list| then list[i + 1] else 0))
  }

  /** No thread has two SerialArenas on one list. */
  ghost predicate OnePerOwner(heap: map<Addr, Serial>, list: seq<Addr>) {
    forall i, j :: 0 <= i < j < |list| && list[i] in heap && list[j] in heap ==>
      heap[list[i]].owner != heap[list[j]].owner
  }

  ghost predicate ListsOk(heap: map<Addr, Serial>, arenas: map<ArenaId, Arena>, lists: map<ArenaId, seq<Addr>>) {
    && arenas.Keys == lists.Keys
    && (forall a :: a in arenas ==> Linked(heap, arenas[a].threads, lists[a]))
    && (forall a :: a in arenas ==> OnePerOwner(heap, lists[a]))
    && (forall a, b, x :: a in lists && b in lists && x in lists[a] && x in lists[b] ==> a == b)
    && (forall a :: a in arenas && arenas[a].hint != 0 ==> arenas[a].hint in lists[a])
    && 0 !in heap
  }

  ghost predicate Mine(heap: map<Addr, Serial>, lists: map<ArenaId, seq<Addr>>, t: Thread, a: ArenaId, serial: Addr) {
    a in lists && serial in lists[a] && serial in heap && heap[serial].owner == t
  }

  ghost predicate NoneMine(heap: map<Addr, Serial>, t: Thread, list: seq<Addr>) {
    forall i :: 0 <= i < |list| && list[i] in heap ==> heap[list[i]].owner != t
  }

  /** A cache that shows an arena's current tag shows the thread's own SerialArena in it. */
  ghost predicate CachesOk(heap: map<Addr, Serial>, arenas: map<ArenaId, Arena>, lists: map<ArenaId, seq<Addr>>,
                           caches: map<Thread, ThreadCache>) {
    forall t, a :: t in caches && a in arenas && caches[t].lastSeen == arenas[a].tag ==>
      Mine(heap, lists, t, a, caches[t].lastSerial)
  }

  ghost predicate Unlisted(lists: map<ArenaId, seq<Addr>>, serial: Addr) {
    forall a :: a in lists ==> serial !in lists[a]
  }

  /** `cur` is entry k of the list (or the end), and no entry before it is the thread's. */
  ghost predicate Ahead(heap: map<Addr, Serial>, t: Thread, list: seq<Addr>, cur: Addr, k: int) {
    && 0 <= k <= |list| && cur == (if k < |list| then list[k] else 0)
    && NoneMine(heap, t, list[..k])
  }

  /** A new SerialArena the thread has not pushed yet; it has no other one on the list. */
  ghost predicate Pending(heap: map<Addr, Serial>, lists: map<ArenaId, seq<Addr>>, t: Thread, a: ArenaId, serial: Addr)
  {
    && a in lists && serial in heap && heap[serial].owner == t
    && Unlisted(lists, serial) && NoneMine(heap, t, lists[a])
  }

  ghost predicate PcOk(heap: map<Addr, Serial>, lists: map<ArenaId, seq<Addr>>, t: Thread, pc: Pc) {
    match pc
    case Idle => true
    case Missed(a) => a in lists
    case Walking(a, cur) => a in lists && exists k :: Ahead(heap, t, lists[a], cur, k)
    case Allocated(a, serial) => Pending(heap, lists, t, a, serial)
    case Pushing(a, serial, head) => Pending(heap, lists, t, a, serial)
    case Caching(a, serial) => Mine(heap, lists, t, a, serial)
    case Hinting(a, serial) => Mine(heap, lists, t, a, serial)
  }

  ghost predicate PcsOk(heap: map<Addr, Serial>, lists: map<ArenaId, seq<Addr>>, pcs: map<Thread, Pc>,
                        caches: map<Thread, ThreadCache>) {
    && pcs.Keys == caches.Keys
    && (forall t :: t in pcs ==> PcOk(heap, lists, t, pcs[t]))
  }

  /** The thread is about to push this SerialArena. */
  predicate Holds(pc: Pc, serial: Addr) { (pc.Allocated? || pc.Pushing?) && pc.serial == serial }

  /** Every SerialArena in memory is on a list, or its owner is about to push it: none is leaked or lost. */
  ghost predicate NoneLost(heap: map<Addr, Serial>, lists: map<ArenaId, seq<Addr>>, pcs: map<Thread, Pc>) {
    forall x :: x in heap && Unlisted(lists, x) ==> heap[x].owner in pcs && Holds(pcs[heap[x].owner], x)
  }

  ghost predicate Inv(s: State) {
    && IdsOk(s.generator, s.caches, s.issued)
    && TagsOk(s.arenas, s.caches, s.issued)
    && ListsOk(s.heap, s.arenas, s.lists)
    && CachesOk(s.heap, s.arenas, s.lists, s.caches)
    && PcsOk(s.heap, s.lists, s.pcs, s.caches)
    && NoneLost(s.heap, s.lists, s.pcs)
  }

  // ---------------------------------------------------------------- each step keeps it

  /** Taking an id from a batch that is not used up. */
  lemma NextInBatch(id: nat, g: nat)
    requires id % 2 == 0 && Below(id, g)
    ensures (id + DELTA) % 512 != 0 ==> BatchOf(id + DELTA) == BatchOf(id) && Below(id + DELTA, g)
    ensures BatchOf(id) < g
  {
    var q, r := id / 512, id % 512;
    assert id == q * 512 + r && r % 2 == 0 by { assert id == 2 * (q * 256) + r; }
    if r + DELTA < 512 { Quotient(id + DELTA, q, r + DELTA); } else { Quotient(id + DELTA, q + 1, 0); }
  }

  lemma Quotient(x: nat, q: nat, r: nat)
    requires x == q * 512 + r && r < 512
    ensures x / 512 == q && x % 512 == r
  {
  }

  /** The first id of a new batch comes after everything below the generator. */
  lemma FirstOfBatch(g: nat)
    ensures (g * 512) % 512 == 0 && (g * 512) % 2 == 0 && BatchOf(g * 512) == g
    ensures Below(g * 512, g + 1) && !Below(g * 512, g)
  {
    Quotient(g * 512, g, 0);
    assert g * 512 == 2 * (g * 256);
  }

  lemma IdIsNew(s: State, t: Thread)
    requires IdsOk(s.generator, s.caches, s.issued) && t in s.caches
    ensures TakenId(s, t) !in s.issued && TakenId(s, t) % 2 == 0
    ensures var s' := WithId(s, t); IdsOk(s'.generator, s'.caches, s'.issued)
  {
    var id, g' := TakenId(s, t), WithId(s, t).generator;
    FirstOfBatch(s.generator);
    NextInBatch(id, g');
    assert HoldsBatch(s.caches[t]) <==> id != s.generator * 512 by {
      if HoldsBatch(s.caches[t]) { assert Below(id, s.generator); }
    }
    forall i | 0 <= i < |s.issued| ensures s.issued[i] != id && Before(s.issued[i], id) && Below(s.issued[i], g') {
      NextInBatch(s.issued[i], s.generator);
      if HoldsBatch(s.caches[t]) { assert Before(s.issued[i], s.caches[t].nextId); }
    }
    forall u | u in s.caches && u != t && HoldsBatch(s.caches[u])
      ensures BatchOf(s.caches[u].nextId) != BatchOf(id) && Below(s.caches[u].nextId, g')
              && Before(id, s.caches[u].nextId)
    {
      NextInBatch(s.caches[u].nextId, s.generator);
    }
    WithIdKeeps(s.generator, g', s.caches, s.issued, t, id);
  }

  lemma WithIdKeeps(g: nat, g': nat, caches: map<Thread, ThreadCache>, issued: seq<nat>, t: Thread, id: nat)
    requires IdsOk(g, caches, issued) && t in caches && id % 2 == 0 && Below(id, g')
    requires forall i :: 0 <= i < |issued| ==> issued[i] != id && Before(issued[i], id) && Below(issued[i], g')
    requires forall u :: u in caches && u != t && HoldsBatch(caches[u]) ==>
               BatchOf(caches[u].nextId) != BatchOf(id) && Below(caches[u].nextId, g') && Before(id, caches[u].nextId)
    ensures IdsOk(g', caches[t := caches[t].(nextId := id + DELTA)], issued + [id])
  {
    hide BatchOf, Below, Before, HoldsBatch, IssuedOk, UnissuedOk;
    var c := caches[t].(nextId := id + DELTA);
    NextHeld(id, g', c);
    IssuedGrows(g, g', issued, id);
    BatchesGrow(g', caches, t, id, c);
    UnissuedGrows(caches, issued, t, id, c);
  }

  lemma NextHeld(id: nat, g: nat, c: ThreadCache)
    requires id % 2 == 0 && Below(id, g) && c.nextId == id + DELTA
    ensures c.nextId % 2 == 0 && (HoldsBatch(c) ==> Below(c.nextId, g) && BatchOf(c.nextId) == BatchOf(id))
  {
    hide BatchOf, Below;
    NextInBatch(id, g);
  }

  lemma BatchesGrow(g: nat, caches: map<Thread, ThreadCache>, t: Thread, id: nat, c: ThreadCache)
    requires forall u :: u in caches ==> caches[u].nextId % 2 == 0
    requires forall u, v :: u in caches && v in caches && u != v && HoldsBatch(caches[u]) && HoldsBatch(caches[v]) ==>
               BatchOf(caches[u].nextId) != BatchOf(caches[v].nextId)
    requires c.nextId % 2 == 0 && (HoldsBatch(c) ==> Below(c.nextId, g) && BatchOf(c.nextId) == BatchOf(id))
    requires forall u :: u in caches && u != t && HoldsBatch(caches[u]) ==>
               BatchOf(caches[u].nextId) != BatchOf(id) && Below(caches[u].nextId, g)
    ensures BatchesOk(g, caches[t := c])
  {
    hide BatchOf, Below, HoldsBatch;
  }

  lemma IssuedGrows(g: nat, g': nat, issued: seq<nat>, id: nat)
    requires IssuedOk(g, issued) && id % 2 == 0 && Below(id, g')
    requires forall i :: 0 <= i < |issued| ==> issued[i] != id && Below(issued[i], g')
    ensures IssuedOk(g', issued + [id])
  {
    hide Below;
  }

  lemma UnissuedGrows(caches: map<Thread, ThreadCache>, issued: seq<nat>, t: Thread, id: nat, c: ThreadCache)
    requires UnissuedOk(caches, issued) && c.nextId == id + DELTA
             && (HoldsBatch(c) ==> BatchOf(c.nextId) == BatchOf(id))
    requires forall i :: 0 <= i < |issued| ==> Before(issued[i], id)
    requires forall u :: u in caches && u != t && HoldsBatch(caches[u]) ==> Before(id, caches[u].nextId)
    ensures UnissuedOk(caches[t := c], issued + [id])
  {
    forall i | 0 <= i < |issued + [id]| ensures HoldsBatch(c) ==> Before((issued + [id])[i], c.nextId) {
      if i < |issued| { assert Before(issued[i], id); }
    }
    hide Before, HoldsBatch, BatchOf;
  }

  /** A program counter's claim rests on the lists and on who owns what; new arenas and SerialArenas do not matter. */
  lemma PcFrame(heap: map<Addr, Serial>, heap': map<Addr, Serial>,
                lists: map<ArenaId, seq<Addr>>, lists': map<ArenaId, seq<Addr>>, t: Thread, pc: Pc)
    requires PcOk(heap, lists, t, pc)
    requires forall x :: x in heap ==> x in heap' && heap'[x].owner == heap[x].owner
    requires forall x :: x in heap' && x !in heap ==> Unlisted(lists, x)
    requires forall a :: a in lists ==> a in lists' && lists'[a] == lists[a]
    requires forall a, x :: a in lists' && a !in lists && x in lists'[a] ==> x !in heap
    ensures PcOk(heap', lists', t, pc)
  {
    forall a, i | a in lists && 0 <= i < |lists[a]| && lists[a][i] in heap' ensures lists[a][i] in heap {
      assert lists[a][i] in lists[a];
    }
    if pc.Walking? {
      var list := lists[pc.a];
      var k :| Ahead(heap, t, list, pc.cur, k);
      forall i | 0 <= i < |list[..k]| && list[..k][i] in heap' ensures heap'[list[..k][i]].owner != t {
        assert list[..k][i] == list[i];
      }
      assert Ahead(heap', t, list, pc.cur, k);
    }
  }

  lemma ListedIsInHeap(heap: map<Addr, Serial>, arenas: map<ArenaId, Arena>, lists: map<ArenaId, seq<Addr>>,
                       a: ArenaId, x: Addr)
    requires ListsOk(heap, arenas, lists) && a in lists && x in lists[a]
    ensures x in heap && x != 0
  {
    assert Linked(heap, arenas[a].threads, lists[a]);
  }

  lemma PcHolds(s: State, t: Thread)
    requires Inv(s)
    ensures s.pcs.Keys == s.caches.Keys
    ensures t in s.pcs ==> PcOk(s.heap, s.lists, t, s.pcs[t])
  {
  }

  lemma ListHolds(s: State, a: ArenaId)
    requires ListsOk(s.heap, s.arenas, s.lists) && a in s.arenas
    ensures a in s.lists && Linked(s.heap, s.arenas[a].threads, s.lists[a]) && OnePerOwner(s.heap, s.lists[a])
    ensures 0 !in s.heap
  {
  }

  /** Moving one program counter, with everything it can see unchanged. */
  lemma GotoKeeps(s: State, t: Thread, pc: Pc)
    requires Inv(s) && t in s.pcs && PcOk(s.heap, s.lists, t, pc)
    requires s.pcs[t].Allocated? || s.pcs[t].Pushing? ==> Holds(pc, s.pcs[t].serial)
    ensures Inv(Goto(s, t, pc))
  {
    hide IdsOk, TagsOk, ListsOk, CachesOk, PcOk, Unlisted;
  }

  lemma SpawnKeeps(s: State, t: Thread)
    requires Inv(s) && Enabled(s, Spawn(t))
    ensures Inv(Apply(s, Spawn(t)))
  {
    var s' := Apply(s, Spawn(t));
    NewCacheKeepsIds(s.generator, s.caches, s.issued, t, s'.caches[t]);
    NewCacheKeepsRest(s, t, s'.caches[t]);
    hide IdsOk, TagsOk, CachesOk, ListsOk, PcOk, Unlisted, NoneLost, PcsOk;
    SpawnKeepsPcs(s, t);
  }

  lemma SpawnKeepsPcs(s: State, t: Thread)
    requires PcsOk(s.heap, s.lists, s.pcs, s.caches) && NoneLost(s.heap, s.lists, s.pcs) && t !in s.caches
             && t !in s.pcs
    ensures PcsOk(s.heap, s.lists, s.pcs[t := Idle], s.caches[t := ThreadCache(0, -1, 0)])
    ensures NoneLost(s.heap, s.lists, s.pcs[t := Idle])
  {
    hide Unlisted;
    assert PcOk(s.heap, s.lists, t, Idle);
    hide PcOk;
  }

  lemma NewCacheKeepsIds(g: nat, caches: map<Thread, ThreadCache>, issued: seq<nat>, t: Thread, c: ThreadCache)
    requires IdsOk(g, caches, issued) && t !in caches && c.nextId == 0
    ensures IdsOk(g, caches[t := c], issued)
  {
    assert !HoldsBatch(c);
    hide HoldsBatch, Before, BatchOf, Below;
  }

  lemma NewCacheKeepsRest(s: State, t: Thread, c: ThreadCache)
    requires TagsOk(s.arenas, s.caches, s.issued) && CachesOk(s.heap, s.arenas, s.lists, s.caches)
    requires c.lastSeen == -1
    ensures TagsOk(s.arenas, s.caches[t := c], s.issued)
    ensures CachesOk(s.heap, s.arenas, s.lists, s.caches[t := c])
  {
    hide IdOf, Mine;
  }

  lemma DestroyKeeps(s: State, t: Thread, a: ArenaId)
    requires Inv(s) && Enabled(s, Destroy(t, a))
    ensures Inv(Apply(s, Destroy(t, a)))
  {
    var s' := Apply(s, Destroy(t, a));
    DestroyKeepsLists(s, t, a);
    DestroyKeepsCaches(s, t, a);
    DestroyLosesNone(s, t, a);
    DestroyKeepsTags(s, t, a);
    hide IdsOk, TagsOk, ListsOk, CachesOk, NoneLost, PcOk;
    forall u | u in s'.pcs ensures PcOk(s'.heap, s'.lists, u, s'.pcs[u]) {
      DestroyKeepsPc(s, t, a, u);
    }
    hide Exclusive, PcsOk;
    PcHolds(s, t);
    PcsFromEach(s');
  }

  lemma DestroyKeepsTags(s: State, t: Thread, a: ArenaId)
    requires Inv(s) && Enabled(s, Destroy(t, a))
    ensures var s' := Apply(s, Destroy(t, a)); TagsOk(s'.arenas, s'.caches, s'.issued)
  {
    hide IdsOk, ListsOk, CachesOk, NoneLost, PcsOk, IdOf;
  }

  lemma DestroyKeepsCaches(s: State, t: Thread, a: ArenaId)
    requires Inv(s) && Enabled(s, Destroy(t, a))
    ensures var s' := Apply(s, Destroy(t, a)); CachesOk(s'.heap, s'.arenas, s'.lists, s'.caches)
  {
    hide IdsOk, TagsOk, PcsOk, NoneLost, Linked, OnePerOwner;
    var s' := Apply(s, Destroy(t, a));
    forall u, b | u in s'.caches && b in s'.arenas && s'.caches[u].lastSeen == s'.arenas[b].tag
      ensures Mine(s'.heap, s'.lists, u, b, s'.caches[u].lastSerial)
    {
      assert Mine(s.heap, s.lists, u, b, s.caches[u].lastSerial);
    }
  }

  lemma DestroyLosesNone(s: State, t: Thread, a: ArenaId)
    requires Inv(s) && Enabled(s, Destroy(t, a))
    ensures var s' := Apply(s, Destroy(t, a)); NoneLost(s'.heap, s'.lists, s'.pcs)
  {
    hide IdsOk, TagsOk, PcsOk, CachesOk, ListsOk;
    var s' := Apply(s, Destroy(t, a));
    forall x | x in s'.heap && Unlisted(s'.lists, x) ensures x in s.heap && Unlisted(s.lists, x) {
      forall b | b in s.lists ensures x !in s.lists[b] {
        if b != a { assert b in s'.lists; }
      }
    }
  }

  lemma DestroyKeepsLists(s: State, t: Thread, a: ArenaId)
    requires Inv(s) && Enabled(s, Destroy(t, a))
    ensures var s' := Apply(s, Destroy(t, a)); ListsOk(s'.heap, s'.arenas, s'.lists)
  {
    hide IdsOk, TagsOk, CachesOk, PcsOk, NoneLost, Unlisted;
    var s' := Apply(s, Destroy(t, a));
    forall b | b in s'.arenas
      ensures Linked(s'.heap, s'.arenas[b].threads, s'.lists[b]) && OnePerOwner(s'.heap, s'.lists[b])
    {
      assert Linked(s.heap, s.arenas[b].threads, s.lists[b]) && OnePerOwner(s.heap, s.lists[b]);
      forall i | 0 <= i < |s.lists[b]| ensures s.lists[b][i] in s'.heap {
        assert s.lists[b][i] in s.lists[b];
      }
    }
  }

  lemma DestroyKeepsPc(s: State, t: Thread, a: ArenaId, u: Thread)
    requires Inv(s) && Enabled(s, Destroy(t, a)) && u in s.pcs
    ensures var s' := Apply(s, Destroy(t, a)); PcOk(s'.heap, s'.lists, u, s'.pcs[u])
  {
    hide IdsOk, TagsOk, CachesOk, NoneLost;
    var s' := Apply(s, Destroy(t, a));
    var pc := s.pcs[u];
    assert PcOk(s.heap, s.lists, u, pc);
    assert pc.Idle? || pc.a != a;
    if pc.Walking? {
      var k :| Ahead(s.heap, u, s.lists[pc.a], pc.cur, k);
      assert Ahead(s'.heap, u, s'.lists[pc.a], pc.cur, k);
    }
  }

  lemma InitializedKeeps(s: State, t: Thread, a: ArenaId, ownedBit: nat, block: Addr)
    requires Inv(s) && t in s.caches && a !in s.arenas && ownedBit < 2
    requires block == 0 || Unused(s, block)
    ensures Inv(Initialized(s, t, a, ownedBit, block))
  {
    var s' := Initialized(s, t, a, ownedBit, block);
    InitializedKeepsIds(s, t, a, ownedBit, block);
    InitializedKeepsLists(s, t, a, ownedBit, block);
    InitializedLosesNone(s, t, a, ownedBit, block);
    hide IdsOk, TagsOk, ListsOk, CachesOk, NoneLost, PcOk;
    forall u | u in s'.pcs ensures PcOk(s'.heap, s'.lists, u, s'.pcs[u]) {
      InitializedKeepsPc(s, t, a, ownedBit, block, u);
    }
  }

  lemma InitializedLosesNone(s: State, t: Thread, a: ArenaId, ownedBit: nat, block: Addr)
    requires Inv(s) && t in s.caches && a !in s.arenas
    requires block == 0 || Unused(s, block)
    ensures var s' := Initialized(s, t, a, ownedBit, block); NoneLost(s'.heap, s'.lists, s'.pcs)
  {
    hide IdsOk, TagsOk, ListsOk, CachesOk;
    ListedKeys(s);
    var s' := Initialized(s, t, a, ownedBit, block);
    forall x | x in s'.heap && Unlisted(s'.lists, x) ensures x in s.heap && Unlisted(s.lists, x) {
      assert x !in s'.lists[a];
      forall b | b in s.lists ensures x !in s.lists[b] { assert b in s'.lists; }
    }
  }

  lemma ListedKeys(s: State)
    requires ListsOk(s.heap, s.arenas, s.lists)
    ensures s.arenas.Keys == s.lists.Keys
  {
  }

  lemma InitializedKeepsIds(s: State, t: Thread, a: ArenaId, ownedBit: nat, block: Addr)
    requires Inv(s) && t in s.caches && a !in s.arenas && ownedBit < 2
    requires block == 0 || Unused(s, block)
    ensures var s' := Initialized(s, t, a, ownedBit, block);
            && IdsOk(s'.generator, s'.caches, s'.issued)
            && TagsOk(s'.arenas, s'.caches, s'.issued)
            && CachesOk(s'.heap, s'.arenas, s'.lists, s'.caches)
  {
    hide IdsOk, TagsOk, CachesOk, PcsOk, NoneLost, ListsOk, TakenId;
    IdIsNew(s, t);
    ListedKeys(s);
    var s' := Initialized(s, t, a, ownedBit, block);
    var id := TakenId(s, t);
    var tag := id + ownedBit;
    var c := s'.caches[t];
    assert IdOf(tag) == id;
    IdsIgnoreCached(s', c, t, WithId(s, t));
    NewTagKeepsTags(s, t, a, id, s'.arenas[a], c);
    NewTagKeepsCaches(s, s', t, a, tag, c, block);
  }

  lemma NewTagKeepsTags(s: State, t: Thread, a: ArenaId, id: nat, arena: Arena, c: ThreadCache)
    requires TagsOk(s.arenas, s.caches, s.issued) && t in s.caches
    requires id !in s.issued && IdOf(arena.tag) == id
    requires c.lastSeen == arena.tag || c.lastSeen == s.caches[t].lastSeen
    ensures TagsOk(s.arenas[a := arena], s.caches[t := c], s.issued + [id])
  {
    hide IdOf;
    assert forall i :: i in s.issued + [id] <==> i in s.issued || i == id;
  }

  lemma NewTagKeepsCaches(s: State, s': State, t: Thread, a: ArenaId, tag: nat, c: ThreadCache, block: Addr)
    requires TagsOk(s.arenas, s.caches, s.issued) && CachesOk(s.heap, s.arenas, s.lists, s.caches)
    requires t in s.caches && a !in s.arenas && a !in s.lists && IdOf(tag) !in s.issued
    requires s'.arenas == s.arenas[a := Arena(tag, block, block)] && s'.caches == s.caches[t := c]
    requires if block == 0 then c.lastSeen == s.caches[t].lastSeen && c.lastSerial == s.caches[t].lastSerial
             else c.lastSeen == tag && c.lastSerial == block
    requires s'.heap == (if block == 0 then s.heap else s.heap[block := Serial(t, 0)])
             && (block == 0 || block !in s.heap)
    requires s'.lists == s.lists[a := if block == 0 then [] else [block]]
    ensures CachesOk(s'.heap, s'.arenas, s'.lists, s'.caches)
  {
    hide IdOf;
    forall u, b | u in s'.caches && b in s'.arenas && s'.caches[u].lastSeen == s'.arenas[b].tag
      ensures Mine(s'.heap, s'.lists, u, b, s'.caches[u].lastSerial)
    {
      if b != a {
        assert IdOf(s.arenas[b].tag) in s.issued;
        assert Mine(s.heap, s.lists, u, b, s.caches[u].lastSerial);
      }
    }
  }

  lemma IdsIgnoreCached(s: State, c: ThreadCache, t: Thread, w: State)
    requires IdsOk(w.generator, w.caches, w.issued) && t in w.caches && c.nextId == w.caches[t].nextId
    requires s.generator == w.generator && s.issued == w.issued && s.caches == w.caches[t := c]
    ensures IdsOk(s.generator, s.caches, s.issued)
  {
  }

  lemma InitializedKeepsLists(s: State, t: Thread, a: ArenaId, ownedBit: nat, block: Addr)
    requires Inv(s) && t in s.caches && a !in s.arenas
    requires block == 0 || Unused(s, block)
    ensures var s' := Initialized(s, t, a, ownedBit, block); ListsOk(s'.heap, s'.arenas, s'.lists)
  {
    hide IdsOk, TagsOk, CachesOk, PcsOk, NoneLost, ListsOk;
    var s' := Initialized(s, t, a, ownedBit, block);
    if block == 0 {
      EmptyArenaKeepsLists(s.heap, s.arenas, s.lists, a, s'.arenas[a]);
    } else {
      AddressIsUnlisted(s, block);
      NewSerialKeepsLists(s.heap, s'.heap, s.arenas, s.lists, block);
      OneSerialKeepsLists(s'.heap, s.arenas, s.lists, a, s'.arenas[a], block);
    }
  }

  lemma EmptyArenaKeepsLists(heap: map<Addr, Serial>, arenas: map<ArenaId, Arena>, lists: map<ArenaId, seq<Addr>>,
                             a: ArenaId, arena: Arena)
    requires ListsOk(heap, arenas, lists) && a !in arenas && arena.threads == arena.hint == 0
    ensures ListsOk(heap, arenas[a := arena], lists[a := []])
  {
    assert Linked(heap, 0, []) && OnePerOwner(heap, []);
    hide Linked, OnePerOwner;
  }

  lemma OneSerialKeepsLists(heap: map<Addr, Serial>, arenas: map<ArenaId, Arena>, lists: map<ArenaId, seq<Addr>>,
                            a: ArenaId, arena: Arena, block: Addr)
    requires ListsOk(heap, arenas, lists) && a !in arenas && arena.threads == arena.hint == block
    requires Unlisted(lists, block) && block != 0 && block in heap && heap[block].next == 0
    ensures ListsOk(heap, arenas[a := arena], lists[a := [block]])
  {
    assert Linked(heap, block, [block]) && OnePerOwner(heap, [block]);
    hide Linked, OnePerOwner;
  }

  lemma InitializedKeepsPc(s: State, t: Thread, a: ArenaId, ownedBit: nat, block: Addr, u: Thread)
    requires Inv(s) && t in s.caches && a !in s.arenas && u in s.pcs
    requires block == 0 || Unused(s, block)
    ensures var s' := Initialized(s, t, a, ownedBit, block); PcOk(s'.heap, s'.lists, u, s'.pcs[u])
  {
    hide IdsOk, TagsOk, CachesOk, NoneLost, ListsOk, PcOk;
    var s' := Initialized(s, t, a, ownedBit, block);
    ListedKeys(s);
    forall b | b in s.lists && block != 0 ensures block !in s.lists[b] {
      if block in s.lists[b] { ListedIsInHeap(s.heap, s.arenas, s.lists, b, block); }
    }
    PcFrame(s.heap, s'.heap, s.lists, s'.lists, u, s.pcs[u]);
  }

  lemma ResetKeeps(s: State, t: Thread, a: ArenaId, block: Addr)
    requires Inv(s) && Enabled(s, Reset(t, a, block))
    ensures Inv(Apply(s, Reset(t, a, block)))
  {
    hide IdsOk, TagsOk, ListsOk, CachesOk, PcsOk, NoneLost;
    DestroyKeeps(s, t, a);
    var s1 := Apply(s, Destroy(t, a));
    InitializedKeeps(s1, t, a, s.arenas[a].tag % 2, block);
    assert Initialized(s1, t, a, s.arenas[a].tag % 2, block) == Apply(s, Reset(t, a, block));
  }

  lemma LoadThreadsKeeps(s: State, t: Thread)
    requires Inv(s) && Enabled(s, LoadThreads(t))
    ensures Inv(Apply(s, LoadThreads(t)))
  {
    hide IdsOk, TagsOk, CachesOk, ListsOk, PcsOk, NoneLost;
    var a := At(s, t).a;
    ListHolds(s, a);
    assert Ahead(s.heap, t, s.lists[a], s.arenas[a].threads, 0);
    GotoKeeps(s, t, Walking(a, s.arenas[a].threads));
  }

  lemma NoneMineExtended(heap: map<Addr, Serial>, t: Thread, list: seq<Addr>, k: nat)
    requires k < |list| && NoneMine(heap, t, list[..k]) && list[k] in heap && heap[list[k]].owner != t
    ensures NoneMine(heap, t, list[..k + 1])
  {
    assert list[..k + 1] == list[..k] + [list[k]];
  }

  /** One step along the list: either the thread's own SerialArena is found, or it is further on. */
  lemma WalkOnPc(s: State, t: Thread, a: ArenaId, cur: Addr)
    requires ListsOk(s.heap, s.arenas, s.lists) && PcOk(s.heap, s.lists, t, Walking(a, cur)) && cur in s.heap
    ensures PcOk(s.heap, s.lists, t, if s.heap[cur].owner == t then Caching(a, cur) else Walking(a, s.heap[cur].next))
  {
    var list := s.lists[a];
    assert Linked(s.heap, s.arenas[a].threads, list);
    var k :| Ahead(s.heap, t, list, cur, k);
    assert k < |list| && list[k] == cur;
    if s.heap[cur].owner != t {
      NoneMineExtended(s.heap, t, list, k);
      assert Ahead(s.heap, t, list, s.heap[cur].next, k + 1);
    }
  }

  lemma WalkOnKeeps(s: State, t: Thread)
    requires Inv(s) && Enabled(s, WalkOn(t))
    ensures Inv(Apply(s, WalkOn(t)))
  {
    hide IdsOk, TagsOk, CachesOk, ListsOk, PcsOk, NoneLost, PcOk;
    PcHolds(s, t);
    WalkOnPc(s, t, At(s, t).a, At(s, t).cur);
    GotoKeeps(s, t, Apply(s, WalkOn(t)).pcs[t]);
  }

  lemma EnterKeeps(s: State, t: Thread, a: ArenaId)
    requires Inv(s) && Enabled(s, Enter(t, a))
    ensures Inv(Apply(s, Enter(t, a)))
  {
    hide IdsOk, TagsOk, CachesOk, ListsOk, PcsOk, NoneLost;
    PcHolds(s, t);
    ListHolds(s, a);
    GotoKeeps(s, t, Missed(a));
  }

  /** The end of the list is reached only when no entry is the thread's. */
  lemma AtTheEnd(s: State, t: Thread, a: ArenaId)
    requires ListsOk(s.heap, s.arenas, s.lists) && PcOk(s.heap, s.lists, t, Walking(a, 0))
    ensures a in s.lists && NoneMine(s.heap, t, s.lists[a])
  {
    var list := s.lists[a];
    assert Linked(s.heap, s.arenas[a].threads, list);
    var k :| Ahead(s.heap, t, list, 0, k);
    assert list[..|list|] == list;
  }

  lemma AddressIsUnlisted(s: State, addr: Addr)
    requires ListsOk(s.heap, s.arenas, s.lists) && addr !in s.heap
    ensures Unlisted(s.lists, addr)
  {
    forall b | b in s.lists && addr in s.lists[b] ensures false {
      ListedIsInHeap(s.heap, s.arenas, s.lists, b, addr);
    }
  }

  lemma AllocateKeeps(s: State, t: Thread, addr: Addr)
    requires Inv(s) && Enabled(s, Allocate(t, addr))
    ensures Inv(Apply(s, Allocate(t, addr)))
  {
    hide IdsOk, TagsOk, CachesOk, ListsOk, PcsOk, NoneLost, PcOk, Unlisted;
    var s' := Apply(s, Allocate(t, addr));
    var a := At(s, t).a;
    PcHolds(s, t);
    AtTheEnd(s, t, a);
    AddressIsUnlisted(s, addr);
    NewSerialKeepsLists(s.heap, s'.heap, s.arenas, s.lists, addr);
    NewSerialPc(s, s', t, a, addr);
    NewSerialKeepsOthers(s, s', t, addr);
  }

  /** A SerialArena that appears, or changes its next, on no list: caches, program counters and ownership stand. */
  lemma NewSerialKeepsOthers(s: State, s': State, t: Thread, addr: Addr)
    requires Inv(s) && Unlisted(s.lists, addr) && t in s.pcs
    requires addr in s'.heap && s'.heap == s.heap[addr := s'.heap[addr]] && s'.heap[addr].owner == t
    requires addr in s.heap ==> s.heap[addr].owner == t
    requires s'.lists == s.lists && s'.arenas == s.arenas && s'.caches == s.caches
    requires t in s'.pcs && s'.pcs == s.pcs[t := s'.pcs[t]] && PcOk(s'.heap, s'.lists, t, s'.pcs[t])
    requires Holds(s'.pcs[t], addr) && (s.pcs[t].Walking? || Holds(s.pcs[t], addr))
    ensures PcsOk(s'.heap, s'.lists, s'.pcs, s'.caches)
    ensures CachesOk(s'.heap, s'.arenas, s'.lists, s'.caches)
    ensures NoneLost(s'.heap, s'.lists, s'.pcs)
  {
    hide IdsOk, TagsOk, ListsOk, PcOk, Unlisted;
    forall u | u in s'.pcs && u != t ensures PcOk(s'.heap, s'.lists, u, s'.pcs[u]) {
      PcFrame(s.heap, s'.heap, s.lists, s'.lists, u, s.pcs[u]);
    }
  }

  lemma NewSerialPc(s: State, s': State, t: Thread, a: ArenaId, addr: Addr)
    requires a in s.lists && NoneMine(s.heap, t, s.lists[a]) && Unlisted(s.lists, addr)
    requires s'.lists == s.lists && s'.heap == s.heap[addr := Serial(t, 0)]
    ensures PcOk(s'.heap, s'.lists, t, Allocated(a, addr))
  {
    forall i | 0 <= i < |s.lists[a]| && s.lists[a][i] in s'.heap ensures s'.heap[s.lists[a][i]].owner != t {
      assert s.lists[a][i] in s.lists[a];
    }
  }

  /** Writing to a SerialArena that is on no list changes no list. */
  lemma NewSerialKeepsLists(heap: map<Addr, Serial>, heap': map<Addr, Serial>,
                            arenas: map<ArenaId, Arena>, lists: map<ArenaId, seq<Addr>>, addr: Addr)
    requires ListsOk(heap, arenas, lists) && Unlisted(lists, addr) && addr != 0
    requires addr in heap' && heap' == heap[addr := heap'[addr]]
    ensures ListsOk(heap', arenas, lists)
  {
    forall a | a in arenas ensures Linked(heap', arenas[a].threads, lists[a]) && OnePerOwner(heap', lists[a]) {
      assert Linked(heap, arenas[a].threads, lists[a]) && OnePerOwner(heap, lists[a]);
      forall i | 0 <= i < |lists[a]| ensures lists[a][i] != addr {
        assert lists[a][i] in lists[a];
      }
    }
  }

  lemma LoadHeadKeeps(s: State, t: Thread)
    requires Inv(s) && Enabled(s, LoadHead(t))
    ensures Inv(Apply(s, LoadHead(t)))
  {
    hide IdsOk, TagsOk, CachesOk, ListsOk, PcsOk, NoneLost, Pending;
    var Allocated(a, serial) := At(s, t);
    PcHolds(s, t);
    GotoKeeps(s, t, Pushing(a, serial, s.arenas[a].threads));
  }

  lemma PendingFacts(s: State, t: Thread)
    requires Inv(s) && At(s, t).Pushing?
    ensures var pc := At(s, t);
            && Pending(s.heap, s.lists, t, pc.a, pc.serial) && Unlisted(s.lists, pc.serial)
            && pc.serial in s.heap && s.heap[pc.serial].owner == t && pc.serial != 0
            && pc.a in s.lists && pc.a in s.arenas
  {
    hide IdsOk, TagsOk, CachesOk, ListsOk, PcsOk, NoneLost, Unlisted, NoneMine;
    PcHolds(s, t);
    ListedKeys(s);
    ListHolds(s, At(s, t).a);
  }

  /** set_next on a SerialArena that only its owner knows. */
  lemma SetNextKeeps(s: State, t: Thread, next: Addr)
    requires Inv(s) && At(s, t).Pushing?
    ensures At(s, t).serial in s.heap
    ensures Inv(s.(heap := s.heap[At(s, t).serial := s.heap[At(s, t).serial].(next := next)]))
  {
    hide IdsOk, TagsOk, CachesOk, ListsOk, PcsOk, NoneLost, Unlisted, NoneMine, PcOk, Pending;
    var Pushing(a, serial, head) := At(s, t);
    PendingFacts(s, t);
    var s' := s.(heap := s.heap[serial := s.heap[serial].(next := next)]);
    NewSerialKeepsLists(s.heap, s'.heap, s.arenas, s.lists, serial);
    PcHolds(s, t);
    PendingFrame(s, s', t);
    NewSerialKeepsOthers(s, s', t, serial);
  }

  lemma PendingFrame(s: State, s': State, t: Thread)
    requires t in s.pcs && PcOk(s.heap, s.lists, t, s.pcs[t])
    requires s'.lists == s.lists && s'.pcs == s.pcs && s'.heap.Keys == s.heap.Keys
    requires forall x :: x in s.heap ==> s'.heap[x].owner == s.heap[x].owner
    ensures PcOk(s'.heap, s'.lists, t, s'.pcs[t])
  {
    hide PcOk;
    PcFrame(s.heap, s'.heap, s.lists, s'.lists, t, s.pcs[t]);
  }

  /** The compare-and-swap took effect: the list has one more entry, in front. */
  function Pushed(s: State, t: Thread, a: ArenaId, serial: Addr): State
    requires a in s.arenas && a in s.lists
  {
    Goto(s, t, Caching(a, serial)).(
      arenas := s.arenas[a := s.arenas[a].(threads := serial)],
      lists := s.lists[a := [serial] + s.lists[a]])
  }

  lemma PushedKeeps(s: State, t: Thread)
    requires Inv(s) && At(s, t).Pushing? && At(s, t).a in s.arenas && At(s, t).a in s.lists
    requires At(s, t).serial in s.heap && s.heap[At(s, t).serial].next == s.arenas[At(s, t).a].threads
    ensures Inv(Pushed(s, t, At(s, t).a, At(s, t).serial))
  {
    hide IdsOk, TagsOk, CachesOk, ListsOk, PcsOk, NoneLost, Pending, Unlisted, PcOk;
    var Pushing(a, serial, head) := At(s, t);
    PendingFacts(s, t);
    var s' := Pushed(s, t, a, serial);
    PushedKeepsLists(s, s', t, a, serial);
    PushedKeepsOthers(s, s', t, a, serial);
    forall u | u in s'.pcs && u != t ensures PcOk(s'.heap, s'.lists, u, s'.pcs[u]) {
      PushedKeepsPc(s, s', t, a, serial, u);
    }
    PcHolds(s, t);
    PcsFromEach(s');
  }

  lemma PcsFromEach(s: State)
    requires s.pcs.Keys == s.caches.Keys
    requires forall t :: t in s.pcs ==> PcOk(s.heap, s.lists, t, s.pcs[t])
    ensures PcsOk(s.heap, s.lists, s.pcs, s.caches)
  {
  }

  lemma PushedKeepsLists(s: State, s': State, t: Thread, a: ArenaId, serial: Addr)
    requires ListsOk(s.heap, s.arenas, s.lists) && Pending(s.heap, s.lists, t, a, serial)
    requires a in s.arenas && s.heap[serial].next == s.arenas[a].threads
    requires s' == Pushed(s, t, a, serial)
    ensures ListsOk(s'.heap, s'.arenas, s'.lists)
  {
    forall b | b in s'.arenas
      ensures Linked(s'.heap, s'.arenas[b].threads, s'.lists[b]) && OnePerOwner(s'.heap, s'.lists[b])
    {
      assert Linked(s.heap, s.arenas[b].threads, s.lists[b]) && OnePerOwner(s.heap, s.lists[b]);
      if b == a {
        var list := [serial] + s.lists[a];
        assert forall i :: 0 < i < |list| ==> list[i] == s.lists[a][i - 1];
      }
    }
  }

  lemma PushedKeepsOthers(s: State, s': State, t: Thread, a: ArenaId, serial: Addr)
    requires Inv(s) && t in s.pcs && s.pcs[t].Pushing? && s.pcs[t].serial == serial
    requires a in s.arenas && a in s.lists && serial in s.heap && s.heap[serial].owner == t
    requires s' == Pushed(s, t, a, serial)
    ensures TagsOk(s'.arenas, s'.caches, s'.issued)
    ensures CachesOk(s'.heap, s'.arenas, s'.lists, s'.caches)
    ensures NoneLost(s'.heap, s'.lists, s'.pcs)
    ensures PcOk(s'.heap, s'.lists, t, Caching(a, serial))
  {
    hide IdsOk, ListsOk, PcsOk, IdOf;
    assert serial in s'.lists[a];
    forall u, b | u in s'.caches && b in s'.arenas && s'.caches[u].lastSeen == s'.arenas[b].tag
      ensures Mine(s'.heap, s'.lists, u, b, s'.caches[u].lastSerial)
    {
      assert Mine(s.heap, s.lists, u, b, s.caches[u].lastSerial);
    }
    forall x | x in s'.heap && Unlisted(s'.lists, x) ensures x != serial && Unlisted(s.lists, x) {
      forall b | b in s.lists ensures x !in s.lists[b] { assert x !in s'.lists[b]; }
    }
  }

  lemma PushedKeepsPc(s: State, s': State, t: Thread, a: ArenaId, serial: Addr, u: Thread)
    requires PcsOk(s.heap, s.lists, s.pcs, s.caches) && u in s.pcs && u != t
    requires a in s.arenas && Pending(s.heap, s.lists, t, a, serial)
    requires s' == Pushed(s, t, a, serial)
    ensures PcOk(s'.heap, s'.lists, u, s'.pcs[u])
  {
    var pc := s.pcs[u];
    assert PcOk(s.heap, s.lists, u, pc);
    var list := s.lists[a];
    var list' := [serial] + list;
    if pc.Walking? && pc.a == a {
      var k :| Ahead(s.heap, u, list, pc.cur, k);
      assert list'[..k + 1] == [serial] + list[..k];
      assert Ahead(s'.heap, u, list', pc.cur, k + 1);
    } else if pc.Walking? {
      var k :| Ahead(s.heap, u, s.lists[pc.a], pc.cur, k);
      assert Ahead(s'.heap, u, s'.lists[pc.a], pc.cur, k);
    }
  }

  lemma CasKeeps(s: State, t: Thread, spurious: bool)
    requires Inv(s) && Enabled(s, Cas(t, spurious))
    ensures Inv(Apply(s, Cas(t, spurious)))
  {
    hide IdsOk, TagsOk, CachesOk, ListsOk, PcsOk, NoneLost, PcOk;
    var Pushing(a, serial, head) := At(s, t);
    SetNextKeeps(s, t, head);
    var s1 := s.(heap := s.heap[serial := s.heap[serial].(next := head)]);
    if s.arenas[a].threads == head && !spurious {
      PushedKeeps(s1, t);
    } else {
      PcHolds(s1, t);
      ReloadedPc(s1, t, s.arenas[a].threads);
      GotoKeeps(s1, t, Pushing(a, serial, s.arenas[a].threads));
    }
  }

  lemma ReloadedPc(s: State, t: Thread, head: Addr)
    requires t in s.pcs && s.pcs[t].Pushing? && PcOk(s.heap, s.lists, t, s.pcs[t])
    ensures PcOk(s.heap, s.lists, t, s.pcs[t].(head := head))
  {
  }

  lemma WriteCacheKeeps(s: State, t: Thread)
    requires Inv(s) && Enabled(s, WriteCache(t))
    ensures Inv(Apply(s, WriteCache(t)))
  {
    hide IdsOk, TagsOk, CachesOk, ListsOk, PcsOk, NoneLost, Mine;
    var Caching(a, serial) := At(s, t);
    PcHolds(s, t);
    var c := s.caches[t].(lastSeen := s.arenas[a].tag, lastSerial := serial);
    CachedKeeps(s, t, a, serial, c);
    GotoKeeps(s.(caches := s.caches[t := c]), t, Hinting(a, serial));
  }

  lemma CachedKeeps(s: State, t: Thread, a: ArenaId, serial: Addr, c: ThreadCache)
    requires Inv(s) && t in s.caches && a in s.arenas && Mine(s.heap, s.lists, t, a, serial)
    requires c == s.caches[t].(lastSeen := s.arenas[a].tag, lastSerial := serial)
    ensures Inv(s.(caches := s.caches[t := c]))
  {
    hide IdsOk, ListsOk, PcOk, NoneLost, Mine;
    IdsIgnoreCached(s.(caches := s.caches[t := c]), c, t, s);
  }

  lemma StoreHintKeeps(s: State, t: Thread)
    requires Inv(s) && Enabled(s, StoreHint(t))
    ensures Inv(Apply(s, StoreHint(t)))
  {
    hide IdsOk, TagsOk, CachesOk, ListsOk, PcsOk, NoneLost, Mine;
    var Hinting(a, serial) := At(s, t);
    PcHolds(s, t);
    HintedKeeps(s, t, a, serial);
    GotoKeeps(s.(arenas := s.arenas[a := s.arenas[a].(hint := serial)]), t, Idle);
  }

  lemma HintedKeeps(s: State, t: Thread, a: ArenaId, serial: Addr)
    requires Inv(s) && a in s.arenas && Mine(s.heap, s.lists, t, a, serial)
    ensures Inv(s.(arenas := s.arenas[a := s.arenas[a].(hint := serial)]))
  {
    hide IdsOk, PcsOk, NoneLost, Linked, OnePerOwner, IdOf;
    var arenas' := s.arenas[a := s.arenas[a].(hint := serial)];
    assert forall b :: b in arenas' ==> arenas'[b].tag == s.arenas[b].tag && arenas'[b].threads == s.arenas[b].threads;
  }

  /** Every step keeps the invariant. */
  lemma StepKeeps(s: State, step: Step)
    requires Inv(s) && Enabled(s, step)
    ensures Inv(Apply(s, step))
  {
    hide IdsOk, TagsOk, CachesOk, ListsOk, PcsOk, NoneLost;
    match step
    case Spawn(t) => SpawnKeeps(s, t);
    case Construct(t, a, owned, block) => InitializedKeeps(s, t, a, if owned then 1 else 0, block);
    case Reset(t, a, block) => ResetKeeps(s, t, a, block);
    case Destroy(t, a) => DestroyKeeps(s, t, a);
    case Enter(t, a) => EnterKeeps(s, t, a);
    case LoadThreads(t) => LoadThreadsKeeps(s, t);
    case WalkOn(t) => WalkOnKeeps(s, t);
    case Allocate(t, addr) => AllocateKeeps(s, t, addr);
    case LoadHead(t) => LoadHeadKeeps(s, t);
    case Cas(t, spurious) => CasKeeps(s, t, spurious);
    case WriteCache(t) => WriteCacheKeeps(s, t);
    case StoreHint(t) => StoreHintKeeps(s, t);
  }

  // ---------------------------------------------------------------- what the invariant gives

  lemma {:induction false} FindIsMine(heap: map<Addr, Serial>, list: seq<Addr>, t: Thread, serial: Addr)
    requires OnePerOwner(heap, list) && serial in list && serial in heap && heap[serial].owner == t
    ensures Find(heap, list, t) == serial
  {
    if list[0] != serial {
      assert serial in list[1..];
      assert OnePerOwner(heap, list[1..]);
      var i :| 0 <= i < |list| && list[i] == serial;
      assert list[0] in heap ==> heap[list[0]].owner != heap[list[i]].owner;
      FindIsMine(heap, list[1..], t, serial);
    }
  }

  lemma {:induction false} FindFinds(heap: map<Addr, Serial>, list: seq<Addr>, t: Thread)
    requires forall i :: 0 <= i < |list| ==> list[i] in heap && list[i] != 0
    ensures Find(heap, list, t) != 0 ==>
              Find(heap, list, t) in list && Find(heap, list, t) in heap && heap[Find(heap, list, t)].owner == t
    ensures Find(heap, list, t) == 0 <==> NoneMine(heap, t, list)
  {
    if list != [] {
      FindFinds(heap, list[1..], t);
      if NoneMine(heap, t, list[1..]) && heap[list[0]].owner != t {
        forall i | 0 <= i < |list| ensures heap[list[i]].owner != t {
          if i > 0 { assert list[1..][i - 1] == list[i]; }
        }
      }
      if NoneMine(heap, t, list) {
        forall i | 0 <= i < |list[1..]| ensures heap[list[1..][i]].owner != t { assert list[1..][i] == list[i + 1]; }
      }
    }
  }

  /**
   * Whatever the thread cache or the hint returns is the SerialArena the slow list walk would
   * find for this thread now; and no fast path ever follows a freed pointer.
   */
  lemma FastPathAgreesWithWalk(s: State, t: Thread, a: ArenaId)
    requires Inv(s) && t in s.caches && a in s.arenas
    ensures a in s.lists && (s.arenas[a].hint != 0 ==> s.arenas[a].hint in s.heap)
    ensures CacheHit(s, t, a) || HintHit(s, t, a) ==>
              Fast(s, t, a) != 0 && Fast(s, t, a) == Find(s.heap, s.lists[a], t)
    ensures NoneMine(s.heap, t, s.lists[a]) ==> !CacheHit(s, t, a) && !HintHit(s, t, a)
  {
    hide IdsOk, TagsOk, PcsOk, NoneLost;
    ListHolds(s, a);
    if s.arenas[a].hint != 0 { ListedIsInHeap(s.heap, s.arenas, s.lists, a, s.arenas[a].hint); }
    if CacheHit(s, t, a) {
      assert Mine(s.heap, s.lists, t, a, s.caches[t].lastSerial);
      FindIsMine(s.heap, s.lists[a], t, s.caches[t].lastSerial);
    } else if HintHit(s, t, a) {
      FindIsMine(s.heap, s.lists[a], t, s.arenas[a].hint);
    }
  }

  /** The slow path ends with the thread's only SerialArena in the arena, found or freshly pushed. */
  lemma SlowPathAgreesWithWalk(s: State, t: Thread)
    requires Inv(s) && (At(s, t).Caching? || At(s, t).Hinting?)
    ensures var pc := At(s, t); pc.a in s.lists && pc.serial == Find(s.heap, s.lists[pc.a], t) != 0
  {
    hide IdsOk, TagsOk, CachesOk, NoneLost, PcsOk;
    var pc := At(s, t);
    PcHolds(s, t);
    ListedKeys(s);
    ListHolds(s, pc.a);
    FindIsMine(s.heap, s.lists[pc.a], t, pc.serial);
  }

  /** A thread inside GetSerialArena can always take its next step: no pointer it follows dangles. */
  lemma NeverStuck(s: State, t: Thread, unused: Addr)
    requires Inv(s) && t in s.pcs && s.pcs[t] != Idle && Unused(s, unused)
    ensures Enabled(s, LoadThreads(t)) || Enabled(s, WalkOn(t)) || Enabled(s, Allocate(t, unused))
         || Enabled(s, LoadHead(t)) || Enabled(s, Cas(t, false)) || Enabled(s, WriteCache(t))
         || Enabled(s, StoreHint(t))
  {
    hide IdsOk, TagsOk, CachesOk, NoneLost, PcsOk;
    var pc := s.pcs[t];
    PcHolds(s, t);
    ListedKeys(s);
    if pc.Walking? && pc.cur != 0 {
      var k :| Ahead(s.heap, t, s.lists[pc.a], pc.cur, k);
      ListHolds(s, pc.a);
      assert s.lists[pc.a][k] in s.heap;
    }
  }

  // ---------------------------------------------------------------- a thread left alone

  /**
   * What a thread inside GetSerialArena does next when no compare-and-swap fails spuriously;
   * `unused` is free memory.
   */
  function Next(s: State, t: Thread, unused: Addr): Step {
    match At(s, t)
    case Idle => Enter(t, 0)
    case Missed(_) => LoadThreads(t)
    case Walking(_, cur) => if cur == 0 then Allocate(t, unused) else WalkOn(t)
    case Allocated(_, _) => LoadHead(t)
    case Pushing(_, _, _) => Cas(t, false)
    case Caching(_, _) => WriteCache(t)
    case Hinting(_, _) => StoreHint(t)
  }

  /** From s to s' in n steps of thread t alone. */
  ghost predicate Alone(s: State, t: Thread, unused: Addr, n: nat, s': State)
    decreases n
  {
    if n == 0 then s' == s
    else
      && At(s, t) != Idle && Enabled(s, Next(s, t, unused))
      && Alone(Apply(s, Next(s, t, unused)), t, unused, n - 1, s')
  }

  /**
   * A thread that has lost the race reads the new head and wins the next one: after at most two
   * tries its SerialArena is in front of the list there was, and linked to it.
   */
  lemma PushSucceeds(s: State, t: Thread)
    requires Inv(s) && At(s, t).Pushing?
    ensures var Pushing(a, serial, head) := At(s, t);
            && a in s.arenas && a in s.lists && Enabled(s, Cas(t, false))
            && var s1 := Apply(s, Cas(t, false));
            && Enabled(s1, Cas(t, false)) == (head != s.arenas[a].threads)
            && var s2 := if head == s.arenas[a].threads then s1 else Apply(s1, Cas(t, false));
            && Inv(s2) && At(s2, t) == Caching(a, serial) && a in s2.arenas && a in s2.lists && serial in s2.heap
            && s2.lists[a] == [serial] + s.lists[a] && s2.arenas[a].threads == serial
            && s2.heap[serial].next == s.arenas[a].threads
  {
    hide IdsOk, TagsOk, CachesOk, ListsOk, PcsOk, NoneLost, Unlisted, NoneMine;
    PendingFacts(s, t);
    CasKeeps(s, t, false);
    var s1 := Apply(s, Cas(t, false));
    if At(s, t).head != s.arenas[At(s, t).a].threads {
      PendingFacts(s1, t);
      CasKeeps(s1, t, false);
    }
  }

  /** Where a thread left alone arrives: its SerialArena is on the list, cached and hinted. */
  ghost predicate Settled(s: State, t: Thread, a: ArenaId) {
    && Inv(s) && At(s, t) == Idle && t in s.caches && a in s.arenas && a in s.lists
    && CacheHit(s, t, a) && s.arenas[a].hint == s.caches[t].lastSerial && s.arenas[a].hint in s.lists[a]
    && s.arenas[a].hint in s.heap && s.heap[s.arenas[a].hint].owner == t
  }

  /** The list is as it was, or has one SerialArena more in front, and that only if the thread had none. */
  ghost predicate GrownFor(s: State, s': State, t: Thread, a: ArenaId) {
    && a in s.lists && a in s'.lists
    && (s'.lists[a] == s.lists[a] || (NoneMine(s.heap, t, s.lists[a]) && |s'.lists[a]| == |s.lists[a]| + 1
                                      && s'.lists[a][1..] == s.lists[a]))
  }

  lemma OneMoreStep(s: State, t: Thread, unused: Addr, n: nat, s': State)
    requires At(s, t) != Idle && Enabled(s, Next(s, t, unused))
    requires Alone(Apply(s, Next(s, t, unused)), t, unused, n, s')
    ensures Alone(s, t, unused, n + 1, s')
  {
  }

  lemma CachedSoon(s: State, t: Thread, unused: Addr) returns (s': State)
    requires Inv(s) && At(s, t).Caching?
    ensures Alone(s, t, unused, 2, s') && Settled(s', t, At(s, t).a)
    ensures s'.lists == s.lists && s'.heap == s.heap
  {
    hide IdsOk, TagsOk, CachesOk, ListsOk, PcsOk, NoneLost;
    var Caching(a, serial) := At(s, t);
    PcHolds(s, t);
    ListedKeys(s);
    WriteCacheKeeps(s, t);
    var s1 := Apply(s, WriteCache(t));
    StoreHintKeeps(s1, t);
    s' := Apply(s1, StoreHint(t));
    assert Alone(s', t, unused, 0, s');
    OneMoreStep(s1, t, unused, 0, s');
    OneMoreStep(s, t, unused, 1, s');
  }

  lemma PushedSoon(s: State, t: Thread, unused: Addr) returns (n: nat, s': State)
    requires Inv(s) && At(s, t).Pushing?
    ensures n <= (if At(s, t).a in s.arenas && At(s, t).head == s.arenas[At(s, t).a].threads then 3 else 4)
    ensures Alone(s, t, unused, n, s') && Settled(s', t, At(s, t).a) && GrownFor(s, s', t, At(s, t).a)
    ensures At(s, t).a in s.lists && s'.lists[At(s, t).a] == [At(s, t).serial] + s.lists[At(s, t).a]
  {
    hide IdsOk, TagsOk, CachesOk, ListsOk, PcsOk, NoneLost, Unlisted, Settled;
    PendingFacts(s, t);
    PushSucceeds(s, t);
    CasKeeps(s, t, false);
    var Pushing(a, serial, head) := At(s, t);
    var s1 := Apply(s, Cas(t, false));
    if head == s.arenas[a].threads {
      s' := CachedSoon(s1, t, unused);
      n := 3;
      OneMoreStep(s, t, unused, 2, s');
    } else {
      var s2 := Apply(s1, Cas(t, false));
      s' := CachedSoon(s2, t, unused);
      n := 4;
      OneMoreStep(s1, t, unused, 2, s');
      OneMoreStep(s, t, unused, 3, s');
    }
  }

  lemma AllocatedSoon(s: State, t: Thread, unused: Addr) returns (n: nat, s': State)
    requires Inv(s) && At(s, t).Allocated?
    ensures n <= 4 && Alone(s, t, unused, n, s') && Settled(s', t, At(s, t).a) && GrownFor(s, s', t, At(s, t).a)
  {
    hide IdsOk, TagsOk, CachesOk, ListsOk, PcsOk, NoneLost, Unlisted, Settled;
    PcHolds(s, t);
    ListedKeys(s);
    LoadHeadKeeps(s, t);
    n, s' := PushedSoon(Apply(s, LoadHead(t)), t, unused);
    OneMoreStep(s, t, unused, n, s');
    n := n + 1;
  }

  lemma AtEntry(heap: map<Addr, Serial>, t: Thread, list: seq<Addr>, cur: Addr, k: nat)
    requires Ahead(heap, t, list, cur, k) && forall i :: 0 <= i < |list| ==> list[i] != 0 && list[i] in heap
    ensures if cur == 0 then k == |list| else k < |list| && list[k] == cur && cur in heap
  {
  }

  /** The walk: at entry k of the list there are at most as many steps to go as there are entries left. */
  lemma {:induction false} WalkedSoon(s: State, t: Thread, unused: Addr, k: nat) returns (n: nat, s': State)
    requires Inv(s) && At(s, t).Walking? && Unused(s, unused)
    requires At(s, t).a in s.lists && k <= |s.lists[At(s, t).a]|
    requires Ahead(s.heap, t, s.lists[At(s, t).a], At(s, t).cur, k)
    ensures n <= |s.lists[At(s, t).a]| - k + 5
    ensures Alone(s, t, unused, n, s') && Settled(s', t, At(s, t).a) && GrownFor(s, s', t, At(s, t).a)
    decreases |s.lists[At(s, t).a]| - k
  {
    hide IdsOk, TagsOk, CachesOk, PcsOk, NoneLost, Unlisted, Settled, ListsOk;
    var Walking(a, cur) := At(s, t);
    var list := s.lists[a];
    ListedKeys(s);
    ListHolds(s, a);
    AtEntry(s.heap, t, list, cur, k);
    if cur == 0 {
      assert list[..k] == list;
      AllocateKeeps(s, t, unused);
      n, s' := AllocatedSoon(Apply(s, Allocate(t, unused)), t, unused);
    } else {
      WalkOnKeeps(s, t);
      var s1 := Apply(s, WalkOn(t));
      if s.heap[cur].owner == t {
        n, s' := 2, s1;
        s' := CachedSoon(s1, t, unused);
      } else {
        assert list[..k + 1] == list[..k] + [cur];
        n, s' := WalkedSoon(s1, t, unused, k + 1);
      }
    }
    OneMoreStep(s, t, unused, n, s');
    n := n + 1;
  }

  /**
   * Progress: a thread anywhere inside GetSerialArena, whatever races it has lost, is through after
   * at most six steps of its own more than there are SerialArenas on the list, if no attempt fails
   * spuriously and the others stand still. It then has the one SerialArena that is its own.
   */
  lemma LeftAloneItFinishes(s: State, t: Thread, unused: Addr) returns (n: nat, s': State)
    requires Inv(s) && HintsOk(s) && t in s.pcs && s.pcs[t] != Idle && Unused(s, unused)
    ensures s.pcs[t].a in s.lists && n <= |s.lists[s.pcs[t].a]| + 6
    ensures Alone(s, t, unused, n, s') && Settled(s', t, s.pcs[t].a) && GrownFor(s, s', t, s.pcs[t].a)
  {
    hide IdsOk, TagsOk, CachesOk, ListsOk, PcsOk, NoneLost, Unlisted, Settled;
    PcHolds(s, t);
    ListedKeys(s);
    var a := s.pcs[t].a;
    ListHolds(s, a);
    match s.pcs[t]
    case Missed(_) =>
      LoadThreadsKeeps(s, t);
      var s1 := Apply(s, LoadThreads(t));
      assert s1.lists[a][..0] == [];
      n, s' := WalkedSoon(s1, t, unused, 0);
      OneMoreStep(s, t, unused, n, s');
      n := n + 1;
    case Walking(_, cur) =>
      var k :| Ahead(s.heap, t, s.lists[a], cur, k);
      n, s' := WalkedSoon(s, t, unused, k);
    case Allocated(_, _) => n, s' := AllocatedSoon(s, t, unused);
    case Pushing(_, _, _) => n, s' := PushedSoon(s, t, unused);
    case Caching(_, _) =>
      n := 2;
      s' := CachedSoon(s, t, unused);
    case Hinting(_, serial) =>
      n := 1;
      s' := HintedSoon(s, t, unused);
  }

  /** Between the write of its cache and the store of the hint, a thread's cache shows the arena. */
  ghost predicate HintsOk(s: State) {
    forall t :: t in s.pcs && s.pcs[t].Hinting? ==>
      && t in s.caches && s.pcs[t].a in s.arenas
      && s.caches[t].lastSeen == s.arenas[s.pcs[t].a].tag && s.caches[t].lastSerial == s.pcs[t].serial
  }

  lemma StepKeepsHints(s: State, step: Step)
    requires HintsOk(s) && Enabled(s, step)
    ensures HintsOk(Apply(s, step))
  {
    var s' := Apply(s, step);
    forall u | u in s'.pcs && s'.pcs[u].Hinting? && u != step.t
      ensures u in s'.caches && s'.pcs[u].a in s'.arenas
      ensures s'.caches[u].lastSeen == s'.arenas[s'.pcs[u].a].tag && s'.caches[u].lastSerial == s'.pcs[u].serial
    {
      assert u in s.pcs && s.pcs[u] == s'.pcs[u];
    }
  }

  lemma HintedSoon(s: State, t: Thread, unused: Addr) returns (s': State)
    requires Inv(s) && HintsOk(s) && At(s, t).Hinting?
    ensures Alone(s, t, unused, 1, s') && Settled(s', t, At(s, t).a) && GrownFor(s, s', t, At(s, t).a)
  {
    hide IdsOk, TagsOk, CachesOk, ListsOk, PcsOk, NoneLost;
    PcHolds(s, t);
    ListedKeys(s);
    StoreHintKeeps(s, t);
    s' := Apply(s, StoreHint(t));
    assert Alone(s', t, unused, 0, s');
    OneMoreStep(s, t, unused, 0, s');
  }

  // ---------------------------------------------------------------- whole runs

  /** An interleaving from the start of the program: states[i] becomes states[i + 1] by steps[i]. */
  ghost predicate IsRun(states: seq<State>, steps: seq<Step>) {
    && |states| == |steps| + 1 && states[0] == INITIAL
    && forall i :: 0 <= i < |steps| ==> Enabled(states[i], steps[i]) && states[i + 1] == Apply(states[i], steps[i])
  }

  lemma {:induction false} RunKeepsInv(states: seq<State>, steps: seq<Step>, k: nat)
    requires IsRun(states, steps) && k < |states|
    ensures Inv(states[k])
  {
    if k > 0 {
      RunKeepsInv(states, steps, k - 1);
      hide Inv, Apply, Enabled;
      StepKeeps(states[k - 1], steps[k - 1]);
    }
  }

  /** In every reachable state, the fast path is the slow path, for every thread and arena. */
  lemma EveryInterleavingAgrees(states: seq<State>, steps: seq<Step>, k: nat, t: Thread, a: ArenaId)
    requires IsRun(states, steps) && k < |states|
    requires t in states[k].caches && a in states[k].arenas
    ensures var s := states[k];
            && a in s.lists && OnePerOwner(s.heap, s.lists[a]) && Linked(s.heap, s.arenas[a].threads, s.lists[a])
            && (CacheHit(s, t, a) || HintHit(s, t, a) ==> Fast(s, t, a) == Find(s.heap, s.lists[a], t) != 0)
  {
    hide IsRun, IdsOk, TagsOk, CachesOk, ListsOk, PcsOk, NoneLost;
    RunKeepsInv(states, steps, k);
    FastPathAgreesWithWalk(states[k], t, a);
    ListHolds(states[k], a);
  }

  lemma {:induction false} RunKeepsHints(states: seq<State>, steps: seq<Step>, k: nat)
    requires IsRun(states, steps) && k < |states|
    ensures HintsOk(states[k])
  {
    if k > 0 {
      RunKeepsHints(states, steps, k - 1);
      hide HintsOk, Apply, Enabled;
      StepKeepsHints(states[k - 1], steps[k - 1]);
    }
  }

  /**
   * In every reachable state a thread that needs its SerialArena gets it: with a fast path at once,
   * and else in finitely many steps of its own, wherever it is in the slow path.
   */
  lemma EveryThreadFinishes(states: seq<State>, steps: seq<Step>, k: nat, t: Thread, a: ArenaId, unused: Addr)
    returns (n: nat, s': State)
    requires IsRun(states, steps) && k < |states| && Unused(states[k], unused)
    requires t in states[k].caches && a in states[k].arenas
    requires At(states[k], t) == Idle || At(states[k], t).a == a
    ensures var s := states[k];
            if At(s, t) == Idle && (CacheHit(s, t, a) || HintHit(s, t, a)) then
              Enabled(s, Enter(t, a)) && Apply(s, Enter(t, a)) == s && Fast(s, t, a) != 0
            else
              && var s1 := if At(s, t) == Idle then Goto(s, t, Missed(a)) else s;
              && (At(s, t) == Idle ==> Enabled(s, Enter(t, a)) && Apply(s, Enter(t, a)) == s1)
              && a in s.lists && n <= |s.lists[a]| + 6
              && Alone(s1, t, unused, n, s') && Settled(s', t, a) && GrownFor(s, s', t, a)
  {
    hide IsRun, IdsOk, TagsOk, CachesOk, ListsOk, PcsOk, NoneLost, Unlisted, Settled, Alone;
    RunKeepsInv(states, steps, k);
    RunKeepsHints(states, steps, k);
    var s := states[k];
    PcHolds(s, t);
    ListedKeys(s);
    n, s' := 0, s;
    if At(s, t) == Idle && (CacheHit(s, t, a) || HintHit(s, t, a)) {
      FastPathAgreesWithWalk(s, t, a);
    } else if At(s, t) == Idle {
      EnterKeeps(s, t, a);
      StepKeepsHints(s, Enter(t, a));
      n, s' := LeftAloneItFinishes(Goto(s, t, Missed(a)), t, unused);
    } else {
      n, s' := LeftAloneItFinishes(s, t, unused);
    }
  }

  // ---------------------------------------------------------------- how arenas begin and end

  /**
   * A new arena, and one that starts over, has the given first SerialArena or none, has it cached
   * and hinted, and keeps its message-owned bit.
   */
  lemma StartsOver(s: State, step: Step)
    requires Inv(s) && Enabled(s, step) && (step.Construct? || step.Reset?)
    ensures var s', a, t, block := Apply(s, step), step.a, step.t, step.block;
            && a in s'.arenas && a in s'.lists && t in s'.caches
            && s'.lists[a] == (if block == 0 then [] else [block])
            && s'.arenas[a].threads == block && s'.arenas[a].hint == block
            && (if block == 0 then s'.caches[t].lastSeen == s.caches[t].lastSeen
                else CacheHit(s', t, a) && s'.caches[t].lastSerial == block
                     && block in s'.heap && s'.heap[block] == Serial(t, 0))
    ensures var tag := Apply(s, step).arenas[step.a].tag;
            && IdOf(tag) == TakenId(s, step.t) && IdOf(tag) !in s.issued
            && (step.Construct? ==> (tag % 2 == 1 <==> step.messageOwned))
            && (step.Reset? ==> tag % 2 == s.arenas[step.a].tag % 2)
  {
    hide ListsOk, TagsOk, CachesOk, PcsOk, NoneLost, IdsOk, Exclusive, Unused;
    IdIsNew(s, step.t);
  }

  /** A reset or destroyed arena gives up its SerialArenas, and the others keep all they have. */
  lemma OnlyThisArenaEnds(s: State, step: Step, a: ArenaId)
    requires Inv(s) && Enabled(s, step) && (step.Construct? || step.Reset? || step.Destroy?)
    ensures step.Destroy? ==> step.a !in Apply(s, step).arenas && step.a !in Apply(s, step).lists
    ensures step.a in s.lists ==>
              forall x :: x in s.lists[step.a] && !(step.Reset? && x == step.block) ==> x !in Apply(s, step).heap
    ensures a in s.arenas && a != step.a ==>
              && a in s.lists && a in Apply(s, step).arenas && Apply(s, step).arenas[a] == s.arenas[a]
              && a in Apply(s, step).lists && Apply(s, step).lists[a] == s.lists[a]
              && forall x :: x in s.lists[a] ==>
                (x in s.heap && x in Apply(s, step).heap && Apply(s, step).heap[x] == s.heap[x])
  {
    hide IdsOk, TagsOk, CachesOk, PcsOk, NoneLost, Exclusive, Linked, OnePerOwner;
    ListedKeys(s);
    if a in s.arenas {
      Separate(s, a);
      forall x | x in s.lists[a] ensures x in s.heap && x != 0 { ListedIsInHeap(s.heap, s.arenas, s.lists, a, x); }
    }
  }

  predicate EndsEpoch(step: Step, a: ArenaId) {
    (step.Reset? && step.a == a) || (step.Destroy? && step.a == a)
  }

  ghost predicate Suffix<T>(s: seq<T>, of: seq<T>) { |s| <= |of| && of[|of| - |s|..] == s }

  lemma StepKeepsPushes(s: State, step: Step, a: ArenaId)
    requires Inv(s) && Enabled(s, step) && a in s.lists && !EndsEpoch(step, a)
    ensures a in Apply(s, step).lists && Suffix(s.lists[a], Apply(s, step).lists[a])
    ensures forall x :: x in s.lists[a] ==>
              (x in Apply(s, step).heap && x in s.heap && Apply(s, step).heap[x].owner == s.heap[x].owner)
  {
    hide IdsOk, TagsOk, CachesOk, PcsOk, NoneLost, ListsOk;
    ListedKeys(s);
    Separate(s, a);
    forall x | x in s.lists[a] ensures x in s.heap && x != 0 { ListedIsInHeap(s.heap, s.arenas, s.lists, a, x); }
    if step.Construct? || step.Reset? {
      InitializedLists(s, step, a);
    } else if step.Cas? {
      CasOnlyPushes(s, step.t, step.spurious, a);
    } else {
      OthersKeepLists(s, step, a);
    }
  }

  lemma Separate(s: State, a: ArenaId)
    requires ListsOk(s.heap, s.arenas, s.lists) && a in s.lists
    ensures forall b, x :: b in s.lists && x in s.lists[a] && x in s.lists[b] ==> a == b
  {
  }

  lemma CasOnlyPushes(s: State, t: Thread, spurious: bool, a: ArenaId)
    requires Enabled(s, Cas(t, spurious)) && a in s.lists
    ensures var s' := Apply(s, Cas(t, spurious));
            && a in s'.lists && Suffix(s.lists[a], s'.lists[a])
            && s'.heap.Keys == s.heap.Keys && forall x :: x in s.heap ==> s'.heap[x].owner == s.heap[x].owner
  {
    hide Suffix, Exclusive, Unused;
    var Pushing(b, serial, head) := At(s, t);
    var s' := Apply(s, Cas(t, spurious));
    SuffixOfPush(serial, s.lists[a]);
    assert s'.heap == s.heap[serial := s.heap[serial].(next := head)];
    assert s'.lists[a] == s.lists[a] || s'.lists[a] == [serial] + s.lists[a];
  }

  lemma SuffixOfPush<T>(x: T, list: seq<T>)
    ensures Suffix(list, [x] + list) && Suffix(list, list)
  {
  }

  lemma OthersKeepLists(s: State, step: Step, a: ArenaId)
    requires Enabled(s, step) && a in s.lists && !EndsEpoch(step, a) && !step.Construct? && !step.Reset? && !step.Cas?
    requires forall b, x :: b in s.lists && x in s.lists[a] && x in s.lists[b] ==> a == b
    requires forall x :: x in s.lists[a] ==> x in s.heap
    ensures var s' := Apply(s, step);
            && a in s'.lists && s'.lists[a] == s.lists[a]
            && forall x :: x in s.lists[a] ==> x in s'.heap && s'.heap[x] == s.heap[x]
  {
  }

  lemma InitializedLists(s: State, step: Step, a: ArenaId)
    requires Enabled(s, step) && a in s.lists && s.lists.Keys == s.arenas.Keys && !EndsEpoch(step, a)
    requires forall b, x :: b in s.lists && x in s.lists[a] && x in s.lists[b] ==> a == b
    requires forall x :: x in s.lists[a] ==> x in s.heap
    ensures step.Construct? || step.Reset? ==>
              && a in Apply(s, step).lists && Apply(s, step).lists[a] == s.lists[a]
              && forall x :: x in s.lists[a] ==> x in Apply(s, step).heap && Apply(s, step).heap[x] == s.heap[x]
  {
  }

  /** No push is lost: until the arena is reset or destroyed its list only grows, at the front. */
  lemma {:induction false} RunKeepsPushes(states: seq<State>, steps: seq<Step>, i: nat, j: nat, a: ArenaId)
    requires IsRun(states, steps) && i <= j < |states| && a in states[i].lists
    requires forall k :: i <= k < j ==> !EndsEpoch(steps[k], a)
    ensures a in states[j].lists && Suffix(states[i].lists[a], states[j].lists[a])
    decreases j
  {
    if i < j {
      RunKeepsPushes(states, steps, i, j - 1, a);
      RunKeepsInv(states, steps, j - 1);
      hide Inv, Apply, Enabled;
      StepKeepsPushes(states[j - 1], steps[j - 1], a);
    }
  }

  lemma StepKeepsIssued(s: State, step: Step)
    requires Enabled(s, step)
    ensures s.issued <= Apply(s, step).issued
    ensures step.Construct? || step.Reset? ==>
              && |Apply(s, step).issued| == |s.issued| + 1
              && step.a in Apply(s, step).arenas
              && Apply(s, step).arenas[step.a].tag - Apply(s, step).issued[|s.issued|] in {0, 1}
  {
  }

  /** Over a whole run no lifecycle id is handed out twice, to whichever thread or arena. */
  lemma {:induction false} RunIssuesDistinctIds(states: seq<State>, steps: seq<Step>, i: nat, j: nat)
    requires IsRun(states, steps) && i <= j < |states|
    ensures Distinct(states[j].issued) && states[i].issued <= states[j].issued
    decreases j
  {
    RunKeepsInv(states, steps, j);
    if i < j {
      RunIssuesDistinctIds(states, steps, i, j - 1);
      hide Inv, Apply, Enabled;
      StepKeepsIssued(states[j - 1], steps[j - 1]);
    }
  }

  /** The states of one thread's first use of a new arena. */
  function FirstUse(i: nat): State
    requires i <= 9
  {
    var arena := Arena(0, if i < 7 then 0 else 8, if i < 9 then 0 else 8);
    var pc := match i
      case 3 => Missed(0)
      case 4 => Walking(0, 0)
      case 5 => Allocated(0, 8)
      case 6 => Pushing(0, 8, 0)
      case 7 => Caching(0, 8)
      case 8 => Hinting(0, 8)
      case _ => Idle;
    if i == 0 then INITIAL
    else if i == 1 then State(0, map[0 := ThreadCache(0, -1, 0)], map[0 := Idle], map[], map[], map[], [])
    else State(1, map[0 := if i < 8 then ThreadCache(2, -1, 0) else ThreadCache(2, 0, 8)], map[0 := pc],
               if i < 5 then map[] else map[8 := Serial(0, 0)], map[0 := arena],
               map[0 := if i < 7 then [] else [8]], [0])
  }

  const FIRST_USE: seq<Step> := [Spawn(0), Construct(0, 0, false, 0), Enter(0, 0), LoadThreads(0), Allocate(0, 8),
                                 LoadHead(0), Cas(0, false), WriteCache(0), StoreHint(0)]

  lemma Overwrite<V>(a: V, b: V)
    ensures map[0 := a][0 := b] == map[0 := b]
  {
  }

  lemma FirstUseSteps(i: nat)
    requires i < 9
    ensures Enabled(FirstUse(i), FIRST_USE[i]) && Apply(FirstUse(i), FIRST_USE[i]) == FirstUse(i + 1)
  {
    var s, s' := FirstUse(i), FirstUse(i + 1);
    if i > 0 { Overwrite(s.pcs[0], s'.pcs[0]); }
    if i > 0 { Overwrite(s.caches[0], s'.caches[0]); }
    if i > 1 { Overwrite(s.arenas[0], s'.arenas[0]); }
    if i > 1 { Overwrite(s.lists[0], s'.lists[0]); }
    assert map[8 := Serial(0, 0)][8 := Serial(0, 0)] == map[8 := Serial(0, 0)];
    assert [8] + [] == [8] && [] + [0] == [0];
  }

  /** Such runs exist: a thread misses both fast paths once, and hits its cache from then on. */
  lemma FirstUseFillsTheCache(states: seq<State>)
    requires |states| == 10 && forall i :: 0 <= i < 10 ==> states[i] == FirstUse(i)
    ensures IsRun(states, FIRST_USE)
    ensures var s := states[9]; 0 in s.caches && 0 in s.arenas && 0 in s.lists && CacheHit(s, 0, 0) && s.lists[0] == [8]
  {
    hide Apply, Enabled;
    forall i | 0 <= i < 9 ensures Enabled(states[i], FIRST_USE[i]) && states[i + 1] == Apply(states[i], FIRST_USE[i]) {
      FirstUseSteps(i);
    }
  }
}
