/** Size and address arithmetic of the arena allocator: rounding, size classes, block growth. */
module Sizes {
  import opened Bits

  /** `AlignUpTo8(sizeof(Block))`: next, size and start. */
  const BLOCK_HEADER_SIZE: nat := 24

  /** `sizeof(SerialArena)` rounded up to 8, on a 64-bit platform. */
  const SERIAL_ARENA_SIZE: nat := 80

  /** `AlignUpTo8(sizeof(CleanupNode))`: an object pointer and a function pointer. */
  const CLEANUP_SIZE: nat := 16

  /** `sizeof(CachedBlock*)`. */
  const PTR_SIZE: nat := 8

  /** `AlignUpTo8(sizeof(AllocationPolicy))`: two sizes and three pointers. */
  const POLICY_SIZE: nat := 40

  /** The two numbers of an AllocationPolicy that decide block growth. */
  datatype Policy = Policy(startBlockSize: nat, maxBlockSize: nat)

  const DEFAULT_POLICY := Policy(256, 8192)

  function Max(a: nat, b: nat): nat { if a >= b then a else b }

  function Min(a: nat, b: nat): nat { if a <= b then a else b }

  /** The least multiple of 8 that is not below n. */
  function AlignUpTo8(n: nat): (r: nat)
    ensures r % 8 == 0 && n <= r < n + 8
  {
    (n + 7) / 8 * 8
  }

  /** n with its three low bits cleared: the greatest multiple of 8 that is not above n. */
  function AlignDownTo8(n: nat): (r: nat)
    ensures r % 8 == 0 && r <= n < r + 8
  {
    n / 8 * 8
  }

  /** `(p + align - 1) & (~align + 1)`, where `~align + 1` is -align in 64 bits. */
  function AlignTo(p: nat, align: nat): nat
    requires 0 < align < SIZE_LIMIT
  {
    And((p + align - 1) % SIZE_LIMIT, SIZE_LIMIT - align)
  }

  /** The mask takes away the bits of align - 1. */
  lemma MaskClears(x: nat, align: nat)
    requires x < SIZE_LIMIT && 0 < align < SIZE_LIMIT
    ensures And(x, SIZE_LIMIT - align) == x - And(x, align - 1)
  {
    hide And, Pow2;
    Pow2Of64(64);
    AndNot(x, align - 1, 64);
  }

  /** Whatever the alignment, the address does not go down, moves by less than it, and stays a word. */
  lemma AlignToMovesUp(p: nat, align: nat)
    requires 0 < align < SIZE_LIMIT && p + align <= SIZE_LIMIT
    ensures p <= AlignTo(p, align) < p + align
    ensures align % 8 == 0 ==> AlignTo(p, align) % 8 == 0
  {
    hide And, Pow2;
    var x := p + align - 1;
    MaskClears(x, align);
    if align % 8 == 0 { AndLowThreeBits(x, align - 1); }
  }

  lemma AndLowThreeBits(x: nat, m: nat)
    requires m % 8 == 7
    ensures And(x, m) % 8 == x % 8
  {
    assert Pow2(1) == 2 && Pow2(2) == 4 && Pow2(3) == 8;
    hide And, Pow2;
    AndLowBits(x, m, 3);
  }

  lemma MaskRounds(x: nat, align: nat)
    requires x < SIZE_LIMIT && IsPow2(align) && align < SIZE_LIMIT
    ensures And(x, SIZE_LIMIT - align) == x / align * align && x / align * align % align == 0
    ensures x < x / align * align + align
  {
    hide And, Pow2, LowBit;
    var k := LowBitIsPower(align);
    MaskClears(x, align);
    AndBelowPower(x, k);
    var q, r := x / align, x % align;
    assert x == q * align + r;
    DivUnique(q * align, align, q, 0);
  }

  /** For a power of two it is rounding up to a multiple: the least one that is not below the address. */
  lemma AlignToRounds(p: nat, align: nat)
    requires IsPow2(align) && align < SIZE_LIMIT
    ensures AlignTo(p, align) % align == 0
    ensures p + align <= SIZE_LIMIT ==>
              AlignTo(p, align) == (p + align - 1) / align * align && p <= AlignTo(p, align) < p + align
  {
    hide And, LowBit;
    MaskRounds((p + align - 1) % SIZE_LIMIT, align);
  }

  /** The lowest bit of the alignment is an address that stays where it is. */
  lemma LowBitStays(align: nat)
    requires 0 < align < SIZE_LIMIT
    ensures LowBit(align) + align <= SIZE_LIMIT && AlignTo(LowBit(align), align) == LowBit(align)
  {
    hide And, LowBit, Pow2;
    Pow2Of64(64);
    PlusLowBit(align, 64);
    MaskClears(LowBit(align) + align - 1, align);
    AndBelowLowBit(align);
  }

  /** So every address comes out aligned if and only if the alignment is a power of two. */
  lemma AlignsExactlyPowers(align: nat)
    requires 0 < align < SIZE_LIMIT
    ensures IsPow2(align) <==> forall p: nat :: p + align <= SIZE_LIMIT ==> AlignTo(p, align) % align == 0
  {
    hide AlignTo, LowBit;
    if IsPow2(align) {
      forall p: nat | p + align <= SIZE_LIMIT ensures AlignTo(p, align) % align == 0 { AlignToRounds(p, align); }
    } else {
      LowBitStays(align);
      var b := LowBit(align);
      assert b % align == b;
      assert AlignTo(b, align) % align != 0;
    }
  }

  /** At alignment 24 the address 8 stays 8. */
  lemma TwentyFourIsNoAlignment()
    ensures AlignTo(8, 24) == 8 && AlignTo(8, 24) % 24 != 0 && !IsPow2(24)
  {
    hide AlignTo;
    assert LowBit(3) == 1 && LowBit(6) == 2 && LowBit(12) == 4 && LowBit(24) == 8;
    LowBitStays(24);
  }

  /** The rounding to 8 by masks, as the source has it, is the rounding by division here. */
  lemma EightByMask(n: nat)
    requires n + 7 < SIZE_LIMIT
    ensures And(n + 7, SIZE_LIMIT - 8) == AlignUpTo8(n) && And(n, SIZE_LIMIT - 8) == AlignDownTo8(n)
  {
    assert Pow2(1) == 2 && Pow2(2) == 4 && Pow2(3) == 8;
    PowerIsItsLowBit(3);
    hide And, LowBit, Pow2;
    MaskRounds(n + 7, 8);
    MaskRounds(n, 8);
  }

  /** The position of the highest set bit (`Bits::Log2FloorNonZero64`). */
  function Log2Floor(n: nat): (r: nat)
    requires n > 0
    ensures Pow2(r) <= n < Pow2(r + 1)
  {
    if n == 1 then 0 else Log2Floor(n / 2) + 1
  }

  lemma Log2AtLeast(n: nat, k: nat)
    requires n >= Pow2(k)
    ensures n > 0 && Log2Floor(n) >= k
  {
    if Log2Floor(n) < k { Pow2Monotone(Log2Floor(n) + 1, k); }
  }

  lemma Log2Below(n: nat, k: nat)
    requires 0 < n < Pow2(k)
    ensures Log2Floor(n) < k
  {
    if Log2Floor(n) >= k { Pow2Monotone(k, Log2Floor(n)); }
  }

  /** The size class looked up for a request: every block in it is large enough. */
  function RequestClass(size: nat): (index: nat)
    requires size >= 16
    ensures size <= Pow2(index + 4)
  {
    Log2AtLeast(size - 1, 3);
    Log2Floor(size - 1) - 3
  }

  /** The size class a returned array is filed under: the array has at least its nominal size. */
  function ReturnClass(size: nat): (index: nat)
    requires size >= 16
    ensures Pow2(index + 4) <= size < Pow2(index + 5)
  {
    Log2AtLeast(size, 4);
    Log2Floor(size) - 4
  }

  /** The least class whose nominal size is enough for the request. */
  predicate LeastClass(size: nat, k: nat) { size <= Pow2(k + 4) && (k > 0 ==> Pow2(k + 3) < size) }

  lemma RequestsLeastClass(size: nat, k: nat)
    requires size >= 16
    ensures LeastClass(size, k) <==> k == RequestClass(size)
  {
    hide Pow2;
    var r := RequestClass(size);
    assert r > 0 ==> Pow2(r + 3) < size by { RequestAbove(size); }
    if k < r { Pow2Monotone(k + 4, r + 3); }
    if r < k { Pow2Monotone(r + 4, k + 3); }
  }

  lemma RequestAbove(size: nat)
    requires size >= 16
    ensures Pow2(RequestClass(size) + 3) < size
  {
    Log2AtLeast(size - 1, 3);
  }

  /** An array is found again by a request of its own size exactly when that size is a power of two. */
  lemma ClassesMeetAtPowersOfTwo(size: nat)
    requires size >= 16
    ensures ReturnClass(size) == RequestClass(size) <==> size == Pow2(ReturnClass(size) + 4)
  {
    hide Pow2, Log2Floor;
    var k := ReturnClass(size) + 4;
    Pow2Double(k);
    Pow2Double(k - 1);
    if size == Pow2(k) {
      Log2Below(size - 1, k);
      Log2AtLeast(size - 1, k - 1);
    } else {
      Log2AtLeast(size - 1, k);
    }
  }

  /** The size AllocateMemory asks for: double the last block up to the cap, but room for the request. */
  function BlockSize(policy: Policy, lastSize: nat, minBytes: nat): (size: nat)
    ensures size >= BLOCK_HEADER_SIZE + minBytes
  {
    var size := if lastSize != 0 then Min(2 * lastSize, policy.maxBlockSize) else policy.startBlockSize;
    Max(size, BLOCK_HEADER_SIZE + minBytes)
  }

  /** The first block has the start size; later ones double, up to the cap, and all have room for the request. */
  lemma BlockSizes(policy: Policy, lastSize: nat, minBytes: nat)
    ensures var grown := if lastSize == 0 then policy.startBlockSize
                         else if 2 * lastSize < policy.maxBlockSize then 2 * lastSize else policy.maxBlockSize;
            BlockSize(policy, lastSize, minBytes) == if grown < minBytes + 24 then minBytes + 24 else grown
  {
  }

  predicate WholePolicy(policy: Policy) { policy.startBlockSize % 8 == 0 && policy.maxBlockSize % 8 == 0 }

  /** With block sizes of the policy and the last block in whole words, every new block is too. */
  lemma BlockSizeKeepsWords(policy: Policy, lastSize: nat, minBytes: nat)
    requires WholePolicy(policy)
    requires lastSize % 8 == 0 && minBytes % 8 == 0
    ensures BlockSize(policy, lastSize, minBytes) % 8 == 0
  {
    var w := lastSize / 8;
    assert 2 * lastSize == 8 * (2 * w);
    var size := if lastSize != 0 then Min(2 * lastSize, policy.maxBlockSize) else policy.startBlockSize;
    assert size % 8 == 0;
  }

  /** So a run that starts with a whole block and asks for whole words never has an odd block. */
  lemma {:induction false} RunKeepsWords(policy: Policy, sizes: seq<nat>, asked: seq<nat>)
    requires |sizes| == |asked| + 1 && WholePolicy(policy) && sizes[0] % 8 == 0
    requires forall i :: 0 <= i < |asked| ==> asked[i] % 8 == 0 && sizes[i + 1] == BlockSize(policy, sizes[i], asked[i])
    ensures forall i :: 0 <= i < |sizes| ==> sizes[i] % 8 == 0
  {
    if asked != [] {
      var h := |asked| - 1;
      RunKeepsWords(policy, sizes[..h + 1], asked[..h]);
      assert sizes[..h + 1][h] == sizes[h];
      BlockSizeKeepsWords(policy, sizes[h], asked[h]);
    }
  }

  /** What a request for an object of `size` bytes asks the arena for. */
  function RequestSize(size: nat, align: nat): nat {
    if align <= 8 then AlignUpTo8(size) else size + align - 8
  }

  /** Where in the memory it gets the object goes. */
  function Placed(p: nat, align: nat): nat
    requires align < SIZE_LIMIT
  {
    if align <= 8 then p else AlignTo(p, align)
  }

  /** What over-alignment promises of an address: an alignment is a power of two. */
  predicate AlignedTo(obj: nat, align: nat) { align > 8 && IsPow2(align) ==> obj % align == 0 }

  /** An alignment that a word address keeps to: any up to 8, and multiples of 8. */
  predicate WholeAlign(align: nat) { align <= 8 || align % 8 == 0 }

  /** The request is in whole words unless the object is over-aligned and its size is not. */
  lemma RequestInWords(size: nat, align: nat)
    requires WholeAlign(align)
    ensures RequestSize(size, align) % 8 == 0 <==> align <= 8 || size % 8 == 0
    ensures align <= 8 ==> size <= RequestSize(size, align) < size + 8
    ensures align > 8 ==> RequestSize(size, align) == size + (align - 8)
  {
  }

  /** From a word address an object has its room, at any alignment that is whole words. */
  lemma PlacedFits(p: nat, size: nat, align: nat)
    requires 8 < align < SIZE_LIMIT && align % 8 == 0 && p % 8 == 0 && p + align <= SIZE_LIMIT
    ensures Placed(p, align) % 8 == 0 && p <= Placed(p, align)
    ensures Placed(p, align) + size <= p + RequestSize(size, align)
  {
    hide AlignTo;
    AlignToMovesUp(p, align);
  }

  /** An over-aligned object has its room exactly when its memory starts at the alignment or at least 8 past one. */
  lemma FitsExactly(p: nat, size: nat, align: nat)
    requires 8 < align < SIZE_LIMIT && IsPow2(align) && p + align <= SIZE_LIMIT
    ensures p <= Placed(p, align)
    ensures Placed(p, align) + size <= p + RequestSize(size, align) <==> p % align == 0 || p % align >= 8
  {
    hide AlignTo, IsPow2;
    AlignToRounds(p, align);
    RoundsUp(p, align);
  }

  lemma RoundsUp(p: nat, align: nat)
    requires align > 0
    ensures (p + align - 1) / align * align == if p % align == 0 then p else p - p % align + align
  {
    var q, r := p / align, p % align;
    assert p == q * align + r;
    if r == 0 {
      DivUnique(p + align - 1, align, q, align - 1);
    } else {
      assert (q + 1) * align == q * align + align;
      DivUnique(p + align - 1, align, q + 1, r - 1);
    }
  }

  /** So it is from every word address. */
  lemma WordLeavesRoom(p: nat, align: nat)
    requires align > 8 && align % 8 == 0
    ensures p % 8 == 0 ==> p % align == 0 || p % align >= 8
  {
    var q, k, r := p / align, align / 8, p % align;
    assert p == q * align + r && q * align == 8 * (q * k) by { assert q * (k * 8) == 8 * (q * k); }
    if p % 8 == 0 { assert r == 8 * (p / 8 - q * k); }
  }

  /** 13 bytes at alignment 16 take 21 from a word address, and then 16 bytes at alignment 16 run over their memory. */
  lemma OddOverAlignedRequest()
    ensures RequestSize(13, 16) == 21 && (96 + RequestSize(13, 16)) % 8 != 0
    ensures var p := 96 + RequestSize(13, 16); Placed(p, 16) + 16 > p + RequestSize(16, 16)
  {
    assert Pow2(1) == 2 && Pow2(2) == 4 && Pow2(3) == 8 && Pow2(4) == 16;
    PowerIsItsLowBit(4);
    FitsExactly(96 + RequestSize(13, 16), 16, 16);
  }
}
