/**
 * ArenaStringPtr: string fields as tagged pointers, where two low bits say who owns the string.
 * One object holds all the fields, the strings in memory, and who owns each of them.
 */
module ArenaStrings {
  import opened Options

  /** An address as a number; strings are aligned to 4, which leaves the two low bits for the tag. */
  type Ptr = nat
  type FieldId = nat
  type ArenaId = nat

  // ---------------------------------------------------------------- the tag bits

  const DEFAULT: nat := 0
  const ALLOCATED: nat := 2
  const MUTABLE_ARENA: nat := 3

  predicate Aligned(p: Ptr) { p % 4 == 0 }

  /** `p | tag`, for an aligned p. */
  function TagAs(tag: nat, p: Ptr): nat { p + tag }

  /** `v & ~kMask`. */
  function Get(v: nat): Ptr { v - v % 4 }

  /** `v & kMask`. */
  function TagOf(v: nat): nat { v % 4 }

  /** `v & kMutableBit`. */
  predicate IsMutable(v: nat) { v / 2 % 2 == 1 }

  predicate IsDefault(v: nat) { v % 4 == DEFAULT }

  /** `v & kArenaBit`. */
  predicate IsArena(v: nat) { v % 2 == 1 }

  /** The string, when it is heap-allocated and owned by the field; null otherwise. */
  function GetIfAllocated(v: nat): Ptr {
    // v ^ kAllocated flips the mutable bit.
    var flipped := if v / 2 % 2 == 1 then v - 2 else v + 2;
    if flipped % 4 != 0 then 0 else flipped
  }

  /** Tag and pointer come apart again. */
  lemma TagRoundTrip(tag: nat, p: Ptr)
    requires Aligned(p) && tag < 4
    ensures Get(TagAs(tag, p)) == p && TagOf(TagAs(tag, p)) == tag
  {
  }

  /** Every accessor answers by the tag alone. */
  lemma AccessorsReadTheTag(v: nat)
    ensures IsDefault(v) <==> TagOf(v) == DEFAULT
    ensures TagOf(v) == DEFAULT ==> !IsMutable(v) && !IsArena(v) && GetIfAllocated(v) == 0
    ensures TagOf(v) == ALLOCATED ==> IsMutable(v) && !IsArena(v) && GetIfAllocated(v) == Get(v)
    ensures TagOf(v) == MUTABLE_ARENA ==> IsMutable(v) && IsArena(v) && GetIfAllocated(v) == 0
  {
  }

  // ---------------------------------------------------------------- who owns what

  /** The one owner of a string in memory. */
  datatype Owner = HeldBy(field: FieldId) | InArena(arena: ArenaId) | HandedOut

  /** A field points at a constant, or at the string it holds, or at one its arena owns. */
  ghost predicate FieldOk(f: FieldId, v: nat, arena: Option<ArenaId>, constants: set<Ptr>, owner: map<Ptr, Owner>) {
    if TagOf(v) == DEFAULT then Get(v) in constants
    else if TagOf(v) == ALLOCATED then arena == None && Get(v) in owner && owner[Get(v)] == HeldBy(f)
    else TagOf(v) == MUTABLE_ARENA && arena.Some? && Get(v) in owner && owner[Get(v)] == InArena(arena.value)
  }

  predicate Shared(v: nat, w: nat) {
    TagOf(v) != DEFAULT && TagOf(w) != DEFAULT && Get(v) == Get(w)
  }

  /**
   * A string held by a field is the one that field points to, every other pointer is to a
   * constant or to a string of the field's arena, and no two fields share a string.
   */
  ghost predicate Owned(tagged: map<FieldId, nat>, arenaOf: FieldId -> Option<ArenaId>, constants: set<Ptr>,
                        owner: map<Ptr, Owner>)
  {
    && (forall p :: p in constants ==> p != 0 && Aligned(p) && p !in owner)
    && (forall p :: p in owner ==> p != 0 && Aligned(p))
    && (forall f :: f in tagged ==> FieldOk(f, tagged[f], arenaOf(f), constants, owner))
    && (forall f, g :: f in tagged && g in tagged && f != g ==> !Shared(tagged[f], tagged[g]))
    && (forall p :: p in owner && owner[p].HeldBy? ==>
          owner[p].field in tagged && TagOf(tagged[owner[p].field]) == ALLOCATED && Get(tagged[owner[p].field]) == p)
  }

  /** What a field that is not in use, or whose string is not its own, holds: it may be overwritten. */
  ghost predicate Overwritable(tagged: map<FieldId, nat>, f: FieldId) {
    f in tagged ==> TagOf(tagged[f]) != ALLOCATED
  }

  lemma PointAtConstant(tagged: map<FieldId, nat>, arenaOf: FieldId -> Option<ArenaId>, constants: set<Ptr>,
                        owner: map<Ptr, Owner>, f: FieldId, p: Ptr)
    requires Owned(tagged, arenaOf, constants, owner) && p in constants && Overwritable(tagged, f)
    ensures Owned(tagged[f := TagAs(DEFAULT, p)], arenaOf, constants, owner)
    ensures Get(TagAs(DEFAULT, p)) == p && TagOf(TagAs(DEFAULT, p)) == DEFAULT
  {
    TagRoundTrip(DEFAULT, p);
    hide TagAs, Get, TagOf, Aligned;
  }

  /** The tag of a string a field takes: its own without an arena, the arena's with one. */
  function TakenTag(arena: Option<ArenaId>): nat { if arena == None then ALLOCATED else MUTABLE_ARENA }

  function TakenOwner(f: FieldId, arena: Option<ArenaId>): Owner {
    if arena == None then HeldBy(f) else InArena(arena.value)
  }

  /** A field takes a string that is new, or was handed out: NewString and InitAllocated. */
  lemma TakeString(tagged: map<FieldId, nat>, arenaOf: FieldId -> Option<ArenaId>, constants: set<Ptr>,
                   owner: map<Ptr, Owner>, f: FieldId, p: Ptr)
    requires Owned(tagged, arenaOf, constants, owner) && Overwritable(tagged, f)
    requires p != 0 && Aligned(p) && p !in constants && (p in owner ==> owner[p] == HandedOut)
    ensures Owned(tagged[f := TagAs(TakenTag(arenaOf(f)), p)], arenaOf, constants,
                  owner[p := TakenOwner(f, arenaOf(f))])
    ensures Get(TagAs(TakenTag(arenaOf(f)), p)) == p && TagOf(TagAs(TakenTag(arenaOf(f)), p)) == TakenTag(arenaOf(f))
  {
    TagRoundTrip(TakenTag(arenaOf(f)), p);
    hide TagAs, Get, TagOf, Aligned;
    var v := TagAs(TakenTag(arenaOf(f)), p);
    var tagged', owner' := tagged[f := v], owner[p := TakenOwner(f, arenaOf(f))];
    forall g | g in tagged' && g != f
      ensures FieldOk(g, tagged'[g], arenaOf(g), constants, owner') && !Shared(tagged'[g], v)
    {
      assert FieldOk(g, tagged[g], arenaOf(g), constants, owner);
    }
  }

  /** A field's own string leaves it: the field is given up, or points at a constant. */
  lemma LeaveField(tagged: map<FieldId, nat>, arenaOf: FieldId -> Option<ArenaId>, constants: set<Ptr>,
                   owner: map<Ptr, Owner>, f: FieldId)
    requires Owned(tagged, arenaOf, constants, owner) && f in tagged
    ensures TagOf(tagged[f]) == ALLOCATED ==>
              (Get(tagged[f]) in owner && owner[Get(tagged[f])] == HeldBy(f)
               && Owned(tagged - {f}, arenaOf, constants, owner - {Get(tagged[f])})
               && Owned(tagged - {f}, arenaOf, constants, owner[Get(tagged[f]) := HandedOut]))
    ensures TagOf(tagged[f]) != ALLOCATED ==> Owned(tagged - {f}, arenaOf, constants, owner)
  {
    hide TagAs, Get, TagOf, Aligned;
    assert FieldOk(f, tagged[f], arenaOf(f), constants, owner);
    forall g | g in tagged && g != f
      ensures !Shared(tagged[g], tagged[f]) && FieldOk(g, tagged[g], arenaOf(g), constants, owner)
    {
    }
  }

  lemma HandOutNew(tagged: map<FieldId, nat>, arenaOf: FieldId -> Option<ArenaId>, constants: set<Ptr>,
                   owner: map<Ptr, Owner>, p: Ptr)
    requires Owned(tagged, arenaOf, constants, owner)
    requires p != 0 && Aligned(p) && p !in constants && p !in owner
    ensures Owned(tagged, arenaOf, constants, owner[p := HandedOut])
    ensures forall f :: f in tagged ==> Get(tagged[f]) != p
  {
    hide TagAs, Get, TagOf, Aligned;
    forall f | f in tagged
      ensures FieldOk(f, tagged[f], arenaOf(f), constants, owner[p := HandedOut]) && Get(tagged[f]) != p
    {
      assert FieldOk(f, tagged[f], arenaOf(f), constants, owner);
    }
  }

  lemma DropHandedOut(tagged: map<FieldId, nat>, arenaOf: FieldId -> Option<ArenaId>, constants: set<Ptr>,
                      owner: map<Ptr, Owner>, p: Ptr)
    requires Owned(tagged, arenaOf, constants, owner) && p in owner && owner[p] == HandedOut
    ensures Owned(tagged, arenaOf, constants, owner - {p})
    ensures forall f :: f in tagged ==> Get(tagged[f]) != p
  {
    hide TagAs, Get, TagOf, Aligned;
    forall f | f in tagged
      ensures FieldOk(f, tagged[f], arenaOf(f), constants, owner - {p}) && Get(tagged[f]) != p
    {
      assert FieldOk(f, tagged[f], arenaOf(f), constants, owner);
    }
  }

  lemma SwapFields(tagged: map<FieldId, nat>, arenaOf: FieldId -> Option<ArenaId>, constants: set<Ptr>,
                   owner: map<Ptr, Owner>, f: FieldId, g: FieldId)
    requires Owned(tagged, arenaOf, constants, owner) && f in tagged && g in tagged && f != g
             && arenaOf(f) == arenaOf(g)
    ensures Owned(tagged[f := tagged[g]][g := tagged[f]], arenaOf, constants, Swapped(owner, f, g))
  {
    hide TagAs, Get, TagOf, Aligned;
    var tagged' := tagged[f := tagged[g]][g := tagged[f]];
    forall h | h in tagged' ensures FieldOk(h, tagged'[h], arenaOf(h), constants, Swapped(owner, f, g)) {
      assert FieldOk(h, tagged[h], arenaOf(h), constants, owner);
      assert FieldOk(f, tagged[f], arenaOf(f), constants, owner) && FieldOk(g, tagged[g], arenaOf(g), constants, owner);
    }
  }

  function Swapped(owner: map<Ptr, Owner>, f: FieldId, g: FieldId): (r: map<Ptr, Owner>)
    ensures r.Keys == owner.Keys
  {
    map p | p in owner ::
      if owner[p] == HeldBy(f) then HeldBy(g) else if owner[p] == HeldBy(g) then HeldBy(f) else owner[p]
  }

  /** The arena is torn down: its strings and the fields of its messages are gone. */
  lemma DropArena(tagged: map<FieldId, nat>, arenaOf: FieldId -> Option<ArenaId>, constants: set<Ptr>,
                  owner: map<Ptr, Owner>, a: ArenaId, tagged': map<FieldId, nat>, owner': map<Ptr, Owner>)
    requires Owned(tagged, arenaOf, constants, owner)
    requires forall f :: f in tagged' <==> f in tagged && arenaOf(f) != Some(a)
    requires forall f :: f in tagged' ==> tagged'[f] == tagged[f]
    requires forall p :: p in owner' <==> p in owner && owner[p] != InArena(a)
    requires forall p :: p in owner' ==> owner'[p] == owner[p]
    ensures Owned(tagged', arenaOf, constants, owner')
    ensures forall f :: f in tagged' && Get(tagged[f]) in owner ==> Get(tagged[f]) in owner'
  {
    hide TagAs, Get, TagOf, Aligned;
    forall f | f in tagged'
      ensures FieldOk(f, tagged'[f], arenaOf(f), constants, owner')
              && (Get(tagged[f]) in owner ==> Get(tagged[f]) in owner')
    {
      assert FieldOk(f, tagged[f], arenaOf(f), constants, owner);
    }
    forall p | p in owner' && owner'[p].HeldBy? ensures owner'[p].field in tagged' {
      var f := owner[p].field;
      assert FieldOk(f, tagged[f], arenaOf(f), constants, owner);
    }
  }

  /** All string fields of a program, and all strings in memory. */
  class StringFields {
    /** The arena a field's message lives on, if any; fixed for the field. */
    const arenaOf: FieldId -> Option<ArenaId>
    /** Strings nobody writes and no field owns: the global empty string and externally owned defaults. */
    const constants: map<Ptr, string>
    const emptyString: Ptr

    var tagged: map<FieldId, nat>
    var strings: map<Ptr, string>
    ghost var owner: map<Ptr, Owner>
    ghost var created: nat
    ghost var deleted: nat

    /** Every string in memory has exactly one owner, and every string created is in memory or was deleted once. */
    ghost predicate Valid()
      reads this
    {
      && emptyString in constants && constants[emptyString] == ""
      && Owned(tagged, arenaOf, constants.Keys, owner)
      && owner.Keys == strings.Keys
      && |strings| + deleted == created
    }

    ghost predicate Unused(p: Ptr)
      reads this
    {
      p != 0 && Aligned(p) && p !in strings && p !in constants
    }

    ghost predicate IsHandedOut(p: Ptr)
      reads this
    {
      p in strings && p in owner && owner[p] == HandedOut
    }

    /** The content of the string a field points to: what its Get() returns. */
    function Value(f: FieldId): string
      requires f in tagged
      reads this
    {
      var p := Get(tagged[f]);
      if p in strings then strings[p] else if p in constants then constants[p] else ""
    }

    /** The constant a default field points at. */
    function ConstantOf(f: FieldId): string
      requires f in tagged
      reads this
    {
      if Get(tagged[f]) in constants then constants[Get(tagged[f])] else ""
    }

    /** The fields in use are those of before with the given change, and all others read as before. */
    twostate predicate OnlySets(f: FieldId, value: string)
      reads this
    {
      && tagged.Keys == old(tagged.Keys) + {f}
      && (forall g :: g in tagged ==> Value(g) == if g == f then value else old(Value(g)))
    }

    twostate predicate SameValues()
      reads this
    {
      tagged.Keys == old(tagged.Keys) && forall g :: g in tagged ==> Value(g) == old(Value(g))
    }

    lemma PointsSomewhere(f: FieldId)
      requires Valid() && f in tagged
      ensures TagOf(tagged[f]) == DEFAULT ==> Get(tagged[f]) in constants && Get(tagged[f]) !in strings
      ensures TagOf(tagged[f]) != DEFAULT ==> Get(tagged[f]) in strings && Get(tagged[f]) != 0
      ensures TagOf(tagged[f]) == ALLOCATED <==> TagOf(tagged[f]) != DEFAULT && arenaOf(f) == None
      ensures TagOf(tagged[f]) == MUTABLE_ARENA <==> TagOf(tagged[f]) != DEFAULT && arenaOf(f) != None
    {
      hide TagOf, Get, Aligned;
      assert FieldOk(f, tagged[f], arenaOf(f), constants.Keys, owner);
    }

    lemma NotHandedOut(f: FieldId)
      requires Valid() && f in tagged
      ensures GetIfAllocated(tagged[f]) != 0 ==> !IsHandedOut(GetIfAllocated(tagged[f]))
    {
      hide TagOf, Get, Aligned, GetIfAllocated;
      AccessorsReadTheTag(tagged[f]);
      assert FieldOk(f, tagged[f], arenaOf(f), constants.Keys, owner);
    }

    lemma NotShared(f: FieldId, g: FieldId)
      requires Valid() && f in tagged && g in tagged && f != g && TagOf(tagged[f]) != DEFAULT
      ensures Get(tagged[f]) != Get(tagged[g])
    {
      hide TagOf, Get, Aligned;
      assert FieldOk(f, tagged[f], arenaOf(f), constants.Keys, owner);
      assert FieldOk(g, tagged[g], arenaOf(g), constants.Keys, owner);
      assert !Shared(tagged[f], tagged[g]);
    }

    /** A string is reachable from its owner and from nowhere else. */
    lemma OwnedOnce(p: Ptr, f: FieldId)
      requires Valid() && p in strings && f in tagged
      ensures p in owner
      ensures owner[p] == HandedOut ==> Get(tagged[f]) != p
      ensures owner[p].HeldBy? ==> owner[p].field in tagged && (Get(tagged[f]) == p <==> f == owner[p].field)
      ensures owner[p].HeldBy? ==> (GetIfAllocated(tagged[f]) == p <==> f == owner[p].field)
      ensures owner[p].InArena? && Get(tagged[f]) == p ==>
                arenaOf(f) == Some(owner[p].arena) && GetIfAllocated(tagged[f]) == 0
    {
      hide TagOf, Get, Aligned, GetIfAllocated;
      AccessorsReadTheTag(tagged[f]);
      assert FieldOk(f, tagged[f], arenaOf(f), constants.Keys, owner);
      if owner[p].HeldBy? {
        var h := owner[p].field;
        assert FieldOk(h, tagged[h], arenaOf(h), constants.Keys, owner);
      }
    }

    constructor (arenaOf: FieldId -> Option<ArenaId>, constants: map<Ptr, string>, emptyString: Ptr)
      requires emptyString in constants && constants[emptyString] == ""
      requires forall p :: p in constants ==> p != 0 && Aligned(p)
      ensures Valid() && tagged == map[] && strings == map[]
      ensures this.arenaOf == arenaOf && this.constants == constants && this.emptyString == emptyString
    {
      this.arenaOf, this.constants, this.emptyString := arenaOf, constants, emptyString;
      tagged, strings := map[], map[];
      owner, created, deleted := map[], 0, 0;
    }

    /** Code outside the fields allocating a string on the heap. */
    method Adopt(p: Ptr, content: string)
      requires Valid() && Unused(p)
      modifies this
      ensures Valid() && SameValues() && IsHandedOut(p) && strings == old(strings)[p := content]
      ensures tagged == old(tagged) && owner == old(owner)[p := HandedOut]
      ensures created == old(created) + 1 && deleted == old(deleted)
    {
      hide Owned, TagOf, Get, Aligned;
      HandOutNew(tagged, arenaOf, constants.Keys, owner, p);
      strings, owner, created := strings[p := content], owner[p := HandedOut], created + 1;
    }

    /** Code outside the fields deleting a string it was handed. */
    method Discard(p: Ptr)
      requires Valid() && IsHandedOut(p)
      modifies this
      ensures Valid() && SameValues() && strings == old(strings) - {p} && deleted == old(deleted) + 1
    {
      hide Owned, TagOf, Get, Aligned;
      DropHandedOut(tagged, arenaOf, constants.Keys, owner, p);
      strings, owner, deleted := strings - {p}, owner - {p}, deleted + 1;
    }

    /** InitExternal, and InitDefault with the global empty string. */
    method InitExternal(f: FieldId, p: Ptr)
      requires Valid() && p in constants && Overwritable(tagged, f)
      modifies this`tagged
      ensures Valid() && OnlySets(f, constants[p]) && TagOf(tagged[f]) == DEFAULT
    {
      hide Owned, TagOf, Get, Aligned, TagAs;
      ConstantsAreApart(p);
      PointAtConstant(tagged, arenaOf, constants.Keys, owner, f, p);
      tagged := tagged[f := TagAs(DEFAULT, p)];
    }

    lemma ConstantsAreApart(p: Ptr)
      requires Valid()
      ensures p in constants ==> p !in strings && p !in owner
      ensures p in strings ==> p in owner && p != 0 && Aligned(p) && p !in constants
    {
    }

    /** Takes a handed-out string: the arena will delete it, or the field owns it. */
    method InitAllocated(f: FieldId, p: Ptr)
      requires Valid() && IsHandedOut(p) && Overwritable(tagged, f)
      modifies this`tagged, this`owner
      ensures Valid() && OnlySets(f, strings[p]) && Get(tagged[f]) == p && TagOf(tagged[f]) == TakenTag(arenaOf(f))
      ensures owner == old(owner)[p := TakenOwner(f, arenaOf(f))]
    {
      hide Owned, TagOf, Get, Aligned, TagAs;
      ConstantsAreApart(p);
      TakeString(tagged, arenaOf, constants.Keys, owner, f, p);
      tagged := tagged[f := TagAs(TakenTag(arenaOf(f)), p)];
      owner := owner[p := TakenOwner(f, arenaOf(f))];
    }

    /** A new string for the field, on its arena or on the heap; `p` is where it is allocated. */
    method NewString(f: FieldId, content: string, p: Ptr)
      requires Valid() && Unused(p) && Overwritable(tagged, f)
      modifies this
      ensures Valid() && OnlySets(f, content) && Get(tagged[f]) == p && TagOf(tagged[f]) == TakenTag(arenaOf(f))
      ensures owner == old(owner)[p := TakenOwner(f, arenaOf(f))]
      ensures created == old(created) + 1 && deleted == old(deleted)
    {
      hide Owned, TagOf, Get, Aligned, TagAs, TakenTag, TakenOwner, Value, Valid, Overwritable;
      Adopt(p, content);
      InitAllocated(f, p);
    }

    /** Writing through a pointer to a string in memory changes the one field that points to it, if any. */
    method Assign(p: Ptr, content: string)
      requires Valid() && p in strings
      modifies this`strings
      ensures Valid() && strings == old(strings)[p := content]
      ensures forall f :: f in tagged ==> Value(f) == if Get(tagged[f]) == p then content else old(Value(f))
    {
      strings := strings[p := content];
    }

    method Set(f: FieldId, value: string, p: Ptr)
      requires Valid() && f in tagged && (IsDefault(tagged[f]) ==> Unused(p))
      modifies this
      ensures Valid() && OnlySets(f, value)
      ensures !old(IsDefault(tagged[f])) ==> tagged == old(tagged) && owner == old(owner) && created == old(created)
      ensures deleted == old(deleted)
    {
      hide Owned, TagOf, Get, Aligned, IsDefault, IsMutable, IsArena;
      AccessorsReadTheTag(tagged[f]);
      PointsSomewhere(f);
      if IsDefault(tagged[f]) {
        NewString(f, value, p);
      } else {
        forall g | g in tagged && g != f ensures Get(tagged[g]) != Get(tagged[f]) { NotShared(f, g); }
        Assign(Get(tagged[f]), value);
      }
    }

    /** A pointer the caller may write the field's value through; a default field starts from `initial`. */
    method Mutable(f: FieldId, initial: string, p: Ptr) returns (r: Ptr)
      requires Valid() && f in tagged && (IsDefault(tagged[f]) ==> Unused(p))
      modifies this
      ensures Valid() && f in tagged && r == Get(tagged[f]) && r in strings && !IsDefault(tagged[f])
      ensures OnlySets(f, if old(IsDefault(tagged[f])) then initial else old(Value(f)))
      ensures !old(IsDefault(tagged[f])) ==> tagged == old(tagged) && strings == old(strings)
      ensures forall g :: g in tagged && g != f ==> Get(tagged[g]) != r
    {
      hide Owned, TagOf, Get, Aligned, IsDefault, IsMutable, IsArena;
      AccessorsReadTheTag(tagged[f]);
      PointsSomewhere(f);
      if IsMutable(tagged[f]) {
        r := Get(tagged[f]);
      } else {
        NewString(f, initial, p);
        r := Get(tagged[f]);
      }
      AccessorsReadTheTag(tagged[f]);
      PointsSomewhere(f);
      forall g | g in tagged && g != f ensures Get(tagged[g]) != r { NotShared(f, g); }
    }

    /** The field's own heap string is handed out, and the field left default. */
    method HandOver(f: FieldId) returns (r: Ptr)
      requires Valid() && f in tagged && TagOf(tagged[f]) == ALLOCATED
      modifies this`tagged, this`owner
      ensures Valid() && OnlySets(f, "") && TagOf(tagged[f]) == DEFAULT
      ensures IsHandedOut(r) && r == old(Get(tagged[f])) && strings[r] == old(Value(f))
    {
      hide Owned, TagOf, Get, Aligned, TagAs;
      r := Get(tagged[f]);
      PointsSomewhere(f);
      ConstantsAreApart(emptyString);
      LeaveField(tagged, arenaOf, constants.Keys, owner, f);
      PointAtConstant(tagged - {f}, arenaOf, constants.Keys, owner[r := HandedOut], f, emptyString);
      assert (tagged - {f})[f := TagAs(DEFAULT, emptyString)] == tagged[f := TagAs(DEFAULT, emptyString)];
      tagged := tagged[f := TagAs(DEFAULT, emptyString)];
      owner := owner[r := HandedOut];
    }

    /**
     * Hands the value out as a string the caller owns, and leaves the field at the empty string. A
     * heap string is handed over; an arena string stays with the arena and its content moves to a
     * new one at p. A default field hands out nothing and stays at the constant it points at, so
     * the field reads "" afterwards exactly when that constant does or there was a string.
     */
    method Release(f: FieldId, p: Ptr) returns (r: Ptr)
      requires Valid() && f in tagged && (IsArena(tagged[f]) ==> Unused(p))
      modifies this
      ensures Valid() && f in tagged && IsDefault(tagged[f]) && deleted == old(deleted)
      ensures OnlySets(f, if old(IsDefault(tagged[f])) then old(Value(f)) else "")
      ensures Value(f) == "" <==> !old(IsDefault(tagged[f])) || old(ConstantOf(f)) == ""
      ensures if old(IsDefault(tagged[f])) then r == 0 && tagged == old(tagged) && strings == old(strings)
              else IsHandedOut(r) && strings[r] == old(Value(f))
      ensures r == if old(IsDefault(tagged[f])) then 0 else if old(IsArena(tagged[f])) then p else old(Get(tagged[f]))
      ensures strings == if old(IsArena(tagged[f])) then old(strings)[p := old(Value(f))] else old(strings)
    {
      hide Owned, TagOf, Get, Aligned, IsDefault, IsMutable, IsArena;
      AccessorsReadTheTag(tagged[f]);
      PointsSomewhere(f);
      if IsDefault(tagged[f]) { return 0; }
      if IsArena(tagged[f]) {
        r := p;
        ConstantsAreApart(emptyString);
        Adopt(p, strings[Get(tagged[f])]);
        InitExternal(f, emptyString);
      } else {
        r := HandOver(f);
      }
      AccessorsReadTheTag(tagged[f]);
    }

    /** Deletes the string if the field owns it. The field is out of use until it is initialized again. */
    method Destroy(f: FieldId)
      requires Valid() && f in tagged
      modifies this
      ensures Valid() && tagged == old(tagged) - {f}
      ensures forall g :: g in tagged ==> Value(g) == old(Value(g))
      ensures var p := old(GetIfAllocated(tagged[f]));
              if p == 0 then strings == old(strings) && owner == old(owner) && deleted == old(deleted)
              else p in old(strings) && old(owner[p]) == HeldBy(f) && strings == old(strings) - {p}
                   && owner == old(owner) - {p} && deleted == old(deleted) + 1
    {
      hide Owned, TagOf, Get, Aligned, TagAs, GetIfAllocated;
      AccessorsReadTheTag(tagged[f]);
      PointsSomewhere(f);
      LeaveField(tagged, arenaOf, constants.Keys, owner, f);
      var p := GetIfAllocated(tagged[f]);
      if p != 0 {
        forall g | g in tagged && g != f ensures Get(tagged[g]) != p { NotShared(f, g); }
        strings, owner, deleted := strings - {p}, owner - {p}, deleted + 1;
      }
      tagged := tagged - {f};
    }

    /** Destroys what the field holds and takes the caller's string, or nothing. */
    method SetAllocated(f: FieldId, p: Ptr)
      requires Valid() && f in tagged && (p != 0 ==> IsHandedOut(p))
      modifies this
      ensures Valid() && tagged.Keys == old(tagged.Keys)
      ensures Value(f) == if p == 0 then "" else old(strings)[p]
      ensures forall g :: g in tagged && g != f ==> Value(g) == old(Value(g))
      ensures old(GetIfAllocated(tagged[f])) == 0 ==> strings == old(strings) && deleted == old(deleted)
      ensures old(GetIfAllocated(tagged[f])) != 0 ==>
                strings == old(strings) - {old(GetIfAllocated(tagged[f]))} && deleted == old(deleted) + 1
      ensures p != 0 ==> p in owner && owner[p] == TakenOwner(f, arenaOf(f))
    {
      hide Owned, TagOf, Get, Aligned, GetIfAllocated, TakenOwner, Value;
      NotHandedOut(f);
      Destroy(f);
      TakeOrDefault(f, p);
    }

    /** What SetAllocated does with a field that holds nothing. */
    method TakeOrDefault(f: FieldId, p: Ptr)
      requires Valid() && f !in tagged && (p != 0 ==> IsHandedOut(p))
      modifies this`tagged, this`owner
      ensures Valid() && tagged.Keys == old(tagged.Keys) + {f}
      ensures Value(f) == if p == 0 then "" else strings[p]
      ensures forall g :: g in tagged && g != f ==> Value(g) == old(Value(g))
      ensures p != 0 ==> p in owner && owner[p] == TakenOwner(f, arenaOf(f))
    {
      hide Owned, TagOf, Get, Aligned, GetIfAllocated, TakenOwner, Value;
      if p == 0 {
        ConstantsAreApart(emptyString);
        InitExternal(f, emptyString);
      } else {
        InitAllocated(f, p);
      }
    }

    method ClearToEmpty(f: FieldId)
      requires Valid() && f in tagged
      modifies this`strings
      ensures Valid() && OnlySets(f, if IsDefault(tagged[f]) then old(Value(f)) else "")
    {
      hide Owned, TagOf, Get, Aligned, IsDefault, IsMutable, IsArena;
      AccessorsReadTheTag(tagged[f]);
      PointsSomewhere(f);
      if !IsDefault(tagged[f]) {
        forall g | g in tagged && g != f ensures Get(tagged[g]) != Get(tagged[f]) { NotShared(f, g); }
        Assign(Get(tagged[f]), "");
      }
    }

    method ClearToDefault(f: FieldId, initial: string)
      requires Valid() && f in tagged
      modifies this`strings
      ensures Valid() && OnlySets(f, if IsDefault(tagged[f]) then old(Value(f)) else initial)
    {
      hide Owned, TagOf, Get, Aligned, IsDefault, IsMutable, IsArena;
      AccessorsReadTheTag(tagged[f]);
      PointsSomewhere(f);
      if !IsDefault(tagged[f]) {
        forall g | g in tagged && g != f ensures Get(tagged[g]) != Get(tagged[f]) { NotShared(f, g); }
        Assign(Get(tagged[f]), initial);
      }
    }

    /** Swaps the pointers of two fields of messages on the same arena, or both on none. */
    method InternalSwap(f: FieldId, g: FieldId)
      requires Valid() && f in tagged && g in tagged && f != g && arenaOf(f) == arenaOf(g)
      modifies this`tagged, this`owner
      ensures Valid() && tagged == old(tagged)[f := old(tagged)[g]][g := old(tagged)[f]]
      ensures Value(f) == old(Value(g)) && Value(g) == old(Value(f))
      ensures forall h :: h in tagged && h != f && h != g ==> Value(h) == old(Value(h))
    {
      hide Owned, TagOf, Get, Aligned;
      SwapFields(tagged, arenaOf, constants.Keys, owner, f, g);
      tagged := tagged[f := tagged[g]][g := tagged[f]];
      owner := Swapped(owner, f, g);
    }

    lemma DropArenaMaps(a: ArenaId, cleanups: set<Ptr>)
      requires Valid() && cleanups == set p | p in owner && owner[p] == InArena(a)
      ensures Owned(map f | f in tagged && arenaOf(f) != Some(a) :: tagged[f],
                    arenaOf, constants.Keys, owner - cleanups)
      ensures forall f :: f in tagged && arenaOf(f) != Some(a) ==> Get(tagged[f]) !in cleanups
      ensures |strings - cleanups| <= |strings| && (owner - cleanups).Keys == (strings - cleanups).Keys
    {
      hide Owned, TagOf, Get, Aligned;
      var rest := map f | f in tagged && arenaOf(f) != Some(a) :: tagged[f];
      DropArena(tagged, arenaOf, constants.Keys, owner, a, rest, owner - cleanups);
      KeysShrink(strings, strings - cleanups);
      assert forall f :: f in rest ==> Get(tagged[f]) !in cleanups;
    }

    /** The arena's cleanups: every string it owns is deleted, and the fields of its messages are gone. */
    method DropArenaStrings(a: ArenaId, cleanups: set<Ptr>)
      requires Valid() && cleanups == set p | p in owner && owner[p] == InArena(a)
      modifies this
      ensures Valid()
      ensures forall f :: f in tagged <==> f in old(tagged) && arenaOf(f) != Some(a)
      ensures forall f :: f in tagged ==> Value(f) == old(Value(f))
      ensures strings == old(strings) - cleanups
      ensures deleted - old(deleted) == old(|strings|) - |strings|
    {
      hide Owned, TagOf, Get, Aligned;
      DropArenaMaps(a, cleanups);
      ghost var rest := map f | f in tagged && arenaOf(f) != Some(a) :: tagged[f];
      deleted := deleted + (|strings| - |strings - cleanups|);
      strings := strings - cleanups;
      owner := owner - cleanups;
      tagged := map f | f in tagged && arenaOf(f) != Some(a) :: tagged[f];
      assert tagged == rest;
    }
  }

  /** Released at a default of its own, "hi", a field reads "hi" still. */
  method ReleaseLeavesTheDefault() returns (r: Ptr, value: string)
    ensures r == 0 && value == "hi"
  {
    hide Owned;
    var fields := new StringFields(f => None, map[4 := "", 8 := "hi"], 4);
    fields.InitExternal(0, 8);
    AccessorsReadTheTag(fields.tagged[0]);
    r := fields.Release(0, 12);
    value := fields.Value(0);
  }

  lemma KeysShrink(m: map<Ptr, string>, m': map<Ptr, string>)
    requires m'.Keys <= m.Keys
    ensures |m'| <= |m|
  {
    assert m'.Keys + (m.Keys - m'.Keys) == m.Keys;
    assert |m'.Keys| == |m'| && |m.Keys| == |m|;
  }
}
