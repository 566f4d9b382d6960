/** Finding fields and enum values by number: a dense prefix is indexed directly, the rest is in a hash table. */
module NumberLookup {
  import opened Options
  import opened Names

  /** A field of a message, or an extension of one; an extension may not know what it extends. */
  datatype Field = Field(parent: Option<nat>, index: nat, number: int, isExtension: bool)

  datatype Message = Message(numbers: seq<int>, sequentialFieldLimit: nat)

  datatype EnumValue = EnumValue(parent: nat, index: nat, number: int)

  datatype Enum = Enum(numbers: seq<int>, sequentialValueLimit: int)

  const UINT16_MAX := 65535

  // ---------------------------------------------------------------- the dense prefix

  predicate StartsDense(numbers: seq<int>, base: int, n: int) {
    n <= |numbers| && forall i :: 0 <= i < n ==> numbers[i] == base + i
  }

  ghost predicate MessageOk(m: Message) { StartsDense(m.numbers, 1, m.sequentialFieldLimit) }

  /** The limit is the last index of the dense prefix, or less. */
  ghost predicate EnumOk(e: Enum)
  {
    e.numbers != [] && StartsDense(e.numbers, e.numbers[0], e.sequentialValueLimit + 1)
  }

  /** The limit is the whole dense prefix, but no more than 16 bits hold. */
  method SequentialFieldLimit(numbers: seq<int>) returns (limit: nat)
    ensures StartsDense(numbers, 1, limit) && limit <= 65535 && limit <= |numbers|
    ensures forall i :: 0 <= i < limit ==> numbers[i] == i + 1
    ensures limit < 65535 && limit < |numbers| ==> numbers[limit] != limit + 1
  {
    limit := 0;
    var i := 0;
    while i < UINT16_MAX && i < |numbers| && numbers[i] == i + 1
      invariant i == limit <= UINT16_MAX && StartsDense(numbers, 1, limit)
    {
      limit := i + 1;
      i := i + 1;
    }
  }

  /** Storing in a signed 16-bit field. */
  function ToInt16(x: int): int
    requires 0 <= x <= UINT16_MAX
  {
    if x < 0x8000 then x else x - 0x1_0000
  }

  /**
   * The loop counts to the unsigned limit though the field is signed: a dense prefix of more than
   * 2^15 values wraps to a negative limit, which is still none above the true one. With the wrap
   * undone, the limit is the last index of the whole dense prefix of up to 65535 values.
   */
  method SequentialValueLimit(numbers: seq<int>) returns (limit: int)
    ensures numbers == [] ==> limit == 0
    ensures numbers != [] ==> StartsDense(numbers, numbers[0], limit + 1)
    ensures -0x8000 <= limit <= 0x7fff
    ensures var n := limit + 1 + (if limit < 0 then 65536 else 0);
            numbers != [] ==>
              && n <= |numbers| && n <= 65535 && (forall i :: 0 <= i < n ==> numbers[i] == numbers[0] + i)
              && (n < 65535 && n < |numbers| ==> numbers[n] != numbers[0] + n)
  {
    limit := 0;
    var i := 0;
    while i < UINT16_MAX && i < |numbers| && numbers[i] == i + numbers[0]
      invariant 0 <= i <= |numbers| && i <= UINT16_MAX
      invariant limit == if i == 0 then 0 else ToInt16(i - 1)
      invariant numbers != [] ==> StartsDense(numbers, numbers[0], i)
    {
      limit := ToInt16(i);
      i := i + 1;
    }
    assert numbers != [] ==> i > 0;
  }

  // ---------------------------------------------------------------- the linear scan

  predicate Matches(f: Field, parent: Option<nat>, number: int) { f.parent == parent && f.number == number }

  /** The first field of a list with a parent and a number. */
  function First(s: seq<Field>, parent: Option<nat>, number: int): Option<Field> {
    if s == [] then None
    else
      var r := First(s[..|s| - 1], parent, number);
      if r.None? && Matches(s[|s| - 1], parent, number) then Some(s[|s| - 1]) else r
  }

  lemma {:induction false} FirstIsFirst(s: seq<Field>, parent: Option<nat>, number: int)
    ensures First(s, parent, number).None? <==>
              forall i :: 0 <= i < |s| ==> s[i].parent != parent || s[i].number != number
    ensures First(s, parent, number).Some? ==>
              exists i :: 0 <= i < |s| && First(s, parent, number) == Some(s[i])
                          && s[i].parent == parent && s[i].number == number
                          && forall j :: 0 <= j < i ==> s[j].parent != parent || s[j].number != number
  {
    if s != [] {
      var h := |s| - 1;
      FirstIsFirst(s[..h], parent, number);
      if First(s[..h], parent, number).Some? {
        var i :| 0 <= i < h && First(s[..h], parent, number) == Some(s[..h][i]) && Matches(s[..h][i], parent, number)
                 && forall j :: 0 <= j < i ==> !Matches(s[..h][j], parent, number);
        assert s[i] == s[..h][i];
        forall j | 0 <= j < i ensures !Matches(s[j], parent, number) { assert s[..h][j] == s[j]; }
      } else {
        forall j | 0 <= j < h ensures !Matches(s[j], parent, number) { assert s[..h][j] == s[j]; }
      }
    }
  }

  lemma {:induction false} FirstOfBoth(a: seq<Field>, b: seq<Field>, parent: Option<nat>, number: int)
    ensures First(a + b, parent, number)
         == if First(a, parent, number).Some? then First(a, parent, number) else First(b, parent, number)
    decreases |b|
  {
    if b == [] {
      assert a + b == a;
    } else {
      assert (a + b)[..|a + b| - 1] == a + b[..|b| - 1];
      FirstOfBoth(a, b[..|b| - 1], parent, number);
    }
  }

  function FieldAt(id: nat, m: Message, i: nat): Field
    requires i < |m.numbers|
  {
    Field(Some(id), i, m.numbers[i], false)
  }

  function Fields(id: nat, m: Message, n: nat): (r: seq<Field>)
    requires n <= |m.numbers|
    ensures |r| == n
  {
    seq(n, i requires 0 <= i < n => FieldAt(id, m, i))
  }

  /** The fields of the dense prefix, which are found without being added. */
  function Dense(messages: map<nat, Message>, parent: Option<nat>): seq<Field> {
    if parent.Some? && parent.value in messages
        && messages[parent.value].sequentialFieldLimit <= |messages[parent.value].numbers|
    then Fields(parent.value, messages[parent.value], messages[parent.value].sequentialFieldLimit) else []
  }

  lemma DenseAt(messages: map<nat, Message>, id: nat, number: int)
    requires id in messages && MessageOk(messages[id])
    ensures var m := messages[id];
            First(Dense(messages, Some(id)), Some(id), number)
            == if 1 <= number <= m.sequentialFieldLimit then Some(FieldAt(id, m, number - 1)) else None
  {
    FirstIsFirst(Dense(messages, Some(id)), Some(id), number);
    var m, d := messages[id], Dense(messages, Some(id));
    if 1 <= number <= m.sequentialFieldLimit {
      assert Matches(d[number - 1], Some(id), number);
    }
  }

  lemma NothingDense(messages: map<nat, Message>)
    ensures Dense(messages, None) == [] && forall number :: First([], None, number) == None
  {
  }

  /** A number in the dense range belongs to one field there, and to no other. */
  lemma DenseField(messages: map<nat, Message>, id: nat, f: Field)
    requires id in messages && MessageOk(messages[id]) && f.parent == Some(id)
    requires !f.isExtension ==> f.index < |messages[id].numbers| && f == FieldAt(id, messages[id], f.index)
    ensures var m, d := messages[id], Dense(messages, Some(id));
            if 1 <= f.number <= m.sequentialFieldLimit
            then First(d, Some(id), f.number) == Some(FieldAt(id, m, f.number - 1))
                 && (f in d <==> !f.isExtension && f == FieldAt(id, m, f.number - 1))
            else First(d, Some(id), f.number) == None && f !in d
  {
    var m, d := messages[id], Dense(messages, Some(id));
    DenseAt(messages, id, f.number);
    FirstIsFirst(d, Some(id), f.number);
    if f in d {
      var i :| 0 <= i < |d| && d[i] == f;
      assert Matches(d[i], Some(id), f.number);
    }
    if 1 <= f.number <= m.sequentialFieldLimit { assert d[f.number - 1] == FieldAt(id, m, f.number - 1); }
  }

  lemma FirstOfMore(s: seq<Field>, f: Field)
    ensures forall parent, number ::
              First(s + [f], parent, number)
              == (if First(s, parent, number).None? && Matches(f, parent, number) then Some(f)
                  else First(s, parent, number))
  {
    assert (s + [f])[..|s|] == s;
  }

  // ---------------------------------------------------------------- what a whole file comes to

  /** The fields added that belong to a message itself, in order. */
  function Own(added: seq<Field>, id: nat): seq<Field> {
    if added == [] then []
    else
      var f := added[|added| - 1];
      Own(added[..|added| - 1], id) + (if f.parent == Some(id) && !f.isExtension then [f] else [])
  }

  /** Of the fields added with the number, the first is an extension of the message. */
  ghost predicate ExtensionLeads(added: seq<Field>, id: nat, number: int) {
    exists e :: 0 <= e < |added| && added[e].isExtension && Matches(added[e], Some(id), number)
                && forall j :: 0 <= j < e ==> !Matches(added[j], Some(id), number)
  }

  lemma LeaderIsFirst(added: seq<Field>, id: nat, number: int)
    ensures var r := First(added, Some(id), number);
            ExtensionLeads(added, id, number) <==> r.Some? && r.value.isExtension
  {
    FirstIsFirst(added, Some(id), number);
  }

  lemma LeadsEarlier(added: seq<Field>, id: nat, number: int)
    requires |added| > 0
    ensures ExtensionLeads(added[..|added| - 1], id, number) ==> ExtensionLeads(added, id, number)
  {
    var s := added[..|added| - 1];
    if ExtensionLeads(s, id, number) {
      var e :| 0 <= e < |s| && s[e].isExtension && Matches(s[e], Some(id), number)
               && forall j :: 0 <= j < e ==> !Matches(s[j], Some(id), number);
      assert added[e] == s[e];
      forall j | 0 <= j < e ensures !Matches(added[j], Some(id), number) { assert s[j] == added[j]; }
    }
  }

  /** Without an extension in front, the extensions might as well not be there. */
  lemma {:induction false} FirstOfOwn(added: seq<Field>, id: nat, number: int)
    requires !ExtensionLeads(added, id, number)
    ensures First(added, Some(id), number) == First(Own(added, id), Some(id), number)
  {
    if added != [] {
      var h := |added| - 1;
      LeadsEarlier(added, id, number);
      FirstOfOwn(added[..h], id, number);
      LeaderIsFirst(added, id, number);
      var last := if added[h].parent == Some(id) && !added[h].isExtension then [added[h]] else [];
      FirstOfBoth(Own(added[..h], id), last, Some(id), number);
    }
  }

  predicate InDense(m: Message, number: int) { 1 <= number <= m.sequentialFieldLimit }

  /** A message's own fields are none of them extensions, and have just its numbers. */
  lemma FirstOfFields(id: nat, m: Message, number: int)
    ensures var r := First(Fields(id, m, |m.numbers|), Some(id), number);
            && (r.Some? <==> number in m.numbers)
            && (r.Some? ==>
                  var i := r.value.index;
                  r.value == Field(Some(id), i, number, false) && i < |m.numbers| && m.numbers[i] == number
                  && number !in m.numbers[..i])
  {
    var all := Fields(id, m, |m.numbers|);
    FirstIsFirst(all, Some(id), number);
    assert forall i :: 0 <= i < |all| ==> all[i] == Field(Some(id), i, m.numbers[i], false);
    if number in m.numbers {
      var i :| 0 <= i < |m.numbers| && m.numbers[i] == number;
      assert Matches(all[i], Some(id), number);
    }
  }

  /**
   * Once all fields of a message are added, a number leads to the first field declared with it:
   * exactly when it is in the dense prefix or no extension was added before the fields that have it.
   */
  lemma LookupIsScan(messages: map<nat, Message>, added: seq<Field>, id: nat, number: int)
    requires id in messages && MessageOk(messages[id])
    requires Own(added, id) == Fields(id, messages[id], |messages[id].numbers|)
    ensures First(Dense(messages, Some(id)) + added, Some(id), number)
         == First(Fields(id, messages[id], |messages[id].numbers|), Some(id), number)
        <==> InDense(messages[id], number) || !ExtensionLeads(added, id, number)
  {
    var m := messages[id];
    var d, all := Dense(messages, Some(id)), Fields(id, m, |m.numbers|);
    FirstOfBoth(d, added, Some(id), number);
    DenseAt(messages, id, number);
    assert all == d + all[|d|..];
    FirstOfBoth(d, all[|d|..], Some(id), number);
    LeaderIsFirst(added, id, number);
    FirstOfFields(id, m, number);
    if !ExtensionLeads(added, id, number) { FirstOfOwn(added, id, number); }
  }

  /** An extension of the message, added first, hides the message's own field with the number. */
  ghost predicate Hidden(m: Message, added: seq<Field>, id: nat, number: int) {
    !InDense(m, number) && ExtensionLeads(added, id, number) && number in m.numbers
  }

  lemma WhatHides(m: Message, added: seq<Field>, id: nat, number: int)
    ensures Hidden(m, added, id, number) <==>
              number in m.numbers && !(1 <= number <= m.sequentialFieldLimit)
              && exists e :: 0 <= e < |added| && added[e].isExtension
                   && added[e].parent == Some(id) && added[e].number == number
                   && forall j :: 0 <= j < e ==> added[j].parent != Some(id) || added[j].number != number
  {
  }

  /** A found field that is no extension, as `Descriptor::FindFieldByNumber` returns it. */
  function OnlyField(r: Option<Field>): Option<Field> {
    if r.Some? && !r.value.isExtension then r else None
  }

  /** A message finds its first field with a number, or finds nothing when an extension hides that field. */
  lemma OwnFieldUnlessHidden(messages: map<nat, Message>, added: seq<Field>, id: nat, number: int)
    requires id in messages && MessageOk(messages[id])
    requires Own(added, id) == Fields(id, messages[id], |messages[id].numbers|)
    ensures OnlyField(First(Dense(messages, Some(id)) + added, Some(id), number))
         == if Hidden(messages[id], added, id, number) then None
            else First(Fields(id, messages[id], |messages[id].numbers|), Some(id), number)
  {
    var d := Dense(messages, Some(id));
    LookupIsScan(messages, added, id, number);
    FirstOfFields(id, messages[id], number);
    LeaderIsFirst(added, id, number);
    FirstOfBoth(d, added, Some(id), number);
    DenseAt(messages, id, number);
  }

  /** No field and no extension met an earlier one with its number. */
  ghost predicate NoClash(messages: map<nat, Message>, added: seq<Field>) {
    forall i :: 0 <= i < |added| ==> Fits(messages, added[..i], added[i])
  }

  /** A field fits unless one added or indexed before has its number. */
  ghost predicate Fits(messages: map<nat, Message>, before: seq<Field>, f: Field) {
    f in Dense(messages, f.parent) || First(Dense(messages, f.parent) + before, f.parent, f.number) == None
  }

  /** In the dense range only the field indexed there fits; elsewhere any number not added before. */
  lemma WhoFits(messages: map<nat, Message>, before: seq<Field>, f: Field)
    requires f.parent.Some? ==> f.parent.value in messages && MessageOk(messages[f.parent.value])
    requires f.parent.Some? && !f.isExtension ==>
               f.index < |messages[f.parent.value].numbers|
                   && f == FieldAt(f.parent.value, messages[f.parent.value], f.index)
    ensures Fits(messages, before, f) <==>
              if f.parent.Some? && 1 <= f.number <= messages[f.parent.value].sequentialFieldLimit
              then !f.isExtension && f.index == f.number - 1
              else forall j :: 0 <= j < |before| ==> before[j].parent != f.parent || before[j].number != f.number
  {
    FirstOfBoth(Dense(messages, f.parent), before, f.parent, f.number);
    FirstIsFirst(before, f.parent, f.number);
    if f.parent.Some? { DenseField(messages, f.parent.value, f); } else { NothingDense(messages); }
  }

  /** In a file without conflicts no field is hidden, though the extensions are in the same table. */
  lemma NoClashHidesNothing(messages: map<nat, Message>, added: seq<Field>, id: nat, number: int)
    requires id in messages && MessageOk(messages[id]) && NoClash(messages, added)
    requires Own(added, id) == Fields(id, messages[id], |messages[id].numbers|)
    ensures !Hidden(messages[id], added, id, number)
  {
    if Hidden(messages[id], added, id, number) {
      var e :| 0 <= e < |added| && added[e].isExtension && Matches(added[e], Some(id), number);
      OnlyOneHas(messages, added, id, number, e);
      FirstOfFields(id, messages[id], number);
    }
  }

  /** Message 0 has fields 5 and 7, neither dense; an extension numbered 7 is added before the latter. */
  lemma ExtensionHidesAField()
    ensures var m, e := Message([5, 7], 0), Field(Some(0), 0, 7, true);
            var added := [FieldAt(0, m, 0), e, FieldAt(0, m, 1)];
            MessageOk(m) && Own(added, 0) == Fields(0, m, 2) && Hidden(m, added, 0, 7)
  {
    var m, e := Message([5, 7], 0), Field(Some(0), 0, 7, true);
    var f, g := FieldAt(0, m, 0), FieldAt(0, m, 1);
    var added := [f, e, g];
    assert added[..2] == [f, e] && [f, e][..1] == [f] && [f][..0] == [];
    assert Own([], 0) == [];
    assert Own([f], 0) == [f];
    assert Own([f, e], 0) == [f] + [];
    assert Own(added, 0) == [f] + [g];
    assert m.numbers[1] == 7;
    assert added[1] == e && Matches(added[1], Some(0), 7);
  }

  lemma LaterIsDense(messages: map<nat, Message>, added: seq<Field>, parent: Option<nat>, number: int, i: nat, j: nat)
    requires NoClash(messages, added) && i < j < |added|
    requires Matches(added[i], parent, number) && Matches(added[j], parent, number)
    ensures added[j] in Dense(messages, parent)
  {
    assert Fits(messages, added[..j], added[j]);
    FirstOfBoth(Dense(messages, parent), added[..j], parent, number);
    FirstIsFirst(added[..j], parent, number);
    assert added[..j][i] == added[i];
  }

  lemma ExtensionIsFirst(messages: map<nat, Message>, added: seq<Field>, id: nat, number: int, e: nat)
    requires NoClash(messages, added)
    requires e < |added| && added[e].isExtension && Matches(added[e], Some(id), number)
    ensures First(Dense(messages, Some(id)), Some(id), number) == None
    ensures First(Dense(messages, Some(id)) + added, Some(id), number) == Some(added[e])
  {
    var d := Dense(messages, Some(id));
    hide Dense, NoClash, First;
    assert Fits(messages, added[..e], added[e]) by { AllFit(messages, added, e); }
    DenseIsNoExtension(messages, Some(id), added[e]);
    FirstOfBoth(d, added[..e], Some(id), number);
    assert added == added[..e] + ([added[e]] + added[e + 1..]);
    FirstOfBoth(added[..e], [added[e]] + added[e + 1..], Some(id), number);
    FirstOfBoth([added[e]], added[e + 1..], Some(id), number);
    FirstOfOne(added[e], Some(id), number);
    FirstOfBoth(d, added, Some(id), number);
  }

  lemma AllFit(messages: map<nat, Message>, added: seq<Field>, i: nat)
    requires NoClash(messages, added) && i < |added|
    ensures Fits(messages, added[..i], added[i])
  {
  }

  lemma DenseIsNoExtension(messages: map<nat, Message>, parent: Option<nat>, f: Field)
    requires f.isExtension
    ensures f !in Dense(messages, parent)
  {
  }

  lemma FirstOfOne(f: Field, parent: Option<nat>, number: int)
    requires Matches(f, parent, number)
    ensures First([f], parent, number) == Some(f)
  {
  }

  lemma OnlyOneHas(messages: map<nat, Message>, added: seq<Field>, id: nat, number: int, e: nat)
    requires id in messages && MessageOk(messages[id]) && NoClash(messages, added)
    requires Own(added, id) == Fields(id, messages[id], |messages[id].numbers|)
    requires e < |added| && added[e].isExtension && Matches(added[e], Some(id), number)
    ensures First(Dense(messages, Some(id)) + added, Some(id), number) == Some(added[e])
    ensures First(Fields(id, messages[id], |messages[id].numbers|), Some(id), number) == None
  {
    ExtensionIsFirst(messages, added, id, number, e);
    var all := Own(added, id);
    hide NoClash, First, MessageOk, Own, Fields;
    FirstIsFirst(all, Some(id), number);
    if First(all, Some(id), number).Some? {
      var i :| 0 <= i < |all| && Matches(all[i], Some(id), number);
      var k := OwnIsAdded(added, id, all[i]);
      if k < e {
        LaterIsDense(messages, added, Some(id), number, k, e);
        DenseIsNoExtension(messages, Some(id), added[e]);
      } else {
        LaterIsDense(messages, added, Some(id), number, e, k);
        FirstIsFirst(Dense(messages, Some(id)), Some(id), number);
      }
    }
  }

  lemma {:induction false} OwnIsAdded(added: seq<Field>, id: nat, f: Field) returns (k: nat)
    requires f in Own(added, id)
    ensures k < |added| && added[k] == f && !f.isExtension
  {
    var h := |added| - 1;
    if added[h] == f && !f.isExtension {
      k := h;
    } else {
      k := OwnIsAdded(added[..h], id, f);
    }
  }

  // ---------------------------------------------------------------- the tables of a file

  class FileDescriptorTables {
    const messages: map<nat, Message>
    var fieldsByNumber: map<(Option<nat>, int), Field>
    /** Every field passed to AddFieldByNumber, in order. */
    ghost var added: seq<Field>

    /** Numbers outside the dense prefixes lead to the first field added with them. */
    ghost predicate Valid()
      reads this
    {
      && (forall id :: id in messages ==> MessageOk(messages[id]))
      && (forall parent, number :: First(Dense(messages, parent), parent, number) == None ==>
            First(added, parent, number)
            == if (parent, number) in fieldsByNumber then Some(fieldsByNumber[(parent, number)]) else None)
    }

    constructor (messages: map<nat, Message>)
      requires forall id :: id in messages ==> MessageOk(messages[id])
      ensures Valid() && this.messages == messages && added == []
    {
      this.messages := messages;
      fieldsByNumber, added := map[], [];
    }

    /** Fails exactly when a field added or indexed before has the number. */
    method AddFieldByNumber(f: Field) returns (ok: bool)
      requires Valid() && (f.parent.Some? ==> f.parent.value in messages)
      requires f.parent.Some? && !f.isExtension ==>
                 f.index < |messages[f.parent.value].numbers|
                     && f == FieldAt(f.parent.value, messages[f.parent.value], f.index)
      modifies this
      ensures Valid() && added == old(added) + [f]
      ensures ok <==> Fits(messages, old(added), f)
    {
      FirstOfBoth(Dense(messages, f.parent), added, f.parent, f.number);
      FirstOfMore(added, f);
      if f.parent.Some? { DenseField(messages, f.parent.value, f); }
      hide First, Dense;
      if f.parent.Some? {
        var m := messages[f.parent.value];
        if 1 <= f.number <= m.sequentialFieldLimit {
          added := added + [f];
          if f.isExtension { return false; }
          ok := FieldAt(f.parent.value, m, f.number - 1) == f;
          return;
        }
      } else {
        assert Dense(messages, f.parent) == [] by { NothingDense(messages); }
      }
      var key := (f.parent, f.number);
      ok := key !in fieldsByNumber;
      if ok { fieldsByNumber := fieldsByNumber[key := f]; }
      added := added + [f];
    }

    /** The first field, of those indexed and then of those added, that has the number. */
    method FindFieldByNumber(parent: Option<nat>, number: int) returns (r: Option<Field>)
      requires Valid() && (parent.Some? ==> parent.value in messages)
      ensures r == First(Dense(messages, parent) + added, parent, number)
    {
      FirstOfBoth(Dense(messages, parent), added, parent, number);
      if parent.Some? {
        var m := messages[parent.value];
        DenseAt(messages, parent.value, number);
        if 1 <= number <= m.sequentialFieldLimit { return Some(FieldAt(parent.value, m, number - 1)); }
      }
      var key := (parent, number);
      r := if key in fieldsByNumber then Some(fieldsByNumber[key]) else None;
    }

    /** `Descriptor::FindFieldByNumber`: the message's own first field with the number, unless an extension hides it. */
    method FindOwnFieldByNumber(id: nat, number: int) returns (r: Option<Field>)
      requires Valid() && id in messages
      requires Own(added, id) == Fields(id, messages[id], |messages[id].numbers|)
      ensures r == if Hidden(messages[id], added, id, number) then None
                   else First(Fields(id, messages[id], |messages[id].numbers|), Some(id), number)
      ensures NoClash(messages, added) ==> !Hidden(messages[id], added, id, number)
      ensures r.Some? ==>
                r.value.index < |messages[id].numbers| && r.value == Field(Some(id), r.value.index, number, false)
                && messages[id].numbers[r.value.index] == number && number !in messages[id].numbers[..r.value.index]
      ensures r.None? <==> number !in messages[id].numbers || Hidden(messages[id], added, id, number)
    {
      OwnFieldUnlessHidden(messages, added, id, number);
      FirstOfFields(id, messages[id], number);
      hide First, Fields, Own, MessageOk, Hidden, Valid, Dense, NoClash;
      if NoClash(messages, added) { NoClashHidesNothing(messages, added, id, number); }
      r := FindFieldByNumber(Some(id), number);
      if r.Some? && r.value.isExtension { r := None; }
    }
  }

  // ---------------------------------------------------------------- enum values

  function ValueAt(id: nat, e: Enum, i: nat): EnumValue
    requires i < |e.numbers|
  {
    EnumValue(id, i, e.numbers[i])
  }

  /** The index of the first value declared with a number, aliases coming later. */
  function FirstIndex(numbers: seq<int>, number: int): (r: Option<nat>)
    ensures r.Some? ==> r.value < |numbers| && numbers[r.value] == number && number !in numbers[..r.value]
    ensures r.None? ==> number !in numbers
  {
    if numbers == [] then None
    else
      var h := |numbers| - 1;
      assert numbers == numbers[..h] + [numbers[h]];
      var r := FirstIndex(numbers[..h], number);
      if r.Some? then
        assert numbers[..h][..r.value] == numbers[..r.value];
        r
      else if numbers[h] == number then Some(h) else None
  }

  lemma FirstIndexOnce(numbers: seq<int>, number: int, i: nat)
    requires i < |numbers| && numbers[i] == number && number !in numbers[..i]
    ensures FirstIndex(numbers, number) == Some(i)
  {
    var r := FirstIndex(numbers, number);
    assert r.Some? by { assert numbers[i] in numbers; }
  }

  lemma FirstIndexGrows(numbers: seq<int>, n: nat, number: int)
    requires n < |numbers|
    ensures FirstIndex(numbers[..n + 1], number)
         == if FirstIndex(numbers[..n], number).None? && numbers[n] == number then Some(n)
         else FirstIndex(numbers[..n], number)
  {
    assert numbers[..n + 1][..n] == numbers[..n];
  }

  /** In the dense prefix the number gives the index. */
  lemma DenseIndex(e: Enum, number: int)
    requires EnumOk(e) && e.numbers[0] <= number <= e.numbers[0] + e.sequentialValueLimit
    ensures FirstIndex(e.numbers, number) == Some(number - e.numbers[0])
  {
    var i := number - e.numbers[0];
    assert e.numbers[i] == e.numbers[0] + i;
    forall j | 0 <= j < i ensures e.numbers[..i][j] != number { assert e.numbers[j] == e.numbers[0] + j; }
    FirstIndexOnce(e.numbers, number, i);
  }

  class EnumTables {
    const enums: map<nat, Enum>
    var enumValuesByNumber: map<(nat, int), EnumValue>

    predicate InSequence(id: nat, number: int)
      requires id in enums && enums[id].numbers != []
    {
      enums[id].numbers[0] <= number <= enums[id].numbers[0] + enums[id].sequentialValueLimit
    }

    function OfKey(key: (nat, int)): Option<EnumValue>
      reads this
    {
      if key in enumValuesByNumber then Some(enumValuesByNumber[key]) else None
    }

    /** The table holds, of the first values of an enum, the first with each number outside the dense prefix. */
    ghost predicate Holds(id: nat, n: nat)
      requires id in enums && n <= |enums[id].numbers| && enums[id].numbers != []
      reads this
    {
      forall number :: !InSequence(id, number) ==>
        var i := FirstIndex(enums[id].numbers[..n], number);
        OfKey((id, number)) == if i.Some? then Some(EnumValue(id, i.value, number)) else None
    }

    constructor (enums: map<nat, Enum>)
      requires forall id :: id in enums ==> EnumOk(enums[id])
      ensures this.enums == enums
      ensures forall id :: id in enums && enums[id].numbers != [] ==> Holds(id, 0)
    {
      this.enums := enums;
      enumValuesByNumber := map[];
    }

    method AddEnumValueByNumber(v: EnumValue) returns (ok: bool)
      requires v.parent in enums && EnumOk(enums[v.parent]) && v.index < |enums[v.parent].numbers|
      requires v == ValueAt(v.parent, enums[v.parent], v.index) && Holds(v.parent, v.index)
      modifies this`enumValuesByNumber
      ensures Holds(v.parent, v.index + 1)
      ensures ok <==> InSequence(v.parent, v.number) || FirstIndex(enums[v.parent].numbers[..v.index], v.number) == None
      ensures forall key: (nat, int) :: key.0 != v.parent ==> OfKey(key) == old(OfKey(key))
    {
      forall number | true ensures FirstIndex(enums[v.parent].numbers[..v.index + 1], number)
         == if FirstIndex(enums[v.parent].numbers[..v.index], number).None? && v.number == number then Some(v.index)
            else FirstIndex(enums[v.parent].numbers[..v.index], number)
      {
        FirstIndexGrows(enums[v.parent].numbers, v.index, number);
      }
      if InSequence(v.parent, v.number) { return true; }
      ok := (v.parent, v.number) !in enumValuesByNumber;
      if ok { enumValuesByNumber := enumValuesByNumber[(v.parent, v.number) := v]; }
    }

    /** Adds the values of an enum in order, ignoring what the table says about aliases. */
    method BuildEnumValues(id: nat)
      requires id in enums && EnumOk(enums[id]) && Holds(id, 0)
      modifies this`enumValuesByNumber
      ensures Holds(id, |enums[id].numbers|)
    {
      for i := 0 to |enums[id].numbers|
        invariant Holds(id, i)
      {
        var _ := AddEnumValueByNumber(ValueAt(id, enums[id], i));
      }
    }

    /** The first value declared with the number. */
    method FindEnumValueByNumber(id: nat, number: int) returns (r: Option<EnumValue>)
      requires id in enums && EnumOk(enums[id]) && Holds(id, |enums[id].numbers|)
      ensures r == if FirstIndex(enums[id].numbers, number).Some?
                   then Some(ValueAt(id, enums[id], FirstIndex(enums[id].numbers, number).value)) else None
      ensures r.None? <==> number !in enums[id].numbers
      ensures r.Some? ==>
                r.value.index < |enums[id].numbers| && r.value == EnumValue(id, r.value.index, number)
                && enums[id].numbers[r.value.index] == number && number !in enums[id].numbers[..r.value.index]
    {
      var e := enums[id];
      assert e.numbers[..|e.numbers|] == e.numbers;
      if InSequence(id, number) {
        DenseIndex(e, number);
        return Some(ValueAt(id, e, number - e.numbers[0]));
      }
      r := if (id, number) in enumValuesByNumber then Some(enumValuesByNumber[(id, number)]) else None;
    }
  }
}
