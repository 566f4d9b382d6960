/**
 * The two-phase allocation of a file's descriptors: a plan is made by walking the file, then the
 * memory is handed out by a separate walk that builds it. The two have to agree exactly.
 */
module FlatAllocator {
  import opened Options
  import opened Names
  import opened Sizes
  import opened FieldNames

  // ---------------------------------------------------------------- what is allocated

  /** Types without a destructor are laid out as bytes, the others as arrays of their own. */
  datatype Type =
    | FileDescriptorType | DescriptorType | FieldDescriptorType | OneofDescriptorType | EnumDescriptorType
    | EnumValueDescriptorType | ServiceDescriptorType | MethodDescriptorType
    | ExtensionRangeType | ReservedRangeType | EnumReservedRangeType | PointerType | IntType
    | StringType | SourceCodeInfoType | FileDescriptorTablesType
    | MessageOptionsType | FieldOptionsType | EnumOptionsType | EnumValueOptionsType | ExtensionRangeOptionsType
    | OneofOptionsType | ServiceOptionsType | MethodOptionsType | FileOptionsType

  /** The size in bytes of a type without a destructor; 0 for the others. */
  function SizeOf(u: Type): nat {
    match u
    case FileDescriptorType => 144
    case DescriptorType => 136
    case FieldDescriptorType => 72
    case OneofDescriptorType => 40
    case EnumDescriptorType => 72
    case EnumValueDescriptorType => 32
    case ServiceDescriptorType => 48
    case MethodDescriptorType => 64
    case ExtensionRangeType => 16
    case ReservedRangeType => 8
    case EnumReservedRangeType => 8
    case PointerType => 8
    case IntType => 4
    case _ => 0
  }

  predicate Trivial(u: Type) { SizeOf(u) > 0 }

  datatype Slot = Bytes | Objects(of: Type)

  /** What is counted: bytes, and objects of each other type. */
  type Amount = multiset<Slot>

  /** An array: whole words of bytes for a trivial type, objects otherwise. */
  function Units(u: Type, n: nat): Amount {
    if Trivial(u) then multiset{}[Bytes := AlignUpTo8(n * SizeOf(u))] else multiset{}[Objects(u) := n]
  }

  function Strings(n: nat): Amount { Units(StringType, n) }

  lemma StringsAdd(a: nat, b: nat)
    ensures Strings(a + b) == Strings(a) + Strings(b)
  {
  }

  lemma NoStrings()
    ensures Strings(0) == multiset{}
  {
  }

  /** The options of an element, if it has any. */
  function OptionsOf(has: bool, u: Type): Amount { if has then Units(u, 1) else multiset{} }

  // ---------------------------------------------------------------- the descriptor tree

  datatype EnumValueProto = EnumValueProto(hasOptions: bool)
  datatype EnumProto = EnumProto(values: seq<EnumValueProto>, reservedRanges: nat, reservedNames: nat, hasOptions: bool)
  datatype OneofProto = OneofProto(hasOptions: bool)
  /** The type is one of the 18 of the format. */
  datatype FieldProto = FieldProto(name: string, jsonName: Option<string>, hasOptions: bool, hasDefault: bool,
                                   fieldType: Option<nat>)
  datatype ExtensionRangeProto = ExtensionRangeProto(hasOptions: bool)
  datatype MessageProto = MessageProto(name: string, nested: seq<MessageProto>, fields: seq<FieldProto>,
                                       extensions: seq<FieldProto>, extensionRanges: seq<ExtensionRangeProto>,
                                       reservedRanges: nat, reservedNames: nat, enums: seq<EnumProto>,
                                       oneofs: seq<OneofProto>, hasOptions: bool)
  datatype MethodProto = MethodProto(hasOptions: bool)
  datatype ServiceProto = ServiceProto(methods: seq<MethodProto>, hasOptions: bool)
  datatype FileProto = FileProto(name: string, package: string, messages: seq<MessageProto>, enums: seq<EnumProto>,
                                 services: seq<ServiceProto>, extensions: seq<FieldProto>, dependency: seq<string>,
                                 publicDependencies: nat, weakDependencies: nat, hasOptions: bool,
                                 hasSourceCodeInfo: bool)

  datatype CppType = CPPTYPE_INT32 | CPPTYPE_INT64 | CPPTYPE_UINT32 | CPPTYPE_UINT64 | CPPTYPE_DOUBLE | CPPTYPE_FLOAT
                   | CPPTYPE_BOOL | CPPTYPE_ENUM | CPPTYPE_STRING | CPPTYPE_MESSAGE | CPPTYPE_NONE

  const TYPE_STRING := 9
  const TYPE_BYTES := 12

  /** `kTypeToCppTypeMap`. */
  function CppTypeOf(t: nat): CppType {
    match t
    case 1 => CPPTYPE_DOUBLE
    case 2 => CPPTYPE_FLOAT
    case 3 => CPPTYPE_INT64
    case 4 => CPPTYPE_UINT64
    case 5 => CPPTYPE_INT32
    case 6 => CPPTYPE_UINT64
    case 7 => CPPTYPE_UINT32
    case 8 => CPPTYPE_BOOL
    case 9 => CPPTYPE_STRING
    case 10 => CPPTYPE_MESSAGE
    case 11 => CPPTYPE_MESSAGE
    case 12 => CPPTYPE_STRING
    case 13 => CPPTYPE_UINT32
    case 14 => CPPTYPE_ENUM
    case 15 => CPPTYPE_INT32
    case 16 => CPPTYPE_INT64
    case 17 => CPPTYPE_INT32
    case 18 => CPPTYPE_INT64
    case _ => CPPTYPE_NONE
  }

  /** A default value that is a string. */
  predicate HasStringDefault(f: FieldProto) {
    f.hasDefault && f.fieldType.Some? && (f.fieldType.value == TYPE_STRING || f.fieldType.value == TYPE_BYTES)
  }

  // ---------------------------------------------------------------- what a tree needs, element by element

  function Sum<T>(f: T -> Amount, s: seq<T>): Amount {
    if s == [] then multiset{} else Sum(f, s[..|s| - 1]) + f(s[|s| - 1])
  }

  /** An array of descriptors, and what each of them needs besides. */
  function ArrayNeed<T>(u: Type, f: T -> Amount, s: seq<T>): Amount { Units(u, |s|) + Sum(f, s) }

  /** Beyond its two names. */
  function EnumValueMore(v: EnumValueProto): Amount { OptionsOf(v.hasOptions, EnumValueOptionsType) }

  function EnumValueNeed(v: EnumValueProto): Amount { Strings(2) + EnumValueMore(v) }

  function EnumMore(e: EnumProto): Amount {
    OptionsOf(e.hasOptions, EnumOptionsType) + ArrayNeed(EnumValueDescriptorType, EnumValueNeed, e.values)
    + Units(EnumReservedRangeType, e.reservedRanges) + Units(PointerType, e.reservedNames) + Strings(e.reservedNames)
  }

  function EnumNeed(e: EnumProto): Amount { Strings(2) + EnumMore(e) }

  function OneofMore(o: OneofProto): Amount { OptionsOf(o.hasOptions, OneofOptionsType) }

  function OneofNeed(o: OneofProto): Amount { Strings(2) + OneofMore(o) }

  /** The names of a field are shared where they are equal. */
  function FieldNeed(f: FieldProto): Amount {
    OptionsOf(f.hasOptions, FieldOptionsType) + Strings(NameCount(f.name, f.jsonName))
    + (if HasStringDefault(f) then Strings(1) else multiset{})
  }

  function ExtensionRangeNeed(r: ExtensionRangeProto): Amount { OptionsOf(r.hasOptions, ExtensionRangeOptionsType) }

  function MessageMore(m: MessageProto): Amount
    decreases m, 0
  {
    OptionsOf(m.hasOptions, MessageOptionsType) + NestedNeed(m.nested)
    + ArrayNeed(FieldDescriptorType, FieldNeed, m.fields) + ArrayNeed(FieldDescriptorType, FieldNeed, m.extensions)
    + ArrayNeed(ExtensionRangeType, ExtensionRangeNeed, m.extensionRanges) + Units(ReservedRangeType, m.reservedRanges)
    + Units(PointerType, m.reservedNames) + Strings(m.reservedNames)
    + ArrayNeed(EnumDescriptorType, EnumNeed, m.enums) + ArrayNeed(OneofDescriptorType, OneofNeed, m.oneofs)
  }

  function MessageNeed(m: MessageProto): Amount
    decreases m, 1
  {
    Strings(2) + MessageMore(m)
  }

  function MessagesNeed(ms: seq<MessageProto>): Amount
    decreases ms, 0
  {
    if ms == [] then multiset{} else MessagesNeed(ms[..|ms| - 1]) + MessageNeed(ms[|ms| - 1])
  }

  function NestedNeed(ms: seq<MessageProto>): Amount
    decreases ms, 1
  {
    Units(DescriptorType, |ms|) + MessagesNeed(ms)
  }

  function MethodMore(m: MethodProto): Amount { OptionsOf(m.hasOptions, MethodOptionsType) }

  function MethodNeed(m: MethodProto): Amount { Strings(2) + MethodMore(m) }

  function ServiceMore(s: ServiceProto): Amount {
    OptionsOf(s.hasOptions, ServiceOptionsType) + ArrayNeed(MethodDescriptorType, MethodNeed, s.methods)
  }

  function ServiceNeed(s: ServiceProto): Amount { Strings(2) + ServiceMore(s) }

  function FileNeed(f: FileProto): Amount {
    Units(FileDescriptorType, 1) + Units(FileDescriptorTablesType, 1) + Strings(2)
    + OptionsOf(f.hasOptions, FileOptionsType) + OptionsOf(f.hasSourceCodeInfo, SourceCodeInfoType)
    + ArrayNeed(ServiceDescriptorType, ServiceNeed, f.services) + NestedNeed(f.messages)
    + ArrayNeed(EnumDescriptorType, EnumNeed, f.enums) + ArrayNeed(FieldDescriptorType, FieldNeed, f.extensions)
    + Units(IntType, f.weakDependencies) + Units(IntType, f.publicDependencies) + Units(PointerType, |f.dependency|)
  }

  // ---------------------------------------------------------------- counted out, slot by slot

  /** The bytes of an array are whole words, hold its elements, and are less than a word more. */
  lemma UnitsHold(u: Type, n: nat)
    ensures SizeOf(u) > 0 ==> n * SizeOf(u) <= Units(u, n)[Bytes] < n * SizeOf(u) + 8 && Units(u, n)[Bytes] % 8 == 0
    ensures SizeOf(u) == 0 ==> Units(u, n)[Bytes] == 0 && Units(u, n)[Objects(u)] == n
    ensures forall x :: x != Bytes && !(SizeOf(u) == 0 && x == Objects(u)) ==> Units(u, n)[x] == 0
  {
  }

  function Padded(n: nat): nat { AlignUpTo8(n) }

  lemma PaddedIsLeast(n: nat)
    ensures n <= Padded(n) < n + 8 && Padded(n) % 8 == 0
  {
  }

  lemma ObjectsAt(u: Type, n: nat, x: Slot)
    requires SizeOf(u) == 0
    ensures Units(u, n)[x] == (if x == Objects(u) then n else 0)
  {
  }

  lemma BytesAt(u: Type, n: nat, size: nat, x: Slot)
    requires SizeOf(u) == size > 0
    ensures Units(u, n)[x] == (if x == Bytes then Padded(size * n) else 0)
  {
    assert n * SizeOf(u) == size * n;
  }

  lemma SumNone<T>(f: T -> Amount)
    ensures Sum(f, []) == multiset{}
  {
  }

  /** A list whose elements each come to two, if they are named, and to one more if they are in a set. */
  lemma {:induction false} SumCounted<T>(f: T -> Amount, s: seq<T>, x: Slot, named: bool, has: set<int>)
    requires forall i :: i in has ==> 0 <= i < |s|
    requires forall i :: 0 <= i < |s| ==> f(s[i])[x] == (if named then 2 else 0) + (if i in has then 1 else 0)
    ensures Sum(f, s)[x] == (if named then 2 * |s| else 0) + |has|
  {
    if s == [] {
      assert |has| == 0 by { if has != {} { var i :| i in has; } }
    } else {
      var h := |s| - 1;
      var rest := has - {h};
      assert |has| == |rest| + (if h in has then 1 else 0) by { assert h !in has ==> rest == has; }
      SumCounted(f, s[..h], x, named, rest);
      assert Sum(f, s)[x] == Sum(f, s[..h])[x] + f(s[h])[x];
    }
  }

  lemma OptionsAt(has: bool, u: Type, x: Slot)
    requires SizeOf(u) == 0
    ensures OptionsOf(has, u)[x] == (if x == Objects(u) && has then 1 else 0)
  {
  }

  lemma EnumValuesCounted(vs: seq<EnumValueProto>, x: Slot)
    ensures Sum(EnumValueNeed, vs)[x]
         == (if x == Objects(StringType) then 2 * |vs| else 0)
            + (if x == Objects(EnumValueOptionsType) then |set i | 0 <= i < |vs| && vs[i].hasOptions| else 0)
  {
    hide Units, OptionsOf, Sum;
    var has := set i | 0 <= i < |vs| && vs[i].hasOptions;
    forall i | 0 <= i < |vs|
      ensures EnumValueNeed(vs[i])[x] == (if x == Objects(StringType) then 2 else 0)
              + (if x == Objects(EnumValueOptionsType) && i in has then 1 else 0)
    {
      ObjectsAt(StringType, 2, x);
      OptionsAt(vs[i].hasOptions, EnumValueOptionsType, x);
    }
    SumCounted(EnumValueNeed, vs, x, x == Objects(StringType), if x == Objects(EnumValueOptionsType) then has else {});
  }

  lemma MethodsCounted(ms: seq<MethodProto>, x: Slot)
    ensures Sum(MethodNeed, ms)[x]
         == (if x == Objects(StringType) then 2 * |ms| else 0)
            + (if x == Objects(MethodOptionsType) then |set i | 0 <= i < |ms| && ms[i].hasOptions| else 0)
  {
    hide Units, OptionsOf, Sum;
    var has := set i | 0 <= i < |ms| && ms[i].hasOptions;
    forall i | 0 <= i < |ms|
      ensures MethodNeed(ms[i])[x] == (if x == Objects(StringType) then 2 else 0)
              + (if x == Objects(MethodOptionsType) && i in has then 1 else 0)
    {
      ObjectsAt(StringType, 2, x);
      OptionsAt(ms[i].hasOptions, MethodOptionsType, x);
    }
    SumCounted(MethodNeed, ms, x, x == Objects(StringType), if x == Objects(MethodOptionsType) then has else {});
  }

  lemma OneofsCounted(os: seq<OneofProto>, x: Slot)
    ensures Sum(OneofNeed, os)[x]
         == (if x == Objects(StringType) then 2 * |os| else 0)
            + (if x == Objects(OneofOptionsType) then |set i | 0 <= i < |os| && os[i].hasOptions| else 0)
  {
    hide Units, OptionsOf, Sum;
    var has := set i | 0 <= i < |os| && os[i].hasOptions;
    forall i | 0 <= i < |os|
      ensures OneofNeed(os[i])[x] == (if x == Objects(StringType) then 2 else 0)
              + (if x == Objects(OneofOptionsType) && i in has then 1 else 0)
    {
      ObjectsAt(StringType, 2, x);
      OptionsAt(os[i].hasOptions, OneofOptionsType, x);
    }
    SumCounted(OneofNeed, os, x, x == Objects(StringType), if x == Objects(OneofOptionsType) then has else {});
  }

  lemma RangesCounted(rs: seq<ExtensionRangeProto>, x: Slot)
    ensures Sum(ExtensionRangeNeed, rs)[x]
         == (if x == Objects(ExtensionRangeOptionsType) then |set i | 0 <= i < |rs| && rs[i].hasOptions| else 0)
  {
    hide Units, OptionsOf, Sum;
    var has := set i | 0 <= i < |rs| && rs[i].hasOptions;
    forall i | 0 <= i < |rs|
      ensures ExtensionRangeNeed(rs[i])[x] == (if x == Objects(ExtensionRangeOptionsType) && i in has then 1 else 0)
    {
      OptionsAt(rs[i].hasOptions, ExtensionRangeOptionsType, x);
    }
    SumCounted(ExtensionRangeNeed, rs, x, false, if x == Objects(ExtensionRangeOptionsType) then has else {});
  }

  /** An enum: two names of its own and of each value, its reserved names, and the options there are. */
  lemma EnumCounted(e: EnumProto, x: Slot)
    ensures EnumNeed(e)[x]
         == (if x == Objects(StringType) then 2 + 2 * |e.values| + e.reservedNames else 0)
            + (if x == Objects(EnumOptionsType) && e.hasOptions then 1 else 0)
            + (if x == Objects(EnumValueOptionsType) then |set i | 0 <= i < |e.values| && e.values[i].hasOptions|
               else 0)
            + (if x == Bytes then Padded(32 * |e.values|) + Padded(8 * e.reservedRanges)
               + Padded(8 * e.reservedNames) else 0)
  {
    hide Units, OptionsOf, Sum, Padded, EnumValueNeed;
    EnumValuesCounted(e.values, x);
    OptionsAt(e.hasOptions, EnumOptionsType, x);
    ObjectsAt(StringType, 2, x);
    ObjectsAt(StringType, e.reservedNames, x);
    BytesAt(EnumValueDescriptorType, |e.values|, 32, x);
    BytesAt(EnumReservedRangeType, e.reservedRanges, 8, x);
    BytesAt(PointerType, e.reservedNames, 8, x);
  }

  /** A service: two names of its own and of each method, and the options there are. */
  lemma ServiceCounted(s: ServiceProto, x: Slot)
    ensures ServiceNeed(s)[x]
         == (if x == Objects(StringType) then 2 + 2 * |s.methods| else 0)
            + (if x == Objects(ServiceOptionsType) && s.hasOptions then 1 else 0)
            + (if x == Objects(MethodOptionsType) then |set i | 0 <= i < |s.methods| && s.methods[i].hasOptions| else 0)
            + (if x == Bytes then Padded(64 * |s.methods|) else 0)
  {
    hide Units, OptionsOf, Sum, Padded, MethodNeed;
    MethodsCounted(s.methods, x);
    OptionsAt(s.hasOptions, ServiceOptionsType, x);
    ObjectsAt(StringType, 2, x);
    BytesAt(MethodDescriptorType, |s.methods|, 64, x);
  }

  /** A field: its different names, its options, and its default if that is a string or bytes. */
  lemma FieldCounted(f: FieldProto, x: Slot)
    ensures FieldNeed(f)[x]
         == (if x == Objects(StringType) then
               |{f.name, LowerString(f.name), ToCamelCase(f.name, true), JsonName(f.name, f.jsonName)}| + 1
               + (if f.hasDefault && (f.fieldType == Some(9) || f.fieldType == Some(12)) then 1 else 0) else 0)
            + (if x == Objects(FieldOptionsType) && f.hasOptions then 1 else 0)
  {
    hide LowerString, ToCamelCase, JsonName;
  }

  lemma MessageParts(m: MessageProto, x: Slot)
    ensures MessageNeed(m)[x]
         == Units(StringType, 2)[x] + OptionsOf(m.hasOptions, MessageOptionsType)[x]
            + Units(DescriptorType, |m.nested|)[x] + MessagesNeed(m.nested)[x]
            + Units(FieldDescriptorType, |m.fields|)[x] + Sum(FieldNeed, m.fields)[x]
            + Units(FieldDescriptorType, |m.extensions|)[x] + Sum(FieldNeed, m.extensions)[x]
            + Units(ExtensionRangeType, |m.extensionRanges|)[x] + Sum(ExtensionRangeNeed, m.extensionRanges)[x]
            + Units(ReservedRangeType, m.reservedRanges)[x] + Units(PointerType, m.reservedNames)[x]
            + Units(StringType, m.reservedNames)[x]
            + Units(EnumDescriptorType, |m.enums|)[x] + Sum(EnumNeed, m.enums)[x]
            + Units(OneofDescriptorType, |m.oneofs|)[x] + Sum(OneofNeed, m.oneofs)[x]
  {
    hide Units, OptionsOf, Sum, FieldNeed, EnumNeed, OneofNeed, ExtensionRangeNeed, MessagesNeed;
    assert NestedNeed(m.nested) == Units(DescriptorType, |m.nested|) + MessagesNeed(m.nested);
    assert MessageNeed(m) == Strings(2) + MessageMore(m);
  }

  lemma FileParts(f: FileProto, x: Slot)
    ensures FileNeed(f)[x]
         == Units(FileDescriptorType, 1)[x] + Units(FileDescriptorTablesType, 1)[x] + Units(StringType, 2)[x]
            + OptionsOf(f.hasOptions, FileOptionsType)[x] + OptionsOf(f.hasSourceCodeInfo, SourceCodeInfoType)[x]
            + Units(ServiceDescriptorType, |f.services|)[x] + Sum(ServiceNeed, f.services)[x]
            + Units(DescriptorType, |f.messages|)[x] + MessagesNeed(f.messages)[x]
            + Units(EnumDescriptorType, |f.enums|)[x] + Sum(EnumNeed, f.enums)[x]
            + Units(FieldDescriptorType, |f.extensions|)[x] + Sum(FieldNeed, f.extensions)[x]
            + Units(IntType, f.weakDependencies)[x] + Units(IntType, f.publicDependencies)[x]
            + Units(PointerType, |f.dependency|)[x]
  {
    hide Units, OptionsOf, Sum, FieldNeed, EnumNeed, ServiceNeed, MessagesNeed;
  }

  /** A message, with what its fields, enums and nested messages need. */
  lemma MessageCounted(m: MessageProto, x: Slot)
    ensures MessageNeed(m)[x]
         == Sum(FieldNeed, m.fields)[x] + Sum(FieldNeed, m.extensions)[x] + Sum(EnumNeed, m.enums)[x]
            + MessagesNeed(m.nested)[x]
            + (if x == Objects(StringType) then 2 + m.reservedNames + 2 * |m.oneofs| else 0)
            + (if x == Objects(MessageOptionsType) && m.hasOptions then 1 else 0)
            + (if x == Objects(OneofOptionsType) then |set i | 0 <= i < |m.oneofs| && m.oneofs[i].hasOptions| else 0)
            + (if x == Objects(ExtensionRangeOptionsType) then
                 |set i | 0 <= i < |m.extensionRanges| && m.extensionRanges[i].hasOptions| else 0)
            + (if x == Bytes then
                 Padded(136 * |m.nested|) + Padded(72 * |m.fields|) + Padded(72 * |m.extensions|)
                 + Padded(72 * |m.enums|) + Padded(40 * |m.oneofs|) + Padded(16 * |m.extensionRanges|)
                 + Padded(8 * m.reservedRanges) + Padded(8 * m.reservedNames) else 0)
  {
    hide Units, OptionsOf, Sum, Padded, FieldNeed, EnumNeed, OneofNeed, ExtensionRangeNeed, MessageNeed, MessagesNeed;
    MessageParts(m, x);
    OneofsCounted(m.oneofs, x);
    RangesCounted(m.extensionRanges, x);
    OptionsAt(m.hasOptions, MessageOptionsType, x);
    BytesAt(DescriptorType, |m.nested|, 136, x);
    BytesAt(FieldDescriptorType, |m.fields|, 72, x);
    BytesAt(FieldDescriptorType, |m.extensions|, 72, x);
    BytesAt(EnumDescriptorType, |m.enums|, 72, x);
    BytesAt(OneofDescriptorType, |m.oneofs|, 40, x);
    BytesAt(ExtensionRangeType, |m.extensionRanges|, 16, x);
    BytesAt(ReservedRangeType, m.reservedRanges, 8, x);
    BytesAt(PointerType, m.reservedNames, 8, x);
    ObjectsAt(StringType, m.reservedNames, x);
    ObjectsAt(StringType, 2, x);
  }

  /** A file, with what its messages, enums, services and extensions need. */
  lemma FileCounted(f: FileProto, x: Slot)
    ensures FileNeed(f)[x]
         == MessagesNeed(f.messages)[x] + Sum(EnumNeed, f.enums)[x] + Sum(ServiceNeed, f.services)[x]
            + Sum(FieldNeed, f.extensions)[x]
            + (if x == Objects(StringType) then 2 else 0) + (if x == Objects(FileDescriptorTablesType) then 1 else 0)
            + (if x == Objects(FileOptionsType) && f.hasOptions then 1 else 0)
            + (if x == Objects(SourceCodeInfoType) && f.hasSourceCodeInfo then 1 else 0)
            + (if x == Bytes then
                 Padded(144 * 1) + Padded(136 * |f.messages|) + Padded(72 * |f.enums|) + Padded(48 * |f.services|)
                 + Padded(72 * |f.extensions|) + Padded(4 * f.weakDependencies)
                 + Padded(4 * f.publicDependencies) + Padded(8 * |f.dependency|) else 0)
  {
    hide Units, OptionsOf, Sum, Padded, FieldNeed, EnumNeed, ServiceNeed, FileNeed, MessagesNeed;
    FileParts(f, x);
    OptionsAt(f.hasOptions, FileOptionsType, x);
    OptionsAt(f.hasSourceCodeInfo, SourceCodeInfoType, x);
    BytesAt(FileDescriptorType, 1, 144, x);
    ObjectsAt(FileDescriptorTablesType, 1, x);
    ObjectsAt(StringType, 2, x);
    BytesAt(DescriptorType, |f.messages|, 136, x);
    BytesAt(EnumDescriptorType, |f.enums|, 72, x);
    BytesAt(ServiceDescriptorType, |f.services|, 48, x);
    BytesAt(FieldDescriptorType, |f.extensions|, 72, x);
    BytesAt(IntType, f.weakDependencies, 4, x);
    BytesAt(IntType, f.publicDependencies, 4, x);
    BytesAt(PointerType, |f.dependency|, 8, x);
  }

  lemma SumStep<T>(f: T -> Amount, s: seq<T>, i: nat)
    requires i < |s|
    ensures Sum(f, s[..i + 1]) == Sum(f, s[..i]) + f(s[i])
  {
    assert s[..i + 1][..i] == s[..i];
  }

  lemma {:induction false} SumPrefix<T>(f: T -> Amount, s: seq<T>, i: nat)
    requires i <= |s|
    ensures Sum(f, s[..i]) <= Sum(f, s)
    decreases |s| - i
  {
    if i < |s| {
      SumStep(f, s, i);
      SumPrefix(f, s, i + 1);
    } else {
      assert s[..i] == s;
    }
  }

  lemma MessagesNone(ms: seq<MessageProto>)
    ensures MessagesNeed(ms[..0]) == multiset{}
  {
  }

  lemma MessagesStep(ms: seq<MessageProto>, i: nat)
    requires i < |ms|
    ensures MessagesNeed(ms[..i + 1]) == MessagesNeed(ms[..i]) + MessageNeed(ms[i])
  {
    assert ms[..i + 1][..i] == ms[..i];
  }

  lemma {:induction false} MessagesPrefix(ms: seq<MessageProto>, i: nat)
    requires i <= |ms|
    ensures MessagesNeed(ms[..i]) <= MessagesNeed(ms)
    decreases |ms| - i
  {
    if i < |ms| {
      MessagesStep(ms, i);
      MessagesPrefix(ms, i + 1);
    } else {
      assert ms[..i] == ms;
    }
  }

  // ---------------------------------------------------------------- the allocator

  class Allocator {
    var total: Amount
    var used: Amount
    var hasAllocated: bool

    constructor ()
      ensures total == multiset{} && used == multiset{} && !hasAllocated
    {
      total, used, hasAllocated := multiset{}, multiset{}, false;
    }

    method PlanArray(u: Type, n: nat)
      requires !hasAllocated
      modifies this`total
      ensures total == old(total) + Units(u, n)
    {
      if Trivial(u) {
        total := total[Bytes := total[Bytes] + AlignUpTo8(n * SizeOf(u))];
      } else {
        total := total[Objects(u) := total[Objects(u)] + n];
      }
    }

    /** Handing out memory; the check that the plan is not exceeded is what callers have to prove. */
    method AllocateArray(u: Type, n: nat)
      requires hasAllocated && used + Units(u, n) <= total
      modifies this`used
      ensures used == old(used) + Units(u, n)
    {
      if Trivial(u) {
        used := used[Bytes := used[Bytes] + AlignUpTo8(n * SizeOf(u))];
      } else {
        used := used[Objects(u) := used[Objects(u)] + n];
      }
    }

    method PlanFieldNames(name: string, jsonName: Option<string>)
      requires !hasAllocated
      modifies this`total
      ensures total == old(total) + Strings(NameCount(name, jsonName))
    {
      var n := PlannedNames(name, jsonName);
      PlanArray(StringType, n);
    }

    method AllocateFieldNames(name: string, scope: string, jsonName: Option<string>) returns (r: FieldNamesResult)
      requires hasAllocated && used + Strings(NameCount(name, jsonName)) <= total
      modifies this`used
      ensures used == old(used) + Strings(NameCount(name, jsonName)) && NamesOk(r, name, scope, jsonName)
    {
      r := AllocatedNames(name, scope, jsonName);
      AllocateArray(StringType, |r.names|);
    }

    method FinalizePlanning()
      requires !hasAllocated
      modifies this`hasAllocated
      ensures hasAllocated
    {
      hasAllocated := true;
    }
  }

  // ---------------------------------------------------------------- planning

  method PlanOptions(has: bool, u: Type, alloc: Allocator)
    requires !alloc.hasAllocated
    modifies alloc`total
    ensures alloc.total == old(alloc.total) + OptionsOf(has, u)
  {
    if has { alloc.PlanArray(u, 1); }
  }

  /** A plan may count the two names of all elements first: what is ahead is taken off as each element is reached. */
  ghost predicate Ahead(total: Amount, names: nat, start: Amount, n: nat, need: Amount) {
    total + Strings(names) == start + Strings(n) + need
  }

  lemma AheadStep(total: Amount, i: nat, start: Amount, n: nat, need: Amount, more: Amount)
    requires Ahead(total, i, start, n, need)
    ensures Ahead(total + more, i + 2, start, n, need + (Strings(2) + more))
  {
    StringsAdd(i, 2);
    hide Units;
    assert total + more + (Strings(i) + Strings(2)) == (total + Strings(i)) + (Strings(2) + more);
    assert start + Strings(n) + need + (Strings(2) + more) == start + Strings(n) + (need + (Strings(2) + more));
  }

  lemma AheadStart(start: Amount, n: nat)
    ensures Ahead(start + Strings(n), 0, start, n, multiset{})
  {
    NoStrings();
  }

  lemma AheadDone(total: Amount, start: Amount, n: nat, need: Amount)
    requires Ahead(total, n, start, n, need)
    ensures total == start + need
  {
    hide Units;
    forall s | s in total || s in start + need ensures total[s] == (start + need)[s] {
      assert (total + Strings(n))[s] == (start + Strings(n) + need)[s];
    }
  }

  /** Planned so far: the names of all elements, and the rest of what the first elements need. */
  ghost predicate PlannedTo<T>(total: Amount, start: Amount, f: T -> Amount, xs: seq<T>, i: nat)
    requires i <= |xs|
  {
    Ahead(total, 2 * i, start, 2 * |xs|, Sum(f, xs[..i]))
  }

  lemma PlanFirst<T>(start: Amount, f: T -> Amount, xs: seq<T>)
    ensures PlannedTo(start + Strings(2 * |xs|), start, f, xs, 0)
  {
    AheadStart(start, 2 * |xs|);
  }

  lemma PlanNext<T>(total: Amount, start: Amount, f: T -> Amount, xs: seq<T>, i: nat, more: Amount)
    requires i < |xs| && PlannedTo(total, start, f, xs, i) && f(xs[i]) == Strings(2) + more
    ensures PlannedTo(total + more, start, f, xs, i + 1)
  {
    hide Ahead, Sum;
    SumStep(f, xs, i);
    AheadStep(total, 2 * i, start, 2 * |xs|, Sum(f, xs[..i]), more);
  }

  lemma PlanLast<T>(total: Amount, start: Amount, f: T -> Amount, xs: seq<T>)
    requires PlannedTo(total, start, f, xs, |xs|)
    ensures total == start + Sum(f, xs)
  {
    assert xs[..|xs|] == xs;
    AheadDone(total, start, 2 * |xs|, Sum(f, xs));
  }

  method PlanEnumValueMore(x: EnumValueProto, alloc: Allocator)
    requires !alloc.hasAllocated
    modifies alloc`total
    ensures alloc.total == old(alloc.total) + EnumValueMore(x)
  {
    hide Units;
    PlanOptions(x.hasOptions, EnumValueOptionsType, alloc);
  }

  method PlanEnumValues(xs: seq<EnumValueProto>, alloc: Allocator)
    requires !alloc.hasAllocated
    modifies alloc`total
    ensures alloc.total == old(alloc.total) + ArrayNeed(EnumValueDescriptorType, EnumValueNeed, xs)
  {
    hide Units, PlannedTo, Sum, EnumValueMore;
    alloc.PlanArray(EnumValueDescriptorType, |xs|);
    ghost var start := alloc.total;
    alloc.PlanArray(StringType, 2 * |xs|);
    PlanFirst(start, EnumValueNeed, xs);
    for i := 0 to |xs|
      invariant PlannedTo(alloc.total, start, EnumValueNeed, xs, i)
    {
      PlanNext(alloc.total, start, EnumValueNeed, xs, i, EnumValueMore(xs[i]));
      PlanEnumValueMore(xs[i], alloc);
    }
    PlanLast(alloc.total, start, EnumValueNeed, xs);
  }

  method PlanEnumMore(x: EnumProto, alloc: Allocator)
    requires !alloc.hasAllocated
    modifies alloc`total
    ensures alloc.total == old(alloc.total) + EnumMore(x)
  {
    hide Units;
    PlanOptions(x.hasOptions, EnumOptionsType, alloc);
    PlanEnumValues(x.values, alloc);
    alloc.PlanArray(EnumReservedRangeType, x.reservedRanges);
    alloc.PlanArray(PointerType, x.reservedNames);
    alloc.PlanArray(StringType, x.reservedNames);
  }

  method PlanEnums(xs: seq<EnumProto>, alloc: Allocator)
    requires !alloc.hasAllocated
    modifies alloc`total
    ensures alloc.total == old(alloc.total) + ArrayNeed(EnumDescriptorType, EnumNeed, xs)
  {
    hide Units, PlannedTo, Sum, EnumMore;
    alloc.PlanArray(EnumDescriptorType, |xs|);
    ghost var start := alloc.total;
    alloc.PlanArray(StringType, 2 * |xs|);
    PlanFirst(start, EnumNeed, xs);
    for i := 0 to |xs|
      invariant PlannedTo(alloc.total, start, EnumNeed, xs, i)
    {
      PlanNext(alloc.total, start, EnumNeed, xs, i, EnumMore(xs[i]));
      PlanEnumMore(xs[i], alloc);
    }
    PlanLast(alloc.total, start, EnumNeed, xs);
  }

  method PlanOneofMore(x: OneofProto, alloc: Allocator)
    requires !alloc.hasAllocated
    modifies alloc`total
    ensures alloc.total == old(alloc.total) + OneofMore(x)
  {
    hide Units;
    PlanOptions(x.hasOptions, OneofOptionsType, alloc);
  }

  method PlanOneofs(xs: seq<OneofProto>, alloc: Allocator)
    requires !alloc.hasAllocated
    modifies alloc`total
    ensures alloc.total == old(alloc.total) + ArrayNeed(OneofDescriptorType, OneofNeed, xs)
  {
    hide Units, PlannedTo, Sum, OneofMore;
    alloc.PlanArray(OneofDescriptorType, |xs|);
    ghost var start := alloc.total;
    alloc.PlanArray(StringType, 2 * |xs|);
    PlanFirst(start, OneofNeed, xs);
    for i := 0 to |xs|
      invariant PlannedTo(alloc.total, start, OneofNeed, xs, i)
    {
      PlanNext(alloc.total, start, OneofNeed, xs, i, OneofMore(xs[i]));
      PlanOneofMore(xs[i], alloc);
    }
    PlanLast(alloc.total, start, OneofNeed, xs);
  }

  method PlanField(x: FieldProto, alloc: Allocator)
    requires !alloc.hasAllocated
    modifies alloc`total
    ensures alloc.total == old(alloc.total) + FieldNeed(x)
  {
    hide Units, NameCount;
    PlanOptions(x.hasOptions, FieldOptionsType, alloc);
    alloc.PlanFieldNames(x.name, x.jsonName);
    if x.hasDefault && x.fieldType.Some? && (x.fieldType.value == TYPE_STRING || x.fieldType.value == TYPE_BYTES) {
      alloc.PlanArray(StringType, 1);
    }
  }

  method PlanFields(xs: seq<FieldProto>, alloc: Allocator)
    requires !alloc.hasAllocated
    modifies alloc`total
    ensures alloc.total == old(alloc.total) + ArrayNeed(FieldDescriptorType, FieldNeed, xs)
  {
    hide Units, FieldNeed;
    alloc.PlanArray(FieldDescriptorType, |xs|);
    for i := 0 to |xs|
      invariant alloc.total == old(alloc.total) + Units(FieldDescriptorType, |xs|) + Sum(FieldNeed, xs[..i])
    {
      SumStep(FieldNeed, xs, i);
      PlanField(xs[i], alloc);
    }
    assert xs[..|xs|] == xs;
  }

  method PlanExtensionRanges(xs: seq<ExtensionRangeProto>, alloc: Allocator)
    requires !alloc.hasAllocated
    modifies alloc`total
    ensures alloc.total == old(alloc.total) + ArrayNeed(ExtensionRangeType, ExtensionRangeNeed, xs)
  {
    hide Units, OptionsOf;
    alloc.PlanArray(ExtensionRangeType, |xs|);
    for i := 0 to |xs|
      invariant alloc.total == old(alloc.total) + Units(ExtensionRangeType, |xs|) + Sum(ExtensionRangeNeed, xs[..i])
    {
      SumStep(ExtensionRangeNeed, xs, i);
      PlanOptions(xs[i].hasOptions, ExtensionRangeOptionsType, alloc);
    }
    assert xs[..|xs|] == xs;
  }

  method PlanMessageMore(x: MessageProto, alloc: Allocator)
    requires !alloc.hasAllocated
    modifies alloc`total
    ensures alloc.total == old(alloc.total) + MessageMore(x)
    decreases x
  {
    hide Units;
    hide OptionsOf, ArrayNeed, NestedNeed;
    PlanOptions(x.hasOptions, MessageOptionsType, alloc);
    PlanMessages(x.nested, alloc);
    PlanFields(x.fields, alloc);
    PlanFields(x.extensions, alloc);
    PlanExtensionRanges(x.extensionRanges, alloc);
    alloc.PlanArray(ReservedRangeType, x.reservedRanges);
    alloc.PlanArray(PointerType, x.reservedNames);
    alloc.PlanArray(StringType, x.reservedNames);
    PlanEnums(x.enums, alloc);
    PlanOneofs(x.oneofs, alloc);
  }

  method PlanMessages(xs: seq<MessageProto>, alloc: Allocator)
    requires !alloc.hasAllocated
    modifies alloc`total
    ensures alloc.total == old(alloc.total) + NestedNeed(xs)
    decreases xs
  {
    hide Units, Ahead, MessageMore, MessagesNeed;
    alloc.PlanArray(DescriptorType, |xs|);
    ghost var start := alloc.total;
    alloc.PlanArray(StringType, 2 * |xs|);
    AheadStart(start, 2 * |xs|);
    MessagesNone(xs);
    for i := 0 to |xs|
      invariant Ahead(alloc.total, 2 * i, start, 2 * |xs|, MessagesNeed(xs[..i]))
    {
      MessagesStep(xs, i);
      AheadStep(alloc.total, 2 * i, start, 2 * |xs|, MessagesNeed(xs[..i]), MessageMore(xs[i]));
      PlanMessageMore(xs[i], alloc);
    }
    assert xs[..|xs|] == xs;
    AheadDone(alloc.total, start, 2 * |xs|, MessagesNeed(xs));
  }

  method PlanMethodMore(x: MethodProto, alloc: Allocator)
    requires !alloc.hasAllocated
    modifies alloc`total
    ensures alloc.total == old(alloc.total) + MethodMore(x)
  {
    hide Units;
    PlanOptions(x.hasOptions, MethodOptionsType, alloc);
  }

  method PlanMethods(xs: seq<MethodProto>, alloc: Allocator)
    requires !alloc.hasAllocated
    modifies alloc`total
    ensures alloc.total == old(alloc.total) + ArrayNeed(MethodDescriptorType, MethodNeed, xs)
  {
    hide Units, PlannedTo, Sum, MethodMore;
    alloc.PlanArray(MethodDescriptorType, |xs|);
    ghost var start := alloc.total;
    alloc.PlanArray(StringType, 2 * |xs|);
    PlanFirst(start, MethodNeed, xs);
    for i := 0 to |xs|
      invariant PlannedTo(alloc.total, start, MethodNeed, xs, i)
    {
      PlanNext(alloc.total, start, MethodNeed, xs, i, MethodMore(xs[i]));
      PlanMethodMore(xs[i], alloc);
    }
    PlanLast(alloc.total, start, MethodNeed, xs);
  }

  method PlanServiceMore(x: ServiceProto, alloc: Allocator)
    requires !alloc.hasAllocated
    modifies alloc`total
    ensures alloc.total == old(alloc.total) + ServiceMore(x)
  {
    hide Units;
    PlanOptions(x.hasOptions, ServiceOptionsType, alloc);
    PlanMethods(x.methods, alloc);
  }

  method PlanServices(xs: seq<ServiceProto>, alloc: Allocator)
    requires !alloc.hasAllocated
    modifies alloc`total
    ensures alloc.total == old(alloc.total) + ArrayNeed(ServiceDescriptorType, ServiceNeed, xs)
  {
    hide Units, PlannedTo, Sum, ServiceMore;
    alloc.PlanArray(ServiceDescriptorType, |xs|);
    ghost var start := alloc.total;
    alloc.PlanArray(StringType, 2 * |xs|);
    PlanFirst(start, ServiceNeed, xs);
    for i := 0 to |xs|
      invariant PlannedTo(alloc.total, start, ServiceNeed, xs, i)
    {
      PlanNext(alloc.total, start, ServiceNeed, xs, i, ServiceMore(xs[i]));
      PlanServiceMore(xs[i], alloc);
    }
    PlanLast(alloc.total, start, ServiceNeed, xs);
  }

  /** The plan for a file comes to what its tree needs. */
  method PlanAllocationSize(x: FileProto, alloc: Allocator)
    requires !alloc.hasAllocated
    modifies alloc`total
    ensures alloc.total == old(alloc.total) + FileNeed(x)
  {
    hide Units, OptionsOf, ArrayNeed, NestedNeed;
    alloc.PlanArray(FileDescriptorType, 1);
    alloc.PlanArray(FileDescriptorTablesType, 1);
    alloc.PlanArray(StringType, 2);
    PlanOptions(x.hasOptions, FileOptionsType, alloc);
    PlanOptions(x.hasSourceCodeInfo, SourceCodeInfoType, alloc);
    PlanServices(x.services, alloc);
    PlanMessages(x.messages, alloc);
    PlanEnums(x.enums, alloc);
    PlanFields(x.extensions, alloc);
    alloc.PlanArray(IntType, x.weakDependencies);
    alloc.PlanArray(IntType, x.publicDependencies);
    alloc.PlanArray(PointerType, |x.dependency|);
  }

  // ---------------------------------------------------------------- building

  lemma BudgetFirst<T>(u: Type, f: T -> Amount, xs: seq<T>)
    ensures Units(u, |xs|) <= ArrayNeed(u, f, xs) && Sum(f, xs[..0]) == multiset{}
  {
  }

  /** Within the budget of an array there is room for the next element. */
  lemma BudgetNext<T>(total: Amount, was: Amount, u: Type, f: T -> Amount, xs: seq<T>, i: nat)
    requires i < |xs| && was + ArrayNeed(u, f, xs) <= total
    ensures was + Units(u, |xs|) + Sum(f, xs[..i]) + f(xs[i]) <= total
    ensures was + Units(u, |xs|) + Sum(f, xs[..i + 1]) == was + Units(u, |xs|) + Sum(f, xs[..i]) + f(xs[i])
  {
    hide Units, Sum;
    SumStep(f, xs, i);
    SumPrefix(f, xs, i + 1);
  }

  lemma NestedNext(total: Amount, was: Amount, now: Amount, ms: seq<MessageProto>, i: nat)
    requires i < |ms| && was + NestedNeed(ms) <= total
             && now <= was + Units(DescriptorType, |ms|) + MessagesNeed(ms[..i])
    ensures now + MessageNeed(ms[i]) <= total
    ensures was + Units(DescriptorType, |ms|) + MessagesNeed(ms[..i + 1])
         == was + Units(DescriptorType, |ms|) + MessagesNeed(ms[..i]) + MessageNeed(ms[i])
  {
    hide Units, MessagesNeed, MessageNeed;
    MessagesStep(ms, i);
    MessagesPrefix(ms, i + 1);
  }

  /** How deep messages nest. */
  function Height(m: MessageProto): nat
    decreases m, 1
  {
    1 + MaxHeight(m.nested)
  }

  function MaxHeight(ms: seq<MessageProto>): nat
    decreases ms, 0
  {
    if ms == [] then 0
    else
      var a, b := MaxHeight(ms[..|ms| - 1]), Height(ms[|ms| - 1]);
      if a < b then b else a
  }

  /** A message is one level higher than the highest message in it. */
  lemma {:induction false} HeightIsMost(ms: seq<MessageProto>)
    ensures forall i :: 0 <= i < |ms| ==> Height(ms[i]) == 1 + MaxHeight(ms[i].nested) <= MaxHeight(ms)
    ensures if ms == [] then MaxHeight(ms) == 0 else exists i :: 0 <= i < |ms| && Height(ms[i]) == MaxHeight(ms)
  {
    if ms != [] {
      var h := |ms| - 1;
      HeightIsMost(ms[..h]);
      MaxHeightStep(ms, h);
      assert ms[..h + 1] == ms;
      forall i | 0 <= i < |ms| ensures Height(ms[i]) == 1 + MaxHeight(ms[i].nested) <= MaxHeight(ms) {
        if i < h { assert ms[..h][i] == ms[i]; }
      }
      if MaxHeight(ms[..h]) < Height(ms[h]) {
        assert Height(ms[h]) == MaxHeight(ms);
      } else {
        var i :| 0 <= i < h && Height(ms[..h][i]) == MaxHeight(ms[..h]);
        assert ms[..h][i] == ms[i];
      }
    }
  }

  lemma MaxHeightStep(ms: seq<MessageProto>, i: nat)
    requires i < |ms|
    ensures MaxHeight(ms[..i + 1]) == if MaxHeight(ms[..i]) < Height(ms[i]) then Height(ms[i]) else MaxHeight(ms[..i])
  {
    assert ms[..i + 1][..i] == ms[..i];
  }

  /** A message's need in the order in which it is built: up to the recursion check, the nested messages, the rest. */
  function BeforeNested(m: MessageProto): Amount {
    Strings(2) + ArrayNeed(OneofDescriptorType, OneofNeed, m.oneofs)
    + ArrayNeed(FieldDescriptorType, FieldNeed, m.fields)
    + ArrayNeed(EnumDescriptorType, EnumNeed, m.enums)
    + ArrayNeed(ExtensionRangeType, ExtensionRangeNeed, m.extensionRanges)
    + ArrayNeed(FieldDescriptorType, FieldNeed, m.extensions) + Units(ReservedRangeType, m.reservedRanges)
  }

  function AfterNested(m: MessageProto): Amount {
    Units(PointerType, m.reservedNames) + Strings(m.reservedNames) + OptionsOf(m.hasOptions, MessageOptionsType)
  }

  lemma MessageNeedInOrder(m: MessageProto)
    ensures MessageNeed(m) == BeforeNested(m) + NestedNeed(m.nested) + AfterNested(m)
  {
    hide Units, ArrayNeed, NestedNeed, OptionsOf;
  }

  function FileStart(f: FileProto): Amount {
    Units(FileDescriptorType, 1) + OptionsOf(f.hasSourceCodeInfo, SourceCodeInfoType)
        + Units(FileDescriptorTablesType, 1)
    + Strings(1) + Strings(1)
  }

  function FileImports(f: FileProto): Amount {
    Units(PointerType, |f.dependency|) + Units(IntType, f.publicDependencies) + Units(IntType, f.weakDependencies)
  }

  function FileRest(f: FileProto): Amount {
    ArrayNeed(EnumDescriptorType, EnumNeed, f.enums) + ArrayNeed(ServiceDescriptorType, ServiceNeed, f.services)
    + ArrayNeed(FieldDescriptorType, FieldNeed, f.extensions) + OptionsOf(f.hasOptions, FileOptionsType)
  }

  lemma FileNeedInOrder(f: FileProto)
    ensures FileNeed(f) == FileStart(f) + FileImports(f) + NestedNeed(f.messages) + FileRest(f)
  {
    StringsAdd(1, 1);
    hide Units, ArrayNeed, NestedNeed, OptionsOf;
  }

  lemma OnlyStringsAreStrings(f: FieldProto)
    ensures HasStringDefault(f) <==> f.fieldType.Some? && f.hasDefault && CppTypeOf(f.fieldType.value) == CPPTYPE_STRING
  {
  }

  const RECURSION_LIMIT := 32

  class DescriptorBuilder {
    const alloc: Allocator
    var recursionDepth: int
    var hadErrors: bool

    constructor (alloc: Allocator)
      ensures this.alloc == alloc && recursionDepth == RECURSION_LIMIT && !hadErrors
    {
      this.alloc, recursionDepth, hadErrors := alloc, RECURSION_LIMIT, false;
    }

    method AllocateOptions(has: bool, u: Type)
      requires alloc.hasAllocated && alloc.used + OptionsOf(has, u) <= alloc.total
      modifies alloc`used
      ensures alloc.used == old(alloc.used) + OptionsOf(has, u)
    {
      if has { alloc.AllocateArray(u, 1); }
    }

    /** One array of pointers, and then the names one string at a time. */
    method AllocateReservedNames(n: nat)
      requires alloc.hasAllocated && alloc.used + Units(PointerType, n) + Strings(n) <= alloc.total
      modifies alloc`used
      ensures alloc.used == old(alloc.used) + Units(PointerType, n) + Strings(n)
    {
      hide Units;
      ghost var was := alloc.used;
      alloc.AllocateArray(PointerType, n);
      NoStrings();
      for i := 0 to n
        invariant alloc.used == was + Units(PointerType, n) + Strings(i)
      {
        StringsAdd(i, 1);
        StringsAdd(i + 1, n - i - 1);
        alloc.AllocateArray(StringType, 1);
      }
    }

    method BuildEnumValue(x: EnumValueProto)
      requires alloc.hasAllocated && alloc.used + EnumValueNeed(x) <= alloc.total
      modifies alloc`used
      ensures alloc.used == old(alloc.used) + EnumValueNeed(x)
    {
      hide Units;
      alloc.AllocateArray(StringType, 2);
      AllocateOptions(x.hasOptions, EnumValueOptionsType);
    }

    method BuildEnumValues(xs: seq<EnumValueProto>)
      requires alloc.hasAllocated && alloc.used + ArrayNeed(EnumValueDescriptorType, EnumValueNeed, xs) <= alloc.total
      modifies alloc`used
      ensures alloc.used == old(alloc.used) + ArrayNeed(EnumValueDescriptorType, EnumValueNeed, xs)
    {
      hide Units, Sum, EnumValueNeed;
      ghost var was := alloc.used;
      BudgetFirst(EnumValueDescriptorType, EnumValueNeed, xs);
      alloc.AllocateArray(EnumValueDescriptorType, |xs|);
      for i := 0 to |xs|
        invariant alloc.used == was + Units(EnumValueDescriptorType, |xs|) + Sum(EnumValueNeed, xs[..i])
      {
        BudgetNext(alloc.total, was, EnumValueDescriptorType, EnumValueNeed, xs, i);
        BuildEnumValue(xs[i]);
      }
      assert xs[..|xs|] == xs;
    }

    method BuildEnum(x: EnumProto)
      requires alloc.hasAllocated && alloc.used + EnumNeed(x) <= alloc.total
      modifies alloc`used
      ensures alloc.used == old(alloc.used) + EnumNeed(x)
    {
      hide Units, ArrayNeed, OptionsOf;
      alloc.AllocateArray(StringType, 2);
      BuildEnumValues(x.values);
      alloc.AllocateArray(EnumReservedRangeType, x.reservedRanges);
      AllocateReservedNames(x.reservedNames);
      AllocateOptions(x.hasOptions, EnumOptionsType);
    }

    method BuildEnums(xs: seq<EnumProto>)
      requires alloc.hasAllocated && alloc.used + ArrayNeed(EnumDescriptorType, EnumNeed, xs) <= alloc.total
      modifies alloc`used
      ensures alloc.used == old(alloc.used) + ArrayNeed(EnumDescriptorType, EnumNeed, xs)
    {
      hide Units, Sum, EnumNeed;
      ghost var was := alloc.used;
      BudgetFirst(EnumDescriptorType, EnumNeed, xs);
      alloc.AllocateArray(EnumDescriptorType, |xs|);
      for i := 0 to |xs|
        invariant alloc.used == was + Units(EnumDescriptorType, |xs|) + Sum(EnumNeed, xs[..i])
      {
        BudgetNext(alloc.total, was, EnumDescriptorType, EnumNeed, xs, i);
        BuildEnum(xs[i]);
      }
      assert xs[..|xs|] == xs;
    }

    method BuildOneof(x: OneofProto)
      requires alloc.hasAllocated && alloc.used + OneofNeed(x) <= alloc.total
      modifies alloc`used
      ensures alloc.used == old(alloc.used) + OneofNeed(x)
    {
      hide Units;
      alloc.AllocateArray(StringType, 2);
      AllocateOptions(x.hasOptions, OneofOptionsType);
    }

    method BuildOneofs(xs: seq<OneofProto>)
      requires alloc.hasAllocated && alloc.used + ArrayNeed(OneofDescriptorType, OneofNeed, xs) <= alloc.total
      modifies alloc`used
      ensures alloc.used == old(alloc.used) + ArrayNeed(OneofDescriptorType, OneofNeed, xs)
    {
      hide Units, Sum, OneofNeed;
      ghost var was := alloc.used;
      BudgetFirst(OneofDescriptorType, OneofNeed, xs);
      alloc.AllocateArray(OneofDescriptorType, |xs|);
      for i := 0 to |xs|
        invariant alloc.used == was + Units(OneofDescriptorType, |xs|) + Sum(OneofNeed, xs[..i])
      {
        BudgetNext(alloc.total, was, OneofDescriptorType, OneofNeed, xs, i);
        BuildOneof(xs[i]);
      }
      assert xs[..|xs|] == xs;
    }

    method BuildFieldOrExtension(x: FieldProto, scope: string)
      requires alloc.hasAllocated && alloc.used + FieldNeed(x) <= alloc.total
      modifies alloc`used
      ensures alloc.used == old(alloc.used) + FieldNeed(x)
    {
      OnlyStringsAreStrings(x);
      hide Units, NameCount, CppTypeOf, OptionsOf, HasStringDefault;
      var _ := alloc.AllocateFieldNames(x.name, scope, x.jsonName);
      if x.fieldType.Some? {
        if x.hasDefault {
          if CppTypeOf(x.fieldType.value) == CPPTYPE_STRING { alloc.AllocateArray(StringType, 1); }
        }
      }
      AllocateOptions(x.hasOptions, FieldOptionsType);
    }

    method BuildFields(xs: seq<FieldProto>, scope: string)
      requires alloc.hasAllocated && alloc.used + ArrayNeed(FieldDescriptorType, FieldNeed, xs) <= alloc.total
      modifies alloc`used
      ensures alloc.used == old(alloc.used) + ArrayNeed(FieldDescriptorType, FieldNeed, xs)
    {
      hide Units, Sum, FieldNeed;
      ghost var was := alloc.used;
      BudgetFirst(FieldDescriptorType, FieldNeed, xs);
      alloc.AllocateArray(FieldDescriptorType, |xs|);
      for i := 0 to |xs|
        invariant alloc.used == was + Units(FieldDescriptorType, |xs|) + Sum(FieldNeed, xs[..i])
      {
        BudgetNext(alloc.total, was, FieldDescriptorType, FieldNeed, xs, i);
        BuildFieldOrExtension(xs[i], scope);
      }
      assert xs[..|xs|] == xs;
    }

    method BuildExtensionRange(x: ExtensionRangeProto)
      requires alloc.hasAllocated && alloc.used + ExtensionRangeNeed(x) <= alloc.total
      modifies alloc`used
      ensures alloc.used == old(alloc.used) + ExtensionRangeNeed(x)
    {
      AllocateOptions(x.hasOptions, ExtensionRangeOptionsType);
    }

    method BuildExtensionRanges(xs: seq<ExtensionRangeProto>)
      requires alloc.hasAllocated && alloc.used + ArrayNeed(ExtensionRangeType, ExtensionRangeNeed, xs) <= alloc.total
      modifies alloc`used
      ensures alloc.used == old(alloc.used) + ArrayNeed(ExtensionRangeType, ExtensionRangeNeed, xs)
    {
      hide Units, Sum, ExtensionRangeNeed;
      ghost var was := alloc.used;
      BudgetFirst(ExtensionRangeType, ExtensionRangeNeed, xs);
      alloc.AllocateArray(ExtensionRangeType, |xs|);
      for i := 0 to |xs|
        invariant alloc.used == was + Units(ExtensionRangeType, |xs|) + Sum(ExtensionRangeNeed, xs[..i])
      {
        BudgetNext(alloc.total, was, ExtensionRangeType, ExtensionRangeNeed, xs, i);
        BuildExtensionRange(xs[i]);
      }
      assert xs[..|xs|] == xs;
    }

    method BuildMethod(x: MethodProto)
      requires alloc.hasAllocated && alloc.used + MethodNeed(x) <= alloc.total
      modifies alloc`used
      ensures alloc.used == old(alloc.used) + MethodNeed(x)
    {
      hide Units;
      alloc.AllocateArray(StringType, 2);
      AllocateOptions(x.hasOptions, MethodOptionsType);
    }

    method BuildMethods(xs: seq<MethodProto>)
      requires alloc.hasAllocated && alloc.used + ArrayNeed(MethodDescriptorType, MethodNeed, xs) <= alloc.total
      modifies alloc`used
      ensures alloc.used == old(alloc.used) + ArrayNeed(MethodDescriptorType, MethodNeed, xs)
    {
      hide Units, Sum, MethodNeed;
      ghost var was := alloc.used;
      BudgetFirst(MethodDescriptorType, MethodNeed, xs);
      alloc.AllocateArray(MethodDescriptorType, |xs|);
      for i := 0 to |xs|
        invariant alloc.used == was + Units(MethodDescriptorType, |xs|) + Sum(MethodNeed, xs[..i])
      {
        BudgetNext(alloc.total, was, MethodDescriptorType, MethodNeed, xs, i);
        BuildMethod(xs[i]);
      }
      assert xs[..|xs|] == xs;
    }

    method BuildService(x: ServiceProto)
      requires alloc.hasAllocated && alloc.used + ServiceNeed(x) <= alloc.total
      modifies alloc`used
      ensures alloc.used == old(alloc.used) + ServiceNeed(x)
    {
      hide Units, ArrayNeed, OptionsOf;
      alloc.AllocateArray(StringType, 2);
      BuildMethods(x.methods);
      AllocateOptions(x.hasOptions, ServiceOptionsType);
    }

    method BuildServices(xs: seq<ServiceProto>)
      requires alloc.hasAllocated && alloc.used + ArrayNeed(ServiceDescriptorType, ServiceNeed, xs) <= alloc.total
      modifies alloc`used
      ensures alloc.used == old(alloc.used) + ArrayNeed(ServiceDescriptorType, ServiceNeed, xs)
    {
      hide Units, Sum, ServiceNeed;
      ghost var was := alloc.used;
      BudgetFirst(ServiceDescriptorType, ServiceNeed, xs);
      alloc.AllocateArray(ServiceDescriptorType, |xs|);
      for i := 0 to |xs|
        invariant alloc.used == was + Units(ServiceDescriptorType, |xs|) + Sum(ServiceNeed, xs[..i])
      {
        BudgetNext(alloc.total, was, ServiceDescriptorType, ServiceNeed, xs, i);
        BuildService(xs[i]);
      }
      assert xs[..|xs|] == xs;
    }

    /** Everything of a message that is built before the check of the recursion limit. */
    method BuildMessageStart(x: MessageProto, fullName: string)
      requires alloc.hasAllocated && alloc.used + BeforeNested(x) <= alloc.total
      modifies alloc`used
      ensures alloc.used == old(alloc.used) + BeforeNested(x)
    {
      hide Units, ArrayNeed;
      alloc.AllocateArray(StringType, 2);
      BuildOneofs(x.oneofs);
      BuildFields(x.fields, fullName);
      BuildEnums(x.enums);
      BuildExtensionRanges(x.extensionRanges);
      BuildFields(x.extensions, fullName);
      alloc.AllocateArray(ReservedRangeType, x.reservedRanges);
    }

    /** Uses what the message needs, and fails exactly when it nests too deep; then it may use less. */
    method BuildMessage(x: MessageProto, scope: string)
      requires alloc.hasAllocated && alloc.used + MessageNeed(x) <= alloc.total
      modifies alloc`used, this`recursionDepth, this`hadErrors
      ensures recursionDepth == old(recursionDepth)
      ensures hadErrors <==> old(hadErrors) || Height(x) >= recursionDepth
      ensures alloc.used <= old(alloc.used) + MessageNeed(x)
      ensures Height(x) < recursionDepth ==> alloc.used == old(alloc.used) + MessageNeed(x)
      decreases x, 1
    {
      MessageNeedInOrder(x);
      hide Units, MessageNeed, BeforeNested, NestedNeed, OptionsOf;
      var fullName := FullName(x.name, scope);
      BuildMessageStart(x, fullName);
      recursionDepth := recursionDepth - 1;
      if recursionDepth <= 0 {
        hadErrors := true;
        recursionDepth := recursionDepth + 1;
        return;
      }
      BuildMessages(x.nested, fullName);
      AllocateReservedNames(x.reservedNames);
      AllocateOptions(x.hasOptions, MessageOptionsType);
      recursionDepth := recursionDepth + 1;
    }

    method BuildMessages(xs: seq<MessageProto>, scope: string)
      requires alloc.hasAllocated && alloc.used + NestedNeed(xs) <= alloc.total && recursionDepth > 0
      modifies alloc`used, this`recursionDepth, this`hadErrors
      ensures recursionDepth == old(recursionDepth)
      ensures hadErrors <==> old(hadErrors) || MaxHeight(xs) >= recursionDepth
      ensures alloc.used <= old(alloc.used) + NestedNeed(xs)
      ensures MaxHeight(xs) < recursionDepth ==> alloc.used == old(alloc.used) + NestedNeed(xs)
      decreases xs, 0
    {
      hide Units, MessageNeed;
      ghost var was := alloc.used;
      assert was + Units(DescriptorType, |xs|) <= was + NestedNeed(xs);
      alloc.AllocateArray(DescriptorType, |xs|);
      for i := 0 to |xs|
        invariant recursionDepth == old(recursionDepth)
        invariant hadErrors <==> old(hadErrors) || MaxHeight(xs[..i]) >= recursionDepth
        invariant alloc.used <= was + Units(DescriptorType, |xs|) + MessagesNeed(xs[..i])
        invariant MaxHeight(xs[..i]) < recursionDepth ==>
                    alloc.used == was + Units(DescriptorType, |xs|) + MessagesNeed(xs[..i])
      {
        NestedNext(alloc.total, was, alloc.used, xs, i);
        MaxHeightStep(xs, i);
        BuildMessage(xs[i], scope);
      }
      assert xs[..|xs|] == xs;
    }

    method BuildFileStart(x: FileProto)
      requires alloc.hasAllocated && alloc.used + FileStart(x) <= alloc.total
      modifies alloc`used
      ensures alloc.used == old(alloc.used) + FileStart(x)
    {
      hide Units, OptionsOf;
      alloc.AllocateArray(FileDescriptorType, 1);
      AllocateOptions(x.hasSourceCodeInfo, SourceCodeInfoType);
      alloc.AllocateArray(FileDescriptorTablesType, 1);
      alloc.AllocateArray(StringType, 1);
      alloc.AllocateArray(StringType, 1);
    }

    /** The three arrays about imports; a file that imports itself is given up after the first. */
    method BuildImports(x: FileProto) returns (ok: bool)
      requires alloc.hasAllocated && alloc.used + FileImports(x) <= alloc.total
      modifies alloc`used
      ensures ok <==> x.name !in x.dependency
      ensures alloc.used <= old(alloc.used) + FileImports(x)
      ensures ok ==> alloc.used == old(alloc.used) + FileImports(x)
    {
      hide Units;
      alloc.AllocateArray(PointerType, |x.dependency|);
      for i := 0 to |x.dependency|
        invariant x.name !in x.dependency[..i]
      {
        if x.dependency[i] == x.name { return false; }
        assert x.dependency[..i + 1] == x.dependency[..i] + [x.dependency[i]];
      }
      assert x.dependency[..|x.dependency|] == x.dependency;
      alloc.AllocateArray(IntType, x.publicDependencies);
      alloc.AllocateArray(IntType, x.weakDependencies);
      return true;
    }

    method BuildFileRest(x: FileProto)
      requires alloc.hasAllocated && alloc.used + FileRest(x) <= alloc.total
      modifies alloc`used
      ensures alloc.used == old(alloc.used) + FileRest(x)
    {
      hide Units, ArrayNeed, OptionsOf;
      BuildEnums(x.enums);
      BuildServices(x.services);
      BuildFields(x.extensions, x.package);
      AllocateOptions(x.hasOptions, FileOptionsType);
    }

    /**
     * Builds a file in the memory planned for it. The other errors of a file do not change what
     * is allocated; they come in as one result. Some errors end the build early.
     */
    method BuildFileImpl(x: FileProto, alreadyInPool: bool, otherErrors: bool) returns (ok: bool)
      requires alloc.hasAllocated && alloc.used + FileNeed(x) <= alloc.total && recursionDepth == RECURSION_LIMIT
               && !hadErrors
      modifies alloc`used, this`recursionDepth, this`hadErrors
      ensures ok <==> !otherErrors && '\0' !in x.name && !alreadyInPool && CountDots(x.package) <= PACKAGE_LIMIT
                      && x.name !in x.dependency && MaxHeight(x.messages) < RECURSION_LIMIT
      ensures alloc.used <= old(alloc.used) + FileNeed(x)
      ensures ok ==> alloc.used == old(alloc.used) + FileNeed(x)
    {
      FileNeedInOrder(x);
      hide FileNeed, FileStart, FileImports, FileRest, NestedNeed, MaxHeight;
      BuildFileStart(x);
      if '\0' in x.name { hadErrors := true; return false; }
      if alreadyInPool { hadErrors := true; return false; }
      if x.package != "" && CountDots(x.package) > PACKAGE_LIMIT { hadErrors := true; return false; }
      ok := BuildImports(x);
      if !ok { return; }
      BuildMessages(x.messages, x.package);
      BuildFileRest(x);
      if otherErrors { hadErrors := true; }
      return !hadErrors;
    }
  }

  /** Planning and then building: no allocation is refused, and a file that is accepted has used its plan up. */
  method BuildFile(x: FileProto, alreadyInPool: bool, otherErrors: bool) returns (ok: bool, alloc: Allocator)
    ensures fresh(alloc) && alloc.used <= alloc.total && alloc.total == FileNeed(x)
    ensures ok ==> alloc.used == alloc.total
    ensures ok <==>
              && !otherErrors && !alreadyInPool && (forall i :: 0 <= i < |x.name| ==> x.name[i] != '\0')
              && |set i | 0 <= i < |x.package| && x.package[i] == '.'| <= 100
              && (forall i :: 0 <= i < |x.dependency| ==> x.dependency[i] != x.name) && MaxHeight(x.messages) < 32
  {
    DotsAreCounted(x.package);
    hide FileNeed;
    alloc := new Allocator();
    PlanAllocationSize(x, alloc);
    alloc.FinalizePlanning();
    var builder := new DescriptorBuilder(alloc);
    ok := builder.BuildFileImpl(x, alreadyInPool, otherErrors);
  }
}
