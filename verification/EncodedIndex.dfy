/**
 * EncodedDescriptorDatabase::DescriptorIndex: the same three maps, each kept as a set of new
 * entries plus a flat sorted vector. Entries hold the offset of their value, and a symbol entry
 * leaves its package to the value it points at. What the vector has is refused only after the set
 * has taken it, so a refused entry can stay behind and be the one found.
 */
module EncodedIndex {
  import opened Options
  import opened Names
  import opened SortedSeq
  import opened SymbolCompare
  import opened SymbolSearch
  import opened IndexSpec
  import opened FlatTable
  import opened SimpleIndex

  datatype EncodedEntry<V> = EncodedEntry(value: V, package: string)
  datatype FileEntry = FileEntry(offset: nat, name: string)
  datatype SymbolEntry = SymbolEntry(offset: nat, symbol: string)
  /** The extendee is stored with its leading dot. */
  datatype ExtensionEntry = ExtensionEntry(offset: nat, extendee: string, number: int)

  // ---------------------------------------------------------------- reading entries

  function DecodeFile(): FileEntry -> Entry<string, nat> { (e: FileEntry) => Entry(e.name, e.offset) }

  function Files(s: seq<FileEntry>): Decoded<string> { Map(DecodeFile(), s) }

  function ValueOf<V>(): EncodedEntry<V> -> V { (e: EncodedEntry<V>) => e.value }

  function Raw<V>(values: seq<EncodedEntry<V>>): (r: seq<V>) { Map(ValueOf(), values) }

  function NamedOf<V>(values: seq<EncodedEntry<V>>, e: SymbolEntry): Named {
    SymbolCompare.Qualified(if e.offset < |values| then values[e.offset].package else "", e.symbol)
  }

  function DecodeSymbol<V>(values: seq<EncodedEntry<V>>): SymbolEntry -> Entry<string, nat> {
    (e: SymbolEntry) => Entry(AsString(NamedOf(values, e)), e.offset)
  }

  function Symbols<V>(values: seq<EncodedEntry<V>>, s: seq<SymbolEntry>): Decoded<string>
  {
    Map(DecodeSymbol(values), s)
  }

  function KeyOf(e: ExtensionEntry): (string, int) { (if e.extendee == "" then "" else e.extendee[1..], e.number) }

  function DecodeExtension(): ExtensionEntry -> Entry<(string, int), nat>
  {
    (e: ExtensionEntry) => Entry(KeyOf(e), e.offset)
  }

  function Extensions(s: seq<ExtensionEntry>): Decoded<(string, int)> { Map(DecodeExtension(), s) }

  // ---------------------------------------------------------------- comparing entries

  /** `std::tuple`'s order. */
  predicate PairLess(a: (string, int), b: (string, int)) {
    Less(a.0, b.0) || (!Less(b.0, a.0) && a.1 < b.1)
  }

  lemma PairLessIsStrict()
    ensures StrictOrder(PairLess)
  {
    forall a: (string, int), b: (string, int) | true
      ensures !PairLess(a, a) && (PairLess(a, b) || a == b || PairLess(b, a))
    {
      LessIrreflexive(a.0);
      LessTotal(a.0, b.0);
    }
    forall a, b, c | PairLess(a, b) && PairLess(b, c) ensures PairLess(a, c) {
      PairLessTransitive(a, b, c);
    }
  }

  lemma PairLessTransitive(a: (string, int), b: (string, int), c: (string, int))
    requires PairLess(a, b) && PairLess(b, c)
    ensures PairLess(a, c)
  {
    hide Less;
    LessTotal(a.0, b.0);
    LessTotal(b.0, c.0);
    LessIrreflexive(a.0);
    if Less(a.0, b.0) && Less(b.0, c.0) { LessTransitive(a.0, b.0, c.0); }
  }

  function SymbolEntryLess<V>(values: seq<EncodedEntry<V>>): (SymbolEntry, SymbolEntry) -> bool {
    (a: SymbolEntry, b: SymbolEntry) => SymbolLess(NamedOf(values, a), NamedOf(values, b))
  }

  function FileLess(): (FileEntry, FileEntry) -> bool { (a: FileEntry, b: FileEntry) => Less(a.name, b.name) }

  function NameNotBefore(name: string): FileEntry -> bool { (e: FileEntry) => !Less(e.name, name) }

  function ExtensionLess(): (ExtensionEntry, ExtensionEntry) -> bool {
    (a: ExtensionEntry, b: ExtensionEntry) => PairLess(KeyOf(a), KeyOf(b))
  }

  function KeyNotBefore(key: (string, int)): ExtensionEntry -> bool { (e: ExtensionEntry) => !PairLess(KeyOf(e), key) }

  function SymbolAfter<V>(values: seq<EncodedEntry<V>>, n: Named): SymbolEntry -> bool {
    (e: SymbolEntry) => SymbolLess(n, NamedOf(values, e))
  }

  // ---------------------------------------------------------------- searching

  /** `lower_bound` by file name. */
  function FileLowerBound(s: seq<FileEntry>, name: string): (p: nat)
    requires InOrder(Files(s), Less)
    ensures p <= |s|
    ensures forall i :: 0 <= i < p ==> Less(Files(s)[i].key, name)
    ensures forall i :: p <= i < |s| ==> !Less(Files(s)[i].key, name)
  {
    FilesPartitioned(s, name);
    var p := PartitionPoint(s, NameNotBefore(name));
    assert forall i :: 0 <= i < |s| ==>
             Files(s)[i].key == s[i].name && NameNotBefore(name)(s[i]) == !Less(s[i].name, name);
    p
  }

  lemma FilesPartitioned(s: seq<FileEntry>, name: string)
    requires InOrder(Files(s), Less)
    ensures Partitioned(s, NameNotBefore(name))
  {
    LessIsStrict();
    hide Less, StrictOrder, InOrder;
    forall i, j | 0 <= i < j < |s| && NameNotBefore(name)(s[i]) ensures NameNotBefore(name)(s[j]) {
      assert Files(s)[i].key == s[i].name && Files(s)[j].key == s[j].name;
      NotBeforeStays(Files(s), Less, name, i, j);
    }
  }

  /** `lower_bound` by extendee and number. */
  function ExtensionLowerBound(s: seq<ExtensionEntry>, key: (string, int)): (p: nat)
    requires InOrder(Extensions(s), PairLess)
    ensures p <= |s|
    ensures forall i :: 0 <= i < p ==> PairLess(Extensions(s)[i].key, key)
    ensures forall i :: p <= i < |s| ==> !PairLess(Extensions(s)[i].key, key)
  {
    ExtensionsPartitioned(s, key);
    var p := PartitionPoint(s, KeyNotBefore(key));
    assert forall i :: 0 <= i < |s| ==>
             Extensions(s)[i].key == KeyOf(s[i]) && KeyNotBefore(key)(s[i]) == !PairLess(KeyOf(s[i]), key);
    p
  }

  lemma ExtensionsPartitioned(s: seq<ExtensionEntry>, key: (string, int))
    requires InOrder(Extensions(s), PairLess)
    ensures Partitioned(s, KeyNotBefore(key))
  {
    PairLessIsStrict();
    hide PairLess, StrictOrder, InOrder, KeyOf;
    forall i, j | 0 <= i < j < |s| && KeyNotBefore(key)(s[i]) ensures KeyNotBefore(key)(s[j]) {
      assert Extensions(s)[i].key == KeyOf(s[i]) && Extensions(s)[j].key == KeyOf(s[j]);
      NotBeforeStays(Extensions(s), PairLess, key, i, j);
    }
  }

  ghost predicate NonEmptySymbols(s: seq<SymbolEntry>) {
    forall i :: 0 <= i < |s| ==> s[i].symbol != ""
  }

  /** Entries that can be searched: in the order of their full names, which the comparator knows. */
  ghost predicate Searchable<V>(values: seq<EncodedEntry<V>>, s: seq<SymbolEntry>) {
    TableOk(Symbols(values, s)) && NonEmptySymbols(s)
  }

  /** The comparator, given entries or a plain name, follows the full names. */
  lemma AfterByFullName<V>(values: seq<EncodedEntry<V>>, s: seq<SymbolEntry>, n: Named, i: nat)
    requires NonEmptySymbols(s) && i < |s|
    ensures SymbolAfter(values, n)(s[i]) == Less(AsString(n), KeysOf(Symbols(values, s))[i])
  {
    SymbolLessIsLess(n, NamedOf(values, s[i]));
  }

  /** `upper_bound` with the comparator is the upper bound on full names. */
  function SymbolUpperBound<V>(values: seq<EncodedEntry<V>>, s: seq<SymbolEntry>, n: Named): (p: nat)
    requires Searchable(values, s)
    ensures p <= |s| && p == UpperBound(KeysOf(Symbols(values, s)), AsString(n))
  {
    SymbolsPartitioned(values, s, n);
    var p := PartitionPoint(s, SymbolAfter(values, n));
    PartitionIsUpperBound(values, s, n, p);
    p
  }

  lemma SymbolsPartitioned<V>(values: seq<EncodedEntry<V>>, s: seq<SymbolEntry>, n: Named)
    requires Searchable(values, s)
    ensures Partitioned(s, SymbolAfter(values, n))
  {
    hide Less, SymbolLess, NamedOf, AsString;
    var keys := KeysOf(Symbols(values, s));
    forall i, j | 0 <= i < j < |s| && SymbolAfter(values, n)(s[i]) ensures SymbolAfter(values, n)(s[j]) {
      AfterByFullName(values, s, n, i);
      AfterByFullName(values, s, n, j);
      LessTransitive(AsString(n), keys[i], keys[j]);
    }
  }

  lemma PartitionIsUpperBound<V>(values: seq<EncodedEntry<V>>, s: seq<SymbolEntry>, n: Named, p: nat)
    requires Searchable(values, s) && p <= |s|
    requires forall i :: 0 <= i < p ==> !SymbolAfter(values, n)(s[i])
    requires forall i :: p <= i < |s| ==> SymbolAfter(values, n)(s[i])
    ensures p == UpperBound(KeysOf(Symbols(values, s)), AsString(n))
  {
    hide Less, SymbolLess, NamedOf, AsString, SymbolAfter;
    var keys := KeysOf(Symbols(values, s));
    forall i | 0 <= i < |keys| ensures Less(AsString(n), keys[i]) <==> p <= i { AfterByFullName(values, s, n, i); }
    UpperBoundIsUnique(keys, AsString(n), p);
  }

  // ---------------------------------------------------------------- the invariant of each table

  ghost predicate FilesOk(fresh_: seq<FileEntry>, flat: seq<FileEntry>, n: nat) {
    PartsOk(Files(fresh_), Files(flat), Less, n)
  }

  ghost predicate ExtensionsOk(fresh_: seq<ExtensionEntry>, flat: seq<ExtensionEntry>, n: nat) {
    PartsOk(Extensions(fresh_), Extensions(flat), PairLess, n)
  }

  /** A symbol is refused before it is entered, so no name is in both parts. */
  ghost predicate SymbolsOk<V>(values: seq<EncodedEntry<V>>, fresh_: seq<SymbolEntry>, flat: seq<SymbolEntry>) {
    && PartsOk(Symbols(values, fresh_), Symbols(values, flat), Less, |values|)
    && Searchable(values, fresh_) && Searchable(values, flat)
    && Disjoint(Symbols(values, fresh_), Symbols(values, flat))
  }

  ghost function FileMap<V>(values: seq<EncodedEntry<V>>, fresh_: seq<FileEntry>, flat: seq<FileEntry>): map<string, V>
  {
    Resolve(Raw(values), Together(Files(fresh_), Files(flat)))
  }

  ghost function SymbolMap<V>(values: seq<EncodedEntry<V>>, fresh_: seq<SymbolEntry>,
                              flat: seq<SymbolEntry>): map<string, V>
  {
    Resolve(Raw(values), Together(Symbols(values, fresh_), Symbols(values, flat)))
  }

  ghost function ExtensionMap<V>(values: seq<EncodedEntry<V>>, fresh_: seq<ExtensionEntry>, flat: seq<ExtensionEntry>)
    : map<(string, int), V>
  {
    Resolve(Raw(values), Together(Extensions(fresh_), Extensions(flat)))
  }

  // ---------------------------------------------------------------- a value pushed

  lemma RawPush<V>(values: seq<EncodedEntry<V>>, e: EncodedEntry<V>)
    ensures Raw(values + [e]) == Raw(values) + [e.value]
  {
  }

  lemma PushKeepsFiles<V>(values: seq<EncodedEntry<V>>, e: EncodedEntry<V>, fresh_: seq<FileEntry>,
                          flat: seq<FileEntry>)
    requires FilesOk(fresh_, flat, |values|)
    ensures FilesOk(fresh_, flat, |values + [e]|)
    ensures FileMap(values + [e], fresh_, flat) == FileMap(values, fresh_, flat)
  {
    LessIsStrict();
    RawPush(values, e);
    hide StrictOrder, Sorted;
    TogetherBelow(Files(fresh_), Files(flat), Less, |values|);
    ResolveGrows(Raw(values), Together(Files(fresh_), Files(flat)), e.value);
  }

  lemma PushKeepsExtensions<V>(values: seq<EncodedEntry<V>>, e: EncodedEntry<V>,
                               fresh_: seq<ExtensionEntry>, flat: seq<ExtensionEntry>)
    requires ExtensionsOk(fresh_, flat, |values|)
    ensures ExtensionsOk(fresh_, flat, |values + [e]|)
    ensures ExtensionMap(values + [e], fresh_, flat) == ExtensionMap(values, fresh_, flat)
  {
    PairLessIsStrict();
    RawPush(values, e);
    hide StrictOrder, Sorted;
    TogetherBelow(Extensions(fresh_), Extensions(flat), PairLess, |values|);
    ResolveGrows(Raw(values), Together(Extensions(fresh_), Extensions(flat)), e.value);
  }

  lemma SameNames<V>(values: seq<EncodedEntry<V>>, e: EncodedEntry<V>, s: seq<SymbolEntry>)
    requires OffsetsBelow(Symbols(values, s), |values|)
    ensures Symbols(values + [e], s) == Symbols(values, s)
  {
    forall i | 0 <= i < |s| ensures Symbols(values + [e], s)[i] == Symbols(values, s)[i] {
      assert Symbols(values, s)[i].value == s[i].offset;
      assert (values + [e])[s[i].offset] == values[s[i].offset];
    }
  }

  lemma PushKeepsSymbols<V>(values: seq<EncodedEntry<V>>, e: EncodedEntry<V>, fresh_: seq<SymbolEntry>,
                            flat: seq<SymbolEntry>)
    requires SymbolsOk(values, fresh_, flat)
    ensures SymbolsOk(values + [e], fresh_, flat)
    ensures SymbolMap(values + [e], fresh_, flat) == SymbolMap(values, fresh_, flat)
  {
    LessIsStrict();
    SameNames(values, e, fresh_);
    SameNames(values, e, flat);
    RawPush(values, e);
    hide StrictOrder, Sorted, TableOk, Symbols;
    TogetherBelow(Symbols(values, fresh_), Symbols(values, flat), Less, |values|);
    ResolveGrows(Raw(values), Together(Symbols(values, fresh_), Symbols(values, flat)), e.value);
  }

  // ---------------------------------------------------------------- an entry inserted

  /** A name new to the set goes in, and its entry is the one found, though the vector may have one too. */
  lemma FileInserted<V>(values: seq<EncodedEntry<V>>, fresh_: seq<FileEntry>, flat: seq<FileEntry>, e: FileEntry)
    requires FilesOk(fresh_, flat, |values|) && e.offset < |values|
    ensures InOrder(Files(fresh_), Less) && InOrder(Files(flat), Less)
    ensures var p, q := FileLowerBound(fresh_, e.name), FileLowerBound(flat, e.name);
            && (HasKey(Files(fresh_), e.name) <==> p < |fresh_| && fresh_[p].name == e.name)
            && (HasKey(Files(flat), e.name) <==> q < |flat| && flat[q].name == e.name)
            && (e.name in FileMap(values, fresh_, flat)
                <==> HasKey(Files(fresh_), e.name) || HasKey(Files(flat), e.name))
            && (!HasKey(Files(fresh_), e.name) ==>
                  && FilesOk(InsertAt(fresh_, p, e), flat, |values|)
                  && FileMap(values, InsertAt(fresh_, p, e), flat)
                     == FileMap(values, fresh_, flat)[e.name := values[e.offset].value])
  {
    hide Less, StrictOrder, PartsOk, InOrder, FileLowerBound, InsertAt, HasKey, Together, Resolve;
    LessIsStrict();
    PartsInOrder(Files(fresh_), Files(flat), Less, |values|);
    var p, q := FileLowerBound(fresh_, e.name), FileLowerBound(flat, e.name);
    KeyInserted(Raw(values), Files(fresh_), Files(flat), Less, p, q, Entry(e.name, e.offset));
    MapInsert(DecodeFile(), fresh_, p, e);
  }

  lemma ExtensionInserted<V>(values: seq<EncodedEntry<V>>, fresh_: seq<ExtensionEntry>, flat: seq<ExtensionEntry>,
                             e: ExtensionEntry)
    requires ExtensionsOk(fresh_, flat, |values|) && e.offset < |values|
    ensures InOrder(Extensions(fresh_), PairLess) && InOrder(Extensions(flat), PairLess)
    ensures var p, q := ExtensionLowerBound(fresh_, KeyOf(e)), ExtensionLowerBound(flat, KeyOf(e));
            var inSet, inFlat := HasKey(Extensions(fresh_), KeyOf(e)), HasKey(Extensions(flat), KeyOf(e));
            && (inSet <==> p < |fresh_| && KeyOf(fresh_[p]) == KeyOf(e))
            && (inFlat <==> q < |flat| && KeyOf(flat[q]) == KeyOf(e))
            && (KeyOf(e) in ExtensionMap(values, fresh_, flat) <==> inSet || inFlat)
            && (!inSet ==>
                  && ExtensionsOk(InsertAt(fresh_, p, e), flat, |values|)
                  && ExtensionMap(values, InsertAt(fresh_, p, e), flat)
                     == ExtensionMap(values, fresh_, flat)[KeyOf(e) := values[e.offset].value])
  {
    hide PairLess, StrictOrder, PartsOk, InOrder, ExtensionLowerBound, InsertAt, KeyOf, HasKey, Together, Resolve;
    PairLessIsStrict();
    PartsInOrder(Extensions(fresh_), Extensions(flat), PairLess, |values|);
    var p, q := ExtensionLowerBound(fresh_, KeyOf(e)), ExtensionLowerBound(flat, KeyOf(e));
    KeyInserted(Raw(values), Extensions(fresh_), Extensions(flat), PairLess, p, q, Entry(KeyOf(e), e.offset));
    MapInsert(DecodeExtension(), fresh_, p, e);
  }

  /** The keys of the extensions in the vector that the set does not have: those refused late. */
  ghost function LateKeys(fresh_: seq<ExtensionEntry>, flat: seq<ExtensionEntry>): set<(string, int)> {
    AsMap(Extensions(flat)).Keys - AsMap(Extensions(fresh_)).Keys
  }

  lemma LateOrNot(fresh_: seq<ExtensionEntry>, flat: seq<ExtensionEntry>, key: (string, int))
    ensures key in LateKeys(fresh_, flat) <==> HasKey(Extensions(flat), key) && !HasKey(Extensions(fresh_), key)
  {
    AsMapKeys(Extensions(fresh_), key);
    AsMapKeys(Extensions(flat), key);
  }

  /** A key that neither part has makes no other key late. */
  lemma NewKeyKeepsLate(fresh_: seq<ExtensionEntry>, flat: seq<ExtensionEntry>, p: nat, e: ExtensionEntry)
    requires p <= |fresh_| && !HasKey(Extensions(fresh_), KeyOf(e)) && !HasKey(Extensions(flat), KeyOf(e))
    ensures LateKeys(InsertAt(fresh_, p, e), flat) == LateKeys(fresh_, flat)
  {
    hide AsMap, KeyOf, HasKey, InsertAt;
    MapInsert(DecodeExtension(), fresh_, p, e);
    InsertIsUpdate(Extensions(fresh_), p, Entry(KeyOf(e), e.offset));
    AsMapKeys(Extensions(flat), KeyOf(e));
  }

  /** Both parts accept the name: it is new to both, and goes into the set. */
  lemma SymbolInserted<V>(values: seq<EncodedEntry<V>>, fresh_: seq<SymbolEntry>, flat: seq<SymbolEntry>,
                          e: SymbolEntry)
    requires SymbolsOk(values, fresh_, flat) && e.offset < |values| && e.symbol != ""
    requires var name := AsString(NamedOf(values, e));
             Accepts(KeysOf(Symbols(values, fresh_)), name) && Accepts(KeysOf(Symbols(values, flat)), name)
    ensures var name := AsString(NamedOf(values, e)); var p := SymbolUpperBound(values, fresh_, NamedOf(values, e));
            && SymbolsOk(values, InsertAt(fresh_, p, e), flat)
            && name !in SymbolMap(values, fresh_, flat)
            && SymbolMap(values, InsertAt(fresh_, p, e), flat)
            == SymbolMap(values, fresh_, flat)[name := values[e.offset].value]
  {
    var n := NamedOf(values, e);
    var name, p := AsString(n), SymbolUpperBound(values, fresh_, n);
    var F, L := Symbols(values, fresh_), Symbols(values, flat);
    hide Less, SymbolUpperBound, InsertAt, AsString, NamedOf, TableOk, Accepts, Resolve, Together,
         PartsOk, NonEmptySymbols;
    NewNameKeepsParts(F, L, |values|, name, e.offset);
    MapInsert(DecodeSymbol(values), fresh_, p, e);
    ResolveKeys(Raw(values), Together(F, L));
    ResolveInsert(Raw(values), Together(F, L), name, e.offset);
    InsertedNonEmpty(fresh_, p, e);
  }

  lemma NewNameKeepsParts(F: Decoded<string>, L: Decoded<string>, n: nat, name: string, offset: nat)
    requires PartsOk(F, L, Less, n) && Disjoint(F, L) && TableOk(F) && TableOk(L) && offset < n
    requires Accepts(KeysOf(F), name) && Accepts(KeysOf(L), name)
    ensures var F' := InsertAt(F, UpperBound(KeysOf(F), name), Entry(name, offset));
            && TableOk(F') && PartsOk(F', L, Less, n) && Disjoint(F', L)
            && Together(F', L) == Together(F, L)[name := offset] && name !in Together(F, L)
    ensures MapBelow(Together(F, L), n)
  {
    LessIsStrict();
    var p := UpperBound(KeysOf(F), name);
    hide Less, StrictOrder, UpperBound, AsMap, InsertAt, ValidateSymbolName, TableOk, Sorted, Accepts,
         Together, Disjoint;
    AcceptedIsNew(F, name);
    AcceptedIsNew(L, name);
    AsMapKeys(L, name);
    InsertSymbol(F, name, offset);
    SortedTable(InsertAt(F, p, Entry(name, offset)));
    TogetherBelow(F, L, Less, n);
    InsertKeepsParts(F, L, Less, n, p, Entry(name, offset));
    NewKeyDisjoint(F, L, p, Entry(name, offset));
  }

  lemma NewKeyDisjoint(F: Decoded<string>, L: Decoded<string>, p: nat, e: Entry<string, nat>)
    requires Disjoint(F, L) && p <= |F| && !HasKey(L, e.key)
    ensures Disjoint(InsertAt(F, p, e), L)
  {
    var F' := InsertAt(F, p, e);
    forall i, j | 0 <= i < |F'| && 0 <= j < |L| ensures F'[i].key != L[j].key {
      if i != p { assert F'[i] == F[if i < p then i else i - 1]; }
    }
  }

  lemma InsertedNonEmpty(s: seq<SymbolEntry>, p: nat, e: SymbolEntry)
    requires NonEmptySymbols(s) && e.symbol != "" && p <= |s|
    ensures NonEmptySymbols(InsertAt(s, p, e))
  {
  }

  lemma SortedTable(s: Decoded<string>)
    requires TableOk(s)
    ensures Sorted(s, Less)
  {
  }

  lemma AcceptedIsNew(s: Decoded<string>, name: string)
    requires TableOk(s) && Accepts(KeysOf(s), name)
    ensures name !in KeysOf(s) && name !in AsMap(s) && ValidateSymbolName(name)
  {
    NotAmong(KeysOf(s), name);
    TableKeys(s, name);
  }

  /** What one of the two parts rejects conflicts with the table. */
  lemma SymbolRejected<V>(values: seq<EncodedEntry<V>>, fresh_: seq<SymbolEntry>, flat: seq<SymbolEntry>, name: string)
    requires SymbolsOk(values, fresh_, flat)
    requires !(Accepts(KeysOf(Symbols(values, fresh_)), name) && Accepts(KeysOf(Symbols(values, flat)), name))
    ensures var keys := SymbolMap(values, fresh_, flat).Keys;
            AntichainSet(keys) ==> !(ValidateSymbolName(name) && Unrelated(keys, name))
  {
    LessIsStrict();
    var F, L := Symbols(values, fresh_), Symbols(values, flat);
    hide StrictOrder, AsMap, Symbols, TableOk, Accepts, ValidateSymbolName, IsSubSymbol;
    TogetherBelow(F, L, Less, |values|);
    ResolveKeys(Raw(values), Together(F, L));
    var keys := SymbolMap(values, fresh_, flat).Keys;
    assert keys == AsMap(F).Keys + AsMap(L).Keys;
    if AntichainSet(keys) {
      AntichainShrinks(AsMap(F).Keys, keys);
      AntichainShrinks(AsMap(L).Keys, keys);
      if !Accepts(KeysOf(F), name) { RejectedConflicts(F, name); } else { RejectedConflicts(L, name); }
    }
  }

  lemma StaysIsUnrelated(s: Decoded<string>, name: string)
    ensures StaysAntichain(KeysOf(s), name) <==> ValidateSymbolName(name) && Unrelated(AsMap(s).Keys, name)
  {
    hide AsMap, IsSubSymbol, ValidateSymbolName;
    if StaysAntichain(KeysOf(s), name) {
      forall k | k in AsMap(s).Keys ensures !IsSubSymbol(k, name) && !IsSubSymbol(name, k) {
        TableKeys(s, k);
        var i :| 0 <= i < |KeysOf(s)| && KeysOf(s)[i] == k;
      }
    }
    if Unrelated(AsMap(s).Keys, name) {
      forall i | 0 <= i < |KeysOf(s)|
        ensures !IsSubSymbol(KeysOf(s)[i], name) && !IsSubSymbol(name, KeysOf(s)[i])
      {
        TableKeys(s, KeysOf(s)[i]);
      }
    }
  }

  /** The name is in the blind spot of one part, and the other part does not refuse it either. */
  ghost predicate InBlindSpot<V>(values: seq<EncodedEntry<V>>, fresh_: seq<SymbolEntry>, flat: seq<SymbolEntry>,
                                 name: string)
  {
    var F, L := KeysOf(Symbols(values, fresh_)), KeysOf(Symbols(values, flat));
    || (Corner(F, name) && (StaysAntichain(L, name) || Corner(L, name)))
    || (Corner(L, name) && StaysAntichain(F, name))
  }

  /** Asking the two parts one after the other decides for the whole table, but for the blind spots. */
  lemma BothPartsDecide<V>(values: seq<EncodedEntry<V>>, fresh_: seq<SymbolEntry>, flat: seq<SymbolEntry>, name: string)
    requires SymbolsOk(values, fresh_, flat) && AntichainSet(SymbolMap(values, fresh_, flat).Keys)
    ensures Accepts(KeysOf(Symbols(values, fresh_)), name) && Accepts(KeysOf(Symbols(values, flat)), name) <==>
              (ValidateSymbolName(name) && Unrelated(SymbolMap(values, fresh_, flat).Keys, name))
              || InBlindSpot(values, fresh_, flat, name)
    ensures InBlindSpot(values, fresh_, flat, name) ==> !Unrelated(SymbolMap(values, fresh_, flat).Keys, name)
  {
    LessIsStrict();
    var F, L := Symbols(values, fresh_), Symbols(values, flat);
    hide StrictOrder, AsMap, Symbols, Sorted, SortedKeys, ValidKeys, Accepts, ValidateSymbolName, IsSubSymbol;
    hide StaysAntichain, Corner, Antichain;
    TogetherBelow(F, L, Less, |values|);
    ResolveKeys(Raw(values), Together(F, L));
    var keys := SymbolMap(values, fresh_, flat).Keys;
    assert keys == AsMap(F).Keys + AsMap(L).Keys;
    AntichainShrinks(AsMap(F).Keys, keys);
    AntichainShrinks(AsMap(L).Keys, keys);
    TableIsAntichain(F);
    TableIsAntichain(L);
    TwoNeighboursSuffice(KeysOf(F), name);
    TwoNeighboursSuffice(KeysOf(L), name);
    StaysIsUnrelated(F, name);
    StaysIsUnrelated(L, name);
    CornerIsValid(KeysOf(F), name);
    CornerIsValid(KeysOf(L), name);
    UnrelatedToBoth(AsMap(F).Keys, AsMap(L).Keys, name);
  }

  lemma CornerIsValid(keys: seq<string>, name: string)
    ensures Corner(keys, name) ==> ValidateSymbolName(name)
  {
  }

  lemma UnrelatedToBoth(a: set<string>, b: set<string>, name: string)
    ensures Unrelated(a + b, name) <==> Unrelated(a, name) && Unrelated(b, name)
  {
    hide IsSubSymbol;
  }

  // ---------------------------------------------------------------- merging

  lemma FilesMerged<V>(values: seq<EncodedEntry<V>>, fresh_: seq<FileEntry>, flat: seq<FileEntry>)
    requires FilesOk(fresh_, flat, |values|)
    ensures var merged := Merge(fresh_, flat, FileLess());
            FilesOk([], merged, |values|) && FileMap(values, [], merged) == FileMap(values, fresh_, flat)
  {
    LessIsStrict();
    hide StrictOrder, Sorted, Less;
    MergeOfMaps(fresh_, flat, FileLess(), DecodeFile(), ByKey(Less));
    FlattenKeepsParts(Files(fresh_), Files(flat), Less, |values|);
    assert Files([]) == [];
  }

  lemma ExtensionsMerged<V>(values: seq<EncodedEntry<V>>, fresh_: seq<ExtensionEntry>, flat: seq<ExtensionEntry>)
    requires ExtensionsOk(fresh_, flat, |values|)
    ensures var merged := Merge(fresh_, flat, ExtensionLess());
            ExtensionsOk([], merged, |values|) && ExtensionMap(values, [], merged) == ExtensionMap(values, fresh_, flat)
  {
    PairLessIsStrict();
    hide StrictOrder, Sorted, PairLess;
    MergeOfMaps(fresh_, flat, ExtensionLess(), DecodeExtension(), ByKey(PairLess));
    FlattenKeepsParts(Extensions(fresh_), Extensions(flat), PairLess, |values|);
    assert Extensions([]) == [];
  }

  lemma SymbolsMerged<V>(values: seq<EncodedEntry<V>>, fresh_: seq<SymbolEntry>, flat: seq<SymbolEntry>)
    requires SymbolsOk(values, fresh_, flat)
    ensures var merged := Merge(fresh_, flat, SymbolEntryLess(values));
            SymbolsOk(values, [], merged) && SymbolMap(values, [], merged) == SymbolMap(values, fresh_, flat)
  {
    LessIsStrict();
    hide StrictOrder, Sorted, InOrder, Less, SymbolLess, AsString, NamedOf, TableOk, Disjoint, Together;
    var F, L := Symbols(values, fresh_), Symbols(values, flat);
    SortedTable(F);
    SortedTable(L);
    forall i, j | 0 <= i < |fresh_| && 0 <= j < |flat|
      ensures SymbolEntryLess(values)(flat[j], fresh_[i])
              == ByKey<string, nat>(Less)(DecodeSymbol(values)(flat[j]), DecodeSymbol(values)(fresh_[i]))
    {
      AfterByFullName(values, fresh_, NamedOf(values, flat[j]), i);
    }
    MergeOfMaps(fresh_, flat, SymbolEntryLess(values), DecodeSymbol(values), ByKey(Less));
    FlattenKeepsParts(F, L, Less, |values|);
    MergeKeepsSorted(F, L, Less);
    MergedTableOk(F, L);
    MergedNonEmpty(fresh_, flat, SymbolEntryLess(values));
    NothingIsOk();
    assert Symbols(values, []) == [];
  }

  lemma NothingIsOk()
    ensures TableOk<nat>([]) && forall s: Decoded<string> :: Disjoint([], s)
  {
  }

  lemma MergedTableOk(a: Decoded<string>, b: Decoded<string>)
    requires TableOk(a) && TableOk(b) && Sorted(Merge(a, b, ByKey(Less)), Less)
    ensures TableOk(Merge(a, b, ByKey(Less)))
  {
    hide Less, ValidateSymbolName;
    var merged := Merge(a, b, ByKey(Less));
    var keys := KeysOf(merged);
    forall i | 0 <= i < |merged| ensures ValidateSymbolName(keys[i]) {
      MergeElements(a, b, ByKey(Less), merged[i]);
      if merged[i] in a {
        var j :| 0 <= j < |a| && a[j] == merged[i];
        assert KeysOf(a)[j] == keys[i];
      } else {
        var j :| 0 <= j < |b| && b[j] == merged[i];
        assert KeysOf(b)[j] == keys[i];
      }
    }
  }

  lemma MergedNonEmpty(a: seq<SymbolEntry>, b: seq<SymbolEntry>, less: (SymbolEntry, SymbolEntry) -> bool)
    requires NonEmptySymbols(a) && NonEmptySymbols(b)
    ensures NonEmptySymbols(Merge(a, b, less))
  {
    var m := Merge(a, b, less);
    forall i | 0 <= i < |m| ensures m[i].symbol != "" { MergeElements(a, b, less, m[i]); }
  }

  // ---------------------------------------------------------------- answering from the flat part

  lemma FileAnswer<V>(values: seq<EncodedEntry<V>>, flat: seq<FileEntry>, name: string)
    requires FilesOk([], flat, |values|)
    ensures var p := FileLowerBound(flat, name);
            && (p < |flat| ==> flat[p].offset < |values|)
            && Lookup(FileMap(values, [], flat), name)
               == if p < |flat| && flat[p].name == name then Option.Some(values[flat[p].offset].value) else Option.None
  {
    LessIsStrict();
    var p := FileLowerBound(flat, name);
    hide StrictOrder, Sorted, InOrder, Less, FileLowerBound, AsMap;
    LowerBoundFinds(Files(flat), Less, name, p);
    TogetherBelow(Files([]), Files(flat), Less, |values|);
    FlatAlone(Files(flat));
    if p < |flat| { assert Files(flat)[p].value == flat[p].offset; }
  }

  lemma ExtensionAnswer<V>(values: seq<EncodedEntry<V>>, flat: seq<ExtensionEntry>, key: (string, int))
    requires ExtensionsOk([], flat, |values|)
    ensures var p := ExtensionLowerBound(flat, key);
            && (p < |flat| ==> flat[p].offset < |values|)
            && Lookup(ExtensionMap(values, [], flat), key)
               == if p < |flat| && KeyOf(flat[p]) == key then Option.Some(values[flat[p].offset].value) else Option.None
  {
    PairLessIsStrict();
    var p := ExtensionLowerBound(flat, key);
    hide StrictOrder, Sorted, PairLess, ExtensionLowerBound, AsMap, KeyOf;
    LowerBoundFinds(Extensions(flat), PairLess, key, p);
    TogetherBelow(Extensions([]), Extensions(flat), PairLess, |values|);
    FlatAlone(Extensions(flat));
    if p < |flat| { assert Extensions(flat)[p].value == flat[p].offset; }
  }

  lemma AnswerResolved<V>(values: seq<V>, m: map<string, nat>, name: string, offset: Option<nat>)
    requires MapBelow(m, |values|) && AnswersSymbol(m, name, offset)
    requires offset.Some? ==> offset.value < |values|
    ensures AnswersSymbol(Resolve(values, m), name,
                          if offset.Some? then Option.Some(values[offset.value]) else Option.None)
  {
    hide IsSubSymbol;
  }

  /** The predecessor in the flat vector answers for the whole table. */
  lemma SymbolAnswer<V>(values: seq<EncodedEntry<V>>, flat: seq<SymbolEntry>, name: string)
    requires SymbolsOk(values, [], flat) && AntichainSet(SymbolMap(values, [], flat).Keys)
    ensures var i := LastLessOrEqual(SymbolUpperBound(values, flat, Plain(name)));
            && (i < |flat| ==> flat[i].offset < |values|)
            && AnswersSymbol(SymbolMap(values, [], flat), name,
                             if i < |flat| && IsSubSymbol(AsString(NamedOf(values, flat[i])), name)
                             then Option.Some(values[flat[i].offset].value) else Option.None)
  {
    LessIsStrict();
    var L := Symbols(values, flat);
    var i := LastLessOrEqual(SymbolUpperBound(values, flat, Plain(name)));
    hide StrictOrder, Less, SymbolUpperBound, AsMap, IsSubSymbol, TableOk, Sorted, AntichainSet, AnswersSymbol, Resolve;
    TogetherBelow(Symbols(values, []), L, Less, |values|);
    FlatAlone(L);
    ResolveKeys(Raw(values), AsMap(L));
    TableIsSorted(L);
    PredecessorAnswers(L, name);
    if i < |flat| { assert L[i].value == flat[i].offset && L[i].key == AsString(NamedOf(values, flat[i])); }
    AnswerResolved(Raw(values), AsMap(L), name,
                   if i < |flat| && IsSubSymbol(L[i].key, name) then Option.Some(L[i].value) else Option.None);
  }

  lemma MergeNothing<T>(b: seq<T>, less: (T, T) -> bool)
    ensures Merge([], b, less) == b
  {
  }

  /** What ordering by the comparator demands: no declared top-level name is empty. */
  predicate NamesGiven(file: FileProto) {
    && (forall i :: 0 <= i < |file.messages| ==> file.messages[i].name != "")
    && (forall i :: 0 <= i < |file.extensions| ==> file.extensions[i].name != "")
    && "" !in file.enums && "" !in file.services
  }

  lemma JoinIsPath(package: string, symbol: string)
    ensures Join(package, symbol) == Path(package) + symbol
    ensures ValidateSymbolName(package) ==> (ValidateSymbolName(Path(package) + symbol) <==> ValidateSymbolName(symbol))
  {
    var p := Path(package);
    assert p + symbol == Join(package, symbol);
    if ValidateSymbolName(package) {
      assert forall i :: 0 <= i < |p| ==> (p + symbol)[i] == p[i] && ValidChar(p[i]);
      assert forall i :: 0 <= i < |symbol| ==> (p + symbol)[|p| + i] == symbol[i];
      if ValidateSymbolName(symbol) {
        forall i | 0 <= i < |p + symbol| ensures ValidChar((p + symbol)[i]) {
          if i >= |p| { assert symbol[i - |p|] == (p + symbol)[i]; }
        }
      }
    }
  }

  class DescriptorIndex<V> {
    var allValues: seq<EncodedEntry<V>>
    var byName: seq<FileEntry>
    var byNameFlat: seq<FileEntry>
    var bySymbol: seq<SymbolEntry>
    var bySymbolFlat: seq<SymbolEntry>
    var byExtension: seq<ExtensionEntry>
    var byExtensionFlat: seq<ExtensionEntry>

    ghost predicate Valid()
      reads this
    {
      && FilesOk(byName, byNameFlat, |allValues|)
      && SymbolsOk(allValues, bySymbol, bySymbolFlat)
      && ExtensionsOk(byExtension, byExtensionFlat, |allValues|)
    }

    ghost function View(): Index<V>
      reads this
    {
      Index(FileMap(allValues, byName, byNameFlat),
            SymbolMap(allValues, bySymbol, bySymbolFlat),
            ExtensionMap(allValues, byExtension, byExtensionFlat))
    }

    /** The extensions that would be refused too late, after the set has taken them. */
    ghost function Late(): set<(string, int)>
      reads this
    {
      LateKeys(byExtension, byExtensionFlat)
    }

    /** The value pushed last, which the entries being added will point at. */
    ghost predicate Adding(value: V, package: string)
      reads this
    {
      allValues != [] && allValues[|allValues| - 1] == EncodedEntry(value, package) && ValidateSymbolName(package)
    }

    constructor ()
      ensures Valid() && View() == Index(map[], map[], map[])
    {
      allValues := [];
      byName, byNameFlat, bySymbol, bySymbolFlat, byExtension, byExtensionFlat := [], [], [], [], [], [];
      new;
      NothingIsOk();
    }

    /** The check against the neighbours of one part of the table. */
    static method CheckForMutualSubsymbols(values: seq<EncodedEntry<V>>, s: seq<SymbolEntry>, name: string, iter: nat)
      returns (ok: bool)
      ensures ok == NeighboursAllow(KeysOf(Symbols(values, s)), iter, name) && (s == [] ==> ok)
    {
      if iter < |s| {
        if IsSubSymbol(AsString(NamedOf(values, s[iter])), name) { return false; }
        var next := iter + 1;
        if next < |s| && IsSubSymbol(name, AsString(NamedOf(values, s[next]))) { return false; }
      }
      return true;
    }

    /**
     * A symbol is accepted when both parts of the table accept it, each on its own. What that is
     * for the table as a whole, BothPartsDecide says.
     */
    method AddSymbol(symbol: string, ghost value: V, ghost package: string) returns (ok: bool)
      requires Valid() && Adding(value, package) && symbol != ""
      modifies this`bySymbol
      ensures Valid()
      ensures var name := Path(package) + symbol;
              && (ok <==> Accepts(KeysOf(Symbols(allValues, old(bySymbol))), name)
                          && Accepts(KeysOf(Symbols(allValues, bySymbolFlat)), name))
              && (ok ==> name !in old(View()).symbols)
              && (ok ==> View() == old(View()).(symbols := old(View()).symbols[name := value]))
              && (ok ==> ValidateSymbolName(name))
      ensures !ok ==> bySymbol == old(bySymbol)
      ensures ok || (old(bySymbol) == [] && bySymbolFlat == []) ==>
                var name := Path(package) + symbol;
                (ok <==> forall i :: 0 <= i < |name| ==>
                   '0' <= name[i] <= '9' || 'A' <= name[i] <= 'Z' || 'a' <= name[i] <= 'z' || name[i] in "_.")
    {
      hide Less, TableOk, AsMap, SymbolMap, ValidateSymbolName, NeighboursAllow, SymbolUpperBound, PartsOk;
      ValidNames(Path(package) + symbol);
      var entry := SymbolEntry(|allValues| - 1, symbol);
      var named := NamedOf(allValues, entry);
      JoinIsPath(package, symbol);
      if !ValidateSymbolName(symbol) { return false; }
      var fits := CheckForMutualSubsymbols(allValues, bySymbol, AsString(named),
                                           LastLessOrEqual(SymbolUpperBound(allValues, bySymbol, named)));
      if !fits { return false; }
      fits := CheckForMutualSubsymbols(allValues, bySymbolFlat, AsString(named),
                                       LastLessOrEqual(SymbolUpperBound(allValues, bySymbolFlat, named)));
      if !fits { return false; }
      SymbolInserted(allValues, bySymbol, bySymbolFlat, entry);
      bySymbol := InsertAt(bySymbol, SymbolUpperBound(allValues, bySymbol, named), entry);
      return true;
    }

    /**
     * The entry goes into the set before the flat part is asked; when that has the key too, the
     * extension is refused, and found from then on.
     */
    method AddExtension(field: ExtensionProto, ghost value: V, ghost package: string) returns (ok: bool)
      requires Valid() && Adding(value, package)
      modifies this`byExtension
      ensures Valid()
      ensures var e := ExtensionItem(field.extendee, field.number);
              && (ok <==> !(FullyQualified(field.extendee) && ExtensionKey(e) in old(View()).extensions))
              && View() == (if !ok then Refused(old(View()), e, old(Late()), value)
                            else if !FullyQualified(field.extendee) then old(View())
                            else old(View()).(extensions := old(View()).extensions[ExtensionKey(e) := value]))
              && (!ok ==> (byExtension == old(byExtension) <==> HasKey(Extensions(old(byExtension)), ExtensionKey(e))))
      ensures ok ==> Late() == old(Late())
    {
      hide Less, PairLess, SymbolsOk, FilesOk, ExtensionsOk, SymbolMap, FileMap, ExtensionMap, Sorted, InOrder,
           OffsetsBelow, ExtensionLowerBound, LateKeys, HasKey;
      if field.extendee != "" && field.extendee[0] == '.' {
        var entry := ExtensionEntry(|allValues| - 1, field.extendee, field.number);
        ExtensionInserted(allValues, byExtension, byExtensionFlat, entry);
        LateOrNot(byExtension, byExtensionFlat, KeyOf(entry));
        var p := ExtensionLowerBound(byExtension, KeyOf(entry));
        if p < |byExtension| && KeyOf(byExtension[p]) == KeyOf(entry) { return false; }
        var q := ExtensionLowerBound(byExtensionFlat, KeyOf(entry));
        if !(q < |byExtensionFlat| && KeyOf(byExtensionFlat[q]) == KeyOf(entry)) {
          NewKeyKeepsLate(byExtension, byExtensionFlat, p, entry);
        }
        byExtension := InsertAt(byExtension, p, entry);
        if q < |byExtensionFlat| && KeyOf(byExtensionFlat[q]) == KeyOf(entry) { return false; }
      }
      return true;
    }

    /** AddSymbol, following the specification: what it rejects is specified as a conflict. */
    method AddSymbolItem(symbol: string, ghost value: V, ghost package: string, ghost spec: Option<Index<V>>)
      returns (ok: bool)
      requires Valid() && Adding(value, package) && symbol != "" && Tracks(spec, View())
      modifies this`bySymbol
      ensures Valid()
      ensures var e := SymbolItem(Path(package) + symbol);
              if ok then Tracks(AddItem(spec, e, value), View()) else TracksRefused(spec, e, Late(), value, View())
      ensures var name, keys := Path(package) + symbol, old(View()).symbols.Keys;
              AntichainSet(keys) ==>
                (ok <==> (ValidateSymbolName(name) && Unrelated(keys, name))
                         || InBlindSpot(allValues, old(bySymbol), bySymbolFlat, name))
    {
      hide Tracks, TracksRefused, AddItem, SymbolMap, Accepts, AntichainSet, Unrelated, FilesOk, SymbolsOk,
           ExtensionsOk, ValidateSymbolName, LateKeys;
      hide InBlindSpot;
      if AntichainSet(View().symbols.Keys) {
        BothPartsDecide(allValues, bySymbol, bySymbolFlat, Path(package) + symbol);
      }
      ghost var view, name := View(), Path(package) + symbol;
      ok := AddSymbol(symbol, value, package);
      if ok {
        TracksSymbol(spec, view, name, value);
      } else {
        SymbolRejected(allValues, bySymbol, bySymbolFlat, name);
        RejectsSymbol(spec, view, name, value);
        OneRefused(spec, SymbolItem(name), value, Late(), view);
      }
    }

    method AddExtensionItem(field: ExtensionProto, ghost value: V, ghost package: string, ghost spec: Option<Index<V>>)
      returns (ok: bool)
      requires Valid() && Adding(value, package) && Tracks(spec, View())
      modifies this`byExtension
      ensures Valid() && (ok ==> Late() == old(Late()))
      ensures var e := ExtensionItem(field.extendee, field.number);
              if ok then Tracks(AddItem(spec, e, value), View()) else TracksRefused(spec, e, old(Late()), value, View())
    {
      hide Tracks, TracksRefused, Refused, AddItem, FilesOk, SymbolsOk, ExtensionsOk, FileMap, SymbolMap, ExtensionMap,
           LateKeys;
      ghost var view, e, late := View(), ExtensionItem(field.extendee, field.number), Late();
      ok := AddExtension(field, value, package);
      if ok {
        TracksExtension(spec, view, e, value);
      } else {
        RejectsExtension(spec, view, e, value);
        OneRefused(spec, e, value, late, view);
      }
    }

    /** All declarations of extensions inside a message. */
    method AddNestedExtensions(message: MessageProto, ghost value: V, ghost package: string,
                               ghost spec: Option<Index<V>>)
      returns (ok: bool)
      requires Valid() && Adding(value, package) && Tracks(spec, View())
      modifies this`byExtension
      ensures Valid() && (ok ==> Late() == old(Late()))
      ensures if ok then Tracks(AddItems(spec, NestedItems(message), value), View())
              else Stopped(spec, NestedItems(message), value, old(Late()), View())
      decreases message
    {
      hide Tracks, TracksRefused, Stopped, AddItem, AddItems, FilesOk, SymbolsOk, ExtensionsOk, FileMap, SymbolMap,
           ExtensionMap, LateKeys, ValidateSymbolName, DescriptorIndex.Valid, DescriptorIndex.View,
           DescriptorIndex.Late;
      ghost var front, items, late := AllNestedItems(message.nested), ExtensionItems(message.extensions), Late();
      AddNothing(spec, value);
      for i := 0 to |message.nested|
        invariant Valid() && Late() == late
        invariant Tracks(AddItems(spec, AllNestedItems(message.nested[..i]), value), View())
      {
        ghost var before, inside := AllNestedItems(message.nested[..i]), NestedItems(message.nested[i]);
        assert message.nested[..i + 1][..i] == message.nested[..i];
        AddItemsAppend(spec, before, inside, value);
        ok := AddNestedExtensions(message.nested[i], value, package, AddItems(spec, before, value));
        if !ok {
          NestedPrefix(message.nested, i + 1);
          StoppedLater(spec, before, inside, value, late, View());
          StoppedEarlier(spec, before + inside, front + items, value, late, View());
          return;
        }
      }
      assert message.nested[..|message.nested|] == message.nested;
      for j := 0 to |message.extensions|
        invariant Valid() && Late() == late
        invariant Tracks(AddItems(spec, (front + items)[..|front| + j], value), View())
      {
        ghost var before := (front + items)[..|front| + j];
        OneMoreItem(spec, front + items, |front| + j, value);
        ok := AddExtensionItem(message.extensions[j], value, package, AddItems(spec, before, value));
        if !ok {
          StoppedNext(spec, before, items[j], front + items, value, late, View());
          return;
        }
      }
      assert (front + items)[..|front + items|] == front + items;
      ok := true;
    }

    method AddMessages(ms: seq<MessageProto>, ghost value: V, ghost package: string, ghost spec: Option<Index<V>>)
      returns (ok: bool)
      requires Valid() && Adding(value, package) && Tracks(spec, View())
      requires forall i :: 0 <= i < |ms| ==> ms[i].name != ""
      modifies this`bySymbol, this`byExtension
      ensures Valid() && (ok ==> Late() == old(Late()))
      ensures if ok then Tracks(AddItems(spec, MessageItems(Path(package), ms), value), View())
              else Stopped(spec, MessageItems(Path(package), ms), value, old(Late()), View())
    {
      hide Tracks, TracksRefused, Stopped, AddItem, AddItems, FilesOk, SymbolsOk, ExtensionsOk, FileMap, SymbolMap,
           ExtensionMap, Path, ValidateSymbolName, LateKeys;
      ghost var path, late := Path(package), Late();
      AddNothing(spec, value);
      for i := 0 to |ms|
        invariant Valid() && Late() == late
        invariant Tracks(AddItems(spec, MessageItems(path, ms[..i]), value), View())
      {
        MessageStep(spec, path, ms, i, value);
        ghost var spec1 := AddItems(spec, MessageItems(path, ms[..i]), value);
        ok := AddSymbolItem(ms[i].name, value, package, spec1);
        if ok {
          ok := AddNestedExtensions(ms[i], value, package, AddItem(spec1, SymbolItem(path + ms[i].name), value));
        }
        if !ok {
          MessageStopped(spec, path, ms, i, value, late, View());
          return;
        }
      }
      assert ms[..|ms|] == ms;
      ok := true;
    }

    method AddNames(names: seq<string>, ghost value: V, ghost package: string, ghost spec: Option<Index<V>>)
      returns (ok: bool)
      requires Valid() && Adding(value, package) && Tracks(spec, View()) && "" !in names
      modifies this`bySymbol
      ensures Valid()
      ensures if ok then Tracks(AddItems(spec, NameItems(Path(package), names), value), View())
              else Stopped(spec, NameItems(Path(package), names), value, Late(), View())
    {
      hide Tracks, TracksRefused, Stopped, AddItem, AddItems, FilesOk, SymbolsOk, ExtensionsOk, FileMap, SymbolMap,
           ExtensionMap, Path, ValidateSymbolName, LateKeys;
      ghost var items := NameItems(Path(package), names);
      AddNothing(spec, value);
      for i := 0 to |names|
        invariant Valid()
        invariant Tracks(AddItems(spec, items[..i], value), View())
      {
        OneMoreItem(spec, items, i, value);
        ok := AddSymbolItem(names[i], value, package, AddItems(spec, items[..i], value));
        if !ok {
          StoppedNext(spec, items[..i], items[i], items, value, Late(), View());
          return;
        }
      }
      assert items[..|names|] == items;
      ok := true;
    }

    method AddFileExtensions(es: seq<ExtensionProto>, ghost value: V, ghost package: string,
                             ghost spec: Option<Index<V>>)
      returns (ok: bool)
      requires Valid() && Adding(value, package) && Tracks(spec, View())
      requires forall i :: 0 <= i < |es| ==> es[i].name != ""
      modifies this`bySymbol, this`byExtension
      ensures Valid() && (ok ==> Late() == old(Late()))
      ensures if ok then Tracks(AddItems(spec, FileExtensionItems(Path(package), es), value), View())
              else Stopped(spec, FileExtensionItems(Path(package), es), value, old(Late()), View())
    {
      hide Tracks, TracksRefused, Stopped, AddItem, AddItems, FilesOk, SymbolsOk, ExtensionsOk, FileMap, SymbolMap,
           ExtensionMap, Path, ValidateSymbolName, LateKeys;
      ghost var path, late := Path(package), Late();
      AddNothing(spec, value);
      for i := 0 to |es|
        invariant Valid() && Late() == late
        invariant Tracks(AddItems(spec, FileExtensionItems(path, es[..i]), value), View())
      {
        ExtensionStep(spec, path, es, i, value);
        ghost var spec1 := AddItems(spec, FileExtensionItems(path, es[..i]), value);
        ok := AddSymbolItem(es[i].name, value, package, spec1);
        if ok {
          ok := AddExtensionItem(es[i], value, package, AddItem(spec1, SymbolItem(path + es[i].name), value));
        }
        if !ok {
          ExtensionStopped(spec, path, es, i, value, late, View());
          return;
        }
      }
      assert es[..|es|] == es;
      ok := true;
    }

    /** Pushes the value; entries and what they stand for stay as they are. */
    method PushValue(value: V, package: string)
      requires Valid()
      modifies this`allValues
      ensures Valid() && View() == old(View())
      ensures allValues == old(allValues) + [EncodedEntry(value, package)]
    {
      hide FilesOk, SymbolsOk, ExtensionsOk, FileMap, SymbolMap, ExtensionMap;
      var e := EncodedEntry(value, package);
      PushKeepsFiles(allValues, e, byName, byNameFlat);
      PushKeepsSymbols(allValues, e, bySymbol, bySymbolFlat);
      PushKeepsExtensions(allValues, e, byExtension, byExtensionFlat);
      allValues := allValues + [e];
    }

    /**
     * InsertIfNotPresent on the set of file names, then the search of the flat part. A name in the
     * flat part is refused too late: the set has taken the new entry, which answers from then on.
     */
    method AddName(name: string, ghost value: V, ghost package: string) returns (ok: bool)
      requires Valid() && Adding(value, package)
      modifies this`byName
      ensures Valid() && (ok <==> name !in old(View()).files)
      ensures ok ==> !HasKey(Files(old(byName)), name)
      ensures View() == if HasKey(Files(old(byName)), name) then old(View())
                        else old(View()).(files := old(View()).files[name := value])
      ensures byName == old(byName) <==> HasKey(Files(old(byName)), name)
    {
      hide SymbolsOk, ExtensionsOk, FilesOk, FileMap, SymbolMap, ExtensionMap, Sorted, InOrder, OffsetsBelow, Less,
           FileLowerBound, HasKey;
      var entry := FileEntry(|allValues| - 1, name);
      FileInserted(allValues, byName, byNameFlat, entry);
      var p := FileLowerBound(byName, name);
      if p < |byName| && byName[p].name == name { return false; }
      byName := InsertAt(byName, p, entry);
      var q := FileLowerBound(byNameFlat, name);
      ok := !(q < |byNameFlat| && byNameFlat[q].name == name);
    }

    /**
     * Adds everything a file declares. What is specified to be free of conflicts is added exactly,
     * if the package name is valid as well. A file that is refused changes nothing exactly when its
     * package name is not valid or its name is in the set of new names. Else it is the one found
     * under its name from then on, and if that was new, its declarations before the conflict stay.
     */
    method AddFile(file: FileProto, value: V) returns (ok: bool)
      requires Valid() && AntichainSet(View().symbols.Keys) && NamesGiven(file)
      modifies this
      ensures Valid()
      ensures var spec := IndexSpec.AddFile(old(View()), file, value);
              && (spec.Some? && ValidateSymbolName(file.package) ==>
                    ok && View() == spec.value && AntichainSet(View().symbols.Keys))
              && (ok && spec.None? ==> !AntichainSet(View().symbols.Keys))
      ensures ok ==> ValidateSymbolName(file.package) && file.name !in old(View()).files
      ensures !ok ==>
                (byName == old(byName) && bySymbol == old(bySymbol) && byExtension == old(byExtension)
                 <==> !ValidateSymbolName(file.package) || HasKey(Files(old(byName)), file.name))
      ensures !ok ==>
                if !ValidateSymbolName(file.package) || HasKey(Files(old(byName)), file.name) then View() == old(View())
                else
                  && View().files == old(View()).files[file.name := value]
                  && if file.name in old(View()).files then View() == old(View()).(files := View().files)
                     else Stopped(Some(old(View()).(files := View().files)), Items(file), value, old(Late()), View())
    {
      hide AddItem, AddItems, AntichainSet, MessageItems, FileExtensionItems, NameItems, AllNestedItems, Items, Tracks,
           Stopped, ValidateSymbolName, Path;
      hide FilesOk, SymbolsOk, ExtensionsOk, FileMap, SymbolMap, ExtensionMap, LateKeys, HasKey;
      if !ValidateSymbolName(file.package) {
        PushValue(value, "");
        return false;
      }
      PushValue(value, file.package);
      ok := AddName(file.name, value, file.package);
      if !ok { return; }
      ghost var late, path, spec := Late(), Path(file.package), Some(View());
      ghost var a, b := MessageItems(path, file.messages), NameItems(path, file.enums);
      ghost var c, d := FileExtensionItems(path, file.extensions), NameItems(path, file.services);
      TracksItself(View());
      AddItemsInGroups(spec, file, value);
      AddNothing(spec, value);
      ok := AddMessages(file.messages, value, file.package, spec);
      if !ok { FileStopped(spec, file, [], a, value, late, View()); return; }
      ok := AddNames(file.enums, value, file.package, AddItems(spec, a, value));
      if !ok { FileStopped(spec, file, a, b, value, late, View()); return; }
      ok := AddFileExtensions(file.extensions, value, file.package, AddItems(spec, a + b, value));
      if !ok { FileStopped(spec, file, a + b, c, value, late, View()); return; }
      ok := AddNames(file.services, value, file.package, AddItems(spec, a + b + c, value));
      if !ok { FileStopped(spec, file, a + b + c, d, value, late, View()); return; }
      TracksAll(AddItems(spec, Items(file), value), View());
    }

    /** Merges each set into its flat vector: the sets are empty afterwards, and no answer changes. */
    method EnsureFlat()
      requires Valid()
      modifies this`byName, this`byNameFlat, this`bySymbol, this`bySymbolFlat, this`byExtension, this`byExtensionFlat
      ensures Valid() && View() == old(View()) && byName == [] && bySymbol == [] && byExtension == []
      ensures byNameFlat == Merge(old(byName), old(byNameFlat), FileLess())
      ensures bySymbolFlat == Merge(old(bySymbol), old(bySymbolFlat), SymbolEntryLess(allValues))
      ensures byExtensionFlat == Merge(old(byExtension), old(byExtensionFlat), ExtensionLess())
    {
      MergeNothing(byNameFlat, FileLess());
      MergeNothing(bySymbolFlat, SymbolEntryLess(allValues));
      MergeNothing(byExtensionFlat, ExtensionLess());
      hide FilesOk, SymbolsOk, ExtensionsOk, FileMap, SymbolMap, ExtensionMap, Merge;
      if byName != [] {
        FilesMerged(allValues, byName, byNameFlat);
        byName, byNameFlat := [], Merge(byName, byNameFlat, FileLess());
      }
      if bySymbol != [] {
        SymbolsMerged(allValues, bySymbol, bySymbolFlat);
        bySymbol, bySymbolFlat := [], Merge(bySymbol, bySymbolFlat, SymbolEntryLess(allValues));
      }
      if byExtension != [] {
        ExtensionsMerged(allValues, byExtension, byExtensionFlat);
        byExtension, byExtensionFlat := [], Merge(byExtension, byExtensionFlat, ExtensionLess());
      }
    }

    method FindFile(name: string) returns (r: Option<V>)
      requires Valid()
      modifies this`byName, this`byNameFlat, this`bySymbol, this`bySymbolFlat, this`byExtension, this`byExtensionFlat
      ensures Valid() && View() == old(View()) && byName == []
      ensures r == if name in View().files then Some(View().files[name]) else None
    {
      hide SymbolsOk, ExtensionsOk, FileMap, SymbolMap, ExtensionMap, Sorted, InOrder, OffsetsBelow, Less,
           FileLowerBound, Merge;
      EnsureFlat();
      FileAnswer(allValues, byNameFlat, name);
      var it := FileLowerBound(byNameFlat, name);
      r := if it == |byNameFlat| || byNameFlat[it].name != name then Option.None
           else Option.Some(allValues[byNameFlat[it].offset].value);
    }

    /** The file that declares the name, or an ancestor of it. */
    method FindSymbol(name: string) returns (r: Option<V>)
      requires Valid() && AntichainSet(View().symbols.Keys)
      modifies this
      ensures Valid() && View() == old(View())
      ensures AnswersSymbol(View().symbols, name, r)
    {
      hide FilesOk, ExtensionsOk, FileMap, SymbolMap, ExtensionMap, PartsOk, Less, SymbolUpperBound,
           AntichainSet, AnswersSymbol;
      EnsureFlat();
      r := FindSymbolOnlyFlat(name);
    }

    method FindSymbolOnlyFlat(name: string) returns (r: Option<V>)
      requires Valid() && bySymbol == [] && AntichainSet(View().symbols.Keys)
      ensures AnswersSymbol(View().symbols, name, r)
    {
      hide FilesOk, ExtensionsOk, FileMap, SymbolMap, ExtensionMap, PartsOk, Less, SymbolUpperBound,
           AntichainSet, AnswersSymbol;
      SymbolAnswer(allValues, bySymbolFlat, name);
      var iter := LastLessOrEqual(SymbolUpperBound(allValues, bySymbolFlat, Plain(name)));
      r := if iter < |bySymbolFlat| && IsSubSymbol(AsString(NamedOf(allValues, bySymbolFlat[iter])), name)
           then Option.Some(allValues[bySymbolFlat[iter].offset].value) else Option.None;
    }

    method FindExtension(containingType: string, number: int) returns (r: Option<V>)
      requires Valid()
      modifies this
      ensures Valid() && View() == old(View())
      ensures var key := (containingType, number);
              r == if key in View().extensions then Some(View().extensions[key]) else None
    {
      hide SymbolsOk, FilesOk, FileMap, SymbolMap, ExtensionMap, Sorted, InOrder, OffsetsBelow, Less,
           PairLess, ExtensionLowerBound;
      EnsureFlat();
      var key := (containingType, number);
      ExtensionAnswer(allValues, byExtensionFlat, key);
      var it := ExtensionLowerBound(byExtensionFlat, key);
      r := if it == |byExtensionFlat| || KeyOf(byExtensionFlat[it]) != key then Option.None
           else Option.Some(allValues[byExtensionFlat[it].offset].value);
    }
  }

  /**
   * Adding a file again, once a search has flattened the index, is refused; and yet the refused
   * value answers from then on.
   */
  method RejectedFileTakesOver<V>(first: V, second: V) returns (found: Option<V>, ok: bool, foundAfter: Option<V>)
    ensures found == Option.Some(first) && !ok && foundAfter == Option.Some(second)
  {
    hide FilesOk, SymbolsOk, ExtensionsOk, FileMap, SymbolMap, ExtensionMap, Merge, LateKeys, Stopped, Items;
    var file := FileProto("a.proto", "", [], [], [], []);
    var index := new DescriptorIndex<V>();
    NothingDeclared(index.View(), file, first);
    var _ := index.AddFile(file, first);
    found := index.FindFile("a.proto");
    ok := index.AddFile(file, second);
    foundAfter := index.FindFile("a.proto");
  }

  lemma NothingDeclared<V>(idx: Index<V>, file: FileProto, v: V)
    requires file == FileProto("a.proto", "", [], [], [], []) && file.name !in idx.files
    ensures IndexSpec.AddFile(idx, file, v) == Option.Some(idx.(files := idx.files[file.name := v]))
    ensures ValidateSymbolName(file.package) && NamesGiven(file)
  {
    assert Items(file) == [];
  }
}
