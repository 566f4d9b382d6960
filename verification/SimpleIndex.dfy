/** SimpleDescriptorDatabase::DescriptorIndex: three ordered maps. */
module SimpleIndex {
  import opened Options
  import opened Names
  import opened SortedSeq
  import opened SymbolSearch
  import opened IndexSpec

  function KeysOf<V>(s: seq<Entry<string, V>>): (r: seq<string>)
    ensures |r| == |s| && forall i :: 0 <= i < |s| ==> r[i] == s[i].key
  {
    seq(|s|, i requires 0 <= i < |s| => s[i].key)
  }

  lemma LessIsStrict()
    ensures StrictOrder(Less)
  {
    forall a, b | true ensures !Less(a, a) && (Less(a, b) || a == b || Less(b, a)) {
      LessIrreflexive(a);
      LessTotal(a, b);
    }
    forall a, b, c | Less(a, b) && Less(b, c) ensures Less(a, c) { LessTransitive(a, b, c); }
  }

  /** The table of symbols in the order of their names. */
  ghost predicate TableOk<V>(s: seq<Entry<string, V>>) {
    Sorted(s, Less) && SortedKeys(KeysOf(s)) && ValidKeys(KeysOf(s))
  }

  lemma TableKeys<V>(s: seq<Entry<string, V>>, k: string)
    ensures k in AsMap(s) <==> k in KeysOf(s)
  {
    AsMapKeys(s, k);
    if HasKey(s, k) {
      var i :| 0 <= i < |s| && s[i].key == k;
      assert KeysOf(s)[i] == k;
    }
    if k in KeysOf(s) {
      var i :| 0 <= i < |KeysOf(s)| && KeysOf(s)[i] == k;
      assert s[i].key == k;
    }
  }

  lemma AcceptedIsValid<V>(s: seq<Entry<string, V>>, name: string)
    requires TableOk(s) && Accepts(KeysOf(s), name)
    ensures ValidateSymbolName(name)
  {
  }

  lemma NotAmong(keys: seq<string>, name: string)
    requires SortedKeys(keys) && (Found(keys, name) >= |keys| || keys[Found(keys, name)] != name)
    ensures name !in keys
  {
    FoundIsPredecessor(keys, name);
    var i := Found(keys, name);
    forall j | 0 <= j < |keys| ensures keys[j] != name {
      if j < i { LessAsymmetric(keys[j], keys[i]); }
    }
  }

  /** A new symbol at its place in the order. */
  lemma InsertSymbol<V>(s: seq<Entry<string, V>>, name: string, v: V)
    requires TableOk(s) && ValidateSymbolName(name) && name !in KeysOf(s)
    ensures var s' := InsertAt(s, UpperBound(KeysOf(s), name), Entry(name, v));
            TableOk(s') && AsMap(s') == AsMap(s)[name := v] && name !in AsMap(s)
  {
    LessIsStrict();
    InsertedKeyInOrder(KeysOf(s), name);
    InsertedTable(s, name, v);
    hide StrictOrder, SortedKeys, ValidKeys;
    TableKeys(s, name);
    AsMapKeys(s, name);
    InsertIsUpdate(s, UpperBound(KeysOf(s), name), Entry(name, v));
  }

  lemma InsertedTable<V>(s: seq<Entry<string, V>>, name: string, v: V)
    requires TableOk(s) && ValidateSymbolName(name)
    requires SortedKeys(InsertAt(KeysOf(s), UpperBound(KeysOf(s), name), name))
    ensures TableOk(InsertAt(s, UpperBound(KeysOf(s), name), Entry(name, v)))
  {
    hide Less, ValidateSymbolName, UpperBound, InsertAt, SortedKeys;
    var p := UpperBound(KeysOf(s), name);
    var s' := InsertAt(s, p, Entry(name, v));
    KeysOfInsert(s, p, Entry(name, v));
    SortedByKeys(s');
    forall i | 0 <= i < |s'| ensures ValidateSymbolName(KeysOf(s')[i]) {
      if i != p { assert KeysOf(s')[i] == KeysOf(s)[if i < p then i else i - 1]; }
    }
  }

  lemma KeysOfInsert<V>(s: seq<Entry<string, V>>, p: nat, e: Entry<string, V>)
    requires p <= |s|
    ensures KeysOf(InsertAt(s, p, e)) == InsertAt(KeysOf(s), p, e.key)
  {
  }

  lemma SortedByKeys<V>(s: seq<Entry<string, V>>)
    requires SortedKeys(KeysOf(s))
    ensures Sorted(s, Less)
  {
    forall i, j | 0 <= i < j < |s| ensures Less(s[i].key, s[j].key) {
      assert Less(KeysOf(s)[i], KeysOf(s)[j]);
    }
  }

  /** The predecessor of a name, if it is an ancestor, answers for the whole table. */
  lemma PredecessorAnswers<V>(s: seq<Entry<string, V>>, name: string)
    requires TableOk(s) && AntichainSet(AsMap(s).Keys)
    ensures var i := Found(KeysOf(s), name);
            AnswersSymbol(AsMap(s), name,
                          if i < |s| && IsSubSymbol(s[i].key, name) then Option.Some(s[i].value) else Option.None)
  {
    LessIsStrict();
    var i := Found(KeysOf(s), name);
    TableIsAntichain(s);
    forall k | k in AsMap(s) && IsSubSymbol(k, name)
      ensures i < |s| && k == s[i].key && IsSubSymbol(s[i].key, name) && AsMap(s)[k] == s[i].value
    {
      AsMapKeys(s, k);
      var j :| 0 <= j < |s| && s[j].key == k;
      SearchFindsTheAncestor(KeysOf(s), name, j);
      AsMapAt(s, Less, j);
    }
    if i < |s| { AsMapAt(s, Less, i); }
  }

  lemma TableIsAntichain<V>(s: seq<Entry<string, V>>)
    requires TableOk(s) && AntichainSet(AsMap(s).Keys)
    ensures Antichain(KeysOf(s))
  {
    var keys := KeysOf(s);
    forall a, b | 0 <= a < |keys| && 0 <= b < |keys| && a != b ensures !IsSubSymbol(keys[a], keys[b]) {
      TableKeys(s, keys[a]);
      TableKeys(s, keys[b]);
      if a < b { LessAsymmetric(keys[a], keys[b]); } else { LessAsymmetric(keys[b], keys[a]); }
    }
  }

  /** What the neighbour check rejects does conflict. */
  lemma RejectedConflicts<V>(s: seq<Entry<string, V>>, name: string)
    requires TableOk(s) && AntichainSet(AsMap(s).Keys) && !Accepts(KeysOf(s), name)
    ensures !(ValidateSymbolName(name) && Unrelated(AsMap(s).Keys, name))
  {
    TableIsAntichain(s);
    TwoNeighboursSuffice(KeysOf(s), name);
    if ValidateSymbolName(name) {
      var i :| 0 <= i < |KeysOf(s)| && (IsSubSymbol(KeysOf(s)[i], name) || IsSubSymbol(name, KeysOf(s)[i]));
      TableKeys(s, KeysOf(s)[i]);
    }
  }

  class DescriptorIndex<V> {
    var byName: map<string, V>
    var bySymbol: seq<Entry<string, V>>
    var byExtension: map<(string, int), V>

    ghost predicate Valid()
      reads this
    {
      TableOk(bySymbol)
    }

    ghost function View(): Index<V>
      reads this
    {
      Index(byName, AsMap(bySymbol), byExtension)
    }

    constructor ()
      ensures Valid() && View() == Index(map[], map[], map[])
    {
      byName, bySymbol, byExtension := map[], [], map[];
    }

    /**
     * Adds a symbol of valid characters unless a neighbour in the order is an ancestor or a
     * descendant of it; an empty index takes every one.
     */
    method AddSymbol(name: string, value: V) returns (ok: bool)
      requires Valid()
      modifies this`bySymbol
      ensures Valid() && (ok <==> Accepts(KeysOf(old(bySymbol)), name))
      ensures ok ==> name !in old(View()).symbols
      ensures ok ==> View() == old(View()).(symbols := old(View()).symbols[name := value])
      ensures !ok ==> bySymbol == old(bySymbol)
      ensures ok || old(bySymbol) == [] ==>
                (ok <==> forall i :: 0 <= i < |name| ==>
                   '0' <= name[i] <= '9' || 'A' <= name[i] <= 'Z' || 'a' <= name[i] <= 'z' || name[i] in "_.")
    {
      hide Less, Sorted, SortedKeys, ValidKeys, ValidateSymbolName, AsMap;
      ValidNames(name);
      if !ValidateSymbolName(name) { return false; }
      var iter := LastLessOrEqual(UpperBound(KeysOf(bySymbol), name));
      if iter < |bySymbol| {
        if IsSubSymbol(bySymbol[iter].key, name) { return false; }
        iter := iter + 1;
        if iter < |bySymbol| && IsSubSymbol(name, bySymbol[iter].key) { return false; }
      }
      NotAmong(KeysOf(bySymbol), name);
      InsertSymbol(bySymbol, name, value);
      bySymbol := InsertAt(bySymbol, UpperBound(KeysOf(bySymbol), name), Entry(name, value));
      return true;
    }

    method AddExtension(field: ExtensionProto, value: V) returns (ok: bool)
      modifies this`byExtension
      ensures var e := ExtensionItem(field.extendee, field.number);
              && (ok <==> !(FullyQualified(field.extendee) && ExtensionKey(e) in old(byExtension)))
              && byExtension == if ok && FullyQualified(field.extendee)
                                then old(byExtension)[ExtensionKey(e) := value] else old(byExtension)
    {
      if field.extendee != "" && field.extendee[0] == '.' {
        var key := (field.extendee[1..], field.number);
        if key in byExtension { return false; }
        byExtension := byExtension[key := value];
      }
      return true;
    }

    /** AddSymbol, following the specification: what it rejects is specified as a conflict. */
    method AddSymbolItem(name: string, value: V, ghost spec: Option<Index<V>>) returns (ok: bool)
      requires Valid() && Tracks(spec, View())
      modifies this`bySymbol
      ensures Valid()
      ensures if ok then Tracks(AddItem(spec, SymbolItem(name), value), View())
              else TracksRefused(spec, SymbolItem(name), {}, value, View())
    {
      hide Tracks, TracksRefused, AddItem, TableOk, AsMap, Accepts, AntichainSet, Unrelated;
      ghost var view := View();
      ok := AddSymbol(name, value);
      if ok {
        AcceptedIsValid(old(bySymbol), name);
        TracksSymbol(spec, view, name, value);
      } else {
        if AntichainSet(view.symbols.Keys) { RejectedConflicts(old(bySymbol), name); }
        RejectsSymbol(spec, view, name, value);
        OneRefused(spec, SymbolItem(name), value, {}, view);
      }
    }

    method AddExtensionItem(field: ExtensionProto, value: V, ghost spec: Option<Index<V>>) returns (ok: bool)
      requires Valid() && Tracks(spec, View())
      modifies this`byExtension
      ensures var e := ExtensionItem(field.extendee, field.number);
              if ok then Tracks(AddItem(spec, e, value), View()) else TracksRefused(spec, e, {}, value, View())
    {
      hide Tracks, TracksRefused, AddItem, TableOk, AsMap;
      ghost var view, e := View(), ExtensionItem(field.extendee, field.number);
      ok := AddExtension(field, value);
      if ok {
        TracksExtension(spec, view, e, value);
      } else {
        RejectsExtension(spec, view, e, value);
        OneRefused(spec, e, value, {}, view);
      }
    }

    /** All declarations of extensions inside a message. */
    method AddNestedExtensions(message: MessageProto, value: V, ghost spec: Option<Index<V>>) returns (ok: bool)
      requires Valid() && Tracks(spec, View())
      modifies this`byExtension
      ensures if ok then Tracks(AddItems(spec, NestedItems(message), value), View())
              else Stopped(spec, NestedItems(message), value, {}, View())
      decreases message
    {
      hide Tracks, TracksRefused, Stopped, AddItem, AddItems, TableOk, AsMap;
      ghost var front, items := AllNestedItems(message.nested), ExtensionItems(message.extensions);
      AddNothing(spec, value);
      for i := 0 to |message.nested|
        invariant Tracks(AddItems(spec, AllNestedItems(message.nested[..i]), value), View())
      {
        ghost var before, inside := AllNestedItems(message.nested[..i]), NestedItems(message.nested[i]);
        assert message.nested[..i + 1][..i] == message.nested[..i];
        AddItemsAppend(spec, before, inside, value);
        ok := AddNestedExtensions(message.nested[i], value, AddItems(spec, before, value));
        if !ok {
          NestedPrefix(message.nested, i + 1);
          StoppedLater(spec, before, inside, value, {}, View());
          StoppedEarlier(spec, before + inside, front + items, value, {}, View());
          return;
        }
      }
      assert message.nested[..|message.nested|] == message.nested;
      for j := 0 to |message.extensions|
        invariant Tracks(AddItems(spec, (front + items)[..|front| + j], value), View())
      {
        ghost var before := (front + items)[..|front| + j];
        OneMoreItem(spec, front + items, |front| + j, value);
        ok := AddExtensionItem(message.extensions[j], value, AddItems(spec, before, value));
        if !ok {
          StoppedNext(spec, before, items[j], front + items, value, {}, View());
          return;
        }
      }
      assert (front + items)[..|front + items|] == front + items;
      ok := true;
    }

    method AddMessages(path: string, ms: seq<MessageProto>, value: V, ghost spec: Option<Index<V>>) returns (ok: bool)
      requires Valid() && Tracks(spec, View())
      modifies this`bySymbol, this`byExtension
      ensures Valid()
      ensures if ok then Tracks(AddItems(spec, MessageItems(path, ms), value), View())
              else Stopped(spec, MessageItems(path, ms), value, {}, View())
    {
      hide Tracks, TracksRefused, Stopped, AddItem, AddItems, TableOk, AsMap;
      AddNothing(spec, value);
      for i := 0 to |ms|
        invariant Valid()
        invariant Tracks(AddItems(spec, MessageItems(path, ms[..i]), value), View())
      {
        MessageStep(spec, path, ms, i, value);
        ghost var spec1 := AddItems(spec, MessageItems(path, ms[..i]), value);
        ok := AddSymbolItem(path + ms[i].name, value, spec1);
        if ok { ok := AddNestedExtensions(ms[i], value, AddItem(spec1, SymbolItem(path + ms[i].name), value)); }
        if !ok {
          MessageStopped(spec, path, ms, i, value, {}, View());
          return;
        }
      }
      assert ms[..|ms|] == ms;
      ok := true;
    }

    method AddNames(path: string, names: seq<string>, value: V, ghost spec: Option<Index<V>>) returns (ok: bool)
      requires Valid() && Tracks(spec, View())
      modifies this`bySymbol
      ensures Valid()
      ensures if ok then Tracks(AddItems(spec, NameItems(path, names), value), View())
              else Stopped(spec, NameItems(path, names), value, {}, View())
    {
      hide Tracks, TracksRefused, Stopped, AddItem, AddItems, TableOk, AsMap;
      ghost var items := NameItems(path, names);
      AddNothing(spec, value);
      for i := 0 to |names|
        invariant Valid()
        invariant Tracks(AddItems(spec, items[..i], value), View())
      {
        OneMoreItem(spec, items, i, value);
        ok := AddSymbolItem(path + names[i], value, AddItems(spec, items[..i], value));
        if !ok {
          StoppedNext(spec, items[..i], items[i], items, value, {}, View());
          return;
        }
      }
      assert items[..|names|] == items;
      ok := true;
    }

    method AddFileExtensions(path: string, es: seq<ExtensionProto>, value: V, ghost spec: Option<Index<V>>)
      returns (ok: bool)
      requires Valid() && Tracks(spec, View())
      modifies this`bySymbol, this`byExtension
      ensures Valid()
      ensures if ok then Tracks(AddItems(spec, FileExtensionItems(path, es), value), View())
              else Stopped(spec, FileExtensionItems(path, es), value, {}, View())
    {
      hide Tracks, TracksRefused, Stopped, AddItem, AddItems, TableOk, AsMap;
      AddNothing(spec, value);
      for i := 0 to |es|
        invariant Valid()
        invariant Tracks(AddItems(spec, FileExtensionItems(path, es[..i]), value), View())
      {
        ExtensionStep(spec, path, es, i, value);
        ghost var spec1 := AddItems(spec, FileExtensionItems(path, es[..i]), value);
        ok := AddSymbolItem(path + es[i].name, value, spec1);
        if ok { ok := AddExtensionItem(es[i], value, AddItem(spec1, SymbolItem(path + es[i].name), value)); }
        if !ok {
          ExtensionStopped(spec, path, es, i, value, {}, View());
          return;
        }
      }
      assert es[..|es|] == es;
      ok := true;
    }

    /**
     * Adds everything a file declares. What is specified to be free of conflicts is added exactly;
     * what conflicts is rejected, unless the conflict is in the blind spot of the neighbour check,
     * and then the symbols are no antichain any more. A rejection changes nothing exactly when the
     * file name was taken; otherwise the name and the declarations before the conflict stay.
     */
    method AddFile(file: FileProto, value: V) returns (ok: bool)
      requires Valid() && AntichainSet(View().symbols.Keys)
      modifies this
      ensures Valid()
      ensures var spec := IndexSpec.AddFile(old(View()), file, value);
              && (spec.Some? ==> ok && View() == spec.value && AntichainSet(View().symbols.Keys))
              && (ok && spec.None? ==> !AntichainSet(View().symbols.Keys))
      ensures !ok ==> (View() == old(View()) <==> file.name in old(View()).files)
      ensures !ok && file.name !in old(View()).files ==>
                && View().files == old(View()).files[file.name := value]
                && Stopped(Some(old(View()).(files := View().files)), Items(file), value, {}, View())
    {
      hide AddItem, AddItems, TableOk, AsMap, AntichainSet, MessageItems, FileExtensionItems, NameItems, AllNestedItems;
      hide Tracks, Stopped, Items;
      if file.name in byName { return false; }
      byName := byName[file.name := value];
      var path := if file.package == "" then "" else file.package + ".";
      ghost var a, b := MessageItems(path, file.messages), NameItems(path, file.enums);
      ghost var c, d := FileExtensionItems(path, file.extensions), NameItems(path, file.services);
      ghost var spec := Some(View());
      TracksItself(View());
      AddItemsInGroups(spec, file, value);
      AddNothing(spec, value);
      ok := AddMessages(path, file.messages, value, spec);
      if !ok { FileStopped(spec, file, [], a, value, {}, View()); return; }
      ok := AddNames(path, file.enums, value, AddItems(spec, a, value));
      if !ok { FileStopped(spec, file, a, b, value, {}, View()); return; }
      ok := AddFileExtensions(path, file.extensions, value, AddItems(spec, a + b, value));
      if !ok { FileStopped(spec, file, a + b, c, value, {}, View()); return; }
      ok := AddNames(path, file.services, value, AddItems(spec, a + b + c, value));
      if !ok { FileStopped(spec, file, a + b + c, d, value, {}, View()); return; }
      TracksAll(AddItems(spec, Items(file), value), View());
    }

    method FindFile(name: string) returns (r: Option<V>)
      ensures r == if name in View().files then Some(View().files[name]) else None
    {
      r := if name in byName then Some(byName[name]) else None;
    }

    /** The file that declares the name, or an ancestor of it. */
    method FindSymbol(name: string) returns (r: Option<V>)
      requires Valid() && AntichainSet(View().symbols.Keys)
      ensures AnswersSymbol(View().symbols, name, r)
    {
      hide TableOk, AsMap, AntichainSet;
      TableIsSorted(bySymbol);
      PredecessorAnswers(bySymbol, name);
      var iter := LastLessOrEqual(UpperBound(KeysOf(bySymbol), name));
      r := if iter < |bySymbol| && IsSubSymbol(bySymbol[iter].key, name) then Some(bySymbol[iter].value) else None;
    }

    method FindExtension(containingType: string, number: int) returns (r: Option<V>)
      ensures var key := (containingType, number);
              r == if key in View().extensions then Some(View().extensions[key]) else None
    {
      r := if (containingType, number) in byExtension then Some(byExtension[(containingType, number)]) else None;
    }
  }

  lemma TableIsSorted<V>(s: seq<Entry<string, V>>)
    requires TableOk(s)
    ensures SortedKeys(KeysOf(s))
  {
  }
}
