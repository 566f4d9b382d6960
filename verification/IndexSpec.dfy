/** What a descriptor index is for: which files declare which names, as three plain maps. */
module IndexSpec {
  import opened Options
  import opened Names

  datatype ExtensionProto = ExtensionProto(name: string, extendee: string, number: int)

  datatype MessageProto = MessageProto(name: string, nested: seq<MessageProto>, extensions: seq<ExtensionProto>)

  datatype FileProto = FileProto(name: string, package: string, messages: seq<MessageProto>,
                                 enums: seq<string>, extensions: seq<ExtensionProto>, services: seq<string>)

  datatype Index<V> = Index(files: map<string, V>, symbols: map<string, V>, extensions: map<(string, int), V>)

  /** One declaration of a file: a symbol by its full name, or an extension. */
  datatype Item = SymbolItem(name: string) | ExtensionItem(extendee: string, number: int)

  function Path(package: string): string { if package == "" then "" else package + "." }

  // ---------------------------------------------------------------- the declarations of a file, in order

  function ExtensionItems(es: seq<ExtensionProto>): (r: seq<Item>)
    ensures |r| == |es|
  {
    seq(|es|, i requires 0 <= i < |es| => ExtensionItem(es[i].extendee, es[i].number))
  }

  /** The extensions anywhere inside a message, innermost messages first. */
  function NestedItems(m: MessageProto): seq<Item>
    decreases m
  {
    AllNestedItems(m.nested) + ExtensionItems(m.extensions)
  }

  function AllNestedItems(ms: seq<MessageProto>): seq<Item>
    decreases ms
  {
    if ms == [] then [] else AllNestedItems(ms[..|ms| - 1]) + NestedItems(ms[|ms| - 1])
  }

  function MessageItems(path: string, ms: seq<MessageProto>): seq<Item> {
    if ms == [] then []
    else MessageItems(path, ms[..|ms| - 1]) + [SymbolItem(path + ms[|ms| - 1].name)] + NestedItems(ms[|ms| - 1])
  }

  function NameItems(path: string, names: seq<string>): (r: seq<Item>)
    ensures |r| == |names|
  {
    seq(|names|, i requires 0 <= i < |names| => SymbolItem(path + names[i]))
  }

  function FileExtensionItems(path: string, es: seq<ExtensionProto>): seq<Item> {
    if es == [] then []
    else FileExtensionItems(path, es[..|es| - 1])
         + [SymbolItem(path + es[|es| - 1].name), ExtensionItem(es[|es| - 1].extendee, es[|es| - 1].number)]
  }

  function Items(file: FileProto): seq<Item> {
    var path := Path(file.package);
    MessageItems(path, file.messages) + NameItems(path, file.enums)
    + FileExtensionItems(path, file.extensions) + NameItems(path, file.services)
  }

  // ---------------------------------------------------------------- adding them one by one

  ghost predicate Unrelated(keys: set<string>, name: string) {
    forall k :: k in keys ==> !IsSubSymbol(k, name) && !IsSubSymbol(name, k)
  }

  ghost predicate AntichainSet(keys: set<string>) {
    forall a, b :: a in keys && b in keys && a != b ==> !IsSubSymbol(a, b)
  }

  predicate FullyQualified(extendee: string) { extendee != "" && extendee[0] == '.' }

  /**
   * The index with one declaration added; None when it conflicts. An extendee that is not fully
   * qualified is not indexed.
   */
  ghost function AddItem<V>(idx: Option<Index<V>>, item: Item, v: V): Option<Index<V>> {
    match idx
    case None => None
    case Some(w) =>
      match item
      case SymbolItem(name) =>
        if ValidateSymbolName(name) && Unrelated(w.symbols.Keys, name) then Some(w.(symbols := w.symbols[name := v]))
        else None
      case ExtensionItem(extendee, number) =>
        if !FullyQualified(extendee) then Some(w)
        else if (extendee[1..], number) in w.extensions then None
        else Some(w.(extensions := w.extensions[(extendee[1..], number) := v]))
  }

  ghost function AddItems<V>(idx: Option<Index<V>>, items: seq<Item>, v: V): Option<Index<V>> {
    if items == [] then idx else AddItem(AddItems(idx, items[..|items| - 1], v), items[|items| - 1], v)
  }

  ghost function AddFile<V>(idx: Index<V>, file: FileProto, v: V): Option<Index<V>> {
    if file.name in idx.files then None
    else AddItems(Some(idx.(files := idx.files[file.name := v])), Items(file), v)
  }

  lemma {:induction false} AddItemsAppend<V>(idx: Option<Index<V>>, a: seq<Item>, b: seq<Item>, v: V)
    ensures AddItems(idx, a + b, v) == AddItems(AddItems(idx, a, v), b, v)
    decreases |b|
  {
    if b == [] {
      assert a + b == a;
    } else {
      assert (a + b)[..|a + b| - 1] == a + b[..|b| - 1];
      AddItemsAppend(idx, a, b[..|b| - 1], v);
    }
  }

  lemma {:induction false} ConflictStays<V>(items: seq<Item>, v: V)
    ensures AddItems<V>(None, items, v) == None
  {
    if items != [] { ConflictStays(items[..|items| - 1], v); }
  }

  // ---------------------------------------------------------------- the same, declared

  function SymbolsOf(items: seq<Item>): (r: set<string>) {
    set i | 0 <= i < |items| && items[i].SymbolItem? :: items[i].name
  }

  predicate Indexed(item: Item) { item.ExtensionItem? && FullyQualified(item.extendee) }

  function ExtensionKey(item: Item): (string, int)
    requires Indexed(item)
  {
    (item.extendee[1..], item.number)
  }

  function ExtensionsOf(items: seq<Item>): (r: set<(string, int)>) {
    set i | 0 <= i < |items| && Indexed(items[i]) :: ExtensionKey(items[i])
  }

  function AllTo<K, V>(keys: set<K>, v: V): (r: map<K, V>)
    ensures r.Keys == keys
  {
    map k | k in keys :: v
  }

  /** The declared names are valid, unrelated to the names there are, and unrelated to each other. */
  ghost predicate SymbolsFree(keys: set<string>, items: seq<Item>) {
    && (forall i :: 0 <= i < |items| && items[i].SymbolItem? ==>
          ValidateSymbolName(items[i].name) && Unrelated(keys, items[i].name))
    && (forall i, j :: 0 <= i < j < |items| && items[i].SymbolItem? && items[j].SymbolItem? ==>
          Unrelated({items[i].name}, items[j].name))
  }

  /** The declared extensions are new, and no two have the same extendee and number. */
  ghost predicate ExtensionsFree(keys: set<(string, int)>, items: seq<Item>) {
    && (forall i :: 0 <= i < |items| && Indexed(items[i]) ==> ExtensionKey(items[i]) !in keys)
    && (forall i, j :: 0 <= i < j < |items| && Indexed(items[i]) && Indexed(items[j]) ==>
          ExtensionKey(items[i]) != ExtensionKey(items[j]))
  }

  lemma SymbolsFreeSplits(keys: set<string>, items: seq<Item>)
    requires items != []
    ensures var front, last := items[..|items| - 1], items[|items| - 1];
            && (SymbolsFree(keys, items) <==>
                  (SymbolsFree(keys, front)
                   && (last.SymbolItem? ==>
                         ValidateSymbolName(last.name) && Unrelated(keys + SymbolsOf(front), last.name))))
            && SymbolsOf(items) == SymbolsOf(front) + (if last.SymbolItem? then {last.name} else {})
  {
    hide ValidateSymbolName, IsSubSymbol;
    var n := |items| - 1;
    var front, last := items[..n], items[n];
    assert forall i :: 0 <= i < n ==> front[i] == items[i];
    if last.SymbolItem? {
      if Unrelated(keys + SymbolsOf(front), last.name) {
        assert Unrelated(keys, last.name);
        forall i | 0 <= i < n && items[i].SymbolItem? ensures Unrelated({items[i].name}, last.name) {
          assert front[i].name in SymbolsOf(front);
        }
      }
      if SymbolsFree(keys, items) {
        forall k | k in keys + SymbolsOf(front) ensures !IsSubSymbol(k, last.name) && !IsSubSymbol(last.name, k) {
          if k !in keys {
            var i :| 0 <= i < n && front[i].SymbolItem? && front[i].name == k;
            assert Unrelated({items[i].name}, last.name);
          }
        }
      }
    }
  }

  lemma ExtensionsFreeSplits(keys: set<(string, int)>, items: seq<Item>)
    requires items != []
    ensures var front, last := items[..|items| - 1], items[|items| - 1];
            && (ExtensionsFree(keys, items) <==>
                  (ExtensionsFree(keys, front)
                   && (Indexed(last) ==> ExtensionKey(last) !in keys + ExtensionsOf(front))))
            && ExtensionsOf(items) == ExtensionsOf(front) + (if Indexed(last) then {ExtensionKey(last)} else {})
  {
    hide Indexed, ExtensionKey;
    var n := |items| - 1;
    var front, last := items[..n], items[n];
    assert forall i :: 0 <= i < n ==> front[i] == items[i];
    if Indexed(last) && ExtensionKey(last) !in keys + ExtensionsOf(front) {
      forall i | 0 <= i < n && Indexed(items[i]) ensures ExtensionKey(items[i]) != ExtensionKey(last) {
        assert ExtensionKey(front[i]) in ExtensionsOf(front);
      }
    }
  }

  ghost predicate NoConflict<V>(w: Index<V>, items: seq<Item>) {
    SymbolsFree(w.symbols.Keys, items) && ExtensionsFree(w.extensions.Keys, items)
  }

  function WithItems<V>(w: Index<V>, items: seq<Item>, v: V): Index<V> {
    Index(w.files, w.symbols + AllTo(SymbolsOf(items), v), w.extensions + AllTo(ExtensionsOf(items), v))
  }

  ghost function Declared<V>(w: Index<V>, items: seq<Item>, v: V): Option<Index<V>> {
    if NoConflict(w, items) then Some(WithItems(w, items, v)) else None
  }

  lemma AllToGrows<K, V>(m: map<K, V>, keys: set<K>, k: K, v: V)
    ensures m + AllTo(keys + {k}, v) == (m + AllTo(keys, v))[k := v]
  {
  }

  lemma DeclaredOneMore<V>(w: Index<V>, items: seq<Item>, v: V)
    requires items != []
    ensures Declared(w, items, v) == AddItem(Declared(w, items[..|items| - 1], v), items[|items| - 1], v)
  {
    hide SymbolsFree, ExtensionsFree, SymbolsOf, ExtensionsOf, Unrelated, ValidateSymbolName, FullyQualified, AllTo;
    var front, last := items[..|items| - 1], items[|items| - 1];
    SymbolsFreeSplits(w.symbols.Keys, items);
    ExtensionsFreeSplits(w.extensions.Keys, items);
    var S, E := SymbolsOf(front), ExtensionsOf(front);
    assert S + {} == S && E + {} == E;
    assert (w.symbols + AllTo(S, v)).Keys == w.symbols.Keys + S;
    assert (w.extensions + AllTo(E, v)).Keys == w.extensions.Keys + E;
    if last.SymbolItem? {
      AllToGrows(w.symbols, S, last.name, v);
    } else if Indexed(last) {
      AllToGrows(w.extensions, E, ExtensionKey(last), v);
    }
  }

  /** Adding in order succeeds exactly when nothing conflicts, and then the order does not matter. */
  lemma {:induction false} AddItemsDeclared<V>(w: Index<V>, items: seq<Item>, v: V)
    ensures AddItems(Some(w), items, v) == Declared(w, items, v)
  {
    if items == [] {
      assert w.symbols + AllTo(SymbolsOf(items), v) == w.symbols;
      assert w.extensions + AllTo(ExtensionsOf(items), v) == w.extensions;
    } else {
      AddItemsDeclared(w, items[..|items| - 1], v);
      DeclaredOneMore(w, items, v);
    }
  }

  // ---------------------------------------------------------------- what a file declares

  /** The extension is declared in the message, or in one nested in it at any depth. */
  ghost predicate InMessage(m: MessageProto, e: ExtensionProto) {
    e in m.extensions || exists i :: 0 <= i < |m.nested| && InMessage(m.nested[i], e)
  }

  lemma {:induction false} NestedAre(m: MessageProto, item: Item)
    ensures item in NestedItems(m) <==>
              exists e :: InMessage(m, e) && item == ExtensionItem(e.extendee, e.number)
    decreases m
  {
    AllNestedAre(m.nested, item);
    var own := ExtensionItems(m.extensions);
    assert item in own <==> exists e :: e in m.extensions && item == ExtensionItem(e.extendee, e.number) by {
      if item in own { var k :| 0 <= k < |own| && own[k] == item; assert m.extensions[k] in m.extensions; }
      if e :| e in m.extensions && item == ExtensionItem(e.extendee, e.number) {
        var k :| 0 <= k < |m.extensions| && m.extensions[k] == e;
        assert own[k] == item;
      }
    }
  }

  lemma {:induction false} AllNestedAre(ms: seq<MessageProto>, item: Item)
    ensures item in AllNestedItems(ms) <==>
              exists i, e :: 0 <= i < |ms| && InMessage(ms[i], e) && item == ExtensionItem(e.extendee, e.number)
    decreases ms
  {
    hide NestedItems, InMessage;
    if ms != [] {
      var last := |ms| - 1;
      AllNestedAre(ms[..last], item);
      NestedAre(ms[last], item);
      assert forall i :: 0 <= i < last ==> ms[..last][i] == ms[i];
    }
  }

  lemma {:induction false} MessagesAre(path: string, ms: seq<MessageProto>, item: Item)
    ensures item in MessageItems(path, ms) <==>
              item in AllNestedItems(ms) || exists i :: 0 <= i < |ms| && item == SymbolItem(path + ms[i].name)
  {
    hide NestedItems;
    if ms != [] {
      var last := |ms| - 1;
      MessagesAre(path, ms[..last], item);
      var before, more := MessageItems(path, ms[..last]), NestedItems(ms[last]);
      assert MessageItems(path, ms) == before + [SymbolItem(path + ms[last].name)] + more;
      assert AllNestedItems(ms) == AllNestedItems(ms[..last]) + more;
      hide MessageItems, AllNestedItems;
      assert forall i :: 0 <= i < last ==> ms[..last][i] == ms[i];
    }
  }

  lemma {:induction false} FileExtensionsAre(path: string, es: seq<ExtensionProto>, item: Item)
    ensures item in FileExtensionItems(path, es) <==>
              exists i :: 0 <= i < |es| && IsExtension(path, es[i], item)
  {
    if es != [] {
      var last := |es| - 1;
      FileExtensionsAre(path, es[..last], item);
      assert forall i :: 0 <= i < last ==> es[..last][i] == es[i];
      assert item in FileExtensionItems(path, es) <==>
        item in FileExtensionItems(path, es[..last]) || IsExtension(path, es[last], item);
    }
  }

  /** The two declarations of an extension at the top of a file: its name, and itself. */
  predicate IsExtension(path: string, e: ExtensionProto, item: Item) {
    item == SymbolItem(path + e.name) || item == ExtensionItem(e.extendee, e.number)
  }

  lemma NamesAre(path: string, names: seq<string>, item: Item)
    ensures item in NameItems(path, names) <==> exists i :: 0 <= i < |names| && item == SymbolItem(path + names[i])
  {
    var items := NameItems(path, names);
    if i :| 0 <= i < |names| && item == SymbolItem(path + names[i]) { assert items[i] == item; }
  }

  /** A full name is declared by a message, enum, extension or service at the top of the file, in its package. */
  lemma DeclaredSymbols(file: FileProto, name: string)
    ensures name in SymbolsOf(Items(file)) <==>
              var prefix := if file.package == "" then "" else file.package + ".";
              || (exists i :: 0 <= i < |file.messages| && name == prefix + file.messages[i].name)
              || (exists i :: 0 <= i < |file.enums| && name == prefix + file.enums[i])
              || (exists i :: 0 <= i < |file.extensions| && name == prefix + file.extensions[i].name)
              || (exists i :: 0 <= i < |file.services| && name == prefix + file.services[i])
  {
    hide InMessage, AllNestedItems, MessageItems, NameItems, FileExtensionItems;
    var path, items, item := Path(file.package), Items(file), SymbolItem(name);
    MessagesAre(path, file.messages, item);
    AllNestedAre(file.messages, item);
    NamesAre(path, file.enums, item);
    FileExtensionsAre(path, file.extensions, item);
    NamesAre(path, file.services, item);
    assert name in SymbolsOf(items) <==> item in items by {
      if item in items { var i :| 0 <= i < |items| && items[i] == item; }
    }
  }

  /** An extension is declared at any depth of the file, of a type given by its full name after a dot. */
  lemma DeclaredExtensions(file: FileProto, containingType: string, number: int)
    ensures (containingType, number) in ExtensionsOf(Items(file)) <==>
              exists e: ExtensionProto :: e.extendee == "." + containingType && e.number == number
                && (e in file.extensions || exists i :: 0 <= i < |file.messages| && InMessage(file.messages[i], e))
  {
    hide InMessage, AllNestedItems, MessageItems, NameItems, FileExtensionItems;
    var path, items, item := Path(file.package), Items(file), ExtensionItem("." + containingType, number);
    MessagesAre(path, file.messages, item);
    AllNestedAre(file.messages, item);
    NamesAre(path, file.enums, item);
    FileExtensionsAre(path, file.extensions, item);
    NamesAre(path, file.services, item);
    assert (containingType, number) in ExtensionsOf(items) <==> item in items by {
      if item in items { var i :| 0 <= i < |items| && items[i] == item; assert ExtensionKey(item).0 == containingType; }
      if (containingType, number) in ExtensionsOf(items) {
        var i :| 0 <= i < |items| && Indexed(items[i]) && ExtensionKey(items[i]) == (containingType, number);
        assert items[i].extendee == "." + items[i].extendee[1..];
      }
    }
    if e: ExtensionProto :| e in file.extensions && e.extendee == item.extendee && e.number == item.number {
      var k :| 0 <= k < |file.extensions| && file.extensions[k] == e;
    }
  }

  /** Adding a file maps its name and what it declares to its value and leaves every other answer. */
  lemma FileAdded<V>(idx: Index<V>, file: FileProto, v: V)
    requires AddFile(idx, file, v).Some?
    ensures var now := AddFile(idx, file, v).value;
            && file.name !in idx.files && now.files == idx.files[file.name := v]
            && (forall name :: name in now.symbols <==> name in idx.symbols || name in SymbolsOf(Items(file)))
            && (forall name :: name in now.symbols ==>
                  now.symbols[name] == if name in SymbolsOf(Items(file)) then v else idx.symbols[name])
            && (forall key :: key in now.extensions <==> key in idx.extensions || key in ExtensionsOf(Items(file)))
            && (forall key :: key in now.extensions ==>
                  now.extensions[key] == if key in ExtensionsOf(Items(file)) then v else idx.extensions[key])
  {
    hide Items, SymbolsOf, ExtensionsOf, SymbolsFree, ExtensionsFree;
    AddItemsDeclared(idx.(files := idx.files[file.name := v]), Items(file), v);
  }

  // ---------------------------------------------------------------- answering, and following the specification

  /** The value of the one key that is the name or a dotted ancestor of it; None when there is none. */
  ghost predicate AnswersSymbol<V>(symbols: map<string, V>, name: string, r: Option<V>) {
    && (r.None? <==> forall k :: k in symbols ==> !IsSubSymbol(k, name))
    && (forall k :: k in symbols && IsSubSymbol(k, name) ==> r == Some(symbols[k]))
  }

  lemma AnswerIsUnique<V>(symbols: map<string, V>, name: string, r: Option<V>, r': Option<V>)
    requires AnswersSymbol(symbols, name, r) && AnswersSymbol(symbols, name, r')
    ensures r == r'
  {
    if !r.None? {
      var k :| k in symbols && IsSubSymbol(k, name);
    }
  }

  function Lookup<K, V>(m: map<K, V>, k: K): Option<V> { if k in m then Some(m[k]) else None }

  /**
   * How far an implementation agrees with the specification while declarations are added: it
   * holds exactly what was specified, or the specification has seen a conflict that has left two
   * related symbols in the table.
   */
  ghost predicate Tracks<V>(spec: Option<Index<V>>, view: Index<V>) {
    match spec
    case Some(w) => view == w && AntichainSet(w.symbols.Keys)
    case None => !AntichainSet(view.symbols.Keys)
  }

  lemma UnrelatedKeepsAntichain(keys: set<string>, name: string)
    requires AntichainSet(keys)
    ensures Unrelated(keys, name) ==> AntichainSet(keys + {name})
    ensures name !in keys && !Unrelated(keys, name) ==> !AntichainSet(keys + {name})
  {
    if name !in keys && !Unrelated(keys, name) {
      var k :| k in keys && (IsSubSymbol(k, name) || IsSubSymbol(name, k));
      assert k in keys + {name} && name in keys + {name};
    }
  }

  lemma AntichainShrinks(keys: set<string>, more: set<string>)
    requires keys <= more && AntichainSet(more)
    ensures AntichainSet(keys)
  {
  }

  /** One symbol accepted by an implementation that may miss a conflict but never invents one. */
  lemma TracksSymbol<V>(spec: Option<Index<V>>, view: Index<V>, name: string, v: V)
    requires Tracks(spec, view) && ValidateSymbolName(name) && name !in view.symbols
    ensures Tracks(AddItem(spec, SymbolItem(name), v), view.(symbols := view.symbols[name := v]))
  {
    hide ValidateSymbolName, Unrelated, AntichainSet;
    var keys := view.symbols.Keys;
    assert view.symbols[name := v].Keys == keys + {name};
    if spec.Some? {
      UnrelatedKeepsAntichain(keys, name);
    } else if AntichainSet(keys + {name}) {
      AntichainShrinks(keys, keys + {name});
    }
  }

  lemma TracksExtension<V>(spec: Option<Index<V>>, view: Index<V>, e: Item, v: V)
    requires Tracks(spec, view) && e.ExtensionItem?
             && (FullyQualified(e.extendee) ==> ExtensionKey(e) !in view.extensions)
    ensures Tracks(AddItem(spec, e, v),
                   if FullyQualified(e.extendee) then view.(extensions := view.extensions[ExtensionKey(e) := v])
                       else view)
  {
  }

  lemma AddNothing<V>(spec: Option<Index<V>>, v: V)
    ensures AddItems(spec, [], v) == spec
  {
  }

  /** The four groups of declarations of a file, one after the other. */
  lemma AddItemsInGroups<V>(spec: Option<Index<V>>, file: FileProto, v: V)
    ensures var path := Path(file.package);
            var a, b := MessageItems(path, file.messages), NameItems(path, file.enums);
            var c, d := FileExtensionItems(path, file.extensions), NameItems(path, file.services);
            && AddItems(spec, a + b, v) == AddItems(AddItems(spec, a, v), b, v)
            && AddItems(spec, a + b + c, v) == AddItems(AddItems(spec, a + b, v), c, v)
            && Items(file) == a + b + c + d
            && AddItems(spec, Items(file), v) == AddItems(AddItems(spec, a + b + c, v), d, v)
  {
    var path := Path(file.package);
    var a, b := MessageItems(path, file.messages), NameItems(path, file.enums);
    var c, d := FileExtensionItems(path, file.extensions), NameItems(path, file.services);
    AddItemsAppend(spec, a, b, v);
    AddItemsAppend(spec, a + b, c, v);
    AddItemsAppend(spec, a + b + c, d, v);
  }

  /** A conflict among the first declarations is a conflict of all. */
  lemma ConflictInPrefix<V>(spec: Option<Index<V>>, front: seq<Item>, all: seq<Item>, v: V)
    requires front <= all && AddItems(spec, front, v) == None
    ensures AddItems(spec, all, v) == None
  {
    assert all == front + all[|front|..];
    AddItemsAppend(spec, front, all[|front|..], v);
    ConflictStays(all[|front|..], v);
  }

  lemma RejectsExtension<V>(spec: Option<Index<V>>, view: Index<V>, e: Item, v: V)
    requires Tracks(spec, view) && Indexed(e) && ExtensionKey(e) in view.extensions
    ensures AddItem(spec, e, v) == None
  {
  }

  lemma RejectsSymbol<V>(spec: Option<Index<V>>, view: Index<V>, name: string, v: V)
    requires Tracks(spec, view)
    requires AntichainSet(view.symbols.Keys) ==> !(ValidateSymbolName(name) && Unrelated(view.symbols.Keys, name))
    ensures AddItem(spec, SymbolItem(name), v) == None
  {
  }

  lemma {:induction false} NestedPrefix(ms: seq<MessageProto>, i: nat)
    requires i <= |ms|
    ensures AllNestedItems(ms[..i]) <= AllNestedItems(ms)
    decreases |ms|
  {
    if i < |ms| {
      assert ms[..|ms| - 1][..i] == ms[..i];
      NestedPrefix(ms[..|ms| - 1], i);
    } else {
      assert ms[..i] == ms;
    }
  }

  lemma {:induction false} MessagePrefix(path: string, ms: seq<MessageProto>, i: nat)
    requires i <= |ms|
    ensures MessageItems(path, ms[..i]) <= MessageItems(path, ms)
    decreases |ms|
  {
    if i < |ms| {
      assert ms[..|ms| - 1][..i] == ms[..i];
      MessagePrefix(path, ms[..|ms| - 1], i);
    } else {
      assert ms[..i] == ms;
    }
  }

  lemma {:induction false} FileExtensionPrefix(path: string, es: seq<ExtensionProto>, i: nat)
    requires i <= |es|
    ensures FileExtensionItems(path, es[..i]) <= FileExtensionItems(path, es)
    decreases |es|
  {
    if i < |es| {
      assert es[..|es| - 1][..i] == es[..i];
      FileExtensionPrefix(path, es[..|es| - 1], i);
    } else {
      assert es[..i] == es;
    }
  }

  /** The extensions of a file up to one of them, in three steps: those before, its name, itself. */
  lemma ExtensionStep<V>(spec: Option<Index<V>>, path: string, es: seq<ExtensionProto>, i: nat, v: V)
    requires i < |es|
    ensures var front := FileExtensionItems(path, es[..i]);
            var symbol, extension := SymbolItem(path + es[i].name), ExtensionItem(es[i].extendee, es[i].number);
            && front + [symbol, extension] <= FileExtensionItems(path, es)
            && AddItems(spec, front + [symbol], v) == AddItem(AddItems(spec, front, v), symbol, v)
            && AddItems(spec, FileExtensionItems(path, es[..i + 1]), v)
               == AddItem(AddItems(spec, front + [symbol], v), extension, v)
  {
    var front := FileExtensionItems(path, es[..i]);
    var symbol, extension := SymbolItem(path + es[i].name), ExtensionItem(es[i].extendee, es[i].number);
    var more := front + [symbol, extension];
    assert es[..i + 1][..i] == es[..i];
    assert FileExtensionItems(path, es[..i + 1]) == more;
    FileExtensionPrefix(path, es, i + 1);
    hide AddItem, FileExtensionItems;
    OneMoreItem(spec, more, |front|, v);
    OneMoreItem(spec, more, |front| + 1, v);
    assert more[..|front|] == front && more[..|front| + 1] == front + [symbol] && more[..|front| + 2] == more;
  }

  /** The messages of a file up to one of them, likewise. */
  lemma MessageStep<V>(spec: Option<Index<V>>, path: string, ms: seq<MessageProto>, i: nat, v: V)
    requires i < |ms|
    ensures var front, symbol := MessageItems(path, ms[..i]), SymbolItem(path + ms[i].name);
            && front + [symbol] + NestedItems(ms[i]) <= MessageItems(path, ms)
            && AddItems(spec, front + [symbol], v) == AddItem(AddItems(spec, front, v), symbol, v)
            && AddItems(spec, MessageItems(path, ms[..i + 1]), v)
               == AddItems(AddItems(spec, front + [symbol], v), NestedItems(ms[i]), v)
  {
    var front := MessageItems(path, ms[..i]);
    var symbol, nested := [SymbolItem(path + ms[i].name)], NestedItems(ms[i]);
    assert ms[..i + 1][..i] == ms[..i];
    assert MessageItems(path, ms[..i + 1]) == front + symbol + nested;
    MessagePrefix(path, ms, i + 1);
    hide AddItem, MessageItems, NestedItems;
    AddItemsAppend(spec, front + symbol, nested, v);
    OneMoreItem(spec, front + symbol, |front|, v);
    assert (front + symbol)[..|front|] == front && (front + symbol)[..|front| + 1] == front + symbol;
  }

  lemma OneMoreItem<V>(spec: Option<Index<V>>, items: seq<Item>, i: nat, v: V)
    requires i < |items|
    ensures AddItems(spec, items[..i + 1], v) == AddItem(AddItems(spec, items[..i], v), items[i], v)
  {
    assert items[..i + 1][..i] == items[..i];
  }

  // ---------------------------------------------------------------- where adding stops

  /** An extension refused only after it was entered is found from then on. */
  ghost function Refused<V>(view: Index<V>, item: Item, late: set<(string, int)>, v: V): Index<V> {
    if Indexed(item) && ExtensionKey(item) in late
    then view.(extensions := view.extensions[ExtensionKey(item) := v]) else view
  }

  /** What is left after a declaration was refused, when the specification was followed up to there. */
  ghost predicate TracksRefused<V>(spec: Option<Index<V>>, item: Item, late: set<(string, int)>, v: V, view: Index<V>) {
    && AddItem(spec, item, v) == None
    && match spec
       case Some(w) => view == Refused(w, item, late, v) && AntichainSet(w.symbols.Keys)
       case None => !AntichainSet(view.symbols.Keys)
  }

  /** Adding stopped at the n-th declaration: those before it are in, and `late` are the extensions refused late. */
  ghost predicate StoppedAt<V>(spec: Option<Index<V>>, items: seq<Item>, n: nat, v: V, late: set<(string, int)>,
                               view: Index<V>)
  {
    n < |items| && TracksRefused(AddItems(spec, items[..n], v), items[n], late, v, view)
  }

  ghost predicate Stopped<V>(spec: Option<Index<V>>, items: seq<Item>, v: V, late: set<(string, int)>, view: Index<V>) {
    exists n: nat :: StoppedAt(spec, items, n, v, late, view)
  }

  /** Unless a conflict was missed, it stops at the first conflict, with all before that one added. */
  lemma StopsAtFirstConflict<V>(spec: Option<Index<V>>, items: seq<Item>, n: nat, v: V, late: set<(string, int)>,
                                view: Index<V>, m: nat)
    requires StoppedAt(spec, items, n, v, late, view) && AntichainSet(view.symbols.Keys) && m <= |items|
    ensures AddItems(spec, items[..n], v).Some?
    ensures view == Refused(AddItems(spec, items[..n], v).value, items[n], late, v)
    ensures AddItems(spec, items[..m], v).Some? <==> m <= n
  {
    hide AntichainSet, AddItem, Refused;
    OneMoreItem(spec, items, n, v);
    if m <= n {
      if AddItems(spec, items[..m], v).None? { ConflictInPrefix(spec, items[..m], items[..n], v); }
    } else {
      ConflictInPrefix(spec, items[..n + 1], items[..m], v);
    }
  }

  lemma OneRefused<V>(spec: Option<Index<V>>, item: Item, v: V, late: set<(string, int)>, before: Index<V>)
    requires Tracks(spec, before) && AddItem(spec, item, v) == None
    ensures TracksRefused(spec, item, late, v, Refused(before, item, late, v))
  {
  }

  lemma StoppedEarlier<V>(spec: Option<Index<V>>, front: seq<Item>, all: seq<Item>, v: V, late: set<(string, int)>,
                          view: Index<V>)
    requires front <= all && Stopped(spec, front, v, late, view)
    ensures Stopped(spec, all, v, late, view)
  {
    hide TracksRefused;
    var n: nat :| StoppedAt(spec, front, n, v, late, view);
    assert all[..n] == front[..n] && all[n] == front[n];
    assert StoppedAt(spec, all, n, v, late, view);
  }

  lemma StoppedLater<V>(spec: Option<Index<V>>, front: seq<Item>, more: seq<Item>, v: V, late: set<(string, int)>,
                        view: Index<V>)
    requires Stopped(AddItems(spec, front, v), more, v, late, view)
    ensures Stopped(spec, front + more, v, late, view)
  {
    hide TracksRefused;
    var n: nat :| StoppedAt(AddItems(spec, front, v), more, n, v, late, view);
    assert (front + more)[..|front| + n] == front + more[..n] && (front + more)[|front| + n] == more[n];
    AddItemsAppend(spec, front, more[..n], v);
    assert StoppedAt(spec, front + more, |front| + n, v, late, view);
  }

  /** The next declaration was refused. */
  lemma StoppedNext<V>(spec: Option<Index<V>>, front: seq<Item>, item: Item, all: seq<Item>, v: V,
                       late: set<(string, int)>, view: Index<V>)
    requires front + [item] <= all && TracksRefused(AddItems(spec, front, v), item, late, v, view)
    ensures Stopped(spec, all, v, late, view)
  {
    hide TracksRefused;
    assert all[..|front|] == front && all[|front|] == item;
    assert StoppedAt(spec, all, |front|, v, late, view);
  }

  lemma StoppedIsConflict<V>(spec: Option<Index<V>>, items: seq<Item>, v: V, late: set<(string, int)>, view: Index<V>)
    requires Stopped(spec, items, v, late, view)
    ensures AddItems(spec, items, v) == None
  {
    var n: nat :| StoppedAt(spec, items, n, v, late, view);
    OneMoreItem(spec, items, n, v);
    ConflictInPrefix(spec, items[..n + 1], items, v);
  }

  /** Where adding a message or the extensions inside it stopped, adding the messages of the file did. */
  lemma MessageStopped<V>(spec: Option<Index<V>>, path: string, ms: seq<MessageProto>, i: nat, v: V,
                          late: set<(string, int)>, view: Index<V>)
    requires i < |ms|
    requires var spec1, symbol := AddItems(spec, MessageItems(path, ms[..i]), v), SymbolItem(path + ms[i].name);
             || TracksRefused(spec1, symbol, late, v, view)
             || Stopped(AddItem(spec1, symbol, v), NestedItems(ms[i]), v, late, view)
    ensures Stopped(spec, MessageItems(path, ms), v, late, view)
  {
    hide TracksRefused, Stopped, AddItem;
    MessageStep(spec, path, ms, i, v);
    var front, symbol := MessageItems(path, ms[..i]), SymbolItem(path + ms[i].name);
    if TracksRefused(AddItems(spec, front, v), symbol, late, v, view) {
      StoppedNext(spec, front, symbol, MessageItems(path, ms), v, late, view);
    } else {
      StoppedLater(spec, front + [symbol], NestedItems(ms[i]), v, late, view);
      StoppedEarlier(spec, front + [symbol] + NestedItems(ms[i]), MessageItems(path, ms), v, late, view);
    }
  }

  lemma ExtensionStopped<V>(spec: Option<Index<V>>, path: string, es: seq<ExtensionProto>, i: nat, v: V,
                            late: set<(string, int)>, view: Index<V>)
    requires i < |es|
    requires var spec1, symbol := AddItems(spec, FileExtensionItems(path, es[..i]), v), SymbolItem(path + es[i].name);
             || TracksRefused(spec1, symbol, late, v, view)
             || TracksRefused(AddItem(spec1, symbol, v), ExtensionItem(es[i].extendee, es[i].number), late, v, view)
    ensures Stopped(spec, FileExtensionItems(path, es), v, late, view)
  {
    hide TracksRefused, Stopped, AddItem;
    ExtensionStep(spec, path, es, i, v);
    var front, all := FileExtensionItems(path, es[..i]), FileExtensionItems(path, es);
    var symbol, extension := SymbolItem(path + es[i].name), ExtensionItem(es[i].extendee, es[i].number);
    assert front + [symbol] <= front + [symbol, extension] == front + [symbol] + [extension];
    if TracksRefused(AddItems(spec, front, v), symbol, late, v, view) {
      StoppedNext(spec, front, symbol, all, v, late, view);
    } else {
      StoppedNext(spec, front + [symbol], extension, all, v, late, view);
    }
  }

  /** Where adding one of the four groups of declarations stopped, adding the file did. */
  lemma FileStopped<V>(spec: Option<Index<V>>, file: FileProto, front: seq<Item>, group: seq<Item>, v: V,
                       late: set<(string, int)>, view: Index<V>)
    requires front + group <= Items(file)
    requires Stopped(AddItems(spec, front, v), group, v, late, view)
    ensures Stopped(spec, Items(file), v, late, view) && AddItems(spec, Items(file), v) == None
  {
    hide Stopped, Items;
    StoppedLater(spec, front, group, v, late, view);
    StoppedEarlier(spec, front + group, Items(file), v, late, view);
    StoppedIsConflict(spec, Items(file), v, late, view);
  }

  lemma TracksItself<V>(view: Index<V>)
    requires AntichainSet(view.symbols.Keys)
    ensures Tracks(Some(view), view)
  {
  }

  lemma TracksAll<V>(spec: Option<Index<V>>, view: Index<V>)
    requires Tracks(spec, view)
    ensures spec.Some? ==> view == spec.value && AntichainSet(view.symbols.Keys)
    ensures spec.None? ==> !AntichainSet(view.symbols.Keys)
  {
  }
}
