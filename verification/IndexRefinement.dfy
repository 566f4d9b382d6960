/** Both descriptor indexes side by side, through any run of additions and searches. */
module IndexRefinement {
  import opened Options
  import opened Names
  import opened IndexSpec
  import SimpleIndex
  import EncodedIndex

  datatype Op<V> =
    | Add(file: FileProto, value: V)
    | FindFile(name: string)
    | FindSymbol(name: string)
    | FindExtension(containingType: string, number: int)

  datatype Answer<V> = Added(ok: bool) | Value(value: Option<V>)

  ghost function Step<V>(idx: Option<Index<V>>, op: Op<V>): Option<Index<V>> {
    if op.Add? && idx.Some? then AddFile(idx.value, op.file, op.value) else idx
  }

  ghost function After<V>(ops: seq<Op<V>>): Option<Index<V>> {
    if ops == [] then Some(Index(map[], map[], map[])) else Step(After(ops[..|ops| - 1]), ops[|ops| - 1])
  }

  /** No file of the run conflicts with an earlier one, and its names are ones an encoded index can order. */
  ghost predicate Harmonious<V>(ops: seq<Op<V>>) {
    && After(ops).Some?
    && forall i :: 0 <= i < |ops| && ops[i].Add? ==>
         ValidateSymbolName(ops[i].file.package) && EncodedIndex.NamesGiven(ops[i].file)
  }

  /** What the specification of an index answers. */
  ghost predicate Answers<V>(idx: Index<V>, op: Op<V>, a: Answer<V>) {
    match op
    case Add(_, _) => a == Added(true)
    case FindFile(name) => a == Value(Lookup(idx.files, name))
    case FindSymbol(name) => a.Value? && AnswersSymbol(idx.symbols, name, a.value)
    case FindExtension(containingType, number) => a == Value(Lookup(idx.extensions, (containingType, number)))
  }

  lemma {:induction false} PrefixIsHarmonious<V>(ops: seq<Op<V>>, i: nat)
    requires Harmonious(ops) && i <= |ops|
    ensures Harmonious(ops[..i])
    decreases |ops| - i
  {
    if i < |ops| {
      PrefixIsHarmonious(ops, i + 1);
      assert ops[..i + 1][..i] == ops[..i];
    } else {
      assert ops[..i] == ops;
    }
  }

  lemma OneAnswer<V>(idx: Index<V>, op: Op<V>, a: Answer<V>, b: Answer<V>)
    requires Answers(idx, op, a) && Answers(idx, op, b)
    ensures a == b
  {
    if op.FindSymbol? { AnswerIsUnique(idx.symbols, op.name, a.value, b.value); }
  }

  method Simple<V>(index: SimpleIndex.DescriptorIndex<V>, op: Op<V>) returns (a: Answer<V>)
    requires index.Valid() && AntichainSet(index.View().symbols.Keys) && Step(Some(index.View()), op).Some?
    modifies index
    ensures index.Valid() && AntichainSet(index.View().symbols.Keys)
    ensures Some(index.View()) == Step(Some(old(index.View())), op) && Answers(old(index.View()), op, a)
  {
    hide SimpleIndex.TableOk, AddFile, AntichainSet, AnswersSymbol;
    match op {
      case Add(file, value) => var ok := index.AddFile(file, value); a := Added(ok);
      case FindFile(name) => var r := index.FindFile(name); a := Value(r);
      case FindSymbol(name) => var r := index.FindSymbol(name); a := Value(r);
      case FindExtension(containingType, number) => var r := index.FindExtension(containingType, number); a := Value(r);
    }
  }

  method Encoded<V>(index: EncodedIndex.DescriptorIndex<V>, op: Op<V>) returns (a: Answer<V>)
    requires index.Valid() && AntichainSet(index.View().symbols.Keys) && Step(Some(index.View()), op).Some?
    requires op.Add? ==> ValidateSymbolName(op.file.package) && EncodedIndex.NamesGiven(op.file)
    modifies index
    ensures index.Valid() && AntichainSet(index.View().symbols.Keys)
    ensures Some(index.View()) == Step(Some(old(index.View())), op) && Answers(old(index.View()), op, a)
  {
    hide AddFile, AntichainSet, AnswersSymbol, EncodedIndex.NamesGiven, ValidateSymbolName;
    hide EncodedIndex.FilesOk, EncodedIndex.SymbolsOk, EncodedIndex.ExtensionsOk;
    hide EncodedIndex.FileMap, EncodedIndex.SymbolMap, EncodedIndex.ExtensionMap;
    match op {
      case Add(file, value) => var ok := index.AddFile(file, value); a := Added(ok);
      case FindFile(name) => var r := index.FindFile(name); a := Value(r);
      case FindSymbol(name) => var r := index.FindSymbol(name); a := Value(r);
      case FindExtension(containingType, number) => var r := index.FindExtension(containingType, number); a := Value(r);
    }
  }

  /** Whatever the run, as long as no file conflicts: both indexes give the same answers, those of the plain maps. */
  method RunBoth<V>(ops: seq<Op<V>>) returns (simple: seq<Answer<V>>, encoded: seq<Answer<V>>)
    requires Harmonious(ops)
    ensures simple == encoded && |simple| == |ops|
    ensures forall i :: 0 <= i < |ops| ==> After(ops[..i]).Some? && Answers(After(ops[..i]).value, ops[i], simple[i])
  {
    hide Step, After, Answers, Harmonious, AntichainSet, EncodedIndex.NamesGiven, ValidateSymbolName;
    hide SimpleIndex.DescriptorIndex.Valid, SimpleIndex.DescriptorIndex.View;
    hide EncodedIndex.DescriptorIndex.Valid, EncodedIndex.DescriptorIndex.View;
    var s := new SimpleIndex.DescriptorIndex<V>();
    var e := new EncodedIndex.DescriptorIndex<V>();
    simple, encoded := [], [];
    EmptyAntichain(s.View());
    AfterNothing<V>();
    for i := 0 to |ops|
      invariant fresh(s) && fresh(e) && s.Valid() && e.Valid()
      invariant After(ops[..i]) == Some(s.View()) == Some(e.View()) && AntichainSet(s.View().symbols.Keys)
      invariant simple == encoded && |simple| == i
      invariant forall k :: 0 <= k < i ==> After(ops[..k]).Some? && Answers(After(ops[..k]).value, ops[k], simple[k])
    {
      NextStep(ops, i);
      ghost var idx := s.View();
      var a := Simple(s, ops[i]);
      var b := Encoded(e, ops[i]);
      OneAnswer(idx, ops[i], a, b);
      simple, encoded := simple + [a], encoded + [b];
    }
  }

  lemma AfterNothing<V>()
    ensures After<V>([]) == Some(Index(map[], map[], map[]))
  {
  }

  lemma EmptyAntichain<V>(idx: Index<V>)
    requires idx == Index(map[], map[], map[])
    ensures AntichainSet(idx.symbols.Keys)
  {
  }

  lemma NextStep<V>(ops: seq<Op<V>>, i: nat)
    requires Harmonious(ops) && i < |ops|
    ensures After(ops[..i + 1]) == Step(After(ops[..i]), ops[i]) && After(ops[..i + 1]).Some?
    ensures ops[i].Add? ==> ValidateSymbolName(ops[i].file.package) && EncodedIndex.NamesGiven(ops[i].file)
  {
    PrefixIsHarmonious(ops, i + 1);
    assert ops[..i + 1][..i] == ops[..i];
  }
}
