/** The predecessor search both descriptor indexes use, on the ordered keys of their symbol table. */
module SymbolSearch {
  import opened Names
  import opened SortedSeq

  ghost predicate SortedKeys(keys: seq<string>) {
    forall i, j :: 0 <= i < j < |keys| ==> Less(keys[i], keys[j])
  }

  ghost predicate ValidKeys(keys: seq<string>) {
    forall i :: 0 <= i < |keys| ==> ValidateSymbolName(keys[i])
  }

  /** No key is a dotted ancestor of another. */
  ghost predicate Antichain(keys: seq<string>) {
    forall i, j :: 0 <= i < |keys| && 0 <= j < |keys| && i != j ==> !IsSubSymbol(keys[i], keys[j])
  }

  /** Everything before p is not after the name, everything from p on is. */
  ghost predicate IsUpperBound(keys: seq<string>, name: string, p: nat) {
    && p <= |keys|
    && (forall i :: 0 <= i < p ==> !Less(name, keys[i]))
    && (forall i :: p <= i < |keys| ==> Less(name, keys[i]))
  }

  /** `upper_bound`: the place of the first key after the name. */
  function UpperBound(keys: seq<string>, name: string): (p: nat)
    requires SortedKeys(keys)
    ensures IsUpperBound(keys, name, p)
  {
    if keys == [] then 0
    else
      var h := |keys| - 1;
      if Less(name, keys[h]) then UpperBound(keys[..h], name)
      else AllBefore(keys, name); |keys|
  }

  lemma AllBefore(keys: seq<string>, name: string)
    requires SortedKeys(keys) && keys != [] && !Less(name, keys[|keys| - 1])
    ensures forall i :: 0 <= i < |keys| ==> !Less(name, keys[i])
  {
    var h := |keys| - 1;
    forall i | 0 <= i < h ensures !Less(name, keys[i]) {
      if Less(name, keys[i]) { LessTransitive(name, keys[i], keys[h]); }
    }
  }

  lemma UpperBoundIsUnique(keys: seq<string>, name: string, p: nat)
    requires SortedKeys(keys) && IsUpperBound(keys, name, p)
    ensures p == UpperBound(keys, name)
  {
  }

  /** From an upper bound to the last element not after the name; the first one when all are after it. */
  function LastLessOrEqual(upperBound: nat): nat { if upperBound != 0 then upperBound - 1 else upperBound }

  /** Where FindLastLessOrEqual points. */
  function Found(keys: seq<string>, name: string): nat
    requires SortedKeys(keys)
  {
    LastLessOrEqual(UpperBound(keys, name))
  }

  lemma FoundIsPredecessor(keys: seq<string>, name: string)
    requires SortedKeys(keys)
    ensures var i := Found(keys, name);
            && (i < |keys| || keys == [])
            && (forall j :: 0 <= j < |keys| && LessEq(keys[j], name) ==> j <= i && LessEq(keys[i], name))
            && (forall j :: 0 <= j < |keys| && Less(name, keys[j]) ==> (i < j || (i == j == 0)))
  {
    var i := Found(keys, name);
    forall j | 0 <= j < |keys| && LessEq(keys[j], name) ensures j <= i && LessEq(keys[i], name) {
      LessIrreflexive(name);
      if Less(keys[j], name) { LessAsymmetric(keys[j], name); }
      LessTotal(name, keys[i]);
    }
  }

  lemma KeysAscend(keys: seq<string>, i: nat, j: nat)
    requires SortedKeys(keys) && i <= j < |keys|
    ensures LessEq(keys[i], keys[j])
  {
  }

  /** If any key is the name or a dotted ancestor of it, it is the only one, and the search finds it. */
  lemma SearchFindsTheAncestor(keys: seq<string>, name: string, j: nat)
    requires SortedKeys(keys) && ValidKeys(keys) && Antichain(keys)
    requires j < |keys| && IsSubSymbol(keys[j], name)
    ensures Found(keys, name) == j
  {
    SubSymbolIsLessEq(keys[j], name);
    FoundIsPredecessor(keys, name);
    var i := Found(keys, name);
    KeysAscend(keys, j, i);
    BetweenIsDescendant(keys[j], keys[i], name);
  }

  // ---------------------------------------------------------------- accepting a new symbol

  /** The check of AddSymbol: the predecessor is no ancestor of the name, and the next key no descendant. */
  predicate NeighboursAllow(keys: seq<string>, iter: nat, name: string) {
    iter >= |keys| ||
    (!IsSubSymbol(keys[iter], name) && (iter + 1 >= |keys| || !IsSubSymbol(name, keys[iter + 1])))
  }

  ghost predicate Accepts(keys: seq<string>, name: string)
    requires SortedKeys(keys)
  {
    ValidateSymbolName(name) && NeighboursAllow(keys, Found(keys, name), name)
  }

  /** With the name added, the keys would still be valid and no ancestors of one another. */
  ghost predicate StaysAntichain(keys: seq<string>, name: string) {
    ValidateSymbolName(name) &&
    forall i :: 0 <= i < |keys| ==> !IsSubSymbol(keys[i], name) && !IsSubSymbol(name, keys[i])
  }

  /**
   * The blind spot: the name comes before every key, so the search returns the first key and the
   * check looks at the second; the first is the name's descendant, and the second is not.
   */
  ghost predicate Corner(keys: seq<string>, name: string) {
    && ValidateSymbolName(name)
    && |keys| > 0 && Less(name, keys[0]) && IsSubSymbol(name, keys[0])
    && (|keys| == 1 || !IsSubSymbol(name, keys[1]))
  }

  lemma DescendantIsNext(keys: seq<string>, name: string, j: nat)
    requires SortedKeys(keys) && ValidKeys(keys)
    requires j < |keys| && keys[j] != name && IsSubSymbol(name, keys[j])
    ensures var i := Found(keys, name);
            (i + 1 < |keys| && IsSubSymbol(name, keys[i + 1])) || (Less(name, keys[0]) && IsSubSymbol(name, keys[0]))
  {
    SubSymbolIsLessEq(name, keys[j]);
    FoundIsPredecessor(keys, name);
    var i := Found(keys, name);
    if Less(name, keys[0]) {
      KeysAscend(keys, 0, j);
      BetweenIsDescendant(name, keys[0], keys[j]);
    } else {
      LessTotal(name, keys[0]);
      assert LessEq(keys[0], name);
      assert i < j;
      LessTotal(name, keys[i + 1]);
      assert !LessEq(keys[i + 1], name);
      KeysAscend(keys, i + 1, j);
      BetweenIsDescendant(name, keys[i + 1], keys[j]);
    }
  }

  /** Looking at two neighbours is enough, but for the blind spot; and in the blind spot it is wrong. */
  lemma TwoNeighboursSuffice(keys: seq<string>, name: string)
    requires SortedKeys(keys) && ValidKeys(keys) && Antichain(keys)
    ensures Accepts(keys, name) <==> StaysAntichain(keys, name) || Corner(keys, name)
    ensures Corner(keys, name) ==> !StaysAntichain(keys, name)
  {
    var i := Found(keys, name);
    FoundIsPredecessor(keys, name);
    if Accepts(keys, name) && !Corner(keys, name) {
      forall j | 0 <= j < |keys| ensures !IsSubSymbol(keys[j], name) && !IsSubSymbol(name, keys[j]) {
        if IsSubSymbol(keys[j], name) { SearchFindsTheAncestor(keys, name, j); }
        if IsSubSymbol(name, keys[j]) {
          DescendantIsNext(keys, name, j);
        }
      }
    }
    if Corner(keys, name) {
      LessAsymmetric(name, keys[0]);
      assert i == 0;
      LaterIsNoAncestor(name, keys[0]);
    }
  }

  /** Away from the blind spot acceptance and the invariant coincide: some key not after the name is enough. */
  lemma ExactWhenSomeKeyPrecedes(keys: seq<string>, name: string)
    requires SortedKeys(keys) && ValidKeys(keys) && Antichain(keys)
    requires keys == [] || LessEq(keys[0], name) || !IsSubSymbol(name, keys[0])
    ensures Accepts(keys, name) <==> StaysAntichain(keys, name)
  {
    TwoNeighboursSuffice(keys, name);
    if keys != [] && LessEq(keys[0], name) {
      LessIrreflexive(name);
      if Less(keys[0], name) { LessAsymmetric(keys[0], name); }
    }
  }

  /** With only "foo.bar" stored, "foo" is accepted, and the keys are no antichain any more. */
  lemma FooIsAcceptedOverFooBar()
    ensures SortedKeys(["foo.bar"]) && ValidKeys(["foo.bar"]) && Antichain(["foo.bar"])
    ensures Accepts(["foo.bar"], "foo") && !StaysAntichain(["foo.bar"], "foo")
  {
    PrefixIsLess("foo", "foo.bar");
    assert "foo.bar"[..3] == "foo" && "foo.bar"[3] == '.';
    assert ["foo.bar"][0] == "foo.bar";
    assert Corner(["foo.bar"], "foo");
    TwoNeighboursSuffice(["foo.bar"], "foo");
  }

  lemma InsertedKeyInOrder(keys: seq<string>, name: string)
    requires SortedKeys(keys) && name !in keys
    ensures SortedKeys(InsertAt(keys, UpperBound(keys, name), name))
  {
    var p := UpperBound(keys, name);
    forall i | 0 <= i < |keys| ensures if i < p then Less(keys[i], name) else Less(name, keys[i]) {
      LessTotal(keys[i], name);
    }
  }
}
