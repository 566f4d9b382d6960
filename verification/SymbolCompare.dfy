/** The comparator of the encoded symbol index, which compares package and symbol without joining them. */
module SymbolCompare {
  import opened Names

  /** What the comparator is given: a plain name, or an entry that keeps its package apart. */
  datatype Named = Plain(name: string) | Qualified(package: string, symbol: string)

  function AsString(n: Named): string {
    match n
    case Plain(name) => name
    case Qualified(package, symbol) => Join(package, symbol)
  }

  function Join(package: string, symbol: string): string {
    if package == "" then symbol else package + "." + symbol
  }

  function GetParts(n: Named): (string, string) {
    match n
    case Plain(name) => (name, "")
    case Qualified(package, symbol) => if package == "" then (symbol, "") else (package, symbol)
  }

  /** `substr(0, n)`. */
  function Take(s: string, n: nat): string { if n < |s| then s[..n] else s }

  predicate SymbolLess(lhs: Named, rhs: Named) {
    var l, r := GetParts(lhs), GetParts(rhs);
    var lp, rp := Take(l.0, |r.0|), Take(r.0, |l.0|);
    if lp != rp then Less(lp, rp)
    else if |l.0| == |r.0| then Less(l.1, r.1)
    else Less(AsString(lhs), AsString(rhs))
  }

  /** A name without a package against an entry of that package whose symbol is empty. */
  predicate Blind(lhs: Named, rhs: Named) {
    && (lhs.Plain? || lhs.package == "")
    && rhs.Qualified? && rhs.package != "" && rhs.symbol == ""
    && AsString(lhs) == rhs.package
  }

  /** The name after its first part: empty, or the dot and the symbol. */
  function Rest(n: Named): string {
    if n.Qualified? && n.package != "" then "." + n.symbol else ""
  }

  lemma SplitsIntoParts(n: Named)
    ensures AsString(n) == GetParts(n).0 + Rest(n)
  {
    if n.Qualified? && n.package != "" {
      assert n.package + "." + n.symbol == n.package + ("." + n.symbol);
    }
  }

  /** First parts that differ before either ends decide the full names. */
  lemma FirstPartsDecide(l: string, r: string, a: string, b: string)
    requires Take(l, |r|) != Take(r, |l|)
    ensures Less(l + a, r + b) <==> Less(Take(l, |r|), Take(r, |l|))
  {
    hide Less;
    var lp, rp := Take(l, |r|), Take(r, |l|);
    var n := |lp|;
    SplitAt(l, n, a);
    SplitAt(r, n, b);
    LessByPrefixes(lp, rp, l[n..] + a, r[n..] + b);
  }

  lemma SplitAt(s: string, n: nat, rest: string)
    requires n <= |s|
    ensures s + rest == s[..n] + (s[n..] + rest)
  {
  }

  /** Equal first parts leave the order to the symbols, a missing symbol coming first. */
  lemma SymbolsDecide(p: string, lhs: Named, rhs: Named)
    requires GetParts(lhs).0 == p == GetParts(rhs).0
    ensures Less(p + Rest(lhs), p + Rest(rhs)) <==>
              Less(GetParts(lhs).1, GetParts(rhs).1) || (Rest(lhs) == "" && Rest(rhs) == ".")
  {
    LessAfterPrefix(p, Rest(lhs), Rest(rhs));
    if Rest(lhs) != "" && Rest(rhs) != "" {
      LessAfterPrefix(".", lhs.symbol, rhs.symbol);
    }
  }

  /** The fast path answers as the full names do, except for the one blind spot, where it says "not less". */
  lemma SymbolLessIsLess(lhs: Named, rhs: Named)
    ensures SymbolLess(lhs, rhs) <==> Less(AsString(lhs), AsString(rhs)) && !Blind(lhs, rhs)
  {
    hide Less;
    var l, r := GetParts(lhs), GetParts(rhs);
    SplitsIntoParts(lhs);
    SplitsIntoParts(rhs);
    if Take(l.0, |r.0|) != Take(r.0, |l.0|) {
      FirstPartsDecide(l.0, r.0, Rest(lhs), Rest(rhs));
    } else if |l.0| == |r.0| {
      SymbolsDecide(l.0, lhs, rhs);
      LessIrreflexive("");
    }
  }

  predicate NonEmptySymbol(n: Named) { n.Qualified? ==> n.symbol != "" }

  /**
   * On entries with non-empty symbols and plain names the comparator is the order of full names: a
   * strict weak order.
   */
  lemma StrictWeakOrder(a: Named, b: Named, c: Named)
    requires NonEmptySymbol(a) && NonEmptySymbol(b) && NonEmptySymbol(c)
    ensures SymbolLess(a, b) <==> Less(AsString(a), AsString(b))
    ensures !SymbolLess(a, a)
    ensures SymbolLess(a, b) && SymbolLess(b, c) ==> SymbolLess(a, c)
    ensures !SymbolLess(a, b) && !SymbolLess(b, a) <==> AsString(a) == AsString(b)
  {
    SymbolLessIsLess(a, b);
    SymbolLessIsLess(b, a);
    SymbolLessIsLess(b, c);
    SymbolLessIsLess(a, c);
    SymbolLessIsLess(a, a);
    LessIrreflexive(AsString(a));
    LessTotal(AsString(a), AsString(b));
    if SymbolLess(a, b) && SymbolLess(b, c) { LessTransitive(AsString(a), AsString(b), AsString(c)); }
  }

  /** With an empty symbol the comparator calls "p" and "p." equivalent, though "p" comes first. */
  lemma EmptySymbolIsMisplaced()
    ensures !SymbolLess(Plain("p"), Qualified("p", "")) && !SymbolLess(Qualified("p", ""), Plain("p"))
    ensures Less(AsString(Plain("p")), AsString(Qualified("p", "")))
  {
    assert "p" + "." + "" == "p.";
    assert Blind(Plain("p"), Qualified("p", ""));
    SymbolLessIsLess(Plain("p"), Qualified("p", ""));
    PrefixIsLess("p", "p.");
    LessAsymmetric("p", "p.");
    SymbolLessIsLess(Qualified("p", ""), Plain("p"));
  }
}
