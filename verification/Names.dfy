/** Symbol names: their lexicographic order, dotted ancestors, and which characters are valid. */
module Names {

  /** The order of `std::string`: a proper prefix comes first. */
  predicate Less(a: string, b: string) {
    b != [] && (a == [] || a[0] < b[0] || (a[0] == b[0] && Less(a[1..], b[1..])))
  }

  predicate LessEq(a: string, b: string) { a == b || Less(a, b) }

  predicate ValidChar(c: char) {
    c == '.' || c == '_' || '0' <= c <= '9' || 'A' <= c <= 'Z' || 'a' <= c <= 'z'
  }

  predicate ValidateSymbolName(name: string) {
    forall i :: 0 <= i < |name| ==> ValidChar(name[i])
  }

  /** `sub` is `super` or one of its dotted ancestors: "foo.bar" of "foo.bar.baz", not of "foo.barbaz". */
  predicate IsSubSymbol(sub: string, super: string) {
    sub == super || (|sub| < |super| && super[..|sub|] == sub && super[|sub|] == '.')
  }

  /** How many dots the name of a package may have. */
  const PACKAGE_LIMIT := 100

  function CountDots(s: string): nat {
    if s == "" then 0 else CountDots(s[..|s| - 1]) + (if s[|s| - 1] == '.' then 1 else 0)
  }

  lemma {:induction false} DotsAreCounted(s: string)
    ensures CountDots(s) == |set i | 0 <= i < |s| && s[i] == '.'|
  {
    if s != "" {
      var h := |s| - 1;
      DotsAreCounted(s[..h]);
      var front := set i | 0 <= i < |s[..h]| && s[..h][i] == '.';
      var all := set i | 0 <= i < |s| && s[i] == '.';
      assert all == front + (if s[h] == '.' then {h} else {});
    }
  }

  /** The characters of a symbol name: letters, digits, underscore and dot. */
  lemma ValidNames(name: string)
    ensures ValidateSymbolName(name) <==>
              forall i :: 0 <= i < |name| ==>
                '0' <= name[i] <= '9' || 'A' <= name[i] <= 'Z' || 'a' <= name[i] <= 'z' || name[i] in "_."
  {
    var others := "_.";
    assert others[0] == '_' && others[1] == '.';
    forall i | 0 <= i < |name| ensures name[i] in others <==> name[i] == '_' || name[i] == '.' {}
  }

  /** A sub-symbol is the name itself or what stands before one of its dots. */
  lemma SubSymbols(sub: string, super: string)
    ensures IsSubSymbol(sub, super) <==> super == sub || exists rest :: super == sub + "." + rest
  {
    if IsSubSymbol(sub, super) && sub != super {
      assert super == sub + "." + super[|sub| + 1..];
    }
  }

  // ---------------------------------------------------------------- the order

  lemma {:induction false} LessIrreflexive(a: string)
    ensures !Less(a, a)
  {
    if a != [] { LessIrreflexive(a[1..]); }
  }

  lemma {:induction false} LessTransitive(a: string, b: string, c: string)
    requires Less(a, b) && Less(b, c)
    ensures Less(a, c)
  {
    if a != [] && a[0] == b[0] && b[0] == c[0] { LessTransitive(a[1..], b[1..], c[1..]); }
  }

  lemma TailsDiffer(a: string, b: string)
    requires a != [] && b != [] && a[0] == b[0]
    ensures a[1..] == b[1..] <==> a == b
  {
    assert a == [a[0]] + a[1..] && b == [b[0]] + b[1..];
  }

  lemma {:induction false} LessTotal(a: string, b: string)
    ensures Less(a, b) || a == b || Less(b, a)
  {
    if a != [] && b != [] && a[0] == b[0] {
      LessTotal(a[1..], b[1..]);
      TailsDiffer(a, b);
    }
  }

  lemma LessAsymmetric(a: string, b: string)
    requires Less(a, b)
    ensures !Less(b, a) && a != b
  {
    LessIrreflexive(a);
    if Less(b, a) { LessTransitive(a, b, a); }
  }

  lemma {:induction false} PrefixIsLess(a: string, b: string)
    requires |a| < |b| && b[..|a|] == a
    ensures Less(a, b)
  {
    if a != [] {
      assert a[0] == b[..|a|][0];
      assert b[1..][..|a| - 1] == b[..|a|][1..];
      PrefixIsLess(a[1..], b[1..]);
    }
  }

  /** The order is decided after a common prefix. */
  lemma {:induction false} LessAfterPrefix(p: string, a: string, b: string)
    ensures Less(p + a, p + b) <==> Less(a, b)
  {
    if p == [] {
      assert p + a == a && p + b == b;
    } else {
      assert (p + a)[1..] == p[1..] + a && (p + b)[1..] == p[1..] + b;
      LessAfterPrefix(p[1..], a, b);
    }
  }

  /** ... or already inside a prefix of each, when those differ without one extending the other. */
  lemma {:induction false} LessByPrefixes(p: string, q: string, a: string, b: string)
    requires |p| == |q| && p != q
    ensures Less(p + a, q + b) <==> Less(p, q)
  {
    assert (p + a)[0] == p[0] && (q + b)[0] == q[0];
    if p[0] == q[0] {
      TailsDiffer(p, q);
      assert (p + a)[1..] == p[1..] + a && (q + b)[1..] == q[1..] + b;
      LessByPrefixes(p[1..], q[1..], a, b);
    }
  }

  // ---------------------------------------------------------------- dotted ancestors

  lemma SubSymbolIsLessEq(a: string, b: string)
    requires IsSubSymbol(a, b)
    ensures LessEq(a, b)
  {
    if a != b { PrefixIsLess(a, b); }
  }

  lemma LaterIsNoAncestor(a: string, b: string)
    requires Less(a, b)
    ensures !IsSubSymbol(b, a)
  {
    LessAsymmetric(a, b);
    if IsSubSymbol(b, a) { SubSymbolIsLessEq(b, a); }
  }

  /** Everything between a string and one of its extensions extends it too. */
  lemma {:induction false} BetweenPrefixes(m: string, k: string, s: string)
    requires |m| <= |s| && s[..|m|] == m
    requires LessEq(m, k) && LessEq(k, s)
    ensures |m| <= |k| && k[..|m|] == m
    ensures LessEq(k[|m|..], s[|m|..])
  {
    if m == [] {
      assert k[0..] == k && s[0..] == s;
    } else if k != m && k != s {
      assert m[0] == s[..|m|][0];
      assert s[1..][..|m| - 1] == s[..|m|][1..];
      assert k[0] == m[0];
      TailsDiffer(m, k);
      TailsDiffer(k, s);
      BetweenPrefixes(m[1..], k[1..], s[1..]);
      assert k[..|m|] == [k[0]] + k[1..][..|m| - 1];
      assert k[|m|..] == k[1..][|m| - 1..] && s[|m|..] == s[1..][|m| - 1..];
    } else if k == m {
      assert k[|m|..] == [];
    }
  }

  /**
   * A valid name between an ancestor and its descendant descends from that ancestor too, because
   * '.' sorts before every other valid character. The descendant itself may be any string.
   */
  lemma BetweenIsDescendant(m: string, k: string, s: string)
    requires IsSubSymbol(m, s) && LessEq(m, k) && LessEq(k, s) && ValidateSymbolName(k)
    ensures IsSubSymbol(m, k)
  {
    if m != k && m != s {
      BetweenPrefixes(m, k, s);
      var kr, sr := k[|m|..], s[|m|..];
      assert sr[0] == '.';
      assert k == k[..|m|] + kr;
      assert kr[0] == k[|m|] && ValidChar(k[|m|]);
    } else if m == s {
      if m != k { LessAsymmetric(m, k); }
    }
  }

  /** Two ancestors of one name are ancestor and descendant themselves. */
  lemma AncestorsAreRelated(a: string, b: string, s: string)
    requires IsSubSymbol(a, s) && IsSubSymbol(b, s)
    ensures IsSubSymbol(a, b) || IsSubSymbol(b, a)
  {
    if a != s && b != s {
      if |a| < |b| {
        assert b[..|a|] == s[..|b|][..|a|] == s[..|a|] && b[|a|] == s[..|b|][|a|];
      } else if |b| < |a| {
        assert a[..|b|] == s[..|a|][..|b|] == s[..|b|] && a[|b|] == s[..|a|][|b|];
      } else {
        assert a == b;
      }
    }
  }
}
