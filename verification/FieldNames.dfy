/** The five names of a field, and how many different strings they take. */
module FieldNames {
  import opened Options
  import opened Names
  import opened SortedSeq

  function ToUpper(c: char): char { if 'a' <= c <= 'z' then c - 'a' + 'A' else c }

  function ToLower(c: char): char { if 'A' <= c <= 'Z' then c - 'A' + 'a' else c }

  function LowerString(s: string): (r: string)
    ensures |r| == |s| && forall i :: 0 <= i < |s| ==> r[i] == ToLower(s[i])
  {
    seq(|s|, i requires 0 <= i < |s| => ToLower(s[i]))
  }

  /** The underscores taken out, and the letter after each in upper case. */
  function Joined(s: string, capitalizeNext: bool): string {
    if s == "" then ""
    else if s[0] == '_' then Joined(s[1..], true)
    else [if capitalizeNext then ToUpper(s[0]) else s[0]] + Joined(s[1..], false)
  }

  function ToCamelCase(s: string, lowerFirst: bool): string {
    var r := Joined(s, !lowerFirst);
    if lowerFirst && r != "" then [ToLower(r[0])] + r[1..] else r
  }

  function ToJsonName(s: string): string { Joined(s, false) }

  // ---------------------------------------------------------------- what the derived names are

  /** The capital of a small letter, at the same place of the alphabet; other characters stand for themselves. */
  lemma LettersByAlphabet(c: char)
    ensures ToUpper(c) == if 'a' <= c <= 'z' then ['A', 'B', 'C', 'D', 'E', 'F', 'G', 'H', 'I', 'J', 'K', 'L', 'M', 'N',
              'O', 'P', 'Q', 'R', 'S', 'T', 'U', 'V', 'W', 'X', 'Y', 'Z'][c as int - 97] else c
    ensures ToLower(c) == if 'A' <= c <= 'Z' then (c as int + 32) as char else c
    ensures ToUpper(c) == '_' <==> c == '_'
    ensures 'a' <= c <= 'z' ==> ToLower(ToUpper(c)) == c && 'A' <= ToUpper(c) <= 'Z'
  {
  }

  /** Whether the character that comes after s is capitalized. */
  predicate CapitalNext(s: string, capitalizeNext: bool) {
    if s == "" then capitalizeNext else s[|s| - 1] == '_'
  }

  lemma {:induction false} JoinedLast(s: string, c: char, capitalizeNext: bool)
    ensures Joined(s + [c], capitalizeNext) == Joined(s, capitalizeNext) +
              if c == '_' then "" else [if CapitalNext(s, capitalizeNext) then ToUpper(c) else c]
  {
    if s == "" {
      assert [] + [c] == [c] && [c][1..] == "";
    } else {
      assert (s + [c])[1..] == s[1..] + [c];
      JoinedLast(s[1..], c, s[0] == '_');
    }
  }

  /** Joining drops the underscores and nothing else. */
  lemma {:induction false} JoinedIsKept(s: string, capitalizeNext: bool)
    ensures '_' !in Joined(s, capitalizeNext)
    ensures |Joined(s, capitalizeNext)| == |set j | 0 <= j < |s| && s[j] != '_'|
  {
    var kept := set j | 0 <= j < |s| && s[j] != '_';
    if s == "" {
      assert kept == {};
    } else {
      var h := |s| - 1;
      JoinedIsKept(s[..h], capitalizeNext);
      JoinedLast(s[..h], s[h], capitalizeNext);
      assert s == s[..h] + [s[h]];
      LettersByAlphabet(s[h]);
      KeptBefore(s, h);
    }
  }

  /**
   * Each other character stands at its position less the underscores before it, as itself, or as a
   * capital when it is a small letter that an underscore precedes.
   */
  lemma {:induction false} JoinedAt(s: string, capitalizeNext: bool, i: nat)
    requires i < |s| && s[i] != '_'
    ensures var k := |set j | 0 <= j < i && s[j] != '_'|;
            && k < |Joined(s, capitalizeNext)|
            && Joined(s, capitalizeNext)[k]
               == if (if i == 0 then capitalizeNext else s[i - 1] == '_') && 'a' <= s[i] <= 'z'
                  then (s[i] as int - 32) as char else s[i]
    decreases |s|
  {
    var h := |s| - 1;
    assert s == s[..h] + [s[h]];
    JoinedLast(s[..h], s[h], capitalizeNext);
    if i == h {
      JoinedIsKept(s[..h], capitalizeNext);
      KeptBefore(s, h);
    } else {
      JoinedAt(s[..h], capitalizeNext, i);
      assert (set j | 0 <= j < i && s[..h][j] != '_') == (set j | 0 <= j < i && s[j] != '_');
    }
  }

  lemma KeptBefore(s: string, h: nat)
    requires |s| == h + 1
    ensures (set j | 0 <= j < |s[..h]| && s[..h][j] != '_') == (set j | 0 <= j < h && s[j] != '_')
    ensures |set j | 0 <= j < |s| && s[j] != '_'|
         == |set j | 0 <= j < h && s[j] != '_'| + if s[h] == '_' then 0 else 1
  {
    var before, all := set j | 0 <= j < h && s[j] != '_', set j | 0 <= j < |s| && s[j] != '_';
    assert all == before + if s[h] == '_' then {} else {h};
  }

  /** Camel case is the JSON name with a small first letter. */
  lemma CamelIsJson(s: string)
    ensures var camel, json := ToCamelCase(s, true), ToJsonName(s);
            && |camel| == |json|
            && (json != "" ==>
                  && camel[1..] == json[1..]
                  && camel[0] == if 'A' <= json[0] <= 'Z' then (json[0] as int + 32) as char else json[0])
    ensures ToJsonName(s) == Joined(s, false)
  {
  }

  /** Back from camel case: each capital stands for an underscore and its small letter. */
  function Snake(s: string): string {
    if s == "" then ""
    else (if 'A' <= s[0] <= 'Z' then ['_', (s[0] as int + 32) as char] else [s[0]]) + Snake(s[1..])
  }

  /** Small letters, digits and underscores, each underscore before a letter. */
  ghost predicate InSnakeCase(s: string) {
    && (forall i :: 0 <= i < |s| ==> 'a' <= s[i] <= 'z' || '0' <= s[i] <= '9' || s[i] == '_')
    && (forall i :: 0 <= i < |s| && s[i] == '_' ==> i + 1 < |s| && 'a' <= s[i + 1] <= 'z')
  }

  lemma RestInSnakeCase(s: string)
    requires InSnakeCase(s) && s != ""
    ensures InSnakeCase(s[1..]) && s == [s[0]] + s[1..]
    ensures s[0] == '_' ==> s[1..] != "" && 'a' <= s[1..][0] <= 'z'
    ensures 'a' <= s[0] <= 'z' || '0' <= s[0] <= '9' || s[0] == '_'
  {
    assert forall i :: 0 <= i < |s[1..]| ==> s[1..][i] == s[i + 1];
  }

  lemma {:induction false} SnakeOfJoined(s: string, capitalizeNext: bool)
    requires InSnakeCase(s) && (capitalizeNext ==> s != "" && 'a' <= s[0] <= 'z')
    ensures Snake(Joined(s, capitalizeNext)) == (if capitalizeNext then "_" else "") + s
  {
    if s != "" {
      hide Snake, Joined, InSnakeCase, ToUpper;
      var c, rest := s[0], s[1..];
      RestInSnakeCase(s);
      SnakeOfJoined(rest, c == '_');
      JoinedMore(c, rest, capitalizeNext);
      if c != '_' {
        LettersByAlphabet(c);
        SnakeOfMore(if capitalizeNext then ToUpper(c) else c, Joined(rest, false));
        if capitalizeNext { LowerAgain(c); }
      }
    }
  }

  lemma LowerAgain(c: char)
    requires 'a' <= c <= 'z'
    ensures 'A' <= ToUpper(c) <= 'Z' && (ToUpper(c) as int + 32) as char == c
  {
  }

  /** Nothing is lost of a style-guide name whose underscores are single, inside it, and before letters. */
  lemma SnakeBack(name: string)
    requires forall i :: 0 <= i < |name| ==> 'a' <= name[i] <= 'z' || '0' <= name[i] <= '9' || name[i] == '_'
    requires forall i :: 0 <= i < |name| && name[i] == '_' ==> i + 1 < |name| && 'a' <= name[i + 1] <= 'z'
    ensures Snake(ToJsonName(name)) == name
  {
    SnakeOfJoined(name, false);
    assert "" + name == name;
  }

  lemma SnakeOfMore(c: char, r: string)
    ensures Snake([c] + r) == (if 'A' <= c <= 'Z' then ['_', (c as int + 32) as char] else [c]) + Snake(r)
  {
    assert ([c] + r)[1..] == r;
  }

  lemma JoinedMore(c: char, r: string, capitalizeNext: bool)
    ensures Joined([c] + r, capitalizeNext)
         == if c == '_' then Joined(r, true) else [if capitalizeNext then ToUpper(c) else c] + Joined(r, false)
  {
    assert ([c] + r)[1..] == r;
  }

  predicate IsLower(c: char) { 'a' <= c <= 'z' }
  predicate IsLowerOrDigit(c: char) { IsLower(c) || '0' <= c <= '9' }

  datatype FieldNameCase = AllLower | SnakeCase | Other

  /** The loop over the characters, as a method; what it finds is said outright. */
  method GetFieldNameCase(name: string) returns (r: FieldNameCase)
    ensures r == AllLower <==> StyleGuide(name) && '_' !in name
    ensures r == SnakeCase <==> StyleGuide(name) && '_' in name
    ensures r == Other <==>
              !(name != "" && 'a' <= name[0] <= 'z' &&
                forall i :: 0 <= i < |name| ==> 'a' <= name[i] <= 'z' || '0' <= name[i] <= '9' || name[i] == '_')
  {
    if name == "" || !IsLower(name[0]) { return Other; }
    r := AllLower;
    for i := 0 to |name|
      invariant r == if '_' in name[..i] then SnakeCase else AllLower
      invariant forall k :: 0 <= k < i ==> IsLowerOrDigit(name[k]) || name[k] == '_'
    {
      assert name[..i + 1] == name[..i] + [name[i]];
      if !IsLowerOrDigit(name[i]) {
        if name[i] != '_' { return Other; }
        r := SnakeCase;
      }
    }
    assert name[..|name|] == name;
  }

  /** A lower-case letter, then lower-case letters, digits and underscores. */
  predicate StyleGuide(name: string) {
    name != "" && IsLower(name[0]) && forall i :: 0 <= i < |name| ==> IsLowerOrDigit(name[i]) || name[i] == '_'
  }

  lemma LowerIsItself(name: string)
    requires StyleGuide(name)
    ensures LowerString(name) == name
  {
  }

  lemma {:induction false} JoinedLength(s: string, capitalizeNext: bool)
    ensures |Joined(s, capitalizeNext)| <= |s|
    ensures '_' in s ==> |Joined(s, capitalizeNext)| < |s|
  {
    if s != "" {
      assert s == [s[0]] + s[1..];
      JoinedLength(s[1..], s[0] == '_');
    }
  }

  lemma {:induction false} JoinedWithoutUnderscore(s: string)
    requires '_' !in s
    ensures Joined(s, false) == s
  {
    if s != "" {
      assert s == [s[0]] + s[1..];
      assert s[0] in s;
      JoinedWithoutUnderscore(s[1..]);
    }
  }

  /** In a style-guide name camel case and the JSON name are the same, and the name itself only without underscores. */
  lemma StyleGuideNames(name: string)
    requires StyleGuide(name)
    ensures LowerString(name) == name && ToCamelCase(name, true) == ToJsonName(name)
    ensures ToCamelCase(name, true) == name <==> '_' !in name
  {
    LowerIsItself(name);
    JoinedLength(name, false);
    var r := Joined(name, false);
    assert r[0] == name[0];
    assert [r[0]] + r[1..] == r;
    if '_' !in name { JoinedWithoutUnderscore(name); }
  }

  // ---------------------------------------------------------------- counting distinct names

  function JsonName(name: string, jsonName: Option<string>): string {
    if jsonName.Some? then jsonName.value else ToJsonName(name)
  }

  function FullName(name: string, scope: string): string { if scope == "" then name else scope + "." + name }

  /** The different strings among name, lower case, camel case and JSON name. */
  function NameSet(name: string, jsonName: Option<string>): set<string> {
    {name, LowerString(name), ToCamelCase(name, true), JsonName(name, jsonName)}
  }

  /** Strings for a field: those, and the full name, which is never shared. */
  function NameCount(name: string, jsonName: Option<string>): nat { |NameSet(name, jsonName)| + 1 }

  function Elements(s: seq<string>): set<string> { set i | 0 <= i < |s| :: s[i] }

  lemma OneMoreElement(s: seq<string>, x: string)
    ensures Elements(s + [x]) == Elements(s) + {x}
  {
    forall y | y in Elements(s) + {x} ensures y in Elements(s + [x]) {
      if y in Elements(s) {
        var i :| 0 <= i < |s| && s[i] == y;
        assert (s + [x])[i] == y;
      } else {
        assert (s + [x])[|s|] == y;
      }
    }
  }

  ghost predicate Ascending(s: seq<string>) {
    forall i, j :: 0 <= i < j < |s| ==> LessEq(s[i], s[j])
  }

  /** `std::sort`. */
  function InsertSorted(s: seq<string>, x: string): (r: seq<string>)
    requires Ascending(s)
    ensures Ascending(r) && multiset(r) == multiset(s) + multiset{x}
  {
    if s == [] then [x]
    else
      var h := |s| - 1;
      if Less(x, s[h]) then
        assert s == s[..h] + [s[h]];
        var r := InsertSorted(s[..h], x);
        FromBelow(s[..h], x, r, s[h]);
        r + [s[h]]
      else
        LastIsGreatest(s, x);
        s + [x]
  }

  lemma FromBelow(s: seq<string>, x: string, r: seq<string>, last: string)
    requires multiset(r) == multiset(s) + multiset{x} && Ascending(r)
    requires Less(x, last) && forall i :: 0 <= i < |s| ==> LessEq(s[i], last)
    ensures Ascending(r + [last])
  {
    forall i | 0 <= i < |r| ensures LessEq(r[i], last) {
      assert r[i] in multiset(r);
      if r[i] != x { assert r[i] in multiset(s) && r[i] in s; }
    }
  }

  lemma LastIsGreatest(s: seq<string>, x: string)
    requires Ascending(s) && s != [] && !Less(x, s[|s| - 1])
    ensures Ascending(s + [x])
  {
    var h := |s| - 1;
    LessTotal(s[h], x);
    forall i | 0 <= i < |s| ensures LessEq(s[i], x) {
      if i < h && Less(s[i], s[h]) && Less(s[h], x) { LessTransitive(s[i], s[h], x); }
    }
  }

  function Sort(s: seq<string>): (r: seq<string>)
    ensures Ascending(r) && multiset(r) == multiset(s)
  {
    if s == [] then [] else
      assert s == s[..|s| - 1] + [s[|s| - 1]];
      InsertSorted(Sort(s[..|s| - 1]), s[|s| - 1])
  }

  /** `std::unique`: how many elements are left when one of equal neighbours is kept. */
  function UniqueCount(s: seq<string>): nat {
    if |s| <= 1 then |s|
    else UniqueCount(s[..|s| - 1]) + (if s[|s| - 1] == s[|s| - 2] then 0 else 1)
  }

  lemma {:induction false} UniqueCountsElements(s: seq<string>)
    requires Ascending(s)
    ensures UniqueCount(s) == |Elements(s)|
  {
    if s == [] {
      assert Elements(s) == {};
    } else if |s| == 1 {
      assert Elements(s) == {s[0]};
    } else {
      var h := |s| - 1;
      assert s == s[..h] + [s[h]];
      UniqueCountsElements(s[..h]);
      OneMoreElement(s[..h], s[h]);
      if s[h] == s[h - 1] {
        assert s[..h][h - 1] in Elements(s[..h]);
        assert Elements(s) == Elements(s[..h]);
      } else {
        NewAtTheEnd(s);
      }
    }
  }

  lemma NewAtTheEnd(s: seq<string>)
    requires Ascending(s) && |s| > 1 && s[|s| - 1] != s[|s| - 2]
    ensures s[|s| - 1] !in Elements(s[..|s| - 1])
  {
    var h := |s| - 1;
    forall i | 0 <= i < h ensures s[i] != s[h] {
      LessAsymmetric(s[h - 1], s[h]);
    }
  }

  lemma SortKeepsElements(s: seq<string>)
    ensures Elements(Sort(s)) == Elements(s)
  {
    var r := Sort(s);
    forall x | x in Elements(s) ensures x in Elements(r) {
      assert x in multiset(s);
      assert x in multiset(r) && x in r;
    }
    forall x | x in Elements(r) ensures x in Elements(s) {
      assert x in multiset(r);
      assert x in multiset(s) && x in s;
    }
  }

  // ---------------------------------------------------------------- planning and allocating

  /** How many strings PlanFieldNames plans: the fast paths and sort-and-unique give the number of different names. */
  method PlannedNames(name: string, jsonName: Option<string>) returns (n: nat)
    ensures n == NameCount(name, jsonName)
  {
    if jsonName.None? {
      var c := GetFieldNameCase(name);
      match c {
        case AllLower => FastPathCount(name); return 2;
        case SnakeCase => FastPathCount(name); return 3;
        case Other =>
      }
    }
    var names := [name, LowerString(name), ToCamelCase(name, true), JsonName(name, jsonName)];
    assert Elements(names) == NameSet(name, jsonName) by { FourElements(names); }
    UniqueCountsElements(Sort(names));
    SortKeepsElements(names);
    var unique := UniqueCount(Sort(names));
    return unique + 1;
  }

  lemma FourElements(s: seq<string>)
    requires |s| == 4
    ensures Elements(s) == {s[0], s[1], s[2], s[3]}
  {
  }

  lemma FastPathCount(name: string)
    requires StyleGuide(name)
    ensures NameCount(name, None) == if '_' in name then 3 else 2
  {
    StyleGuideNames(name);
    if '_' in name {
      assert NameSet(name, None) == {name, ToCamelCase(name, true)};
    } else {
      assert NameSet(name, None) == {name};
    }
  }

  datatype FieldNamesResult = FieldNamesResult(names: seq<string>, lowercaseIndex: nat, camelcaseIndex: nat,
                                               jsonIndex: nat)

  /** The array starts with the name and the full name, and each index leads to the name it is for. */
  ghost predicate NamesOk(r: FieldNamesResult, name: string, scope: string, jsonName: Option<string>) {
    && |r.names| >= 2 && r.names[0] == name && r.names[1] == FullName(name, scope)
    && r.lowercaseIndex < |r.names| && r.names[r.lowercaseIndex] == LowerString(name)
    && r.camelcaseIndex < |r.names| && r.names[r.camelcaseIndex] == ToCamelCase(name, true)
    && r.jsonIndex < |r.names| && r.names[r.jsonIndex] == JsonName(name, jsonName)
  }

  /** The names with the full name, at index 1, left out. */
  function Shared(names: seq<string>): seq<string>
    requires |names| >= 2
  {
    [names[0]] + names[2..]
  }

  /** No name is there twice, the full name apart. */
  ghost predicate NoneTwice(names: seq<string>) {
    forall i, j :: 0 <= i < j < |names| && i != 1 && j != 1 ==> names[i] != names[j]
  }

  /** Finds a name among those pushed, never matching the full name, or pushes it. */
  method PushName(names: seq<string>, newName: string) returns (r: seq<string>, index: nat)
    requires |names| >= 2
    ensures |r| >= 2 && names <= r && index < |r| && r[index] == newName
    ensures Elements(Shared(r)) == Elements(Shared(names)) + {newName}
    ensures |r| == |names| + (if newName in Elements(Shared(names)) then 0 else 1)
    ensures NoneTwice(names) ==> NoneTwice(r)
  {
    for i := 0 to |names|
      invariant forall k :: 0 <= k < i && k != 1 ==> names[k] != newName
    {
      if i != 1 && names[i] == newName {
        assert Shared(names)[if i == 0 then 0 else i - 1] == newName;
        return names, i;
      }
    }
    r, index := names + [newName], |names|;
    assert Shared(r) == Shared(names) + [newName];
    OneMoreElement(Shared(names), newName);
    forall k | 0 <= k < |Shared(names)| ensures Shared(names)[k] != newName {
      assert Shared(names)[k] == names[if k == 0 then 0 else k + 1];
    }
  }

  /** The names to allocate: the right ones at the right indexes, and as many as were planned. */
  method AllocatedNames(name: string, scope: string, jsonName: Option<string>) returns (r: FieldNamesResult)
    ensures NamesOk(r, name, scope, jsonName) && |r.names| == NameCount(name, jsonName)
    ensures r.names[0] == name && r.names[1] == if scope == "" then name else scope + "." + name
    ensures var lower := r.names[r.lowercaseIndex];
            && |lower| == |name|
            && forall i :: 0 <= i < |name| ==>
                 lower[i] == if 'A' <= name[i] <= 'Z' then (name[i] as int + 32) as char else name[i]
    ensures r.names[r.jsonIndex] == if jsonName.Some? then jsonName.value else ToJsonName(name)
    ensures r.names[r.camelcaseIndex] == ToCamelCase(name, true)
    ensures forall i, j :: 0 <= i < j < |r.names| && i != 1 && j != 1 ==> r.names[i] != r.names[j]
  {
    var fullName := FullName(name, scope);
    if jsonName.None? {
      var c := GetFieldNameCase(name);
      match c {
        case AllLower =>
          StyleGuideNames(name);
          FastPathCount(name);
          return FieldNamesResult([name, fullName], 0, 0, 0);
        case SnakeCase =>
          StyleGuideNames(name);
          FastPathCount(name);
          return FieldNamesResult([name, fullName, ToCamelCase(name, true)], 0, 2, 2);
        case Other =>
      }
    }
    r := PushNames(name, fullName, LowerString(name), ToCamelCase(name, true), JsonName(name, jsonName));
  }

  /** Pushes three more names after the first two, each only once. */
  method PushNames(name: string, fullName: string, lower: string, camel: string, json: string)
    returns (r: FieldNamesResult)
    ensures |r.names| == |{name, lower, camel, json}| + 1 && r.names[0] == name && r.names[1] == fullName
    ensures r.lowercaseIndex < |r.names| && r.names[r.lowercaseIndex] == lower
    ensures r.camelcaseIndex < |r.names| && r.names[r.camelcaseIndex] == camel
    ensures r.jsonIndex < |r.names| && r.names[r.jsonIndex] == json && NoneTwice(r.names)
  {
    hide Elements;
    var names := [name, fullName];
    assert Shared(names) == [name] && Elements([name]) == {name} by { OneElement(name); }
    var i, j, k;
    names, i := PushName(names, lower);
    names, j := PushName(names, camel);
    names, k := PushName(names, json);
    CountOfPushed(name, lower, camel, json);
    r := FieldNamesResult(names, i, j, k);
  }

  lemma OneElement(a: string)
    ensures Elements([a]) == {a}
  {
    OneMoreElement([], a);
    assert [] + [a] == [a];
  }

  lemma CountOfPushed(a: string, b: string, c: string, d: string)
    ensures |{a, b, c, d}| == 1 + (if b in {a} then 0 else 1) + (if c in {a} + {b} then 0 else 1)
                              + (if d in {a} + {b} + {c} then 0 else 1)
  {
    assert {a, b, c, d} == {a} + {b} + {c} + {d};
  }
}
