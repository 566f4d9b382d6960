/** How a descriptor builder resolves names: which files it may use, and innermost scope first. */
module ScopeLookup {
  import opened Options
  import opened Names

  datatype Kind = MESSAGE | FIELD | ONEOF | ENUM | ENUM_VALUE | SERVICE | METHOD | PACKAGE

  datatype Symbol = Symbol(kind: Kind, file: string) {
    predicate IsType() { kind == MESSAGE || kind == ENUM }
    predicate IsAggregate() { IsType() || kind == PACKAGE || kind == SERVICE }
  }

  /** A public import may be missing. */
  datatype FileInfo = FileInfo(package: string, publicDependency: seq<Option<string>>)

  datatype ResolveMode = LOOKUP_ALL | LOOKUP_TYPES

  /** What a lookup depends on. */
  datatype Env = Env(symbols: map<string, Symbol>, files: map<string, FileInfo>, file: string,
                     dependencies: set<string>, enforceDependencies: bool)

  ghost predicate EnvOk(env: Env) {
    && env.file in env.files && env.dependencies <= env.files.Keys
    && ImportsPresent(env.files)
  }

  ghost predicate ImportsPresent(files: map<string, FileInfo>) {
    forall f, i :: f in files && 0 <= i < |files[f].publicDependency| && files[f].publicDependency[i].Some? ==>
      files[f].publicDependency[i].value in files
  }

  // ---------------------------------------------------------------- public imports

  ghost predicate PublicImport(files: map<string, FileInfo>, a: string, b: string) {
    a in files && Some(b) in files[a].publicDependency
  }

  ghost predicate PublicPath(files: map<string, FileInfo>, p: seq<string>) {
    p != [] && forall i :: 0 < i < |p| ==> PublicImport(files, p[i - 1], p[i])
  }

  ghost predicate Reaches(files: map<string, FileInfo>, a: string, b: string) {
    exists p :: PublicPath(files, p) && p[0] == a && p[|p| - 1] == b
  }

  lemma ReachesItself(files: map<string, FileInfo>, a: string)
    ensures Reaches(files, a, a)
  {
    assert PublicPath(files, [a]);
  }

  lemma ReachesOnward(files: map<string, FileInfo>, a: string, b: string, c: string)
    requires PublicImport(files, a, b) && Reaches(files, b, c)
    ensures Reaches(files, a, c)
  {
    var p :| PublicPath(files, p) && p[0] == b && p[|p| - 1] == c;
    var q := [a] + p;
    forall i | 0 < i < |q| ensures PublicImport(files, q[i - 1], q[i]) {
      if i > 1 { assert PublicImport(files, p[i - 1 - 1], p[i - 1]); }
    }
    assert PublicPath(files, q);
  }

  /** A set that holds what its members import publicly holds all they reach. */
  lemma {:induction false} ClosedHoldsReached(files: map<string, FileInfo>, s: set<string>, p: seq<string>, i: nat)
    requires PublicPath(files, p) && p[0] in s && i < |p|
    requires forall a, b :: a in s && PublicImport(files, a, b) ==> b in s
    ensures p[i] in s
  {
    if i > 0 {
      ClosedHoldsReached(files, s, p, i - 1);
      assert PublicImport(files, p[i - 1], p[i]);
    }
  }

  /** A file reaches itself and the public imports of what it reaches. */
  lemma ReachesImports(files: map<string, FileInfo>, a: string, b: string, c: string)
    requires Reaches(files, a, b) && b in files && Some(c) in files[b].publicDependency
    ensures Reaches(files, a, a) && Reaches(files, a, c)
  {
    ReachesItself(files, a);
    var p :| PublicPath(files, p) && p[0] == a && p[|p| - 1] == b;
    var q := p + [c];
    forall i | 0 < i < |q| ensures PublicImport(files, q[i - 1], q[i]) {
      if i < |p| { assert PublicImport(files, p[i - 1], p[i]); }
    }
    assert PublicPath(files, q);
  }

  /** ... and nothing more: it is in every set that holds the file and the public imports of its members. */
  lemma ReachedIsLeast(files: map<string, FileInfo>, a: string, b: string, s: set<string>)
    requires Reaches(files, a, b) && a in s
    requires forall f, c :: f in s && f in files && Some(c) in files[f].publicDependency ==> c in s
    ensures b in s
  {
    var p :| PublicPath(files, p) && p[0] == a && p[|p| - 1] == b;
    ClosedHoldsReached(files, s, p, |p| - 1);
  }

  /** What was added to a set of files is reached from a file. */
  ghost predicate AddedReached(files: map<string, FileInfo>, from: string, was: set<string>, now: set<string>) {
    forall a :: a in now && a !in was ==> Reaches(files, from, a)
  }

  /** What was added came with all its public imports. */
  ghost predicate AddedClosed(files: map<string, FileInfo>, was: set<string>, now: set<string>) {
    forall a, b :: a in now && a !in was && PublicImport(files, a, b) ==> b in now
  }

  lemma NothingAdded(files: map<string, FileInfo>, s: set<string>)
    ensures AddedClosed(files, s, s)
  {
  }

  lemma AddedReachedSelf(files: map<string, FileInfo>, name: string, was: set<string>)
    ensures AddedReached(files, name, was, was) && AddedReached(files, name, was, was + {name})
  {
    hide Reaches;
    ReachesItself(files, name);
  }

  /** One public import of a file added with all it reaches. */
  lemma AddedByImport(files: map<string, FileInfo>, name: string, f: Option<string>,
                      was: set<string>, before: set<string>, now: set<string>)
    requires name in files && f in files[name].publicDependency && before <= now && was + {name} <= before
    requires AddedReached(files, name, was, before) && AddedClosed(files, was + {name}, before)
    requires if f.None? then now == before else AddedReached(files, f.value, before, now)
    requires AddedClosed(files, before, now)
    ensures AddedReached(files, name, was, now) && AddedClosed(files, was + {name}, now)
  {
    hide Reaches;
    forall a | a in now && a !in was ensures Reaches(files, name, a) {
      if a !in before { ReachesOnward(files, name, f.value, a); }
    }
  }

  lemma AllImportsAdded(files: map<string, FileInfo>, name: string, was: set<string>, now: set<string>)
    requires name in files && name in now && AddedClosed(files, was + {name}, now)
    requires forall k :: 0 <= k < |files[name].publicDependency| && files[name].publicDependency[k].Some? ==>
               files[name].publicDependency[k].value in now
    ensures AddedClosed(files, was, now)
  {
  }

  // ---------------------------------------------------------------- which symbols may be used

  /** A file is in a package when its own package is that one or inside it. */
  predicate IsInPackage(filePackage: string, package: string) { IsSubSymbol(package, filePackage) }

  /**
   * The symbol of a name, if the file being built may use it: one of its own, one of its
   * dependencies, or a package that it or any of its dependencies is in.
   */
  ghost function Visible(env: Env, name: string): Option<Symbol>
    requires EnvOk(env)
  {
    if name !in env.symbols then None
    else
      var s := env.symbols[name];
      if !env.enforceDependencies || s.file == env.file || s.file in env.dependencies
         || (s.kind == PACKAGE && exists f ::
               (f == env.file || f in env.dependencies) && IsInPackage(env.files[f].package, name))
      then Some(s) else None
  }

  /**
   * A package symbol may be used from any file of the package or of one inside it; any other from
   * its own file only.
   */
  lemma WhoMayUse(env: Env, name: string)
    requires EnvOk(env)
    ensures Visible(env, name) == (if name in env.symbols && MayUse(env, name) then Some(env.symbols[name]) else None)
    ensures name in env.symbols ==>
              (MayUse(env, name) <==>
                 || !env.enforceDependencies
                 || env.symbols[name].file == env.file || env.symbols[name].file in env.dependencies
                 || (env.symbols[name].kind == PACKAGE && exists f | f == env.file || f in env.dependencies ::
                       env.files[f].package == name || (exists rest :: env.files[f].package == name + "." + rest)))
  {
    forall f | f in env.files
      ensures IsInPackage(env.files[f].package, name) <==>
                env.files[f].package == name || (exists rest :: env.files[f].package == name + "." + rest)
    {
      SubSymbols(name, env.files[f].package);
    }
  }

  ghost predicate MayUse(env: Env, name: string)
    requires EnvOk(env)
  {
    Visible(env, name).Some?
  }

  // ---------------------------------------------------------------- resolving a name in a scope

  predicate FullyQualified(name: string) { name != "" && name[0] == '.' }

  function FirstPart(name: string): (r: string)
    ensures r <= name && '.' !in r && (r == name || name[|r|] == '.')
  {
    if name == "" || name[0] == '.' then "" else [name[0]] + FirstPart(name[1..])
  }

  function LastDot(s: string): (r: Option<nat>)
    ensures r.Some? ==> r.value < |s| && s[r.value] == '.' && '.' !in s[r.value + 1..]
    ensures r.None? ==> '.' !in s
  {
    if s == "" then None
    else if s[|s| - 1] == '.' then Some(|s| - 1)
    else
      var r := LastDot(s[..|s| - 1]);
      assert s == s[..|s| - 1] + [s[|s| - 1]];
      assert r.Some? ==> s[r.value + 1..] == s[..|s| - 1][r.value + 1..] + [s[|s| - 1]];
      r
  }

  /** Where a name is looked for when the scope ends at a dot of the name it is relative to. */
  function InScope(relativeTo: string, dot: nat, name: string): string
    requires dot < |relativeTo|
  {
    relativeTo[..dot] + "." + name
  }

  /** The scope ending at the dot decides: the name, or its first part as something that has parts, is there. */
  ghost predicate Decides(env: Env, name: string, relativeTo: string, mode: ResolveMode, dot: nat)
    requires EnvOk(env) && dot < |relativeTo|
  {
    relativeTo[dot] == '.' &&
    var found := Visible(env, InScope(relativeTo, dot, FirstPart(name)));
    found.Some? &&
    (if |FirstPart(name)| < |name| then found.value.IsAggregate()
     else mode == LOOKUP_TYPES ==> found.value.IsType())
  }

  /** Which kinds decide: a type or any symbol for a plain name, and what can hold parts for a compound one. */
  lemma WhatDecides(env: Env, name: string, relativeTo: string, mode: ResolveMode, dot: nat)
    requires EnvOk(env) && dot < |relativeTo|
    ensures Decides(env, name, relativeTo, mode, dot) <==>
              relativeTo[dot] == '.' &&
              var found := Visible(env, relativeTo[..dot] + "." + FirstPart(name));
              found.Some? &&
              (if '.' in name then found.value.kind in {MESSAGE, ENUM, PACKAGE, SERVICE}
               else mode == LOOKUP_TYPES ==> found.value.kind in {MESSAGE, ENUM})
    ensures '.' !in name ==> FirstPart(name) == name
    ensures '.' in name ==> FirstPart(name) < name && name[|FirstPart(name)|] == '.' && '.' !in FirstPart(name)
  {
  }

  ghost predicate Innermost(env: Env, name: string, relativeTo: string, mode: ResolveMode, dot: nat)
    requires EnvOk(env) && dot < |relativeTo|
  {
    && Decides(env, name, relativeTo, mode, dot)
    && forall d :: dot < d < |relativeTo| ==> !Decides(env, name, relativeTo, mode, d)
  }

  /** The innermost scope that decides, and no other, gives the answer; without one it is the name itself. */
  ghost predicate Resolves(env: Env, name: string, relativeTo: string, mode: ResolveMode, r: Option<Symbol>)
    requires EnvOk(env)
  {
    if FullyQualified(name) then r == Visible(env, name[1..])
    else
      && (forall dot :: 0 <= dot < |relativeTo| && Innermost(env, name, relativeTo, mode, dot) ==>
            r == Visible(env, InScope(relativeTo, dot, name)))
      && ((forall dot :: 0 <= dot < |relativeTo| ==> !Decides(env, name, relativeTo, mode, dot)) ==>
            r == Visible(env, name))
  }

  /** The answer is looked up where the last scope ends that decides, or by itself. */
  lemma WhereResolved(env: Env, name: string, relativeTo: string, mode: ResolveMode, r: Option<Symbol>, dot: nat)
    requires EnvOk(env) && Resolves(env, name, relativeTo, mode, r)
    requires dot < |relativeTo| && forall d :: dot < d < |relativeTo| ==> !Decides(env, name, relativeTo, mode, d)
    ensures if name != "" && name[0] == '.' then r == Visible(env, name[1..])
            else
              && (Decides(env, name, relativeTo, mode, dot) ==> r == Visible(env, relativeTo[..dot] + "." + name))
              && (dot == 0 && !Decides(env, name, relativeTo, mode, dot) ==> r == Visible(env, name))
  {
    hide Decides, Visible;
    if Decides(env, name, relativeTo, mode, dot) { assert Innermost(env, name, relativeTo, mode, dot); }
  }

  lemma {:induction false} InnermostExists(env: Env, name: string, relativeTo: string, mode: ResolveMode, below: nat)
    returns (innermost: Option<nat>)
    requires EnvOk(env) && below <= |relativeTo|
    requires forall d :: below <= d < |relativeTo| ==> !Decides(env, name, relativeTo, mode, d)
    ensures innermost.None? ==> forall d :: 0 <= d < |relativeTo| ==> !Decides(env, name, relativeTo, mode, d)
    ensures innermost.Some? ==>
              innermost.value < |relativeTo| && Innermost(env, name, relativeTo, mode, innermost.value)
    decreases below
  {
    hide Decides;
    if below == 0 { return None; }
    if Decides(env, name, relativeTo, mode, below - 1) { return Some(below - 1); }
    innermost := InnermostExists(env, name, relativeTo, mode, below - 1);
  }

  /** There is exactly one answer. */
  lemma ResolvesIsUnique(env: Env, name: string, relativeTo: string, mode: ResolveMode, r: Option<Symbol>,
                         r': Option<Symbol>)
    requires EnvOk(env) && Resolves(env, name, relativeTo, mode, r) && Resolves(env, name, relativeTo, mode, r')
    ensures r == r'
  {
    hide Decides, Visible;
    var _ := InnermostExists(env, name, relativeTo, mode, |relativeTo|);
  }

  // ---------------------------------------------------------------- against the documented behaviour

  /**
   * What the documentation promises: the first symbol found, trying the whole name in every scope,
   * innermost first. When types are wanted, a scope where a name without dots is no type does not
   * count; a name with dots, and the last try, may give something else.
   */
  ghost predicate FirstFound(env: Env, name: string, relativeTo: string, mode: ResolveMode, r: Option<Symbol>)
    requires EnvOk(env)
  {
    && (forall dot :: 0 <= dot < |relativeTo| && First(env, name, relativeTo, mode, dot) ==>
          r == Visible(env, InScope(relativeTo, dot, name)))
    && ((forall dot :: 0 <= dot < |relativeTo| ==> !Holds(env, name, relativeTo, mode, dot)) ==>
          r == Visible(env, name))
  }

  ghost predicate Holds(env: Env, name: string, relativeTo: string, mode: ResolveMode, dot: nat)
    requires EnvOk(env) && dot < |relativeTo|
  {
    relativeTo[dot] == '.' &&
    var found := Visible(env, InScope(relativeTo, dot, name));
    found.Some? && (mode == LOOKUP_TYPES && FirstPart(name) == name ==> found.value.IsType())
  }

  ghost predicate First(env: Env, name: string, relativeTo: string, mode: ResolveMode, dot: nat)
    requires EnvOk(env) && dot < |relativeTo|
  {
    && Holds(env, name, relativeTo, mode, dot)
    && forall d :: dot < d < |relativeTo| ==> !Holds(env, name, relativeTo, mode, d)
  }

  /** The documented answer, where the last scope ends that has the whole name, as a type if one is wanted. */
  lemma WhereDocumented(env: Env, name: string, relativeTo: string, mode: ResolveMode, r: Option<Symbol>, dot: nat)
    requires EnvOk(env) && FirstFound(env, name, relativeTo, mode, r)
    requires dot < |relativeTo| && forall d :: dot < d < |relativeTo| ==> !Holds(env, name, relativeTo, mode, d)
    ensures var found := Visible(env, relativeTo[..dot] + "." + name);
            if relativeTo[dot] == '.' && found.Some?
               && (mode == LOOKUP_TYPES && '.' !in name ==> found.value.kind in {MESSAGE, ENUM})
            then r == found
            else dot == 0 ==> r == Visible(env, name)
  {
    hide Visible;
    WhatDecides(env, name, relativeTo, mode, dot);
    if Holds(env, name, relativeTo, mode, dot) { assert First(env, name, relativeTo, mode, dot); }
  }

  /** Every visible symbol stands in something that has parts. */
  ghost predicate ParentsVisible(env: Env)
    requires EnvOk(env)
  {
    forall n, i :: Visible(env, n).Some? && 0 <= i < |n| && n[i] == '.' ==>
      Visible(env, n[..i]).Some? && Visible(env, n[..i]).value.IsAggregate()
  }

  /** A scope that has the whole name decides. */
  lemma HoldsDecides(env: Env, name: string, relativeTo: string, mode: ResolveMode, dot: nat)
    requires EnvOk(env) && ParentsVisible(env) && dot < |relativeTo| && Holds(env, name, relativeTo, mode, dot)
    ensures Decides(env, name, relativeTo, mode, dot)
  {
    hide Visible;
    var first := FirstPart(name);
    var whole := InScope(relativeTo, dot, name);
    if |first| < |name| {
      var i := dot + 1 + |first|;
      assert whole[..i] == InScope(relativeTo, dot, first) by { assert name[..|first|] == first; }
      assert whole[i] == name[|first|];
    } else {
      assert first == name;
    }
  }

  /** An inner scope has the first part of the name but not all of it, and hides an outer one that has. */
  ghost predicate Hidden(env: Env, name: string, relativeTo: string, mode: ResolveMode)
    requires EnvOk(env)
  {
    exists inner ::
      && 0 <= inner < |relativeTo| && Decides(env, name, relativeTo, mode, inner)
      && (forall d :: inner <= d < |relativeTo| ==> !Holds(env, name, relativeTo, mode, d))
      && ((exists d :: 0 <= d < inner && Holds(env, name, relativeTo, mode, d)) || Visible(env, name).Some?)
  }

  /** The code answers as documented, unless an inner scope hides the answer. */
  lemma DocumentedUnlessHidden(env: Env, name: string, relativeTo: string, mode: ResolveMode, r: Option<Symbol>,
                               documented: Option<Symbol>)
    requires EnvOk(env) && ParentsVisible(env) && !FullyQualified(name)
    requires Resolves(env, name, relativeTo, mode, r) && FirstFound(env, name, relativeTo, mode, documented)
    ensures r == documented <==> !Hidden(env, name, relativeTo, mode)
    ensures Hidden(env, name, relativeTo, mode) ==> r == None
  {
    var decides := InnermostExists(env, name, relativeTo, mode, |relativeTo|);
    var holds := FirstExists(env, name, relativeTo, mode, |relativeTo|);
    forall d | 0 <= d < |relativeTo| && Holds(env, name, relativeTo, mode, d)
      ensures Decides(env, name, relativeTo, mode, d)
    {
      HoldsDecides(env, name, relativeTo, mode, d);
    }
    DecidesIsADot(env, name, relativeTo, mode);
    hide Decides, Holds, Visible;
    if decides.Some? {
      if holds.Some? {
        assert holds.value <= decides.value;
      }
    }
  }

  lemma DecidesIsADot(env: Env, name: string, relativeTo: string, mode: ResolveMode)
    requires EnvOk(env)
    ensures forall d :: 0 <= d < |relativeTo| && Decides(env, name, relativeTo, mode, d) ==>
              (Holds(env, name, relativeTo, mode, d) <==> Visible(env, InScope(relativeTo, d, name)).Some?)
    ensures forall d :: 0 <= d < |relativeTo| && Holds(env, name, relativeTo, mode, d) ==>
              Visible(env, InScope(relativeTo, d, name)).Some?
  {
    hide Visible;
  }

  lemma {:induction false} FirstExists(env: Env, name: string, relativeTo: string, mode: ResolveMode, below: nat)
    returns (dot: Option<nat>)
    requires EnvOk(env) && below <= |relativeTo|
    requires forall d :: below <= d < |relativeTo| ==> !Holds(env, name, relativeTo, mode, d)
    ensures dot.None? ==> forall d :: 0 <= d < |relativeTo| ==> !Holds(env, name, relativeTo, mode, d)
    ensures dot.Some? ==> dot.value < |relativeTo| && First(env, name, relativeTo, mode, dot.value)
    decreases below
  {
    hide Holds;
    if below == 0 { return None; }
    if Holds(env, name, relativeTo, mode, below - 1) { return Some(below - 1); }
    dot := FirstExists(env, name, relativeTo, mode, below - 1);
  }

  /** From inside Foo, "Bar.Baz" is not found at the top level when Foo has a Bar of its own. */
  lemma BarOfFooHidesBar(env: Env)
    requires EnvOk(env) && !env.enforceDependencies
    requires env.symbols == map["Foo" := Symbol(MESSAGE, env.file), "Foo.Bar" := Symbol(MESSAGE, env.file),
                                "Bar" := Symbol(MESSAGE, env.file), "Bar.Baz" := Symbol(MESSAGE, env.file)]
    ensures forall mode :: Hidden(env, "Bar.Baz", "Foo.baz", mode)
    ensures Visible(env, "Bar.Baz").Some? && forall mode :: Resolves(env, "Bar.Baz", "Foo.baz", mode, None)
  {
    var name, relativeTo := "Bar.Baz", "Foo.baz";
    FirstPartIs("Bar", name);
    assert InScope(relativeTo, 3, "Bar") == "Foo.Bar";
    assert InScope(relativeTo, 3, name) == "Foo.Bar.Baz";
    forall mode
      ensures Hidden(env, name, relativeTo, mode) && Resolves(env, name, relativeTo, mode, None)
    {
      assert Decides(env, name, relativeTo, mode, 3);
      assert !Holds(env, name, relativeTo, mode, 3);
      assert Innermost(env, name, relativeTo, mode, 3);
    }
  }

  lemma {:induction false} FirstPartIs(first: string, name: string)
    requires first < name && '.' !in first && name[|first|] == '.'
    ensures FirstPart(name) == first
  {
    if first != "" {
      assert name[0] == first[0] && first[0] in first;
      FirstPartIs(first[1..], name[1..]);
    }
  }

  // ---------------------------------------------------------------- the builder

  class DescriptorBuilder {
    const symbols: map<string, Symbol>
    const files: map<string, FileInfo>
    const file: string
    const enforceDependencies: bool
    var dependencies: set<string>
    /** The name that a committed lookup missed, for the error message. */
    var undefineResolvedName: string

    ghost function Now(): Env
      reads this
    {
      Env(symbols, files, file, dependencies, enforceDependencies)
    }

    ghost predicate Valid()
      reads this
    {
      EnvOk(Now())
    }

    constructor (symbols: map<string, Symbol>, files: map<string, FileInfo>, file: string, enforceDependencies: bool)
      requires file in files && ImportsPresent(files)
      ensures Valid() && this.symbols == symbols && this.files == files && this.file == file
      ensures this.enforceDependencies == enforceDependencies && dependencies == {}
    {
      this.symbols, this.files, this.file := symbols, files, file;
      this.enforceDependencies := enforceDependencies;
      dependencies, undefineResolvedName := {}, "";
    }

    /**
     * Adds a file and what it imports publicly. What is added is reached from it, and nothing
     * added misses an import.
     */
    method RecordPublicDependencies(f: Option<string>)
      requires Valid() && (f.Some? ==> f.value in files)
      modifies this`dependencies
      ensures Valid() && old(dependencies) <= dependencies
      ensures if f.None? then dependencies == old(dependencies)
              else f.value in dependencies && AddedReached(files, f.value, old(dependencies), dependencies)
      ensures AddedClosed(files, old(dependencies), dependencies)
      decreases |files.Keys - dependencies|
    {
      hide Reaches, PublicImport, AddedReached, AddedClosed;
      NothingAdded(files, dependencies);
      if f.None? { return; }
      if f.value in dependencies {
        AddedReachedSelf(files, f.value, dependencies);
        return;
      }
      var name := f.value;
      ghost var was := dependencies;
      SmallerSet(files.Keys - (was + {name}), files.Keys - was);
      dependencies := dependencies + {name};
      AddedReachedSelf(files, name, was);
      NothingAdded(files, dependencies);
      var imports := files[name].publicDependency;
      for i := 0 to |imports|
        invariant Valid() && was + {name} <= dependencies
        invariant AddedReached(files, name, was, dependencies) && AddedClosed(files, was + {name}, dependencies)
        invariant forall k :: 0 <= k < i && imports[k].Some? ==> imports[k].value in dependencies
      {
        ghost var before := dependencies;
        SmallerOrSame(files.Keys - before, files.Keys - (was + {name}));
        RecordPublicDependencies(imports[i]);
        AddedByImport(files, name, imports[i], was, before, dependencies);
      }
      AllImportsAdded(files, name, was, dependencies);
    }

    /** The dependencies of the file being built: all that its direct imports reach through public imports. */
    method RecordAllDependencies(direct: seq<Option<string>>)
      requires Valid() && forall i :: 0 <= i < |direct| && direct[i].Some? ==> direct[i].value in files
      modifies this`dependencies
      ensures Valid()
      ensures forall a :: a in dependencies <==> exists d :: Some(d) in direct && Reaches(files, d, a)
    {
      hide Reaches;
      dependencies := {};
      for i := 0 to |direct|
        invariant Valid()
        invariant forall k :: 0 <= k < i && direct[k].Some? ==> direct[k].value in dependencies
        invariant forall a :: a in dependencies ==> exists d :: Some(d) in direct && Reaches(files, d, a)
        invariant forall a, b :: a in dependencies && PublicImport(files, a, b) ==> b in dependencies
      {
        ghost var before := dependencies;
        RecordPublicDependencies(direct[i]);
        forall a | a in dependencies ensures exists d :: Some(d) in direct && Reaches(files, d, a) {
          if a !in before { assert direct[i] in direct && Reaches(files, direct[i].value, a); }
        }
      }
      forall d, a | Some(d) in direct && Reaches(files, d, a) ensures a in dependencies {
        ReachedFrom(files, dependencies, d, a);
      }
    }

    /** Looks a symbol up in the table, and gives it back if the file being built may use it. */
    /** Who may use a symbol, in terms of the builder. */
    lemma WhatIsFound(name: string)
      requires Valid()
      ensures var r := Visible(Now(), name);
              if name !in symbols then r == None
              else
                var s := symbols[name];
                && (r == None || r == Some(s))
                && (r == Some(s) <==>
                      || !enforceDependencies || s.file == file || s.file in dependencies
                      || (s.kind == PACKAGE && exists f | f == file || f in dependencies ::
                            files[f].package == name || (exists rest :: files[f].package == name + "." + rest)))
    {
      WhoMayUse(Now(), name);
      hide MayUse;
    }

    method FindSymbol(name: string) returns (r: Option<Symbol>)
      requires Valid()
      ensures r == Visible(Now(), name)
    {
      if name !in symbols { return None; }
      var result := symbols[name];
      if !enforceDependencies { return Some(result); }
      if result.file == file || result.file in dependencies { return Some(result); }
      if result.kind == PACKAGE {
        if IsInPackage(files[file].package, name) { return Some(result); }
        var left := dependencies;
        while left != {}
          invariant left <= dependencies
          invariant forall f :: f in dependencies && f !in left ==> !IsInPackage(files[f].package, name)
          decreases |left|
        {
          var f :| f in left;
          if IsInPackage(files[f].package, name) { return Some(result); }
          left := left - {f};
        }
      }
      return None;
    }

    /** Chops the scope off one component at a time, and commits to the first one that decides. */
    method LookupSymbolNoPlaceholder(name: string, relativeTo: string, mode: ResolveMode) returns (r: Option<Symbol>)
      requires Valid()
      modifies this`undefineResolvedName
      ensures Resolves(Now(), name, relativeTo, mode, r)
      ensures name != "" && name[0] == '.' ==> r == Visible(Now(), name[1..])
      ensures undefineResolvedName != "" <==> r.None? && Commits(Now(), name, relativeTo, mode, undefineResolvedName)
    {
      hide Visible, IsSubSymbol, Commits, Resolves;
      ghost var env := Now();
      undefineResolvedName := "";
      NoNameCommits(env, name, relativeTo, mode);
      if name != "" && name[0] == '.' {
        r := FindSymbol(name[1..]);
        ByItself(env, name, relativeTo, mode);
        return;
      }
      var first := FirstPart(name);
      var scopeToTry := relativeTo;
      while true
        invariant undefineResolvedName == "" && Now() == env
        invariant scopeToTry == relativeTo[..|scopeToTry|] && |scopeToTry| <= |relativeTo|
        invariant forall d :: |scopeToTry| <= d < |relativeTo| ==> !Decides(env, name, relativeTo, mode, d)
        decreases |scopeToTry|
      {
        var dot := LastDot(scopeToTry);
        if dot.None? {
          NoDotAtAll(scopeToTry, relativeTo);
          ByItself(env, name, relativeTo, mode);
          r := FindSymbol(name);
          return;
        }
        NoDotAfter(scopeToTry, relativeTo, dot.value);
        scopeToTry := scopeToTry[..dot.value];
        var oldSize := |scopeToTry|;
        scopeToTry := scopeToTry + "." + first;
        assert scopeToTry == InScope(relativeTo, oldSize, first);
        var result := FindSymbol(scopeToTry);
        if result.Some? {
          if |first| < |name| {
            if result.value.IsAggregate() {
              assert scopeToTry + name[|first|..] == InScope(relativeTo, oldSize, name);
              scopeToTry := scopeToTry + name[|first|..];
              Committed(env, name, relativeTo, mode, oldSize);
              r := FindSymbol(scopeToTry);
              if r.None? { undefineResolvedName := scopeToTry; }
              return;
            }
          } else if !(mode == LOOKUP_TYPES && !result.value.IsType()) {
            assert first == name;
            Committed(env, name, relativeTo, mode, oldSize);
            return result;
          }
        }
        scopeToTry := scopeToTry[..oldSize];
      }
    }
  }

  /** The full name a lookup has committed to, when it has and the name has more than one part. */
  ghost predicate Commits(env: Env, name: string, relativeTo: string, mode: ResolveMode, full: string)
    requires EnvOk(env)
  {
    && !FullyQualified(name) && |FirstPart(name)| < |name|
    && exists dot ::
         && 0 <= dot < |relativeTo| && Innermost(env, name, relativeTo, mode, dot)
         && full == InScope(relativeTo, dot, name)
  }

  lemma NoNameCommits(env: Env, name: string, relativeTo: string, mode: ResolveMode)
    requires EnvOk(env)
    ensures !Commits(env, name, relativeTo, mode, "")
  {
    hide Innermost;
  }

  lemma Committed(env: Env, name: string, relativeTo: string, mode: ResolveMode, dot: nat)
    requires EnvOk(env) && !FullyQualified(name) && dot < |relativeTo| && Innermost(env, name, relativeTo, mode, dot)
    ensures Resolves(env, name, relativeTo, mode, Visible(env, InScope(relativeTo, dot, name)))
    ensures |FirstPart(name)| < |name| ==> Commits(env, name, relativeTo, mode, InScope(relativeTo, dot, name))
  {
    hide Visible, Decides;
  }

  lemma ByItself(env: Env, name: string, relativeTo: string, mode: ResolveMode)
    requires EnvOk(env)
    requires !FullyQualified(name) ==> forall d :: 0 <= d < |relativeTo| ==> !Decides(env, name, relativeTo, mode, d)
    ensures Resolves(env, name, relativeTo, mode, Visible(env, if FullyQualified(name) then name[1..] else name))
  {
    hide Visible, Decides;
  }

  lemma NoDotAtAll(scope: string, relativeTo: string)
    requires |scope| <= |relativeTo| && scope == relativeTo[..|scope|] && '.' !in scope
    ensures forall d :: 0 <= d < |scope| ==> relativeTo[d] != '.'
  {
    forall d | 0 <= d < |scope| ensures relativeTo[d] != '.' { assert scope[d] in scope; }
  }

  lemma NoDotAfter(scope: string, relativeTo: string, dot: nat)
    requires |scope| <= |relativeTo| && scope == relativeTo[..|scope|] && dot < |scope| && '.' !in scope[dot + 1..]
    ensures forall d :: dot < d < |scope| ==> relativeTo[d] != '.'
  {
    forall d | dot < d < |scope| ensures relativeTo[d] != '.' { assert scope[dot + 1..][d - dot - 1] == relativeTo[d]; }
  }

  lemma SmallerSet(a: set<string>, b: set<string>)
    requires a < b
    ensures |a| < |b|
  {
    assert b == a + (b - a) && |b| == |a| + |b - a|;
    assert b - a != {};
  }

  lemma SmallerOrSame(a: set<string>, b: set<string>)
    requires a <= b
    ensures |a| <= |b|
  {
    assert b == a + (b - a) && |b| == |a| + |b - a|;
  }

  lemma ReachedFrom(files: map<string, FileInfo>, s: set<string>, d: string, a: string)
    requires d in s && Reaches(files, d, a)
    requires forall a, b :: a in s && PublicImport(files, a, b) ==> b in s
    ensures a in s
  {
    var p :| PublicPath(files, p) && p[0] == d && p[|p| - 1] == a;
    ClosedHoldsReached(files, s, p, |p| - 1);
  }
}
