/** Which files of a database can be loaded: those whose imports all can, and that have no error of their own. */
module ImportSpec {
  import opened Names

  /** A file without weak imports. */
  datatype FileProto = FileProto(name: string, package: string, dependency: seq<string>, publicDependency: seq<int>)

  const MAXIMUM_PACKAGE_LENGTH := 511

  predicate Distinct(s: seq<string>) { forall i, j :: 0 <= i < j < |s| ==> s[i] != s[j] }

  predicate IndexesOk(indexes: seq<int>, n: nat) { forall i :: 0 <= i < |indexes| ==> 0 <= indexes[i] < n }

  /**
   * Nothing wrong with the file, its imports apart. The last condition stands for building and
   * cross-linking its contents.
   */
  ghost predicate LocalOk(p: FileProto, links: FileProto -> bool) {
    && |p.package| <= MAXIMUM_PACKAGE_LENGTH && CountDots(p.package) <= PACKAGE_LIMIT
    && '\0' !in p.name
    && Distinct(p.dependency) && p.name !in p.dependency
    && IndexesOk(p.publicDependency, |p.dependency|)
    && links(p)
  }

  /** What a file must be, in full. */
  lemma AcceptedFiles(p: FileProto, links: FileProto -> bool)
    ensures LocalOk(p, links) <==>
              && |p.package| <= 511 && |set i | 0 <= i < |p.package| && p.package[i] == '.'| <= 100
              && (forall i :: 0 <= i < |p.name| ==> p.name[i] != '\0')
              && (forall i, j :: 0 <= i < j < |p.dependency| ==> p.dependency[i] != p.dependency[j])
              && (forall i :: 0 <= i < |p.dependency| ==> p.dependency[i] != p.name)
              && (forall i :: 0 <= i < |p.publicDependency| ==> 0 <= p.publicDependency[i] < |p.dependency|)
              && links(p)
  {
    DotsAreCounted(p.package);
  }

  /** A database finds a file under its own name. */
  ghost predicate NameConsistent(db: map<string, FileProto>) {
    forall n :: n in db ==> db[n].name == n
  }

  /** Loadable by going no more than n imports deep, on top of files that are loaded already. */
  ghost predicate Good(db: map<string, FileProto>, loaded: set<string>, links: FileProto -> bool, name: string, n: nat)
    decreases n
  {
    name in loaded ||
    (n > 0 && name in db && LocalOk(db[name], links)
     && forall i :: 0 <= i < |db[name].dependency| ==> Good(db, loaded, links, db[name].dependency[i], n - 1))
  }

  ghost predicate Loadable(db: map<string, FileProto>, loaded: set<string>, links: FileProto -> bool, name: string) {
    exists n: nat :: Good(db, loaded, links, name, n)
  }

  lemma {:induction false} GoodDeeper(db: map<string, FileProto>, loaded: set<string>, links: FileProto -> bool,
                                      name: string, n: nat, m: nat)
    requires Good(db, loaded, links, name, n) && n <= m
    ensures Good(db, loaded, links, name, m)
    decreases n
  {
    if name !in loaded {
      forall i | 0 <= i < |db[name].dependency| ensures Good(db, loaded, links, db[name].dependency[i], m - 1) {
        GoodDeeper(db, loaded, links, db[name].dependency[i], n - 1, m - 1);
      }
    }
  }

  lemma {:induction false} CommonDepth(db: map<string, FileProto>, loaded: set<string>, links: FileProto -> bool,
                                       names: seq<string>)
    returns (n: nat)
    requires forall i :: 0 <= i < |names| ==> Loadable(db, loaded, links, names[i])
    ensures forall i :: 0 <= i < |names| ==> Good(db, loaded, links, names[i], n)
  {
    if names == [] {
      n := 0;
    } else {
      var h := |names| - 1;
      var k := CommonDepth(db, loaded, links, names[..h]);
      var m: nat :| Good(db, loaded, links, names[h], m);
      n := if k < m then m else k;
      forall i | 0 <= i < |names| ensures Good(db, loaded, links, names[i], n) {
        if i < h {
          assert names[..h][i] == names[i];
          GoodDeeper(db, loaded, links, names[i], k, n);
        } else {
          GoodDeeper(db, loaded, links, names[i], m, n);
        }
      }
    }
  }

  /** A file that is not loaded yet can be loaded exactly when it has no error and all its imports can be. */
  lemma LoadableByImports(db: map<string, FileProto>, loaded: set<string>, links: FileProto -> bool, name: string)
    requires name !in loaded
    ensures Loadable(db, loaded, links, name) <==>
              name in db && LocalOk(db[name], links)
              && forall i :: 0 <= i < |db[name].dependency| ==> Loadable(db, loaded, links, db[name].dependency[i])
  {
    hide LocalOk;
    if name in db && LocalOk(db[name], links)
       && forall i :: 0 <= i < |db[name].dependency| ==> Loadable(db, loaded, links, db[name].dependency[i]) {
      var n := CommonDepth(db, loaded, links, db[name].dependency);
      assert Good(db, loaded, links, name, n + 1);
    }
    if Loadable(db, loaded, links, name) {
      var n: nat :| Good(db, loaded, links, name, n);
      forall i | 0 <= i < |db[name].dependency| ensures Loadable(db, loaded, links, db[name].dependency[i]) {
        assert Good(db, loaded, links, db[name].dependency[i], n - 1);
      }
    }
  }

  lemma LoadedIsLoadable(db: map<string, FileProto>, loaded: set<string>, links: FileProto -> bool, name: string)
    requires name in loaded
    ensures Loadable(db, loaded, links, name)
  {
    assert Good(db, loaded, links, name, 0);
  }

  // ---------------------------------------------------------------- import cycles

  predicate Imports(db: map<string, FileProto>, a: string, b: string) { a in db && b in db[a].dependency }

  /** Each file of the chain imports the next. */
  ghost predicate Chain(db: map<string, FileProto>, p: seq<string>) {
    forall i :: 0 < i < |p| ==> Imports(db, p[i - 1], p[i])
  }

  lemma GoodImport(db: map<string, FileProto>, loaded: set<string>, links: FileProto -> bool, a: string, b: string,
                   n: nat)
    requires Good(db, loaded, links, a, n) && a !in loaded && Imports(db, a, b)
    ensures n > 0 && Good(db, loaded, links, b, n - 1)
  {
    var i :| 0 <= i < |db[a].dependency| && db[a].dependency[i] == b;
  }

  /** On a cycle of files that are not loaded no depth is enough. */
  lemma {:induction false} NoDepthOnCycle(db: map<string, FileProto>, loaded: set<string>, links: FileProto -> bool,
                                          p: seq<string>, i: nat, n: nat)
    requires Chain(db, p) && i < |p| && Imports(db, p[|p| - 1], p[0])
    requires forall k :: 0 <= k < |p| ==> p[k] !in loaded
    ensures !Good(db, loaded, links, p[i], n)
    decreases n
  {
    if Good(db, loaded, links, p[i], n) {
      var j := if i == |p| - 1 then 0 else i + 1;
      assert j > 0 ==> Imports(db, p[j - 1], p[j]);
      GoodImport(db, loaded, links, p[i], p[j], n);
      NoDepthOnCycle(db, loaded, links, p, j, n - 1);
    }
  }

  lemma CycleIsNotLoadable(db: map<string, FileProto>, loaded: set<string>, links: FileProto -> bool,
                           p: seq<string>, i: nat)
    requires Chain(db, p) && i < |p| && Imports(db, p[|p| - 1], p[0])
    requires forall k :: 0 <= k < |p| ==> p[k] !in loaded
    ensures !Loadable(db, loaded, links, p[i])
  {
    forall n: nat | true ensures !Good(db, loaded, links, p[i], n) { NoDepthOnCycle(db, loaded, links, p, i, n); }
  }

  /** What a loadable file reaches through imports is loadable. */
  lemma {:induction false} ReachedIsLoadable(db: map<string, FileProto>, links: FileProto -> bool, p: seq<string>)
    requires Chain(db, p) && p != [] && Loadable(db, {}, links, p[0])
    ensures Loadable(db, {}, links, p[|p| - 1])
    decreases |p|
  {
    if |p| > 1 {
      var n: nat :| Good(db, {}, links, p[0], n);
      assert Imports(db, p[1 - 1], p[1]);
      GoodImport(db, {}, links, p[0], p[1], n);
      var q := p[1..];
      forall i | 0 < i < |q| ensures Imports(db, q[i - 1], q[i]) {
        assert Imports(db, p[i + 1 - 1], p[i + 1]);
      }
      ReachedIsLoadable(db, links, q);
    }
  }

  /** A file that reaches an import cycle is never loadable, whatever linking says. */
  lemma ReachingACycleIsNotLoadable(db: map<string, FileProto>, links: FileProto -> bool, path: seq<string>,
                                    cycle: seq<string>)
    requires path != [] && Chain(db, path) && cycle != [] && Chain(db, cycle)
    requires path[|path| - 1] == cycle[0] && Imports(db, cycle[|cycle| - 1], cycle[0])
    ensures !Loadable(db, {}, links, path[0])
  {
    if Loadable(db, {}, links, path[0]) {
      ReachedIsLoadable(db, links, path);
      CycleIsNotLoadable(db, {}, links, cycle, 0);
    }
  }

  /** Loadability does not ask for more when less is asked of the contents, and loaded files may be taken as read. */
  lemma {:induction false} LoadableOnTop(db: map<string, FileProto>, loaded: set<string>, links: FileProto -> bool,
                                         any: FileProto -> bool, name: string, n: nat)
    requires forall p :: links(p) ==> any(p)
    requires forall f :: f in loaded ==> Loadable(db, {}, any, f)
    requires Good(db, loaded, links, name, n)
    ensures Loadable(db, {}, any, name)
    decreases n
  {
    if name !in loaded {
      forall i | 0 <= i < |db[name].dependency| ensures Loadable(db, {}, any, db[name].dependency[i]) {
        LoadableOnTop(db, loaded, links, any, db[name].dependency[i], n - 1);
      }
      LoadableByImports(db, {}, any, name);
    }
  }
}
