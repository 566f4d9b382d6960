/** Building files from a database: imports are loaded first, recursively, and a file with an error is rolled back. */
module ImportLoader {
  import opened Options
  import opened Names
  import opened ImportSpec

  /** Linking that never fails. */
  function Anything(): FileProto -> bool { (p: FileProto) => true }

  /** Files in the pool are those of the database, with all their imports. */
  ghost predicate FilesOk(db: map<string, FileProto>, files: map<string, FileProto>) {
    && (forall f :: f in files ==> f in db && files[f] == db[f])
    && (forall f, d :: f in files && d in files[f].dependency ==> d in files)
  }

  ghost predicate AllLoadable(db: map<string, FileProto>, loaded: set<string>, links: FileProto -> bool,
                              names: set<string>)
  {
    forall f :: f in names ==> Loadable(db, loaded, links, f)
  }

  ghost predicate NoneLoadable(db: map<string, FileProto>, loaded: set<string>, links: FileProto -> bool,
                               names: set<string>)
  {
    forall f :: f in names ==> !Loadable(db, loaded, links, f)
  }

  /** The files being built form a chain of imports, without repetition, and none of them is in the pool yet. */
  ghost predicate PendingOk(db: map<string, FileProto>, files: map<string, FileProto>, pending: seq<string>) {
    && Distinct(pending) && Chain(db, pending)
    && forall i :: 0 <= i < |pending| ==> pending[i] in db && pending[i] !in files
  }

  /** The state in the middle of a call that started with some files loaded. */
  ghost predicate LoadingOk(db: map<string, FileProto>, loaded: set<string>, links: FileProto -> bool,
                            files: map<string, FileProto>, pending: seq<string>, knownBad: set<string>) {
    && NameConsistent(db) && FilesOk(db, files) && loaded <= files.Keys
    && AllLoadable(db, loaded, links, files.Keys)
    && NoneLoadable(db, loaded, links, knownBad)
    && PendingOk(db, files, pending)
  }

  /** The file about to be looked for: nothing is being built, or what is built last imports it. */
  ghost predicate Wanted(db: map<string, FileProto>, pending: seq<string>, name: string) {
    pending == [] || Imports(db, pending[|pending| - 1], name)
  }

  function Left(db: map<string, FileProto>, pending: seq<string>): nat { |db.Keys - (set p | p in pending)| }

  lemma PushLeavesLess(db: map<string, FileProto>, pending: seq<string>, name: string)
    requires name in db && name !in pending
    ensures Left(db, pending + [name]) < Left(db, pending)
  {
    var a, b := db.Keys - (set p | p in pending), db.Keys - (set p | p in pending + [name]);
    assert b == a - {name} && name in a;
  }

  /** A file that is wanted while it is being built is on a cycle. */
  lemma PendingIsNotLoadable(db: map<string, FileProto>, loaded: set<string>, links: FileProto -> bool,
                             files: map<string, FileProto>, pending: seq<string>, knownBad: set<string>, i: nat)
    requires LoadingOk(db, loaded, links, files, pending, knownBad)
    requires i < |pending| && Wanted(db, pending, pending[i])
    ensures !Loadable(db, loaded, links, pending[i])
  {
    hide Loadable, LocalOk;
    var p := pending[i..];
    assert p[|p| - 1] == pending[|pending| - 1] && p[0] == pending[i];
    forall k | 0 < k < |p|
      ensures Imports(db, p[k - 1], p[k])
    {
      assert Imports(db, pending[i + k - 1], pending[i + k]);
    }
    CycleIsNotLoadable(db, loaded, links, p, 0);
  }

  lemma PendingGrows(db: map<string, FileProto>, files: map<string, FileProto>, pending: seq<string>, name: string)
    requires PendingOk(db, files, pending) && Wanted(db, pending, name)
    requires name in db && name !in files && name !in pending
    ensures PendingOk(db, files, pending + [name])
  {
  }

  lemma PendingShrinks(db: map<string, FileProto>, files: map<string, FileProto>, pending: seq<string>, name: string)
    requires PendingOk(db, files, pending + [name])
    ensures PendingOk(db, files, pending)
  {
    var p := pending + [name];
    assert forall i :: 0 <= i < |pending| ==> pending[i] == p[i];
    forall i | 0 < i < |pending| ensures Imports(db, pending[i - 1], pending[i]) { assert Imports(db, p[i - 1], p[i]); }
  }

  lemma FileAdded(db: map<string, FileProto>, loaded: set<string>, links: FileProto -> bool,
                  files: map<string, FileProto>, pending: seq<string>, knownBad: set<string>, name: string)
    requires LoadingOk(db, loaded, links, files, pending, knownBad)
    requires name in db && name !in pending && name !in files && LocalOk(db[name], links)
    requires forall i :: 0 <= i < |db[name].dependency| ==> db[name].dependency[i] in files
    ensures LoadingOk(db, loaded, links, files[name := db[name]], pending, knownBad)
  {
    hide Loadable, LocalOk;
    LoadableByImports(db, loaded, links, name);
    assert files[name := db[name]].Keys == files.Keys + {name};
  }

  lemma BadAdded(db: map<string, FileProto>, loaded: set<string>, links: FileProto -> bool,
                 files: map<string, FileProto>, pending: seq<string>, knownBad: set<string>, name: string)
    requires LoadingOk(db, loaded, links, files, pending, knownBad) && !Loadable(db, loaded, links, name)
    ensures LoadingOk(db, loaded, links, files, pending, knownBad + {name})
  {
    hide Loadable, LocalOk;
  }

  class DescriptorPool {
    const database: map<string, FileProto>
    var files: map<string, FileProto>
    var pendingFiles: seq<string>
    var knownBadFiles: set<string>
    /** The tables as they were when each open checkpoint was taken. */
    var checkpoints: seq<map<string, FileProto>>

    /** Between calls: every file in the pool is loadable from scratch, so its imports are there and have no cycle. */
    ghost predicate Valid()
      reads this
    {
      && NameConsistent(database) && FilesOk(database, files)
      && AllLoadable(database, {}, Anything(), files.Keys)
      && pendingFiles == [] && checkpoints == []
    }

    ghost predicate Loading(loaded: set<string>, links: FileProto -> bool)
      reads this
    {
      LoadingOk(database, loaded, links, files, pendingFiles, knownBadFiles) && checkpoints == []
    }

    constructor (database: map<string, FileProto>)
      requires NameConsistent(database)
      ensures Valid() && this.database == database && files == map[]
    {
      this.database := database;
      files, pendingFiles, knownBadFiles, checkpoints := map[], [], {}, [];
    }

    /**
     * A file is found exactly when it is in the pool or can be loaded on top of it. The pool may
     * grow by other files that could be loaded on the way, and by nothing else.
     */
    method FindFileByName(name: string, links: FileProto -> bool) returns (r: Option<FileProto>)
      requires Valid()
      modifies this
      ensures Valid() && old(files.Keys) <= files.Keys
      ensures r.Some? <==> Loadable(database, old(files.Keys), links, name)
      ensures r.Some? ==> name in files && r.value == files[name]
      ensures AllLoadable(database, old(files.Keys), links, files.Keys)
      ensures name in old(files) ==> r == Some(old(files)[name])
      ensures name !in old(files) && name !in database ==> r == None
      ensures name !in old(files) && name in database
              && (forall i :: 0 <= i < |database[name].dependency| ==> database[name].dependency[i] in old(files)) ==>
                var p := database[name];
                (r == Some(p) <==>
                   && |p.package| <= 511 && |set i | 0 <= i < |p.package| && p.package[i] == '.'| <= 100
                   && (forall i :: 0 <= i < |p.name| ==> p.name[i] != '\0')
                   && (forall i, j :: 0 <= i < j < |p.dependency| ==> p.dependency[i] != p.dependency[j])
                   && (forall i :: 0 <= i < |p.dependency| ==> p.dependency[i] != p.name)
                   && (forall i :: 0 <= i < |p.publicDependency| ==> 0 <= p.publicDependency[i] < |p.dependency|)
                   && links(p))
    {
      ghost var loaded := files.Keys;
      knownBadFiles := {};
      StartLoading(loaded, links);
      LoadableNow(name, links);
      if name in database { AcceptedFiles(database[name], links); }
      hide Loadable, LocalOk, LoadingOk;
      if name in files { return Some(files[name]); }
      var ok := TryFindFileInFallbackDatabase(name, loaded, links);
      FinishLoading(loaded, links);
      if ok { return Some(files[name]); }
      return None;
    }

    /** Without imports still to be loaded, the file alone decides. */
    lemma LoadableNow(name: string, links: FileProto -> bool)
      ensures name !in files && name !in database ==> !Loadable(database, files.Keys, links, name)
      ensures name !in files && name in database
              && (forall i :: 0 <= i < |database[name].dependency| ==> database[name].dependency[i] in files) ==>
                (Loadable(database, files.Keys, links, name) <==> LocalOk(database[name], links))
    {
      hide LocalOk;
      if name !in files { LoadableByImports(database, files.Keys, links, name); }
      forall f | f in files ensures Loadable(database, files.Keys, links, f) {
        LoadedIsLoadable(database, files.Keys, links, f);
      }
      hide Loadable;
      assert forall f :: f in files.Keys <==> f in files;
    }

    lemma StartLoading(loaded: set<string>, links: FileProto -> bool)
      requires Valid() && loaded == files.Keys && knownBadFiles == {}
      ensures Loading(loaded, links)
      ensures forall f :: f in files ==> Loadable(database, loaded, links, f)
    {
      hide Loadable;
      forall f | f in files
        ensures Loadable(database, loaded, links, f)
      {
        LoadedIsLoadable(database, loaded, links, f);
      }
    }

    lemma FinishLoading(loaded: set<string>, links: FileProto -> bool)
      requires Loading(loaded, links) && AllLoadable(database, {}, Anything(), loaded) && pendingFiles == []
      ensures Valid() && AllLoadable(database, loaded, links, files.Keys)
    {
      forall f | f in files ensures Loadable(database, {}, Anything(), f) {
        var n: nat :| Good(database, loaded, links, f, n);
        LoadableOnTop(database, loaded, links, Anything(), f, n);
      }
    }

    method TryFindFileInFallbackDatabase(name: string, ghost loaded: set<string>, links: FileProto -> bool)
      returns (ok: bool)
      requires Loading(loaded, links) && name !in files && Wanted(database, pendingFiles, name)
      modifies this
      ensures Loading(loaded, links) && pendingFiles == old(pendingFiles) && old(files.Keys) <= files.Keys
      ensures ok <==> Loadable(database, loaded, links, name)
      ensures ok ==> name in files
      decreases Left(database, pendingFiles), 3
    {
      hide Loadable, LocalOk, Wanted, PendingOk;
      if name in knownBadFiles { return false; }
      if name !in database {
        LoadableByImports(database, loaded, links, name);
        BadAdded(database, loaded, links, files, pendingFiles, knownBadFiles, name);
        knownBadFiles := knownBadFiles + {name};
        return false;
      }
      var r := BuildFileFromDatabase(database[name], loaded, links);
      if r.None? {
        BadAdded(database, loaded, links, files, pendingFiles, knownBadFiles, name);
        knownBadFiles := knownBadFiles + {name};
        return false;
      }
      return true;
    }

    method BuildFileFromDatabase(proto: FileProto, ghost loaded: set<string>, links: FileProto -> bool)
      returns (r: Option<FileProto>)
      requires Loading(loaded, links) && proto.name !in files && Wanted(database, pendingFiles, proto.name)
      requires proto.name in database && database[proto.name] == proto
      modifies this
      ensures Loading(loaded, links) && pendingFiles == old(pendingFiles) && old(files.Keys) <= files.Keys
      ensures r.Some? <==> Loadable(database, loaded, links, proto.name)
      ensures r.Some? ==> proto.name in files && r.value == files[proto.name]
      decreases Left(database, pendingFiles), 2
    {
      hide Loadable, LocalOk, Wanted, PendingOk;
      if proto.name in knownBadFiles { return None; }
      r := BuildFile(proto, loaded, links);
      if r.None? {
        BadAdded(database, loaded, links, files, pendingFiles, knownBadFiles, proto.name);
        knownBadFiles := knownBadFiles + {proto.name};
      }
    }

    /** Rejects a file that is being built already; else loads its imports, with no checkpoint open, and builds it. */
    method BuildFile(proto: FileProto, ghost loaded: set<string>, links: FileProto -> bool)
      returns (r: Option<FileProto>)
      requires Loading(loaded, links) && Wanted(database, pendingFiles, proto.name)
      requires proto.name in database && database[proto.name] == proto
      modifies this
      ensures Loading(loaded, links) && pendingFiles == old(pendingFiles) && old(files.Keys) <= files.Keys
      ensures r.Some? <==> Loadable(database, loaded, links, proto.name)
      ensures r.Some? ==> proto.name in files && r.value == files[proto.name]
      decreases Left(database, pendingFiles), 1
    {
      hide Loadable, LocalOk, LoadingOk, Wanted, Left;
      if proto.name in files && files[proto.name] == proto {
        LoadingFacts(loaded, links);
        return Some(files[proto.name]);
      }
      LoadingFacts(loaded, links);
      for i := 0 to |pendingFiles|
        invariant proto.name !in pendingFiles[..i]
      {
        if pendingFiles[i] == proto.name {
          PendingIsNotLoadable(database, loaded, links, files, pendingFiles, knownBadFiles, i);
          return None;
        }
        assert pendingFiles[..i + 1] == pendingFiles[..i] + [pendingFiles[i]];
      }
      assert pendingFiles[..|pendingFiles|] == pendingFiles;
      NotLoadedYet(loaded, links, proto);
      if |proto.package| > MAXIMUM_PACKAGE_LENGTH { return None; }
      LoadImports(proto, loaded, links);
      ghost var before := files;
      checkpoints := checkpoints + [files];
      var ok := BuildFileImpl(proto, links);
      if ok {
        FileAdded(database, loaded, links, before, pendingFiles, knownBadFiles, proto.name);
        checkpoints := checkpoints[..|checkpoints| - 1];
        return Some(proto);
      }
      files := checkpoints[|checkpoints| - 1];
      checkpoints := checkpoints[..|checkpoints| - 1];
      return None;
    }

    lemma LoadingFacts(loaded: set<string>, links: FileProto -> bool)
      requires Loading(loaded, links)
      ensures forall f :: f in files ==>
                f in database && files[f] == database[f] && Loadable(database, loaded, links, f)
      ensures loaded <= files.Keys
    {
    }

    /** What decides, once the file is known not to be loaded or pending. */
    lemma NotLoadedYet(loaded: set<string>, links: FileProto -> bool, proto: FileProto)
      requires proto.name !in loaded && proto.name in database && database[proto.name] == proto
      ensures Loadable(database, loaded, links, proto.name) <==>
                LocalOk(proto, links)
                && forall i :: 0 <= i < |proto.dependency| ==> Loadable(database, loaded, links, proto.dependency[i])
      ensures LocalOk(proto, links) ==> |proto.package| <= MAXIMUM_PACKAGE_LENGTH
    {
      LoadableByImports(database, loaded, links, proto.name);
    }

    /** Tries to load every import that is not in the pool, with the file on the list of pending files. */
    method LoadImports(proto: FileProto, ghost loaded: set<string>, links: FileProto -> bool)
      requires Loading(loaded, links) && Wanted(database, pendingFiles, proto.name)
      requires proto.name in database && database[proto.name] == proto
      requires proto.name !in files && proto.name !in pendingFiles
      modifies this
      ensures Loading(loaded, links) && pendingFiles == old(pendingFiles) && old(files.Keys) <= files.Keys
      ensures proto.name !in files
      ensures forall i :: 0 <= i < |proto.dependency| ==>
                (proto.dependency[i] in files <==> Loadable(database, loaded, links, proto.dependency[i]))
      decreases Left(database, pendingFiles), 0
    {
      hide Loadable, LocalOk, Left;
      PushLeavesLess(database, pendingFiles, proto.name);
      PendingGrows(database, files, pendingFiles, proto.name);
      pendingFiles := pendingFiles + [proto.name];
      for i := 0 to |proto.dependency|
        invariant Loading(loaded, links) && pendingFiles == old(pendingFiles) + [proto.name]
        invariant old(files.Keys) <= files.Keys
        invariant forall k :: 0 <= k < i ==>
                    (proto.dependency[k] in files <==> Loadable(database, loaded, links, proto.dependency[k]))
      {
        var name := proto.dependency[i];
        assert Wanted(database, pendingFiles, name);
        if name !in files {
          var _ := TryFindFileInFallbackDatabase(name, loaded, links);
        }
      }
      assert pendingFiles[|pendingFiles| - 1] == proto.name;
      PendingShrinks(database, files, old(pendingFiles), proto.name);
      pendingFiles := pendingFiles[..|pendingFiles| - 1];
    }

    /**
     * Succeeds exactly when the file has no error and its imports are in the pool. On failure the
     * tables are left as they are.
     */
    method BuildFileImpl(proto: FileProto, links: FileProto -> bool) returns (ok: bool)
      requires proto.name !in files && |proto.package| <= MAXIMUM_PACKAGE_LENGTH
      modifies this`files
      ensures ok <==> LocalOk(proto, links)
                      && forall i :: 0 <= i < |proto.dependency| ==> proto.dependency[i] in old(files)
      ensures ok ==> files == old(files)[proto.name := proto]
    {
      var hadErrors := false;
      if '\0' in proto.name { return false; }
      if proto.name in files { return false; }
      files := files[proto.name := proto];
      if proto.package != "" && CountDots(proto.package) > PACKAGE_LIMIT { return false; }
      var seen: set<string> := {};
      for i := 0 to |proto.dependency|
        invariant files == old(files)[proto.name := proto]
        invariant seen == (set k | 0 <= k < i :: proto.dependency[k])
        invariant forall k :: 0 <= k < i ==> proto.dependency[k] != proto.name
        invariant hadErrors <==> !(Distinct(proto.dependency[..i])
                                   && forall k :: 0 <= k < i ==> proto.dependency[k] in old(files))
      {
        var name := proto.dependency[i];
        OneMoreDistinct(proto.dependency, i);
        if name in seen { hadErrors := true; }
        seen := seen + {name};
        if name == proto.name {
          assert proto.dependency[i] == proto.name;
          return false;
        }
        if name !in files { hadErrors := true; }
      }
      assert proto.dependency[..|proto.dependency|] == proto.dependency;
      var good := CheckIndexes(proto.publicDependency, |proto.dependency|);
      if !good { hadErrors := true; }
      if !links(proto) { hadErrors := true; }
      ok := !hadErrors;
    }

    static method CheckIndexes(indexes: seq<int>, n: nat) returns (ok: bool)
      ensures ok <==> IndexesOk(indexes, n)
    {
      ok := true;
      for i := 0 to |indexes|
        invariant ok <==> IndexesOk(indexes[..i], n)
      {
        assert indexes[..i + 1] == indexes[..i] + [indexes[i]];
        if !(0 <= indexes[i] < n) {
          assert indexes[..i + 1][i] == indexes[i];
          ok := false;
        }
      }
      assert indexes[..|indexes|] == indexes;
    }
  }

  lemma NoDots(p: FileProto)
    ensures p.package == "" ==> |set i | 0 <= i < |p.package| && p.package[i] == '.'| == 0
  {
    if p.package == "" { assert (set i | 0 <= i < |p.package| && p.package[i] == '.') == {}; }
  }

  /** A file that imports two others, one of them publicly by its position: just 0 and 1 are positions. */
  method PublicPosition(index: int) returns (found: bool)
    ensures found <==> index == 0 || index == 1
  {
    var a, b := FileProto("a.proto", "", [], []), FileProto("b.proto", "", [], []);
    var c := FileProto("c.proto", "", ["a.proto", "b.proto"], [index]);
    hide LoadingOk, Loadable, LocalOk, AllLoadable, FilesOk;
    NoDots(a);
    NoDots(b);
    NoDots(c);
    AcceptedFiles(a, Anything());
    AcceptedFiles(b, Anything());
    AcceptedFiles(c, Anything());
    var db := map["a.proto" := a, "b.proto" := b, "c.proto" := c];
    LoadableByImports(db, {}, Anything(), "a.proto");
    LoadableByImports(db, {}, Anything(), "b.proto");
    LoadableByImports(db, {}, Anything(), "c.proto");
    assert LocalOk(a, Anything()) && LocalOk(b, Anything());
    assert c.publicDependency[0] == index;
    assert LocalOk(c, Anything()) <==> 0 <= index < 2;
    var pool := new DescriptorPool(db);
    assert pool.files.Keys == {};
    var r := pool.FindFileByName("c.proto", Anything());
    found := r.Some?;
  }

  lemma OneMoreDistinct(s: seq<string>, i: nat)
    requires i < |s|
    ensures Distinct(s[..i + 1]) <==> Distinct(s[..i]) && s[i] !in (set k | 0 <= k < i :: s[k])
  {
    var t := s[..i + 1];
    assert forall k :: 0 <= k < i ==> s[..i][k] == t[k] && t[k] == s[k];
    assert t[i] == s[i];
    if Distinct(t) { assert forall k :: 0 <= k < i ==> t[k] != t[i]; }
  }

  /** No file whose imports lead to a cycle ever gets into a pool. */
  lemma NoAcceptedCycle(pool: DescriptorPool, path: seq<string>, cycle: seq<string>)
    requires pool.Valid()
    requires path != [] && Chain(pool.database, path) && cycle != [] && Chain(pool.database, cycle)
    requires path[|path| - 1] == cycle[0] && Imports(pool.database, cycle[|cycle| - 1], cycle[0])
    ensures path[0] !in pool.files
  {
    if path[0] in pool.files {
      ReachingACycleIsNotLoadable(pool.database, Anything(), path, cycle);
    }
  }
}
