/** DescriptorPool::Tables: three lookup tables and two stacks of allocations, with nested checkpoints. */
module Tables {

  /** Every object lives in one allocation, and may be read only while that allocation is there. */
  datatype Symbol = Symbol(owner: nat, id: nat, fullName: string)
  datatype File = File(owner: nat, name: string)
  datatype Type = Type(owner: nat, id: nat)
  datatype Field = Field(owner: nat, extendee: Type, number: int)

  datatype Contents = Contents(symbols: map<string, Symbol>, files: map<string, File>,
                               extensions: map<(Type, int), Field>,
                               symbolLog: seq<Symbol>, fileLog: seq<File>, extensionLog: seq<(Type, int)>,
                               flatAllocs: seq<nat>, miscAllocs: seq<nat>)

  datatype CheckPoint = CheckPoint(flat: nat, misc: nat, symbols: nat, files: nat, extensions: nat)

  /** Allocations are numbered as they are made, and no number is used twice. */
  datatype Machine = Machine(contents: Contents, checkpoints: seq<CheckPoint>, nextId: nat)

  datatype Op =
    | AddCheckpoint | ClearLastCheckpoint | RollbackToLastCheckpoint
    | AddSymbol(symbol: Symbol) | AddFile(file: File) | AddExtension(field: Field)
    | AllocateBytes(size: nat) | CreateFlatAlloc

  // ---------------------------------------------------------------- what each operation does

  function Mark(c: Contents): CheckPoint {
    CheckPoint(|c.flatAllocs|, |c.miscAllocs|, |c.symbolLog|, |c.fileLog|, |c.extensionLog|)
  }

  predicate Within(p: CheckPoint, c: Contents) { NotAfter(p, Mark(c)) }

  predicate NotAfter(p: CheckPoint, q: CheckPoint) {
    p.flat <= q.flat && p.misc <= q.misc && p.symbols <= q.symbols && p.files <= q.files && p.extensions <= q.extensions
  }

  function NamesOf(log: seq<Symbol>): set<string> { set i | 0 <= i < |log| :: log[i].fullName }
  function FileNamesOf(log: seq<File>): set<string> { set i | 0 <= i < |log| :: log[i].name }
  function KeysOf(log: seq<(Type, int)>): set<(Type, int)> { set i | 0 <= i < |log| :: log[i] }

  /** The contents as they were at a checkpoint: everything logged or allocated after it removed. */
  function Undo(c: Contents, p: CheckPoint): Contents
    requires Within(p, c)
  {
    Contents(c.symbols - NamesOf(c.symbolLog[p.symbols..]),
             c.files - FileNamesOf(c.fileLog[p.files..]),
             c.extensions - KeysOf(c.extensionLog[p.extensions..]),
             c.symbolLog[..p.symbols], c.fileLog[..p.files], c.extensionLog[..p.extensions],
             c.flatAllocs[..p.flat], c.miscAllocs[..p.misc])
  }

  predicate Live(c: Contents, owner: nat) { owner in c.flatAllocs || owner in c.miscAllocs }

  predicate CanDo(m: Machine, op: Op) {
    match op
    case AddCheckpoint => true
    case ClearLastCheckpoint => m.checkpoints != []
    case RollbackToLastCheckpoint => m.checkpoints != []
    case AddSymbol(s) => Live(m.contents, s.owner)
    case AddFile(f) => Live(m.contents, f.owner)
    case AddExtension(f) => Live(m.contents, f.owner) && Live(m.contents, f.extendee.owner)
    case AllocateBytes(_) => true
    case CreateFlatAlloc => true
  }

  function Do(m: Machine, op: Op): Machine
    requires StackOk(m) && CanDo(m, op)
  {
    var c := m.contents;
    match op
    case AddCheckpoint => m.(checkpoints := m.checkpoints + [Mark(c)])
    case ClearLastCheckpoint =>
      var left := m.checkpoints[..|m.checkpoints| - 1];
      Machine(if left == [] then c.(symbolLog := [], fileLog := [], extensionLog := []) else c, left, m.nextId)
    case RollbackToLastCheckpoint =>
      var top := |m.checkpoints| - 1;
      Machine(Undo(c, m.checkpoints[top]), m.checkpoints[..top], m.nextId)
    case AddSymbol(s) =>
      if s.fullName in c.symbols then m
      else m.(contents := c.(symbols := c.symbols[s.fullName := s], symbolLog := c.symbolLog + [s]))
    case AddFile(f) =>
      if f.name in c.files then m
      else m.(contents := c.(files := c.files[f.name := f], fileLog := c.fileLog + [f]))
    case AddExtension(f) =>
      var key := (f.extendee, f.number);
      if key in c.extensions then m
      else m.(contents := c.(extensions := c.extensions[key := f], extensionLog := c.extensionLog + [key]))
    case AllocateBytes(size) =>
      if size == 0 then m else m.(contents := c.(miscAllocs := c.miscAllocs + [m.nextId]), nextId := m.nextId + 1)
    case CreateFlatAlloc =>
      m.(contents := c.(flatAllocs := c.flatAllocs + [m.nextId]), nextId := m.nextId + 1)
  }

  /** Checkpoints were taken one after the other, and nothing they marked has gone since. */
  predicate StackOk(m: Machine) {
    && (forall i :: 0 <= i < |m.checkpoints| ==> Within(m.checkpoints[i], m.contents))
    && (forall i, j :: 0 <= i < j < |m.checkpoints| ==> NotAfter(m.checkpoints[i], m.checkpoints[j]))
  }

  lemma DoKeepsStack(m: Machine, op: Op)
    requires StackOk(m) && CanDo(m, op)
    ensures StackOk(Do(m, op))
  {
  }

  // ---------------------------------------------------------------- whole runs

  ghost predicate CanRun(m: Machine, ops: seq<Op>)
    requires StackOk(m)
    decreases |ops|, 0
  {
    ops == [] ||
    (var h := |ops| - 1; CanRun(m, ops[..h]) && StackOk(Run(m, ops[..h])) && CanDo(Run(m, ops[..h]), ops[h]))
  }

  ghost function Run(m: Machine, ops: seq<Op>): Machine
    requires StackOk(m) && CanRun(m, ops)
    decreases |ops|, 1
  {
    if ops == [] then m else Do(Run(m, ops[..|ops| - 1]), ops[|ops| - 1])
  }

  lemma {:induction false} RunKeepsStack(m: Machine, ops: seq<Op>)
    requires StackOk(m) && CanRun(m, ops)
    ensures StackOk(Run(m, ops))
    decreases |ops|
  {
    if ops != [] {
      hide StackOk;
      var h := |ops| - 1;
      RunKeepsStack(m, ops[..h]);
      DoKeepsStack(Run(m, ops[..h]), ops[h]);
    }
  }

  function Change(op: Op): int {
    match op
    case AddCheckpoint => 1
    case ClearLastCheckpoint => -1
    case RollbackToLastCheckpoint => -1
    case _ => 0
  }

  function Depth(ops: seq<Op>): int {
    if ops == [] then 0 else Depth(ops[..|ops| - 1]) + Change(ops[|ops| - 1])
  }

  /** No checkpoint is closed that the run did not open. */
  ghost predicate Nested(ops: seq<Op>) {
    forall i :: 0 <= i <= |ops| ==> Depth(ops[..i]) >= 0
  }

  // ---------------------------------------------------------------- undoing

  lemma NamesConcat(a: seq<Symbol>, b: seq<Symbol>)
    ensures NamesOf(a + b) == NamesOf(a) + NamesOf(b)
  {
    forall n | n in NamesOf(b) ensures n in NamesOf(a + b) {
      var i :| 0 <= i < |b| && b[i].fullName == n;
      assert (a + b)[|a| + i] == b[i];
    }
    forall n | n in NamesOf(a) ensures n in NamesOf(a + b) {
      var i :| 0 <= i < |a| && a[i].fullName == n;
      assert (a + b)[i] == a[i];
    }
  }

  lemma FileNamesConcat(a: seq<File>, b: seq<File>)
    ensures FileNamesOf(a + b) == FileNamesOf(a) + FileNamesOf(b)
  {
    forall n | n in FileNamesOf(b) ensures n in FileNamesOf(a + b) {
      var i :| 0 <= i < |b| && b[i].name == n;
      assert (a + b)[|a| + i] == b[i];
    }
    forall n | n in FileNamesOf(a) ensures n in FileNamesOf(a + b) {
      var i :| 0 <= i < |a| && a[i].name == n;
      assert (a + b)[i] == a[i];
    }
  }

  lemma KeysConcat(a: seq<(Type, int)>, b: seq<(Type, int)>)
    ensures KeysOf(a + b) == KeysOf(a) + KeysOf(b)
  {
    forall n | n in KeysOf(b) ensures n in KeysOf(a + b) {
      var i :| 0 <= i < |b| && b[i] == n;
      assert (a + b)[|a| + i] == b[i];
    }
    forall n | n in KeysOf(a) ensures n in KeysOf(a + b) {
      var i :| 0 <= i < |a| && a[i] == n;
      assert (a + b)[i] == a[i];
    }
  }

  /** Undoing to a checkpoint and then to an earlier one is undoing to the earlier one. */
  lemma UndoTwice(c: Contents, p: CheckPoint, q: CheckPoint)
    requires NotAfter(p, q) && Within(q, c)
    ensures Within(p, Undo(c, q)) && Undo(Undo(c, q), p) == Undo(c, p)
  {
    var u := Undo(c, q);
    assert c.symbolLog[p.symbols..] == u.symbolLog[p.symbols..] + c.symbolLog[q.symbols..];
    assert c.fileLog[p.files..] == u.fileLog[p.files..] + c.fileLog[q.files..];
    assert c.extensionLog[p.extensions..] == u.extensionLog[p.extensions..] + c.extensionLog[q.extensions..];
    NamesConcat(u.symbolLog[p.symbols..], c.symbolLog[q.symbols..]);
    FileNamesConcat(u.fileLog[p.files..], c.fileLog[q.files..]);
    KeysConcat(u.extensionLog[p.extensions..], c.extensionLog[q.extensions..]);
    hide NamesOf, FileNamesOf, KeysOf;
    assert Undo(u, p).symbols == Undo(c, p).symbols;
    assert Undo(u, p).files == Undo(c, p).files;
    assert Undo(u, p).extensions == Undo(c, p).extensions;
    assert u.symbolLog[..p.symbols] == c.symbolLog[..p.symbols] && u.fileLog[..p.files] == c.fileLog[..p.files];
    assert u.extensionLog[..p.extensions] == c.extensionLog[..p.extensions];
    assert u.flatAllocs[..p.flat] == c.flatAllocs[..p.flat] && u.miscAllocs[..p.misc] == c.miscAllocs[..p.misc];
  }

  lemma UndoNothing(c: Contents)
    ensures Undo(c, Mark(c)) == c
  {
    assert c.symbols - {} == c.symbols && c.files - {} == c.files && c.extensions - {} == c.extensions;
    assert NamesOf([]) == {} && FileNamesOf([]) == {} && KeysOf([]) == {};
    assert c.symbolLog[..|c.symbolLog|] == c.symbolLog && c.fileLog[..|c.fileLog|] == c.fileLog;
    assert c.extensionLog[..|c.extensionLog|] == c.extensionLog;
    assert c.flatAllocs[..|c.flatAllocs|] == c.flatAllocs && c.miscAllocs[..|c.miscAllocs|] == c.miscAllocs;
  }

  predicate Adds(op: Op) { !op.AddCheckpoint? && !op.ClearLastCheckpoint? && !op.RollbackToLastCheckpoint? }

  /** What was added after a checkpoint, undoing takes away. */
  lemma UndoAddition(m: Machine, op: Op, p: CheckPoint)
    requires StackOk(m) && CanDo(m, op) && Adds(op) && Within(p, m.contents)
    ensures Within(p, Do(m, op).contents) && Undo(Do(m, op).contents, p) == Undo(m.contents, p)
  {
    var c, d := m.contents, Do(m, op).contents;
    if c != d {
      match op
      case AddSymbol(s) =>
        assert d.symbolLog[p.symbols..] == c.symbolLog[p.symbols..] + [s];
        NamesConcat(c.symbolLog[p.symbols..], [s]);
        OneName(s);
        assert Undo(d, p).symbols == Undo(c, p).symbols;
        assert Undo(d, p).symbolLog == Undo(c, p).symbolLog;
      case AddFile(f) =>
        assert d.fileLog[p.files..] == c.fileLog[p.files..] + [f];
        FileNamesConcat(c.fileLog[p.files..], [f]);
        OneFileName(f);
        assert Undo(d, p).files == Undo(c, p).files;
        assert Undo(d, p).fileLog == Undo(c, p).fileLog;
      case AddExtension(f) =>
        var key := (f.extendee, f.number);
        assert d.extensionLog[p.extensions..] == c.extensionLog[p.extensions..] + [key];
        KeysConcat(c.extensionLog[p.extensions..], [key]);
        OneKey(key);
        assert Undo(d, p).extensions == Undo(c, p).extensions;
        assert Undo(d, p).extensionLog == Undo(c, p).extensionLog;
      case AllocateBytes(_) => assert d.miscAllocs[..p.misc] == c.miscAllocs[..p.misc];
      case CreateFlatAlloc => assert d.flatAllocs[..p.flat] == c.flatAllocs[..p.flat];
    }
  }

  /** The checkpoint at a place in the stack is still there, and undoing to it gives the same as before. */
  lemma StepKeepsUndo(m: Machine, op: Op, k: nat)
    requires StackOk(m) && CanDo(m, op)
    requires k < |m.checkpoints| && k < |m.checkpoints| + Change(op)
    ensures StackOk(Do(m, op)) && |Do(m, op).checkpoints| == |m.checkpoints| + Change(op)
    ensures Do(m, op).checkpoints[..k + 1] == m.checkpoints[..k + 1]
    ensures Undo(Do(m, op).contents, m.checkpoints[k]) == Undo(m.contents, m.checkpoints[k])
  {
    DoKeepsStack(m, op);
    if Adds(op) {
      UndoAddition(m, op, m.checkpoints[k]);
    } else if op.RollbackToLastCheckpoint? {
      UndoTwice(m.contents, m.checkpoints[k], m.checkpoints[|m.checkpoints| - 1]);
    }
  }

  lemma {:induction false} NestedRunKeepsUndo(m: Machine, ops: seq<Op>)
    requires StackOk(m) && CanRun(m, ops) && Nested(ops) && m.checkpoints != []
    ensures Depth(ops) >= 0
    ensures var r := Run(m, ops); var k := |m.checkpoints| - 1;
            && StackOk(r) && |r.checkpoints| == |m.checkpoints| + Depth(ops)
            && r.checkpoints[..k + 1] == m.checkpoints
            && Undo(r.contents, r.checkpoints[k]) == Undo(m.contents, m.checkpoints[k])
    decreases |ops|
  {
    var k := |m.checkpoints| - 1;
    assert ops[..|ops|] == ops;
    if ops != [] {
      hide StackOk, Undo, Do;
      var h := |ops| - 1;
      assert forall i :: 0 <= i <= h ==> ops[..h][..i] == ops[..i];
      NestedRunKeepsUndo(m, ops[..h]);
      var r := Run(m, ops[..h]);
      assert Depth(ops[..h + 1]) >= 0 && ops[..h + 1] == ops;
      assert r.checkpoints[..k + 1][k] == r.checkpoints[k] && m.checkpoints[k] == r.checkpoints[k];
      StepKeepsUndo(r, ops[h], k);
      assert Do(r, ops[h]).checkpoints[..k + 1][k] == Do(r, ops[h]).checkpoints[k];
    }
  }

  /**
   * A rollback restores the tables, the logs and the allocations of its checkpoint exactly,
   * whatever was added, rolled back or committed at inner checkpoints in between.
   */
  lemma RollbackRestores(m: Machine, ops: seq<Op>)
    requires StackOk(m) && Nested(ops) && Depth(ops) == 0
    requires StackOk(Do(m, AddCheckpoint)) && CanRun(Do(m, AddCheckpoint), ops)
    ensures var r := Run(Do(m, AddCheckpoint), ops);
            && StackOk(r) && CanDo(r, RollbackToLastCheckpoint)
            && var after := Do(r, RollbackToLastCheckpoint);
            after.contents == m.contents && after.checkpoints == m.checkpoints
  {
    var m' := Do(m, AddCheckpoint);
    NestedRunKeepsUndo(m', ops);
    UndoNothing(m.contents);
    var r := Run(m', ops);
    assert r.checkpoints == m'.checkpoints by { assert r.checkpoints[..|r.checkpoints|] == r.checkpoints; }
  }

  // ---------------------------------------------------------------- what was accepted is found

  datatype Accepted = SymbolEntry(symbol: Symbol) | FileEntry(file: File) | ExtensionEntry(field: Field)

  predicate Has(c: Contents, e: Accepted) {
    match e
    case SymbolEntry(s) => s.fullName in c.symbols && c.symbols[s.fullName] == s
    case FileEntry(f) => f.name in c.files && c.files[f.name] == f
    case ExtensionEntry(f) => (f.extendee, f.number) in c.extensions && c.extensions[(f.extendee, f.number)] == f
  }

  predicate Taken(c: Contents, e: Accepted) {
    match e
    case SymbolEntry(s) => s.fullName in c.symbols
    case FileEntry(f) => f.name in c.files
    case ExtensionEntry(f) => (f.extendee, f.number) in c.extensions
  }

  function Adding(e: Accepted): Op {
    match e
    case SymbolEntry(s) => AddSymbol(s)
    case FileEntry(f) => AddFile(f)
    case ExtensionEntry(f) => AddExtension(f)
  }

  /** How many of the n checkpoints there were at first have stayed all through a run. */
  function Oldest(n: int, ops: seq<Op>): int {
    if ops == [] then n
    else
      var before, now := Oldest(n, ops[..|ops| - 1]), n + Depth(ops);
      if before < now then before else now
  }

  /** Every rollback in the run is to a checkpoint taken in the run. */
  ghost predicate OnlyNewRollbacks(n: int, ops: seq<Op>) {
    forall i :: 0 <= i < |ops| && ops[i].RollbackToLastCheckpoint? ==> n + Depth(ops[..i]) > Oldest(n, ops[..i])
  }

  /** An entry is there, and would be after a rollback to any checkpoint that is not among the oldest. */
  ghost predicate Kept(m: Machine, e: Accepted, oldest: int)
    requires StackOk(m)
  {
    && Has(m.contents, e)
    && forall k :: 0 <= k < |m.checkpoints| && oldest <= k ==> Has(Undo(m.contents, m.checkpoints[k]), e)
  }

  /** What is accepted is there, with what was there before, and only what is not taken is accepted. */
  lemma AddingAccepts(m: Machine, e: Accepted, other: Accepted)
    requires StackOk(m) && CanDo(m, Adding(e))
    ensures var c := Do(m, Adding(e)).contents;
            && (!Taken(m.contents, e) ==> Has(c, e)) && (Taken(m.contents, e) ==> c == m.contents)
            && (Has(m.contents, other) ==> Has(c, other)) && (Has(c, other) ==> Has(m.contents, other) || other == e)
            && Do(m, Adding(e)).checkpoints == m.checkpoints
  {
  }

  lemma StepKeeps(m: Machine, op: Op, e: Accepted, oldest: int)
    requires StackOk(m) && CanDo(m, op) && Kept(m, e, oldest) && oldest <= |m.checkpoints|
    requires op.RollbackToLastCheckpoint? ==> |m.checkpoints| > oldest
    ensures StackOk(Do(m, op)) && |Do(m, op).checkpoints| == |m.checkpoints| + Change(op)
    ensures Kept(Do(m, op), e, if oldest < |m.checkpoints| + Change(op) then oldest else |m.checkpoints| + Change(op))
  {
    DoKeepsStack(m, op);
    var r, h := Do(m, op), |m.checkpoints| - 1;
    UndoNothing(m.contents);
    forall k | 0 <= k < |r.checkpoints| && k <= h && oldest <= k ensures Has(Undo(r.contents, r.checkpoints[k]), e) {
      StepKeepsUndo(m, op, k);
      assert r.checkpoints[..k + 1][k] == m.checkpoints[..k + 1][k];
    }
    hide Undo, Within;
  }

  /** An entry that was accepted is found until a rollback to a checkpoint taken before it; commits never lose it. */
  lemma {:induction false} AcceptedIsFound(m: Machine, e: Accepted, ops: seq<Op>)
    requires StackOk(m) && CanDo(m, Adding(e)) && !Taken(m.contents, e) && StackOk(Do(m, Adding(e)))
    requires CanRun(Do(m, Adding(e)), ops) && OnlyNewRollbacks(|m.checkpoints|, ops)
    ensures Has(Run(Do(m, Adding(e)), ops).contents, e)
    ensures var r := Run(Do(m, Adding(e)), ops);
            && StackOk(r) && |r.checkpoints| == |m.checkpoints| + Depth(ops)
            && Kept(r, e, Oldest(|m.checkpoints|, ops)) && Oldest(|m.checkpoints|, ops) <= |r.checkpoints|
    decreases |ops|
  {
    hide StackOk, Do, CanDo, Has, Taken, Undo, Kept;
    AddingAccepts(m, e, e);
    if ops == [] {
      NewlyKept(Do(m, Adding(e)), e);
    } else {
      var h := |ops| - 1;
      assert forall i :: 0 <= i <= h ==> ops[..h][..i] == ops[..i];
      AcceptedIsFound(m, e, ops[..h]);
      StepKeeps(Run(Do(m, Adding(e)), ops[..h]), ops[h], e, Oldest(|m.checkpoints|, ops[..h]));
    }
    KeptIsFound(Run(Do(m, Adding(e)), ops), e, Oldest(|m.checkpoints|, ops));
  }

  lemma NewlyKept(m: Machine, e: Accepted)
    requires StackOk(m) && Has(m.contents, e)
    ensures Kept(m, e, |m.checkpoints|)
  {
  }

  lemma KeptIsFound(m: Machine, e: Accepted, oldest: int)
    requires StackOk(m) && Kept(m, e, oldest)
    ensures Has(m.contents, e)
  {
  }

  // ---------------------------------------------------------------- nothing freed is ever referred to

  /** Every entry of a table or a log lives in an allocation that is there. */
  ghost predicate NoDangling(c: Contents) {
    && (forall n :: n in c.symbols ==> Live(c, c.symbols[n].owner) && c.symbols[n].fullName == n)
    && (forall n :: n in c.files ==> Live(c, c.files[n].owner) && c.files[n].name == n)
    && (forall k :: k in c.extensions ==> Live(c, c.extensions[k].owner) && Live(c, k.0.owner))
    && (forall i :: 0 <= i < |c.symbolLog| ==> Live(c, c.symbolLog[i].owner))
    && (forall i :: 0 <= i < |c.fileLog| ==> Live(c, c.fileLog[i].owner))
    && (forall i :: 0 <= i < |c.extensionLog| ==> Live(c, c.extensionLog[i].0.owner))
  }

  /** That holds now, and would hold after a rollback to any checkpoint. */
  ghost predicate Safe(m: Machine) {
    && StackOk(m)
    && NoDangling(m.contents)
    && (forall i :: 0 <= i < |m.checkpoints| ==> NoDangling(Undo(m.contents, m.checkpoints[i])))
  }

  lemma AdditionIsLive(m: Machine, op: Op)
    requires StackOk(m) && CanDo(m, op) && Adds(op) && NoDangling(m.contents)
    ensures NoDangling(Do(m, op).contents)
  {
    var c, d := m.contents, Do(m, op).contents;
    assert forall owner :: Live(c, owner) ==> Live(d, owner);
    hide Live;
  }

  lemma DoKeepsSafe(m: Machine, op: Op)
    requires Safe(m) && CanDo(m, op)
    ensures Safe(Do(m, op))
  {
    DoKeepsStack(m, op);
    if Adds(op) {
      AdditionKeepsSafe(m, op);
    } else {
      UndoNothing(m.contents);
      hide Live, NoDangling, Undo, Within;
      match op {
        case RollbackToLastCheckpoint => RollbackKeepsSafe(m);
        case ClearLastCheckpoint => CommitIsLive(m.contents);
        case _ =>
      }
    }
  }

  lemma AdditionKeepsSafe(m: Machine, op: Op)
    requires Safe(m) && CanDo(m, op) && Adds(op) && StackOk(Do(m, op))
    ensures Safe(Do(m, op))
  {
    AdditionIsLive(m, op);
    var r := Do(m, op);
    assert r.checkpoints == m.checkpoints;
    hide Live, NoDangling, Undo, Do, CanDo;
    forall i | 0 <= i < |r.checkpoints| ensures NoDangling(Undo(r.contents, r.checkpoints[i])) {
      UndoAddition(m, op, m.checkpoints[i]);
    }
  }

  lemma RollbackKeepsSafe(m: Machine)
    requires Safe(m) && m.checkpoints != [] && StackOk(Do(m, RollbackToLastCheckpoint))
    ensures Safe(Do(m, RollbackToLastCheckpoint))
  {
    hide Live, NoDangling, Undo;
    var r, top := Do(m, RollbackToLastCheckpoint), |m.checkpoints| - 1;
    forall i | 0 <= i < top ensures NoDangling(Undo(r.contents, r.checkpoints[i])) {
      UndoTwice(m.contents, m.checkpoints[i], m.checkpoints[top]);
    }
  }

  lemma CommitIsLive(c: Contents)
    requires NoDangling(c)
    ensures NoDangling(c.(symbolLog := [], fileLog := [], extensionLog := []))
  {
    var d := c.(symbolLog := [], fileLog := [], extensionLog := []);
    assert forall owner :: Live(c, owner) ==> Live(d, owner);
    hide Live;
  }

  /** Over any run, nested or not, no table refers to a freed allocation. */
  lemma {:induction false} RunIsSafe(m: Machine, ops: seq<Op>)
    requires Safe(m) && CanRun(m, ops)
    ensures Safe(Run(m, ops))
    decreases |ops|
  {
    if ops != [] {
      hide Safe, StackOk;
      var h := |ops| - 1;
      assert StackOk(m);
      RunIsSafe(m, ops[..h]);
      DoKeepsSafe(Run(m, ops[..h]), ops[h]);
    }
  }

  // ---------------------------------------------------------------- the class

  class PoolTables {
    var symbolsByName: map<string, Symbol>
    var filesByName: map<string, File>
    var extensions: map<(Type, int), Field>
    var symbolsAfterCheckpoint: seq<Symbol>
    var filesAfterCheckpoint: seq<File>
    var extensionsAfterCheckpoint: seq<(Type, int)>
    var flatAllocs: seq<nat>
    var miscAllocs: seq<nat>
    var checkpoints: seq<CheckPoint>
    /** The identity the memory allocator gives the next block; freed blocks do not come back. */
    var nextId: nat

    ghost function View(): Machine
      reads this
    {
      Machine(Now(), checkpoints, nextId)
    }

    function Now(): Contents
      reads this
    {
      Contents(symbolsByName, filesByName, extensions, symbolsAfterCheckpoint, filesAfterCheckpoint,
               extensionsAfterCheckpoint, flatAllocs, miscAllocs)
    }

    ghost predicate Valid()
      reads this
    {
      Safe(View())
    }

    constructor ()
      ensures Valid() && View() == Machine(Contents(map[], map[], map[], [], [], [], [], []), [], 0)
    {
      symbolsByName, filesByName, extensions := map[], map[], map[];
      symbolsAfterCheckpoint, filesAfterCheckpoint, extensionsAfterCheckpoint := [], [], [];
      flatAllocs, miscAllocs, checkpoints, nextId := [], [], [], 0;
    }

    method AddCheckpoint()
      requires Valid()
      modifies this`checkpoints
      ensures Valid() && View() == Do(old(View()), Op.AddCheckpoint)
      ensures checkpoints == old(checkpoints) + [CheckPoint(|flatAllocs|, |miscAllocs|, |symbolsAfterCheckpoint|,
                                                            |filesAfterCheckpoint|, |extensionsAfterCheckpoint|)]
    {
      hide Safe, Undo;
      DoKeepsSafe(View(), Op.AddCheckpoint);
      checkpoints := checkpoints + [Mark(Now())];
    }

    method ClearLastCheckpoint()
      requires Valid() && checkpoints != []
      modifies this
      ensures Valid() && View() == Do(old(View()), Op.ClearLastCheckpoint)
      ensures symbolsByName == old(symbolsByName) && filesByName == old(filesByName) && extensions == old(extensions)
      ensures flatAllocs == old(flatAllocs) && miscAllocs == old(miscAllocs)
      ensures checkpoints == old(checkpoints[..|checkpoints| - 1])
      ensures symbolsAfterCheckpoint == if checkpoints == [] then [] else old(symbolsAfterCheckpoint)
      ensures filesAfterCheckpoint == if checkpoints == [] then [] else old(filesAfterCheckpoint)
      ensures extensionsAfterCheckpoint == if checkpoints == [] then [] else old(extensionsAfterCheckpoint)
    {
      SafeStack(View());
      hide Safe, Undo, StackOk;
      DoKeepsSafe(View(), Op.ClearLastCheckpoint);
      checkpoints := checkpoints[..|checkpoints| - 1];
      if checkpoints == [] {
        symbolsAfterCheckpoint := [];
        filesAfterCheckpoint := [];
        extensionsAfterCheckpoint := [];
      }
    }

    /** Reading an object is allowed only while its allocation is there. */
    function NameOf(s: Symbol): (r: string)
      requires Live(Now(), s.owner)
      reads this
      ensures r == s.fullName
    {
      s.fullName
    }

    function FileNameOf(f: File): (r: string)
      requires Live(Now(), f.owner)
      reads this
      ensures r == f.name
    {
      f.name
    }

    method EraseSymbols(from: nat)
      requires from <= |symbolsAfterCheckpoint|
      requires forall i :: 0 <= i < |symbolsAfterCheckpoint| ==> Live(Now(), symbolsAfterCheckpoint[i].owner)
      modifies this`symbolsByName
      ensures symbolsByName == old(symbolsByName) - NamesOf(symbolsAfterCheckpoint[from..])
    {
      assert symbolsAfterCheckpoint[from..][..0] == [];
      for i := from to |symbolsAfterCheckpoint|
        invariant symbolsByName == old(symbolsByName) - NamesOf(symbolsAfterCheckpoint[from..][..i - from])
        invariant flatAllocs == old(flatAllocs) && miscAllocs == old(miscAllocs)
      {
        var log := symbolsAfterCheckpoint[from..];
        assert log[..i + 1 - from] == log[..i - from] + [symbolsAfterCheckpoint[i]];
        NamesConcat(log[..i - from], [symbolsAfterCheckpoint[i]]);
        OneName(symbolsAfterCheckpoint[i]);
        symbolsByName := symbolsByName - {NameOf(symbolsAfterCheckpoint[i])};
      }
      assert symbolsAfterCheckpoint[from..][..|symbolsAfterCheckpoint| - from] == symbolsAfterCheckpoint[from..];
    }

    method EraseFiles(from: nat)
      requires from <= |filesAfterCheckpoint|
      requires forall i :: 0 <= i < |filesAfterCheckpoint| ==> Live(Now(), filesAfterCheckpoint[i].owner)
      modifies this`filesByName
      ensures filesByName == old(filesByName) - FileNamesOf(filesAfterCheckpoint[from..])
    {
      assert filesAfterCheckpoint[from..][..0] == [];
      for i := from to |filesAfterCheckpoint|
        invariant filesByName == old(filesByName) - FileNamesOf(filesAfterCheckpoint[from..][..i - from])
        invariant flatAllocs == old(flatAllocs) && miscAllocs == old(miscAllocs)
      {
        var log := filesAfterCheckpoint[from..];
        assert log[..i + 1 - from] == log[..i - from] + [filesAfterCheckpoint[i]];
        FileNamesConcat(log[..i - from], [filesAfterCheckpoint[i]]);
        OneFileName(filesAfterCheckpoint[i]);
        filesByName := filesByName - {FileNameOf(filesAfterCheckpoint[i])};
      }
      assert filesAfterCheckpoint[from..][..|filesAfterCheckpoint| - from] == filesAfterCheckpoint[from..];
    }

    method EraseExtensions(from: nat)
      requires from <= |extensionsAfterCheckpoint|
      modifies this`extensions
      ensures extensions == old(extensions) - KeysOf(extensionsAfterCheckpoint[from..])
    {
      assert extensionsAfterCheckpoint[from..][..0] == [];
      for i := from to |extensionsAfterCheckpoint|
        invariant extensions == old(extensions) - KeysOf(extensionsAfterCheckpoint[from..][..i - from])
      {
        var log := extensionsAfterCheckpoint[from..];
        assert log[..i + 1 - from] == log[..i - from] + [extensionsAfterCheckpoint[i]];
        KeysConcat(log[..i - from], [extensionsAfterCheckpoint[i]]);
        OneKey(extensionsAfterCheckpoint[i]);
        extensions := extensions - {extensionsAfterCheckpoint[i]};
      }
      assert extensionsAfterCheckpoint[from..][..|extensionsAfterCheckpoint| - from]
             == extensionsAfterCheckpoint[from..];
    }

    /** Erases what was logged after the checkpoint, while the objects that hold the names are still there. */
    method EraseLogged(checkpoint: CheckPoint)
      requires Within(checkpoint, Now())
      requires forall i :: 0 <= i < |symbolsAfterCheckpoint| ==> Live(Now(), symbolsAfterCheckpoint[i].owner)
      requires forall i :: 0 <= i < |filesAfterCheckpoint| ==> Live(Now(), filesAfterCheckpoint[i].owner)
      modifies this`symbolsByName, this`filesByName, this`extensions
      ensures symbolsByName == Undo(old(Now()), checkpoint).symbols
      ensures filesByName == Undo(old(Now()), checkpoint).files
      ensures extensions == Undo(old(Now()), checkpoint).extensions
    {
      hide Live, NamesOf, FileNamesOf, KeysOf;
      EraseSymbols(checkpoint.symbols);
      SameAllocations(old(Now()), Now());
      EraseFiles(checkpoint.files);
      EraseExtensions(checkpoint.extensions);
    }

    /** Shortens the logs and frees what was allocated after the checkpoint. */
    method Truncate(checkpoint: CheckPoint)
      requires Within(checkpoint, Now())
      modifies this`symbolsAfterCheckpoint, this`filesAfterCheckpoint, this`extensionsAfterCheckpoint,
               this`flatAllocs, this`miscAllocs
      ensures Now() == Undo(old(Now()), checkpoint).(symbols := symbolsByName, files := filesByName,
                                                     extensions := extensions)
    {
      symbolsAfterCheckpoint := symbolsAfterCheckpoint[..checkpoint.symbols];
      filesAfterCheckpoint := filesAfterCheckpoint[..checkpoint.files];
      extensionsAfterCheckpoint := extensionsAfterCheckpoint[..checkpoint.extensions];
      flatAllocs := flatAllocs[..checkpoint.flat];
      miscAllocs := miscAllocs[..checkpoint.misc];
    }

    method RollbackToLastCheckpoint()
      requires Valid() && checkpoints != []
      modifies this
      ensures Valid() && View() == Do(old(View()), Op.RollbackToLastCheckpoint)
      ensures var last := old(checkpoints[|checkpoints| - 1]);
              && last.symbols <= old(|symbolsAfterCheckpoint|)
              && symbolsAfterCheckpoint == old(symbolsAfterCheckpoint)[..last.symbols]
              && forall n :: n in symbolsByName <==>
                   (n in old(symbolsByName) && forall i :: last.symbols <= i < old(|symbolsAfterCheckpoint|) ==>
                      old(symbolsAfterCheckpoint)[i].fullName != n)
      ensures forall n :: n in symbolsByName ==> n in old(symbolsByName) && symbolsByName[n] == old(symbolsByName)[n]
      ensures var last := old(checkpoints[|checkpoints| - 1]);
              && last.files <= old(|filesAfterCheckpoint|)
              && filesAfterCheckpoint == old(filesAfterCheckpoint)[..last.files]
              && forall n :: n in filesByName <==>
                   (n in old(filesByName) && forall i :: last.files <= i < old(|filesAfterCheckpoint|) ==>
                      old(filesAfterCheckpoint)[i].name != n)
      ensures forall n :: n in filesByName ==> n in old(filesByName) && filesByName[n] == old(filesByName)[n]
      ensures var last := old(checkpoints[|checkpoints| - 1]);
              && last.extensions <= old(|extensionsAfterCheckpoint|)
              && extensionsAfterCheckpoint == old(extensionsAfterCheckpoint)[..last.extensions]
              && forall n :: n in extensions <==>
                   (n in old(extensions) && forall i :: last.extensions <= i < old(|extensionsAfterCheckpoint|) ==>
                      old(extensionsAfterCheckpoint)[i] != n)
      ensures forall n :: n in extensions ==> n in old(extensions) && extensions[n] == old(extensions)[n]
      ensures var last := old(checkpoints[|checkpoints| - 1]);
              && last.flat <= old(|flatAllocs|) && flatAllocs == old(flatAllocs)[..last.flat]
              && last.misc <= old(|miscAllocs|) && miscAllocs == old(miscAllocs)[..last.misc]
      ensures checkpoints == old(checkpoints[..|checkpoints| - 1])
    {
      var checkpoint := checkpoints[|checkpoints| - 1];
      SafeStack(View());
      SafeLogs(View());
      DoKeepsSafe(View(), Op.RollbackToLastCheckpoint);
      ghost var was := Now();
      assert Do(View(), Op.RollbackToLastCheckpoint)
          == Machine(Undo(was, checkpoint), checkpoints[..|checkpoints| - 1], nextId);
      hide Safe, Undo, Do, Within, Live;
      EraseLogged(checkpoint);
      ghost var erased := Now();
      UndoByParts(was, erased, checkpoint);
      Truncate(checkpoint);
      checkpoints := checkpoints[..|checkpoints| - 1];
    }

    method AddSymbol(fullName: string, symbol: Symbol) returns (ok: bool)
      requires Valid() && fullName == symbol.fullName && Live(Now(), symbol.owner)
      modifies this`symbolsByName, this`symbolsAfterCheckpoint
      ensures Valid() && View() == Do(old(View()), Op.AddSymbol(symbol))
      ensures ok <==> fullName !in old(symbolsByName)
      ensures symbolsByName == if ok then old(symbolsByName)[fullName := symbol] else old(symbolsByName)
      ensures symbolsAfterCheckpoint == old(symbolsAfterCheckpoint) + if ok then [symbol] else []
    {
      SafeStack(View());
      DoKeepsSafe(View(), Op.AddSymbol(symbol));
      hide Safe, StackOk;
      if NameOf(symbol) in symbolsByName { return false; }
      symbolsByName := symbolsByName[symbol.fullName := symbol];
      symbolsAfterCheckpoint := symbolsAfterCheckpoint + [symbol];
      return true;
    }

    method AddFile(file: File) returns (ok: bool)
      requires Valid() && Live(Now(), file.owner)
      modifies this`filesByName, this`filesAfterCheckpoint
      ensures Valid() && View() == Do(old(View()), Op.AddFile(file))
      ensures ok <==> file.name !in old(filesByName)
      ensures filesByName == if ok then old(filesByName)[file.name := file] else old(filesByName)
      ensures filesAfterCheckpoint == old(filesAfterCheckpoint) + if ok then [file] else []
    {
      SafeStack(View());
      DoKeepsSafe(View(), Op.AddFile(file));
      hide Safe, StackOk;
      if FileNameOf(file) in filesByName { return false; }
      filesByName := filesByName[file.name := file];
      filesAfterCheckpoint := filesAfterCheckpoint + [file];
      return true;
    }

    method AddExtension(field: Field) returns (ok: bool)
      requires Valid() && Live(Now(), field.owner) && Live(Now(), field.extendee.owner)
      modifies this`extensions, this`extensionsAfterCheckpoint
      ensures Valid() && View() == Do(old(View()), Op.AddExtension(field))
      ensures ok <==> (field.extendee, field.number) !in old(extensions)
      ensures extensions == if ok then old(extensions)[(field.extendee, field.number) := field] else old(extensions)
      ensures extensionsAfterCheckpoint
              == old(extensionsAfterCheckpoint) + if ok then [(field.extendee, field.number)] else []
    {
      SafeStack(View());
      DoKeepsSafe(View(), Op.AddExtension(field));
      hide Safe, StackOk;
      var key := (field.extendee, field.number);
      if key in extensions { return false; }
      extensions := extensions[key := field];
      extensionsAfterCheckpoint := extensionsAfterCheckpoint + [key];
      return true;
    }

    /** The allocation made, if any; objects placed in it are live. */
    method AllocateBytes(size: nat) returns (id: nat)
      requires Valid()
      modifies this`miscAllocs, this`nextId
      ensures Valid() && View() == Do(old(View()), Op.AllocateBytes(size))
      ensures size > 0 ==> Live(Now(), id) && id == old(nextId)
      ensures miscAllocs == old(miscAllocs) + (if size > 0 then [id] else [])
              && nextId == old(nextId) + if size > 0 then 1 else 0
    {
      SafeStack(View());
      DoKeepsSafe(View(), Op.AllocateBytes(size));
      hide Safe, StackOk;
      id := nextId;
      if size == 0 { return; }
      miscAllocs := miscAllocs + [id];
      nextId := nextId + 1;
    }

    method CreateFlatAlloc() returns (id: nat)
      requires Valid()
      modifies this`flatAllocs, this`nextId
      ensures Valid() && View() == Do(old(View()), Op.CreateFlatAlloc) && Live(Now(), id)
      ensures flatAllocs == old(flatAllocs) + [id] && id == old(nextId) && nextId == old(nextId) + 1
    {
      SafeStack(View());
      DoKeepsSafe(View(), Op.CreateFlatAlloc);
      hide Safe, StackOk;
      id := nextId;
      flatAllocs := flatAllocs + [id];
      nextId := nextId + 1;
    }
  }

  lemma SafeStack(m: Machine)
    requires Safe(m)
    ensures StackOk(m)
    ensures m.checkpoints != [] ==> Within(m.checkpoints[|m.checkpoints| - 1], m.contents)
  {
  }

  lemma SafeLogs(m: Machine)
    requires Safe(m)
    ensures forall i :: 0 <= i < |m.contents.symbolLog| ==> Live(m.contents, m.contents.symbolLog[i].owner)
    ensures forall i :: 0 <= i < |m.contents.fileLog| ==> Live(m.contents, m.contents.fileLog[i].owner)
  {
  }

  /** With the tables erased already, undoing the rest is all that is left. */
  lemma UndoByParts(c: Contents, erased: Contents, p: CheckPoint)
    requires Within(p, c)
    requires var u := Undo(c, p); erased == c.(symbols := u.symbols, files := u.files, extensions := u.extensions)
    ensures Within(p, erased)
    ensures Undo(erased, p).(symbols := erased.symbols, files := erased.files, extensions := erased.extensions)
            == Undo(c, p)
  {
  }

  lemma SameAllocations(c: Contents, d: Contents)
    requires c.flatAllocs == d.flatAllocs && c.miscAllocs == d.miscAllocs
    ensures forall owner :: Live(c, owner) <==> Live(d, owner)
  {
  }

  lemma OneName(s: Symbol)
    ensures NamesOf([s]) == {s.fullName}
  {
    assert [s][0].fullName in NamesOf([s]);
  }

  lemma OneFileName(f: File)
    ensures FileNamesOf([f]) == {f.name}
  {
    assert [f][0].name in FileNamesOf([f]);
  }

  lemma OneKey(k: (Type, int))
    ensures KeysOf([k]) == {k}
  {
    assert [k][0] in KeysOf([k]);
  }
}
