/** Reference counts in every state of the database: who holds what, and that nothing is used after it is freed
    (src/db.cc, include/minilsm/sstable.h, include/minilsm/memtable.h). */
module DatabaseCounts {
  import opened Slices
  import opened Coding
  import opened Entries
  import opened InternalKeys
  import opened MemTables
  import opened Levels
  import opened Compactions
  import opened CompactionOutputs
  import opened CompactionResults
  import opened RefCounts
  import opened Databases
  import opened DatabaseAnswers
  import opened DatabaseRecovery
  import Wal

  // ---- Who holds what ----

  function Bag(files: seq<File>): multiset<nat>
  {
    multiset(Ids(files))
  }

  /** The snapshot's references, the iterators' references, and the new tables that are not in a level yet. */
  function CompactionFiles(c: Compaction): multiset<nat>
  {
    match c
    case CompactIdle => multiset{}
    case CompactChosen(l0, l1, _) => Bag(l0) + Bag(l1)
    case CompactMerging(l0, l1, _, readers, _, outs) => Bag(l0) + Bag(l1) + Bag(readers) + Bag(outs)
    case CompactMerged(l0, l1, _, outs) => Bag(l0) + Bag(l1) + Bag(outs)
  }

  function ClientFiles(clients: seq<Client>): multiset<nat>
  {
    if clients == [] then multiset{}
    else ClientFiles(clients[..|clients| - 1]) + Bag(clients[|clients| - 1].heldFiles)
  }

  function ClientMems(clients: seq<Client>): multiset<nat>
  {
    if clients == [] then multiset{}
    else ClientMems(clients[..|clients| - 1]) + multiset(clients[|clients| - 1].heldMems)
  }

  /** One reference for the level a table is in, one for each snapshot and iterator that holds it. */
  function FileOwners(s: State): multiset<nat>
  {
    Bag(AllFiles(s.levels)) + CompactionFiles(s.compaction) + Bag(BuiltBy(s.flush)) + ClientFiles(s.clients)
  }

  function FlushSource(f: Flush): seq<nat>
  {
    if f.FlushReading? then [f.source] else []
  }

  /** One reference for mem_ or imm_, one for the flush's iterator, one for each reader. */
  function MemOwners(s: State): multiset<nat>
  {
    multiset(MemsHeld(s.mem, s.imm)) + multiset(FlushSource(s.flush)) + ClientMems(s.clients)
  }

  /** A search that has not returned still holds every layer it may read. */
  ghost predicate StillHolds(c: Client)
  {
    !c.stage.Returned? && !c.stage.Walking? ==>
      c.heldMems == MemsHeld(c.memRef, c.immRef) && c.heldFiles == AllFiles(c.snapshot)
  }

  ghost predicate Counted(s: State)
  {
    && Balanced(s.memHeap, MemOwners(s)) && |s.memHeap.refs| == |s.mems|
    && Balanced(s.fileHeap, FileOwners(s))
    && forall i :: 0 <= i < |s.clients| ==> StillHolds(s.clients[i])
  }

  // ---- Bags ----

  lemma BagAppend(a: seq<File>, b: seq<File>)
    ensures Bag(a + b) == Bag(a) + Bag(b)
  {
    assert Ids(a + b) == Ids(a) + Ids(b);
  }

  lemma BagOne(f: File)
    ensures Bag([f]) == multiset{f.id} && Bag([]) == multiset{}
  {
    assert Ids([f]) == [f.id];
    assert Ids([]) == [];
  }

  /** The same tables in another order have the same identities. */
  lemma {:induction false} BagPermuted(a: seq<File>, b: seq<File>)
    requires multiset(a) == multiset(b)
    ensures Bag(a) == Bag(b)
    decreases |a|
  {
    hide Bag;
    if a == [] {
      assert |multiset(b)| == |b| == 0;
    } else {
      var n := |a| - 1;
      assert a == a[..n] + [a[n]];
      assert a[n] in multiset(b);
      var j :| 0 <= j < |b| && b[j] == a[n];
      assert b == b[..j] + [b[j]] + b[j + 1..];
      assert multiset(b) == multiset(b[..j] + b[j + 1..]) + multiset{a[n]};
      Cancel(multiset(a[..n]), multiset(b[..j] + b[j + 1..]), multiset{a[n]});
      BagPermuted(a[..n], b[..j] + b[j + 1..]);
      BagAppend(a[..n], [a[n]]);
      BagAppend(b[..j], b[j + 1..]);
      BagAppend(b[..j] + [b[j]], b[j + 1..]);
      BagAppend(b[..j], [b[j]]);
    }
  }

  lemma Cancel<T>(a: multiset<T>, b: multiset<T>, c: multiset<T>)
    requires a + c == b + c
    ensures a == b
  {
    assert a == (a + c) - c;
    assert b == (b + c) - c;
  }

  lemma Shuffle<T>(a: multiset<T>, b: multiset<T>, c: multiset<T>, d: multiset<T>, e: multiset<T>)
    requires a + b == c + d
    ensures (a + e) + b == (c + e) + d
  {
    assert (a + e) + b == (a + b) + e;
    assert (c + e) + d == (c + d) + e;
  }

  lemma BagLevels(levels: LevelFiles)
    ensures Bag(AllFiles(levels)) == Bag(levels[0]) + Bag(levels[1]) + Bag(levels[2]) + Bag(levels[3])
  {
    hide Bag;
    BagAppend(levels[0], levels[1]);
    BagAppend(levels[0] + levels[1], levels[2]);
    BagAppend(levels[0] + levels[1] + levels[2], levels[3]);
  }

  lemma InBag(files: seq<File>, i: nat)
    requires i < |files|
    ensures files[i].id in Bag(files)
  {
    assert Ids(files)[i] in multiset(Ids(files));
  }

  lemma {:induction false} ClientSet(clients: seq<Client>, i: nat, c: Client)
    requires i < |clients|
    ensures ClientFiles(clients[i := c]) + Bag(clients[i].heldFiles) == ClientFiles(clients) + Bag(c.heldFiles)
    ensures ClientMems(clients[i := c]) + multiset(clients[i].heldMems) == ClientMems(clients) + multiset(c.heldMems)
  {
    hide Bag;
    var n := |clients| - 1;
    if i == n {
      assert clients[i := c][..n] == clients[..n];
    } else {
      ClientSet(clients[..n], i, c);
      assert clients[i := c][..n] == clients[..n][i := c] && clients[i := c][n] == clients[n];
      var f, m := Bag(clients[n].heldFiles), multiset(clients[n].heldMems);
      assert ClientFiles(clients[i := c]) == ClientFiles(clients[..n][i := c]) + f;
      assert ClientMems(clients[i := c]) == ClientMems(clients[..n][i := c]) + m;
      Shuffle(ClientFiles(clients[..n][i := c]), Bag(clients[i].heldFiles), ClientFiles(clients[..n]), Bag(c.heldFiles), f);
      Shuffle(ClientMems(clients[..n][i := c]), multiset(clients[i].heldMems), ClientMems(clients[..n]), multiset(c.heldMems), m);
    }
  }

  lemma ClientAdd(clients: seq<Client>, c: Client)
    ensures ClientFiles(clients + [c]) == ClientFiles(clients) + Bag(c.heldFiles)
    ensures ClientMems(clients + [c]) == ClientMems(clients) + multiset(c.heldMems)
  {
    assert (clients + [c])[..|clients|] == clients;
  }

  lemma {:induction false} ClientHas(clients: seq<Client>, i: nat)
    requires i < |clients|
    ensures Bag(clients[i].heldFiles) <= ClientFiles(clients) && multiset(clients[i].heldMems) <= ClientMems(clients)
  {
    hide Bag;
    if i < |clients| - 1 { ClientHas(clients[..|clients| - 1], i); }
  }

  /** What is read through a reference is alive: its count is positive and it has not been deleted. */
  lemma NothingFreedIsUsed(s: State, i: nat)
    requires Counted(s) && i < |s.clients| && !s.clients[i].stage.Returned? && !s.clients[i].stage.Walking?
    ensures var c := s.clients[i];
            && c.memRef < |s.mems| && c.memRef !in s.memHeap.freed
            && (c.immRef.Some? ==> c.immRef.value < |s.mems| && c.immRef.value !in s.memHeap.freed)
            && forall j :: 0 <= j < |AllFiles(c.snapshot)| ==> AllFiles(c.snapshot)[j].id !in s.fileHeap.freed
  {
    hide Balanced, AllFiles, Bag;
    var c := s.clients[i];
    ClientHas(s.clients, i);
    assert StillHolds(c);
    assert c.heldMems[0] in multiset(c.heldMems);
    HeldIsAlive(s.memHeap, MemOwners(s), c.memRef);
    if c.immRef.Some? {
      assert c.heldMems[1] in multiset(c.heldMems);
      HeldIsAlive(s.memHeap, MemOwners(s), c.immRef.value);
    }
    forall j | 0 <= j < |c.heldFiles|
      ensures c.heldFiles[j].id !in s.fileHeap.freed
    {
      InBag(c.heldFiles, j);
      HeldIsAlive(s.fileHeap, FileOwners(s), c.heldFiles[j].id);
    }
  }

  // ---- Steps ----

  lemma WriteCounts(s: State, k: Bytes, v: Bytes, kind: byte, t: ValueType)
    requires Wired(s) && Counted(s) && s.lastSequence < MAX_SEQUENCE && |s.mems[s.mem]| < MAX_SEQUENCE
    ensures Counted(Write(s, k, v, kind, t))
  {
    hide Balanced, AllFiles, Bag, MakeInternalKey, Wal.Encode, MapPut, StillHolds;
    var w := Write(s, k, v, kind, t);
    assert MemOwners(w) == MemOwners(s) && FileOwners(w) == FileOwners(s);
  }

  lemma RotateCounts(s: State)
    requires Counted(s) && s.imm.None?
    ensures Counted(Rotate(s))
  {
    hide Balanced, AllFiles, Bag, StillHolds;
    var t := Rotate(s);
    NewKeeps(s.memHeap, MemOwners(s));
    var id: nat := |s.memHeap.refs|;
    assert multiset(MemsHeld(t.mem, t.imm)) == multiset(MemsHeld(s.mem, s.imm)) + multiset{id};
    assert MemOwners(t) == MemOwners(s) + multiset{id};
    assert FileOwners(t) == FileOwners(s);
    RefsAfterNew(s.memHeap);
  }

  lemma RefsAfterNew(h: Heap)
    ensures |New(h).refs| == |h.refs| + 1
  {}

  lemma BeginFlushCounts(s: State)
    requires Counted(s) && s.flush.FlushIdle?
    ensures Counted(BeginFlush(s))
  {
    hide Balanced, AllFiles, Bag, StillHolds;
    var t := BeginFlush(s);
    assert MemOwners(t) == MemOwners(s) && FileOwners(t) == FileOwners(s);
  }

  lemma ReadFlushCounts(s: State)
    requires Counted(s) && s.flush.FlushClaimed? && s.imm.Some?
    ensures Counted(ReadFlush(s))
  {
    hide Balanced, AllFiles, Bag, StillHolds;
    var t := ReadFlush(s);
    assert s.imm.value in MemOwners(s) by { assert MemsHeld(s.mem, s.imm)[1] == s.imm.value; }
    RefKeeps(s.memHeap, MemOwners(s), s.imm.value);
    assert MemOwners(t) == MemOwners(s) + multiset{s.imm.value};
    assert FileOwners(t) == FileOwners(s);
  }

  lemma BuildFlushCounts(s: State)
    requires Counted(s) && s.flush.FlushReading? && s.flush.source < |s.mems|
    ensures Counted(BuildFlush(s))
  {
    hide Balanced, AllFiles, Bag, StillHolds, FlushTable;
    var t := BuildFlush(s);
    UnrefKeeps(s.memHeap, MemOwners(s), s.flush.source);
    assert MemOwners(t) == MemOwners(s) - multiset{s.flush.source};
    NewKeeps(s.fileHeap, FileOwners(s));
    BagOne(t.flush.file);
    assert FileOwners(t) == FileOwners(s) + multiset{|s.fileHeap.refs|};
  }

  lemma CommitFlushCounts(s: State)
    requires Counted(s) && s.flush.FlushBuilt? && s.imm.Some?
    ensures Counted(CommitFlush(s))
  {
    hide Balanced, AllFiles, Bag, StillHolds, Numbers, ClientFiles, ClientMems, CompactionFiles, MemsHeld, Unref;
    var t := CommitFlush(s);
    BothMemsHeld(s.mem, s.imm);
    UnrefKeeps(s.memHeap, MemOwners(s), s.imm.value);
    UnrefSize(s.memHeap, s.imm.value);
    Minus2(multiset(MemsHeld(s.mem, s.imm)), multiset(MemsHeld(s.mem, None)), multiset(FlushSource(s.flush)) + ClientMems(s.clients),
      s.imm.value);
    Plus(multiset(MemsHeld(s.mem, s.imm)), multiset(FlushSource(s.flush)), ClientMems(s.clients));
    Plus(multiset(MemsHeld(s.mem, None)), multiset(FlushSource(s.flush)), ClientMems(s.clients));
    FlushedBag(s.levels, s.flush.file);
    assert FileOwners(t) == FileOwners(s);
  }

  lemma BothMemsHeld(mem: nat, imm: Option<nat>)
    requires imm.Some?
    ensures multiset(MemsHeld(mem, imm)) == multiset(MemsHeld(mem, None)) + multiset{imm.value}
  {}

  lemma Minus2(before: multiset<nat>, after: multiset<nat>, rest: multiset<nat>, id: nat)
    requires after + multiset{id} == before
    ensures before + rest - multiset{id} == after + rest
  {}

  lemma FlushedBag(levels: LevelFiles, f: File)
    ensures Bag(AllFiles(levels[0 := levels[0] + [f]])) == Bag(AllFiles(levels)) + Bag([f])
    ensures Bag([]) == multiset{}
  {
    hide Bag, AllFiles;
    BagLevels(levels);
    BagLevels(levels[0 := levels[0] + [f]]);
    BagAppend(levels[0], [f]);
    BagOne(f);
  }

  lemma {:induction false} InBags(files: seq<File>, part: seq<File>, owners: multiset<nat>)
    requires Bag(files) <= owners && forall f :: f in part ==> f in files
    ensures forall i :: 0 <= i < |part| ==> Ids(part)[i] in owners
  {
    forall i | 0 <= i < |part| ensures Ids(part)[i] in owners {
      assert part[i] in files;
      var j :| 0 <= j < |files| && files[j] == part[i];
      InBag(files, j);
    }
  }

  lemma BeginCompactCounts(s: State)
    requires Counted(s) && s.compaction.CompactIdle? && s.levels[0] != []
    ensures Counted(BeginCompact(s))
  {
    hide Balanced, AllFiles, StillHolds, Flagged, FlagsFor, Selected, MinKey, MaxKey, RefAll, Ids, Bag;
    var t := BeginCompact(s);
    var l0, chosen := s.levels[0], t.compaction.l1;
    var o := FileOwners(s);
    BagLevels(s.levels);
    InBags(s.levels[0], l0, o);
    InBags(s.levels[1], chosen, o + multiset(Ids(l0)));
    RefAllKeeps(s.fileHeap, o, Ids(l0));
    RefAllKeeps(RefAll(s.fileHeap, Ids(l0)), o + multiset(Ids(l0)), Ids(chosen));
    BagIs(l0);
    BagIs(chosen);
    assert FileOwners(t) == o + multiset(Ids(l0)) + multiset(Ids(chosen));
    assert MemOwners(t) == MemOwners(s);
  }

  lemma BagIs(files: seq<File>)
    ensures Bag(files) == multiset(Ids(files))
  {}

  lemma OpenCompactCounts(s: State)
    requires Counted(s) && s.compaction.CompactChosen?
    ensures Counted(OpenCompact(s))
  {
    hide Balanced, AllFiles, StillHolds, RefAll, Ids, Bag, LiveEntries;
    var t := OpenCompact(s);
    var inputs := s.compaction.l0 + s.compaction.l1;
    BagAppend(s.compaction.l0, s.compaction.l1);
    InBags(inputs, inputs, FileOwners(s));
    RefAllKeeps(s.fileHeap, FileOwners(s), Ids(inputs));
    BagIs(inputs);
    BagNone();
    assert FileOwners(t) == FileOwners(s) + multiset(Ids(inputs));
    assert MemOwners(t) == MemOwners(s);
  }

  lemma BagNone()
    ensures Bag([]) == multiset{}
  {
    assert Ids([]) == [];
  }

  lemma EmitCompactCounts(s: State, n: nat)
    requires Counted(s) && s.compaction.CompactMerging? && n <= |s.compaction.todo| && n <= MAX_SEQUENCE
    ensures Counted(EmitCompact(s, n))
  {
    hide Balanced, AllFiles, StillHolds, Bag;
    var t := EmitCompact(s, n);
    var f := t.compaction.outs[|s.compaction.outs|];
    NewKeeps(s.fileHeap, FileOwners(s));
    BagAppend(s.compaction.outs, [f]);
    BagOne(f);
    assert FileOwners(t) == FileOwners(s) + multiset{|s.fileHeap.refs|};
    assert MemOwners(t) == MemOwners(s);
  }

  lemma CloseCompactCounts(s: State)
    requires Counted(s) && s.compaction.CompactMerging?
    ensures Counted(CloseCompact(s))
  {
    hide Balanced, AllFiles, StillHolds, Bag, UnrefAll, Ids;
    var t := CloseCompact(s);
    BagIs(s.compaction.readers);
    UnrefAllKeeps(s.fileHeap, FileOwners(s), Ids(s.compaction.readers));
    assert FileOwners(t) == FileOwners(s) - multiset(Ids(s.compaction.readers));
    assert MemOwners(t) == MemOwners(s);
  }

  /** The commit moves the outputs into level 1, and gives up the levels' references to the inputs. */
  lemma CommitBags(s: State)
    requires s.compaction.CompactMerged? && CompactionOk(s.compaction, s.levels)
    ensures var c, t := s.compaction, CommitCompact(s);
            && Bag(AllFiles(t.levels)) + Bag(c.l0) + Bag(Erased(s.levels[1], c.indices)) == Bag(AllFiles(s.levels)) + Bag(c.outs)
            && Bag(Erased(s.levels[1], c.indices)) == Bag(c.l1)
  {
    hide CompactionOk, AllFiles, Bag, UnrefAll, Erased, RemoveEach, EraseIndices, SortFiles, NumberSet;
    var c, t := s.compaction, CommitCompact(s);
    var dropped := Erased(s.levels[1], c.indices);
    CommitMoves(s);
    Cancel(multiset(AllFiles(t.levels)) + multiset(c.l0) + multiset(dropped),
      multiset(AllFiles(s.levels)) + multiset(c.outs), multiset(BuiltBy(s.flush)));
    BagPermuted(AllFiles(t.levels) + c.l0 + dropped, AllFiles(s.levels) + c.outs);
    BagPermuted(dropped, c.l1);
    BagAppend(AllFiles(t.levels), c.l0);
    BagAppend(AllFiles(t.levels) + c.l0, dropped);
    BagAppend(AllFiles(s.levels), c.outs);
  }

  /** The two Unrefs of each input are the level's reference and the snapshot's. */
  lemma CommitCompactCounts(s: State)
    requires Counted(s) && s.compaction.CompactMerged? && CompactionOk(s.compaction, s.levels)
    ensures Counted(CommitCompact(s))
  {
    hide Balanced, AllFiles, StillHolds, Bag, UnrefAll, Ids, CompactionOk, Erased, RemoveEach, EraseIndices,
      SortFiles, NumberSet, Numbers;
    var c, t := s.compaction, CommitCompact(s);
    var dropped := Erased(s.levels[1], c.indices);
    CommitBags(s);
    BagIs(c.l0); BagIs(c.l1); BagIs(dropped);
    var left := Bag(AllFiles(t.levels)) + Bag(BuiltBy(s.flush)) + ClientFiles(s.clients);
    var a, d := Bag(c.l0), Bag(c.l1);
    assert FileOwners(s) == (Bag(AllFiles(s.levels)) + Bag(c.outs)) + a + d + Bag(BuiltBy(s.flush)) + ClientFiles(s.clients);
    assert FileOwners(s) == left + a + d + a + d;
    FourUnrefs(s.fileHeap, left, Ids(c.l0), Ids(dropped), Ids(c.l1));
    assert FileOwners(t) == left;
    assert MemOwners(t) == MemOwners(s);
  }

  lemma FourUnrefs(h: Heap, left: multiset<nat>, l0: seq<nat>, dropped: seq<nat>, l1: seq<nat>)
    requires Balanced(h, left + multiset(l0) + multiset(dropped) + multiset(l0) + multiset(l1))
    ensures Balanced(UnrefAll(UnrefAll(UnrefAll(UnrefAll(h, l0), dropped), l0), l1), left)
  {
    hide Balanced, UnrefAll;
    var a, b, d := multiset(l0), multiset(dropped), multiset(l1);
    var o := left + a + b + a + d;
    UnrefAllKeeps(h, o, l0);
    assert o - a == left + b + a + d;
    UnrefAllKeeps(UnrefAll(h, l0), left + b + a + d, dropped);
    assert left + b + a + d - b == left + a + d;
    UnrefAllKeeps(UnrefAll(UnrefAll(h, l0), dropped), left + a + d, l0);
    assert left + a + d - a == left + d;
    UnrefAllKeeps(UnrefAll(UnrefAll(UnrefAll(h, l0), dropped), l0), left + d, l1);
    assert left + d - d == left;
  }

  lemma BeginReadCounts(s: State, key: Bytes, stage: Stage)
    requires Counted(s)
    ensures Counted(BeginRead(s, key, stage))
  {
    hide Balanced, AllFiles, Bag, RefAll, Ids, MemsHeld, ClientFiles, ClientMems, CompactionFiles;
    var t := BeginRead(s, key, stage);
    var mems, files := MemsHeld(s.mem, s.imm), AllFiles(s.levels);
    ClientAdd(s.clients, t.clients[|s.clients|]);
    BagIs(files);
    InBags(files, files, FileOwners(s));
    forall i | 0 <= i < |mems| ensures mems[i] in MemOwners(s) { assert mems[i] in multiset(mems); }
    RefAllKeeps(s.memHeap, MemOwners(s), mems);
    RefAllKeeps(s.fileHeap, FileOwners(s), Ids(files));
    Plus(multiset(mems) + multiset(FlushSource(s.flush)), ClientMems(s.clients), multiset(mems));
    Plus(Bag(files) + CompactionFiles(s.compaction) + Bag(BuiltBy(s.flush)), ClientFiles(s.clients), Bag(files));
    RefAllSize(s.memHeap, mems);
  }

  lemma Plus(a: multiset<nat>, b: multiset<nat>, c: multiset<nat>)
    ensures a + b + c == a + (b + c)
  {}

  lemma {:induction false} RefAllSize(h: Heap, ids: seq<nat>)
    ensures |RefAll(h, ids).refs| == |h.refs|
  {
    if ids != [] { RefAllSize(h, ids[..|ids| - 1]); }
  }

  lemma StepReadCounts(s: State, i: nat)
    requires Wired(s) && Counted(s) && i < |s.clients|
    ensures Counted(StepRead(s, i))
  {
    hide Balanced, AllFiles, Bag, MemsHeld, MemGet, ImmGet, Lookup, FindInLevel, Answer;
    var t := StepRead(s, i);
    var c := s.clients[i];
    ClientSet(s.clients, i, t.clients[i]);
    Cancel(ClientFiles(t.clients), ClientFiles(s.clients), Bag(c.heldFiles));
    Cancel(ClientMems(t.clients), ClientMems(s.clients), multiset(c.heldMems));
    assert StillHolds(c);
  }

  lemma ReleaseMem(clients: seq<Client>, i: nat)
    requires i < |clients| && clients[i].heldMems != []
    ensures var c := clients[i];
            var after := clients[i := c.(heldMems := c.heldMems[1..])];
            && c.heldMems[0] in ClientMems(clients)
            && ClientMems(after) + multiset{c.heldMems[0]} == ClientMems(clients) && ClientFiles(after) == ClientFiles(clients)
  {
    hide Bag;
    var c := clients[i];
    var d := c.(heldMems := c.heldMems[1..]);
    ClientSet(clients, i, d);
    ClientHas(clients, i);
    assert c.heldMems == [c.heldMems[0]] + d.heldMems;
    assert multiset(c.heldMems) == multiset{c.heldMems[0]} + multiset(d.heldMems);
    Cancel(ClientFiles(clients[i := d]), ClientFiles(clients), Bag(c.heldFiles));
    Cancel(ClientMems(clients[i := d]) + multiset{c.heldMems[0]}, ClientMems(clients), multiset(d.heldMems));
    assert c.heldMems[0] in multiset(c.heldMems);
  }

  lemma ReleaseFile(clients: seq<Client>, i: nat)
    requires i < |clients| && clients[i].heldFiles != []
    ensures var c := clients[i];
            var after := clients[i := c.(heldFiles := c.heldFiles[1..])];
            && c.heldFiles[0].id in ClientFiles(clients)
            && ClientFiles(after) + multiset{c.heldFiles[0].id} == ClientFiles(clients) && ClientMems(after) == ClientMems(clients)
  {
    hide Bag;
    var c := clients[i];
    var d := c.(heldFiles := c.heldFiles[1..]);
    ClientSet(clients, i, d);
    ClientHas(clients, i);
    assert c.heldFiles == [c.heldFiles[0]] + d.heldFiles;
    BagAppend([c.heldFiles[0]], d.heldFiles);
    BagOne(c.heldFiles[0]);
    Cancel(ClientMems(clients[i := d]), ClientMems(clients), multiset(c.heldMems));
    Cancel(ClientFiles(clients[i := d]) + multiset{c.heldFiles[0].id}, ClientFiles(clients), Bag(d.heldFiles));
    InBag(c.heldFiles, 0);
  }

  lemma ReleaseReadCounts(s: State, i: nat)
    requires Counted(s) && Wired(s) && Enabled(s, ReleaseAction(i))
    ensures Counted(ReleaseRead(s, i))
  {
    hide Balanced, AllFiles, Bag, MemsHeld, ClientFiles, ClientMems, Unref, CompactionFiles, StillHolds;
    var t := ReleaseRead(s, i);
    var c := s.clients[i];
    DoneHolds(t.clients[i]);
    UnrefSize(s.memHeap, if c.heldMems == [] then 0 else c.heldMems[0]);
    if c.heldMems != [] {
      var id := c.heldMems[0];
      ReleaseMem(s.clients, i);
      UnrefKeeps(s.memHeap, MemOwners(s), id);
      Minus(multiset(MemsHeld(s.mem, s.imm)) + multiset(FlushSource(s.flush)), ClientMems(s.clients), ClientMems(t.clients), id);
    } else {
      var id := c.heldFiles[0].id;
      ReleaseFile(s.clients, i);
      UnrefKeeps(s.fileHeap, FileOwners(s), id);
      Minus(Bag(AllFiles(s.levels)) + CompactionFiles(s.compaction) + Bag(BuiltBy(s.flush)), ClientFiles(s.clients),
        ClientFiles(t.clients), id);
    }
  }

  lemma Minus(rest: multiset<nat>, before: multiset<nat>, after: multiset<nat>, id: nat)
    requires after + multiset{id} == before
    ensures rest + before - multiset{id} == rest + after
  {}

  lemma UnrefSize(h: Heap, id: nat)
    ensures |Unref(h, id).refs| == |h.refs|
  {}

  lemma DoneHolds(c: Client)
    requires c.stage.Returned? || c.stage.Walking?
    ensures StillHolds(c)
  {}

  // ---- Closing ----

  lemma {:induction false} NobodyHolds(clients: seq<Client>)
    requires forall i :: 0 <= i < |clients| ==> clients[i].heldMems == [] && clients[i].heldFiles == []
    ensures ClientFiles(clients) == multiset{} && ClientMems(clients) == multiset{}
  {
    if clients != [] {
      NobodyHolds(clients[..|clients| - 1]);
      BagNone();
    }
  }

  /** The destructor drops the last references: every object ever made has then been deleted. */
  lemma CloseFreesEverything(s: State)
    requires Counted(s) && Quiet(s)
    ensures Balanced(Close(s).memHeap, multiset{}) && Balanced(Close(s).fileHeap, multiset{})
    ensures forall id :: 0 <= id < |Close(s).memHeap.refs| ==> id in Close(s).memHeap.freed
    ensures forall id :: 0 <= id < |Close(s).fileHeap.refs| ==> id in Close(s).fileHeap.freed
  {
    hide AllFiles, Bag, Unref, UnrefAll, Ids, Balanced, ClientFiles, ClientMems;
    NobodyHolds(s.clients);
    BagNone();
    BagIs(AllFiles(s.levels));
    assert MemOwners(s) == multiset{s.mem};
    UnrefKeeps(s.memHeap, MemOwners(s), s.mem);
    UnrefAllKeeps(s.fileHeap, FileOwners(s), Ids(AllFiles(s.levels)));
    assert MemOwners(s) - multiset{s.mem} == multiset{};
    assert FileOwners(s) - multiset(Ids(AllFiles(s.levels))) == multiset{};
    AllFreed(Close(s).memHeap);
    AllFreed(Close(s).fileHeap);
  }

  lemma AllFreed(h: Heap)
    requires Balanced(h, multiset{})
    ensures forall id :: 0 <= id < |h.refs| ==> id in h.freed
  {}

  lemma ReopenCounts(s: State)
    requires Consistent(s) && Durable(s) && Counted(s) && Quiet(s)
    ensures |LogRecords(Close(s).disk)| <= MAX_SEQUENCE && Counted(Recover(Close(s)))
  {
    hide Balanced, AllFiles, Bag, UnrefAll, Ids, Consistent, Durable, NewMany, OpenLevels, Replay, LogRecords,
      LogOf, SavedManifest;
    CloseFreesEverything(s);
    var q := Close(s);
    FitsAfterClose(s, q);
    var t := Recover(q);
    var n := |AllFiles(t.levels)|;
    NewKeeps(q.memHeap, multiset{});
    NewManyKeeps(q.fileHeap, multiset{}, n);
    RestoredIds(s, q);
    NobodyHolds(s.clients);
    BagNone();
    RefsAfterNew(q.memHeap);
    assert MemOwners(t) == multiset{} + multiset{|q.memHeap.refs|};
    assert FileOwners(t) == multiset{} + multiset(NewIds(q.fileHeap, n));
  }

  lemma FitsAfterClose(s: State, q: State)
    requires Durable(s) && s.imm.None? && q == Close(s)
    ensures |LogRecords(q.disk)| <= MAX_SEQUENCE && SameDisk(q, s) && |q.memHeap.refs| == |s.memHeap.refs|
  {
    hide Durable, LogRecords;
    LogFits(s);
  }

  lemma RestoredIds(s: State, q: State)
    requires Durable(s) && s.imm.None? && SameDisk(q, s)
    ensures |LogRecords(q.disk)| <= MAX_SEQUENCE
    ensures var levels := Recover(q).levels;
            Bag(AllFiles(levels)) == multiset(NewIds(q.fileHeap, |AllFiles(levels)|))
  {
    hide AllFiles, OpenLevels, LogRecords, SameLevels, NewMany, Replay, LogOf, LogsOk, TablesOk, ManifestOk,
      SequenceAfter;
    LogFits(s);
    OpenLevelsRestores(s, |q.fileHeap.refs|);
    var files := AllFiles(Recover(q).levels);
    assert Ids(files) == NewIds(q.fileHeap, |files|);
  }
}
