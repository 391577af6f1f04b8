/** The database object and the sections of its methods that run under the lock, as the code writes them
    (src/db.cc). Each is proved to be a step of the machine in `Databases`. */
module DatabaseObjects {
  import opened Slices
  import opened Coding
  import opened Entries
  import opened InternalKeys
  import opened MemTables
  import opened Levels
  import opened Compactions
  import opened CompactionResults
  import opened RefCounts
  import opened Databases
  import opened DatabaseAnswers
  import opened DatabaseCounts
  import Wal

  /** The fields of the object; the ghost ones say where the other threads are. */
  class DB {
    var mems: seq<History>
    var memHeap: Heap
    var fileHeap: Heap
    var mem: nat
    var imm: Option<nat>
    var immFlushing: bool
    var levels: LevelFiles
    var nextFile: nat
    var walNumber: nat
    var lastSequence: nat
    var disk: Disk
    ghost var flush: Flush
    ghost var compaction: Compaction
    ghost var clients: seq<Client>
    ghost var model: map<Bytes, Bytes>

    ghost function View(): State
      reads this
    {
      State(mems, memHeap, fileHeap, mem, imm, immFlushing, levels, nextFile, walNumber, lastSequence,
            flush, compaction, clients, disk, model)
    }

    // ---- Put and Delete ----

    /** The log record, then the memory table. */
    method Put(key: Bytes, value: Bytes)
      requires Wired(View()) && lastSequence < MAX_SEQUENCE && |mems[mem]| < MAX_SEQUENCE
      modifies this
      ensures View() == Write(old(View()), key, value, Wal.PUT, Value)
    {
      hide MakeInternalKey, Wal.Encode, MapPut;
      lastSequence := lastSequence + 1;
      var ik := MakeInternalKey(key, lastSequence, Value);
      LogRecord(Wal.PUT, ik, value);
      mems := mems[mem := mems[mem] + [Entry(key, value)]];
      model := MapPut(model, key, value);
    }

    method Delete(key: Bytes)
      requires Wired(View()) && lastSequence < MAX_SEQUENCE && |mems[mem]| < MAX_SEQUENCE
      modifies this
      ensures View() == Write(old(View()), key, [], Wal.DELETE, Deletion)
    {
      hide MakeInternalKey, Wal.Encode, MapPut;
      lastSequence := lastSequence + 1;
      var ik := MakeInternalKey(key, lastSequence, Deletion);
      LogRecord(Wal.DELETE, ik, []);
      mems := mems[mem := mems[mem] + [Entry(key, [])]];
      model := MapPut(model, key, []);
    }

    method LogRecord(kind: byte, key: Bytes, value: Bytes)
      modifies this`disk
      ensures var log := LogOf(old(disk), walNumber) + Wal.Encode(Wal.Record(kind, key, value));
              disk == old(disk).(logs := old(disk).logs[walNumber := log])
    {
      hide Wal.Encode;
      var wal := new Wal.WALWriter.Open(LogOf(disk, walNumber));
      wal.AddRecord(kind, key, value);
      disk := disk.(logs := disk.logs[walNumber := wal.file]);
    }

    /** MakeRoomForWrite once the memory table is full and imm_ is free. */
    method SwitchMemTable()
      requires imm.None?
      modifies this`imm, this`mem, this`mems, this`memHeap, this`walNumber, this`disk
      ensures View() == Rotate(old(View()))
    {
      hide New, LogOf, Rotate;
      RotateIs(View());
      imm, mem, mems, memHeap := Some(mem), |mems|, mems + [[]], New(memHeap);
      walNumber := walNumber + 1;
      OpenLog();
    }

    /** WALWriter::Open appends to what the file holds, creating it if need be. */
    method OpenLog()
      modifies this`disk
      ensures disk == old(disk).(logs := old(disk).logs[walNumber := LogOf(old(disk), walNumber)])
    {
      var wal := new Wal.WALWriter.Open(LogOf(disk, walNumber));
      disk := disk.(logs := disk.logs[walNumber := wal.file]);
    }

    // ---- Flush ----

    /** The first locked section of BackgroundFlush. */
    method ClaimFlush() returns (claimed: bool, number: nat)
      requires Wired(View()) && (immFlushing <==> !flush.FlushIdle?)
      modifies this
      ensures claimed <==> old(imm.Some? && !immFlushing)
      ensures claimed ==> number == old(nextFile) && View() == BeginFlush(old(View()))
      ensures !claimed ==> View() == old(View())
    {
      number := nextFile;
      claimed := imm != None && !immFlushing;
      if !claimed { return; }
      immFlushing := true;
      nextFile := nextFile + 1;
      flush := FlushClaimed(number);
    }

    /** The second one, with the table that was built. */
    method CommitFlushed(table: File)
      requires imm.Some? && flush == FlushBuilt(table)
      modifies this`levels, this`disk, this`memHeap, this`imm, this`immFlushing, this`flush
      ensures View() == CommitFlush(old(View()))
    {
      hide Numbers, Unref, CommitFlush, Saved;
      CommitFlushIs(View());
      levels := levels[0 := levels[0] + [table]];
      WriteManifest();
      memHeap, imm, immFlushing, flush := Unref(memHeap, imm.value), None, false, FlushIdle;
    }

    method WriteManifest()
      modifies this`disk
      ensures View() == Saved(old(View()))
    {
      var lines: seq<seq<nat>> := [];
      var l := 0;
      while l < |levels|
        invariant 0 <= l <= 4 && |lines| == l && forall k :: 0 <= k < l ==> lines[k] == Numbers(levels[k])
      {
        var numbers: seq<nat> := [];
        var i := 0;
        while i < |levels[l]|
          invariant 0 <= i <= |levels[l]| && numbers == Numbers(levels[l])[..i]
        {
          numbers := numbers + [levels[l][i].number];
          i := i + 1;
        }
        assert Numbers(levels[l])[..i] == Numbers(levels[l]);
        lines := lines + [numbers];
        l := l + 1;
      }
      assert lines == [Numbers(levels[0]), Numbers(levels[1]), Numbers(levels[2]), Numbers(levels[3])];
      disk := disk.(manifest := Some(Manifest(lines, nextFile, walNumber)));
    }

    // ---- Compaction ----

    method RefFiles(files: seq<File>)
      modifies this`fileHeap
      ensures fileHeap == RefAll(old(fileHeap), Ids(files))
    {
      hide Ref;
      var i := 0;
      while i < |files|
        invariant 0 <= i <= |files| && fileHeap == RefAll(old(fileHeap), Ids(files)[..i])
      {
        fileHeap := Ref(fileHeap, files[i].id);
        assert Ids(files)[..i + 1][..i] == Ids(files)[..i];
        i := i + 1;
      }
      assert Ids(files)[..i] == Ids(files);
    }

    method UnrefFiles(files: seq<File>)
      modifies this`fileHeap
      ensures fileHeap == UnrefAll(old(fileHeap), Ids(files))
    {
      hide Unref;
      var i := 0;
      while i < |files|
        invariant 0 <= i <= |files| && fileHeap == UnrefAll(old(fileHeap), Ids(files)[..i])
      {
        fileHeap := Unref(fileHeap, files[i].id);
        assert Ids(files)[..i + 1][..i] == Ids(files)[..i];
        i := i + 1;
      }
      assert Ids(files)[..i] == Ids(files);
    }

    /** Phase 1 of BackgroundCompaction: references to level 0, its key range, references to the files that meet it. */
    method ChooseInputs() returns (l0: seq<File>, l1: seq<File>, indices: seq<nat>)
      requires Wired(View()) && Enabled(View(), CompactBeginAction)
      modifies this
      ensures View() == BeginCompact(old(View()))
      ensures compaction == CompactChosen(l0, l1, indices)
    {
      hide Selected, MinKey, MaxKey, RefAll, Flagged, OverlapFlags, FlagIndices, Rightful, Overlaps;
      l0 := levels[0];
      RefFiles(l0);
      var minKey, maxKey;
      minKey, maxKey, indices := SelectInputs(RunsIn(l0), RunsIn(levels[1]));
      l1 := [];
      var i := 0;
      SelectedAre(l0, levels[1]);
      while i < |indices|
        invariant 0 <= i <= |indices| && |l1| == i && forall k :: 0 <= k < i ==> l1[k] == levels[1][indices[k]]
      {
        l1 := l1 + [levels[1][indices[i]]];
        i := i + 1;
      }
      assert l1 == Flagged(levels[1], FlagsFor(l0, levels[1]));
      RefFiles(l1);
      compaction := CompactChosen(l0, l1, indices);
    }

    /** The last locked section of BackgroundCompaction. */
    method CommitCompacted(l0: seq<File>, l1: seq<File>, indices: seq<nat>, outs: seq<File>)
      requires Wired(View()) && compaction == CompactMerged(l0, l1, indices, outs)
      modifies this
      ensures View() == CommitCompact(old(View()))
    {
      hide SortFiles, EraseIndices, Erased, RemoveEach, UnrefAll, NumberSet, Numbers, Ids;
      ghost var before := View();
      RemoveLevel0(l0);
      RemoveLevel1(indices);
      levels := levels[1 := SortFiles(levels[1] + outs)];
      compaction := CompactIdle;
      WriteManifest();
      UnrefFiles(l0);
      UnrefFiles(l1);
      assert View().levels == CommitCompact(before).levels;
    }

    /** Each file of the snapshot is found in level 0 and erased, its file unlinked, the level's reference dropped. */
    method RemoveLevel0(gone: seq<File>)
      modifies this`levels, this`disk, this`fileHeap
      ensures levels == old(levels)[0 := RemoveEach(old(levels)[0], gone)]
      ensures disk == old(disk).(tables := old(disk).tables - NumberSet(gone))
      ensures fileHeap == UnrefAll(old(fileHeap), Ids(gone))
    {
      hide Unref, RemoveFirst, UnrefAll, Ids, NumberSet;
      NothingDone();
      UnrefNone(fileHeap);
      assert gone[0..] == gone;
      var i := 0;
      while i < |gone|
        invariant 0 <= i <= |gone| && RemoveEach(levels[0], gone[i..]) == RemoveEach(old(levels)[0], gone)
        invariant levels == old(levels)[0 := levels[0]]
        invariant disk == old(disk).(tables := old(disk).tables - NumberSet(gone[..i]))
        invariant fileHeap == UnrefAll(old(fileHeap), Ids(gone[..i]))
      {
        MoreDone(old(fileHeap), gone[..i], gone[i]);
        var found := FindById(levels[0], gone[i].id);
        RemoveFound(levels[0], gone[i].id, found);
        if found < |levels[0]| {
          levels := levels[0 := levels[0][..found] + levels[0][found + 1..]];
        }
        disk := disk.(tables := disk.tables - {gone[i].number});
        fileHeap := Unref(fileHeap, gone[i].id);
        assert gone[i..][1..] == gone[i + 1..];
        assert gone[..i + 1] == gone[..i] + [gone[i]];
        i := i + 1;
      }
      assert gone[..i] == gone;
    }

    /** One level 1 file: unlinked, the level's reference dropped, erased. */
    method DropFile(index: nat)
      requires index < |levels[1]|
      modifies this`levels, this`disk, this`fileHeap
      ensures levels == old(levels)[1 := old(levels)[1][..index] + old(levels)[1][index + 1..]]
      ensures disk == old(disk).(tables := old(disk).tables - {old(levels)[1][index].number})
      ensures fileHeap == Unref(old(fileHeap), old(levels)[1][index].id)
    {
      hide Unref;
      var f := levels[1][index];
      disk := disk.(tables := disk.tables - {f.number});
      fileHeap := Unref(fileHeap, f.id);
      levels := levels[1 := levels[1][..index] + levels[1][index + 1..]];
    }

    /** From the largest index down: unlink, drop the level's reference, erase. */
    method RemoveLevel1(indices: seq<nat>)
      modifies this`levels, this`disk, this`fileHeap
      ensures levels == old(levels)[1 := EraseIndices(old(levels)[1], indices)]
      ensures disk == old(disk).(tables := old(disk).tables - NumberSet(Erased(old(levels)[1], indices)))
      ensures fileHeap == UnrefAll(old(fileHeap), Ids(Erased(old(levels)[1], indices)))
    {
      hide Unref, EraseIndices, Erased, NumberSet, Ids;
      ghost var done: seq<File> := [];
      var i := |indices|;
      assert indices[..i] == indices;
      NothingDone();
      while i > 0
        invariant 0 <= i <= |indices|
        invariant levels == old(levels)[1 := levels[1]]
        invariant EraseIndices(levels[1], indices[..i]) == EraseIndices(old(levels)[1], indices)
        invariant done + Erased(levels[1], indices[..i]) == Erased(old(levels)[1], indices)
        invariant disk == old(disk).(tables := old(disk).tables - NumberSet(done))
        invariant fileHeap == UnrefAll(old(fileHeap), Ids(done))
      {
        i := i - 1;
        var index := indices[i];
        assert indices[..i + 1][..i] == indices[..i];
        EraseStep(levels[1], indices[..i + 1]);
        if index < |levels[1]| {
          MoreDone(old(fileHeap), done, levels[1][index]);
          done := done + [levels[1][index]];
          DropFile(index);
        }
      }
      EraseNothing(levels[1]);
      assert indices[..0] == [] && done + [] == done;
    }

    // ---- Open ----

    /** Recover: the manifest is read, the saved log is replayed into a new memory table and kept open. */
    method Recovery()
      requires |LogRecords(disk)| <= MAX_SEQUENCE
      modifies this
      ensures View() == Recover(old(View()))
    {
      hide OpenLevels, NewMany, Wal.Records, Replay, SequenceAfter, LogOf, LogRecords, AllFiles, New;
      ReadManifest();
      var h, last := ReplayLog();
      mem, imm, immFlushing, memHeap, mems, lastSequence := |mems|, None, false, New(memHeap), mems + [h], last;
      OpenLog();
      flush, compaction := FlushIdle, CompactIdle;
    }

    /** ReadManifest: the two numbers, and the listed tables opened level by level. */
    method ReadManifest()
      modifies this`levels, this`fileHeap, this`nextFile, this`walNumber
      ensures levels == OpenLevels(disk, |old(fileHeap).refs|) && fileHeap == NewMany(old(fileHeap), |AllFiles(levels)|)
      ensures nextFile == SavedManifest(disk).nextFile && walNumber == SavedManifest(disk).walNumber
    {
      hide OpenFiles, SavedLevel, NewMany;
      var m := SavedManifest(disk);
      nextFile, walNumber := m.nextFile, m.walNumber;
      var l0 := OpenLevel(SavedLevel(disk, 0));
      var l1 := OpenLevel(SavedLevel(disk, 1));
      var l2 := OpenLevel(SavedLevel(disk, 2));
      var l3 := OpenLevel(SavedLevel(disk, 3));
      NewManySum(old(fileHeap), |l0|, |l1|);
      NewManySum(old(fileHeap), |l0| + |l1|, |l2|);
      NewManySum(old(fileHeap), |l0| + |l1| + |l2|, |l3|);
      levels := [l0, l1, l2, l3];
    }

    /** The lines of one level. */
    method OpenLevel(numbers: seq<nat>) returns (files: seq<File>)
      modifies this`fileHeap
      ensures files == OpenFiles(numbers, disk.tables, |old(fileHeap).refs|)
      ensures fileHeap == NewMany(old(fileHeap), |files|) && |fileHeap.refs| == |old(fileHeap).refs| + |files|
    {
      files := [];
      var i := 0;
      while i < |numbers|
        invariant 0 <= i <= |numbers| && files == OpenFiles(numbers[..i], disk.tables, |old(fileHeap).refs|)
        invariant fileHeap == NewMany(old(fileHeap), |files|) && |fileHeap.refs| == |old(fileHeap).refs| + |files|
      {
        assert numbers[..i + 1][..i] == numbers[..i];
        if numbers[i] in disk.tables {
          files := files + [File(|fileHeap.refs|, numbers[i], disk.tables[numbers[i]])];
          fileHeap := New(fileHeap);
        }
        i := i + 1;
      }
      assert numbers[..i] == numbers;
    }

    /** The callback of WALReader::Recover, record by record. */
    method ReplayLog() returns (h: History, last: nat)
      requires walNumber == SavedManifest(disk).walNumber && |LogRecords(disk)| <= MAX_SEQUENCE
      ensures h == Replay(LogRecords(disk)) && last == SequenceAfter(LogRecords(disk))
    {
      hide Wal.Records, ExtractUserKey, ExtractSequence, LogOf;
      var records := Wal.Recover(LogOf(disk, walNumber));
      h, last := [], 0;
      var i := 0;
      while i < |records|
        invariant 0 <= i <= |records| && h == Replay(records[..i]) && last == SequenceAfter(records[..i])
      {
        var r := records[i];
        assert records[..i + 1][..i] == records[..i];
        if |r.key| >= 8 {
          if ExtractSequence(r.key) > last { last := ExtractSequence(r.key); }
          h := h + [Entry(ExtractUserKey(r.key), r.value)];
        } else {
          ShortKey(r.key);
          last := last + 1;
          h := h + [Entry(r.key, r.value)];
        }
        i := i + 1;
      }
      assert records[..i] == records;
    }

    // ---- Get ----

    /** Phase 1: a reference to every layer. */
    method TakeSnapshot(key: Bytes) returns (c: Client)
      requires Wired(View())
      modifies this
      ensures View() == BeginRead(old(View()), key, InMem)
      ensures c == Client(key, mem, imm, levels, InMem, MemsHeld(mem, imm), AllFiles(levels)) && clients == old(clients) + [c]
    {
      hide Ref, RefAll, Ids, Wired, JoinFiles, AllFiles;
      var heldMems := [mem];
      memHeap := Ref(memHeap, mem);
      if imm != None {
        heldMems := heldMems + [imm.value];
        memHeap := Ref(memHeap, imm.value);
      }
      RefMems(old(memHeap), mem, imm);
      var snapshot: seq<seq<File>> := [];
      var held: seq<File> := [];
      var l := 0;
      RefNone(fileHeap);
      while l < 4
        invariant 0 <= l <= 4 && snapshot == levels[..l]
        invariant held == JoinFiles(levels[..l]) && fileHeap == RefAll(old(fileHeap), Ids(held))
        modifies this`fileHeap
      {
        ghost var heap := fileHeap;
        RefFiles(levels[l]);
        RefMore(old(fileHeap), held, levels[l]);
        JoinMore(levels, l);
        held := held + levels[l];
        snapshot := snapshot + [levels[l]];
        l := l + 1;
      }
      assert levels[..4] == levels;
      JoinAll(levels);
      assert heldMems == MemsHeld(mem, imm) && held == AllFiles(levels) && snapshot == levels;
      c := Client(key, mem, imm, snapshot, InMem, heldMems, held);
      clients := clients + [c];
    }

    /** A whole Get that nothing interrupts: the snapshot, the search, and every reference given back. It answers
        for the whole store and leaves everything, counts included, as it was. */
    method Get(key: Bytes) returns (r: Option<Bytes>)
      requires Wired(View()) && Counted(View())
      modifies this
      ensures r == DbAnswer(old(View()), key)
      ensures View() == old(View())
    {
      hide MemGet, ImmGet, FindNewest, FindFrom, FindInLevel, Lookup, RefAll, UnrefAll, AllFiles, MemsHeld,
        Balanced, Ids, Wired, Answer;
      ghost var before := View();
      SnapshotIsWired(before);
      var c := TakeSnapshot(key);
      r := Search(mems, c);
      Unreference(c.heldMems);
      UnrefFiles(c.heldFiles);
      clients := clients[..|clients| - 1];
      CountsReturn(before);
      assert clients == before.clients;
    }

    method Unreference(ids: seq<nat>)
      modifies this`memHeap
      ensures memHeap == UnrefAll(old(memHeap), ids)
    {
      hide Unref;
      var i := 0;
      while i < |ids|
        invariant 0 <= i <= |ids| && memHeap == UnrefAll(old(memHeap), ids[..i])
      {
        memHeap := Unref(memHeap, ids[i]);
        assert ids[..i + 1][..i] == ids[..i];
        i := i + 1;
      }
      assert ids[..i] == ids;
    }
  }

  lemma SnapshotIsWired(s: State)
    requires Wired(s)
    ensures s.mem < |s.mems| && (s.imm.Some? ==> s.imm.value < |s.mems|)
  {}

  /** Taking the references of a snapshot and giving them back changes no count. */
  lemma CountsReturn(s: State)
    requires Counted(s)
    ensures UnrefAll(RefAll(s.memHeap, MemsHeld(s.mem, s.imm)), MemsHeld(s.mem, s.imm)) == s.memHeap
    ensures UnrefAll(RefAll(s.fileHeap, Ids(AllFiles(s.levels))), Ids(AllFiles(s.levels))) == s.fileHeap
  {
    hide AllFiles, RefAll, UnrefAll, Balanced, Ids, Bag, MemsHeld, ClientFiles, ClientMems, CompactionFiles;
    var files := AllFiles(s.levels);
    BagIs(files);
    InBags(files, files, FileOwners(s));
    BackAgain(s.memHeap, MemOwners(s), MemsHeld(s.mem, s.imm));
    BackAgain(s.fileHeap, FileOwners(s), Ids(files));
  }

  lemma BackAgain(h: Heap, owners: multiset<nat>, ids: seq<nat>)
    requires Balanced(h, owners) && multiset(ids) <= owners
    ensures UnrefAll(RefAll(h, ids), ids) == h
  {
    hide RefAll, UnrefAll, Balanced;
    forall i | 0 <= i < |ids| ensures ids[i] in owners { assert ids[i] in multiset(ids); }
    RefAllKeeps(h, owners, ids);
    UnrefAllKeeps(RefAll(h, ids), owners + multiset(ids), ids);
    assert owners + multiset(ids) - multiset(ids) == owners;
    RefAllSize(h, ids);
    UnrefAllSize(RefAll(h, ids), ids);
    SameBalance(h, UnrefAll(RefAll(h, ids), ids), owners);
  }

  lemma {:induction false} UnrefAllSize(h: Heap, ids: seq<nat>)
    ensures |UnrefAll(h, ids).refs| == |h.refs|
  {
    if ids != [] { UnrefAllSize(h, ids[..|ids| - 1]); }
  }

  /** The holders determine the counts. */
  lemma SameBalance(g: Heap, h: Heap, owners: multiset<nat>)
    requires Balanced(g, owners) && Balanced(h, owners) && |g.refs| == |h.refs|
    ensures g == h
  {
    assert g.refs == h.refs;
    forall id ensures id in g.freed <==> id in h.freed {}
  }

  /** The unlocked search: memory tables, level 0 from the newest table down, then level by level. */
  method Search(mems: seq<History>, c: Client) returns (r: Option<Bytes>)
    requires ClientWired(c, |mems|)
    ensures r == Answer(Orelse(MemGet(mems[c.memRef], c.key), Orelse(ImmGet(mems, c.immRef, c.key), TableGet(c.snapshot, c.key))))
  {
    hide MemGet, FindNewest, FindFrom, FindInLevel, Lookup;
    var hit := MemGet(mems[c.memRef], c.key);
    if hit == None && c.immRef != None {
      hit := MemGet(mems[c.immRef.value], c.key);
    }
    if hit == None {
      hit := SearchLevel0(c.snapshot[0], c.key);
    }
    if hit == None {
      hit := SearchLevels(c.snapshot, c.key);
    }
    r := if hit == Some([]) then None else hit;
  }

  method SearchLevel0(files: seq<File>, key: Bytes) returns (hit: Option<Bytes>)
    ensures hit == FindNewest(RunsIn(files), key)
  {
    hide Lookup;
    var i := |files| - 1;
    assert files[..|files|] == files;
    while i >= 0
      invariant -1 <= i < |files|
      invariant FindNewest(RunsIn(files[..i + 1]), key) == FindNewest(RunsIn(files), key)
    {
      NewestUnfolds(files[..i + 1], key);
      assert files[..i + 1][..i] == files[..i];
      hit := Lookup(files[i].run, key);
      if hit != None { return; }
      i := i - 1;
    }
    hit := None;
  }

  method SearchLevels(levels: LevelFiles, key: Bytes) returns (hit: Option<Bytes>)
    ensures hit == FindFrom(LevelRuns(levels), 1, key)
  {
    hide FindInLevel, RunsIn;
    var l := 1;
    while l < 4
      invariant 1 <= l <= 4 && FindFrom(LevelRuns(levels), l, key) == FindFrom(LevelRuns(levels), 1, key)
    {
      hit := GetFromLevel(RunsIn(levels[l]), key);
      assert LevelRuns(levels)[l] == RunsIn(levels[l]);
      if hit != None { return; }
      l := l + 1;
    }
    hit := None;
  }

  function JoinFiles(levels: seq<seq<File>>): seq<File>
  {
    if levels == [] then [] else JoinFiles(levels[..|levels| - 1]) + levels[|levels| - 1]
  }

  lemma JoinMore(levels: LevelFiles, l: nat)
    requires l < 4
    ensures JoinFiles(levels[..l + 1]) == JoinFiles(levels[..l]) + levels[l]
    ensures JoinFiles(levels[..0]) == []
  {
    assert levels[..l + 1][..l] == levels[..l];
  }

  lemma JoinAll(levels: LevelFiles)
    ensures JoinFiles(levels) == AllFiles(levels)
  {
    hide JoinFiles;
    JoinMore(levels, 0); JoinMore(levels, 1); JoinMore(levels, 2); JoinMore(levels, 3);
    assert levels[..4] == levels;
  }

  lemma RefNone(h: Heap)
    ensures RefAll(h, Ids([])) == h && JoinFiles([]) == []
  {
    assert Ids([]) == [];
  }

  lemma RefMems(h: Heap, mem: nat, imm: Option<nat>)
    ensures RefAll(h, MemsHeld(mem, imm)) == if imm.Some? then Ref(Ref(h, mem), imm.value) else Ref(h, mem)
  {
    hide Ref;
    assert RefAll(h, [mem]) == Ref(RefAll(h, []), mem) by { assert [mem][..0] == []; }
    if imm.Some? { assert [mem, imm.value][..1] == [mem]; }
  }

  lemma {:induction false} RefMore(h: Heap, a: seq<File>, b: seq<File>)
    ensures RefAll(RefAll(h, Ids(a)), Ids(b)) == RefAll(h, Ids(a + b))
    decreases |b|
  {
    hide Ref;
    if b == [] {
      assert a + b == a && Ids(b) == [];
    } else {
      var n := |b| - 1;
      RefMore(h, a, b[..n]);
      assert Ids(b)[..n] == Ids(b[..n]);
      assert Ids(a + b)[..|a| + n] == Ids(a + b[..n]);
    }
  }

  lemma ShortKey(key: Bytes)
    requires |key| < 8
    ensures ExtractUserKey(key) == key
  {}

  lemma {:induction false} NewManySum(h: Heap, a: nat, b: nat)
    ensures NewMany(NewMany(h, a), b) == NewMany(h, a + b)
  {
    if b > 0 { NewManySum(h, a, b - 1); }
  }

  lemma NothingDone()
    ensures Ids([]) == [] && NumberSet([]) == {}
  {}

  lemma UnrefNone(h: Heap)
    ensures UnrefAll(h, []) == h
  {}

  lemma MoreDone(h: Heap, done: seq<File>, f: File)
    ensures NumberSet(done + [f]) == NumberSet(done) + {f.number}
    ensures UnrefAll(h, Ids(done + [f])) == Unref(UnrefAll(h, Ids(done)), f.id)
  {
    hide Unref;
    assert Ids(done + [f])[..|done|] == Ids(done);
  }

  lemma EraseStep(files: seq<File>, indices: seq<nat>)
    requires indices != []
    ensures var n := |indices| - 1;
            var rest := if indices[n] < |files| then files[..indices[n]] + files[indices[n] + 1..] else files;
            && EraseIndices(files, indices) == EraseIndices(rest, indices[..n])
            && Erased(files, indices) == (if indices[n] < |files| then [files[indices[n]]] else []) + Erased(rest, indices[..n])
  {}

  lemma EraseNothing(files: seq<File>)
    ensures EraseIndices(files, []) == files && Erased(files, []) == []
  {}

  /** std::find over the pointers. */
  method FindById(files: seq<File>, id: nat) returns (i: nat)
    ensures i <= |files| && (forall k :: 0 <= k < i ==> files[k].id != id) && (i < |files| ==> files[i].id == id)
  {
    i := 0;
    while i < |files| && files[i].id != id
      invariant 0 <= i <= |files| && forall k :: 0 <= k < i ==> files[k].id != id
    {
      i := i + 1;
    }
  }

  lemma {:induction false} RemoveFound(files: seq<File>, id: nat, i: nat)
    requires i <= |files| && (forall k :: 0 <= k < i ==> files[k].id != id) && (i < |files| ==> files[i].id == id)
    ensures RemoveFirst(files, id) == if i < |files| then files[..i] + files[i + 1..] else files
  {
    if i == |files| {
      RemoveNone(files, id);
    } else {
      RemoveBetween(files[..i], files[i], files[i + 1..]);
      assert files == files[..i] + ([files[i]] + files[i + 1..]);
    }
  }

  lemma {:induction false} RemoveNone(files: seq<File>, id: nat)
    requires forall k :: 0 <= k < |files| ==> files[k].id != id
    ensures RemoveFirst(files, id) == files
  {
    if files != [] { RemoveNone(files[1..], id); }
  }

  lemma {:induction false} RemoveBetween(front: seq<File>, f: File, back: seq<File>)
    requires forall k :: 0 <= k < |front| ==> front[k].id != f.id
    ensures RemoveFirst(front + ([f] + back), f.id) == front + back
  {
    if front == [] {
      assert front + ([f] + back) == [f] + back && ([f] + back)[1..] == back && front + back == back;
    } else {
      RemoveBetween(front[1..], f, back);
      assert (front + ([f] + back))[1..] == front[1..] + ([f] + back);
      assert [front[0]] + (front[1..] + back) == front + back;
    }
  }

  lemma RotateIs(s: State)
    ensures var n := s.walNumber + 1;
            var disk := s.disk.(logs := s.disk.logs[n := LogOf(s.disk, n)]);
            Rotate(s)
            == State(s.mems + [[]], New(s.memHeap), s.fileHeap, |s.mems|, Some(s.mem), s.immFlushing, s.levels, s.nextFile, n,
                     s.lastSequence, s.flush, s.compaction, s.clients, disk, s.model)
  {
    hide New, LogOf;
  }

  lemma CommitFlushIs(s: State)
    requires s.flush.FlushBuilt? && s.imm.Some?
    ensures var ls := s.levels[0 := s.levels[0] + [s.flush.file]];
            CommitFlush(s)
            == State(s.mems, Unref(s.memHeap, s.imm.value), s.fileHeap, s.mem, None, false, ls, s.nextFile, s.walNumber,
                     s.lastSequence, FlushIdle, s.compaction, s.clients, Saved(s.(levels := ls)).disk, s.model)
  {
    hide Numbers, Unref;
  }

  lemma SelectedAre(l0: seq<File>, l1: seq<File>)
    requires l0 != []
    ensures var indices := Selected(RunsIn(l1), MinKey(RunsIn(l0)), MaxKey(RunsIn(l0)));
            var chosen := Flagged(l1, FlagsFor(l0, l1));
            |chosen| == |indices| && forall k :: 0 <= k < |indices| ==> chosen[k] == l1[indices[k]]
  {
    SelectedIs(l0, l1);
    FlaggedAt(l1, FlagsFor(l0, l1));
  }
}
