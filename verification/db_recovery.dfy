/** What is on disk is enough to rebuild the store (WriteManifest, ReadManifest and Recover in src/db.cc). */
module DatabaseRecovery {
  import opened Slices
  import opened Entries
  import opened InternalKeys
  import opened MemTables
  import opened Levels
  import opened Compactions
  import opened CompactionOutputs
  import opened CompactionResults
  import opened RefCounts
  import opened Databases
  import opened DatabaseAnswers
  import Wal

  // ---- The invariant ----

  /** Replaying this log gives back the memory table. */
  ghost predicate LogHolds(log: Bytes, h: History)
  {
    exists rs :: LogIs(log, rs) && Replay(rs) == h
  }

  ghost predicate LogIs(log: Bytes, rs: seq<Wal.Record>)
  {
    Wal.AllReadable(rs) && log == Wal.EncodeAll(rs)
  }

  function OutsOf(c: Compaction): seq<File>
  {
    match c
    case CompactMerging(_, _, _, _, _, outs) => outs
    case CompactMerged(_, _, _, outs) => outs
    case _ => []
  }

  function BuiltBy(f: Flush): seq<File>
  {
    if f.FlushBuilt? then [f.file] else []
  }

  /** Every open table that is or will be part of a level. */
  function Known(s: State): multiset<File>
  {
    multiset(AllFiles(s.levels)) + multiset(OutsOf(s.compaction)) + multiset(BuiltBy(s.flush))
  }

  /** No table twice, and no number for two tables. */
  ghost predicate NoClash(files: multiset<File>)
  {
    && (forall f :: f in files ==> files[f] == 1)
    && forall f, g :: f in files && g in files && f.number == g.number ==> f == g
  }

  /** Each table's file is on disk, under a number below the limit. */
  ghost predicate OnDisk(files: multiset<File>, tables: map<nat, Table>, limit: nat)
  {
    forall f :: f in files ==> f.number < limit && f.number in tables && tables[f.number] == f.run
  }

  ghost predicate Unused(files: multiset<File>, n: nat)
  {
    forall f :: f in files ==> f.number != n
  }

  /** The number a flush has claimed and not used yet. */
  ghost predicate ClaimIsFree(s: State)
  {
    s.flush.FlushClaimed? || s.flush.FlushReading? ==> s.flush.number < s.nextFile && Unused(Known(s), s.flush.number)
  }

  ghost predicate ManifestOk(s: State)
  {
    var m := SavedManifest(s.disk);
    && |m.levels| == 4 && (forall l :: 0 <= l < 4 ==> m.levels[l] == Numbers(s.levels[l]))
    && m.nextFile <= s.nextFile && OnDisk(multiset(AllFiles(s.levels)), s.disk.tables, m.nextFile)
    && (s.imm.None? ==> m.walNumber == s.walNumber)
  }

  ghost predicate LogsOk(s: State)
    requires Wired(s)
  {
    && LogHolds(LogOf(s.disk, s.walNumber), s.mems[s.mem])
    && forall n :: n in s.disk.logs ==> n <= s.walNumber
  }

  ghost predicate TablesOk(s: State)
  {
    OnDisk(Known(s), s.disk.tables, s.nextFile) && NoClash(Known(s)) && ClaimIsFree(s)
  }

  ghost predicate Durable(s: State)
  {
    Wired(s) && LogsOk(s) && TablesOk(s) && ManifestOk(s)
  }

  // ---- Logs ----

  lemma EmptyLog()
    ensures LogHolds([], [])
  {
    assert LogIs([], []);
    assert Replay([]) == [];
  }

  lemma LogGrows(log: Bytes, h: History, r: Wal.Record)
    requires LogHolds(log, h) && Wal.Readable(r) && |h| < MAX_SEQUENCE
    ensures LogHolds(log + Wal.Encode(r), h + [Replayed(r)])
  {
    hide Wal.Encode, Wal.EncodeAll, Wal.Readable, Replayed;
    var rs :| LogIs(log, rs) && Replay(rs) == h;
    Wal.EncodeAllAppend(rs, r);
    assert LogIs(log + Wal.Encode(r), rs + [r]);
    assert Replay(rs + [r]) == h + [Replayed(r)];
  }

  /** Recovery reads from a log exactly the memory table that it was written for. */
  lemma LogReplays(log: Bytes, h: History)
    requires LogHolds(log, h)
    ensures Replay(Wal.Records(log, 0)) == h
  {
    hide Wal.Records, Wal.EncodeAll, Wal.AllReadable;
    var rs :| LogIs(log, rs) && Replay(rs) == h;
    Wal.LogRoundTrip(rs);
  }

  lemma WriteIsDurable(s: State, k: Bytes, v: Bytes, kind: byte, t: ValueType)
    requires Durable(s) && MayWrite(s, k, v) && |s.mems[s.mem]| < MAX_SEQUENCE
    ensures Durable(Write(s, k, v, kind, t))
  {
    hide Faithful, LogHolds, MakeInternalKey, Wal.Encode, MapPut, OnDisk, NoClash, Replayed;
    var r := Wal.Record(kind, MakeInternalKey(k, s.lastSequence + 1, t), v);
    WrittenRecord(k, s.lastSequence + 1, t, v, kind);
    LogGrows(LogOf(s.disk, s.walNumber), s.mems[s.mem], r);
    var w := Write(s, k, v, kind, t);
    assert Known(w) == Known(s);
  }

  lemma WrittenRecord(k: Bytes, seqno: nat, t: ValueType, v: Bytes, kind: byte)
    requires seqno <= MAX_SEQUENCE && |k| + 8 < Wal.LENGTH_LIMIT && |v| < Wal.LENGTH_LIMIT
    ensures Wal.Readable(Wal.Record(kind, MakeInternalKey(k, seqno, t), v))
    ensures Replayed(Wal.Record(kind, MakeInternalKey(k, seqno, t), v)) == Entry(k, v)
  {
    InternalKeyRoundTrip(k, seqno, t);
  }

  lemma RotateIsDurable(s: State)
    requires Durable(s) && s.imm.None?
    ensures Durable(Rotate(s))
  {
    hide LogHolds, OnDisk, NoClash;
    EmptyLog();
    assert Known(Rotate(s)) == Known(s);
  }

  lemma SameLogs(s: State, t: State)
    requires Wired(s) && LogsOk(s) && Wired(t)
    requires t.disk.logs == s.disk.logs && t.walNumber == s.walNumber && t.mems == s.mems && t.mem == s.mem
    ensures LogsOk(t)
  {
    hide LogHolds;
  }

  // ---- Tables ----

  lemma FileWritten(files: multiset<File>, tables: map<nat, Table>, limit: nat, n: nat, t: Table)
    requires OnDisk(files, tables, limit) && Unused(files, n)
    ensures OnDisk(files, tables[n := t], limit)
  {}

  lemma Wider(files: multiset<File>, tables: map<nat, Table>, limit: nat, more: nat)
    requires OnDisk(files, tables, limit) && limit <= more
    ensures OnDisk(files, tables, more) && Unused(files, limit)
  {}

  lemma OneMore(files: multiset<File>, tables: map<nat, Table>, limit: nat, f: File)
    requires OnDisk(files, tables, limit) && NoClash(files) && Unused(files, f.number)
    requires f.number in tables && tables[f.number] == f.run && f.number < limit
    ensures OnDisk(files + multiset{f}, tables, limit) && NoClash(files + multiset{f})
  {}

  lemma Fewer(files: multiset<File>, part: multiset<File>, tables: map<nat, Table>, limit: nat)
    requires OnDisk(files, tables, limit) && NoClash(files) && part <= files
    ensures OnDisk(part, tables, limit) && NoClash(part)
    ensures forall n: nat :: Unused(files, n) ==> Unused(part, n)
  {}

  lemma LevelsAreKnown(s: State)
    ensures multiset(AllFiles(s.levels)) <= Known(s)
  {}

  lemma BeginFlushIsDurable(s: State)
    requires Durable(s) && s.imm.Some? && s.flush.FlushIdle?
    ensures Durable(BeginFlush(s))
  {
    hide LogsOk, NoClash, OnDisk, Unused, AllFiles, Numbers;
    Wider(Known(s), s.disk.tables, s.nextFile, s.nextFile + 1);
    SameLogs(s, BeginFlush(s));
    assert Known(BeginFlush(s)) == Known(s);
  }

  lemma ReadFlushIsDurable(s: State)
    requires Durable(s) && s.flush.FlushClaimed? && s.imm.Some?
    ensures Durable(ReadFlush(s))
  {
    hide LogsOk, NoClash, OnDisk, Unused, AllFiles, Numbers;
    SameLogs(s, ReadFlush(s));
    assert Known(ReadFlush(s)) == Known(s);
  }

  lemma BuildFlushIsDurable(s: State)
    requires Durable(s) && s.flush.FlushReading? && s.flush.source < |s.mems|
    ensures Durable(BuildFlush(s))
  {
    hide LogsOk, NoClash, OnDisk, Unused, FlushTable, AllFiles, Numbers;
    var t := BuildFlush(s);
    SameLogs(s, t);
    var n, table := s.flush.number, FlushTable(s.mems[s.flush.source]);
    FileWritten(Known(s), s.disk.tables, s.nextFile, n, table);
    UnusedBelow(s, n);
    FileWritten(multiset(AllFiles(s.levels)), s.disk.tables, SavedManifest(s.disk).nextFile, n, table);
    OneMore(Known(s), t.disk.tables, s.nextFile, t.flush.file);
    assert Known(t) == Known(s) + multiset{t.flush.file};
  }

  lemma UnusedBelow(s: State, n: nat)
    requires Unused(Known(s), n)
    ensures Unused(multiset(AllFiles(s.levels)), n)
  {
    LevelsAreKnown(s);
  }

  lemma SavedIsOk(s: State)
    requires OnDisk(multiset(AllFiles(s.levels)), s.disk.tables, s.nextFile)
    ensures ManifestOk(Saved(s))
  {
    hide OnDisk, Numbers;
  }

  lemma CommitFlushIsDurable(s: State)
    requires Durable(s) && s.flush.FlushBuilt? && s.imm.Some?
    ensures Durable(CommitFlush(s))
  {
    hide LogsOk, NoClash, OnDisk, Unused, AllFiles, Numbers;
    var t := CommitFlush(s);
    SameLogs(s, t);
    MovedIntoLevel0(s.levels, s.flush.file);
    assert Known(t) == Known(s);
    LevelsAreKnown(t);
    Fewer(Known(t), multiset(AllFiles(t.levels)), t.disk.tables, t.nextFile);
    SavedIsOk(t.(disk := s.disk));
    assert t == Saved(t.(disk := s.disk));
  }

  lemma MovedIntoLevel0(levels: LevelFiles, f: File)
    ensures multiset(AllFiles(levels[0 := levels[0] + [f]])) == multiset(AllFiles(levels)) + multiset{f}
  {
    var a, b, c, d := levels[0], levels[1], levels[2], levels[3];
    assert AllFiles(levels[0 := a + [f]]) == a + [f] + b + c + d;
  }

  // ---- Compactions ----

  lemma BeginCompactIsDurable(s: State)
    requires Durable(s) && s.compaction.CompactIdle? && s.levels[0] != []
    ensures Durable(BeginCompact(s))
  {
    hide LogsOk, NoClash, OnDisk, Unused, RefAll, FlagsFor, Selected, Flagged, AllFiles, Numbers;
    SameLogs(s, BeginCompact(s));
    assert Known(BeginCompact(s)) == Known(s);
  }

  lemma OpenCompactIsDurable(s: State)
    requires Durable(s) && s.compaction.CompactChosen?
    ensures Durable(OpenCompact(s))
  {
    hide LogsOk, NoClash, OnDisk, Unused, RefAll, LiveEntries, AllFiles, Numbers;
    SameLogs(s, OpenCompact(s));
    assert Known(OpenCompact(s)) == Known(s);
  }

  lemma CloseCompactIsDurable(s: State)
    requires Durable(s) && s.compaction.CompactMerging?
    ensures Durable(CloseCompact(s))
  {
    hide LogsOk, NoClash, OnDisk, Unused, UnrefAll;
    SameLogs(s, CloseCompact(s));
    assert Known(CloseCompact(s)) == Known(s);
  }

  lemma EmitCompactIsDurable(s: State, n: nat)
    requires Durable(s) && s.compaction.CompactMerging? && n <= |s.compaction.todo| && n <= MAX_SEQUENCE
    ensures Durable(EmitCompact(s, n))
  {
    hide LogsOk, NoClash, OnDisk, Unused, AllFiles, Numbers, ClaimIsFree;
    var t := EmitCompact(s, n);
    SameLogs(s, t);
    var m := SavedManifest(s.disk);
    var table: Table := s.compaction.todo[..n];
    var f := File(|s.fileHeap.refs|, s.nextFile, table);
    Wider(Known(s), s.disk.tables, s.nextFile, t.nextFile);
    FileWritten(Known(s), s.disk.tables, t.nextFile, s.nextFile, table);
    UnusedBelow(s, s.nextFile);
    FileWritten(multiset(AllFiles(s.levels)), s.disk.tables, m.nextFile, s.nextFile, table);
    OneMore(Known(s), t.disk.tables, t.nextFile, f);
    assert Known(t) == Known(s) + multiset{f};
    ClaimOf(s, t, f);
  }

  lemma ClaimOf(s: State, t: State, f: File)
    requires ClaimIsFree(s) && f.number == s.nextFile && t.flush == s.flush && s.nextFile <= t.nextFile
    requires Known(t) == Known(s) + multiset{f}
    ensures ClaimIsFree(t)
  {
    hide Known;
  }

  lemma {:induction false} FlagPartition<T>(s: seq<T>, flags: seq<bool>)
    requires |s| == |flags|
    ensures multiset(Flagged(s, flags)) + multiset(Unflagged(s, flags)) == multiset(s)
  {
    if s != [] {
      var n := |s| - 1;
      FlagPartition(s[..n], flags[..n]);
      var on, off := Flagged(s[..n], flags[..n]), Unflagged(s[..n], flags[..n]);
      assert s == s[..n] + [s[n]];
      if flags[n] {
        assert multiset(on + [s[n]]) + multiset(off + []) == multiset(on) + multiset(off) + multiset{s[n]};
      } else {
        assert multiset(on + []) + multiset(off + [s[n]]) == multiset(on) + multiset(off) + multiset{s[n]};
      }
    }
  }

  /** The files erased by the saved indices are the ones that were merged. */
  lemma {:induction false} ErasedAreFlagged(s: seq<File>, flags: seq<bool>)
    requires |s| == |flags|
    ensures multiset(Erased(s, FlagIndices(flags))) == multiset(Flagged(s, flags))
  {
    hide FlagIndices, Erased;
    if s == [] {
      NothingErased(s);
      assert flags == [];
      NothingToErase(s);
    } else {
      var n := |s| - 1;
      var before := FlagIndices(flags[..n]);
      ErasedAreFlagged(s[..n], flags[..n]);
      LastFlag(flags);
      if flags[n] {
        ErasedLast(s, before);
      } else {
        ErasedFromFront(s[..n], s[n], before);
        assert s[..n] + [s[n]] == s;
      }
    }
  }

  lemma NothingErased(s: seq<File>)
    ensures Erased(s, []) == []
  {}

  lemma ErasedLast(s: seq<File>, before: seq<nat>)
    requires s != []
    ensures Erased(s, before + [|s| - 1]) == [s[|s| - 1]] + Erased(s[..|s| - 1], before)
  {
    var all := before + [|s| - 1];
    assert all[..|all| - 1] == before;
    assert EraseAt(s, |s| - 1) == s[..|s| - 1];
  }

  lemma {:induction false} ErasedFromFront(s: seq<File>, x: File, indices: seq<nat>)
    requires forall k :: 0 <= k < |indices| ==> indices[k] < |s|
    requires forall a, b :: 0 <= a < b < |indices| ==> indices[a] < indices[b]
    ensures Erased(s + [x], indices) == Erased(s, indices)
    decreases |indices|
  {
    if indices != [] {
      var n := |indices| - 1;
      assert EraseAt(s + [x], indices[n]) == EraseAt(s, indices[n]) + [x];
      ErasedFromFront(EraseAt(s, indices[n]), x, indices[..n]);
    }
  }

  /** Everything a commit keeps was known before and is none of the files it unlinks. */
  lemma UnlinkedAreOthers(files: multiset<File>, kept: multiset<File>, gone: seq<File>, tables: map<nat, Table>, limit: nat)
    requires OnDisk(files, tables, limit) && NoClash(files) && kept + multiset(gone) <= files
    ensures OnDisk(kept, tables - NumberSet(gone), limit)
  {
    forall f | f in kept
      ensures f.number < limit && f.number !in NumberSet(gone) && f.number in tables && tables[f.number] == f.run
    {
      forall g | g in gone ensures g.number != f.number {
        assert g in multiset(gone);
        assert (kept + multiset(gone))[g] == kept[g] + multiset(gone)[g];
      }
    }
  }

  lemma CommitMoves(s: State)
    requires s.compaction.CompactMerged? && CompactionOk(s.compaction, s.levels)
    ensures var c := s.compaction;
            Known(CommitCompact(s)) + multiset(c.l0) + multiset(Erased(s.levels[1], c.indices)) == Known(s)
    ensures multiset(Erased(s.levels[1], s.compaction.indices)) == multiset(s.compaction.l1)
  {
    hide SortFiles, UnrefAll, RemoveEach, SnapshotHolds, Written, Erased, EraseIndices, AllFiles, NumberSet,
      Numbers;
    var c, t := s.compaction, CommitCompact(s);
    CommitMovesLevel1(c.l0, c.l1, c.indices, s.levels);
    CommitMovesLevels(c, s.levels, t.levels);
    var a, b, d := multiset(AllFiles(t.levels)), multiset(c.l0), multiset(Erased(s.levels[1], c.indices));
    var built := multiset(BuiltBy(s.flush));
    assert Known(t) == a + multiset([]) + built;
    assert a + multiset([]) + built + b + d == (a + b + d) + built;
  }

  lemma CommitMovesLevels(c: Compaction, before: LevelFiles, after: LevelFiles)
    requires c.CompactMerged? && CompactionOk(c, before)
    requires after == before[0 := RemoveEach(before[0], c.l0)][1 := SortFiles(EraseIndices(before[1], c.indices) + c.outs)]
    ensures multiset(AllFiles(after)) + multiset(c.l0) + multiset(c.l1) == multiset(AllFiles(before)) + multiset(c.outs)
  {
    hide SortFiles, RemoveEach, SnapshotHolds, Written, EraseIndices, AllFiles, NewLevel1;
    CommittedLevels(c, before);
    CommitMovesLevel1(c.l0, c.l1, c.indices, before);
    SplitBag(before[0], |c.l0|);
    BagOfLevels(before);
    BagOfLevels(after);
    assert multiset(after[1]) == multiset(EraseIndices(before[1], c.indices)) + multiset(c.outs);
  }

  lemma SplitBag(files: seq<File>, n: nat)
    requires n <= |files|
    ensures multiset(files) == multiset(files[..n]) + multiset(files[n..])
  {
    assert files == files[..n] + files[n..];
  }

  lemma CommitMovesLevel1(l0: seq<File>, merged: seq<File>, indices: seq<nat>, levels: LevelFiles)
    requires SnapshotHolds(l0, merged, indices, levels)
    ensures |l0| <= |levels[0]| && levels[0][..|l0|] == l0
    ensures multiset(Erased(levels[1], indices)) == multiset(merged)
    ensures multiset(EraseIndices(levels[1], indices)) + multiset(merged) == multiset(levels[1])
  {
    hide FlagIndices, FlagsFor, Erased, EraseIndices, Flagged, Unflagged, Selected, MinKey, MaxKey, GoodTables,
      OrderedLevel, Rightful;
    var flags := FlagsFor(l0, levels[1]);
    SelectedIs(l0, levels[1]);
    ErasedAreFlagged(levels[1], flags);
    EraseLeavesUnflagged(levels[1], flags);
    FlagPartition(levels[1], flags);
  }

  lemma BagOfLevels(levels: LevelFiles)
    ensures multiset(AllFiles(levels)) == multiset(levels[0]) + multiset(levels[1]) + multiset(levels[2]) + multiset(levels[3])
  {}

  lemma CommitCompactIsDurable(s: State)
    requires Durable(s) && s.compaction.CompactMerged? && CompactionOk(s.compaction, s.levels)
    ensures Durable(CommitCompact(s))
  {
    hide LogsOk, NoClash, OnDisk, Unused, SortFiles, UnrefAll, RemoveEach, Erased, EraseIndices, SnapshotHolds,
      Written, AllFiles, NumberSet;
    var c := s.compaction;
    var t := CommitCompact(s);
    SameLogs(s, t);
    var dropped := Erased(s.levels[1], c.indices);
    CommitMoves(s);
    var k := Known(t);
    Fewer(Known(s), k + multiset(dropped), s.disk.tables, s.nextFile);
    Fewer(Known(s), k, s.disk.tables, s.nextFile);
    UnlinkedAreOthers(Known(s), k + multiset(dropped), c.l0, s.disk.tables, s.nextFile);
    UnlinkedAreOthers(k + multiset(dropped), k, dropped, s.disk.tables - NumberSet(c.l0), s.nextFile);
    LevelsAreKnown(t);
    Fewer(k, multiset(AllFiles(t.levels)), t.disk.tables, t.nextFile);
    SavedIsOk(t.(disk := t.disk.(manifest := s.disk.manifest)));
  }

  /** Durability is about the store alone, not about its readers or the counts. */
  lemma SameStoreIsDurable(s: State, t: State)
    requires Durable(s) && Wired(t) && SameStore(s, t)
    ensures Durable(t)
  {
    hide LogsOk, NoClash, OnDisk, Unused, AllFiles, Numbers;
    SameLogs(s, t);
    assert Known(t) == Known(s);
  }

  lemma ReadersAreDurable(s: State, a: Action)
    requires Durable(s) && Enabled(s, a)
    requires a.GetAction? || a.IterateAction? || a.SearchAction? || a.ReleaseAction?
    ensures Durable(Do(s, a))
  {
    hide LogsOk, TablesOk, ManifestOk;
    ReadersOnlyRead(s, a);
    SameStoreIsDurable(s, Do(s, a));
  }

  // ---- Recovery ----

  /** Opening the listed files gives tables with the same contents under new identities. */
  lemma {:induction false} OpenFilesRestores(files: seq<File>, tables: map<nat, Table>, base: nat, limit: nat)
    requires OnDisk(multiset(files), tables, limit)
    ensures var r := OpenFiles(Numbers(files), tables, base);
            |r| == |files| && forall i :: 0 <= i < |r| ==> r[i] == File(base + i, files[i].number, files[i].run)
  {
    if files != [] {
      var n := |files| - 1;
      var before := files[..n];
      assert files == before + [files[n]];
      assert Numbers(files)[..n] == Numbers(before);
      assert files[n] in multiset(files);
      OpenFilesRestores(before, tables, base, limit);
    }
  }

  lemma SameContents(a: seq<File>, b: seq<File>)
    requires |a| == |b| && forall i :: 0 <= i < |a| ==> a[i].number == b[i].number && a[i].run == b[i].run
    ensures RunsIn(a) == RunsIn(b) && Numbers(a) == Numbers(b)
  {}

  /** The rebuilt levels hold the same tables, file by file. */
  ghost predicate SameLevels(a: LevelFiles, b: LevelFiles)
  {
    forall l :: 0 <= l < 4 ==> |a[l]| == |b[l]| && RunsIn(a[l]) == RunsIn(b[l]) && Numbers(a[l]) == Numbers(b[l])
  }

  lemma LevelOnDisk(levels: LevelFiles, l: nat, tables: map<nat, Table>, limit: nat)
    requires l < 4 && OnDisk(multiset(AllFiles(levels)), tables, limit)
    ensures OnDisk(multiset(levels[l]), tables, limit)
  {
    hide AllFiles;
    BagOfLevels(levels);
    forall f | f in multiset(levels[l])
      ensures f.number < limit && f.number in tables && tables[f.number] == f.run
    {
      assert f in multiset(AllFiles(levels));
    }
  }

  lemma OpenLevelsRestores(s: State, base: nat)
    requires ManifestOk(s)
    ensures var t := OpenLevels(s.disk, base);
            && SameLevels(t, s.levels)
            && |AllFiles(t)| == |AllFiles(s.levels)|
            && forall i :: 0 <= i < |AllFiles(t)| ==> AllFiles(t)[i].id == base + i
  {
    hide OnDisk, Numbers, OpenFiles, RunsIn, ManifestOk, SavedLevel;
    var n0, n1, n2 := |s.levels[0]|, |s.levels[1]|, |s.levels[2]|;
    var t := OpenLevels(s.disk, base);
    LevelRestored(s, 0, base);
    LevelRestored(s, 1, base + n0);
    LevelRestored(s, 2, base + n0 + n1);
    LevelRestored(s, 3, base + n0 + n1 + n2);
    IdsInARow(t[0], t[1], base);
    IdsInARow(t[0] + t[1], t[2], base);
    IdsInARow(t[0] + t[1] + t[2], t[3], base);
  }

  lemma IdsInARow(a: seq<File>, b: seq<File>, base: nat)
    requires forall i :: 0 <= i < |a| ==> a[i].id == base + i
    requires forall i :: 0 <= i < |b| ==> b[i].id == base + |a| + i
    ensures forall i :: 0 <= i < |a + b| ==> (a + b)[i].id == base + i
  {}

  lemma LevelRestored(s: State, l: nat, base: nat)
    requires ManifestOk(s) && l < 4
    ensures var r := OpenFiles(SavedLevel(s.disk, l), s.disk.tables, base);
            && |r| == |s.levels[l]| && RunsIn(r) == RunsIn(s.levels[l]) && Numbers(r) == Numbers(s.levels[l])
            && forall i :: 0 <= i < |r| ==> r[i].id == base + i
  {
    hide OnDisk, Numbers, RunsIn, AllFiles;
    var m := SavedManifest(s.disk);
    LevelOnDisk(s.levels, l, s.disk.tables, m.nextFile);
    OpenFilesRestores(s.levels[l], s.disk.tables, base, m.nextFile);
    SameContents(OpenFiles(Numbers(s.levels[l]), s.disk.tables, base), s.levels[l]);
  }

  /** `q` is `s` but for what a process holds in memory besides pointers. */
  ghost predicate SameDisk(q: State, s: State)
  {
    && q.disk == s.disk && q.mems == s.mems && q.clients == s.clients && q.model == s.model
  }

  lemma LogFits(s: State)
    requires Durable(s) && s.imm.None?
    ensures LogRecords(s.disk) == Wal.Records(LogOf(s.disk, s.walNumber), 0)
    ensures Replay(LogRecords(s.disk)) == s.mems[s.mem]
    ensures |LogRecords(s.disk)| <= MAX_SEQUENCE
  {
    hide LogHolds, Wal.Records, OnDisk, NoClash, Replay;
    LogReplays(LogOf(s.disk, s.walNumber), s.mems[s.mem]);
  }

  /** What reopening finds: the same tables in the same levels, and the memory table replayed from the log. */
  lemma RecoverRestores(s: State, q: State)
    requires Durable(s) && s.imm.None? && SameDisk(q, s)
    ensures |LogRecords(q.disk)| <= MAX_SEQUENCE
    ensures var t := Recover(q);
            && SameLevels(t.levels, s.levels) && t.imm.None? && !t.immFlushing && t.flush.FlushIdle? && t.compaction.CompactIdle?
            && t.mems == s.mems + [s.mems[s.mem]] && t.mem == |s.mems|
            && t.walNumber == s.walNumber && t.model == s.model && t.clients == s.clients
            && t.disk.tables == s.disk.tables && t.disk.manifest == s.disk.manifest
            && LogOf(t.disk, t.walNumber) == LogOf(s.disk, s.walNumber)
            && t.nextFile == SavedManifest(s.disk).nextFile
  {
    hide LogHolds, Wal.Records, OnDisk, NoClash, Replay, SameLevels, OpenLevels, AllFiles;
    LogFits(s);
    OpenLevelsRestores(s, |q.fileHeap.refs|);
  }

  lemma SameLevelsAnswer(a: LevelFiles, b: LevelFiles, u: Bytes)
    requires SameLevels(a, b)
    ensures TableGet(a, u) == TableGet(b, u)
    ensures LevelsOk(b) ==> LevelsOk(a)
  {
    hide FindFrom, FindNewest, RunsIn, Numbers, OrderedLevel, GoodTables;
    assert LevelRuns(a) == LevelRuns(b);
  }

  /** After a stop with nothing pending in imm_, every lookup answers as before. */
  lemma RecoverKeepsAnswers(s: State, q: State, u: Bytes)
    requires Durable(s) && s.imm.None? && SameDisk(q, s)
    ensures |LogRecords(q.disk)| <= MAX_SEQUENCE && Wired(Recover(q))
    ensures DbAnswer(Recover(q), u) == DbAnswer(s, u)
  {
    hide Recover, SameLevels, TableGet, MemGet, LogsOk, TablesOk, ManifestOk, Answer;
    RecoverRestores(s, q);
    var t := Recover(q);
    assert t.mems[t.mem] == s.mems[s.mem];
    SameLevelsAnswer(t.levels, s.levels, u);
  }

  lemma RecoverIsConsistent(s: State, q: State)
    requires Consistent(s) && Durable(s) && s.imm.None? && SameDisk(q, s)
    ensures |LogRecords(q.disk)| <= MAX_SEQUENCE && Consistent(Recover(q))
  {
    hide Recover, SameLevels, DbAnswer, MapAnswer, Durable, LevelsOk, Faithful, Plain, CompactionOk, LogRecords, Replay,
      ClientWired;
    RecoverRestores(s, q);
    var t := Recover(q);
    SameLevelsAnswer(t.levels, s.levels, []);
    IdleIsOk(t.compaction, t.levels);
    RecoverKeepsAnswers(s, q, []);
    forall u | Plain(u) ensures DbAnswer(t, u) == MapAnswer(t.model, u) {
      RecoverKeepsAnswers(s, q, u);
    }
  }

  lemma IdleIsOk(c: Compaction, levels: LevelFiles)
    requires c.CompactIdle?
    ensures CompactionOk(c, levels)
  {}

  // ---- The reopened store is durable again ----

  ghost predicate DistinctNumbers(numbers: seq<nat>)
  {
    forall i, j :: 0 <= i < j < |numbers| ==> numbers[i] != numbers[j]
  }

  lemma NoClashIsDistinct(files: seq<File>)
    requires NoClash(multiset(files))
    ensures DistinctNumbers(Numbers(files))
  {
    forall i, j | 0 <= i < j < |files|
      ensures files[i].number != files[j].number
    {
      assert files[i] in multiset(files) && files[j] in multiset(files);
      if files[i] == files[j] { TwicePresent(files, i, j); }
    }
  }

  lemma TwicePresent<T>(s: seq<T>, i: nat, j: nat)
    requires i < j < |s| && s[i] == s[j]
    ensures multiset(s)[s[i]] >= 2
  {
    assert s == s[..j] + s[j..];
    assert s[..j][i] in multiset(s[..j]);
    assert s[j..][0] in multiset(s[j..]);
  }

  lemma {:induction false} DistinctIsNoClash(files: seq<File>)
    requires DistinctNumbers(Numbers(files))
    ensures NoClash(multiset(files))
  {
    hide NoClash;
    if files == [] {
      EmptyNoClash();
    } else {
      var n := |files| - 1;
      var before := files[..n];
      assert files == before + [files[n]];
      DistinctFront(files);
      DistinctIsNoClash(before);
      OneMoreNumber(multiset(before), files[n]);
      assert multiset(files) == multiset(before) + multiset{files[n]};
    }
  }

  lemma EmptyNoClash()
    ensures NoClash(multiset([]))
  {}

  lemma DistinctFront(files: seq<File>)
    requires files != [] && DistinctNumbers(Numbers(files))
    ensures DistinctNumbers(Numbers(files[..|files| - 1]))
    ensures Unused(multiset(files[..|files| - 1]), files[|files| - 1].number)
  {
    var n := |files| - 1;
    forall i, j | 0 <= i < j < n ensures Numbers(files[..n])[i] != Numbers(files[..n])[j] {
      assert Numbers(files)[i] != Numbers(files)[j];
    }
    forall f | f in multiset(files[..n]) ensures f.number != files[n].number {
      var i :| 0 <= i < n && files[i] == f;
      assert Numbers(files)[i] != Numbers(files)[n];
    }
  }

  lemma OneMoreNumber(files: multiset<File>, f: File)
    requires NoClash(files) && Unused(files, f.number)
    ensures NoClash(files + multiset{f})
  {}

  lemma SameFlat(a: LevelFiles, b: LevelFiles)
    requires SameLevels(a, b)
    ensures RunsIn(AllFiles(a)) == RunsIn(AllFiles(b)) && Numbers(AllFiles(a)) == Numbers(AllFiles(b))
  {
    hide RunsIn, Numbers;
    FlatParts(a);
    FlatParts(b);
  }

  lemma FlatParts(a: LevelFiles)
    ensures RunsIn(AllFiles(a)) == RunsIn(a[0]) + RunsIn(a[1]) + RunsIn(a[2]) + RunsIn(a[3])
    ensures Numbers(AllFiles(a)) == Numbers(a[0]) + Numbers(a[1]) + Numbers(a[2]) + Numbers(a[3])
  {
    RunsNumbersAppend(a[0], a[1]);
    RunsNumbersAppend(a[0] + a[1], a[2]);
    RunsNumbersAppend(a[0] + a[1] + a[2], a[3]);
  }

  lemma RunsNumbersAppend(a: seq<File>, b: seq<File>)
    ensures RunsIn(a + b) == RunsIn(a) + RunsIn(b)
    ensures Numbers(a + b) == Numbers(a) + Numbers(b)
  {}

  lemma SameOnDisk(a: seq<File>, b: seq<File>, tables: map<nat, Table>, limit: nat)
    requires RunsIn(a) == RunsIn(b) && Numbers(a) == Numbers(b)
    requires OnDisk(multiset(b), tables, limit) && NoClash(multiset(b))
    ensures OnDisk(multiset(a), tables, limit) && NoClash(multiset(a))
  {
    NoClashIsDistinct(b);
    DistinctIsNoClash(a);
    forall f | f in multiset(a)
      ensures f.number < limit && f.number in tables && tables[f.number] == f.run
    {
      var i :| 0 <= i < |a| && a[i] == f;
      assert Numbers(a)[i] == Numbers(b)[i] && RunsIn(a)[i] == RunsIn(b)[i];
      assert b[i] in multiset(b);
    }
  }

  lemma RecoverIsDurable(s: State, q: State)
    requires Durable(s) && s.imm.None? && SameDisk(q, s)
    ensures |LogRecords(q.disk)| <= MAX_SEQUENCE && Durable(Recover(q))
  {
    hide SameLevels, LogHolds, OnDisk, NoClash, AllFiles, RunsIn, Numbers, OpenLevels, Replay, Wal.Records, Unused,
      NewMany;
    RecoverRestores(s, q);
    var t := Recover(q);
    SameFlat(t.levels, s.levels);
    LevelsAreKnown(s);
    Fewer(Known(s), multiset(AllFiles(s.levels)), s.disk.tables, s.nextFile);
    SameOnDisk(AllFiles(t.levels), AllFiles(s.levels), s.disk.tables, SavedManifest(s.disk).nextFile);
    LevelNumbers(t.levels, s.levels);
    assert Known(t) == multiset(AllFiles(t.levels));
  }

  lemma LevelNumbers(a: LevelFiles, b: LevelFiles)
    requires SameLevels(a, b)
    ensures forall l :: 0 <= l < 4 ==> Numbers(a[l]) == Numbers(b[l])
  {}
}
