/** Every state of the database answers like the plain map (src/db.cc). */
module DatabaseAnswers {
  import opened Slices
  import opened Coding
  import opened Entries
  import opened InternalKeys
  import opened MemTables
  import opened Levels
  import opened Compactions
  import opened CompactionOutputs
  import opened CompactionResults
  import opened RefCounts
  import opened Databases
  import Wal

  // ---- The invariant ----

  /** Good tables in level 0, disjoint ordered tables in level 1, nothing below. */
  ghost predicate LevelsOk(levels: LevelFiles)
  {
    && GoodTables(RunsIn(levels[0])) && OrderedLevel(RunsIn(levels[1]))
    && levels[2] == [] && levels[3] == []
  }

  ghost predicate MemsOk(s: State)
  {
    && (forall i :: 0 <= i < |s.mems| ==> Faithful(s.mems[i]))
    && s.imm != Some(s.mem)
  }

  /** A flush is in progress exactly while imm_flushing_ is set, and works on imm_, which stays. */
  ghost predicate FlushOk(s: State)
    requires Wired(s)
  {
    && (s.immFlushing <==> !s.flush.FlushIdle?)
    && (s.immFlushing ==> s.imm.Some?)
    && (s.flush.FlushReading? ==> s.imm == Some(s.flush.source))
    && (s.flush.FlushBuilt? ==> s.flush.file.run == FlushEntries(s.mems[s.imm.value]))
  }

  /** The snapshot of a running compaction is still a prefix of level 0, and the saved indices still fit level 1. */
  ghost predicate SnapshotHolds(l0: seq<File>, l1: seq<File>, indices: seq<nat>, levels: LevelFiles)
  {
    && |l0| <= |levels[0]| && levels[0][..|l0|] == l0
    && Guarded(l0, levels[1])
    && l1 == Flagged(levels[1], FlagsFor(l0, levels[1]))
    && indices == Selected(RunsIn(levels[1]), MinKey(RunsIn(l0)), MaxKey(RunsIn(l0)))
  }

  ghost predicate CompactionOk(c: Compaction, levels: LevelFiles)
  {
    match c
    case CompactIdle => true
    case CompactChosen(l0, l1, indices) => SnapshotHolds(l0, l1, indices, levels)
    case CompactMerging(l0, l1, indices, readers, todo, outs) =>
      && SnapshotHolds(l0, l1, indices, levels) && readers == l0 + l1
      && (forall i :: 0 <= i < |outs| ==> outs[i].run != [])
      && Join(RunsIn(outs)) + todo == LiveEntries(RunsIn(l0 + l1))
      && WholeKeys(RunsIn(outs)) && (outs != [] && todo != [] ==> LastKey(outs[|outs| - 1].run) != todo[0].key)
    case CompactMerged(l0, l1, indices, outs) =>
      SnapshotHolds(l0, l1, indices, levels) && Written(l0, levels[1], outs)
  }

  ghost predicate AnswersOk(s: State)
    requires Wired(s)
  {
    forall u :: Plain(u) ==> DbAnswer(s, u) == MapAnswer(s.model, u)
  }

  ghost predicate Consistent(s: State)
  {
    Wired(s) && LevelsOk(s.levels) && MemsOk(s) && FlushOk(s) && CompactionOk(s.compaction, s.levels) && AnswersOk(s)
  }

  // ---- Layers ----

  lemma TwoLevels(levels: LevelFiles, u: Bytes)
    requires levels[2] == [] && levels[3] == []
    ensures TableGet(levels, u) == Orelse(FindNewest(RunsIn(levels[0]), u), FindInLevel(RunsIn(levels[1]), u))
  {
    hide FindNewest;
    var r := LevelRuns(levels);
    assert FindFrom(r, 4, u) == None;
    assert FindFrom(r, 3, u) == Orelse(FindInLevel(r[3], u), FindFrom(r, 4, u));
    assert FindFrom(r, 2, u) == Orelse(FindInLevel(r[2], u), FindFrom(r, 3, u));
    assert FindFrom(r, 1, u) == Orelse(FindInLevel(r[1], u), FindFrom(r, 2, u));
  }

  lemma {:induction false} NewestOfTwo(a: seq<File>, b: seq<File>, u: Bytes)
    ensures FindNewest(RunsIn(a + b), u) == Orelse(FindNewest(RunsIn(b), u), FindNewest(RunsIn(a), u))
    decreases |b|
  {
    hide Lookup;
    if b == [] {
      assert a + b == a;
    } else {
      var n := |b| - 1;
      NewestOfTwo(a, b[..n], u);
      NewestUnfolds(b, u);
      NewestUnfolds(a + b, u);
      assert (a + b)[..|a + b| - 1] == a + b[..n];
    }
  }

  lemma NewestUnfolds(b: seq<File>, u: Bytes)
    requires b != []
    ensures FindNewest(RunsIn(b), u) == Orelse(Lookup(b[|b| - 1].run, u), FindNewest(RunsIn(b[..|b| - 1]), u))
  {
    hide Lookup;
    assert RunsIn(b)[..|b| - 1] == RunsIn(b[..|b| - 1]);
  }

  /** An Add answers for its own key and changes nothing for the others. */
  lemma AddAnswers(h: History, k: Bytes, v: Bytes, u: Bytes)
    requires Faithful(h) && Faithful(h + [Entry(k, v)]) && Plain(u)
    ensures MemGet(h + [Entry(k, v)], u) == if u == k then Some(v) else MemGet(h, u)
  {
    hide Faithful, MemGet, Plain;
    var more := h + [Entry(k, v)];
    FaithfulSize(more);
    MemGetIsLastAdd(h, u);
    MemGetIsLastAdd(more, u);
    assert more[..|more| - 1] == h;
  }

  lemma FaithfulSize(h: seq<Entry>)
    requires Faithful(h)
    ensures |h| <= MAX_SEQUENCE && PlainEntries(h)
  {}

  lemma EmptyMem(u: Bytes)
    ensures MemGet([], u) == None && Faithful([])
  {
    hide LeaderIsCurrent;
    assert Stored([]) == [];
    forall v ensures LeaderIsCurrent([], v) { NothingNewer(v); }
  }

  lemma NothingNewer(u: Bytes)
    ensures LeaderIsCurrent([], u)
  {}

  // ---- Steps of the writers ----

  lemma MapPutAnswer(m: map<Bytes, Bytes>, k: Bytes, v: Bytes, u: Bytes)
    ensures MapAnswer(MapPut(m, k, v), u) == if u == k then Answer(Some(v)) else MapAnswer(m, u)
  {}

  lemma WriteKeeps(s: State, k: Bytes, v: Bytes, kind: byte, t: ValueType)
    requires Consistent(s) && MayWrite(s, k, v)
    ensures |s.mems[s.mem]| < MAX_SEQUENCE && Consistent(Write(s, k, v, kind, t))
  {
    hide Faithful, MemGet, Plain, TableGet, LevelsOk, SnapshotHolds, Written, LiveEntries, FlushEntries,
      MakeInternalKey, Wal.Encode, MapPut;
    FaithfulSize(s.mems[s.mem] + [Entry(k, v)]);
    var t := Write(s, k, v, kind, t);
    forall u | Plain(u) ensures DbAnswer(t, u) == MapAnswer(t.model, u) {
      AddAnswers(s.mems[s.mem], k, v, u);
      MapPutAnswer(s.model, k, v, u);
      assert DbAnswer(s, u) == MapAnswer(s.model, u);
    }
  }

  lemma RotateKeeps(s: State)
    requires Consistent(s) && s.imm.None?
    ensures Consistent(Rotate(s))
  {
    hide Faithful, MemGet, Plain, TableGet, LevelsOk, SnapshotHolds, Written, LiveEntries, FlushEntries;
    var t := Rotate(s);
    forall u | Plain(u) ensures DbAnswer(t, u) == MapAnswer(t.model, u) {
      EmptyMem(u);
      assert DbAnswer(s, u) == MapAnswer(s.model, u);
    }
    EmptyMem([]);
  }

  // ---- Steps of a flush ----

  lemma FlushStepsKeep(s: State)
    requires Consistent(s)
    ensures s.imm.Some? && !s.immFlushing ==> Consistent(BeginFlush(s))
    ensures s.flush.FlushClaimed? && s.imm.Some? ==> Consistent(ReadFlush(s))
    ensures s.flush.FlushReading? && s.flush.source < |s.mems| ==> Consistent(BuildFlush(s))
  {
    hide Faithful, MemGet, Plain, TableGet, LevelsOk, SnapshotHolds, Written, LiveEntries, FlushEntries;
  }

  lemma FlushedIsGood(h: History)
    requires Faithful(h)
    ensures GoodTable(FlushEntries(h))
  {
    hide Faithful, UserSorted, FlushEntries, PlainEntries;
    FaithfulSize(h);
    FlushEntriesSorted(h);
  }

  /** The new table answers for imm_, so no lookup changes. */
  lemma FlushedAnswers(levels: LevelFiles, f: File, h: History, u: Bytes)
    requires f.run == FlushEntries(h) && Faithful(h) && Plain(u)
    ensures TableGet(levels[0 := levels[0] + [f]], u) == Orelse(MemGet(h, u), TableGet(levels, u))
  {
    hide Faithful, MemGet, Plain, Lookup, FindNewest, FindFrom, FlushEntries;
    FaithfulSize(h);
    FlushPreservesLookups(h, u);
    var b := levels[0] + [f];
    NewestUnfolds(b, u);
    assert b[..|b| - 1] == levels[0];
    var l := levels[0 := b];
    FindBelowTop(levels, l, u);
  }

  lemma FindBelowTop(a: LevelFiles, b: LevelFiles, u: Bytes)
    requires a[1..] == b[1..]
    ensures FindFrom(LevelRuns(a), 1, u) == FindFrom(LevelRuns(b), 1, u)
  {
    hide FindInLevel;
    var r, q := LevelRuns(a), LevelRuns(b);
    assert a[1..][0] == b[1..][0] && a[1..][1] == b[1..][1] && a[1..][2] == b[1..][2];
    assert r[1] == q[1] && r[2] == q[2] && r[3] == q[3];
    assert FindFrom(r, 4, u) == FindFrom(q, 4, u);
    assert FindFrom(r, 3, u) == FindFrom(q, 3, u);
    assert FindFrom(r, 2, u) == FindFrom(q, 2, u);
  }

  lemma GrownSnapshot(c: Compaction, levels: LevelFiles, f: File)
    requires CompactionOk(c, levels)
    ensures CompactionOk(c, levels[0 := levels[0] + [f]])
  {
    hide Guarded, Written, LiveEntries, Flagged, FlagsFor, Selected, MinKey, MaxKey;
    var grown := levels[0 := levels[0] + [f]];
    assert grown[1] == levels[1];
    if !c.CompactIdle? {
      assert grown[0][..|c.l0|] == levels[0][..|c.l0|];
      assert SnapshotHolds(c.l0, c.l1, c.indices, levels);
      assert SnapshotHolds(c.l0, c.l1, c.indices, grown);
    }
  }

  lemma GrownLevels(levels: LevelFiles, f: File)
    requires LevelsOk(levels) && GoodTable(f.run)
    ensures LevelsOk(levels[0 := levels[0] + [f]])
  {
    hide GoodTable, OrderedLevel;
    var grown := levels[0] + [f];
    forall i | 0 <= i < |grown| ensures GoodTable(RunsIn(grown)[i]) {
      if i < |levels[0]| { assert RunsIn(grown)[i] == RunsIn(levels[0])[i]; }
    }
  }

  lemma CommitFlushKeeps(s: State)
    requires Consistent(s) && s.flush.FlushBuilt? && s.imm.Some?
    ensures Consistent(CommitFlush(s))
  {
    hide Faithful, MemGet, Plain, TableGet, LevelsOk, CompactionOk, GoodTable, FlushEntries;
    var t := CommitFlush(s);
    var h := s.mems[s.imm.value];
    FlushedIsGood(h);
    GrownLevels(s.levels, s.flush.file);
    GrownSnapshot(s.compaction, s.levels, s.flush.file);
    forall u | Plain(u) ensures DbAnswer(t, u) == MapAnswer(t.model, u) {
      FlushedAnswers(s.levels, s.flush.file, h, u);
      assert DbAnswer(s, u) == MapAnswer(s.model, u);
    }
  }

  // ---- Steps of a compaction ----

  lemma BeginCompactKeeps(s: State)
    requires Consistent(s) && Enabled(s, CompactBeginAction)
    ensures Consistent(BeginCompact(s))
  {
    hide Faithful, MemGet, Plain, TableGet, FlushEntries, GoodTables, OrderedLevel, Rightful, Reached, Flagged,
      FlagsFor, MinKey, MaxKey, Selected, RefAll;
    RightfulReaches(s.levels[0], s.levels[1]);
    assert s.levels[0][..|s.levels[0]|] == s.levels[0];
  }

  lemma RightfulReaches(l0: seq<File>, l1: seq<File>)
    requires l0 != [] && Rightful(l0, l1)
    ensures Reached(l0, l1)
  {}

  lemma OpenCompactKeeps(s: State)
    requires Consistent(s) && s.compaction.CompactChosen?
    ensures Consistent(OpenCompact(s))
  {
    hide Faithful, MemGet, Plain, TableGet, FlushEntries, LevelsOk, SnapshotHolds, LiveEntries, RefAll;
    assert Join([]) == [];
    assert RunsIn([]) == [];
  }

  lemma RunsAppend(files: seq<File>, f: File)
    ensures RunsIn(files + [f]) == RunsIn(files) + [f.run]
  {}

  lemma JoinGrows(runs: seq<Run>, t: Run)
    ensures Join(runs + [t]) == Join(runs) + t
  {
    assert (runs + [t])[..|runs|] == runs;
  }

  lemma EmitCompactKeeps(s: State, n: nat)
    requires Consistent(s) && Enabled(s, CompactEmitAction(n))
    ensures Consistent(EmitCompact(s, n))
  {
    hide Faithful, MemGet, Plain, TableGet, FlushEntries, LevelsOk, SnapshotHolds, LiveEntries, Join;
    var c := s.compaction;
    var f := File(|s.fileHeap.refs|, s.nextFile, c.todo[..n]);
    RunsAppend(c.outs, f);
    JoinGrows(RunsIn(c.outs), f.run);
    assert c.todo == c.todo[..n] + c.todo[n..];
    assert Join(RunsIn(c.outs)) + c.todo[..n] + c.todo[n..] == Join(RunsIn(c.outs)) + c.todo;
  }

  lemma CloseCompactKeeps(s: State)
    requires Consistent(s) && Enabled(s, CompactCloseAction)
    ensures Consistent(CloseCompact(s))
  {
    hide Faithful, MemGet, Plain, TableGet, FlushEntries, LevelsOk, LiveEntries, Rightful, GoodTables,
      OrderedLevel, Join, Flagged, FlagsFor, MinKey, MaxKey, Selected, UnrefAll;
    var c := s.compaction;
    assert Inputs(c.l0, s.levels[1]) == c.l0 + c.l1;
    assert Join(RunsIn(c.outs)) + c.todo == Join(RunsIn(c.outs));
  }

  lemma {:induction false} RemoveSnapshot(snapshot: seq<File>, rest: seq<File>)
    ensures RemoveEach(snapshot + rest, snapshot) == rest
  {
    if snapshot == [] {
      assert snapshot + rest == rest;
    } else {
      assert (snapshot + rest)[1..] == snapshot[1..] + rest;
      RemoveSnapshot(snapshot[1..], rest);
    }
  }

  /** Level 0 keeps only what was flushed since the snapshot, and level 1 is what the compaction promises. */
  lemma CommittedLevels(c: Compaction, levels: LevelFiles)
    requires c.CompactMerged? && CompactionOk(c, levels)
    ensures RemoveEach(levels[0], c.l0) == levels[0][|c.l0|..]
    ensures c.l0 != [] && SortFiles(EraseIndices(levels[1], c.indices) + c.outs) == NewLevel1(c.l0, levels[1], c.outs)
  {
    hide SortFiles, Rightful, GoodTables, OrderedLevel, Flagged, FlagsFor, EraseIndices, Selected, MinKey,
      MaxKey, LiveEntries, Join;
    var rest := levels[0][|c.l0|..];
    assert levels[0] == c.l0 + rest;
    RemoveSnapshot(c.l0, rest);
  }

  /** The levels after the commit: what was flushed since the snapshot, and the new level 1. */
  function Committed(l0: seq<File>, outs: seq<File>, levels: LevelFiles): LevelFiles
    requires l0 != [] && |l0| <= |levels[0]|
  {
    levels[0 := levels[0][|l0|..]][1 := NewLevel1(l0, levels[1], outs)]
  }

  /** The commit changes no lookup, whatever was flushed into level 0 in the meantime. */
  lemma CommittedAnswers(l0: seq<File>, outs: seq<File>, levels: LevelFiles, u: Bytes)
    requires levels[2] == [] && levels[3] == []
    requires l0 != [] && |l0| <= |levels[0]| && levels[0][..|l0|] == l0
    requires Guarded(l0, levels[1]) && Written(l0, levels[1], outs)
    ensures Answer(TableGet(Committed(l0, outs, levels), u)) == Answer(TableGet(levels, u))
  {
    hide FindNewest, FindInLevel, NewLevel1, Written, GoodTables, OrderedLevel, Rightful, FindFrom, TableGet,
      Answer;
    var rest := levels[0][|l0|..];
    var after := Committed(l0, outs, levels);
    assert levels[0] == l0 + rest;
    NewestOfTwo(l0, rest, u);
    TwoLevels(levels, u);
    TwoLevels(after, u);
    CompactionKeepsAnswer(l0, levels[1], outs, u);
    SameAnswer(FindInLevel(RunsIn(after[1]), u), Orelse(FindNewest(RunsIn(l0), u), FindInLevel(RunsIn(levels[1]), u)),
      FindNewest(RunsIn(rest), u));
  }

  lemma TailGood(files: seq<File>, n: nat)
    requires n <= |files| && GoodTables(RunsIn(files))
    ensures GoodTables(RunsIn(files[n..]))
  {
    hide GoodTable;
    forall i | 0 <= i < |files[n..]| ensures GoodTable(RunsIn(files[n..])[i]) {
      assert RunsIn(files[n..])[i] == RunsIn(files)[n + i];
    }
  }

  lemma SameAnswer(a: Option<Bytes>, b: Option<Bytes>, x: Option<Bytes>)
    requires Answer(a) == Answer(b)
    ensures Answer(Orelse(x, a)) == Answer(Orelse(x, b))
  {}

  lemma CommitCompactKeeps(s: State)
    requires Consistent(s) && s.compaction.CompactMerged?
    ensures Consistent(CommitCompact(s))
  {
    hide Faithful, MemGet, ImmGet, Plain, TableGet, FlushEntries, GoodTables, OrderedLevel, Mergeable, Rightful, Written,
      Flagged, FlagsFor, MinKey, MaxKey, Selected, UnrefAll, RemoveEach, SortFiles, EraseIndices, NewLevel1,
      Erased, Answer;
    var c := s.compaction;
    var t := CommitCompact(s);
    CommittedLevels(c, s.levels);
    TailGood(s.levels[0], |c.l0|);
    NewLevelOrdered(c.l0, s.levels[1], c.outs);
    assert t.levels == Committed(c.l0, c.outs, s.levels);
    forall u | Plain(u) ensures DbAnswer(t, u) == MapAnswer(t.model, u) {
      CommittedAnswers(c.l0, c.outs, s.levels, u);
      assert DbAnswer(s, u) == MapAnswer(s.model, u);
      SameAnswer(TableGet(t.levels, u), TableGet(s.levels, u), ImmGet(s.mems, s.imm, u));
      SameAnswer(Orelse(ImmGet(s.mems, s.imm, u), TableGet(t.levels, u)), Orelse(ImmGet(s.mems, s.imm, u), TableGet(s.levels, u)),
        MemGet(s.mems[s.mem], u));
    }
  }

  // ---- Steps of the readers ----

  /** Everything but the readers and the counts. */
  ghost predicate SameStore(s: State, t: State)
  {
    && t.mems == s.mems && t.mem == s.mem && t.imm == s.imm && t.immFlushing == s.immFlushing
    && t.levels == s.levels && t.nextFile == s.nextFile && t.walNumber == s.walNumber
    && t.flush == s.flush && t.compaction == s.compaction && t.disk == s.disk && t.model == s.model
  }

  lemma SearchedIsWired(mems: seq<History>, c: Client)
    requires ClientWired(c, |mems|)
    ensures ClientWired(c.(stage := Searched(mems, c)), |mems|)
  {
    hide MemGet, ImmGet, FindInLevel, Lookup, Answer;
  }

  lemma ReadersOnlyRead(s: State, a: Action)
    requires Wired(s) && Enabled(s, a)
    requires a.GetAction? || a.IterateAction? || a.SearchAction? || a.ReleaseAction?
    ensures SameStore(s, Do(s, a)) && Wired(Do(s, a))
  {
    hide Searched, MemsHeld, AllFiles, RefAll, Unref;
    if a.SearchAction? { SearchedIsWired(s.mems, s.clients[a.client]); }
  }

  lemma ReadersKeep(s: State, a: Action)
    requires Consistent(s) && Enabled(s, a)
    requires a.GetAction? || a.IterateAction? || a.SearchAction? || a.ReleaseAction?
    ensures Consistent(Do(s, a))
  {
    hide Do, Enabled, Faithful, MemGet, ImmGet, Plain, TableGet, FlushEntries, LevelsOk, CompactionOk, Answer;
    ReadersOnlyRead(s, a);
    var t := Do(s, a);
    forall u | Plain(u) ensures DbAnswer(t, u) == MapAnswer(t.model, u) {
      assert DbAnswer(s, u) == MapAnswer(s.model, u);
    }
  }
}
