/** What a stop leaves behind while imm_ is still to be flushed: only the log that the manifest names is replayed
    (MakeRoomForWrite, WriteManifest and Recover in src/db.cc). */
module DatabaseStops {
  import opened Slices
  import opened Coding
  import opened Entries
  import opened InternalKeys
  import opened MemTables
  import opened Levels
  import opened Compactions
  import opened CompactionOutputs
  import opened CompactionResults
  import opened RefCounts
  import opened Databases
  import opened DatabaseAnswers
  import opened DatabaseRecovery
  import opened DatabaseCounts
  import opened DatabaseRuns
  import Wal

  /** The manifest names the log of mem_, or still the one before it, which holds imm_. */
  ghost predicate PendingOk(s: State)
    requires Wired(s)
  {
    s.imm.Some? ==>
      || SavedManifest(s.disk).walNumber == s.walNumber
      || (SavedManifest(s.disk).walNumber + 1 == s.walNumber
          && LogHolds(LogOf(s.disk, SavedManifest(s.disk).walNumber), s.mems[s.imm.value]))
  }

  /** The memory table that a reopened store starts with. */
  function Survivor(s: State): History
    requires Wired(s)
  {
    if s.imm.Some? && SavedManifest(s.disk).walNumber != s.walNumber then s.mems[s.imm.value] else s.mems[s.mem]
  }

  // ---- Steps ----

  lemma SamePending(s: State, t: State)
    requires Wired(s) && Wired(t) && PendingOk(s)
    requires t.imm == s.imm && t.walNumber == s.walNumber && t.disk.manifest == s.disk.manifest
    requires t.imm.Some? ==> t.mems[t.imm.value] == s.mems[s.imm.value]
    requires forall n: nat :: n < s.walNumber ==> LogOf(t.disk, n) == LogOf(s.disk, n)
    ensures PendingOk(t)
  {
    hide LogHolds, LogOf;
  }

  lemma RotatePending(s: State)
    requires Durable(s) && s.imm.None?
    ensures Wired(Rotate(s)) && PendingOk(Rotate(s))
  {
    hide LogHolds, TablesOk;
    SavedWal(s);
    assert LogOf(Rotate(s).disk, s.walNumber) == LogOf(s.disk, s.walNumber);
  }

  lemma SavedWal(s: State)
    requires ManifestOk(s) && s.imm.None?
    ensures SavedManifest(s.disk).walNumber == s.walNumber
  {}

  lemma WritePending(s: State, k: Bytes, v: Bytes, kind: byte, t: ValueType)
    requires Consistent(s) && PendingOk(s) && MayWrite(s, k, v) && |s.mems[s.mem]| < MAX_SEQUENCE
    ensures Wired(Write(s, k, v, kind, t)) && PendingOk(Write(s, k, v, kind, t))
  {
    hide LogHolds, Wal.Encode, MakeInternalKey, MapPut, Faithful, LevelsOk, FlushOk, CompactionOk, AnswersOk;
    SamePending(s, Write(s, k, v, kind, t));
  }

  /** Steps of the background work and of the readers leave the logs alone; a commit saves the current log number. */
  lemma OtherPending(s: State, a: Action)
    requires Inv(s) && Enabled(s, a) && PendingOk(s)
    requires !a.PutAction? && !a.DeleteAction? && !a.RotateAction? && !a.ReopenAction?
    ensures Wired(Do(s, a)) && PendingOk(Do(s, a))
  {
    hide Consistent, Durable, Counted, PendingOk, Rightful, RefAll, MemsHeld, AllFiles, LiveEntries, SortFiles,
      EraseIndices, Erased, RemoveEach, UnrefAll, NumberSet, FlushTable, Searched, FlagsFor, Flagged, Selected,
      MinKey, MaxKey, Numbers, Ids, Wired;
    StepInv(s, a);
    StillWired(s);
    StillWired(Do(s, a));
    if a.FlushCommitAction? || a.CompactCommitAction? {
      SavedNow(Do(s, a));
    } else {
      SamePending(s, Do(s, a));
    }
  }

  lemma StillWired(s: State)
    requires Inv(s)
    ensures Wired(s)
  {}

  lemma SavedNow(s: State)
    requires Wired(s) && (s.imm.None? || SavedManifest(s.disk).walNumber == s.walNumber)
    ensures PendingOk(s)
  {}

  lemma StepPending(s: State, a: Action)
    requires Inv(s) && Enabled(s, a) && PendingOk(s)
    ensures Inv(Do(s, a)) && PendingOk(Do(s, a))
  {
    hide Consistent, Durable, Counted, PendingOk, MayWrite, Write, Rotate, Recover, Rightful;
    StepInv(s, a);
    match a
    case PutAction(k, v) => WriteInv(s, k, v, Wal.PUT, Value); WritePending(s, k, v, Wal.PUT, Value);
    case DeleteAction(k) => WriteInv(s, k, [], Wal.DELETE, Deletion); WritePending(s, k, [], Wal.DELETE, Deletion);
    case RotateAction => RotatePending(s);
    case ReopenAction => ReopenedPending(s);
    case _ => OtherPending(s, a);
  }

  lemma ReopenedPending(s: State)
    requires Inv(s) && Enabled(s, ReopenAction)
    ensures Wired(Do(s, ReopenAction)) && PendingOk(Do(s, ReopenAction))
  {
    hide Consistent, Durable, Counted, OpenLevels, LogRecords, Replay;
    StillWired(s);
    StepInv(s, ReopenAction);
    StillWired(Do(s, ReopenAction));
  }

  lemma {:induction false} RunPending(trace: seq<State>, i: nat)
    requires IsRun(trace) && i < |trace|
    ensures Inv(trace[i]) && PendingOk(trace[i])
  {
    hide Inv, Enabled, Do, PendingOk;
    RunInv(trace, i);
    StillWired(trace[i]);
    if i == 0 {
      SavedNow(trace[0]);
    } else {
      RunPending(trace, i - 1);
      assert Next(trace[i - 1], trace[i]);
      var a :| Enabled(trace[i - 1], a) && trace[i] == Do(trace[i - 1], a);
      StepPending(trace[i - 1], a);
    }
  }

  // ---- A stop at any moment ----

  lemma SavedLog(s: State)
    requires Durable(s) && PendingOk(s)
    ensures LogHolds(LogOf(s.disk, SavedManifest(s.disk).walNumber), Survivor(s))
  {
    hide LogHolds, TablesOk, LogOf;
    if s.imm.None? { SavedWal(s); }
  }

  /** Whenever the process stops, reopening finds all the tables and the one memory table whose log the manifest
      names. If imm_ is pending that is one of the two: what only the other holds is lost. */
  lemma StopKeepsExactly(trace: seq<State>, i: nat, u: Bytes)
    requires IsRun(trace) && i < |trace|
    ensures var s := trace[i];
            && Wired(s) && |LogRecords(s.disk)| <= MAX_SEQUENCE && Wired(Recover(s))
            && DbAnswer(Recover(s), u) == Answer(Orelse(MemGet(Survivor(s), u), TableGet(s.levels, u)))
  {
    hide Consistent, LogsOk, TablesOk, ManifestOk, Counted, PendingOk, MemGet, TableGet, LogHolds, OpenLevels,
      SameLevels, Wal.Records, Replay, Answer, SequenceAfter, NewMany, AllFiles;
    var s := trace[i];
    RunPending(trace, i);
    StillWired(s);
    SavedLog(s);
    LogReplays(LogOf(s.disk, SavedManifest(s.disk).walNumber), Survivor(s));
    OpenLevelsRestores(s, |s.fileHeap.refs|);
    var t := Recover(s);
    SameLevelsAnswer(t.levels, s.levels, u);
    assert t.mems[t.mem] == Survivor(s);
  }

  /** A stop before the flush is committed changes a lookup exactly when the newest layer that holds the key is
      the lost one and the layers below it answer otherwise. Here the manifest still names the log of imm_: what only
      mem_ holds is lost. */
  lemma PendingStopLosesExactly(trace: seq<State>, i: nat, u: Bytes)
    requires IsRun(trace) && i < |trace| && trace[i].imm.Some?
    requires SavedManifest(trace[i].disk).walNumber != trace[i].walNumber
    ensures var s := trace[i];
            && Wired(s) && |LogRecords(s.disk)| <= MAX_SEQUENCE && Wired(Recover(s))
            && (DbAnswer(Recover(s), u) == DbAnswer(s, u) <==>
                  var added := MemGet(s.mems[s.mem], u);
                  added.None? || Answer(added) == Answer(Orelse(ImmGet(s.mems, s.imm, u), TableGet(s.levels, u))))
  {
    hide Recover, MemGet, TableGet, Inv, Wired, LogRecords;
    StopKeepsExactly(trace, i, u);
  }

  /** Here a compaction commit has saved the new log number in the meantime: all of imm_ is lost. */
  lemma CommittedStopLosesExactly(trace: seq<State>, i: nat, u: Bytes)
    requires IsRun(trace) && i < |trace| && trace[i].imm.Some?
    requires SavedManifest(trace[i].disk).walNumber == trace[i].walNumber
    ensures var s := trace[i];
            && Wired(s) && |LogRecords(s.disk)| <= MAX_SEQUENCE && Wired(Recover(s))
            && (DbAnswer(Recover(s), u) == DbAnswer(s, u) <==>
                  var pending := ImmGet(s.mems, s.imm, u);
                  MemGet(s.mems[s.mem], u).Some? || pending.None? || Answer(pending) == Answer(TableGet(s.levels, u)))
  {
    hide Recover, MemGet, TableGet, Inv, Wired, LogRecords;
    StopKeepsExactly(trace, i, u);
  }

  // ---- Both losses happen ----

  lemma Extended(trace: seq<State>, a: Action)
    requires IsRun(trace) && Wired(trace[|trace| - 1]) && Enabled(trace[|trace| - 1], a)
    ensures IsRun(trace + [Do(trace[|trace| - 1], a)])
    ensures Inv(Do(trace[|trace| - 1], a)) && Wired(Do(trace[|trace| - 1], a))
  {
    hide Do, Enabled, Inv, Init, Wired;
    var t := trace + [Do(trace[|trace| - 1], a)];
    assert Next(t[|trace| - 1], t[|trace|]);
    forall i | 0 < i < |t| ensures Next(t[i - 1], t[i]) {
      if i < |trace| { assert Next(trace[i - 1], trace[i]); }
    }
    RunInv(t, |trace|);
    StillWired(t[|trace|]);
  }

  predicate Short(k: Bytes)
  {
    Plain(k) && |k| + 8 < Wal.LENGTH_LIMIT
  }

  lemma OneAdd(k: Bytes, v: Bytes, u: Bytes)
    requires Plain(k) && Plain(u)
    ensures Faithful([Entry(k, v)]) && MemGet([Entry(k, v)], u) == if u == k then Some(v) else None
  {
    hide Faithful, MemGet, Plain;
    var h := [Entry(k, v)];
    LimitsAreFaithful(h);
    MemGetIsLastAdd(h, u);
    assert h[..0] == [];
  }

  lemma NoTables(levels: LevelFiles, u: Bytes)
    requires levels == [[], [], [], []]
    ensures TableGet(levels, u) == None
  {
    TwoLevels(levels, u);
  }

  /** Put, rotation, Put, stop: the second Put is gone. */
  lemma NewestPutIsLost(s: State, k: Bytes, v: Bytes, l: Bytes, w: Bytes) returns (trace: seq<State>)
    requires Init(s) && Short(k) && Short(l) && k != l && w != [] && |v| < Wal.LENGTH_LIMIT && |w| < Wal.LENGTH_LIMIT
    ensures IsRun(trace) && Wired(trace[|trace| - 1])
    ensures var t := trace[|trace| - 1];
            && |LogRecords(t.disk)| <= MAX_SEQUENCE && Wired(Recover(t))
            && DbAnswer(t, l) == Some(w) && DbAnswer(Recover(t), l) == None
  {
    hide Faithful, MemGet, Plain, Inv, Recover, LogRecords, TableGet, MakeInternalKey, Wal.Encode, DbAnswer;
    OneAdd(k, v, l);
    OneAdd(l, w, l);
    assert [] + [Entry(k, v)] == [Entry(k, v)] && [] + [Entry(l, w)] == [Entry(l, w)];
    trace := [s];
    var t := s;
    Extended(trace, PutAction(k, v));
    t := Do(t, PutAction(k, v));
    trace := trace + [t];
    Extended(trace, RotateAction);
    t := Do(t, RotateAction);
    trace := trace + [t];
    Extended(trace, PutAction(l, w));
    t := Do(t, PutAction(l, w));
    trace := trace + [t];
    AnswersLikeAMap(trace, 3, l);
    StopKeepsExactly(trace, 3, l);
    NoTables(t.levels, l);
  }

  // ---- The other half: a compaction commit while imm_ is pending ----

  /** One step more. */
  ghost function Then(trace: seq<State>, a: Action): seq<State>
    requires trace != [] && Wired(trace[|trace| - 1]) && Enabled(trace[|trace| - 1], a)
  {
    trace + [Do(trace[|trace| - 1], a)]
  }

  /** A run that ends with one flushed table, which holds nothing but a deletion, and an empty memory table. */
  lemma OneFlushed(s: State, k: Bytes) returns (trace: seq<State>)
    requires Init(s) && Short(k)
    ensures IsRun(trace)
    ensures var t := trace[|trace| - 1];
            && Inv(t) && Wired(t) && t.imm.None? && !t.immFlushing && t.flush.FlushIdle? && t.compaction.CompactIdle?
            && t.mems[t.mem] == [] && t.lastSequence == 1 && t.model == map[]
            && OneDeletion(t, k)
  {
    hide Faithful, Plain, Inv, MakeInternalKey, Wal.Encode, FlushEntries, Numbers;
    OneAdd(k, [], k);
    assert [] + [Entry(k, [])] == [Entry(k, [])];
    trace := [s];
    Extended(trace, DeleteAction(k));
    trace := Then(trace, DeleteAction(k));
    var t := trace[1];
    assert t.mems == [[Entry(k, [])]] && t.mem == 0 && t.lastSequence == 1 && t.model == map[];
    Extended(trace, RotateAction);
    trace := Then(trace, RotateAction);
    trace := FlushedFrom(trace);
  }

  /** The pending table is the last one of level 0, and nothing else has happened. */
  ghost predicate Flushed(s: State, t: State)
    requires Wired(s) && s.imm.Some?
  {
    && Wired(t) && t.imm.None? && !t.immFlushing && t.flush.FlushIdle? && t.compaction == s.compaction
    && t.mems == s.mems && t.mem == s.mem && t.lastSequence == s.lastSequence && t.model == s.model
    && |t.levels[0]| == |s.levels[0]| + 1 && t.levels[1..] == s.levels[1..]
    && t.levels[0][|s.levels[0]|].run == FlushEntries(s.mems[s.imm.value])
  }

  /** The four steps of a flush, from the state after a rotation. */
  lemma FlushedFrom(before: seq<State>) returns (trace: seq<State>)
    requires IsRun(before)
    requires var s := before[|before| - 1];
             Wired(s) && s.imm.Some? && !s.immFlushing && s.flush.FlushIdle?
    ensures |trace| == |before| + 4 && IsRun(trace)
    ensures Inv(trace[|trace| - 1]) && Flushed(before[|before| - 1], trace[|trace| - 1])
  {
    hide Inv, FlushEntries, Numbers;
    trace := before;
    Extended(trace, FlushBeginAction);
    trace := Then(trace, FlushBeginAction);
    Extended(trace, FlushReadAction);
    trace := Then(trace, FlushReadAction);
    Extended(trace, FlushBuildAction);
    trace := Then(trace, FlushBuildAction);
    Extended(trace, FlushCommitAction);
    trace := Then(trace, FlushCommitAction);
  }

  /** A table of one deletion can be merged, and nothing of it is written. */
  lemma DeletionMerges(l0: seq<File>, k: Bytes)
    requires |l0| == 1 && l0[0].run == FlushEntries([Entry(k, [])]) && GoodTables(RunsIn(l0)) && Plain(k)
    ensures Rightful(l0, []) && LiveEntries(RunsIn(l0 + [])) == []
  {
    hide GoodTables, Rightful, FlushEntries, LiveEntries, Mergeable, Plain;
    FlushEntriesSorted([Entry(k, [])]);
    assert l0 + [] == l0;
    NoLevel();
    UniqueIsGuarded(l0, []);
    forall e | e in l0[0].run ensures e.value == [] { FlushedDeletion(k, e); }
    if LiveEntries(RunsIn(l0)) != [] {
      var e := LiveEntries(RunsIn(l0))[0];
      LiveMembers(RunsIn(l0), e);
    }
  }

  lemma NoLevel()
    ensures OrderedLevel(RunsIn([]))
  {}

  lemma FlushedDeletion(k: Bytes, e: Entry)
    requires e in FlushEntries([Entry(k, [])])
    ensures e.value == []
  {
    hide Stored, Version;
    var h: seq<Entry> := [Entry(k, [])];
    var i :| 0 <= i < |FlushEntries(h)| && FlushEntries(h)[i] == e;
    var a := StoredIndex(h, i);
  }

  /** One table of one deletion is all there is. */
  ghost predicate OneDeletion(s: State, k: Bytes)
  {
    |s.levels[0]| == 1 && s.levels[1..] == [[], [], []] && s.levels[0][0].run == FlushEntries([Entry(k, [])])
  }

  /** The same store with its compaction elsewhere. */
  ghost predicate SameTables(s: State, t: State)
  {
    t.imm == s.imm && t.mems == s.mems && t.mem == s.mem && t.model == s.model && t.walNumber == s.walNumber
  }

  /** The inputs of its compaction are chosen and opened; nothing is left to write. */
  lemma DeletionChosen(before: seq<State>, k: Bytes) returns (trace: seq<State>)
    requires IsRun(before) && Plain(k)
    requires var s := before[|before| - 1];
             Wired(s) && s.compaction.CompactIdle? && OneDeletion(s, k)
    ensures |trace| == |before| + 2 && IsRun(trace)
    ensures var s, t := before[|before| - 1], trace[|trace| - 1];
            && Wired(t) && SameTables(s, t) && t.levels == s.levels
            && t.compaction == CompactMerging(s.levels[0], [], [], s.levels[0], [], [])
  {
    hide Inv, FlushEntries, Numbers, Rightful, LiveEntries, GoodTables, FlagsFor, Selected, MinKey, MaxKey, RefAll,
      Ids, Plain;
    var s := before[|before| - 1];
    RunInv(before, |before| - 1);
    GoodLevel0(s);
    assert s.levels[1] == s.levels[1..][0] == [];
    DeletionMerges(s.levels[0], k);
    NothingSelected(MinKey(RunsIn(s.levels[0])), MaxKey(RunsIn(s.levels[0])));
    trace := before;
    Extended(trace, CompactBeginAction);
    trace := Then(trace, CompactBeginAction);
    assert s.levels[0] + [] == s.levels[0];
    Extended(trace, CompactOpenAction);
    trace := Then(trace, CompactOpenAction);
  }

  /** A whole compaction of it: levels 0 and 1 are empty afterwards, and the manifest names the current log. */
  lemma CompactedAway(before: seq<State>, k: Bytes) returns (trace: seq<State>)
    requires IsRun(before) && Plain(k)
    requires var s := before[|before| - 1];
             Wired(s) && s.compaction.CompactIdle? && OneDeletion(s, k)
    ensures |trace| == |before| + 4 && IsRun(trace)
    ensures var s, t := before[|before| - 1], trace[|trace| - 1];
            && Wired(t) && SameTables(s, t)
            && t.levels == [[], [], [], []] && SavedManifest(t.disk).walNumber == t.walNumber
  {
    hide Inv, FlushEntries, Numbers, UnrefAll, NumberSet, Ids, Plain, RemoveEach, SortFiles, EraseIndices, Erased;
    var s := before[|before| - 1];
    NothingCommitted(s.levels[0]);
    assert s.levels[2] == s.levels[1..][1] && s.levels[3] == s.levels[1..][2];
    trace := DeletionChosen(before, k);
    Extended(trace, CompactCloseAction);
    trace := Then(trace, CompactCloseAction);
    Extended(trace, CompactCommitAction);
    trace := Then(trace, CompactCommitAction);
  }

  lemma NothingCommitted(l0: seq<File>)
    requires |l0| == 1
    ensures RemoveEach(l0, l0) == [] && SortFiles(EraseIndices([], []) + []) == []
  {
    RemoveSnapshot(l0, []);
    assert l0 + [] == l0;
  }

  lemma NothingSelected(minKey: Bytes, maxKey: Bytes)
    ensures RunsIn([]) == [] && Selected([], minKey, maxKey) == []
  {}

  lemma GoodLevel0(s: State)
    requires Inv(s)
    ensures GoodTables(RunsIn(s.levels[0]))
  {}

  /** Delete, rotation, flush, Put, rotation, compaction, stop: the Put is gone. */
  lemma PendingPutIsLost(s: State, k: Bytes, l: Bytes, w: Bytes) returns (trace: seq<State>)
    requires Init(s) && Short(k) && Short(l) && w != [] && |w| < Wal.LENGTH_LIMIT
    ensures IsRun(trace) && Wired(trace[|trace| - 1])
    ensures var t := trace[|trace| - 1];
            && |LogRecords(t.disk)| <= MAX_SEQUENCE && Wired(Recover(t))
            && DbAnswer(t, l) == Some(w) && DbAnswer(Recover(t), l) == None
  {
    hide Faithful, MemGet, Plain, Inv, Recover, LogRecords, TableGet, MakeInternalKey, Wal.Encode, DbAnswer, FlushEntries;
    OneAdd(l, w, l);
    assert [] + [Entry(l, w)] == [Entry(l, w)];
    trace := OneFlushed(s, k);
    Extended(trace, PutAction(l, w));
    trace := Then(trace, PutAction(l, w));
    Extended(trace, RotateAction);
    trace := Then(trace, RotateAction);
    trace := CompactedAway(trace, k);
    var i := |trace| - 1;
    AnswersLikeAMap(trace, i, l);
    StopKeepsExactly(trace, i, l);
    NoTables(trace[i].levels, l);
    NothingAdded(l);
  }

  lemma NothingAdded(u: Bytes)
    ensures MemGet([], u) == None
  {
    EmptyMem(u);
  }
}
