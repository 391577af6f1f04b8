/** Whole runs of the database: what every reachable state satisfies, and what each Get returns (src/db.cc). */
module DatabaseRuns {
  import opened Slices
  import opened InternalKeys
  import opened MemTables
  import opened Levels
  import opened CompactionResults
  import opened RefCounts
  import opened Databases
  import opened DatabaseAnswers
  import opened DatabaseRecovery
  import opened DatabaseCounts
  import Wal

  ghost predicate Inv(s: State)
  {
    Consistent(s) && Durable(s) && Counted(s)
  }

  ghost predicate Next(s: State, t: State)
  {
    Wired(s) && exists a :: Enabled(s, a) && t == Do(s, a)
  }

  /** A new database and any number of steps, in any order the guards allow. */
  ghost predicate IsRun(trace: seq<State>)
  {
    && trace != [] && Init(trace[0])
    && forall i :: 0 < i < |trace| ==> Next(trace[i - 1], trace[i])
  }

  // ---- Every reachable state ----

  lemma NewIsConsistent(s: State)
    requires Init(s)
    ensures Consistent(s)
  {
    hide Faithful, MemGet, Plain;
    EmptyMem([]);
    assert s.mems[0] == [];
    LevelIsEmpty(s.levels);
    forall u | Plain(u) ensures DbAnswer(s, u) == MapAnswer(s.model, u) {
      EmptyMem(u);
      TwoLevels(s.levels, u);
    }
  }

  lemma LevelIsEmpty(levels: LevelFiles)
    requires levels == [[], [], [], []]
    ensures LevelsOk(levels)
  {}

  lemma NewIsDurable(s: State)
    requires Init(s)
    ensures Durable(s)
  {
    hide LogHolds;
    EmptyLog();
    assert AllFiles(s.levels) == [];
    assert Numbers([]) == [];
  }

  lemma NewIsCounted(s: State)
    requires Init(s)
    ensures Counted(s)
  {
    assert AllFiles(s.levels) == [];
    BagNone();
    assert MemOwners(s) == multiset{0};
    assert FileOwners(s) == multiset{};
  }

  lemma InitInv(s: State)
    requires Init(s)
    ensures Inv(s)
  {
    NewIsConsistent(s);
    NewIsDurable(s);
    NewIsCounted(s);
  }

  lemma WriteInv(s: State, k: Bytes, v: Bytes, kind: byte, t: ValueType)
    requires Inv(s) && MayWrite(s, k, v)
    ensures |s.mems[s.mem]| < MAX_SEQUENCE && Inv(Write(s, k, v, kind, t))
  {
    hide Consistent, Durable, Counted, Write;
    WiredInv(s);
    WriteKeeps(s, k, v, kind, t);
    WriteIsDurable(s, k, v, kind, t);
    WriteCounts(s, k, v, kind, t);
  }

  lemma WiredInv(s: State)
    requires Consistent(s)
    ensures Wired(s) && FlushOk(s) && CompactionOk(s.compaction, s.levels)
  {}

  lemma FlushInv(s: State, a: Action)
    requires Inv(s) && Enabled(s, a)
    requires a.FlushBeginAction? || a.FlushReadAction? || a.FlushBuildAction? || a.FlushCommitAction?
    ensures Inv(Do(s, a))
  {
    hide Consistent, Durable, Counted, BeginFlush, ReadFlush, BuildFlush, CommitFlush;
    WiredInv(s);
    FlushStepsKeep(s);
    match a
    case FlushBeginAction => BeginFlushIsDurable(s); BeginFlushCounts(s);
    case FlushReadAction => ReadFlushIsDurable(s); ReadFlushCounts(s);
    case FlushBuildAction => BuildFlushIsDurable(s); BuildFlushCounts(s);
    case FlushCommitAction => CommitFlushKeeps(s); CommitFlushIsDurable(s); CommitFlushCounts(s);
    case _ => {}
  }

  lemma CompactInv(s: State, a: Action)
    requires Inv(s) && Enabled(s, a)
    requires a.CompactBeginAction? || a.CompactOpenAction? || a.CompactEmitAction? || a.CompactCloseAction? || a.CompactCommitAction?
    ensures Inv(Do(s, a))
  {
    hide Consistent, Durable, Counted, BeginCompact, OpenCompact, EmitCompact, CloseCompact, CommitCompact,
      Rightful;
    WiredInv(s);
    match a
    case CompactBeginAction => BeginCompactKeeps(s); BeginCompactIsDurable(s); BeginCompactCounts(s);
    case CompactOpenAction => OpenCompactKeeps(s); OpenCompactIsDurable(s); OpenCompactCounts(s);
    case CompactEmitAction(n) => EmitCompactKeeps(s, n); EmitCompactIsDurable(s, n); EmitCompactCounts(s, n);
    case CompactCloseAction => CloseCompactKeeps(s); CloseCompactIsDurable(s); CloseCompactCounts(s);
    case CompactCommitAction => CommitCompactKeeps(s); CommitCompactIsDurable(s); CommitCompactCounts(s);
    case _ => {}
  }

  lemma ReadInv(s: State, a: Action)
    requires Inv(s) && Enabled(s, a)
    requires a.GetAction? || a.IterateAction? || a.SearchAction? || a.ReleaseAction?
    ensures Inv(Do(s, a))
  {
    hide Consistent, Durable, Counted, BeginRead, StepRead, ReleaseRead;
    WiredInv(s);
    ReadersKeep(s, a);
    ReadersAreDurable(s, a);
    match a
    case GetAction(key) => BeginReadCounts(s, key, InMem);
    case IterateAction => BeginReadCounts(s, [], Walking);
    case SearchAction(i) => StepReadCounts(s, i);
    case ReleaseAction(i) => ReleaseReadCounts(s, i);
    case _ => {}
  }

  lemma ReopenInv(s: State)
    requires Inv(s) && Enabled(s, ReopenAction)
    ensures Inv(Do(s, ReopenAction))
  {
    hide Consistent, Durable, Counted, Recover;
    var q := Close(s);
    RecoverIsConsistent(s, q);
    RecoverIsDurable(s, q);
    ReopenCounts(s);
  }

  lemma RotateInv(s: State)
    requires Inv(s) && s.imm.None?
    ensures Inv(Rotate(s))
  {
    hide Consistent, Durable, Counted, Rotate;
    RotateKeeps(s);
    RotateIsDurable(s);
    RotateCounts(s);
  }

  lemma StepInv(s: State, a: Action)
    requires Inv(s) && Enabled(s, a)
    ensures Inv(Do(s, a))
  {
    hide Inv, Write, Rotate, Recover, BeginRead, StepRead, ReleaseRead, BeginFlush, ReadFlush, BuildFlush,
      CommitFlush, BeginCompact, OpenCompact, EmitCompact, CloseCompact, CommitCompact, MayWrite, Rightful,
      Quiet;
    match a
    case PutAction(key, value) => WriteInv(s, key, value, Wal.PUT, Value);
    case DeleteAction(key) => WriteInv(s, key, [], Wal.DELETE, Deletion);
    case RotateAction => RotateInv(s);
    case FlushBeginAction => FlushInv(s, a);
    case FlushReadAction => FlushInv(s, a);
    case FlushBuildAction => FlushInv(s, a);
    case FlushCommitAction => FlushInv(s, a);
    case CompactBeginAction => CompactInv(s, a);
    case CompactOpenAction => CompactInv(s, a);
    case CompactEmitAction(n) => CompactInv(s, a);
    case CompactCloseAction => CompactInv(s, a);
    case CompactCommitAction => CompactInv(s, a);
    case GetAction(key) => ReadInv(s, a);
    case IterateAction => ReadInv(s, a);
    case SearchAction(i) => ReadInv(s, a);
    case ReleaseAction(i) => ReadInv(s, a);
    case ReopenAction => ReopenInv(s);
  }

  /** Every reachable state satisfies the invariant. */
  lemma {:induction false} RunInv(trace: seq<State>, i: nat)
    requires IsRun(trace) && i < |trace|
    ensures Inv(trace[i])
  {
    hide Inv, Init, Enabled, Do, Wired;
    if i == 0 {
      InitInv(trace[0]);
    } else {
      RunInv(trace, i - 1);
      assert Next(trace[i - 1], trace[i]);
      var a :| Enabled(trace[i - 1], a) && trace[i] == Do(trace[i - 1], a);
      StepInv(trace[i - 1], a);
    }
  }

  // ---- What that says ----

  /** At every moment of every run the store answers like a plain map. */
  lemma AnswersLikeAMap(trace: seq<State>, i: nat, u: Bytes)
    requires IsRun(trace) && i < |trace| && Plain(u)
    ensures Wired(trace[i]) && DbAnswer(trace[i], u) == MapAnswer(trace[i].model, u)
  {
    hide DbAnswer, MapAnswer, Plain, Durable, Counted;
    RunInv(trace, i);
  }

  /** Level 1 is always sorted with disjoint ranges, and nothing is ever put below it. */
  lemma LevelsStayOrdered(trace: seq<State>, i: nat)
    requires IsRun(trace) && i < |trace|
    ensures OrderedLevel(RunsIn(trace[i].levels[1])) && trace[i].levels[2] == [] && trace[i].levels[3] == []
  {
    hide OrderedLevel, Durable, Counted, AnswersOk;
    RunInv(trace, i);
  }

  /** Every count is the number of holders, and an object has been deleted exactly when nothing holds it. */
  lemma CountsAreHolders(trace: seq<State>, i: nat)
    requires IsRun(trace) && i < |trace|
    ensures Balanced(trace[i].fileHeap, FileOwners(trace[i])) && Balanced(trace[i].memHeap, MemOwners(trace[i]))
  {
    hide Balanced, Durable, Consistent;
    RunInv(trace, i);
  }

  /** Whenever imm_ is not set, the manifest names the current log, the log replays to the memory table, and a store
      reopened from disk answers like the map did. */
  lemma ReopensAsItWas(trace: seq<State>, i: nat, u: Bytes)
    requires IsRun(trace) && i < |trace| && trace[i].imm.None? && Plain(u)
    ensures var s := trace[i];
            && Wired(s) && SavedManifest(s.disk).walNumber == s.walNumber && Replay(LogRecords(s.disk)) == s.mems[s.mem]
            && |LogRecords(s.disk)| <= MAX_SEQUENCE && Wired(Recover(s))
            && DbAnswer(Recover(s), u) == MapAnswer(s.model, u)
  {
    hide DbAnswer, MapAnswer, Plain, Counted, Recover, Replay, LogRecords, LogsOk, TablesOk, Wired;
    var s := trace[i];
    RunInv(trace, i);
    WiredInv(s);
    LogFits(s);
    AnswersLikeAMap(trace, i, u);
    RecoverKeepsAnswers(s, s, u);
  }
}
