/** What the current log holds in every reachable state, and the sequence numbers in it (src/db.cc). */
module DatabaseLogs {
  import opened Slices
  import opened Entries
  import opened InternalKeys
  import opened MemTables
  import opened Compactions
  import opened CompactionOutputs
  import opened CompactionResults
  import opened RefCounts
  import opened Databases
  import opened DatabaseAnswers
  import opened DatabaseRecovery
  import opened DatabaseCounts
  import opened DatabaseRuns
  import opened DatabaseReads
  import opened DatabaseEffects
  import Wal

  // ---- last_sequence_ after recovery ----

  /** It is at least every number in the replayed records. */
  lemma {:induction false} NoNumberIsLarger(rs: seq<Wal.Record>, i: nat)
    requires i < |rs| && |rs[i].key| >= 8
    ensures ExtractSequence(rs[i].key) <= SequenceAfter(rs)
  {
    hide ExtractSequence;
    var n := |rs| - 1;
    if i < n {
      NoNumberIsLarger(rs[..n], i);
      assert rs[..n][i] == rs[i];
    }
  }

  /** And it is one of them, or 0 when they all are, as long as no key is too short to have one. */
  lemma {:induction false} SomeNumberIsThat(rs: seq<Wal.Record>)
    requires forall i :: 0 <= i < |rs| ==> |rs[i].key| >= 8
    ensures SequenceAfter(rs) == 0 || exists i :: 0 <= i < |rs| && ExtractSequence(rs[i].key) == SequenceAfter(rs)
  {
    hide ExtractSequence;
    if rs != [] {
      var n := |rs| - 1;
      SomeNumberIsThat(rs[..n]);
      if i :| 0 <= i < n && ExtractSequence(rs[..n][i].key) == SequenceAfter(rs[..n]) {
        assert rs[..n][i] == rs[i];
      }
    }
  }

  /** A log of the old format, whose keys have no numbers, is counted. */
  lemma {:induction false} ShortKeysCount(rs: seq<Wal.Record>)
    requires forall i :: 0 <= i < |rs| ==> |rs[i].key| < 8
    ensures SequenceAfter(rs) == |rs|
  {
    if rs != [] { ShortKeysCount(rs[..|rs| - 1]); }
  }

  /** The first two for a store that has just been opened. */
  lemma RecoveredNumber(s: State)
    requires |LogRecords(s.disk)| <= MAX_SEQUENCE
    ensures var rs, last := LogRecords(s.disk), Recover(s).lastSequence;
            && (forall r :: r in rs && |r.key| >= 8 ==> ExtractSequence(r.key) <= last)
            && ((forall r :: r in rs ==> |r.key| >= 8) ==>
                  last == 0 || exists r :: r in rs && ExtractSequence(r.key) == last)
  {
    hide ExtractSequence, LogRecords, SequenceAfter;
    var rs := LogRecords(s.disk);
    forall r | r in rs && |r.key| >= 8 ensures ExtractSequence(r.key) <= SequenceAfter(rs) {
      var i :| 0 <= i < |rs| && rs[i] == r;
      NoNumberIsLarger(rs, i);
    }
    if forall r :: r in rs ==> |r.key| >= 8 { SomeNumberIsThat(rs); }
  }

  // ---- The current log ----

  /** The Puts and Deletes since the last rotation. */
  function WritesSince(actions: seq<Action>): seq<Action>
  {
    if actions == [] then []
    else
      var before := WritesSince(actions[..|actions| - 1]);
      match actions[|actions| - 1]
      case PutAction(_, _) => before + [actions[|actions| - 1]]
      case DeleteAction(_) => before + [actions[|actions| - 1]]
      case RotateAction => []
      case _ => before
  }

  /** The record that logs a write under number `n`. */
  predicate RecordOf(r: Wal.Record, a: Action, n: int)
  {
    0 < n <= MAX_SEQUENCE &&
    match a
    case PutAction(k, v) => r == Wal.Record(1, MakeInternalKey(k, n, Value), v)
    case DeleteAction(k) => r == Wal.Record(2, MakeInternalKey(k, n, Deletion), [])
    case _ => false
  }

  /** One record for each write, in order, under consecutive numbers that end at `last`. */
  ghost predicate Matches(rs: seq<Wal.Record>, writes: seq<Action>, last: nat)
  {
    |rs| == |writes| && forall j :: 0 <= j < |rs| ==> RecordOf(rs[j], writes[j], last + 1 + j - |rs|)
  }

  ghost predicate LogMatches(s: State, writes: seq<Action>)
  {
    exists rs :: LogIs(LogOf(s.disk, s.walNumber), rs) && Matches(rs, writes, s.lastSequence)
  }

  /** In every log the numbers grow. */
  ghost predicate Growing(rs: seq<Wal.Record>)
  {
    forall i, j :: 0 <= i < j < |rs| ==> ExtractSequence(rs[i].key) < ExtractSequence(rs[j].key)
  }

  ghost predicate LogsGrow(s: State)
  {
    forall n :: n in s.disk.logs ==> Growing(Wal.Records(s.disk.logs[n], 0))
  }

  lemma RecordHas(r: Wal.Record, a: Action, n: int)
    requires RecordOf(r, a, n)
    ensures ExtractSequence(r.key) == n && |r.key| >= 8
  {
    hide ExtractSequence;
    match a
    case PutAction(k, v) => InternalKeyRoundTrip(k, n, Value);
    case DeleteAction(k) => InternalKeyRoundTrip(k, n, Deletion);
    case _ => {}
  }

  /** Consecutive numbers, the last of them `last`. */
  lemma MatchedNumbers(rs: seq<Wal.Record>, writes: seq<Action>, last: nat)
    requires Matches(rs, writes, last)
    ensures Growing(rs) && (forall j :: 0 <= j < |rs| ==> ExtractSequence(rs[j].key) == last + 1 + j - |rs|)
    ensures forall j :: 0 <= j < |rs| ==> |rs[j].key| >= 8
  {
    hide ExtractSequence, RecordOf;
    forall j | 0 <= j < |rs| ensures ExtractSequence(rs[j].key) == last + 1 + j - |rs| && |rs[j].key| >= 8 {
      RecordHas(rs[j], writes[j], last + 1 + j - |rs|);
    }
  }

  /** So replaying it finds that number again. */
  lemma MatchedSequence(rs: seq<Wal.Record>, writes: seq<Action>, last: nat)
    requires Matches(rs, writes, last)
    ensures SequenceAfter(rs) == if rs == [] then 0 else last
  {
    hide ExtractSequence, SequenceAfter, Matches;
    MatchedNumbers(rs, writes, last);
    if rs == [] {
      NoRecords();
    } else {
      NoNumberIsLarger(rs, |rs| - 1);
      SomeNumberIsThat(rs);
    }
  }

  lemma NoRecords()
    ensures SequenceAfter([]) == 0
  {}

  lemma LogsOfEmpty()
    ensures Wal.Records([], 0) == [] && LogIs([], [])
  {}

  lemma RecordIs(a: Action, n: int)
    requires 0 < n <= MAX_SEQUENCE && (a.PutAction? || a.DeleteAction?)
    ensures a.PutAction? ==> RecordOf(Wal.Record(Wal.PUT, MakeInternalKey(a.key, n, Value), a.value), a, n)
    ensures a.DeleteAction? ==> RecordOf(Wal.Record(Wal.DELETE, MakeInternalKey(a.key, n, Deletion), []), a, n)
  {
    hide MakeInternalKey;
  }

  // ---- Steps ----

  lemma WriteMatches(s: State, a: Action, writes: seq<Action>)
    requires Durable(s) && Enabled(s, a) && (a.PutAction? || a.DeleteAction?)
    requires LogMatches(s, writes) && LogsGrow(s)
    ensures LogMatches(Do(s, a), writes + [a]) && LogsGrow(Do(s, a))
  {
    hide Faithful, MakeInternalKey, Wal.Encode, Wal.EncodeAll, Wal.Records, MapPut, Matches, Growing, RecordOf, LogIs,
      OnDisk, NoClash, LogsOk, TablesOk, ManifestOk;
    var rs :| LogIs(LogOf(s.disk, s.walNumber), rs) && Matches(rs, writes, s.lastSequence);
    var n := s.lastSequence + 1;
    var v := if a.PutAction? then a.value else [];
    FaithfulSize(s.mems[s.mem] + [Entry(a.key, v)]);
    var r := if a.PutAction? then Wal.Record(Wal.PUT, MakeInternalKey(a.key, n, Value), v)
             else Wal.Record(Wal.DELETE, MakeInternalKey(a.key, n, Deletion), v);
    RecordIs(a, n);
    MatchesMore(rs, writes, s.lastSequence, r, a);
    LogMore(LogOf(s.disk, s.walNumber), rs, r);
    MatchedNumbers(rs + [r], writes + [a], n);
    assert Do(s, a).disk.logs == s.disk.logs[s.walNumber := LogOf(s.disk, s.walNumber) + Wal.Encode(r)];
  }

  lemma MatchesMore(rs: seq<Wal.Record>, writes: seq<Action>, last: nat, r: Wal.Record, a: Action)
    requires Matches(rs, writes, last) && RecordOf(r, a, last + 1)
    ensures Matches(rs + [r], writes + [a], last + 1)
  {
    hide RecordOf;
    forall j | 0 <= j < |rs + [r]| ensures RecordOf((rs + [r])[j], (writes + [a])[j], last + 2 + j - |rs + [r]|) {
      if j < |rs| { assert RecordOf(rs[j], writes[j], last + 1 + j - |rs|); }
    }
  }

  lemma LogMore(log: Bytes, rs: seq<Wal.Record>, r: Wal.Record)
    requires LogIs(log, rs) && Wal.Readable(r)
    ensures LogIs(log + Wal.Encode(r), rs + [r]) && Wal.Records(log + Wal.Encode(r), 0) == rs + [r]
  {
    hide Wal.Encode, Wal.EncodeAll, Wal.Readable, Wal.Records;
    Wal.EncodeAllAppend(rs, r);
    Wal.LogRoundTrip(rs + [r]);
  }

  lemma RotateMatches(s: State)
    requires Durable(s) && s.imm.None? && LogsGrow(s)
    ensures LogMatches(Rotate(s), []) && LogsGrow(Rotate(s))
  {
    hide Wal.EncodeAll, Wal.Records, TablesOk, ManifestOk, LogHolds, Growing, LogIs;
    LogsOfEmpty();
    EmptyGrows();
    assert LogOf(Rotate(s).disk, s.walNumber + 1) == [];
    assert Matches([], [], s.lastSequence);
  }

  lemma EmptyGrows()
    ensures Growing([])
  {}

  /** The log stays, and the number found by the replay is the one in use before, unless the log is empty. */
  lemma ReopenMatches(s: State, writes: seq<Action>)
    requires Durable(s) && Enabled(s, ReopenAction) && LogMatches(s, writes) && LogsGrow(s)
    ensures LogMatches(Do(s, ReopenAction), writes) && LogsGrow(Do(s, ReopenAction))
    ensures Do(s, ReopenAction).lastSequence == if writes == [] then 0 else s.lastSequence
  {
    hide Wal.EncodeAll, Wal.Records, Durable, Growing, Matches, LogIs, SameLevels, OpenLevels, NewMany, AllFiles, Replay,
      SequenceAfter, UnrefAll, Unref, Ids, New;
    var q := Close(s);
    RecoverRestores(s, q);
    LogFits(s);
    var rs :| LogIs(LogOf(s.disk, s.walNumber), rs) && Matches(rs, writes, s.lastSequence);
    LogReads(LogOf(s.disk, s.walNumber), rs);
    MatchedSequence(rs, writes, s.lastSequence);
    MatchedFrom(rs, writes, s.lastSequence);
    EmptyRecords();
    EmptyGrows();
  }

  lemma LogReads(log: Bytes, rs: seq<Wal.Record>)
    requires LogIs(log, rs)
    ensures Wal.Records(log, 0) == rs
  {
    hide Wal.EncodeAll, Wal.Records;
    Wal.LogRoundTrip(rs);
  }

  lemma EmptyRecords()
    ensures Wal.Records([], 0) == []
  {}

  lemma MatchedFrom(rs: seq<Wal.Record>, writes: seq<Action>, last: nat)
    requires Matches(rs, writes, last)
    ensures |rs| == |writes| && Matches(rs, writes, if rs == [] then 0 else last)
  {}

  lemma LogUnchanged(s: State, a: Action)
    requires Wired(s) && Enabled(s, a) && !a.PutAction? && !a.DeleteAction? && !a.RotateAction? && !a.ReopenAction?
    ensures Do(s, a).disk.logs == s.disk.logs && Do(s, a).walNumber == s.walNumber && Do(s, a).lastSequence == s.lastSequence
  {
    hide MayWrite, Rightful, RefAll, MemsHeld, AllFiles, LiveEntries, SortFiles, EraseIndices, Erased, RemoveEach,
      UnrefAll, NumberSet, FlushTable, Searched, FlagsFor, Flagged, Selected, MinKey, MaxKey, Numbers, Ids;
  }

  lemma StepMatches(s: State, a: Action, actions: seq<Action>)
    requires Inv(s) && Enabled(s, a) && LogMatches(s, WritesSince(actions)) && LogsGrow(s)
    ensures LogMatches(Do(s, a), WritesSince(actions + [a])) && LogsGrow(Do(s, a))
  {
    hide Consistent, Durable, Counted, Do, Enabled, LogIs, Matches, Growing;
    var all := actions + [a];
    assert all[..|all| - 1] == actions;
    WiredOf(s);
    if a.PutAction? || a.DeleteAction? {
      WriteMatches(s, a, WritesSince(actions));
    } else if a.RotateAction? {
      RotateEnabled(s);
      RotateMatches(s);
    } else if a.ReopenAction? {
      ReopenMatches(s, WritesSince(actions));
    } else {
      LogUnchanged(s, a);
    }
  }

  lemma RotateEnabled(s: State)
    requires Wired(s) && Enabled(s, RotateAction)
    ensures s.imm.None? && Do(s, RotateAction) == Rotate(s)
  {
    hide Rotate;
  }

  // ---- Every reachable state ----

  lemma {:induction false} RunMatches(trace: seq<State>, actions: seq<Action>, i: nat)
    requires IsRunOf(trace, actions) && i < |trace|
    ensures Inv(trace[i]) && LogMatches(trace[i], WritesSince(actions[..i])) && LogsGrow(trace[i])
  {
    hide Inv, Wired, Enabled, Do, Init, LogMatches, LogsGrow, WritesSince, IsRun;
    RunOfIsRun(trace, actions);
    RunInv(trace, i);
    if i == 0 {
      NewMatches(trace[0]);
      NoWrites();
      assert actions[..0] == [];
    } else {
      RunMatches(trace, actions, i - 1);
      assert Takes(trace[i - 1], actions[i - 1], trace[i]);
      StepMatches(trace[i - 1], actions[i - 1], actions[..i - 1]);
      assert actions[..i] == actions[..i - 1] + [actions[i - 1]];
    }
  }

  lemma NoWrites()
    ensures WritesSince([]) == []
  {}

  lemma NewMatches(s: State)
    requires Init(s)
    ensures LogMatches(s, []) && LogsGrow(s)
  {
    hide Wal.EncodeAll, Wal.Records;
    LogsOfEmpty();
    assert Matches([], [], 0);
  }

  /** The entry a write adds to the memory table. */
  function EntryOf(a: Action): Entry
  {
    match a
    case PutAction(k, v) => Entry(k, v)
    case DeleteAction(k) => Entry(k, [])
    case _ => Entry([], [])
  }

  /** In every reachable state the current log holds one record for each write since the last rotation, in order and
      under consecutive numbers that end at last_sequence_, and the memory table holds the same writes. */
  lemma LogIsTheWrites(trace: seq<State>, actions: seq<Action>, i: nat, j: nat)
    requires IsRunOf(trace, actions) && i < |trace|
    ensures var s := trace[i]; var writes, rs := WritesSince(actions[..i]), Wal.Records(LogOf(s.disk, s.walNumber), 0);
            && Wired(s) && |rs| == |writes| == |s.mems[s.mem]| && |writes| <= s.lastSequence
            && (j < |writes| ==>
                  && RecordOf(rs[j], writes[j], s.lastSequence + 1 + j - |writes|)
                  && s.mems[s.mem][j] == EntryOf(writes[j]))
  {
    hide IsRunOf, Consistent, Counted, TablesOk, ManifestOk, WritesSince, Wal.Records, LogIs, Matches, LogHolds, RecordOf, Replay,
      LogsGrow;
    RunMatches(trace, actions, i);
    IndexInRun(trace, actions, i);
    var s := trace[i];
    var log := LogOf(s.disk, s.walNumber);
    LogReplays(log, s.mems[s.mem]);
    var rs :| LogIs(log, rs) && Matches(rs, WritesSince(actions[..i]), s.lastSequence);
    LogReads(log, rs);
    MatchedAt(rs, WritesSince(actions[..i]), s.lastSequence, j);
  }

  lemma MatchedAt(rs: seq<Wal.Record>, writes: seq<Action>, last: nat, j: nat)
    requires Matches(rs, writes, last)
    ensures |rs| == |writes| <= last
    ensures j < |rs| ==> RecordOf(rs[j], writes[j], last + 1 + j - |rs|) && Replay(rs)[j] == EntryOf(writes[j])
  {
    if rs != [] { assert RecordOf(rs[0], writes[0], last + 1 - |rs|); }
    if j < |rs| {
      assert RecordOf(rs[j], writes[j], last + 1 + j - |rs|);
      RecordReplays(rs[j], writes[j], last + 1 + j - |rs|);
    }
  }

  lemma RecordReplays(r: Wal.Record, a: Action, n: int)
    requires RecordOf(r, a, n)
    ensures Replayed(r) == EntryOf(a)
  {
    match a
    case PutAction(k, v) => InternalKeyRoundTrip(k, n, Value);
    case DeleteAction(k) => InternalKeyRoundTrip(k, n, Deletion);
    case _ => {}
  }

  /** So no number is used twice in one log, across rotations and reopenings. */
  lemma NumbersGrow(trace: seq<State>, i: nat, n: nat)
    requires IsRun(trace) && i < |trace| && n in trace[i].disk.logs
    ensures Growing(Wal.Records(trace[i].disk.logs[n], 0))
    ensures n == trace[i].walNumber ==>
              forall r :: r in Wal.Records(trace[i].disk.logs[n], 0) ==> ExtractSequence(r.key) <= trace[i].lastSequence
  {
    hide IsRunOf, IsRun, Inv, WritesSince, Wal.Records, LogIs, Matches, Growing, ExtractSequence;
    var actions := RunHasActions(trace);
    IndexInRun(trace, actions, i);
    RunMatches(trace, actions, i);
    var s, writes := trace[i], WritesSince(actions[..i]);
    if n == s.walNumber {
      var rs :| LogIs(LogOf(s.disk, n), rs) && Matches(rs, writes, s.lastSequence);
      LogReads(LogOf(s.disk, n), rs);
      MatchedNumbers(rs, writes, s.lastSequence);
    }
  }

  lemma IndexInRun(trace: seq<State>, actions: seq<Action>, i: nat)
    requires IsRunOf(trace, actions) && i < |trace|
    ensures i <= |actions|
  {}
}
