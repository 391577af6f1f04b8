/** What each step does to the store's answers, and so what a run answers in terms of the writes that were made
    (src/db.cc). */
module DatabaseEffects {
  import opened Slices
  import opened Coding
  import opened InternalKeys
  import opened MemTables
  import opened Levels
  import opened Compactions
  import opened CompactionOutputs
  import opened CompactionResults
  import opened RefCounts
  import opened Databases
  import opened DatabaseAnswers
  import opened DatabaseRecovery
  import opened DatabaseCounts
  import opened DatabaseRuns
  import opened DatabaseReads
  import Wal

  // ---- One step ----

  lemma Answers(s: State, u: Bytes)
    requires Inv(s) && Plain(u)
    ensures Wired(s) && DbAnswer(s, u) == MapAnswer(s.model, u)
  {
    hide DbAnswer, MapAnswer, Plain, LevelsOk, FlushOk, CompactionOk, Durable, Counted;
  }

  /** After a Put its key has the new value (an empty one reads as absent) and every other key its old one. */
  lemma PutAnswers(s: State, k: Bytes, v: Bytes, u: Bytes)
    requires Inv(s) && Enabled(s, PutAction(k, v)) && Plain(u)
    ensures Wired(Do(s, PutAction(k, v)))
    ensures DbAnswer(Do(s, PutAction(k, v)), u) == if u != k then DbAnswer(s, u) else if v == [] then None else Some(v)
  {
    hide Inv, DbAnswer, MayWrite, Plain;
    StepInv(s, PutAction(k, v));
    Answers(s, u);
    Answers(Do(s, PutAction(k, v)), u);
  }

  /** After a Delete its key is absent, and every other key has its old value. */
  lemma DeleteAnswers(s: State, k: Bytes, u: Bytes)
    requires Inv(s) && Enabled(s, DeleteAction(k)) && Plain(u)
    ensures Wired(Do(s, DeleteAction(k)))
    ensures DbAnswer(Do(s, DeleteAction(k)), u) == if u != k then DbAnswer(s, u) else None
  {
    hide Inv, DbAnswer, MayWrite, Plain;
    StepInv(s, DeleteAction(k));
    Answers(s, u);
    Answers(Do(s, DeleteAction(k)), u);
  }

  /** No other step, a rotation, a flush, a compaction, a read or a reopening, changes the map. */
  lemma MapUnchanged(s: State, a: Action)
    requires Wired(s) && Enabled(s, a) && !a.PutAction? && !a.DeleteAction?
    ensures Do(s, a).model == s.model
  {
    hide MayWrite, Rightful, RefAll, MemsHeld, AllFiles, LiveEntries, SortFiles, EraseIndices, Erased, RemoveEach,
      UnrefAll, NumberSet, FlushTable, Searched, FlagsFor, Flagged, Selected, MinKey, MaxKey, OpenLevels, Replay,
      SequenceAfter, NewMany, LogRecords, Wal.Encode, Numbers, Ids;
  }

  /** So none changes an answer. */
  lemma OthersAnswer(s: State, a: Action, u: Bytes)
    requires Inv(s) && Enabled(s, a) && !a.PutAction? && !a.DeleteAction? && Plain(u)
    ensures Wired(Do(s, a)) && DbAnswer(Do(s, a), u) == DbAnswer(s, u)
  {
    hide Inv, Do, Enabled, DbAnswer, Plain;
    StepInv(s, a);
    Answers(s, u);
    MapUnchanged(s, a);
    Answers(Do(s, a), u);
  }

  // ---- What rotations, flushes and compactions move ----

  /** A rotation leaves an empty memory table and an empty log, and the full table pending. */
  lemma RotationStartsAfresh(s: State)
    requires Inv(s) && s.imm.None?
    ensures var t := Rotate(s);
            && Wired(t) && t.imm == Some(s.mem) && t.mems[t.imm.value] == s.mems[s.mem] && t.mems[t.mem] == []
            && t.walNumber == s.walNumber + 1 && LogOf(t.disk, t.walNumber) == []
            && LogOf(t.disk, s.walNumber) == LogOf(s.disk, s.walNumber)
            && t.levels == s.levels && t.lastSequence == s.lastSequence
  {
    hide Consistent, Counted, TablesOk, ManifestOk, LogHolds;
  }

  /** Nothing pending any more, the table of its entries the newest of level 0 and listed in the manifest, and the rest as
      it was. */
  ghost predicate FlushPublished(s: State, t: State)
    requires Wired(s) && s.imm.Some?
  {
    var n := |s.levels[0]|;
    && t.imm.None? && !t.immFlushing && t.flush.FlushIdle?
    && |t.levels[0]| == n + 1 && t.levels[0][..n] == s.levels[0] && t.levels[1..] == s.levels[1..]
    && t.levels[0][n].run == FlushEntries(s.mems[s.imm.value])
    && t.levels[0][n].number in t.disk.tables && t.disk.tables[t.levels[0][n].number] == t.levels[0][n].run
    && SavedLevel(t.disk, 0) == SavedLevel(s.disk, 0) + [t.levels[0][n].number]
    && SavedManifest(t.disk).walNumber == s.walNumber && SavedManifest(t.disk).nextFile == s.nextFile
    && t.mems == s.mems && t.mem == s.mem && t.lastSequence == s.lastSequence
  }

  /** That is what a flush leaves when it is committed. */
  lemma FlushPublishes(s: State)
    requires Wired(s) && s.flush.FlushBuilt? && s.imm.Some? && Inv(s)
    ensures FlushPublished(s, CommitFlush(s))
  {
    hide Counted, LogsOk, NoClash, ClaimIsFree, AnswersOk, CompactionOk, LevelsOk, MemsOk, FlushEntries, Unref;
    NumbersMore(s.levels[0], s.flush.file);
    BuiltIsKnown(s);
  }

  lemma BuiltIsKnown(s: State)
    requires s.flush.FlushBuilt?
    ensures s.flush.file in Known(s)
  {}

  lemma NumbersMore(files: seq<File>, f: File)
    ensures Numbers(files + [f]) == Numbers(files) + [f.number]
  {}

  /** The internal keys of a level 1 file reach into those of level 0 from both sides. */
  ghost predicate ReachesInto(f: File, l0: seq<File>)
  {
    && (exists i :: 0 <= i < |l0| && !Less(LastInternal(l0[i].run), FirstInternal(f.run)))
    && exists j :: 0 <= j < |l0| && !Less(LastInternal(f.run), FirstInternal(l0[j].run))
  }

  /** A compaction takes all of level 0 and those files of level 1, and it takes one reference to each. */
  lemma CompactionTakes(s: State, f: File)
    requires s.levels[0] != []
    ensures var t := BeginCompact(s); var c := t.compaction;
            && c.CompactChosen? && c.l0 == s.levels[0] && t.levels == s.levels
            && (f in c.l1 <==> f in s.levels[1] && ReachesInto(f, s.levels[0]))
  {
    hide Flagged, Overlaps, Selected, MinKey, MaxKey, FirstInternal, LastInternal, RefAll, Less, ReachesInto;
    var l0, l1 := s.levels[0], s.levels[1];
    FlaggedMember(l1, FlagsFor(l0, l1), f);
    HullReach(f, l0);
    if f in l1 {
      var i :| 0 <= i < |l1| && l1[i] == f;
      assert FlagsFor(l0, l1)[i] == Overlaps(MinKey(RunsIn(l0)), MaxKey(RunsIn(l0)), f.run);
    }
  }

  lemma HullReach(f: File, l0: seq<File>)
    requires l0 != []
    ensures Overlaps(MinKey(RunsIn(l0)), MaxKey(RunsIn(l0)), f.run) <==> ReachesInto(f, l0)
  {
    hide MinKey, MaxKey, FirstInternal, LastInternal, Less;
    LessIsStrictTotalOrder();
    var i, j := HullIsMet(RunsIn(l0));
    forall k | 0 <= k < |l0|
      ensures !Less(FirstInternal(l0[k].run), MinKey(RunsIn(l0))) && !Less(MaxKey(RunsIn(l0)), LastInternal(l0[k].run))
    {
      HullBounds(RunsIn(l0), k);
    }
    assert FirstInternal(l0[i].run) == MinKey(RunsIn(l0)) && LastInternal(l0[j].run) == MaxKey(RunsIn(l0));
  }

  /** Level 0 holds what was flushed in the meantime and no more, and level 1 has lost the files that were taken from it
      and gained the outputs, which hold the live entries of the merge. */
  ghost predicate CompactionPublished(s: State, t: State)
    requires s.compaction.CompactMerged?
  {
    var c := s.compaction;
    && t.compaction.CompactIdle? && s.levels[0] == c.l0 + t.levels[0]
    && multiset(t.levels[1]) + multiset(c.l1) == multiset(s.levels[1]) + multiset(c.outs)
    && Join(RunsIn(c.outs)) == LiveEntries(RunsIn(c.l0 + c.l1))
    && t.mems == s.mems && t.mem == s.mem && t.imm == s.imm && t.flush == s.flush
    && (forall l :: 0 <= l < 4 ==> SavedLevel(t.disk, l) == Numbers(t.levels[l]))
    && SavedManifest(t.disk).walNumber == s.walNumber && SavedManifest(t.disk).nextFile == s.nextFile
  }

  /** That is what a compaction leaves when it is committed. */
  lemma CompactionPublishes(s: State)
    requires s.compaction.CompactMerged? && CompactionOk(s.compaction, s.levels)
    ensures CompactionPublished(s, CommitCompact(s))
  {
    hide RemoveEach, SortFiles, EraseIndices, Erased, UnrefAll, NumberSet, Numbers, Ids, LiveEntries, Join, NewLevel1,
      GoodTables, OrderedLevel, Rightful, Flagged, FlagsFor, Selected, MinKey, MaxKey;
    var c := s.compaction;
    CommittedLevels(c, s.levels);
    CommitMovesLevel1(c.l0, c.l1, c.indices, s.levels);
    assert Inputs(c.l0, s.levels[1]) == c.l0 + c.l1;
  }

  /** Releasing gives back one reference at a time, until the reader holds none. */
  lemma ReleaseGivesOne(s: State, i: nat)
    requires Wired(s) && Enabled(s, ReleaseAction(i))
    ensures var c, d := s.clients[i], ReleaseRead(s, i).clients[i];
            |d.heldMems| + |d.heldFiles| == |c.heldMems| + |c.heldFiles| - 1 && d.stage == c.stage
  {
    hide Unref;
  }

  // ---- A run and its actions ----

  /** `trace` is the run in which `actions` are taken one after another. */
  ghost predicate IsRunOf(trace: seq<State>, actions: seq<Action>)
  {
    && |trace| == |actions| + 1 && Init(trace[0])
    && forall i :: 0 <= i < |actions| ==> Takes(trace[i], actions[i], trace[i + 1])
  }

  ghost predicate Takes(s: State, a: Action, t: State)
  {
    Wired(s) && Enabled(s, a) && t == Do(s, a)
  }

  lemma RunOfIsRun(trace: seq<State>, actions: seq<Action>)
    requires IsRunOf(trace, actions)
    ensures IsRun(trace)
  {
    hide Wired, Enabled, Do, Init;
    forall i | 0 < i < |trace| ensures Next(trace[i - 1], trace[i]) {
      assert Takes(trace[i - 1], actions[i - 1], trace[i]);
    }
  }

  /** Every run has its actions. */
  lemma {:induction false} RunHasActions(trace: seq<State>) returns (actions: seq<Action>)
    requires IsRun(trace)
    ensures IsRunOf(trace, actions)
    decreases |trace|
  {
    hide Wired, Enabled, Do, Init;
    if |trace| == 1 {
      actions := [];
    } else {
      var n := |trace| - 1;
      var before := trace[..n];
      forall i | 0 < i < |before| ensures Next(before[i - 1], before[i]) {
        assert before[i - 1] == trace[i - 1] && before[i] == trace[i];
      }
      actions := RunHasActions(before);
      assert Next(trace[n - 1], trace[n]);
      var a :| Enabled(trace[n - 1], a) && trace[n] == Do(trace[n - 1], a);
      var all := actions + [a];
      forall i | 0 <= i < |all| ensures Takes(trace[i], all[i], trace[i + 1]) {
        if i < |actions| {
          assert Takes(before[i], actions[i], before[i + 1]);
          assert before[i] == trace[i] && before[i + 1] == trace[i + 1];
        }
      }
      actions := all;
    }
  }

  // ---- The map of the writes ----

  /** A plain map after all the Puts and Deletes among `actions`, in order. */
  function WrittenMap(actions: seq<Action>): map<Bytes, Bytes>
  {
    if actions == [] then map[]
    else
      var m := WrittenMap(actions[..|actions| - 1]);
      match actions[|actions| - 1]
      case PutAction(k, v) => if v == [] then m - {k} else m[k := v]
      case DeleteAction(k) => m - {k}
      case _ => m
  }

  /** The value that the last Put to `u` wrote, unless it was empty or a Delete came later. */
  function LastWritten(actions: seq<Action>, u: Bytes): Option<Bytes>
  {
    if actions == [] then None
    else
      match actions[|actions| - 1]
      case PutAction(k, v) =>
        if k != u then LastWritten(actions[..|actions| - 1], u) else if v == [] then None else Some(v)
      case DeleteAction(k) => if k != u then LastWritten(actions[..|actions| - 1], u) else None
      case _ => LastWritten(actions[..|actions| - 1], u)
  }

  lemma {:induction false} WrittenIsLast(actions: seq<Action>, u: Bytes)
    ensures MapAnswer(WrittenMap(actions), u) == LastWritten(actions, u)
  {
    if actions != [] { WrittenIsLast(actions[..|actions| - 1], u); }
  }

  predicate Touches(a: Action, u: Bytes)
  {
    match a
    case PutAction(k, _) => k == u
    case DeleteAction(k) => k == u
    case _ => false
  }

  /** Action `i` puts `v`, and no later one writes the key. */
  predicate LastPut(actions: seq<Action>, i: nat, u: Bytes, v: Bytes)
  {
    i < |actions| && actions[i] == PutAction(u, v) && forall j :: i < j < |actions| ==> !Touches(actions[j], u)
  }

  /** So a key is answered with `v` exactly when some Put wrote it, no later write has the key, and `v` is not empty. */
  lemma {:induction false} LastWrittenExactly(actions: seq<Action>, u: Bytes, v: Bytes)
    ensures LastWritten(actions, u) == Some(v) <==> v != [] && exists i: nat :: LastPut(actions, i, u, v)
  {
    if actions != [] {
      var n := |actions| - 1;
      LastWrittenExactly(actions[..n], u, v);
      if actions[n] == PutAction(u, v) { assert LastPut(actions, n, u, v); }
      if !Touches(actions[n], u) {
        forall i: nat ensures LastPut(actions, i, u, v) <==> LastPut(actions[..n], i, u, v) {
          LastPutGrows(actions, i, u, v);
        }
      }
    }
  }

  lemma LastPutGrows(actions: seq<Action>, i: nat, u: Bytes, v: Bytes)
    requires actions != [] && !Touches(actions[|actions| - 1], u)
    ensures LastPut(actions, i, u, v) <==> LastPut(actions[..|actions| - 1], i, u, v)
  {
    var before := actions[..|actions| - 1];
    if LastPut(before, i, u, v) {
      forall j | i < j < |actions| ensures !Touches(actions[j], u) {
        if j < |before| { assert before[j] == actions[j]; }
      }
    }
  }

  lemma StepWrites(s: State, a: Action, actions: seq<Action>)
    requires Wired(s) && Enabled(s, a) && s.model == WrittenMap(actions)
    ensures Do(s, a).model == WrittenMap(actions + [a])
  {
    hide MayWrite, Rightful, Wal.Encode, Wired;
    var all := actions + [a];
    assert all[..|all| - 1] == actions;
    if !a.PutAction? && !a.DeleteAction? {
      hide Do, Enabled;
      MapUnchanged(s, a);
    }
  }

  /** The map that the invariant compares the store with is the map of the writes made so far. */
  lemma {:induction false} ModelIsWritten(trace: seq<State>, actions: seq<Action>, i: nat)
    requires IsRunOf(trace, actions) && i < |trace|
    ensures trace[i].model == WrittenMap(actions[..i])
  {
    hide Wired, Enabled, Do;
    if i > 0 {
      ModelIsWritten(trace, actions, i - 1);
      assert Takes(trace[i - 1], actions[i - 1], trace[i]);
      StepWrites(trace[i - 1], actions[i - 1], actions[..i - 1]);
      assert actions[..i] == actions[..i - 1] + [actions[i - 1]];
    }
  }

  // ---- What a run answers ----

  /** In every state of every run a key is answered with what was last written to it. */
  lemma AnswersAreTheWrites(trace: seq<State>, actions: seq<Action>, i: nat, u: Bytes)
    requires IsRunOf(trace, actions) && i < |trace| && Plain(u)
    ensures Wired(trace[i]) && DbAnswer(trace[i], u) == LastWritten(actions[..i], u)
  {
    hide IsRun, Takes, Init, DbAnswer, MapAnswer, WrittenMap, LastWritten, Plain, Wired;
    RunOfIsRun(trace, actions);
    AnswersLikeAMap(trace, i, u);
    ModelIsWritten(trace, actions, i);
    WrittenIsLast(actions[..i], u);
  }

  /** And so it is after a stop and a new start, whenever imm_ is not set. */
  lemma ReopenedHasTheWrites(trace: seq<State>, actions: seq<Action>, i: nat, u: Bytes)
    requires IsRunOf(trace, actions) && i < |trace| && trace[i].imm.None? && Plain(u)
    ensures |LogRecords(trace[i].disk)| <= MAX_SEQUENCE && Wired(Recover(trace[i]))
    ensures DbAnswer(Recover(trace[i]), u) == LastWritten(actions[..i], u)
  {
    hide IsRun, Takes, Init, DbAnswer, MapAnswer, WrittenMap, LastWritten, Plain, Wired, Recover, LogRecords;
    RunOfIsRun(trace, actions);
    ReopensAsItWas(trace, i, u);
    ModelIsWritten(trace, actions, i);
    WrittenIsLast(actions[..i], u);
  }

  /** Every Get returns what had last been written to its key at some moment between its snapshot and its return. */
  lemma GetReturnsAWrite(trace: seq<State>, actions: seq<Action>, b: nat, n: nat, key: Bytes) returns (k: nat)
    requires IsRunOf(trace, actions) && b < n < |trace| && actions[b] == GetAction(key) && Plain(key)
    ensures |trace[b].clients| < |trace[n].clients| && b < k <= n
    ensures var c := trace[n].clients[|trace[b].clients|];
            c.key == key && (c.stage.Returned? ==> c.stage.result == LastWritten(actions[..k], key))
  {
    hide IsRun, MapAnswer, WrittenMap, LastWritten, Plain, Takes, Init, GetBegun, Remaining, BeginRead, Inv, ClientWired, Wired,
      Enabled, Do;
    RunOfIsRun(trace, actions);
    ActionBeginsGet(trace, actions, b, key);
    var c := |trace[b].clients|;
    SearchIsOnCourse(trace, b + 1, n, c, key);
    GetIsLinearizable(trace, b + 1, n, c, key);
    k := n;
    if trace[n].clients[c].stage.Returned? {
      k :| b + 1 <= k <= n && MapAnswer(trace[k].model, key) == trace[n].clients[c].stage.result;
    }
    ModelIsWritten(trace, actions, k);
    WrittenIsLast(actions[..k], key);
  }

  lemma ActionBeginsGet(trace: seq<State>, actions: seq<Action>, b: nat, key: Bytes)
    requires IsRunOf(trace, actions) && b < |actions| && actions[b] == GetAction(key)
    ensures GetBegun(trace, b + 1, |trace[b].clients|, key)
  {
    hide BeginRead, Wired, Init;
    assert Takes(trace[b], actions[b], trace[b + 1]);
  }
}
