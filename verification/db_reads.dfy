/** What a Get returns while writers, flushes and compactions go on (DB::Get in src/db.cc). */
module DatabaseReads {
  import opened Slices
  import opened Coding
  import opened Entries
  import opened InternalKeys
  import opened MemTables
  import opened Levels
  import opened Compactions
  import opened CompactionOutputs
  import opened CompactionResults
  import opened RefCounts
  import opened Databases
  import opened DatabaseAnswers
  import opened DatabaseRecovery
  import opened DatabaseCounts
  import opened DatabaseRuns
  import Wal

  /** What a search would return if the rest of it ran at once. */
  function Remaining(mems: seq<History>, c: Client): Option<Bytes>
    requires ClientWired(c, |mems|)
  {
    match c.stage
    case InMem => Answer(Orelse(MemGet(mems[c.memRef], c.key), Orelse(ImmGet(mems, c.immRef, c.key), TableGet(c.snapshot, c.key))))
    case InImm => Answer(Orelse(ImmGet(mems, c.immRef, c.key), TableGet(c.snapshot, c.key)))
    case InLevel0(left) => Answer(Orelse(FindNewest(RunsIn(c.snapshot[0][..left]), c.key), FindFrom(LevelRuns(c.snapshot), 1, c.key)))
    case InLevel(l) => Answer(FindFrom(LevelRuns(c.snapshot), l, c.key))
    case Returned(r) => r
    case Walking => None
  }

  /** Each step of the search keeps it. */
  lemma SearchKeepsRemaining(mems: seq<History>, c: Client)
    requires ClientWired(c, |mems|)
    ensures var d := c.(stage := Searched(mems, c));
            ClientWired(d, |mems|) && Remaining(mems, d) == Remaining(mems, c)
  {
    hide MemGet, Lookup, FindInLevel, RunsIn;
    match c.stage
    case InLevel0(left) =>
      if left > 0 {
        NewestUnfolds(c.snapshot[0][..left], c.key);
        assert c.snapshot[0][..left][..left - 1] == c.snapshot[0][..left - 1];
      } else {
        NoNewest(c.snapshot[0][..0], c.key);
      }
    case InLevel(l) => LevelUnfolds(c.snapshot, l, c.key);
    case _ => WholeLevel0(c.snapshot, c.key);
  }

  lemma NoNewest(files: seq<File>, u: Bytes)
    requires files == []
    ensures FindNewest(RunsIn(files), u) == None
  {}

  lemma LevelUnfolds(levels: LevelFiles, l: nat, u: Bytes)
    ensures FindFrom(LevelRuns(levels), l, u)
            == if l >= 4 then None else Orelse(FindInLevel(RunsIn(levels[l]), u), FindFrom(LevelRuns(levels), l + 1, u))
  {
    hide FindInLevel, RunsIn;
  }

  lemma WholeLevel0(levels: LevelFiles, u: Bytes)
    ensures TableGet(levels, u)
            == Orelse(FindNewest(RunsIn(levels[0][..|levels[0]|]), u), FindFrom(LevelRuns(levels), 1, u))
  {
    hide FindNewest, FindFrom;
    assert levels[0][..|levels[0]|] == levels[0];
  }

  /** A Get starts with the answer of the whole store at the moment of its snapshot. */
  lemma StartsWithAnswer(s: State, key: Bytes)
    requires Inv(s) && Plain(key)
    ensures var t := BeginRead(s, key, InMem);
            && ClientWired(t.clients[|s.clients|], |t.mems|)
            && Remaining(t.mems, t.clients[|s.clients|]) == MapAnswer(t.model, key)
            && t.clients[|s.clients|].immRef != Some(t.mem)
  {
    hide MemGet, ImmGet, TableGet, Plain, RefAll, MemsHeld, AllFiles, Answer, Durable, Counted, LevelsOk, FlushOk,
      CompactionOk;
    assert DbAnswer(s, key) == MapAnswer(s.model, key);
  }

  // ---- One step of the machine, seen by a Get ----

  /** What never changes about a Get, and that its imm_ is not the table that is written to. */
  ghost predicate SameGet(c: Client, d: Client, mem: nat)
  {
    && d.key == c.key && d.memRef == c.memRef && d.immRef == c.immRef && d.snapshot == c.snapshot
    && d.immRef != Some(mem)
  }

  /** The history of a memory table a Get may read only grows, and only while it is mem_. */
  ghost predicate OnlyMemGrows(s: State, t: State)
  {
    && |s.mems| <= |t.mems|
    && (forall i :: 0 <= i < |s.mems| && i != s.mem ==> t.mems[i] == s.mems[i])
    && (t.mem == s.mem || t.mem >= |s.mems|)
  }

  lemma SameMemsSameRemaining(m: seq<History>, n: seq<History>, c: Client)
    requires ClientWired(c, |m|) && |m| <= |n|
    requires n[c.memRef] == m[c.memRef] && (c.immRef.Some? ==> n[c.immRef.value] == m[c.immRef.value])
    ensures ClientWired(c, |n|) && Remaining(n, c) == Remaining(m, c)
  {
    hide MemGet, TableGet, FindNewest, FindFrom, Answer;
  }

  /** A write to another key, or to a table the Get does not read, is invisible; one to its key in its mem_ makes
      it answer like the map after the write. */
  lemma WriteSeen(s: State, k: Bytes, v: Bytes, kind: byte, t: ValueType, i: nat)
    requires Inv(s) && MayWrite(s, k, v) && |s.mems[s.mem]| < MAX_SEQUENCE
    requires i < |s.clients| && Plain(s.clients[i].key) && s.clients[i].immRef != Some(s.mem)
    ensures var w, c := Write(s, k, v, kind, t), s.clients[i];
            && ClientWired(c, |w.mems|)
            && (Remaining(w.mems, c) == Remaining(s.mems, c) || Remaining(w.mems, c) == MapAnswer(w.model, c.key))
  {
    hide MemGet, TableGet, FindNewest, FindFrom, Plain, Durable, Counted, LevelsOk, FlushOk, CompactionOk,
      Faithful, AnswersOk, MakeInternalKey, Wal.Encode, MapPut, Answer, DbAnswer;
    var c := s.clients[i];
    var w := Write(s, k, v, kind, t);
    if c.memRef != s.mem {
      SameMemsSameRemaining(s.mems, w.mems, c);
    } else {
      AddAnswers(s.mems[s.mem], k, v, c.key);
      MapPutAnswer(s.model, k, v, c.key);
    }
  }

  lemma MemsStep(s: State, a: Action)
    requires Inv(s) && Enabled(s, a)
    ensures OnlyMemGrows(s, Do(s, a))
    ensures !a.PutAction? && !a.DeleteAction? ==> forall i :: 0 <= i < |s.mems| ==> Do(s, a).mems[i] == s.mems[i]
  {
    hide Consistent, Durable, Counted, MayWrite, Rightful, RefAll, MemsHeld, AllFiles, LiveEntries, SortFiles,
      EraseIndices, Erased, RemoveEach, UnrefAll, NumberSet, FlushTable, Searched, FlagsFor, Flagged, Selected,
      MinKey, MaxKey, OpenLevels, Replay, SequenceAfter, NewMany, LogRecords, MapPut, Wal.Encode, Numbers, Ids;
    WiredOf(s);
  }

  lemma WiredOf(s: State)
    requires Inv(s)
    ensures Wired(s)
  {}

  /** A step that is not this Get's own search changes none of its fields but what it still has to release. */
  lemma OthersStep(s: State, a: Action, i: nat)
    requires Inv(s) && Enabled(s, a) && i < |s.clients| && a != SearchAction(i)
    ensures i < |Do(s, a).clients|
    ensures var c, d := s.clients[i], Do(s, a).clients[i];
            d.key == c.key && d.memRef == c.memRef && d.immRef == c.immRef && d.snapshot == c.snapshot && d.stage == c.stage
  {
    hide Consistent, Durable, Counted, MayWrite, Rightful, RefAll, MemsHeld, AllFiles, LiveEntries, SortFiles,
      EraseIndices, Erased, RemoveEach, UnrefAll, NumberSet, FlushTable, Searched, FlagsFor, Flagged, Selected,
      MinKey, MaxKey, OpenLevels, Replay, SequenceAfter, NewMany, LogRecords, MapPut, Wal.Encode, Numbers, Ids;
    WiredOf(s);
  }

  lemma GetStep(s: State, a: Action, i: nat)
    requires Inv(s) && Enabled(s, a) && i < |s.clients| && Plain(s.clients[i].key) && s.clients[i].immRef != Some(s.mem)
    ensures var t, c := Do(s, a), s.clients[i];
            && Inv(t) && i < |t.clients| && SameGet(c, t.clients[i], t.mem)
            && (Remaining(t.mems, t.clients[i]) == Remaining(s.mems, c) || Remaining(t.mems, t.clients[i]) == MapAnswer(t.model, c.key))
  {
    hide Consistent, Durable, Counted, MayWrite, Rightful, Plain, Remaining, Searched, Do, Enabled;
    StepInv(s, a);
    WiredOf(s);
    WiredOf(Do(s, a));
    MemsStep(s, a);
    var c := s.clients[i];
    assert ClientWired(c, |s.mems|);
    if a == SearchAction(i) {
      DoesSearch(s, i);
      SearchStep(s, i);
    } else {
      OthersStep(s, a, i);
      var d := Do(s, a).clients[i];
      SameRemaining(Do(s, a).mems, c, d);
      if a.PutAction? || a.DeleteAction? {
        WriteStep(s, a, i);
      } else {
        SameMemsSameRemaining(s.mems, Do(s, a).mems, c);
      }
    }
  }

  lemma SameRemaining(mems: seq<History>, c: Client, d: Client)
    requires ClientWired(c, |mems|) && ClientWired(d, |mems|)
    requires d.key == c.key && d.memRef == c.memRef && d.immRef == c.immRef && d.snapshot == c.snapshot && d.stage == c.stage
    ensures Remaining(mems, d) == Remaining(mems, c)
  {}

  lemma SearchStep(s: State, i: nat)
    requires Wired(s) && i < |s.clients|
    ensures var t, c := StepRead(s, i), s.clients[i];
            && t.mem == s.mem && t.clients[i] == c.(stage := Searched(s.mems, c)) && t.mems == s.mems
            && ClientWired(t.clients[i], |t.mems|) && Remaining(t.mems, t.clients[i]) == Remaining(s.mems, c)
  {
    hide Searched, Remaining;
    SearchKeepsRemaining(s.mems, s.clients[i]);
  }

  lemma DoesSearch(s: State, i: nat)
    requires Wired(s) && Enabled(s, SearchAction(i))
    ensures i < |s.clients| && Do(s, SearchAction(i)) == StepRead(s, i)
  {
    hide StepRead;
  }

  lemma WriteStep(s: State, a: Action, i: nat)
    requires Inv(s) && Enabled(s, a) && (a.PutAction? || a.DeleteAction?)
    requires i < |s.clients| && Plain(s.clients[i].key) && s.clients[i].immRef != Some(s.mem)
    ensures var t, c := Do(s, a), s.clients[i];
            && ClientWired(c, |t.mems|)
            && (Remaining(t.mems, c) == Remaining(s.mems, c) || Remaining(t.mems, c) == MapAnswer(t.model, c.key))
  {
    hide Consistent, Durable, Counted, Remaining, Plain, Write, MayWrite;
    WiredOf(s);
    match a
    case PutAction(k, v) =>
      WriteInv(s, k, v, Wal.PUT, Value);
      WriteSeen(s, k, v, Wal.PUT, Value, i);
    case DeleteAction(k) =>
      WriteInv(s, k, [], Wal.DELETE, Deletion);
      WriteSeen(s, k, [], Wal.DELETE, Deletion, i);
    case _ => {}
  }

  // ---- Every Get in every run ----

  /** In a run, client `c` is a Get whose snapshot was taken by the step that led to state `b`. */
  ghost predicate GetBegun(trace: seq<State>, b: nat, c: nat, key: Bytes)
  {
    && 0 < b < |trace| && |trace[b - 1].clients| == c
    && Wired(trace[b - 1]) && trace[b] == BeginRead(trace[b - 1], key, InMem)
  }

  /** What a plain map held for the key at some moment from state `b` to state `n`. */
  ghost predicate HeldBetween(trace: seq<State>, b: nat, n: nat, key: Bytes, r: Option<Bytes>)
    requires b <= n < |trace|
  {
    exists k :: b <= k <= n && MapAnswer(trace[k].model, key) == r
  }

  lemma {:induction false} SearchIsOnCourse(trace: seq<State>, b: nat, n: nat, c: nat, key: Bytes)
    requires IsRun(trace) && GetBegun(trace, b, c, key) && b <= n < |trace| && Plain(key)
    ensures Inv(trace[n]) && c < |trace[n].clients|
    ensures var d := trace[n].clients[c];
            && d.key == key && d.immRef != Some(trace[n].mem)
            && ClientWired(d, |trace[n].mems|)
            && HeldBetween(trace, b, n, key, Remaining(trace[n].mems, d))
    decreases n
  {
    hide Inv, Plain, Remaining, BeginRead, Enabled, Do, Init, MapAnswer;
    if n == b {
      RunInv(trace, b - 1);
      RunInv(trace, b);
      StartsWithAnswer(trace[b - 1], key);
      BeginReadAdds(trace[b - 1], key);
    } else {
      SearchIsOnCourse(trace, b, n - 1, c, key);
      var s, t := trace[n - 1], trace[n];
      assert Next(s, t);
      var a :| Enabled(s, a) && t == Do(s, a);
      GetStep(s, a, c);
      WiredOf(t);
      var k :| b <= k <= n - 1 && MapAnswer(trace[k].model, key) == Remaining(s.mems, s.clients[c]);
    }
  }

  lemma BeginReadAdds(s: State, key: Bytes)
    ensures var t := BeginRead(s, key, InMem);
            |t.clients| == |s.clients| + 1 && t.clients[|s.clients|].key == key
  {}

  /** Every Get returns what a plain map held for its key at some moment between its snapshot and its return. */
  lemma GetIsLinearizable(trace: seq<State>, b: nat, n: nat, c: nat, key: Bytes)
    requires IsRun(trace) && GetBegun(trace, b, c, key) && b <= n < |trace| && Plain(key)
    ensures c < |trace[n].clients|
    ensures trace[n].clients[c].stage.Returned? ==> HeldBetween(trace, b, n, key, trace[n].clients[c].stage.result)
  {
    hide Inv, IsRun, GetBegun, Plain;
    SearchIsOnCourse(trace, b, n, c, key);
  }

  /** Bound on the steps a search still takes. */
  function StepsLeft(c: Client): nat
  {
    match c.stage
    case InMem => |c.snapshot[0]| + 8
    case InImm => |c.snapshot[0]| + 7
    case InLevel0(left) => left + 6
    case InLevel(l) => if l >= 4 then 1 else 5 - l
    case _ => 0
  }

  /** So no Get waits for anybody: each of its steps brings it closer to its return. */
  lemma SearchEnds(mems: seq<History>, c: Client)
    requires ClientWired(c, |mems|) && !c.stage.Returned? && !c.stage.Walking?
    ensures StepsLeft(c.(stage := Searched(mems, c))) < StepsLeft(c)
  {
    hide MemGet, ImmGet, Lookup, FindInLevel, Answer;
  }
}
