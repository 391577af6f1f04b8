/** What an iterator over the whole store yields (DB::NewIterator in src/db.cc), when nothing is written meanwhile. */
module DatabaseWalks {
  import opened Slices
  import opened Coding
  import opened Entries
  import opened InternalKeys
  import opened MemTables
  import opened Merging
  import opened Levels
  import opened Compactions
  import opened CompactionOutputs
  import opened CompactionResults
  import opened Databases
  import opened DatabaseAnswers
  import opened DatabaseRecovery
  import opened DatabaseRuns

  function PendingRuns(mems: seq<History>, imm: Option<nat>): seq<History>
    requires imm.Some? ==> imm.value < |mems|
  {
    if imm.Some? then [mems[imm.value]] else []
  }

  /** The memory tables of a state, mem_ first. */
  function Histories(s: State): seq<History>
    requires Wired(s)
  {
    [s.mems[s.mem]] + PendingRuns(s.mems, s.imm)
  }

  function StoredAll(hs: seq<History>): (runs: Runs)
    ensures |runs| == |hs|
  {
    seq(|hs|, i requires 0 <= i < |hs| => Stored(hs[i]))
  }

  function FlushAll(hs: seq<History>): (runs: seq<Run>)
    ensures |runs| == |hs|
  {
    seq(|hs|, i requires 0 <= i < |hs| => FlushEntries(hs[i]))
  }

  /** The children, in the order in which NewIterator collects them, with internal keys. */
  function Children(s: State): Runs
    requires Wired(s)
  {
    StoredAll(Histories(s)) + NumberedAll(RunsIn(AllFiles(s.levels)))
  }

  /** The same entries under their user keys. */
  function Snapshot(s: State): seq<Run>
    requires Wired(s)
  {
    FlushAll(Histories(s)) + RunsIn(AllFiles(s.levels))
  }

  function StripAll(out: seq<Entry>): (es: seq<Entry>)
    ensures |es| == |out|
  {
    seq(|out|, i requires 0 <= i < |out| => Strip(out[i]))
  }

  /** What the iterator yields from beginning to end, under user keys. */
  function Walk(s: State): seq<Entry>
    requires Wired(s)
  {
    StripAll(Merge(Children(s)))
  }

  /** A full run of the merge over the children. */
  method WalkAll(s: State) returns (out: seq<Entry>)
    requires Wired(s)
    ensures StripAll(out) == Walk(s)
  {
    hide Merge, Stored, Numbered;
    var runs := Children(s);
    out := Drain(seq(|runs|, i requires 0 <= i < |runs| => Cursor(runs[i], 0)), runs);
  }

  // ---- The children ----

  lemma StoredIsSorted(h: History)
    requires PlainEntries(h)
    ensures RunSorted(Stored(h))
  {
    hide Less, Stored, Version, ExtractUserKey, Plain, WellKeyed;
    FlushEntriesSorted(h);
    var s := Stored(h);
    forall i | 0 <= i < |s|
      ensures WellKeyed(s[i]) && ExtractUserKey(s[i].key) == FlushEntries(h)[i].key
    {
      var a := StoredIndex(h, i);
      VersionIsWellKeyed(h, a);
      assert s[i] == Entry(Version(h, a), h[a].value);
    }
  }

  /** Child by child and entry by entry the children are the snapshot. */
  lemma ChildrenStrip(s: State, i: nat)
    requires Wired(s) && i < |Children(s)|
    ensures |Children(s)| == |Snapshot(s)| && |Children(s)[i]| == |Snapshot(s)[i]|
    ensures forall a :: 0 <= a < |Children(s)[i]| ==> Strip(Children(s)[i][a]) == Snapshot(s)[i][a]
  {
    hide Stored, FlushEntries, Numbered, Strip, Histories, AllFiles, RunsIn;
    var n := |Histories(s)|;
    if i < n {
      StoredChild(Histories(s)[i]);
    } else {
      NumberedChild(RunsIn(AllFiles(s.levels))[i - n]);
    }
  }

  lemma StoredChild(h: History)
    ensures |Stored(h)| == |FlushEntries(h)|
    ensures forall a :: 0 <= a < |Stored(h)| ==> Strip(Stored(h)[a]) == FlushEntries(h)[a]
  {
    hide Stored;
  }

  lemma NumberedChild(t: Run)
    requires |t| <= MAX_SEQUENCE
    ensures |Numbered(t)| == |t| && forall a :: 0 <= a < |t| ==> Strip(Numbered(t)[a]) == t[a]
  {
    hide Version, Strip;
    forall a | 0 <= a < |t| ensures Strip(Numbered(t)[a]) == t[a] { StripVersion(t, a); }
  }

  lemma ChildrenSorted(s: State)
    requires Consistent(s)
    ensures forall i :: 0 <= i < |Children(s)| ==> RunSorted(Children(s)[i])
  {
    hide Stored, Numbered, RunSorted, Faithful, DbAnswer, CompactionOk, AnswersOk, UserSorted, PlainEntries;
    FilesAreGood(s.levels);
    var hs, files := Histories(s), RunsIn(AllFiles(s.levels));
    forall i | 0 <= i < |Children(s)|
      ensures RunSorted(Children(s)[i])
    {
      if i < |hs| {
        FaithfulSize(hs[i]);
        StoredIsSorted(hs[i]);
      } else {
        NumberedIsSorted(files[i - |hs|]);
      }
    }
  }

  lemma FilesAreGood(levels: LevelFiles)
    requires LevelsOk(levels)
    ensures forall i :: 0 <= i < |RunsIn(AllFiles(levels))| ==> GoodTable(RunsIn(AllFiles(levels))[i])
    ensures RunsIn(AllFiles(levels)) == RunsIn(levels[0]) + RunsIn(levels[1])
  {
    hide GoodTable, Less;
    var all := AllFiles(levels);
    assert all == levels[0] + levels[1];
    forall i | 0 <= i < |all| ensures GoodTable(all[i].run) {
      if i < |levels[0]| { assert all[i].run == RunsIn(levels[0])[i]; }
      else { assert all[i].run == RunsIn(levels[1])[i - |levels[0]|]; }
    }
  }

  // ---- The walk ----

  /** Exactly the entries of the snapshot. */
  lemma WalkMembers(s: State, e: Entry)
    requires Wired(s)
    ensures e in Walk(s) <==> Holds(Snapshot(s), e)
  {
    hide Merge, Strip, Children, Snapshot;
    var runs := Children(s);
    SomeChild(s);
    ChildrenStrip(s, 0);
    if e in Walk(s) {
      var k :| 0 <= k < |Walk(s)| && Walk(s)[k] == e;
      var x := Merge(runs)[k];
      assert x in Merge(runs);
      MergeMembers(runs, x);
      var i :| 0 <= i < |runs| && x in runs[i];
      var a :| 0 <= a < |runs[i]| && runs[i][a] == x;
      ChildrenStrip(s, i);
      assert Snapshot(s)[i][a] == e;
    }
    if Holds(Snapshot(s), e) {
      var i :| 0 <= i < |Snapshot(s)| && e in Snapshot(s)[i];
      var a :| 0 <= a < |Snapshot(s)[i]| && Snapshot(s)[i][a] == e;
      ChildrenStrip(s, i);
      var x := runs[i][a];
      assert x in runs[i];
      MergeMembers(runs, x);
      var k :| 0 <= k < |Merge(runs)| && Merge(runs)[k] == x;
      assert Walk(s)[k] == e;
    }
  }

  lemma SomeChild(s: State)
    requires Wired(s)
    ensures Children(s) != []
  {
    hide Stored, Numbered;
  }

  // ---- Every entry once ----

  function FileEntries(files: seq<File>): multiset<Entry>
  {
    if files == [] then multiset{}
    else FileEntries(files[..|files| - 1]) + multiset(files[|files| - 1].run)
  }

  /** Everything that mem_, imm_ and the files of the four levels hold, each entry as often as they hold it. */
  function Held(s: State): multiset<Entry>
    requires Wired(s)
  {
    multiset(FlushEntries(s.mems[s.mem]))
    + (if s.imm.Some? then multiset(FlushEntries(s.mems[s.imm.value])) else multiset{})
    + FileEntries(s.levels[0]) + FileEntries(s.levels[1]) + FileEntries(s.levels[2]) + FileEntries(s.levels[3])
  }

  /** No key is held in two versions, or twice. */
  ghost predicate OneVersionEach(held: multiset<Entry>)
  {
    && (forall e :: e in held ==> held[e] == 1)
    && forall e, f :: e in held && f in held && e.key == f.key ==> e == f
  }

  function Stripped(rest: Runs): (runs: seq<seq<Entry>>)
    ensures |runs| == |rest|
  {
    seq(|rest|, i requires 0 <= i < |rest| => StripAll(rest[i]))
  }

  function BagOf(runs: seq<seq<Entry>>): multiset<Entry>
  {
    if runs == [] then multiset{} else BagOf(runs[..|runs| - 1]) + multiset(runs[|runs| - 1])
  }

  /** The merge emits every entry of its children as often as they hold it. */
  lemma {:induction false} MergeBag(rest: Runs)
    ensures multiset(StripAll(Merge(rest))) == BagOf(Stripped(rest))
    decreases Total(rest)
  {
    hide Strip, Ahead, BagOf, StripAll, Stripped, Merge, Total;
    match LeastFrom(rest, 0)
    case None => NothingToStrip(rest);
    case Some(p) =>
      TotalAdvance(rest, p);
      var next := Advance(rest, p);
      MergeBag(next);
      MergeUnfolds(rest, p);
      StripHead(rest[p][0], Merge(next));
      StripAdvance(rest, p);
      BagLess(Stripped(rest), p, Strip(rest[p][0]), StripAll(rest[p][1..]));
      BagHead(Strip(rest[p][0]), StripAll(Merge(next)));
  }

  lemma BagHead(head: Entry, tail: seq<Entry>)
    ensures multiset([head] + tail) == multiset{head} + multiset(tail)
  {}

  lemma StripHead(head: Entry, tail: seq<Entry>)
    ensures StripAll([head] + tail) == [Strip(head)] + StripAll(tail)
  {
    hide Strip;
  }

  lemma StripAdvance(rest: Runs, p: nat)
    requires p < |rest| && rest[p] != []
    ensures Stripped(rest)[p] == [Strip(rest[p][0])] + StripAll(rest[p][1..])
    ensures Stripped(Advance(rest, p)) == Stripped(rest)[p := StripAll(rest[p][1..])]
  {
    hide Strip, StripAll;
    assert rest[p] == [rest[p][0]] + rest[p][1..];
    StripHead(rest[p][0], rest[p][1..]);
  }

  lemma NothingToStrip(rest: Runs)
    requires LeastFrom(rest, 0) == None
    ensures multiset(StripAll(Merge(rest))) == BagOf(Stripped(rest))
  {
    hide Ahead, Strip;
    forall i | 0 <= i < |rest| ensures Stripped(rest)[i] == [] {
      if rest[i] != [] { LeastFromIsLeast(rest, 0, i); }
    }
    EmptyBag(Stripped(rest));
  }

  lemma {:induction false} EmptyBag(runs: seq<seq<Entry>>)
    requires forall i :: 0 <= i < |runs| ==> runs[i] == []
    ensures BagOf(runs) == multiset{}
  {
    if runs != [] { EmptyBag(runs[..|runs| - 1]); }
  }

  lemma {:induction false} BagLess(runs: seq<seq<Entry>>, p: nat, head: Entry, tail: seq<Entry>)
    requires p < |runs| && runs[p] == [head] + tail
    ensures BagOf(runs) == multiset{head} + BagOf(runs[p := tail])
  {
    var n := |runs| - 1;
    var less := runs[p := tail];
    if p < n {
      BagLess(runs[..n], p, head, tail);
      assert less[..n] == runs[..n][p := tail];
    } else {
      assert less[..n] == runs[..n];
    }
  }

  lemma {:induction false} BagOfFiles(before: seq<seq<Entry>>, files: seq<File>)
    ensures BagOf(before + RunsIn(files)) == BagOf(before) + FileEntries(files)
  {
    hide BagOf, RunsIn;
    if files == [] {
      assert before + RunsIn(files) == before;
    } else {
      var n := |files| - 1;
      BagOfFiles(before, files[..n]);
      RunsAppend(files[..n], files[n]);
      assert files[..n] + [files[n]] == files;
      BagMore(before + RunsIn(files[..n]), files[n].run);
      assert before + RunsIn(files) == before + RunsIn(files[..n]) + [files[n].run];
    }
  }

  lemma BagMore(runs: seq<seq<Entry>>, t: seq<Entry>)
    ensures BagOf(runs + [t]) == BagOf(runs) + multiset(t)
  {
    assert (runs + [t])[..|runs|] == runs;
  }

  lemma BagOfMems(mem: Run, rest: seq<Run>)
    requires |rest| <= 1
    ensures BagOf([mem] + rest) == multiset(mem) + if rest == [] then multiset{} else multiset(rest[0])
  {
    var all: seq<seq<Entry>> := [mem] + rest;
    assert BagOf([]) == multiset{};
    assert [mem][..0] == [];
    assert BagOf([mem]) == BagOf([]) + multiset(mem);
    if rest == [] {
      assert all == [mem];
    } else {
      assert all[..1] == [mem];
    }
  }

  /** The walk yields exactly what is held, every entry as often as it is held. */
  lemma WalkYields(s: State)
    requires Wired(s)
    ensures multiset(Walk(s)) == Held(s)
  {
    hide Merge, Strip, FlushEntries, Stored, Numbered, RunsIn, FileEntries, BagOf;
    MergeBag(Children(s));
    StrippedIsSnapshot(s);
    var mems, ls := FlushAll(Histories(s)), s.levels;
    var pending: seq<Run> := FlushAll(PendingRuns(s.mems, s.imm));
    assert mems == [FlushEntries(s.mems[s.mem])] + pending;
    BagOfMems(FlushEntries(s.mems[s.mem]), pending);
    LevelBags(mems, ls);
  }

  lemma LevelBags(mems: seq<Run>, ls: LevelFiles)
    ensures BagOf(mems + RunsIn(AllFiles(ls)))
            == BagOf(mems) + FileEntries(ls[0]) + FileEntries(ls[1]) + FileEntries(ls[2]) + FileEntries(ls[3])
  {
    hide BagOf, FileEntries, RunsIn;
    FlatParts(ls);
    var a: seq<seq<Entry>> := mems + RunsIn(ls[0]);
    var b: seq<seq<Entry>> := a + RunsIn(ls[1]);
    var c: seq<seq<Entry>> := b + RunsIn(ls[2]);
    BagOfFiles(mems, ls[0]);
    BagOfFiles(a, ls[1]);
    BagOfFiles(b, ls[2]);
    BagOfFiles(c, ls[3]);
    assert mems + RunsIn(AllFiles(ls)) == c + RunsIn(ls[3]);
  }

  lemma StrippedIsSnapshot(s: State)
    requires Wired(s)
    ensures Stripped(Children(s)) == Snapshot(s)
  {
    hide Children, Snapshot, Strip;
    SomeChild(s);
    ChildrenStrip(s, 0);
    forall i | 0 <= i < |Children(s)| ensures StripAll(Children(s)[i]) == Snapshot(s)[i] { ChildrenStrip(s, i); }
  }

  /** Layer `i` of the store: mem_, then imm_ if there is one, then the files from level 0 down. */
  function Layer(s: State, i: nat): Run
    requires Wired(s) && i < (if s.imm.Some? then 2 else 1) + |AllFiles(s.levels)|
  {
    if i == 0 then FlushEntries(s.mems[s.mem])
    else if s.imm.Some? then
      if i == 1 then FlushEntries(s.mems[s.imm.value]) else AllFiles(s.levels)[i - 2].run
    else AllFiles(s.levels)[i - 1].run
  }

  /** It interleaves the layers: what came from child `i` is layer `i` in its own order. */
  lemma WalkInterleaves(s: State, i: nat)
    requires Wired(s) && i < (if s.imm.Some? then 2 else 1) + |AllFiles(s.levels)|
    ensures |Sources(Children(s))| == |Walk(s)|
    ensures forall k :: 0 <= k < |Walk(s)| ==>
              Sources(Children(s))[k] < (if s.imm.Some? then 2 else 1) + |AllFiles(s.levels)|
    ensures Project(Walk(s), Sources(Children(s)), i) == Layer(s, i)
  {
    hide Merge, Sources, Project, Strip, FlushEntries, Stored, Numbered, AllFiles, StripAll;
    StrippedIsSnapshot(s);
    MergeInterleaves(Children(s), i);
    ProjectStripped(Merge(Children(s)), Sources(Children(s)), i);
    assert Stripped(Children(s))[i] == StripAll(Children(s)[i]);
    assert Snapshot(s)[i] == Layer(s, i);
  }

  lemma {:induction false} ProjectStripped(out: seq<Entry>, from: seq<nat>, i: nat)
    requires |out| == |from|
    ensures Project(StripAll(out), from, i) == StripAll(Project(out, from, i))
    decreases |out|
  {
    hide Strip;
    if out != [] {
      ProjectStripped(out[1..], from[1..], i);
      assert StripAll(out)[1..] == StripAll(out[1..]);
      if from[0] == i { StripHead(out[0], Project(out[1..], from[1..], i)); }
    }
  }

  /** In user-key order, and strictly when no key is held in two versions. */
  lemma WalkIsSorted(s: State)
    requires Consistent(s)
    ensures UserSorted(Walk(s))
    ensures OneVersionEach(Held(s)) ==> Sorted(Walk(s))
  {
    hide Merge, Less, WellKeyed, Children, ExtractUserKey, Consistent, Held;
    ConsistentIsWired(s);
    ChildrenSorted(s);
    MergeSorted(Children(s));
    if OneVersionEach(Held(s)) {
      WalkYields(s);
      var es := Walk(s);
      forall i, j | 0 <= i < j < |es| ensures Less(es[i].key, es[j].key) {
        LessTotal(es[i].key, es[j].key);
        if es[i].key == es[j].key { TwiceHeld(es, i, j); }
      }
    }
  }

  lemma TwiceHeld(es: seq<Entry>, i: nat, j: nat)
    requires i < j < |es| && es[i] == es[j]
    ensures multiset(es)[es[i]] > 1
  {
    assert es == es[..j] + [es[j]] + es[j + 1..];
    assert es[i] in es[..j];
  }

  lemma ConsistentIsWired(s: State)
    requires Consistent(s)
    ensures Wired(s) && LevelsOk(s.levels) && AnswersOk(s)
    ensures forall i :: 0 <= i < |s.mems| ==> Faithful(s.mems[i])
  {}

  // ---- The map ----

  lemma OrelseHeld(a: seq<Run>, b: seq<Run>, u: Bytes, x: Option<Bytes>, y: Option<Bytes>)
    requires HitIsHeld(a, u, x) && HitIsHeld(b, u, y)
    ensures HitIsHeld(a + b, u, Orelse(x, y))
  {
    hide Holds;
    forall v ensures Holds(a + b, Entry(u, v)) <==> Holds(a, Entry(u, v)) || Holds(b, Entry(u, v)) {
      HoldsEither(a, b, Entry(u, v));
    }
  }

  lemma HoldsEither(a: seq<Run>, b: seq<Run>, e: Entry)
    ensures Holds(a + b, e) <==> Holds(a, e) || Holds(b, e)
  {
    if i :| 0 <= i < |a| && e in a[i] { assert e in (a + b)[i]; }
    if i :| 0 <= i < |b| && e in b[i] { assert e in (a + b)[|a| + i]; }
    if i :| 0 <= i < |a + b| && e in (a + b)[i] { assert if i < |a| then e in a[i] else e in b[i - |a|]; }
  }

  lemma MemHeld(h: History, u: Bytes)
    requires Faithful(h) && Plain(u)
    ensures HitIsHeld([FlushEntries(h)], u, MemGet(h, u))
  {
    hide FlushEntries, MemGet, Lookup, Faithful, Plain;
    FaithfulSize(h);
    FlushPreservesLookups(h, u);
    var t := FlushEntries(h);
    LookupIsHeld(t, u);
    forall v ensures Holds([t], Entry(u, v)) <==> Entry(u, v) in t {
      assert [t][0] == t;
    }
  }

  /** What a lookup in the store finds is what the snapshot holds. */
  lemma SnapshotAnswers(s: State, u: Bytes)
    requires Consistent(s) && Plain(u)
    ensures HitIsHeld(Snapshot(s), u,
                      Orelse(MemGet(s.mems[s.mem], u), Orelse(ImmGet(s.mems, s.imm, u), TableGet(s.levels, u))))
  {
    hide FlushAll, PendingRuns, MemGet, TableGet, ImmGet, Faithful, Plain, Consistent, HitIsHeld, AnswersOk, LevelsOk, RunsIn,
      AllFiles;
    ConsistentIsWired(s);
    LayersHeld(s.mems[s.mem], s.mems, s.imm, s.levels, u);
  }

  lemma LayersHeld(newest: History, mems: seq<History>, imm: Option<nat>, levels: LevelFiles, u: Bytes)
    requires (imm.Some? ==> imm.value < |mems| && Faithful(mems[imm.value])) && Faithful(newest)
    requires LevelsOk(levels) && Plain(u)
    ensures HitIsHeld(FlushAll([newest] + PendingRuns(mems, imm)) + RunsIn(AllFiles(levels)), u,
                      Orelse(MemGet(newest, u), Orelse(ImmGet(mems, imm, u), TableGet(levels, u))))
  {
    hide FlushEntries, PendingRuns, MemGet, TableGet, ImmGet, Faithful, Plain, HitIsHeld, LevelsOk, RunsIn, AllFiles;
    TablesHeld(levels, u);
    MemHeld(newest, u);
    PendingHeld(mems, imm, u);
    var pending, tables := FlushAll(PendingRuns(mems, imm)), RunsIn(AllFiles(levels));
    OrelseHeld(pending, tables, u, ImmGet(mems, imm, u), TableGet(levels, u));
    OrelseHeld([FlushEntries(newest)], pending + tables, u, MemGet(newest, u), Orelse(ImmGet(mems, imm, u), TableGet(levels, u)));
    assert FlushAll([newest] + PendingRuns(mems, imm)) + tables == [FlushEntries(newest)] + (pending + tables);
  }

  lemma TablesHeld(levels: LevelFiles, u: Bytes)
    requires LevelsOk(levels)
    ensures HitIsHeld(RunsIn(AllFiles(levels)), u, TableGet(levels, u))
  {
    hide FindNewest, FindInLevel, HitIsHeld, OrderedLevel, GoodTables, RunsIn, AllFiles;
    TwoLevels(levels, u);
    NewestIsHeld(RunsIn(levels[0]), u);
    LevelIsHeld(RunsIn(levels[1]), u);
    FilesAreGood(levels);
    OrelseHeld(RunsIn(levels[0]), RunsIn(levels[1]), u, FindNewest(RunsIn(levels[0]), u), FindInLevel(RunsIn(levels[1]), u));
  }

  lemma PendingHeld(mems: seq<History>, imm: Option<nat>, u: Bytes)
    requires (imm.Some? ==> imm.value < |mems| && Faithful(mems[imm.value])) && Plain(u)
    ensures HitIsHeld(FlushAll(PendingRuns(mems, imm)), u, ImmGet(mems, imm, u))
  {
    hide FlushEntries, MemGet, Faithful, Plain;
    if imm.Some? {
      MemHeld(mems[imm.value], u);
      assert FlushAll(PendingRuns(mems, imm)) == [FlushEntries(mems[imm.value])];
    }
  }

  /** When no key is held in two versions the walk is the map and its deletions: strictly in key order, and looking a
      key up in it answers as the map does. */
  lemma WalkIsTheMap(s: State, u: Bytes)
    requires Consistent(s) && OneVersionEach(Held(s)) && Plain(u)
    ensures Sorted(Walk(s)) && Answer(Lookup(Walk(s), u)) == MapAnswer(s.model, u)
  {
    hide Walk, Snapshot, Held, Lookup, MemGet, ImmGet, TableGet, Plain, Consistent, Holds, Less;
    ConsistentIsWired(s);
    WalkIsSorted(s);
    WalkYields(s);
    SnapshotAnswers(s, u);
    var hit := Orelse(MemGet(s.mems[s.mem], u), Orelse(ImmGet(s.mems, s.imm, u), TableGet(s.levels, u)));
    LookupIsHeld(Walk(s), u);
    var found := Lookup(Walk(s), u);
    if found.Some? { WalkMembers(s, Entry(u, found.value)); }
    if hit.Some? { WalkMembers(s, Entry(u, hit.value)); }
    if found.Some? && hit.Some? {
      assert Entry(u, found.value) in Held(s) && Entry(u, hit.value) in Held(s);
    }
    assert DbAnswer(s, u) == MapAnswer(s.model, u);
  }

  /** So it is in every reachable state. */
  lemma EveryWalkIsTheMap(trace: seq<State>, i: nat, u: Bytes)
    requires IsRun(trace) && i < |trace| && Plain(u)
    ensures Wired(trace[i])
    ensures UserSorted(Walk(trace[i])) && multiset(Walk(trace[i])) == Held(trace[i])
    ensures OneVersionEach(Held(trace[i])) ==>
              Sorted(Walk(trace[i])) && Answer(Lookup(Walk(trace[i]), u)) == MapAnswer(trace[i].model, u)
  {
    hide Walk, Held, OneVersionEach, Consistent, Plain, MapAnswer, Lookup;
    RunInv(trace, i);
    ConsistentIsWired(trace[i]);
    WalkIsSorted(trace[i]);
    WalkYields(trace[i]);
    if OneVersionEach(Held(trace[i])) { WalkIsTheMap(trace[i], u); }
  }
}
