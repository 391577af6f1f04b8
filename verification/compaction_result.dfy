/** The level 1 that a compaction leaves, and why every lookup answers as before
    (the commit of DB::BackgroundCompaction in src/db.cc). */
module CompactionResults {
  import opened Slices
  import opened Coding
  import opened Entries
  import opened InternalKeys
  import opened Levels
  import opened Merging
  import opened Compactions
  import opened CompactionOutputs
  import opened Survivors

  /** An open table: which object it is, the number in its file's name, and the entries it was built from. */
  datatype File = File(id: nat, number: nat, run: Table)

  function RunsIn(files: seq<File>): (runs: seq<Run>)
    ensures |runs| == |files| && ShortTables(runs)
  {
    seq(|files|, i requires 0 <= i < |files| => files[i].run)
  }

  // ---- Sorting level 1 by first key ----

  function SortIn(f: File, files: seq<File>): (r: seq<File>)
    ensures multiset(r) == multiset([f] + files)
  {
    if files == [] || Less(FirstInternal(f.run), FirstInternal(files[0].run)) then [f] + files
    else
      assert files == [files[0]] + files[1..];
      [files[0]] + SortIn(f, files[1..])
  }

  /** The sort by FirstKey. */
  function SortFiles(files: seq<File>): (r: seq<File>)
    ensures multiset(r) == multiset(files)
  {
    if files == [] then []
    else
      assert files == [files[0]] + files[1..];
      SortIn(files[0], SortFiles(files[1..]))
  }

  ghost predicate Before(a: Run, b: Run)
  {
    Less(LastKey(a), FirstKey(b))
  }

  ghost predicate Apart(a: Run, b: Run)
  {
    Before(a, b) || Before(b, a)
  }

  ghost predicate Solid(t: Run)
  {
    t != [] && GoodTable(t)
  }

  ghost predicate AllSolid(files: seq<File>)
  {
    forall i :: 0 <= i < |files| ==> Solid(files[i].run)
  }

  ghost predicate PairwiseApart(files: seq<File>)
  {
    forall i, j :: 0 <= i < j < |files| ==> Apart(files[i].run, files[j].run)
  }

  ghost predicate InOrder(files: seq<File>)
  {
    forall i, j :: 0 <= i < j < |files| ==> Before(files[i].run, files[j].run)
  }

  lemma FirstKeysDecide(a: Run, b: Run)
    requires Solid(a) && Solid(b) && Apart(a, b)
    ensures Less(FirstInternal(a), FirstInternal(b)) <==> Before(a, b)
  {
    hide Less, Version, UserSorted, PlainEntries;
    FirstInternalIs(a);
    FirstInternalIs(b);
    RangeOrdered(a);
    RangeOrdered(b);
    LessIsStrictTotalOrder();
    if Before(a, b) { SolidOrder(b, a); } else { SolidOrder(a, b); }
  }

  lemma FirstInternalIs(a: Run)
    requires Solid(a)
    ensures WellKeyed(Entry(FirstInternal(a), [])) && ExtractUserKey(FirstInternal(a)) == FirstKey(a)
    ensures WellKeyed(Entry(LastInternal(a), [])) && ExtractUserKey(LastInternal(a)) == LastKey(a)
  {
    hide Version, WellKeyed;
    VersionIsWellKeyed(a, 0);
    VersionIsWellKeyed(a, |a| - 1);
    KeyedByKey(Entry(FirstInternal(a), a[0].value));
    KeyedByKey(Entry(LastInternal(a), a[|a| - 1].value));
  }

  lemma KeyedByKey(e: Entry)
    requires WellKeyed(e)
    ensures WellKeyed(Entry(e.key, []))
  {}

  /** Ordering internal first keys orders user first keys. */
  lemma SolidOrder(a: Run, b: Run)
    requires Solid(a) && Solid(b)
    ensures Less(FirstInternal(a), FirstInternal(b)) || FirstInternal(a) == FirstInternal(b)
            ==> !Less(FirstKey(b), FirstKey(a))
    ensures Less(LastInternal(a), FirstInternal(b)) ==> !Less(FirstKey(b), LastKey(a))
    ensures Less(LastInternal(a), LastInternal(b)) || LastInternal(a) == LastInternal(b)
            ==> !Less(LastKey(b), LastKey(a))
  {
    hide Less, WellKeyed, UserSorted, PlainEntries, FirstInternal, LastInternal;
    FirstInternalIs(a);
    FirstInternalIs(b);
    var fa, la, fb, lb := Entry(FirstInternal(a), []), Entry(LastInternal(a), []),
      Entry(FirstInternal(b), []), Entry(LastInternal(b), []);
    if Less(fa.key, fb.key) || fa.key == fb.key { KeyOrderGivesUserOrder(fa, fb); }
    if Less(la.key, fb.key) { KeyOrderGivesUserOrder(la, fb); }
    if Less(la.key, lb.key) || la.key == lb.key { KeyOrderGivesUserOrder(la, lb); }
  }

  lemma {:induction false} SortInOrders(f: File, files: seq<File>)
    requires Solid(f.run) && AllSolid(files) && InOrder(files)
    requires forall i :: 0 <= i < |files| ==> Apart(f.run, files[i].run)
    ensures AllSolid(SortIn(f, files)) && InOrder(SortIn(f, files))
  {
    hide Less, UserSorted, PlainEntries, Before, FirstInternal;
    if files != [] {
      FirstKeysDecide(f.run, files[0].run);
      var rest := files[1..];
      assert files == [files[0]] + rest;
      if Less(FirstInternal(f.run), FirstInternal(files[0].run)) {
        forall i | 0 < i < |files|
          ensures Before(f.run, files[i].run)
        {
          BeforeChains(f.run, files[0].run, files[i].run);
        }
        ConsInOrder(f, files);
      } else {
        SortInOrders(f, rest);
        var r := SortIn(f, rest);
        forall i | 0 <= i < |r|
          ensures Before(files[0].run, r[i].run)
        {
          assert r[i] in multiset(r);
          assert r[i] == f || r[i] in rest;
        }
        ConsInOrder(files[0], r);
      }
    }
  }

  lemma BeforeChains(a: Run, b: Run, c: Run)
    requires Solid(b) && Before(a, b) && Before(b, c)
    ensures Before(a, c)
  {
    hide Less, UserSorted, PlainEntries;
    RangeOrdered(b);
    LessIsStrictTotalOrder();
  }

  lemma ConsInOrder(f: File, files: seq<File>)
    requires Solid(f.run) && AllSolid(files) && InOrder(files)
    requires forall i :: 0 <= i < |files| ==> Before(f.run, files[i].run)
    ensures AllSolid([f] + files) && InOrder([f] + files)
  {
    hide Solid, Before;
  }

  /** Sorting files with pairwise disjoint key ranges puts them in order. */
  lemma {:induction false} SortOrders(files: seq<File>)
    requires AllSolid(files) && PairwiseApart(files)
    ensures AllSolid(SortFiles(files)) && InOrder(SortFiles(files))
  {
    hide Solid, Apart;
    if files != [] {
      var rest := files[1..];
      assert files == [files[0]] + rest;
      SortOrders(rest);
      var r := SortFiles(rest);
      forall i | 0 <= i < |r|
        ensures Apart(files[0].run, r[i].run)
      {
        assert r[i] in multiset(r);
        var j :| 0 <= j < |rest| && rest[j] == r[i];
        assert files[j + 1] == r[i];
      }
      SortInOrders(files[0], r);
    }
  }

  lemma OrderedFiles(files: seq<File>)
    ensures OrderedLevel(RunsIn(files)) <==> AllSolid(files) && InOrder(files)
  {
    hide Less, GoodTable;
    var runs := RunsIn(files);
    if OrderedLevel(runs) {
      forall i | 0 <= i < |files| ensures Solid(files[i].run) { assert files[i].run == runs[i]; }
      forall i, j | 0 <= i < j < |runs| ensures Before(files[i].run, files[j].run) {
        assert files[i].run == runs[i] && files[j].run == runs[j];
      }
    }
    if AllSolid(files) && InOrder(files) {
      forall i, j | 0 <= i < j < |runs|
        ensures Less(LastKey(runs[i]), FirstKey(runs[j]))
      {
        assert Before(files[i].run, files[j].run);
      }
    }
  }

  // ---- Files outside the overlap test ----

  lemma BesideLevel0(l0: seq<Run>, t: Run, i: nat, e: Entry)
    requires l0 != [] && ShortTables(l0) && Solid(t) && i < |l0| && GoodTable(l0[i]) && e in l0[i]
    requires forall x :: x in t ==> x.key != e.key
    ensures Less(MaxKey(l0), FirstInternal(t)) ==> Less(e.key, FirstKey(t))
    ensures Less(LastInternal(t), MinKey(l0)) ==> Less(LastKey(t), e.key)
  {
    hide Less, UserSorted, PlainEntries, FirstInternal, LastInternal, MaxKey, MinKey;
    LessIsStrictTotalOrder();
    HullBounds(l0, i);
    SolidOrder(l0[i], t);
    SolidOrder(t, l0[i]);
    WithinRange(l0[i], e);
    assert t[0] in t && t[|t| - 1] in t;
  }

  /** The same for a merged file of level 1 itself. */
  lemma BesideLevel1(minKey: Bytes, maxKey: Bytes, t: Run, s: Run, e: Entry)
    requires Solid(t) && Solid(s) && Apart(s, t) && Overlaps(minKey, maxKey, s) && e in s
    ensures Less(maxKey, FirstInternal(t)) ==> Less(e.key, FirstKey(t))
    ensures Less(LastInternal(t), minKey) ==> Less(LastKey(t), e.key)
  {
    hide Less, UserSorted, PlainEntries, FirstInternal, LastInternal;
    LessIsStrictTotalOrder();
    FirstKeysDecide(s, t);
    WithinRange(s, e);
    LastKeysDecide(t, s);
  }

  lemma LastKeysDecide(a: Run, b: Run)
    requires Solid(a) && Solid(b)
    ensures Before(b, a) ==> Less(LastInternal(b), LastInternal(a))
  {
    hide Less, UserSorted, PlainEntries, FirstInternal, LastInternal;
    LessIsStrictTotalOrder();
    SolidOrder(a, b);
    RangeOrdered(a);
  }

  /** The inputs of the merge: all of level 0, then the selected files of level 1. */
  function Inputs(l0: seq<File>, l1: seq<File>): (r: seq<File>)
    requires l0 != []
  {
    l0 + Merged(l0, l1)
  }

  /** The files of level 1 that are merged. */
  function Merged(l0: seq<File>, l1: seq<File>): seq<File>
    requires l0 != []
  {
    Flagged(l1, FlagsFor(l0, l1))
  }

  function FlagsFor(l0: seq<File>, l1: seq<File>): (flags: seq<bool>)
    requires l0 != []
    ensures |flags| == |l1|
  {
    OverlapFlags(RunsIn(l1), MinKey(RunsIn(l0)), MaxKey(RunsIn(l0)))
  }

  /** The commit's new level 1: the inputs erased by their saved indices, the outputs appended, all sorted. */
  function NewLevel1(l0: seq<File>, l1: seq<File>, outs: seq<File>): seq<File>
    requires l0 != []
  {
    var indices := Selected(RunsIn(l1), MinKey(RunsIn(l0)), MaxKey(RunsIn(l0)));
    var kept := EraseIndices(l1, indices);
    SortFiles(kept + outs)
  }

  function Kept(l0: seq<File>, l1: seq<File>): (r: seq<File>)
    requires l0 != []
  {
    var kept := Unflagged(l1, FlagsFor(l0, l1));
    kept
  }

  lemma NewLevel1Is(l0: seq<File>, l1: seq<File>, outs: seq<File>)
    requires l0 != []
    ensures NewLevel1(l0, l1, outs) == SortFiles(Kept(l0, l1) + outs)
  {
    hide SortFiles, FlagIndices, EraseIndices, Unflagged, FlagsFor;
    EraseLeavesUnflagged(l1, FlagsFor(l0, l1));
    SelectedIs(l0, l1);
  }

  lemma SelectedIs(l0: seq<File>, l1: seq<File>)
    requires l0 != []
    ensures Selected(RunsIn(l1), MinKey(RunsIn(l0)), MaxKey(RunsIn(l0))) == FlagIndices(FlagsFor(l0, l1))
  {}

  lemma {:induction false} FlaggedMember<T>(s: seq<T>, flags: seq<bool>, x: T)
    requires |s| == |flags|
    ensures x in Flagged(s, flags) <==> exists i :: 0 <= i < |s| && s[i] == x && flags[i]
  {
    if s != [] {
      var n := |s| - 1;
      FlaggedMember(s[..n], flags[..n], x);
      if i :| 0 <= i < |s| && s[i] == x && flags[i] {
        assert i == n || (s[..n][i] == x && flags[..n][i]);
      }
      if i :| 0 <= i < n && s[..n][i] == x && flags[..n][i] { assert s[i] == x && flags[i]; }
    }
  }

  lemma {:induction false} UnflaggedMember<T>(s: seq<T>, flags: seq<bool>, x: T)
    requires |s| == |flags|
    ensures x in Unflagged(s, flags) <==> exists i :: 0 <= i < |s| && s[i] == x && !flags[i]
  {
    if s != [] {
      var n := |s| - 1;
      UnflaggedMember(s[..n], flags[..n], x);
      if i :| 0 <= i < |s| && s[i] == x && !flags[i] {
        assert i == n || (s[..n][i] == x && !flags[..n][i]);
      }
      if i :| 0 <= i < n && s[..n][i] == x && !flags[..n][i] { assert s[i] == x && !flags[i]; }
    }
  }

  lemma {:induction false} UnflaggedInOrder(s: seq<File>, flags: seq<bool>)
    requires |s| == |flags| && AllSolid(s) && InOrder(s)
    ensures AllSolid(Unflagged(s, flags)) && InOrder(Unflagged(s, flags))
  {
    hide Solid, Before;
    if s != [] {
      var n := |s| - 1;
      UnflaggedInOrder(s[..n], flags[..n]);
      var r := Unflagged(s[..n], flags[..n]);
      forall i | 0 <= i < |r|
        ensures Before(r[i].run, s[n].run)
      {
        assert r[i] in s[..n];
      }
    }
  }

  lemma {:induction false} FlaggedInOrder(s: seq<File>, flags: seq<bool>)
    requires |s| == |flags| && AllSolid(s) && InOrder(s)
    ensures AllSolid(Flagged(s, flags)) && InOrder(Flagged(s, flags))
  {
    hide Solid, Before;
    if s != [] {
      var n := |s| - 1;
      FlaggedInOrder(s[..n], flags[..n]);
      var r := Flagged(s[..n], flags[..n]);
      forall i | 0 <= i < |r|
        ensures Before(r[i].run, s[n].run)
      {
        assert r[i] in s[..n];
      }
    }
  }

  // ---- The premises of a compaction ----

  ghost predicate InFiles(files: seq<File>, e: Entry)
  {
    exists f :: f in files && e in f.run
  }

  lemma InFilesHolds(files: seq<File>, e: Entry)
    ensures InFiles(files, e) <==> Holds(RunsIn(files), e)
  {
    if InFiles(files, e) {
      var f :| f in files && e in f.run;
      var i :| 0 <= i < |files| && files[i] == f;
      assert e in RunsIn(files)[i];
    }
    if Holds(RunsIn(files), e) {
      var i :| 0 <= i < |files| && e in RunsIn(files)[i];
      assert files[i] in files;
    }
  }

  ghost predicate SharesKey(files: seq<File>, t: Run)
  {
    exists e, x :: InFiles(files, e) && x in t && x.key == e.key
  }

  /** Every file of level 1 that has a user key in common with level 0 is among the merged ones. */
  ghost predicate Reached(l0: seq<File>, l1: seq<File>)
    requires l0 != []
  {
    forall i :: 0 <= i < |l1| && !FlagsFor(l0, l1)[i] ==> !SharesKey(l0, l1[i].run)
  }

  /** The levels a compaction starts from. */
  ghost predicate Mergeable(l0: seq<File>, l1: seq<File>)
  {
    l0 != [] && GoodTables(RunsIn(l0)) && OrderedLevel(RunsIn(l1)) && Reached(l0, l1)
  }

  /** For every key, the version that survives the merge is the one that answered before. */
  ghost predicate Rightful(l0: seq<File>, l1: seq<File>)
    requires l0 != []
  {
    Reached(l0, l1) && forall u :: RightSurvives(RunsIn(l0), RunsIn(Merged(l0, l1)), u)
  }

  ghost predicate Guarded(l0: seq<File>, l1: seq<File>)
  {
    Mergeable(l0, l1) && Rightful(l0, l1)
  }

  /** The outputs: non-empty files that, one after another, hold the entries to write. */
  ghost predicate Emitted(l0: seq<File>, l1: seq<File>, outs: seq<File>)
    requires l0 != []
  {
    && (forall i :: 0 <= i < |outs| ==> outs[i].run != [])
    && Join(RunsIn(outs)) == LiveEntries(RunsIn(Inputs(l0, l1)))
  }

  /** And no key is cut in two. */
  ghost predicate Written(l0: seq<File>, l1: seq<File>, outs: seq<File>)
    requires l0 != []
  {
    Emitted(l0, l1, outs) && WholeKeys(RunsIn(outs))
  }

  // ---- Order ----

  lemma KeptBeside(l0: seq<File>, l1: seq<File>, i: nat, e: Entry)
    requires Mergeable(l0, l1) && i < |l1|
    requires !FlagsFor(l0, l1)[i] && InFiles(Inputs(l0, l1), e)
    ensures Less(MaxKey(RunsIn(l0)), FirstInternal(l1[i].run)) ==> Less(e.key, FirstKey(l1[i].run))
    ensures Less(LastInternal(l1[i].run), MinKey(RunsIn(l0))) ==> Less(LastKey(l1[i].run), e.key)
  {
    hide Less, FirstInternal, LastInternal, FirstKey, LastKey, MinKey, MaxKey, GoodTable, Overlaps, Flagged, Apart;
    var t := l1[i].run;
    OrderedFiles(l1);
    var f :| f in Inputs(l0, l1) && e in f.run;
    if f in l0 {
      var j :| 0 <= j < |l0| && l0[j] == f;
      assert GoodTable(RunsIn(l0)[j]);
      assert !SharesKey(l0, t) && InFiles(l0, e);
      BesideLevel0(RunsIn(l0), t, j, e);
    } else {
      FlaggedMember(l1, FlagsFor(l0, l1), f);
      var j :| 0 <= j < |l1| && l1[j] == f && FlagsFor(l0, l1)[j];
      OrderedApart(l1, i, j);
      BesideLevel1(MinKey(RunsIn(l0)), MaxKey(RunsIn(l0)), t, f.run, e);
    }
  }

  lemma OrderedApart(files: seq<File>, i: nat, j: nat)
    requires InOrder(files) && i < |files| && j < |files| && i != j
    ensures Apart(files[j].run, files[i].run)
  {
    hide Before;
  }

  lemma InputsAreGood(l0: seq<File>, l1: seq<File>)
    requires l0 != [] && GoodTables(RunsIn(l0)) && OrderedLevel(RunsIn(l1))
    ensures GoodTables(RunsIn(Inputs(l0, l1)))
    ensures RunsIn(Inputs(l0, l1)) == RunsIn(l0) + RunsIn(Merged(l0, l1))
  {
    hide Less, GoodTable, FlagsFor;
    var inputs := Inputs(l0, l1);
    forall i | 0 <= i < |inputs|
      ensures GoodTable(inputs[i].run)
    {
      assert inputs[i] in inputs;
      if inputs[i] in l0 {
        var j :| 0 <= j < |l0| && l0[j] == inputs[i];
        assert GoodTable(RunsIn(l0)[j]);
      } else {
        assert inputs[i] in l1;
        var j :| 0 <= j < |l1| && l1[j] == inputs[i];
        assert GoodTable(RunsIn(l1)[j]);
      }
    }
  }

  lemma LiveHolds(l0: seq<File>, l1: seq<File>, outs: seq<File>, e: Entry)
    requires l0 != [] && Emitted(l0, l1, outs)
    ensures InFiles(outs, e) <==> InFiles(Inputs(l0, l1), e) && e.value != []
  {
    hide LiveEntries, Merged, InFiles;
    InFilesHolds(outs, e);
    JoinHolds(RunsIn(outs), e);
    InFilesHolds(Inputs(l0, l1), e);
    LiveMembers(RunsIn(Inputs(l0, l1)), e);
  }

  lemma OutsOrdered(l0: seq<File>, l1: seq<File>, outs: seq<File>)
    requires Mergeable(l0, l1) && Written(l0, l1, outs)
    ensures OrderedLevel(RunsIn(outs))
  {
    hide LiveEntries, GoodTable, Reached, Merged, UserSorted, PlainEntries, Before, WholeKeys, OrderedLevel;
    InputsAreGood(l0, l1);
    LiveIsSorted(RunsIn(Inputs(l0, l1)));
    ChunksOrdered(RunsIn(outs));
  }

  lemma KeptApart(l0: seq<File>, l1: seq<File>, outs: seq<File>, k: File, c: File)
    requires Mergeable(l0, l1) && Written(l0, l1, outs)
    requires k in Kept(l0, l1) && c in outs
    ensures Apart(k.run, c.run)
  {
    hide LiveEntries, GoodTable, Reached, FlagsFor, Merged, Unflagged, OrderedLevel, Less, MinKey, MaxKey,
      FirstInternal, LastInternal, WholeKeys;
    UnflaggedMember(l1, FlagsFor(l0, l1), k);
    var i :| 0 <= i < |l1| && l1[i] == k && !FlagsFor(l0, l1)[i];
    NotOverlapping(l0, l1, i);
    var j :| 0 <= j < |outs| && outs[j] == c;
    forall e | e in c.run
      ensures Less(MaxKey(RunsIn(l0)), FirstInternal(k.run)) ==> Less(e.key, FirstKey(k.run))
      ensures Less(LastInternal(k.run), MinKey(RunsIn(l0))) ==> Less(LastKey(k.run), e.key)
    {
      LiveHolds(l0, l1, outs, e);
      KeptBeside(l0, l1, i, e);
    }
    assert c.run[0] in c.run && c.run[|c.run| - 1] in c.run;
  }

  lemma NotOverlapping(l0: seq<File>, l1: seq<File>, i: nat)
    requires l0 != [] && i < |l1| && !FlagsFor(l0, l1)[i]
    ensures Less(MaxKey(RunsIn(l0)), FirstInternal(l1[i].run)) || Less(LastInternal(l1[i].run), MinKey(RunsIn(l0)))
  {
    hide Less, MinKey, MaxKey, FirstInternal, LastInternal;
  }

  /** Level 1 stays sorted, with pairwise disjoint user-key ranges. */
  lemma NewLevelOrdered(l0: seq<File>, l1: seq<File>, outs: seq<File>)
    requires Mergeable(l0, l1) && Written(l0, l1, outs)
    ensures OrderedLevel(RunsIn(NewLevel1(l0, l1, outs)))
  {
    hide SortFiles, Mergeable, Written, OrderedLevel, Solid, Before, NewLevel1, Kept;
    MergeableParts(l0, l1);
    NewLevel1Is(l0, l1, outs);
    OutsOrdered(l0, l1, outs);
    OrderedFiles(outs);
    KeptOrdered(l0, l1);
    var kept := Kept(l0, l1);
    var all := kept + outs;
    forall i, j | 0 <= i < j < |all|
      ensures Apart(all[i].run, all[j].run)
    {
      if i < |kept| <= j { KeptApart(l0, l1, outs, all[i], all[j]); }
    }
    SortOrders(all);
    OrderedFiles(SortFiles(all));
  }

  lemma KeptOrdered(l0: seq<File>, l1: seq<File>)
    requires Mergeable(l0, l1)
    ensures AllSolid(Kept(l0, l1)) && InOrder(Kept(l0, l1))
    ensures OrderedLevel(RunsIn(Merged(l0, l1)))
  {
    hide Unflagged, Flagged, FlagsFor, Reached, Solid, Before, GoodTable;
    OrderedFiles(l1);
    UnflaggedInOrder(l1, FlagsFor(l0, l1));
    FlaggedInOrder(l1, FlagsFor(l0, l1));
    OrderedFiles(Merged(l0, l1));
  }

  // ---- Contents ----

  lemma NewLevelMembers(l0: seq<File>, l1: seq<File>, outs: seq<File>)
    requires l0 != []
    ensures forall f :: f in NewLevel1(l0, l1, outs) <==> f in Kept(l0, l1) || f in outs
    ensures forall f :: f in l1 <==> f in Kept(l0, l1) || f in Merged(l0, l1)
  {
    hide SortFiles, FlagsFor, Unflagged, Flagged, NewLevel1;
    NewLevel1Is(l0, l1, outs);
    SameMembers(NewLevel1(l0, l1, outs), Kept(l0, l1) + outs);
    forall f | f in l1 ensures f in Kept(l0, l1) || f in Merged(l0, l1) {
      var i :| 0 <= i < |l1| && l1[i] == f;
      FlaggedMember(l1, FlagsFor(l0, l1), f);
      UnflaggedMember(l1, FlagsFor(l0, l1), f);
    }
  }

  /** The new level 1 holds nothing that was not held before, and everything that was and is not a deletion. */
  lemma NewLevelHolds(l0: seq<File>, l1: seq<File>, outs: seq<File>, e: Entry)
    requires l0 != [] && Emitted(l0, l1, outs)
    ensures InFiles(NewLevel1(l0, l1, outs), e) ==> InFiles(l0 + l1, e)
    ensures InFiles(l0 + l1, e) && e.value != [] ==> InFiles(NewLevel1(l0, l1, outs), e)
  {
    hide LiveEntries, Join, NewLevel1, Kept, Merged;
    NewLevelMembers(l0, l1, outs);
    LiveHolds(l0, l1, outs, e);
    var new1 := NewLevel1(l0, l1, outs);
    if InFiles(new1, e) && !InFiles(outs, e) {
      var f :| f in new1 && e in f.run;
      assert f in l1;
    }
    if InFiles(l0 + l1, e) && !InFiles(Inputs(l0, l1), e) {
      var f :| f in l0 + l1 && e in f.run;
      assert f in l1;
    }
  }

  lemma SameMembers<T>(a: seq<T>, b: seq<T>)
    requires multiset(a) == multiset(b)
    ensures forall f :: f in a <==> f in b
  {
    forall f ensures f in a <==> f in b {
      assert f in a <==> f in multiset(a);
      assert f in b <==> f in multiset(b);
    }
  }

  // ---- Answers ----

  /** No file holds the key. */
  ghost predicate Missing(files: seq<File>, u: Bytes)
  {
    forall f :: f in files ==> Lookup(f.run, u).None?
  }

  lemma FileAnswers(files: seq<File>, f: File, u: Bytes)
    requires OrderedLevel(RunsIn(files)) && f in files && Lookup(f.run, u).Some?
    ensures FindInLevel(RunsIn(files), u) == Lookup(f.run, u)
  {
    hide Lookup, FindInLevel, OrderedLevel;
    var i :| 0 <= i < |files| && files[i] == f;
    LevelFinds(RunsIn(files), u, i);
  }

  lemma NoFileAnswers(files: seq<File>, u: Bytes)
    requires OrderedLevel(RunsIn(files)) && Missing(files, u)
    ensures FindInLevel(RunsIn(files), u) == None
  {
    hide Lookup, FindInLevel, OrderedLevel;
    LevelMisses(RunsIn(files), u);
  }

  /** A lookup in an ordered level is a scan of its files, one after another. */
  lemma LevelIsScan(files: seq<Run>, u: Bytes)
    requires OrderedLevel(files)
    ensures FindInLevel(files, u) == Lookup(Join(files), u)
  {
    hide Lookup, FindInLevel, OrderedLevel, Join;
    if i :| 0 <= i < |files| && Lookup(files[i], u).Some? {
      LevelFinds(files, u, i);
      forall j | 0 <= j < |files| && j != i ensures Lookup(files[j], u).None? { OneOrderedFile(files, u, i, j); }
      ScanOfOne(files, u, i);
    } else {
      LevelMisses(files, u);
      ScanOfNone(files, u);
    }
  }

  lemma OneOrderedFile(files: seq<Run>, u: Bytes, i: nat, j: nat)
    requires OrderedLevel(files) && i < |files| && j < |files| && i != j && Lookup(files[i], u).Some?
    ensures Lookup(files[j], u).None?
  {
    hide Lookup, OrderedLevel, Less, FirstKey, LastKey;
    LookupIsHeld(files[i], u);
    LookupIsHeld(files[j], u);
    if Lookup(files[j], u).Some? {
      LevelFilesGood(files, j);
      WithinRange(files[j], Entry(u, Lookup(files[j], u).value));
      OutsideRange(files, j, i, Entry(u, Lookup(files[i], u).value));
    }
  }

  lemma LevelFilesGood(files: seq<Run>, j: nat)
    requires OrderedLevel(files) && j < |files|
    ensures GoodTable(files[j])
  {}

  lemma {:induction false} LookupAcross(a: Run, b: Run, u: Bytes)
    ensures Lookup(a + b, u) == Orelse(Lookup(a, u), Lookup(b, u))
  {
    if a == [] {
      assert a + b == b;
    } else {
      assert (a + b)[1..] == a[1..] + b;
      LookupAcross(a[1..], b, u);
    }
  }

  lemma {:induction false} ScanOfNone(files: seq<Run>, u: Bytes)
    requires forall i :: 0 <= i < |files| ==> Lookup(files[i], u).None?
    ensures Lookup(Join(files), u) == None
  {
    hide Lookup;
    if files == [] {
      LookupAt([], u, 0);
    } else {
      var n := |files| - 1;
      ScanOfNone(files[..n], u);
      LookupAcross(Join(files[..n]), files[n], u);
    }
  }

  lemma {:induction false} ScanOfOne(files: seq<Run>, u: Bytes, i: nat)
    requires i < |files| && forall j :: 0 <= j < |files| && j != i ==> Lookup(files[j], u).None?
    ensures Lookup(Join(files), u) == Lookup(files[i], u)
  {
    hide Lookup;
    var n := |files| - 1;
    LookupAcross(Join(files[..n]), files[n], u);
    if i < n { ScanOfOne(files[..n], u, i); } else { ScanOfNone(files[..n], u); }
  }

  /** A key of a file that is not merged is in none of the inputs. */
  lemma KeptAlone(l0: seq<File>, l1: seq<File>, k: File, u: Bytes)
    requires Mergeable(l0, l1) && k in Kept(l0, l1) && Lookup(k.run, u).Some?
    ensures Missing(Inputs(l0, l1), u)
  {
    hide GoodTables, OrderedLevel, Reached, Unflagged, Inputs, Less, MinKey, MaxKey, FirstInternal, LastInternal, FirstKey,
      LastKey, Lookup, FlagsFor, InFiles;
    UnflaggedMember(l1, FlagsFor(l0, l1), k);
    var i :| 0 <= i < |l1| && l1[i] == k && !FlagsFor(l0, l1)[i];
    NotOverlapping(l0, l1, i);
    LevelFilesGood(RunsIn(l1), i);
    LookupIsHeld(k.run, u);
    WithinRange(k.run, Entry(u, Lookup(k.run, u).value));
    forall f | f in Inputs(l0, l1) ensures Lookup(f.run, u).None? {
      LookupIsHeld(f.run, u);
      if Lookup(f.run, u).Some? {
        var e := Entry(u, Lookup(f.run, u).value);
        InOneFile(Inputs(l0, l1), f, e);
        KeptBeside(l0, l1, i, e);
      }
    }
  }

  lemma InOneFile(files: seq<File>, f: File, e: Entry)
    requires f in files && e in f.run
    ensures InFiles(files, e)
  {}

  lemma MissingRuns(files: seq<File>, u: Bytes)
    requires Missing(files, u)
    ensures forall i :: 0 <= i < |files| ==> Lookup(RunsIn(files)[i], u).None?
  {
    hide Lookup;
    forall i | 0 <= i < |files| ensures Lookup(RunsIn(files)[i], u).None? { assert files[i] in files; }
  }

  /** What the level answers after the commit for a key of the inputs: the merged entries' answer. */
  lemma NewAnswers(l0: seq<File>, l1: seq<File>, outs: seq<File>, u: Bytes)
    requires Mergeable(l0, l1) && Written(l0, l1, outs) && Missing(Kept(l0, l1), u)
    ensures FindInLevel(RunsIn(NewLevel1(l0, l1, outs)), u) == Lookup(LiveEntries(RunsIn(Inputs(l0, l1))), u)
  {
    hide Mergeable, LiveEntries, Join, OrderedLevel, FindInLevel, Lookup, NewLevel1, Kept, Inputs, WholeKeys;
    MergeableParts(l0, l1);
    var new1 := NewLevel1(l0, l1, outs);
    NewLevelOrdered(l0, l1, outs);
    NewLevelMembers(l0, l1, outs);
    OutsOrdered(l0, l1, outs);
    LevelIsScan(RunsIn(outs), u);
    if f :| f in outs && Lookup(f.run, u).Some? {
      FileAnswers(outs, f, u);
      FileAnswers(new1, f, u);
    } else {
      NoFileAnswers(outs, u);
      NoFileAnswers(new1, u);
    }
  }

  lemma MergeableParts(l0: seq<File>, l1: seq<File>)
    requires Mergeable(l0, l1)
    ensures l0 != [] && GoodTables(RunsIn(l0)) && OrderedLevel(RunsIn(l1)) && Reached(l0, l1)
  {}

  /** What the level answered before, for a key of the inputs: the merged files' answer. */
  lemma OldAnswers(l0: seq<File>, l1: seq<File>, u: Bytes)
    requires Mergeable(l0, l1) && Missing(Kept(l0, l1), u)
    ensures FindInLevel(RunsIn(l1), u) == FindInLevel(RunsIn(Merged(l0, l1)), u)
  {
    hide Mergeable, OrderedLevel, FindInLevel, Lookup, Kept, Merged, GoodTables, Reached;
    MergeableParts(l0, l1);
    KeptOrdered(l0, l1);
    NewLevelMembers(l0, l1, []);
    var merged := Merged(l0, l1);
    if f :| f in merged && Lookup(f.run, u).Some? {
      FileAnswers(merged, f, u);
      FileAnswers(l1, f, u);
    } else {
      NoFileAnswers(merged, u);
      NoFileAnswers(l1, u);
    }
  }

  /** A file that is not merged answers as before. */
  lemma KeptAnswers(l0: seq<File>, l1: seq<File>, outs: seq<File>, k: File, u: Bytes)
    requires Mergeable(l0, l1) && Written(l0, l1, outs) && k in Kept(l0, l1) && Lookup(k.run, u).Some?
    ensures FindInLevel(RunsIn(NewLevel1(l0, l1, outs)), u) == HitBefore(RunsIn(l0), RunsIn(l1), u)
    ensures RightSurvives(RunsIn(l0), RunsIn(Merged(l0, l1)), u)
  {
    hide Mergeable, Written, OrderedLevel, FindInLevel, FindNewest, Lookup, NewLevel1, Kept, Merged, GoodTables, Reached,
      RightSurvives, Missing;
    MergeableParts(l0, l1);
    NewLevelOrdered(l0, l1, outs);
    NewLevelMembers(l0, l1, outs);
    FileAnswers(NewLevel1(l0, l1, outs), k, u);
    FileAnswers(l1, k, u);
    KeptAlone(l0, l1, k, u);
    MissingRuns(Inputs(l0, l1), u);
    InputsAreGood(l0, l1);
    KeptOrdered(l0, l1);
    NoTable(RunsIn(l0), RunsIn(Merged(l0, l1)), u);
    MissingNewest(l0, Merged(l0, l1), u);
  }

  lemma MissingNewest(l0: seq<File>, merged: seq<File>, u: Bytes)
    requires forall i :: 0 <= i < |l0 + merged| ==> Lookup((RunsIn(l0) + RunsIn(merged))[i], u).None?
    ensures FindNewest(RunsIn(l0), u) == None
  {
    hide Lookup, FindNewest;
    forall k | 0 <= k < |l0| ensures Lookup(RunsIn(l0)[k], u).None? {
      assert RunsIn(l0)[k] == (RunsIn(l0) + RunsIn(merged))[k];
    }
    NoneNewest(RunsIn(l0), u);
  }

  /** A compaction leaves the answer for a key unchanged exactly when the version that survives the merge is the one
      that answered before. */
  lemma CompactionKeepsAnswerExactly(l0: seq<File>, l1: seq<File>, outs: seq<File>, u: Bytes)
    requires Mergeable(l0, l1) && Written(l0, l1, outs)
    ensures Answer(FindInLevel(RunsIn(NewLevel1(l0, l1, outs)), u)) == Answer(HitBefore(RunsIn(l0), RunsIn(l1), u))
            <==> RightSurvives(RunsIn(l0), RunsIn(Merged(l0, l1)), u)
  {
    hide Mergeable, Written, OrderedLevel, FindInLevel, FindNewest, Lookup, NewLevel1, Kept, Merged, GoodTables, Reached,
      RightSurvives, LiveEntries, Inputs, Answer;
    MergeableParts(l0, l1);
    if k :| k in Kept(l0, l1) && Lookup(k.run, u).Some? {
      KeptAnswers(l0, l1, outs, k, u);
    } else {
      NewAnswers(l0, l1, outs, u);
      OldAnswers(l0, l1, u);
      InputsAreGood(l0, l1);
      MergeAnswersExactly(RunsIn(l0), RunsIn(Merged(l0, l1)), u);
    }
  }

  /** So under the guard it leaves every answer unchanged. */
  lemma CompactionKeepsAnswer(l0: seq<File>, l1: seq<File>, outs: seq<File>, u: Bytes)
    requires Guarded(l0, l1) && Written(l0, l1, outs)
    ensures Answer(FindInLevel(RunsIn(NewLevel1(l0, l1, outs)), u))
            == Answer(Orelse(FindNewest(RunsIn(l0), u), FindInLevel(RunsIn(l1), u)))
  {
    hide Mergeable, Written, FindInLevel, FindNewest, NewLevel1, Reached, RightSurvives, Answer;
    CompactionKeepsAnswerExactly(l0, l1, outs, u);
  }

  // ---- Guards that are easy to keep to ----

  /** No user key in two files, and no deletion over an older value within one. */
  ghost predicate Solo(files: seq<Run>)
  {
    && (forall i, a, j, b | 0 <= i < |files| && 0 <= a < |files[i]| && 0 <= j < |files| && 0 <= b < |files[j]| ::
          files[i][a].key == files[j][b].key ==> i == j)
    && forall i, u :: 0 <= i < |files| ==> NothingHidden(files[i], u)
  }

  lemma SoloHolder(files: seq<Run>, u: Bytes, i: nat)
    requires Solo(files) && i < |files| && Lookup(files[i], u).Some?
    ensures HeldOnlyBy(files, u, i, i)
  {
    hide Lookup, NothingHidden;
    var a := LookupFinds(files[i], u);
    forall k | 0 <= k < |files| && k != i ensures Lookup(files[k], u).None? {
      if Lookup(files[k], u).Some? {
        var b := LookupFinds(files[k], u);
      }
    }
  }

  lemma SoloIsRight(l0: seq<Run>, merged: seq<Run>, u: Bytes)
    requires OrderedLevel(merged) && Solo(l0 + merged)
    ensures RightSurvives(l0, merged, u)
  {
    hide Lookup, NothingHidden, OrderedLevel, RightSurvives, HeldOnlyBy;
    var all := l0 + merged;
    if i :| 0 <= i < |all| && Lookup(all[i], u).Some? {
      SoloHolder(all, u, i);
      OneTableExactly(l0, merged, u, i);
    } else {
      NoTable(l0, merged, u);
    }
  }

  /** Overwrites within one flushed memory table are no obstacle to a compaction. */
  lemma SoloIsGuarded(l0: seq<File>, l1: seq<File>)
    requires l0 != [] && GoodTables(RunsIn(l0)) && OrderedLevel(RunsIn(l1)) && Solo(RunsIn(l0 + l1))
    ensures Guarded(l0, l1)
  {
    hide GoodTables, OrderedLevel, RightSurvives, Flagged, FlagIndices, Solo;
    var flags := FlagsFor(l0, l1);
    SoloReached(l0, l1);
    OrderedFiles(l1);
    FlaggedInOrder(l1, flags);
    OrderedFiles(Merged(l0, l1));
    SoloFlagged(l0, l1, flags);
    InputsAreGood(l0, l1);
    forall u ensures RightSurvives(RunsIn(l0), RunsIn(Merged(l0, l1)), u) {
      SoloIsRight(RunsIn(l0), RunsIn(Merged(l0, l1)), u);
    }
  }

  lemma SoloReached(l0: seq<File>, l1: seq<File>)
    requires l0 != [] && Solo(RunsIn(l0 + l1))
    ensures Reached(l0, l1)
  {
    hide Solo, FlagsFor;
    forall i | 0 <= i < |l1| ensures !SharesKey(l0, l1[i].run) {
      forall e, x | InFiles(l0, e) && x in l1[i].run ensures x.key != e.key {
        var f :| f in l0 && e in f.run;
        var j :| 0 <= j < |l0| && l0[j] == f;
        OtherFile(l0, l1, j, i, e, x);
      }
    }
  }

  lemma OtherFile(l0: seq<File>, l1: seq<File>, j: nat, i: nat, e: Entry, x: Entry)
    requires Solo(RunsIn(l0 + l1)) && j < |l0| && i < |l1| && e in l0[j].run && x in l1[i].run
    ensures x.key != e.key
  {
    var runs := RunsIn(l0 + l1);
    assert runs[j] == l0[j].run && runs[|l0| + i] == l1[i].run;
    var a :| 0 <= a < |runs[j]| && runs[j][a] == e;
    var b :| 0 <= b < |runs[|l0| + i]| && runs[|l0| + i][b] == x;
  }

  lemma {:induction false} FlaggedAt<T>(s: seq<T>, flags: seq<bool>)
    requires |s| == |flags|
    ensures var at := FlagIndices(flags);
            |Flagged(s, flags)| == |at| && forall k :: 0 <= k < |at| ==> Flagged(s, flags)[k] == s[at[k]]
  {
    if s != [] { FlaggedAt(s[..|s| - 1], flags[..|s| - 1]); }
  }

  /** Leaving files out keeps that so. */
  lemma SoloFlagged(l0: seq<File>, l1: seq<File>, flags: seq<bool>)
    requires |flags| == |l1| && Solo(RunsIn(l0 + l1))
    ensures Solo(RunsIn(l0 + Flagged(l1, flags)))
  {
    hide Solo, Flagged, FlagIndices;
    FlaggedAt(l1, flags);
    var some := l0 + Flagged(l1, flags);
    var from := Positions(|l0|, FlagIndices(flags));
    forall i | 0 <= i < |some|
      ensures from[i] < |l0 + l1| && some[i] == (l0 + l1)[from[i]]
    {
      if i >= |l0| { assert some[i] == Flagged(l1, flags)[i - |l0|]; }
    }
    SoloThrough(RunsIn(l0 + l1), RunsIn(some), from);
  }

  /** Where the merged files stand in level 0 followed by level 1. */
  function Positions(n: nat, at: seq<nat>): (from: seq<nat>)
    requires forall a, b :: 0 <= a < b < |at| ==> at[a] < at[b]
    ensures |from| == n + |at|
    ensures forall i :: 0 <= i < |from| ==> from[i] == if i < n then i else n + at[i - n]
    ensures forall i, j :: 0 <= i < j < |from| ==> from[i] != from[j]
  {
    seq(n + |at|, i requires 0 <= i < n + |at| => if i < n then i else n + at[i - n])
  }

  lemma SoloThrough(all: seq<Run>, some: seq<Run>, from: seq<nat>)
    requires Solo(all) && |from| == |some|
    requires forall i :: 0 <= i < |some| ==> from[i] < |all| && some[i] == all[from[i]]
    requires forall i, j :: 0 <= i < j < |from| ==> from[i] != from[j]
    ensures Solo(some)
  {
    hide NothingHidden;
    forall i, a, j, b | 0 <= i < |some| && 0 <= a < |some[i]| && 0 <= j < |some| && 0 <= b < |some[j]|
                        && some[i][a].key == some[j][b].key
      ensures i == j
    {
      assert all[from[i]][a].key == all[from[j]][b].key;
    }
  }

  /** In particular when no user key occurs twice at all; then any cut of the outputs will do. */
  lemma UniqueIsGuarded(l0: seq<File>, l1: seq<File>)
    requires l0 != [] && GoodTables(RunsIn(l0)) && OrderedLevel(RunsIn(l1)) && UniqueKeys(RunsIn(l0 + l1))
    ensures Guarded(l0, l1)
  {
    hide GoodTables, OrderedLevel, Guarded;
    UniqueIsSolo(RunsIn(l0 + l1));
    SoloIsGuarded(l0, l1);
  }

  lemma UniqueIsSolo(files: seq<Run>)
    requires UniqueKeys(files)
    ensures Solo(files)
  {
    hide Lookup, LivePosition;
    forall i, u | 0 <= i < |files| ensures NothingHidden(files[i], u) {
      if Lookup(files[i], u) == Some([]) {
        var p := LookupFinds(files[i], u);
      }
    }
  }

  // ---- Where the code fails ----

  /** A deletion in level 0 over a value in level 1 is dropped by the merge, and the older value comes back. */
  lemma DeletedKeyComesBack(u: Bytes, v: Bytes)
    requires Plain(u) && v != []
    ensures var l0: seq<Run>, l1: seq<Run> := [[Entry(u, [])]], [[Entry(u, v)]];
            && Answer(HitBefore(l0, l1, u)) == None
            && Answer(Lookup(LiveEntries(l0 + l1), u)) == Some(v)
  {
    hide LiveEntries, Lookup, Less, FindInLevel, FindNewest;
    var s: Run, t: Run := [Entry(u, [])], [Entry(u, v)];
    var l0: seq<Run>, l1: seq<Run> := [s], [t];
    LookupAt(s, u, 0);
    NewestIs(l0, u, 0);
    SurvivorAnswers(l0 + l1, u);
    assert l0 + l1 == [s, t];
    assert LivePosition(s, u) == None by { assert s[1..] == []; }
    assert LivePosition(t, u) == Some(0);
    assert [s, t][..1] == l0 && l0[..0] == [];
  }
}
