/** Compactions after which files of level 1 share a key: the overlap test can miss a file, and an output can be cut
    between two versions of a key (DB::BackgroundCompaction in src/db.cc). */
module TouchingCompactions {
  import opened Slices
  import opened Coding
  import opened Entries
  import opened InternalKeys
  import opened Levels
  import opened Merging
  import opened Compactions
  import opened CompactionOutputs
  import opened Survivors
  import opened CompactionResults

  // ---- Files that may touch ----

  /** `a` ends no later than `b` begins. */
  ghost predicate NotAfter(a: Run, b: Run)
  {
    !Less(FirstKey(b), LastKey(a))
  }

  ghost predicate InTouch(files: seq<File>)
  {
    forall i, j :: 0 <= i < j < |files| ==> NotAfter(files[i].run, files[j].run)
  }

  /** Different first user keys, and no overlap but for a shared boundary key. */
  ghost predicate Neighbourly(a: Run, b: Run)
  {
    FirstKey(a) != FirstKey(b) && (NotAfter(a, b) || NotAfter(b, a))
  }

  ghost predicate AllNeighbourly(files: seq<File>)
  {
    forall i, j :: 0 <= i < j < |files| ==> Neighbourly(files[i].run, files[j].run)
  }

  lemma FirstKeysOrder(a: Run, b: Run)
    requires Solid(a) && Solid(b) && Neighbourly(a, b)
    ensures Less(FirstInternal(a), FirstInternal(b)) <==> NotAfter(a, b)
  {
    hide Less, Version, UserSorted, PlainEntries, FirstKey, LastKey, FirstInternal, LastInternal;
    RangeOrdered(a);
    RangeOrdered(b);
    LessIsStrictTotalOrder();
    SolidOrder(a, b);
    SolidOrder(b, a);
  }

  lemma NotAfterChains(a: Run, b: Run, c: Run)
    requires Solid(b) && NotAfter(a, b) && NotAfter(b, c)
    ensures NotAfter(a, c)
  {
    hide Less, UserSorted, PlainEntries, FirstKey, LastKey;
    RangeOrdered(b);
    LessIsStrictTotalOrder();
  }

  lemma {:induction false} SortInTouches(f: File, files: seq<File>)
    requires Solid(f.run) && AllSolid(files) && InTouch(files)
    requires forall i :: 0 <= i < |files| ==> Neighbourly(f.run, files[i].run)
    ensures AllSolid(SortIn(f, files)) && InTouch(SortIn(f, files))
  {
    hide Less, UserSorted, PlainEntries, NotAfter, FirstInternal, Neighbourly;
    if files != [] {
      FirstKeysOrder(f.run, files[0].run);
      var rest := files[1..];
      assert files == [files[0]] + rest;
      if Less(FirstInternal(f.run), FirstInternal(files[0].run)) {
        forall i | 0 < i < |files|
          ensures NotAfter(f.run, files[i].run)
        {
          NotAfterChains(f.run, files[0].run, files[i].run);
        }
        ConsInTouch(f, files);
      } else {
        OtherWay(f.run, files[0].run);
        SortInTouches(f, rest);
        var r := SortIn(f, rest);
        forall i | 0 <= i < |r|
          ensures NotAfter(files[0].run, r[i].run)
        {
          assert r[i] in multiset(r);
          assert r[i] == f || r[i] in rest;
        }
        ConsInTouch(files[0], r);
      }
    }
  }

  lemma OtherWay(a: Run, b: Run)
    requires Neighbourly(a, b)
    ensures NotAfter(a, b) || NotAfter(b, a)
  {}

  lemma ConsInTouch(f: File, files: seq<File>)
    requires Solid(f.run) && AllSolid(files) && InTouch(files)
    requires forall i :: 0 <= i < |files| ==> NotAfter(f.run, files[i].run)
    ensures AllSolid([f] + files) && InTouch([f] + files)
  {
    hide Solid, NotAfter;
  }

  /** Sorting by first key puts such files in order. */
  lemma {:induction false} SortTouches(files: seq<File>)
    requires AllSolid(files) && AllNeighbourly(files)
    ensures AllSolid(SortFiles(files)) && InTouch(SortFiles(files))
  {
    hide Solid, Neighbourly;
    if files != [] {
      var rest := files[1..];
      assert files == [files[0]] + rest;
      SortTouches(rest);
      var r := SortFiles(rest);
      forall i | 0 <= i < |r|
        ensures Neighbourly(files[0].run, r[i].run)
      {
        assert r[i] in multiset(r);
        var j :| 0 <= j < |rest| && rest[j] == r[i];
        assert files[j + 1] == r[i];
      }
      SortInTouches(files[0], r);
    }
  }

  lemma TouchingFiles(files: seq<File>)
    ensures TouchingLevel(RunsIn(files)) <==> AllSolid(files) && InTouch(files)
  {
    hide Less, GoodTable;
    var runs := RunsIn(files);
    if TouchingLevel(runs) {
      forall i | 0 <= i < |files| ensures Solid(files[i].run) { assert files[i].run == runs[i]; }
      forall i, j | 0 <= i < j < |runs| ensures NotAfter(files[i].run, files[j].run) {
        assert files[i].run == runs[i] && files[j].run == runs[j];
      }
    }
    if AllSolid(files) && InTouch(files) {
      forall i, j | 0 <= i < j < |runs|
        ensures !Less(FirstKey(runs[j]), LastKey(runs[i]))
      {
        assert NotAfter(files[i].run, files[j].run);
      }
    }
  }

  // ---- The level that a commit leaves ----

  /** Nothing is asked of the overlap test or of where the outputs are cut. */
  ghost predicate Compacted(l0: seq<File>, l1: seq<File>, outs: seq<File>)
  {
    l0 != [] && GoodTables(RunsIn(l0)) && OrderedLevel(RunsIn(l1)) && Emitted(l0, l1, outs)
  }

  /** No two files of the new level 1 begin with the same user key. */
  ghost predicate FirstKeysDiffer(files: seq<File>)
  {
    forall i, j :: 0 <= i < j < |files| ==> FirstKey(files[i].run) != FirstKey(files[j].run)
  }

  /** For files that begin with live entries this is the same as for the internal first keys that are sorted by. */
  lemma LiveFirstKeys(a: Run, b: Run)
    requires Solid(a) && Solid(b) && a[0].value != [] && b[0].value != []
    ensures FirstInternal(a) == FirstInternal(b) <==> FirstKey(a) == FirstKey(b)
  {
    hide UserSorted, PlainEntries;
    InternalKeyRoundTrip(a[0].key, 1, Value);
    InternalKeyRoundTrip(b[0].key, 1, Value);
  }

  lemma NearLevel0(l0: seq<Run>, t: Run, i: nat, e: Entry)
    requires l0 != [] && ShortTables(l0) && Solid(t) && i < |l0| && GoodTable(l0[i]) && e in l0[i]
    ensures Less(MaxKey(l0), FirstInternal(t)) ==> !Less(FirstKey(t), e.key)
    ensures Less(LastInternal(t), MinKey(l0)) ==> !Less(e.key, LastKey(t))
  {
    hide Less, UserSorted, PlainEntries, FirstInternal, LastInternal, MaxKey, MinKey;
    LessIsStrictTotalOrder();
    HullBounds(l0, i);
    SolidOrder(l0[i], t);
    SolidOrder(t, l0[i]);
    WithinRange(l0[i], e);
  }

  /** A file that is not merged overlaps the merged entries in a boundary key at most. */
  lemma KeptNear(l0: seq<File>, l1: seq<File>, i: nat, e: Entry)
    requires l0 != [] && GoodTables(RunsIn(l0)) && OrderedLevel(RunsIn(l1)) && i < |l1|
    requires !FlagsFor(l0, l1)[i] && InFiles(Inputs(l0, l1), e)
    ensures Less(MaxKey(RunsIn(l0)), FirstInternal(l1[i].run)) ==> !Less(FirstKey(l1[i].run), e.key)
    ensures Less(LastInternal(l1[i].run), MinKey(RunsIn(l0))) ==> !Less(e.key, LastKey(l1[i].run))
  {
    hide Less, FirstInternal, LastInternal, FirstKey, LastKey, MinKey, MaxKey, GoodTable, Overlaps, Flagged, Apart;
    var t := l1[i].run;
    OrderedFiles(l1);
    var f :| f in Inputs(l0, l1) && e in f.run;
    if f in l0 {
      var j :| 0 <= j < |l0| && l0[j] == f;
      assert GoodTable(RunsIn(l0)[j]);
      NearLevel0(RunsIn(l0), t, j, e);
    } else {
      FlaggedMember(l1, FlagsFor(l0, l1), f);
      var j :| 0 <= j < |l1| && l1[j] == f && FlagsFor(l0, l1)[j];
      OrderedApart(l1, i, j);
      BesideLevel1(MinKey(RunsIn(l0)), MaxKey(RunsIn(l0)), t, f.run, e);
      LessIsStrictTotalOrder();
    }
  }

  lemma KeptTouches(l0: seq<File>, l1: seq<File>, outs: seq<File>, k: File, c: File)
    requires Compacted(l0, l1, outs) && k in Kept(l0, l1) && c in outs
    ensures NotAfter(k.run, c.run) || NotAfter(c.run, k.run)
  {
    hide LiveEntries, GoodTable, FlagsFor, Merged, Unflagged, OrderedLevel, Less, MinKey, MaxKey, FirstInternal,
      LastInternal;
    UnflaggedMember(l1, FlagsFor(l0, l1), k);
    var i :| 0 <= i < |l1| && l1[i] == k && !FlagsFor(l0, l1)[i];
    NotOverlapping(l0, l1, i);
    var j :| 0 <= j < |outs| && outs[j] == c;
    forall e | e in c.run
      ensures Less(MaxKey(RunsIn(l0)), FirstInternal(k.run)) ==> !Less(FirstKey(k.run), e.key)
      ensures Less(LastInternal(k.run), MinKey(RunsIn(l0))) ==> !Less(e.key, LastKey(k.run))
    {
      LiveHolds(l0, l1, outs, e);
      KeptNear(l0, l1, i, e);
    }
    assert c.run[0] in c.run && c.run[|c.run| - 1] in c.run;
  }

  lemma OutsTouch(l0: seq<File>, l1: seq<File>, outs: seq<File>)
    requires Compacted(l0, l1, outs)
    ensures AllSolid(outs) && InTouch(outs)
  {
    hide LiveEntries, GoodTable, Merged, UserSorted, PlainEntries, OrderedLevel, TouchingLevel, Solid, NotAfter;
    InputsAreGood(l0, l1);
    LiveIsSorted(RunsIn(Inputs(l0, l1)));
    ChunksTouch(RunsIn(outs));
    TouchingFiles(outs);
  }

  lemma KeptAreApart(l0: seq<File>, l1: seq<File>)
    requires l0 != [] && OrderedLevel(RunsIn(l1))
    ensures AllSolid(Kept(l0, l1)) && InTouch(Kept(l0, l1))
  {
    hide Unflagged, FlagsFor, Solid, Before, NotAfter, GoodTable;
    OrderedFiles(l1);
    UnflaggedInOrder(l1, FlagsFor(l0, l1));
    var kept := Kept(l0, l1);
    forall i, j | 0 <= i < j < |kept| ensures NotAfter(kept[i].run, kept[j].run) {
      BeforeIsNotAfter(kept[i].run, kept[j].run);
    }
  }

  lemma BeforeIsNotAfter(a: Run, b: Run)
    requires Before(a, b)
    ensures NotAfter(a, b)
  {
    hide Less;
    LessIsStrictTotalOrder();
  }

  /** The new level 1 is sorted, and its files overlap in boundary keys at most. */
  lemma NewLevelTouches(l0: seq<File>, l1: seq<File>, outs: seq<File>)
    requires Compacted(l0, l1, outs) && FirstKeysDiffer(Kept(l0, l1) + outs)
    ensures TouchingLevel(RunsIn(NewLevel1(l0, l1, outs)))
  {
    hide SortFiles, Compacted, TouchingLevel, Solid, NotAfter, NewLevel1, Kept, FirstKey;
    CompactedParts(l0, l1, outs);
    NewLevel1Is(l0, l1, outs);
    OutsTouch(l0, l1, outs);
    KeptAreApart(l0, l1);
    var kept := Kept(l0, l1);
    var all := kept + outs;
    forall i, j | 0 <= i < j < |all|
      ensures Neighbourly(all[i].run, all[j].run)
    {
      if i < |kept| <= j { KeptTouches(l0, l1, outs, all[i], all[j]); }
    }
    SortTouches(all);
    TouchingFiles(SortFiles(all));
  }

  lemma CompactedParts(l0: seq<File>, l1: seq<File>, outs: seq<File>)
    requires Compacted(l0, l1, outs)
    ensures l0 != [] && OrderedLevel(RunsIn(l1)) && Emitted(l0, l1, outs)
  {}

  // ---- What it answers ----

  /** Whether a lookup that comes to file `f` of the new level answers as before: from an output by the first version
      of the key there, from a file that was not merged by what level 1 answered. */
  ghost predicate MetRightly(l0: seq<File>, l1: seq<File>, outs: seq<File>, f: File, u: Bytes)
    requires l0 != []
  {
    var hit := Answer(HitBefore(RunsIn(l0), RunsIn(l1), u));
    if f in outs then Answer(Lookup(f.run, u)) == hit else Answer(FindInLevel(RunsIn(l1), u)) == hit
  }

  lemma MetFileDecides(l0: seq<File>, l1: seq<File>, outs: seq<File>, f: File, u: Bytes)
    requires l0 != [] && OrderedLevel(RunsIn(l1)) && (f in Kept(l0, l1) || f in outs) && Lookup(f.run, u).Some?
    ensures Answer(Lookup(f.run, u)) == Answer(HitBefore(RunsIn(l0), RunsIn(l1), u)) <==> MetRightly(l0, l1, outs, f, u)
  {
    hide Lookup, FindInLevel, FindNewest, Answer, OrderedLevel, Kept, Merged;
    NewLevelMembers(l0, l1, outs);
    if f !in outs { FileAnswers(l1, f, u); }
  }

  /** In whatever order the sort leaves the files of the new level: if they overlap in boundary keys at most, a lookup
      answers as before exactly when the file that the search meets first, computed from positions, does, or when no
      file holds the key and it was gone. */
  lemma AnyOrderMeetsExactly(l0: seq<File>, l1: seq<File>, outs: seq<File>, level: seq<File>, u: Bytes)
    requires l0 != [] && OrderedLevel(RunsIn(l1)) && TouchingLevel(RunsIn(level))
    requires forall f :: f in level <==> f in Kept(l0, l1) || f in outs
    ensures var hit := Answer(HitBefore(RunsIn(l0), RunsIn(l1), u));
            Answer(FindInLevel(RunsIn(level), u)) == hit <==>
              match MetFile(RunsIn(level), u)
              case None => hit == None
              case Some(i) => MetRightly(l0, l1, outs, level[i], u)
  {
    hide TouchingLevel, Kept, Lookup, FindInLevel, FindNewest, MetFile, OrderedLevel, MetRightly, HitBefore;
    TouchingIsMet(RunsIn(level), u);
    if MetFile(RunsIn(level), u).Some? {
      MetFileDecides(l0, l1, outs, level[MetFile(RunsIn(level), u).value], u);
    }
  }

  /** So it is for every compaction whose resulting files begin with different keys, wherever its outputs are cut and
      whatever the overlap test misses. */
  lemma CompactionMeetsExactly(l0: seq<File>, l1: seq<File>, outs: seq<File>, u: Bytes)
    requires Compacted(l0, l1, outs) && FirstKeysDiffer(Kept(l0, l1) + outs)
    ensures var level := NewLevel1(l0, l1, outs);
            var hit := Answer(HitBefore(RunsIn(l0), RunsIn(l1), u));
            Answer(FindInLevel(RunsIn(level), u)) == hit <==>
              match MetFile(RunsIn(level), u)
              case None => hit == None
              case Some(i) => MetRightly(l0, l1, outs, level[i], u)
  {
    hide Compacted, TouchingLevel, NewLevel1, Kept, FindInLevel, MetFile, Answer, OrderedLevel, Merged, MetRightly, HitBefore;
    CompactedParts(l0, l1, outs);
    NewLevelTouches(l0, l1, outs);
    NewLevelMembers(l0, l1, outs);
    AnyOrderMeetsExactly(l0, l1, outs, NewLevel1(l0, l1, outs), u);
  }

  // ---- Where the code fails ----

  /** The overlap test compares internal keys, so it can miss a file that shares its boundary key with level 0: here
      the second entry of a level 0 table and the first of a level 1 file. */
  lemma TouchingFileIsMissed(x: Bytes, u: Bytes, v: Bytes, w: Bytes)
    requires Plain(x) && Plain(u) && Less(x, u) && v != [] && w != []
    ensures var t: Run := [Entry(x, v), Entry(u, w)];
            var s: Run := [Entry(u, v)];
            !Overlaps(FirstInternal(t), LastInternal(t), s)
  {
    hide Less;
    VersionOrder(u, 2, Value, 1, Value);
    LowBytesBelow256(2, 1);
  }

  lemma {:induction false} ScanOfFirst(files: seq<Run>, u: Bytes, p: nat)
    requires p < |files| && Lookup(files[p], u).Some? && forall j :: 0 <= j < p ==> Lookup(files[j], u).None?
    ensures Lookup(Join(files), u) == Lookup(files[p], u)
  {
    hide Lookup;
    var n := |files| - 1;
    LookupAcross(Join(files[..n]), files[n], u);
    if p < n { ScanOfFirst(files[..n], u, p); } else { ScanOfNone(files[..n], u); }
  }

  /** Where neighbouring files share a key, a lookup answers for the first of them exactly when the one that the search
      meets first has the same value. */
  lemma TouchingAnswersExactly(files: seq<Run>, u: Bytes, p: nat, q: nat)
    requires TouchingLevel(files) && p <= q < |files|
    requires forall i :: 0 <= i < |files| ==> (Lookup(files[i], u).Some? <==> p <= i <= q)
    ensures FindInLevel(files, u) == Lookup(Join(files), u)
            <==> Lookup(files[Lands(0, |files| - 1, p, q)], u) == Lookup(files[p], u)
  {
    hide Lookup, TouchingLevel, Join;
    SearchLands(files, u, 0, |files| - 1, p, q);
    ScanOfFirst(files, u, p);
  }

  /** And where files share a key, a lookup can reach the wrong one: the middle file of three. */
  lemma TouchingFilesMislead(s: Run, u: Bytes, w: Bytes, o: Bytes, z: Bytes, y: Bytes)
    requires Lookup(s, u) == Some(w)
    ensures var files: seq<Run> := [s, [Entry(u, o)], [Entry(z, y)]];
            FindInLevel(files, u) == Some(o) && Lookup(Join(files), u) == Some(w)
  {
    hide Less;
    LessIrreflexive(u);
    var a: Run, b: Run := [Entry(u, o)], [Entry(z, y)];
    JoinThree(s, a, b);
    LookupAcross(s + a, b, u);
    LookupAcross(s, a, u);
  }

  lemma {:induction false} MergeOne(s: seq<Entry>)
    ensures Merge([s]) == s
  {
    hide Less;
    if s == [] {
      assert LeastFrom([s], 0) == None;
    } else {
      assert LeastFrom([s], 0) == Some(0);
      MergeUnfolds([s], 0);
      assert Advance([s], 0) == [s[1..]];
      MergeOne(s[1..]);
    }
  }

  lemma {:induction false} LiveOfLive(out: seq<Entry>)
    requires forall i :: 0 <= i < |out| ==> out[i].value != []
    ensures |LiveOf(out)| == |out| && forall i :: 0 <= i < |out| ==> LiveOf(out)[i] == Strip(out[i])
  {
    hide Strip;
    if out != [] { LiveOfLive(out[1..]); }
  }

  /** Merging one table without deletions writes that table. */
  lemma LiveOfOne(t: Table)
    requires forall i :: 0 <= i < |t| ==> t[i].value != []
    ensures LiveEntries([t]) == t
  {
    hide Merge, LiveOf, Version;
    assert NumberedAll([t]) == [Numbered(t)];
    MergeOne(Numbered(t));
    LiveOfLive(Numbered(t));
    forall i | 0 <= i < |t| ensures LiveOf(Numbered(t))[i] == t[i] { StripVersion(t, i); }
  }

  lemma SortUnfolds(f: File, files: seq<File>)
    ensures SortFiles([f] + files) == SortIn(f, SortFiles(files)) && SortFiles([]) == []
  {
    assert ([f] + files)[1..] == files;
  }

  lemma SortInUnfolds(f: File, g: File, files: seq<File>)
    ensures SortIn(f, [g] + files)
            == if Less(FirstInternal(f.run), FirstInternal(g.run)) then [f] + ([g] + files) else [g] + SortIn(f, files)
    ensures SortIn(f, []) == [f]
  {
    hide Less, FirstInternal;
    assert ([g] + files)[1..] == files;
  }

  ghost predicate FirstLess(a: File, b: File)
  {
    Less(FirstInternal(a.run), FirstInternal(b.run)) && !Less(FirstInternal(b.run), FirstInternal(a.run))
  }

  lemma SortsOne(a: File)
    ensures SortFiles([a]) == [a]
  {
    hide SortIn, SortFiles;
    SortUnfolds(a, []);
    SortInUnfolds(a, a, []);
    assert [a] + [] == [a];
  }

  lemma SortsTwo(a: File, b: File)
    requires FirstLess(a, b)
    ensures SortIn(a, [b]) == [a, b] && SortIn(b, [a]) == [a, b]
  {
    hide SortIn, Less, FirstInternal;
    SortInUnfolds(a, b, []);
    SortInUnfolds(b, a, []);
    assert [b] + [] == [b] && [a] + [] == [a];
  }

  lemma SortsPair(a: File, b: File)
    requires FirstLess(a, b)
    ensures SortFiles([b, a]) == [a, b] && SortFiles([a, b]) == [a, b]
  {
    hide SortIn, SortFiles, FirstLess;
    SortsOne(a);
    SortsOne(b);
    SortsTwo(a, b);
    SortUnfolds(b, [a]);
    SortUnfolds(a, [b]);
    assert [b] + [a] == [b, a] && [a] + [b] == [a, b];
  }

  /** Three files that come to the sort with the least one last, or in order, leave it in order. */
  lemma SortsLeastLast(a: File, b: File, c: File)
    requires FirstLess(a, b) && FirstLess(b, c) && FirstLess(a, c)
    ensures SortFiles([b, c, a]) == [a, b, c]
  {
    hide SortIn, SortFiles, FirstLess;
    SortsPair(a, c);
    SortsTwo(b, c);
    SortsPast(a, b, c);
    SortUnfolds(b, [c, a]);
    assert [b] + [c, a] == [b, c, a];
  }

  lemma SortsOrdered(a: File, b: File, c: File)
    requires FirstLess(a, b) && FirstLess(b, c)
    ensures SortFiles([a, b, c]) == [a, b, c]
  {
    hide SortIn, SortFiles, FirstLess;
    SortsPair(b, c);
    SortsTwo(b, c);
    SortsPast(a, b, c);
    SortUnfolds(a, [b, c]);
    assert [a] + [b, c] == [a, b, c];
  }

  lemma SortsPast(a: File, b: File, c: File)
    requires FirstLess(a, b) && SortIn(b, [c]) == [b, c]
    ensures SortIn(b, [a, c]) == [a, b, c] && SortIn(a, [b, c]) == [a, b, c]
  {
    hide SortIn, Less, FirstInternal;
    SortInUnfolds(b, a, [c]);
    SortInUnfolds(a, b, [c]);
    assert [a] + [c] == [a, c] && [b] + [c] == [b, c] && [a] + [b, c] == [a, b, c];
  }

  lemma FirstInternals(a: Run, b: Run)
    requires Solid(a) && Solid(b) && Less(FirstKey(a), FirstKey(b))
    ensures Less(FirstInternal(a), FirstInternal(b)) && !Less(FirstInternal(b), FirstInternal(a))
  {
    hide Less, FirstInternal, FirstKey, UserSorted, PlainEntries;
    LessIsStrictTotalOrder();
    SolidOrder(b, a);
  }

  /** A table whose neighbouring keys are in order. */
  lemma {:induction false} SolidByNeighbours(t: Table)
    requires t != [] && (forall i :: 0 <= i < |t| ==> Plain(t[i].key))
    requires forall i :: 0 < i < |t| ==> !Less(t[i].key, t[i - 1].key)
    ensures Solid(t)
  {
    hide Less, Plain;
    LessIsStrictTotalOrder();
    var n := |t| - 1;
    if n > 0 {
      SolidByNeighbours(t[..n]);
      forall i | 0 <= i < n ensures !Less(t[n].key, t[i].key) {
        assert t[..n][i] == t[i] && t[..n][n - 1] == t[n - 1];
      }
      assert forall i :: 0 <= i < n ==> t[..n][i] == t[i];
    }
  }

  /** The keys and the live values of the two failing inputs. */
  ghost predicate ThreeKeys(x: Bytes, u: Bytes, z: Bytes, v: Bytes, w: Bytes, o: Bytes, y: Bytes)
  {
    && Plain(x) && Plain(u) && Plain(z) && Less(x, u) && Less(u, z)
    && v != [] && w != [] && o != [] && y != []
  }

  lemma ThreeSolid(x: Bytes, u: Bytes, z: Bytes, v: Bytes, w: Bytes, o: Bytes, y: Bytes)
    requires ThreeKeys(x, u, z, v, w, o, y)
    ensures Solid([Entry(x, v), Entry(u, w)]) && Solid([Entry(u, o)]) && Solid([Entry(z, y)])
    ensures Solid([Entry(x, v), Entry(u, w), Entry(u, o), Entry(z, y)])
    ensures Less(x, u) && Less(u, z) && x != u && u != z && x != z
  {
    hide Less, Plain;
    LessIsStrictTotalOrder();
    SolidByNeighbours([Entry(x, v), Entry(u, w)]);
    SolidByNeighbours([Entry(u, o)]);
    SolidByNeighbours([Entry(z, y)]);
    SolidByNeighbours([Entry(x, v), Entry(u, w), Entry(u, o), Entry(z, y)]);
  }

  /** Neither file of level 1 overlaps, by internal keys, with the table of level 0. */
  lemma NeitherOverlaps(x: Bytes, u: Bytes, z: Bytes, v: Bytes, w: Bytes, o: Bytes, y: Bytes)
    requires ThreeKeys(x, u, z, v, w, o, y)
    ensures var t: Run := [Entry(x, v), Entry(u, w)];
            var a: Run := [Entry(u, o)];
            var b: Run := [Entry(z, y)];
            !Overlaps(FirstInternal(t), LastInternal(t), a) && !Overlaps(FirstInternal(t), LastInternal(t), b)
  {
    hide Less, Plain;
    TouchingFileIsMissed(x, u, o, w);
    TouchingFileIsMissed(x, u, v, w);
    TrailerHead(2, Value);
    TrailerHead(1, Value);
    LessIsStrictTotalOrder();
    UserKeyOrderFirst(u, z, Trailer(2, Value), Trailer(1, Value));
  }

  lemma HitOfPair(x: Bytes, u: Bytes, v: Bytes, rest: Run)
    requires x != u && rest != [] && rest[0].key == u
    ensures Lookup([Entry(x, v)] + rest, u) == Some(rest[0].value)
  {
    assert ([Entry(x, v)] + rest)[1..] == rest;
  }

  lemma NothingMerged(l0: seq<File>, l1: seq<File>)
    requires |l0| == 1
    requires forall i :: 0 <= i < |l1| ==> !Overlaps(FirstInternal(l0[0].run), LastInternal(l0[0].run), l1[i].run)
    ensures Merged(l0, l1) == [] && Kept(l0, l1) == l1
  {
    hide FirstInternal, LastInternal, Overlaps, Flagged, Unflagged;
    OneHull(RunsIn(l0));
    NoneFlagged(l1, FlagsFor(l0, l1));
  }

  lemma {:induction false} NoneFlagged<T>(s: seq<T>, flags: seq<bool>)
    requires |s| == |flags| && forall i :: 0 <= i < |flags| ==> !flags[i]
    ensures Flagged(s, flags) == [] && Unflagged(s, flags) == s
  {
    if s != [] {
      var n := |s| - 1;
      NoneFlagged(s[..n], flags[..n]);
      assert s[..n] + [s[n]] == s;
    }
  }

  lemma OneHull(runs: seq<Run>)
    requires |runs| == 1 && ShortTables(runs)
    ensures MinKey(runs) == FirstInternal(runs[0]) && MaxKey(runs) == LastInternal(runs[0])
  {}

  /** Level 0, level 1 and output of a compaction whose overlap test misses a file. */
  ghost predicate Missing1(l0: seq<File>, l1: seq<File>, outs: seq<File>, t: Table, a: Table, b: Table)
  {
    |l0| == |outs| == 1 && |l1| == 2 && l0[0].run == outs[0].run == t && l1[0].run == a && l1[1].run == b
  }

  lemma OneTableCompacted(l0: seq<File>, l1: seq<File>, outs: seq<File>)
    requires |l0| == 1 && Solid(l0[0].run) && (forall i :: 0 <= i < |l0[0].run| ==> l0[0].run[i].value != [])
    requires OrderedLevel(RunsIn(l1)) && Merged(l0, l1) == []
    requires (forall i :: 0 <= i < |outs| ==> outs[i].run != []) && Join(RunsIn(outs)) == l0[0].run
    ensures Compacted(l0, l1, outs)
  {
    hide LiveEntries, Merged, OrderedLevel, Join, UserSorted, PlainEntries;
    LiveOfOne(l0[0].run);
    assert RunsIn(l0) == [l0[0].run];
    assert l0 + [] == l0;
  }

  lemma TwoOrdered(l1: seq<File>)
    requires |l1| == 2 && Solid(l1[0].run) && Solid(l1[1].run) && Less(LastKey(l1[0].run), FirstKey(l1[1].run))
    ensures OrderedLevel(RunsIn(l1))
  {
    hide Less, UserSorted, PlainEntries;
  }

  lemma JoinOne(t: Run)
    ensures Join([t]) == t
  {
    assert [t][..0] == [];
  }

  lemma NewestOne(t: Run, u: Bytes)
    ensures FindNewest([t], u) == Lookup(t, u)
  {
    hide Lookup;
    assert [t][..0] == [];
  }

  lemma MissedIsCompacted(l0: seq<File>, l1: seq<File>, outs: seq<File>,
                          x: Bytes, u: Bytes, z: Bytes, v: Bytes, w: Bytes, o: Bytes, y: Bytes)
    requires ThreeKeys(x, u, z, v, w, o, y)
    requires Missing1(l0, l1, outs, [Entry(x, v), Entry(u, w)], [Entry(u, o)], [Entry(z, y)])
    ensures Compacted(l0, l1, outs) && Kept(l0, l1) == l1
  {
    hide Less, Plain, Solid, Kept, Merged, ThreeKeys, Overlaps, FirstInternal, LastInternal, Compacted, OrderedLevel, Join;
    var t: Table := [Entry(x, v), Entry(u, w)];
    ThreeSolid(x, u, z, v, w, o, y);
    NeitherOverlaps(x, u, z, v, w, o, y);
    NothingMerged(l0, l1);
    TwoOrdered(l1);
    JoinOne(t);
    assert RunsIn(outs) == [t];
    LiveKeys(x, u, z, v, w, o, y);
    OneTableCompacted(l0, l1, outs);
  }

  /** The three files of the level that both failing compactions leave. */
  lemma ThreeInOrder(a: File, b: File, c: File,
                     x: Bytes, u: Bytes, z: Bytes, v: Bytes, w: Bytes, o: Bytes, y: Bytes)
    requires ThreeKeys(x, u, z, v, w, o, y)
    requires a.run == [Entry(x, v), Entry(u, w)] && b.run == [Entry(u, o)] && c.run == [Entry(z, y)]
    ensures FirstLess(a, b) && FirstLess(b, c) && FirstLess(a, c)
    ensures FindInLevel(RunsIn([a, b, c]), u) == Some(o)
    ensures Lookup(a.run, u) == Some(w)
  {
    hide Less, Plain, Solid, FindInLevel, Lookup, ThreeKeys, FirstInternal;
    ThreeSolid(x, u, z, v, w, o, y);
    FirstInternals(a.run, b.run);
    FirstInternals(b.run, c.run);
    LessTransitive(x, u, z);
    FirstInternals(a.run, c.run);
    ThreeFirsts(a, b, c);
    assert [Entry(x, v)] + [Entry(u, w)] == a.run;
    HitOfPair(x, u, v, [Entry(u, w)]);
    TouchingFilesMislead(a.run, u, w, o, z, y);
    assert RunsIn([a, b, c]) == [a.run, b.run, c.run];
  }

  /** A file that the overlap test misses is read instead of level 0's newer value. */
  lemma MissedFileIsRead(l0: seq<File>, l1: seq<File>, outs: seq<File>,
                         x: Bytes, u: Bytes, z: Bytes, v: Bytes, w: Bytes, o: Bytes, y: Bytes)
    requires ThreeKeys(x, u, z, v, w, o, y)
    requires Missing1(l0, l1, outs, [Entry(x, v), Entry(u, w)], [Entry(u, o)], [Entry(z, y)])
    ensures Compacted(l0, l1, outs) && FirstKeysDiffer(Kept(l0, l1) + outs)
    ensures HitBefore(RunsIn(l0), RunsIn(l1), u) == Some(w)
    ensures FindInLevel(RunsIn(NewLevel1(l0, l1, outs)), u) == Some(o)
  {
    hide Less, Plain, SortFiles, NewLevel1, Kept, FindInLevel, Lookup, FindNewest, FirstLess, ThreeKeys, Compacted;
    MissedIsCompacted(l0, l1, outs, x, u, z, v, w, o, y);
    ThreeSolid(x, u, z, v, w, o, y);
    ThreeInOrder(outs[0], l1[0], l1[1], x, u, z, v, w, o, y);
    CompactedParts(l0, l1, outs);
    NewLevel1Is(l0, l1, outs);
    assert l1 + outs == [l1[0], l1[1], outs[0]];
    SortsLeastLast(outs[0], l1[0], l1[1]);
    assert RunsIn(l0) == [outs[0].run];
    NewestOne(outs[0].run, u);
  }

  /** One table of level 0, cut into three outputs between the two versions of its middle key. */
  ghost predicate CutInThree(l0: seq<File>, outs: seq<File>, t: Table, a: Table, b: Table, c: Table)
  {
    |l0| == 1 && l0[0].run == t && |outs| == 3 && outs[0].run == a && outs[1].run == b && outs[2].run == c
  }

  lemma CutIsCompacted(l0: seq<File>, outs: seq<File>, x: Bytes, u: Bytes, z: Bytes, v: Bytes, w: Bytes, o: Bytes, y: Bytes)
    requires ThreeKeys(x, u, z, v, w, o, y)
    requires CutInThree(l0, outs, [Entry(x, v), Entry(u, w), Entry(u, o), Entry(z, y)],
                        [Entry(x, v), Entry(u, w)], [Entry(u, o)], [Entry(z, y)])
    ensures Compacted(l0, [], outs) && Kept(l0, []) == []
  {
    hide Less, Plain, Solid, Kept, Merged, ThreeKeys, Compacted, Join, OrderedLevel;
    ThreeSolid(x, u, z, v, w, o, y);
    NothingMerged(l0, []);
    assert RunsIn(outs) == [outs[0].run, outs[1].run, outs[2].run];
    JoinThree(outs[0].run, outs[1].run, outs[2].run);
    LiveKeys(x, u, z, v, w, o, y);
    NoFiles();
    OneTableCompacted(l0, [], outs);
  }

  /** An output that cuts a key: the older version is read instead of the newer one. */
  lemma CutKeyMisleads(l0: seq<File>, outs: seq<File>, x: Bytes, u: Bytes, z: Bytes, v: Bytes, w: Bytes, o: Bytes, y: Bytes)
    requires ThreeKeys(x, u, z, v, w, o, y)
    requires CutInThree(l0, outs, [Entry(x, v), Entry(u, w), Entry(u, o), Entry(z, y)],
                        [Entry(x, v), Entry(u, w)], [Entry(u, o)], [Entry(z, y)])
    ensures Compacted(l0, [], outs) && FirstKeysDiffer(Kept(l0, []) + outs)
    ensures HitBefore(RunsIn(l0), RunsIn([]), u) == Some(w)
    ensures FindInLevel(RunsIn(NewLevel1(l0, [], outs)), u) == Some(o)
  {
    hide Less, Plain, SortFiles, NewLevel1, Kept, FindInLevel, Lookup, FindNewest, FirstLess, ThreeKeys, Compacted;
    CutIsCompacted(l0, outs, x, u, z, v, w, o, y);
    ThreeSolid(x, u, z, v, w, o, y);
    ThreeInOrder(outs[0], outs[1], outs[2], x, u, z, v, w, o, y);
    NewLevel1Is(l0, [], outs);
    assert [] + outs == [outs[0], outs[1], outs[2]];
    SortsOrdered(outs[0], outs[1], outs[2]);
    assert RunsIn(l0) == [l0[0].run];
    NewestOne(l0[0].run, u);
    assert [Entry(x, v)] + [Entry(u, w), Entry(u, o), Entry(z, y)] == l0[0].run;
    HitOfPair(x, u, v, [Entry(u, w), Entry(u, o), Entry(z, y)]);
  }

  lemma NoFiles()
    ensures OrderedLevel(RunsIn([]))
  {}

  lemma JoinThree(a: Run, b: Run, c: Run)
    ensures Join([a, b, c]) == a + b + c
  {
    assert [a, b, c][..2] == [a, b] && [a, b][..1] == [a];
    JoinOne(a);
    assert Join([a, b]) == a + b;
  }

  lemma LiveKeys(x: Bytes, u: Bytes, z: Bytes, v: Bytes, w: Bytes, o: Bytes, y: Bytes)
    requires ThreeKeys(x, u, z, v, w, o, y)
    ensures v != [] && w != [] && o != [] && y != []
  {}

  lemma ThreeFirsts(a: File, b: File, c: File)
    requires Less(FirstInternal(a.run), FirstInternal(b.run)) && !Less(FirstInternal(b.run), FirstInternal(a.run))
    requires Less(FirstInternal(b.run), FirstInternal(c.run)) && !Less(FirstInternal(c.run), FirstInternal(b.run))
    requires Less(FirstInternal(a.run), FirstInternal(c.run)) && !Less(FirstInternal(c.run), FirstInternal(a.run))
    ensures FirstLess(a, b) && FirstLess(b, c) && FirstLess(a, c)
  {}
}
