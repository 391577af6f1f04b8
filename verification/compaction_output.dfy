/** What a compaction writes, and why lookups do not change (DB::BackgroundCompaction in src/db.cc). */
module CompactionOutputs {
  import opened Slices
  import opened Entries
  import opened InternalKeys
  import opened Levels
  import opened Merging
  import opened Compactions

  // ---- The entries that are written ----

  function Strip(e: Entry): Entry
  {
    Entry(ExtractUserKey(e.key), e.value)
  }

  /** The loop over the merge: empty values are dropped, the rest goes to the builders under its user key. */
  function LiveOf(out: seq<Entry>): seq<Entry>
  {
    if out == [] then []
    else (if out[0].value == [] then [] else [Strip(out[0])]) + LiveOf(out[1..])
  }

  function NumberedAll(inputs: seq<Run>): (runs: Runs)
    requires ShortTables(inputs)
    ensures |runs| == |inputs|
  {
    seq(|inputs|, i requires 0 <= i < |inputs| => Numbered(inputs[i]))
  }

  function LiveEntries(inputs: seq<Run>): seq<Entry>
    requires ShortTables(inputs)
  {
    LiveOf(Merge(NumberedAll(inputs)))
  }

  lemma NumberedMember(t: Run, e: Entry)
    requires |t| <= MAX_SEQUENCE
    ensures e in Numbered(t) ==> Strip(e) in t
    ensures e in t ==> exists x :: x in Numbered(t) && Strip(x) == e
  {
    hide Version;
    forall i | 0 <= i < |t|
      ensures Strip(Numbered(t)[i]) == t[i]
    {
      StripVersion(t, i);
    }
    if e in t {
      var i :| 0 <= i < |t| && t[i] == e;
      assert Numbered(t)[i] in Numbered(t);
    }
  }

  lemma StripVersion(t: Run, i: nat)
    requires i < |t| <= MAX_SEQUENCE
    ensures Strip(Entry(Version(t, i), t[i].value)) == t[i]
  {
    InternalKeyRoundTrip(t[i].key, i + 1, TypeOf(t[i].value));
  }

  lemma {:induction false} LiveOfMembers(out: seq<Entry>, e: Entry)
    ensures e in LiveOf(out) <==> e.value != [] && exists x :: x in out && Strip(x) == e
  {
    hide Strip;
    if out != [] {
      LiveOfMembers(out[1..], e);
      StripValue(out[0]);
      if x :| x in out && Strip(x) == e { assert x == out[0] || x in out[1..]; }
    }
  }

  lemma StripValue(e: Entry)
    ensures Strip(e).value == e.value
  {}

  /** Exactly the entries of the inputs that are not deletions. */
  lemma LiveMembers(inputs: seq<Run>, e: Entry)
    requires ShortTables(inputs)
    ensures e in LiveEntries(inputs) <==> Holds(inputs, e) && e.value != []
  {
    hide Merge, Numbered, LiveOf, Strip;
    var runs := NumberedAll(inputs);
    LiveOfMembers(Merge(runs), e);
    if x :| x in Merge(runs) && Strip(x) == e {
      MergeMembers(runs, x);
      var i :| 0 <= i < |runs| && x in runs[i];
      NumberedMember(inputs[i], x);
    }
    if Holds(inputs, e) {
      var i :| 0 <= i < |inputs| && e in inputs[i];
      NumberedMember(inputs[i], e);
      var x :| x in Numbered(inputs[i]) && Strip(x) == e;
      assert x in runs[i];
      MergeMembers(runs, x);
    }
  }

  // ---- Their order ----

  lemma NumberedIsSorted(t: Run)
    requires GoodTable(t)
    ensures RunSorted(Numbered(t))
  {
    hide Less, Version, ExtractUserKey;
    forall i | 0 <= i < |t|
      ensures WellKeyed(Numbered(t)[i]) && ExtractUserKey(Numbered(t)[i].key) == t[i].key
    {
      VersionIsWellKeyed(t, i);
    }
  }

  lemma VersionIsWellKeyed(t: Run, i: nat)
    requires i < |t| <= MAX_SEQUENCE && Plain(t[i].key)
    ensures WellKeyed(Entry(Version(t, i), t[i].value)) && ExtractUserKey(Version(t, i)) == t[i].key
  {
    TrailerHead(i + 1, TypeOf(t[i].value));
    InternalKeyRoundTrip(t[i].key, i + 1, TypeOf(t[i].value));
  }

  /** No user key twice in all the runs together. */
  ghost predicate DistinctRuns(rest: Runs)
  {
    forall i, a, j, b | 0 <= i < |rest| && 0 <= a < |rest[i]| && 0 <= j < |rest| && 0 <= b < |rest[j]| ::
      Strip(rest[i][a]).key == Strip(rest[j][b]).key ==> i == j && a == b
  }

  ghost predicate Distinct(out: seq<Entry>)
  {
    forall i, j :: 0 <= i < j < |out| ==> Strip(out[i]).key != Strip(out[j]).key
  }

  lemma DistinctAdvance(rest: Runs, p: nat, e: Entry)
    requires DistinctRuns(rest) && p < |rest| && rest[p] != []
    ensures DistinctRuns(Advance(rest, p))
    ensures Among(Advance(rest, p), e) ==> Strip(e).key != Strip(rest[p][0]).key
  {
    hide Strip;
    var next := Advance(rest, p);
    forall i, a | 0 <= i < |next| && 0 <= a < |next[i]|
      ensures next[i][a] == rest[i][if i == p then a + 1 else a]
    {}
    if Among(next, e) {
      var i :| 0 <= i < |next| && e in next[i];
      var a :| 0 <= a < |next[i]| && next[i][a] == e;
    }
  }

  lemma {:induction false} MergeDistinct(rest: Runs)
    requires DistinctRuns(rest)
    ensures Distinct(Merge(rest))
    decreases Total(rest)
  {
    hide Strip, Ahead, DistinctRuns;
    match LeastFrom(rest, 0)
    case None => {}
    case Some(p) =>
      var next := Advance(rest, p);
      TotalAdvance(rest, p);
      DistinctAdvance(rest, p, rest[p][0]);
      MergeDistinct(next);
      var out, tail := Merge(rest), Merge(next);
      forall j | 0 < j < |out|
        ensures Strip(out[0]).key != Strip(out[j]).key
      {
        assert out[j] == tail[j - 1];
        MergeMembers(next, out[j]);
        DistinctAdvance(rest, p, out[j]);
      }
      forall i, j | 0 <= i < j < |out|
        ensures Strip(out[i]).key != Strip(out[j]).key
      {
        if i > 0 { assert out[i] == tail[i - 1] && out[j] == tail[j - 1]; }
      }
  }

  lemma NumberedDistinct(inputs: seq<Run>)
    requires ShortTables(inputs) && UniqueKeys(inputs)
    ensures DistinctRuns(NumberedAll(inputs))
  {
    hide Version, Strip;
    var runs := NumberedAll(inputs);
    forall i, a | 0 <= i < |runs| && 0 <= a < |runs[i]|
      ensures Strip(runs[i][a]) == inputs[i][a]
    {
      StripVersion(inputs[i], a);
    }
  }

  ghost predicate StrictlyPlain(es: seq<Entry>)
  {
    Sorted(es) && PlainEntries(es)
  }

  lemma {:induction false} LiveOfStrict(out: seq<Entry>)
    requires RunSorted(out) && Distinct(out)
    ensures StrictlyPlain(LiveOf(out))
  {
    hide Less, ExtractUserKey, WellKeyed, Plain;
    if out != [] {
      var tail := out[1..];
      assert RunSorted(tail) && Distinct(tail);
      LiveOfStrict(tail);
      var e, live := Strip(out[0]), LiveOf(tail);
      WellKeyedIsPlain(out[0]);
      forall j | 0 <= j < |live|
        ensures Less(e.key, live[j].key)
      {
        LiveOfMembers(tail, live[j]);
        var x :| x in tail && Strip(x) == live[j];
        var k :| 0 <= k < |tail| && tail[k] == x;
        assert out[k + 1] == x;
        LessTotal(e.key, live[j].key);
      }
      ConsStrict(e, live);
    }
  }

  /** Whatever the inputs, the written entries have non-decreasing plain user keys. */
  lemma {:induction false} LiveOfSorted(out: seq<Entry>)
    requires RunSorted(out)
    ensures UserSorted(LiveOf(out)) && PlainEntries(LiveOf(out))
  {
    hide Less, ExtractUserKey, WellKeyed, Plain;
    if out != [] {
      var tail := out[1..];
      assert RunSorted(tail);
      LiveOfSorted(tail);
      var e, live := Strip(out[0]), LiveOf(tail);
      WellKeyedIsPlain(out[0]);
      forall j | 0 <= j < |live|
        ensures !Less(live[j].key, e.key)
      {
        LiveOfMembers(tail, live[j]);
        var x :| x in tail && Strip(x) == live[j];
        var k :| 0 <= k < |tail| && tail[k] == x;
        assert out[k + 1] == x;
      }
      ConsUserSorted(e, live);
    }
  }

  lemma ConsUserSorted(e: Entry, live: seq<Entry>)
    requires UserSorted(live) && PlainEntries(live) && Plain(e.key)
    requires forall j :: 0 <= j < |live| ==> !Less(live[j].key, e.key)
    ensures UserSorted([e] + live) && PlainEntries([e] + live)
    ensures UserSorted([] + live) && PlainEntries([] + live)
  {
    hide Less, Plain;
    var r := [e] + live;
    assert [] + live == live;
    forall i, j | 0 <= i < j < |r|
      ensures !Less(r[j].key, r[i].key)
    {
      if i > 0 { assert r[i] == live[i - 1] && r[j] == live[j - 1]; }
    }
  }

  lemma WellKeyedIsPlain(e: Entry)
    requires WellKeyed(e)
    ensures Plain(ExtractUserKey(e.key))
  {}

  lemma ConsStrict(e: Entry, live: seq<Entry>)
    requires StrictlyPlain(live) && Plain(e.key) && forall j :: 0 <= j < |live| ==> Less(e.key, live[j].key)
    ensures StrictlyPlain([e] + live)
  {
    hide Less, Plain;
    var r := [e] + live;
    forall i, j | 0 <= i < j < |r|
      ensures Less(r[i].key, r[j].key)
    {
      if i > 0 { assert r[i] == live[i - 1] && r[j] == live[j - 1]; }
    }
  }

  lemma LiveIsSorted(inputs: seq<Run>)
    requires GoodTables(inputs)
    ensures UserSorted(LiveEntries(inputs)) && PlainEntries(LiveEntries(inputs))
  {
    hide Merge, Numbered, LiveOf, RunSorted, UserSorted, PlainEntries;
    var runs := NumberedAll(inputs);
    forall j | 0 <= j < |runs|
      ensures RunSorted(runs[j])
    {
      NumberedIsSorted(inputs[j]);
    }
    MergeSorted(runs);
    LiveOfSorted(Merge(runs));
  }

  /** With every key held once, the entries to write have strictly increasing plain user keys. */
  lemma LiveIsStrict(inputs: seq<Run>)
    requires GoodTables(inputs) && UniqueKeys(inputs)
    ensures StrictlyPlain(LiveEntries(inputs))
  {
    hide Merge, Numbered, LiveOf, RunSorted, UniqueKeys, UserSorted, PlainEntries;
    var runs := NumberedAll(inputs);
    forall j | 0 <= j < |runs|
      ensures RunSorted(runs[j])
    {
      NumberedIsSorted(inputs[j]);
    }
    MergeSorted(runs);
    NumberedDistinct(inputs);
    MergeDistinct(runs);
    LiveOfStrict(Merge(runs));
  }

  // ---- The files they are cut into ----

  function Join(files: seq<Run>): Run
  {
    if files == [] then [] else Join(files[..|files| - 1]) + files[|files| - 1]
  }

  lemma {:induction false} JoinHolds(files: seq<Run>, e: Entry)
    ensures e in Join(files) <==> Holds(files, e)
  {
    if files != [] {
      var n := |files| - 1;
      JoinHolds(files[..n], e);
      if i :| 0 <= i < |files| && e in files[i] { assert i == n || e in files[..n][i]; }
      if i :| 0 <= i < n && e in files[..n][i] { assert e in files[i]; }
    }
  }

  /** No key is cut in two. */
  ghost predicate WholeKeys(files: seq<Run>)
  {
    forall i :: 0 < i < |files| ==> LastKey(files[i - 1]) != FirstKey(files[i])
  }

  lemma PartsSorted(a: Run, b: Run)
    requires UserSorted(a + b) && PlainEntries(a + b)
    ensures UserSorted(a) && PlainEntries(a) && UserSorted(b) && PlainEntries(b)
    ensures a != [] && b != [] ==> !Less(FirstKey(b), LastKey(a))
  {
    hide Less, Plain;
    var r := a + b;
    assert a == r[..|a|] && b == r[|a|..];
    forall i, j | 0 <= i < j < |b|
      ensures !Less(b[j].key, b[i].key)
    {
      assert b[i] == r[|a| + i] && b[j] == r[|a| + j];
    }
    forall i | 0 <= i < |b|
      ensures Plain(b[i].key)
    {
      assert b[i] == r[|a| + i];
    }
    if a != [] && b != [] { assert r[|a| - 1] == a[|a| - 1] && r[|a|] == b[0]; }
  }

  /** Cutting sorted entries into non-empty files, never in the middle of a key, gives an ordered level. */
  lemma {:induction false} ChunksOrdered(files: seq<Run>)
    requires UserSorted(Join(files)) && PlainEntries(Join(files)) && WholeKeys(files)
    requires forall i :: 0 <= i < |files| ==> files[i] != [] && |files[i]| <= MAX_SEQUENCE
    ensures OrderedLevel(files)
  {
    hide Less, UserSorted, PlainEntries, FirstKey, LastKey;
    if files != [] {
      var n := |files| - 1;
      var before := files[..n];
      PartsSorted(Join(before), files[n]);
      ChunksOrdered(before);
      if n > 0 {
        LastOfJoin(before);
        LessTotal(LastKey(files[n - 1]), FirstKey(files[n]));
        forall i | 0 <= i < n
          ensures Less(LastKey(files[i]), FirstKey(files[n]))
        {
          if i < n - 1 { AcrossFile(files[i], before[n - 1], files[n]); }
        }
      }
    }
  }

  /** Cut anywhere at all, neighbouring files may share a key, but no more than that. */
  lemma {:induction false} ChunksTouch(files: seq<Run>)
    requires UserSorted(Join(files)) && PlainEntries(Join(files))
    requires forall i :: 0 <= i < |files| ==> files[i] != [] && |files[i]| <= MAX_SEQUENCE
    ensures TouchingLevel(files)
  {
    hide Less, UserSorted, PlainEntries, FirstKey, LastKey;
    if files != [] {
      var n := |files| - 1;
      var before := files[..n];
      PartsSorted(Join(before), files[n]);
      ChunksTouch(before);
      if n > 0 {
        LastOfJoin(before);
        forall i | 0 <= i < n
          ensures !Less(FirstKey(files[n]), LastKey(files[i]))
        {
          if i < n - 1 { PastFile(files[i], before[n - 1], files[n]); }
        }
      }
    }
  }

  lemma PastFile(a: Run, b: Run, c: Run)
    requires b != [] && GoodTable(b) && !Less(FirstKey(b), LastKey(a)) && !Less(FirstKey(c), LastKey(b))
    ensures !Less(FirstKey(c), LastKey(a))
  {
    hide Less, UserSorted, PlainEntries, FirstKey, LastKey;
    LessIsStrictTotalOrder();
    RangeOrdered(b);
  }

  lemma LastOfJoin(files: seq<Run>)
    requires files != [] && files[|files| - 1] != []
    ensures Join(files) != [] && LastKey(Join(files)) == LastKey(files[|files| - 1])
  {}

  lemma AcrossFile(a: Run, b: Run, c: Run)
    requires b != [] && GoodTable(b) && Less(LastKey(a), FirstKey(b)) && Less(LastKey(b), FirstKey(c))
    ensures Less(LastKey(a), FirstKey(c))
  {
    hide Less, UserSorted, PlainEntries, FirstKey, LastKey;
    LessIsStrictTotalOrder();
    RangeOrdered(b);
  }

  /** Where no key is written twice, any cut keeps the keys whole. */
  lemma {:induction false} UniqueCutsAreWhole(files: seq<Run>)
    requires StrictlyPlain(Join(files)) && forall i :: 0 <= i < |files| ==> files[i] != []
    ensures WholeKeys(files)
  {
    hide Less, Plain, FirstKey, LastKey;
    if files != [] {
      var n := |files| - 1;
      StrictParts(Join(files[..n]), files[n]);
      UniqueCutsAreWhole(files[..n]);
      if n > 0 { LastOfJoin(files[..n]); LessIrreflexive(LastKey(files[n - 1])); }
    }
  }

  lemma StrictParts(a: Run, b: Run)
    requires StrictlyPlain(a + b)
    ensures StrictlyPlain(a)
    ensures a != [] && b != [] ==> Less(LastKey(a), FirstKey(b))
  {
    hide Less, Plain;
    var r := a + b;
    assert a == r[..|a|];
    if a != [] && b != [] { assert r[|a| - 1] == a[|a| - 1] && r[|a|] == b[0]; }
  }
}
