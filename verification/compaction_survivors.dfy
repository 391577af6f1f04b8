/** What a merge does to keys that are held more than once (MergeIterator in src/iterator.cc and the output loop
    of src/db.cc): which version survives, and exactly when that is the right one. */
module Survivors {
  import opened Slices
  import opened Coding
  import opened Entries
  import opened InternalKeys
  import opened Levels
  import opened Merging
  import opened Compactions
  import opened CompactionOutputs

  // ---- The merge removes no duplicates ----

  /** The merged output has distinct user keys exactly when the inputs have. */
  lemma {:induction false} MergeDistinctExactly(rest: Runs)
    ensures Distinct(Merge(rest)) <==> DistinctRuns(rest)
    decreases Total(rest)
  {
    hide Strip, Ahead, DistinctRuns;
    if DistinctRuns(rest) { MergeDistinct(rest); }
    if Distinct(Merge(rest)) {
      match LeastFrom(rest, 0)
      case None => NothingTwice(rest);
      case Some(p) =>
        var next := Advance(rest, p);
        TotalAdvance(rest, p);
        var out, tail := Merge(rest), Merge(next);
        forall i, j | 0 <= i < j < |tail| ensures Strip(tail[i]).key != Strip(tail[j]).key {
          assert tail[i] == out[i + 1] && tail[j] == out[j + 1];
        }
        MergeDistinctExactly(next);
        forall e | Among(next, e) ensures Strip(e).key != Strip(rest[p][0]).key {
          MergeMembers(next, e);
          var j :| 0 <= j < |tail| && tail[j] == e;
          assert out[j + 1] == e && out[0] == rest[p][0];
        }
        DistinctBack(rest, p);
    }
  }

  lemma NothingTwice(rest: Runs)
    requires LeastFrom(rest, 0) == None
    ensures DistinctRuns(rest)
  {
    hide Strip, Ahead;
    forall i | 0 <= i < |rest| ensures rest[i] == [] {
      if rest[i] != [] { LeastFromIsLeast(rest, 0, i); }
    }
  }

  lemma DistinctBack(rest: Runs, p: nat)
    requires p < |rest| && rest[p] != [] && DistinctRuns(Advance(rest, p))
    requires forall e :: Among(Advance(rest, p), e) ==> Strip(e).key != Strip(rest[p][0]).key
    ensures DistinctRuns(rest)
  {
    hide Strip;
    var next := Advance(rest, p);
    forall i, a | 0 <= i < |rest| && 0 <= a < |rest[i]| && !(i == p && a == 0)
      ensures 0 <= (if i == p then a - 1 else a) < |next[i]| && next[i][if i == p then a - 1 else a] == rest[i][a]
      ensures Strip(rest[i][a]).key != Strip(rest[p][0]).key
    {
      assert rest[i][a] in next[i];
      assert Among(next, rest[i][a]);
    }
  }

  // ---- Which version comes first ----

  /** Entry `a` of child `i` is that child's first value of `u` that the output loop would write. */
  ghost predicate FirstLive(rest: Runs, u: Bytes, i: nat, a: nat)
  {
    && i < |rest| && a < |rest[i]| && ExtractUserKey(rest[i][a].key) == u && rest[i][a].value != []
    && forall b :: 0 <= b < a && ExtractUserKey(rest[i][b].key) == u ==> rest[i][b].value == []
  }

  predicate ComesFirst(rest: Runs, i: nat, a: nat, j: nat, b: nat)
    requires i < |rest| && a < |rest[i]| && j < |rest| && b < |rest[j]|
  {
    Less(rest[i][a].key, rest[j][b].key) || (rest[i][a].key == rest[j][b].key && i <= j)
  }

  /** Deletions of `u` sort before its values, as the type byte of the trailer has it. */
  ghost predicate DeletionsFirst(rest: Runs, u: Bytes)
  {
    forall i, a, j, b | 0 <= i < |rest| && 0 <= a < |rest[i]| && 0 <= j < |rest| && 0 <= b < |rest[j]|
                        && ExtractUserKey(rest[i][a].key) == u && ExtractUserKey(rest[j][b].key) == u
                        && rest[i][a].value == [] && rest[j][b].value != [] :: Less(rest[i][a].key, rest[j][b].key)
  }

  /** Of the children's first live versions of a key the least is the first that is written. */
  lemma {:induction false} LeastVersionSurvives(rest: Runs, u: Bytes, i: nat, a: nat)
    requires (forall k :: 0 <= k < |rest| ==> RunSorted(rest[k])) && DeletionsFirst(rest, u)
    requires FirstLive(rest, u, i, a)
    requires forall j: nat, b: nat :: FirstLive(rest, u, j, b) ==> ComesFirst(rest, i, a, j, b)
    ensures Lookup(LiveOf(Merge(rest)), u) == Some(rest[i][a].value)
    decreases Total(rest)
  {
    hide Less, Ahead, ExtractUserKey, RunSorted, DeletionsFirst;
    LeastFromIsLeast(rest, 0, i);
    var p := LeastFrom(rest, 0).value;
    var next := Advance(rest, p);
    TotalAdvance(rest, p);
    MergeUnfolds(rest, p);
    LiveUnfold(rest[p][0], Merge(next), u);
    if ExtractUserKey(rest[p][0].key) == u && rest[p][0].value != [] {
      assert FirstLive(rest, u, p, 0);
      HeadIsWinner(rest, u, p, i, a);
    } else {
      var b := if i == p then a - 1 else a;
      forall k | 0 <= k < |next| ensures RunSorted(next[k]) { RunTail(rest[p]); }
      FewerDeletionsFirst(rest, u, p);
      forall j: nat, c: nat | FirstLive(next, u, j, c)
        ensures ComesFirst(next, i, b, j, c)
      {
        AdvancedLive(rest, u, p, j, c);
      }
      assert next[i][b] == rest[i][a];
      StillLive(rest, u, p, i, a);
      LeastVersionSurvives(next, u, i, b);
    }
  }

  lemma FewerDeletionsFirst(rest: Runs, u: Bytes, p: nat)
    requires DeletionsFirst(rest, u) && p < |rest| && rest[p] != []
    ensures DeletionsFirst(Advance(rest, p), u)
  {
    hide Less, ExtractUserKey;
    var next := Advance(rest, p);
    forall i, a | 0 <= i < |next| && 0 <= a < |next[i]|
      ensures next[i][a] == rest[i][if i == p then a + 1 else a]
    {}
  }

  /** A first live version of the advanced children was one before. */
  lemma AdvancedLive(rest: Runs, u: Bytes, p: nat, j: nat, c: nat)
    requires p < |rest| && rest[p] != [] && (ExtractUserKey(rest[p][0].key) != u || rest[p][0].value == [])
    requires FirstLive(Advance(rest, p), u, j, c)
    ensures var d := if j == p then c + 1 else c;
            FirstLive(rest, u, j, d) && Advance(rest, p)[j][c] == rest[j][d]
  {
    hide ExtractUserKey;
    var d, next := if j == p then c + 1 else c, Advance(rest, p);
    forall b | 0 <= b < d && ExtractUserKey(rest[j][b].key) == u
      ensures rest[j][b].value == []
    {
      if j == p && b > 0 { assert next[j][b - 1] == rest[j][b]; }
      if j != p { assert next[j][b] == rest[j][b]; }
    }
  }

  lemma StillLive(rest: Runs, u: Bytes, p: nat, i: nat, a: nat)
    requires p < |rest| && rest[p] != [] && (ExtractUserKey(rest[p][0].key) != u || rest[p][0].value == [])
    requires FirstLive(rest, u, i, a)
    ensures FirstLive(Advance(rest, p), u, i, if i == p then a - 1 else a)
  {
    hide ExtractUserKey;
    var b, next := if i == p then a - 1 else a, Advance(rest, p);
    assert next[i][b] == rest[i][a];
    forall c | 0 <= c < b && ExtractUserKey(next[i][c].key) == u
      ensures next[i][c].value == []
    {
      assert next[i][c] == rest[i][if i == p then c + 1 else c];
    }
  }

  /** The first entry of the merge either is the answer for its key or leaves the others' answers alone. */
  lemma LiveUnfold(e: Entry, tail: seq<Entry>, u: Bytes)
    ensures Lookup(LiveOf([e] + tail), u)
            == if e.value != [] && ExtractUserKey(e.key) == u then Some(e.value) else Lookup(LiveOf(tail), u)
  {
    hide ExtractUserKey;
    assert ([e] + tail)[1..] == tail;
    assert ([Strip(e)] + LiveOf(tail))[1..] == LiveOf(tail) && [] + LiveOf(tail) == LiveOf(tail);
  }

  /** When the merge reaches a live version, every deletion of the key is behind it. */
  lemma HeadIsWinner(rest: Runs, u: Bytes, p: nat, i: nat, a: nat)
    requires (forall k :: 0 <= k < |rest| ==> RunSorted(rest[k])) && DeletionsFirst(rest, u)
    requires LeastFrom(rest, 0) == Some(p) && FirstLive(rest, u, p, 0) && FirstLive(rest, u, i, a)
    requires ComesFirst(rest, i, a, p, 0)
    ensures i == p && a == 0
  {
    hide Less, ExtractUserKey, RunSorted, LeastFrom, DeletionsFirst;
    LeastFromIsLeast(rest, 0, i);
    var x, y := rest[i][0].key, rest[p][0].key;
    LessIrreflexive(y);
    HeadIsLeast(rest, p, i, 0);
    StartsWith(rest[i], u, a);
    if a > 0 { DeletionSortsFirst(rest, u, i, 0, p, 0); }
    if Less(x, y) && Less(y, x) { LessTransitive(x, y, x); }
    LessIrreflexive(x);
  }

  lemma DeletionSortsFirst(rest: Runs, u: Bytes, i: nat, a: nat, j: nat, b: nat)
    requires DeletionsFirst(rest, u) && i < |rest| && a < |rest[i]| && j < |rest| && b < |rest[j]|
    requires ExtractUserKey(rest[i][a].key) == u == ExtractUserKey(rest[j][b].key)
    requires rest[i][a].value == [] && rest[j][b].value != []
    ensures Less(rest[i][a].key, rest[j][b].key)
  {
    hide Less, ExtractUserKey;
  }

  /** A run whose first user key is not below `u` and that holds `u` starts with it. */
  lemma StartsWith(s: seq<Entry>, u: Bytes, a: nat)
    requires RunSorted(s) && a < |s| && ExtractUserKey(s[a].key) == u
    ensures Less(ExtractUserKey(s[0].key), u) || ExtractUserKey(s[0].key) == u
  {
    hide Less, ExtractUserKey, WellKeyed;
    LessTotal(ExtractUserKey(s[0].key), u);
  }

  /** Without a live version nothing is written for the key. */
  lemma NothingSurvives(rest: Runs, u: Bytes)
    requires forall i, x :: 0 <= i < |rest| && x in rest[i] && Strip(x).key == u ==> x.value == []
    ensures Lookup(LiveOf(Merge(rest)), u) == None
  {
    hide Merge, LiveOf, Strip;
    var live := LiveOf(Merge(rest));
    LookupNone(live, u);
    forall e | e in live ensures e.key != u {
      LiveOfMembers(Merge(rest), e);
      var x :| x in Merge(rest) && Strip(x) == e;
      StripValue(x);
      MergeMembers(rest, x);
      var i :| 0 <= i < |rest| && x in rest[i];
    }
  }

  // ---- In terms of the tables ----

  /** Where a table first holds a live value of the key. */
  function LivePosition(t: Run, u: Bytes): (r: Option<nat>)
    ensures r.Some? ==> r.value < |t| && t[r.value].key == u && t[r.value].value != []
    ensures r.Some? ==> forall a :: 0 <= a < r.value && t[a].key == u ==> t[a].value == []
    ensures r.None? ==> forall a :: 0 <= a < |t| && t[a].key == u ==> t[a].value == []
  {
    if t == [] then None
    else if t[0].key == u && t[0].value != [] then Some(0)
    else
      match LivePosition(t[1..], u)
      case None => None
      case Some(a) => Some(a + 1)
  }

  /** Of the tables that hold a live value, the one whose version survives: the larger number at the lowest differing
      byte wins, and among equal numbers the earlier table. */
  function Survivor(inputs: seq<Run>, u: Bytes): (r: Option<nat>)
    ensures r.Some? ==> r.value < |inputs| && LivePosition(inputs[r.value], u).Some?
    ensures r.None? ==> forall i :: 0 <= i < |inputs| ==> LivePosition(inputs[i], u).None?
  {
    if inputs == [] then None
    else
      var n := |inputs| - 1;
      var before := Survivor(inputs[..n], u);
      match LivePosition(inputs[n], u)
      case None => before
      case Some(a) =>
        if before.None? then Some(n)
        else if LowBytesGrow(LivePosition(inputs[before.value], u).value + 1, a + 1, 7) then Some(n)
        else before
  }

  /** What the merged entries answer. */
  function SurvivingValue(inputs: seq<Run>, u: Bytes): Option<Bytes>
  {
    match Survivor(inputs, u)
    case None => None
    case Some(i) => Some(inputs[i][LivePosition(inputs[i], u).value].value)
  }

  /** Two live versions of one key, in the merge. */
  lemma LiveOrder(s: Run, a: nat, t: Run, b: nat)
    requires a < |s| <= MAX_SEQUENCE && b < |t| <= MAX_SEQUENCE && s[a].key == t[b].key
    requires s[a].value != [] && t[b].value != []
    ensures Less(Version(s, a), Version(t, b)) <==> LowBytesGrow(b + 1, a + 1, 7)
    ensures Version(s, a) == Version(t, b) <==> a == b
  {
    hide Less, LowBytesGrow;
    VersionOrder(s[a].key, a + 1, Value, b + 1, Value);
    InternalKeyRoundTrip(s[a].key, a + 1, Value);
    InternalKeyRoundTrip(t[b].key, b + 1, Value);
  }

  lemma NumberedEntry(inputs: seq<Run>, i: nat, a: nat)
    requires ShortTables(inputs) && i < |inputs| && a < |inputs[i]|
    ensures NumberedAll(inputs)[i][a] == Entry(Version(inputs[i], a), inputs[i][a].value)
    ensures ExtractUserKey(NumberedAll(inputs)[i][a].key) == inputs[i][a].key
    ensures Strip(NumberedAll(inputs)[i][a]) == inputs[i][a]
  {
    StripVersion(inputs[i], a);
  }

  lemma NumberedDeletionsFirst(inputs: seq<Run>, u: Bytes)
    requires ShortTables(inputs)
    ensures DeletionsFirst(NumberedAll(inputs), u)
  {
    hide Less, Version, ExtractUserKey;
    var rest: Runs := NumberedAll(inputs);
    forall i, a, j, b | 0 <= i < |rest| && 0 <= a < |rest[i]| && 0 <= j < |rest| && 0 <= b < |rest[j]|
                        && ExtractUserKey(rest[i][a].key) == u && ExtractUserKey(rest[j][b].key) == u
                        && rest[i][a].value == [] && rest[j][b].value != []
      ensures Less(rest[i][a].key, rest[j][b].key)
    {
      NumberedEntry(inputs, i, a);
      NumberedEntry(inputs, j, b);
      DeletionBeforeValue(inputs[i], a, inputs[j], b);
    }
  }

  lemma DeletionBeforeValue(s: Run, a: nat, t: Run, b: nat)
    requires a < |s| <= MAX_SEQUENCE && b < |t| <= MAX_SEQUENCE && s[a].key == t[b].key
    requires s[a].value == [] && t[b].value != []
    ensures Less(Version(s, a), Version(t, b))
  {
    hide Less;
    VersionOrder(s[a].key, a + 1, Deletion, b + 1, Value);
  }

  lemma LiveInNumbered(inputs: seq<Run>, u: Bytes, i: nat, a: nat)
    requires ShortTables(inputs)
    ensures FirstLive(NumberedAll(inputs), u, i, a) <==> i < |inputs| && LivePosition(inputs[i], u) == Some(a)
  {
    hide Less, Version, LivePosition, ExtractUserKey;
    if i < |inputs| && a < |inputs[i]| {
      forall b | 0 <= b < |inputs[i]|
        ensures ExtractUserKey(NumberedAll(inputs)[i][b].key) == inputs[i][b].key
        ensures NumberedAll(inputs)[i][b].value == inputs[i][b].value
      {
        NumberedEntry(inputs, i, b);
      }
    }
  }

  lemma {:induction false} SurvivorComesFirst(inputs: seq<Run>, u: Bytes, j: nat)
    requires ShortTables(inputs) && j < |inputs| && LivePosition(inputs[j], u).Some?
    ensures Survivor(inputs, u).Some?
    ensures var i := Survivor(inputs, u).value;
            var a, b := LivePosition(inputs[i], u).value, LivePosition(inputs[j], u).value;
            var s, t := Version(inputs[i], a), Version(inputs[j], b);
            Less(s, t) || (s == t && i <= j)
  {
    hide Less, Version, LivePosition, LowBytesGrow;
    var n := |inputs| - 1;
    LessIsStrictTotalOrder();
    var before := Survivor(inputs[..n], u);
    if j < n { SurvivorComesFirst(inputs[..n], u, j); }
    if before.Some? && LivePosition(inputs[n], u).Some? {
      var i := before.value;
      LiveOrder(inputs[n], LivePosition(inputs[n], u).value, inputs[i], LivePosition(inputs[i], u).value);
    }
  }

  /** What the merged entries answer for a key, whatever tables hold it and however often. */
  lemma SurvivorAnswers(inputs: seq<Run>, u: Bytes)
    requires GoodTables(inputs)
    ensures Lookup(LiveEntries(inputs), u) == SurvivingValue(inputs, u)
  {
    hide Less, Merge, LiveOf, Numbered, LivePosition, Survivor, Version, FirstLive, UserSorted, PlainEntries, RunSorted,
      DeletionsFirst, ExtractUserKey;
    var rest: Runs := NumberedAll(inputs);
    forall j: nat, b: nat ensures FirstLive(rest, u, j, b) <==> j < |inputs| && LivePosition(inputs[j], u) == Some(b) {
      LiveInNumbered(inputs, u, j, b);
    }
    match Survivor(inputs, u)
    case None => NoSurvivor(inputs, u);
    case Some(i) =>
      var a := LivePosition(inputs[i], u).value;
      forall k | 0 <= k < |rest| ensures RunSorted(rest[k]) { NumberedIsSorted(inputs[k]); }
      NumberedDeletionsFirst(inputs, u);
      forall j: nat, b: nat | FirstLive(rest, u, j, b) ensures ComesFirst(rest, i, a, j, b) {
        SurvivorComesFirst(inputs, u, j);
        NumberedEntry(inputs, i, a);
        NumberedEntry(inputs, j, b);
      }
      LeastVersionSurvives(rest, u, i, a);
      NumberedEntry(inputs, i, a);
  }

  lemma NoSurvivor(inputs: seq<Run>, u: Bytes)
    requires ShortTables(inputs) && Survivor(inputs, u).None?
    ensures Lookup(LiveEntries(inputs), u) == None
  {
    hide Merge, LiveOf, Numbered, LivePosition, Survivor, Version, Strip;
    var rest: Runs := NumberedAll(inputs);
    forall i, x | 0 <= i < |rest| && x in rest[i] && Strip(x).key == u
      ensures x.value == []
    {
      var a :| 0 <= a < |rest[i]| && rest[i][a] == x;
      NumberedEntry(inputs, i, a);
    }
    NothingSurvives(rest, u);
  }

  // ---- When that is right ----

  /** What level 0 and the files of level 1 that are merged with it answered before. */
  function HitBefore(l0: seq<Run>, merged: seq<Run>, u: Bytes): Option<Bytes>
  {
    Orelse(FindNewest(l0, u), FindInLevel(merged, u))
  }

  /** The surviving version is the one that answered before, or nothing survives and the key was gone. */
  ghost predicate RightSurvives(l0: seq<Run>, merged: seq<Run>, u: Bytes)
  {
    SurvivingValue(l0 + merged, u) == Answer(HitBefore(l0, merged, u))
  }

  lemma SurvivingIsLive(inputs: seq<Run>, u: Bytes)
    ensures Answer(SurvivingValue(inputs, u)) == SurvivingValue(inputs, u)
  {
    hide LivePosition, Survivor;
  }

  lemma MergeAnswersExactly(l0: seq<Run>, merged: seq<Run>, u: Bytes)
    requires GoodTables(l0 + merged)
    ensures Answer(Lookup(LiveEntries(l0 + merged), u)) == Answer(HitBefore(l0, merged, u)) <==> RightSurvives(l0, merged, u)
  {
    hide LiveEntries, SurvivingValue, HitBefore, GoodTable, Answer;
    SurvivorAnswers(l0 + merged, u);
    SurvivingIsLive(l0 + merged, u);
  }

  /** Tables in which nothing is held for the key. */
  ghost predicate HeldOnlyBy(inputs: seq<Run>, u: Bytes, i: nat, j: nat)
  {
    forall k :: 0 <= k < |inputs| && k != i && k != j ==> Lookup(inputs[k], u).None?
  }

  lemma NotHeldNotLive(t: Run, u: Bytes)
    requires Lookup(t, u).None?
    ensures LivePosition(t, u) == None
  {
    hide LivePosition;
    LookupNone(t, u);
  }

  /** The value a table answers is that of its first entry for the key: live exactly when no deletion precedes. */
  lemma FirstIsLive(t: Run, u: Bytes)
    requires Lookup(t, u).Some?
    ensures Lookup(t, u) != Some([]) ==>
              LivePosition(t, u).Some? && t[LivePosition(t, u).value].value == Lookup(t, u).value
  {
    hide LivePosition;
    var p := LookupFinds(t, u);
  }

  lemma {:induction false} NewestIs(l0: seq<Run>, u: Bytes, j: nat)
    requires j < |l0| && Lookup(l0[j], u).Some?
    requires forall k :: j < k < |l0| ==> Lookup(l0[k], u).None?
    ensures FindNewest(l0, u) == Lookup(l0[j], u)
  {
    hide Lookup;
    var n := |l0| - 1;
    if j < n { NewestIs(l0[..n], u, j); }
  }

  lemma {:induction false} NoneNewest(l0: seq<Run>, u: Bytes)
    requires forall k :: 0 <= k < |l0| ==> Lookup(l0[k], u).None?
    ensures FindNewest(l0, u) == None
  {
    hide Lookup;
    if l0 != [] { NoneNewest(l0[..|l0| - 1], u); }
  }

  lemma {:induction false} SurvivorOfTwo(inputs: seq<Run>, u: Bytes, i: nat, j: nat)
    requires i < j < |inputs| && HeldOnlyBy(inputs, u, i, j)
    ensures Survivor(inputs, u) ==
      if LivePosition(inputs[j], u).None? then (if LivePosition(inputs[i], u).None? then None else Some(i))
      else if LivePosition(inputs[i], u).None? then Some(j)
      else if LowBytesGrow(LivePosition(inputs[i], u).value + 1, LivePosition(inputs[j], u).value + 1, 7) then Some(j)
      else Some(i)
  {
    hide LivePosition, LowBytesGrow, Lookup;
    var n := |inputs| - 1;
    if j < n {
      NotHeldNotLive(inputs[n], u);
      SurvivorOfTwo(inputs[..n], u, i, j);
    } else {
      SurvivorOfOne(inputs[..n], u, i);
    }
  }

  lemma {:induction false} SurvivorOfOne(inputs: seq<Run>, u: Bytes, i: nat)
    requires i < |inputs| && HeldOnlyBy(inputs, u, i, i)
    ensures Survivor(inputs, u) == if LivePosition(inputs[i], u).None? then None else Some(i)
  {
    hide LivePosition, LowBytesGrow, Lookup;
    var n := |inputs| - 1;
    if i < n {
      NotHeldNotLive(inputs[n], u);
      SurvivorOfOne(inputs[..n], u, i);
    } else {
      NoSurvivorAmong(inputs[..n], u);
    }
  }

  lemma {:induction false} NoSurvivorAmong(inputs: seq<Run>, u: Bytes)
    requires forall k :: 0 <= k < |inputs| ==> Lookup(inputs[k], u).None?
    ensures Survivor(inputs, u) == None
  {
    hide LivePosition, Lookup;
    forall k | 0 <= k < |inputs| ensures LivePosition(inputs[k], u).None? { NotHeldNotLive(inputs[k], u); }
  }

  /** What one table's deletion hides comes back: a table answers as before exactly when its first entry for the key
      is live or none is. */
  ghost predicate NothingHidden(t: Run, u: Bytes)
  {
    Lookup(t, u) == Some([]) ==> LivePosition(t, u).None?
  }

  /** A key held by one table, any number of times. */
  lemma OneTableExactly(l0: seq<Run>, merged: seq<Run>, u: Bytes, i: nat)
    requires OrderedLevel(merged)
    requires i < |l0 + merged| && Lookup((l0 + merged)[i], u).Some? && HeldOnlyBy(l0 + merged, u, i, i)
    ensures RightSurvives(l0, merged, u) <==> NothingHidden((l0 + merged)[i], u)
  {
    hide Lookup, LivePosition, Survivor, FindNewest, FindInLevel, OrderedLevel;
    var all := l0 + merged;
    SurvivorOfOne(all, u, i);
    FirstIsLive(all[i], u);
    if i < |l0| {
      forall k | i < k < |l0| ensures Lookup(l0[k], u).None? { assert all[k] == l0[k]; }
      NewestIs(l0, u, i);
    } else {
      forall k | 0 <= k < |l0| ensures Lookup(l0[k], u).None? { assert all[k] == l0[k]; }
      NoneNewest(l0, u);
      LevelFinds(merged, u, i - |l0|);
    }
  }

  /** A key held by none. */
  lemma NoTable(l0: seq<Run>, merged: seq<Run>, u: Bytes)
    requires OrderedLevel(merged) && forall k :: 0 <= k < |l0 + merged| ==> Lookup((l0 + merged)[k], u).None?
    ensures RightSurvives(l0, merged, u) && HitBefore(l0, merged, u).None?
  {
    hide Lookup, LivePosition, Survivor, FindNewest, FindInLevel, OrderedLevel;
    var all := l0 + merged;
    NoSurvivorAmong(all, u);
    forall k | 0 <= k < |l0| ensures Lookup(l0[k], u).None? { assert all[k] == l0[k]; }
    forall k | 0 <= k < |merged| ensures Lookup(merged[k], u).None? { assert all[|l0| + k] == merged[k]; }
    NoneNewest(l0, u);
    LevelMisses(merged, u);
  }

  /** The newer of two tables decides: nothing is hidden in it, and where both hold a live version either they agree
      or the newer one's is the one that survives. */
  ghost predicate NewerPrevails(newer: Run, older: Run, u: Bytes, wins: bool)
  {
    match (LivePosition(newer, u), LivePosition(older, u))
    case (None, o) => o.None?
    case (Some(a), o) => Lookup(newer, u) != Some([]) && (o.None? || older[o.value].value == newer[a].value || wins)
  }

  /** Whether the version at position `a` of its table has the larger number at the lowest byte that differs from
      that of position `b`. */
  predicate Outranks(a: Option<nat>, b: Option<nat>)
  {
    a.Some? && b.Some? && LowBytesGrow(b.value + 1, a.value + 1, 7)
  }

  /** A key held by two tables of level 0, older and newer. */
  lemma TwoInLevel0Exactly(l0: seq<Run>, merged: seq<Run>, u: Bytes, i: nat, j: nat)
    requires i < j < |l0| && HeldOnlyBy(l0 + merged, u, i, j)
    requires Lookup(l0[i], u).Some? && Lookup(l0[j], u).Some?
    ensures RightSurvives(l0, merged, u) <==>
            NewerPrevails(l0[j], l0[i], u, Outranks(LivePosition(l0[j], u), LivePosition(l0[i], u)))
  {
    hide Lookup, LivePosition, Survivor, FindNewest, LowBytesGrow, FindInLevel;
    var all := l0 + merged;
    SurvivorOfTwo(all, u, i, j);
    forall k | j < k < |l0| ensures Lookup(l0[k], u).None? { assert all[k] == l0[k]; }
    NewestIs(l0, u, j);
    FirstIsLive(l0[j], u);
  }

  /** A key held by a table of level 0 over one of level 1: now the tie-break is the other way round, because level 0
      comes first among the children. */
  lemma Level0OverLevel1Exactly(l0: seq<Run>, merged: seq<Run>, u: Bytes, i: nat, j: nat)
    requires i < |l0| && j < |merged| && HeldOnlyBy(l0 + merged, u, i, |l0| + j)
    requires Lookup(l0[i], u).Some? && Lookup(merged[j], u).Some?
    ensures RightSurvives(l0, merged, u) <==>
            NewerPrevails(l0[i], merged[j], u, !Outranks(LivePosition(merged[j], u), LivePosition(l0[i], u)))
  {
    hide Lookup, LivePosition, Survivor, FindNewest, LowBytesGrow, FindInLevel;
    var all := l0 + merged;
    assert all[i] == l0[i] && all[|l0| + j] == merged[j];
    SurvivorOfTwo(all, u, i, |l0| + j);
    forall k | i < k < |l0| ensures Lookup(l0[k], u).None? { assert all[k] == l0[k]; }
    NewestIs(l0, u, i);
    FirstIsLive(l0[i], u);
  }
}
