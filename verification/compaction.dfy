/** What a compaction reads and writes (DB::BackgroundCompaction in src/db.cc), on the tables' contents. */
module Compactions {
  import opened Slices
  import opened InternalKeys
  import opened Levels

  /** SSTable::FirstKey and LastKey: internal keys, empty for a table without entries. */
  function FirstInternal(t: Run): Bytes
    requires |t| <= MAX_SEQUENCE
  {
    if t == [] then [] else Version(t, 0)
  }

  function LastInternal(t: Run): Bytes
    requires |t| <= MAX_SEQUENCE
  {
    if t == [] then [] else Version(t, |t| - 1)
  }

  ghost predicate GoodTables(files: seq<Run>)
  {
    forall i :: 0 <= i < |files| ==> GoodTable(files[i])
  }

  predicate ShortTables(files: seq<Run>)
  {
    forall i :: 0 <= i < |files| ==> |files[i]| <= MAX_SEQUENCE
  }

  // ---- Choosing the inputs ----

  function MinKey(l0: seq<Run>): Bytes
    requires l0 != [] && ShortTables(l0)
  {
    var n := |l0| - 1;
    if n == 0 then FirstInternal(l0[0])
    else
      var m := MinKey(l0[..n]);
      if Less(FirstInternal(l0[n]), m) then FirstInternal(l0[n]) else m
  }

  function MaxKey(l0: seq<Run>): Bytes
    requires l0 != [] && ShortTables(l0)
  {
    var n := |l0| - 1;
    if n == 0 then LastInternal(l0[0])
    else
      var m := MaxKey(l0[..n]);
      if Less(m, LastInternal(l0[n])) then LastInternal(l0[n]) else m
  }

  lemma {:induction false} HullBounds(l0: seq<Run>, i: nat)
    requires l0 != [] && ShortTables(l0) && i < |l0|
    ensures !Less(FirstInternal(l0[i]), MinKey(l0)) && !Less(MaxKey(l0), LastInternal(l0[i]))
  {
    hide Less, FirstInternal, LastInternal;
    LessIsStrictTotalOrder();
    var n := |l0| - 1;
    if n > 0 && i < n { HullBounds(l0[..n], i); }
  }

  /** Its two ends are ends of tables of level 0. */
  lemma {:induction false} HullIsMet(l0: seq<Run>) returns (i: nat, j: nat)
    requires l0 != [] && ShortTables(l0)
    ensures i < |l0| && j < |l0| && MinKey(l0) == FirstInternal(l0[i]) && MaxKey(l0) == LastInternal(l0[j])
  {
    hide Less, FirstInternal, LastInternal;
    var n := |l0| - 1;
    i, j := n, n;
    if n > 0 {
      var a, b := HullIsMet(l0[..n]);
      if !Less(FirstInternal(l0[n]), MinKey(l0[..n])) { i := a; }
      if !Less(MaxKey(l0[..n]), LastInternal(l0[n])) { j := b; }
    }
  }

  /** The overlap test on a level 1 file. */
  predicate Overlaps(minKey: Bytes, maxKey: Bytes, t: Run)
    requires |t| <= MAX_SEQUENCE
  {
    !(Less(maxKey, FirstInternal(t)) || Less(LastInternal(t), minKey))
  }

  function OverlapFlags(l1: seq<Run>, minKey: Bytes, maxKey: Bytes): (flags: seq<bool>)
    requires ShortTables(l1)
    ensures |flags| == |l1|
  {
    seq(|l1|, i requires 0 <= i < |l1| => Overlaps(minKey, maxKey, l1[i]))
  }

  /** The indices of the level 1 files to merge, in order. */
  function Selected(l1: seq<Run>, minKey: Bytes, maxKey: Bytes): (r: seq<nat>)
    requires ShortTables(l1)
    ensures forall k :: 0 <= k < |r| ==> r[k] < |l1|
  {
    FlagIndices(OverlapFlags(l1, minKey, maxKey))
  }

  lemma OverlapsOutside(minKey: Bytes, maxKey: Bytes, t: Run)
    requires |t| <= MAX_SEQUENCE
    ensures Overlaps(minKey, maxKey, t) <==> !(Less(maxKey, FirstInternal(t)) || Less(LastInternal(t), minKey))
  {}

  lemma SelectedAppend(l1: seq<Run>, minKey: Bytes, maxKey: Bytes, i: nat)
    requires ShortTables(l1) && i < |l1|
    ensures Selected(l1[..i + 1], minKey, maxKey)
            == Selected(l1[..i], minKey, maxKey) + if Overlaps(minKey, maxKey, l1[i]) then [i] else []
  {
    hide Overlaps;
    assert OverlapFlags(l1[..i + 1], minKey, maxKey)[..i] == OverlapFlags(l1[..i], minKey, maxKey);
  }

  /** The two selection loops at the start of a compaction. */
  method SelectInputs(l0: seq<Run>, l1: seq<Run>) returns (minKey: Bytes, maxKey: Bytes, indices: seq<nat>)
    requires l0 != [] && ShortTables(l0) && ShortTables(l1)
    ensures minKey == MinKey(l0) && maxKey == MaxKey(l0)
    ensures indices == Selected(l1, minKey, maxKey)
  {
    hide Less, Compare, FirstInternal, LastInternal, Overlaps;
    minKey, maxKey := FirstInternal(l0[0]), LastInternal(l0[0]);
    var i := 0;
    while i < |l0|
      invariant 0 <= i <= |l0|
      invariant i == 0 ==> minKey == FirstInternal(l0[0]) && maxKey == LastInternal(l0[0])
      invariant i > 0 ==> minKey == MinKey(l0[..i]) && maxKey == MaxKey(l0[..i])
    {
      LessIrreflexive(FirstInternal(l0[0])); LessIrreflexive(LastInternal(l0[0]));
      CompareIsLexicographic(FirstInternal(l0[i]), minKey);
      CompareIsLexicographic(LastInternal(l0[i]), maxKey);
      assert i > 0 ==> l0[..i + 1][..i] == l0[..i];
      if Compare(FirstInternal(l0[i]), minKey) < 0 { minKey := FirstInternal(l0[i]); }
      if Compare(LastInternal(l0[i]), maxKey) > 0 { maxKey := LastInternal(l0[i]); }
      i := i + 1;
    }
    assert l0[..i] == l0;
    indices := [];
    i := 0;
    assert l1[..0] == [];
    while i < |l1|
      invariant 0 <= i <= |l1|
      invariant indices == Selected(l1[..i], minKey, maxKey)
    {
      OverlapsOutside(minKey, maxKey, l1[i]);
      CompareIsLexicographic(maxKey, FirstInternal(l1[i]));
      CompareIsLexicographic(LastInternal(l1[i]), minKey);
      SelectedAppend(l1, minKey, maxKey, i);
      if !(Compare(maxKey, FirstInternal(l1[i])) < 0 || Compare(LastInternal(l1[i]), minKey) < 0) {
        indices := indices + [i];
      }
      i := i + 1;
    }
    assert l1[..i] == l1;
  }

  // ---- Replacing the inputs ----

  function EraseAt<T>(s: seq<T>, i: nat): seq<T>
    requires i < |s|
  {
    s[..i] + s[i + 1..]
  }

  /** Erases the given indices from the largest down, so that the smaller ones stay valid. */
  function EraseIndices<T>(s: seq<T>, indices: seq<nat>): (r: seq<T>)
    ensures forall x :: x in r ==> x in s
    decreases |indices|
  {
    if indices == [] then s
    else
      var i := indices[|indices| - 1];
      EraseIndices(if i < |s| then EraseAt(s, i) else s, indices[..|indices| - 1])
  }

  /** The elements whose flag is off. */
  function Unflagged<T>(s: seq<T>, flags: seq<bool>): (r: seq<T>)
    requires |s| == |flags|
    ensures forall x :: x in r ==> x in s
  {
    if s == [] then []
    else
      var n := |s| - 1;
      Unflagged(s[..n], flags[..n]) + if flags[n] then [] else [s[n]]
  }

  function Flagged<T>(s: seq<T>, flags: seq<bool>): (r: seq<T>)
    requires |s| == |flags|
    ensures forall x :: x in r ==> x in s
  {
    if s == [] then []
    else
      var n := |s| - 1;
      Flagged(s[..n], flags[..n]) + if flags[n] then [s[n]] else []
  }

  function FlagIndices(flags: seq<bool>): (r: seq<nat>)
    ensures forall k :: 0 <= k < |r| ==> r[k] < |flags|
    ensures forall a, b :: 0 <= a < b < |r| ==> r[a] < r[b]
  {
    if flags == [] then []
    else
      var n := |flags| - 1;
      FlagIndices(flags[..n]) + if flags[n] then [n] else []
  }

  /** Erasing the saved indices leaves exactly the files that were not selected. */
  lemma {:induction false} EraseLeavesUnflagged<T>(s: seq<T>, flags: seq<bool>)
    requires |s| == |flags|
    ensures EraseIndices(s, FlagIndices(flags)) == Unflagged(s, flags)
  {
    hide FlagIndices, EraseIndices;
    if s == [] {
      NothingToErase(s);
    } else {
      var n := |s| - 1;
      var before := FlagIndices(flags[..n]);
      EraseLeavesUnflagged(s[..n], flags[..n]);
      LastFlag(flags);
      if flags[n] {
        EraseLast(s, before);
      } else {
        EraseKeepsTail(s[..n], s[n], before);
        assert s[..n] + [s[n]] == s;
      }
    }
  }

  lemma NothingToErase<T>(s: seq<T>)
    ensures FlagIndices([]) == [] && EraseIndices(s, []) == s
  {}

  lemma LastFlag(flags: seq<bool>)
    requires flags != []
    ensures var n := |flags| - 1;
            FlagIndices(flags) == if flags[n] then FlagIndices(flags[..n]) + [n] else FlagIndices(flags[..n])
  {}

  lemma EraseLast<T>(s: seq<T>, before: seq<nat>)
    requires s != []
    ensures EraseIndices(s, before + [|s| - 1]) == EraseIndices(s[..|s| - 1], before)
  {
    var all := before + [|s| - 1];
    assert all[..|all| - 1] == before;
    assert EraseAt(s, |s| - 1) == s[..|s| - 1];
  }

  lemma {:induction false} EraseKeepsTail<T>(s: seq<T>, x: T, indices: seq<nat>)
    requires forall k :: 0 <= k < |indices| ==> indices[k] < |s|
    requires forall a, b :: 0 <= a < b < |indices| ==> indices[a] < indices[b]
    ensures EraseIndices(s + [x], indices) == EraseIndices(s, indices) + [x]
    decreases |indices|
  {
    if indices != [] {
      var n := |indices| - 1;
      assert EraseAt(s + [x], indices[n]) == EraseAt(s, indices[n]) + [x];
      EraseKeepsTail(EraseAt(s, indices[n]), x, indices[..n]);
    }
  }
}
