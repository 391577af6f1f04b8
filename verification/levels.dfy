/** Looking a key up in a level of tables (DB::Get in src/db.cc), on the tables' contents. */
module Levels {
  import opened Slices
  import opened Coding
  import opened Entries
  import opened InternalKeys

  type Run = seq<Entry>

  /** The entries of a table: the builder numbers them with 56-bit sequence numbers. */
  type Table = t: seq<Entry> | |t| <= MAX_SEQUENCE witness []

  /** The first of two layers that has an entry answers. */
  function Orelse(a: Option<Bytes>, b: Option<Bytes>): Option<Bytes>
  {
    if a.Some? then a else b
  }

  /** An empty value means deleted. */
  function Answer(hit: Option<Bytes>): Option<Bytes>
  {
    if hit == Some([]) then None else hit
  }

  /** ExtractUserKey of FirstKey and LastKey; both are empty for a table without entries. */
  function FirstKey(t: Run): Bytes
  {
    if t == [] then [] else t[0].key
  }

  function LastKey(t: Run): Bytes
  {
    if t == [] then [] else t[|t| - 1].key
  }

  /** A table as the builder leaves it: sorted plain user keys. */
  ghost predicate GoodTable(t: Run)
  {
    UserSorted(t) && PlainEntries(t) && |t| <= MAX_SEQUENCE
  }

  /** Level 0: newest table first. */
  function FindNewest(l0: seq<Run>, u: Bytes): Option<Bytes>
  {
    if l0 == [] then None
    else Orelse(Lookup(l0[|l0| - 1], u), FindNewest(l0[..|l0| - 1], u))
  }

  /** Levels 1 and up: the binary search over the files' key ranges. */
  function SearchLevel(files: seq<Run>, u: Bytes, left: int, right: int): Option<Bytes>
    requires 0 <= left && right < |files|
    decreases right - left + 1
  {
    if left > right then None
    else
      var mid := (left + right) / 2;
      if Less(u, FirstKey(files[mid])) then SearchLevel(files, u, left, mid - 1)
      else if Less(LastKey(files[mid]), u) then SearchLevel(files, u, mid + 1, right)
      else Lookup(files[mid], u)
  }

  function FindInLevel(files: seq<Run>, u: Bytes): Option<Bytes>
  {
    SearchLevel(files, u, 0, |files| - 1)
  }

  /** All levels from the given one on. */
  function FindFrom(levels: seq<seq<Run>>, level: nat, u: Bytes): Option<Bytes>
    decreases |levels| - level
  {
    if level >= |levels| then None
    else Orelse(FindInLevel(levels[level], u), FindFrom(levels, level + 1, u))
  }

  /** The level loop of DB::Get. */
  method GetFromLevel(files: seq<Run>, u: Bytes) returns (hit: Option<Bytes>)
    ensures hit == FindInLevel(files, u)
  {
    hide Less, Compare, Lookup, FirstKey, LastKey;
    var left, right := 0, |files| - 1;
    while left <= right
      invariant 0 <= left && right < |files|
      invariant SearchLevel(files, u, left, right) == FindInLevel(files, u)
      decreases right - left + 1
    {
      var mid := (left + right) / 2;
      CompareIsLexicographic(u, FirstKey(files[mid]));
      CompareIsLexicographic(u, LastKey(files[mid]));
      if Compare(u, FirstKey(files[mid])) < 0 {
        right := mid - 1;
      } else if Compare(u, LastKey(files[mid])) > 0 {
        left := mid + 1;
      } else {
        return Lookup(files[mid], u);
      }
    }
    hit := None;
  }

  // ---- What a level holds ----

  ghost predicate Holds(files: seq<Run>, e: Entry)
  {
    exists i :: 0 <= i < |files| && e in files[i]
  }

  /** A key occurs at most once in all the files together. */
  ghost predicate UniqueKeys(files: seq<Run>)
  {
    forall i, a, j, b | 0 <= i < |files| && 0 <= a < |files[i]| && 0 <= j < |files| && 0 <= b < |files[j]| ::
      files[i][a].key == files[j][b].key ==> i == j && a == b
  }

  /** A hit is an entry that is held; a miss means that no entry of the key is held. */
  ghost predicate HitIsHeld(files: seq<Run>, u: Bytes, hit: Option<Bytes>)
  {
    && (hit.Some? ==> Holds(files, Entry(u, hit.value)))
    && (hit.None? ==> forall v :: !Holds(files, Entry(u, v)))
  }

  lemma LookupIsHeld(t: Run, u: Bytes)
    ensures Lookup(t, u).Some? ==> Entry(u, Lookup(t, u).value) in t
    ensures Lookup(t, u).None? ==> forall v :: Entry(u, v) !in t
  {
    LookupNone(t, u);
    if Lookup(t, u).Some? { var p := LookupFinds(t, u); }
  }

  lemma {:induction false} NewestIsHeld(l0: seq<Run>, u: Bytes)
    ensures HitIsHeld(l0, u, FindNewest(l0, u))
  {
    hide Lookup;
    if l0 != [] {
      var n := |l0| - 1;
      NewestIsHeld(l0[..n], u);
      LookupIsHeld(l0[n], u);
      var hit := FindNewest(l0, u);
      if hit.Some? && Lookup(l0[n], u).None? {
        var i :| 0 <= i < n && Entry(u, hit.value) in l0[..n][i];
        assert Entry(u, hit.value) in l0[i];
      }
      if hit.None? {
        forall v ensures !Holds(l0, Entry(u, v)) {
          if Holds(l0, Entry(u, v)) {
            var i :| 0 <= i < |l0| && Entry(u, v) in l0[i];
          }
        }
      }
    }
  }

  // ---- Ordered levels ----

  /** Non-empty good tables with pairwise disjoint user-key ranges, in order. */
  ghost predicate OrderedLevel(files: seq<Run>)
  {
    && (forall i :: 0 <= i < |files| ==> files[i] != [] && GoodTable(files[i]))
    && (forall i, j :: 0 <= i < j < |files| ==> Less(LastKey(files[i]), FirstKey(files[j])))
  }

  lemma WithinRange(t: Run, e: Entry)
    requires GoodTable(t) && e in t
    ensures !Less(e.key, FirstKey(t)) && !Less(LastKey(t), e.key)
  {
    hide Less;
    LessIrreflexive(e.key);
  }

  /** The only file whose range meets a key is the one that can hold it. */
  lemma OutsideRange(files: seq<Run>, i: nat, j: nat, e: Entry)
    requires OrderedLevel(files) && i < |files| && j < |files| && e in files[j]
    ensures !Less(e.key, FirstKey(files[i])) && !Less(LastKey(files[i]), e.key) ==> i == j
    ensures Less(e.key, FirstKey(files[i])) ==> j < i
    ensures Less(LastKey(files[i]), e.key) ==> i < j
  {
    hide Less, UserSorted, PlainEntries;
    LessIsStrictTotalOrder();
    WithinRange(files[j], e);
    RangeOrdered(files[i]);
    RangeOrdered(files[j]);
  }

  lemma RangeOrdered(t: Run)
    requires GoodTable(t) && t != []
    ensures !Less(LastKey(t), FirstKey(t))
  {
    hide Less;
    LessIrreflexive(FirstKey(t));
  }

  /** On an ordered level the binary search reaches the one file that can hold the key. */
  lemma {:induction false} SearchIsHeld(files: seq<Run>, u: Bytes, left: int, right: int)
    requires OrderedLevel(files) && 0 <= left && right < |files|
    requires forall j, e :: 0 <= j < |files| && e in files[j] && e.key == u ==> left <= j <= right
    ensures HitIsHeld(files, u, SearchLevel(files, u, left, right))
    decreases right - left + 1
  {
    hide Less, OrderedLevel, Lookup, Holds;
    if left > right {
      NotHeld(files, u);
    } else {
      var mid := (left + right) / 2;
      forall j, e | 0 <= j < |files| && e in files[j] && e.key == u
        ensures Less(u, FirstKey(files[mid])) ==> j < mid
        ensures Less(LastKey(files[mid]), u) ==> mid < j
        ensures !Less(u, FirstKey(files[mid])) && !Less(LastKey(files[mid]), u) ==> j == mid
      {
        OutsideRange(files, mid, j, e);
      }
      if Less(u, FirstKey(files[mid])) {
        SearchIsHeld(files, u, left, mid - 1);
      } else if Less(LastKey(files[mid]), u) {
        SearchIsHeld(files, u, mid + 1, right);
      } else {
        OneFileHeld(files, u, mid);
      }
    }
  }

  lemma NotHeld(files: seq<Run>, u: Bytes)
    requires forall j, e :: 0 <= j < |files| && e in files[j] ==> e.key != u
    ensures forall v :: !Holds(files, Entry(u, v))
  {}

  lemma OneFileHeld(files: seq<Run>, u: Bytes, mid: nat)
    requires mid < |files|
    requires forall j, e :: 0 <= j < |files| && e in files[j] && e.key == u ==> j == mid
    ensures HitIsHeld(files, u, Lookup(files[mid], u))
  {
    LookupIsHeld(files[mid], u);
  }

  lemma LevelIsHeld(files: seq<Run>, u: Bytes)
    requires OrderedLevel(files)
    ensures HitIsHeld(files, u, FindInLevel(files, u))
  {
    SearchIsHeld(files, u, 0, |files| - 1);
  }

  /** The search answers as the one file that holds the key. */
  lemma {:induction false} SearchReaches(files: seq<Run>, u: Bytes, left: int, right: int, i: nat)
    requires OrderedLevel(files) && 0 <= left <= i <= right < |files| && Lookup(files[i], u).Some?
    ensures SearchLevel(files, u, left, right) == Lookup(files[i], u)
    decreases right - left + 1
  {
    hide Less, OrderedLevel, Lookup;
    var mid := (left + right) / 2;
    LookupIsHeld(files[i], u);
    OutsideRange(files, mid, i, Entry(u, Lookup(files[i], u).value));
    if Less(u, FirstKey(files[mid])) {
      SearchReaches(files, u, left, mid - 1, i);
    } else if Less(LastKey(files[mid]), u) {
      SearchReaches(files, u, mid + 1, right, i);
    }
  }

  lemma LevelFinds(files: seq<Run>, u: Bytes, i: nat)
    requires OrderedLevel(files) && i < |files| && Lookup(files[i], u).Some?
    ensures FindInLevel(files, u) == Lookup(files[i], u)
  {
    SearchReaches(files, u, 0, |files| - 1, i);
  }

  lemma LevelMisses(files: seq<Run>, u: Bytes)
    requires OrderedLevel(files) && forall i :: 0 <= i < |files| ==> Lookup(files[i], u).None?
    ensures FindInLevel(files, u) == None
  {
    hide Lookup, FindInLevel, OrderedLevel;
    LevelIsHeld(files, u);
    var hit := FindInLevel(files, u);
    if hit.Some? {
      var i :| 0 <= i < |files| && Entry(u, hit.value) in files[i];
      LookupNone(files[i], u);
    }
  }

  // ---- Levels whose files touch ----

  /** Neighbouring files may share a key: the last of one and the first of the next. */
  ghost predicate TouchingLevel(files: seq<Run>)
  {
    && (forall i :: 0 <= i < |files| ==> files[i] != [] && GoodTable(files[i]))
    && (forall i, j :: 0 <= i < j < |files| ==> !Less(FirstKey(files[j]), LastKey(files[i])))
  }

  /** The first midpoint of the search that falls among files `p` to `q`. */
  function Lands(left: nat, right: nat, p: nat, q: nat): (r: nat)
    requires left <= p <= q <= right
    ensures p <= r <= q
    decreases right - left
  {
    var mid := (left + right) / 2;
    if mid < p then Lands(mid + 1, right, p, q)
    else if q < mid then Lands(left, mid - 1, p, q)
    else mid
  }

  /** Where files `p` to `q` share a key, the search answers for whichever of them its midpoints meet first, not for
      the first of them. */
  lemma {:induction false} SearchLands(files: seq<Run>, u: Bytes, left: nat, right: nat, p: nat, q: nat)
    requires TouchingLevel(files) && left <= p <= q <= right < |files|
    requires forall i :: 0 <= i < |files| ==> (Lookup(files[i], u).Some? <==> p <= i <= q)
    ensures SearchLevel(files, u, left, right) == Lookup(files[Lands(left, right, p, q)], u)
    decreases right - left
  {
    hide Less, Lookup, TouchingLevel, SearchLevel, FirstKey, LastKey;
    SearchTurns(files, u, left, right);
    var mid := (left + right) / 2;
    if mid < p {
      BesideHolder(files, u, mid, p);
      SearchLands(files, u, mid + 1, right, p, q);
    } else if q < mid {
      BesideHolder(files, u, mid, q);
      SearchLands(files, u, left, mid - 1, p, q);
    } else {
      InHolder(files, u, mid);
    }
  }

  /** One round of the search. */
  lemma SearchTurns(files: seq<Run>, u: Bytes, left: nat, right: nat)
    requires left <= right < |files|
    ensures var mid := (left + right) / 2;
            SearchLevel(files, u, left, right) ==
              if Less(u, FirstKey(files[mid])) then SearchLevel(files, u, left, mid - 1)
              else if Less(LastKey(files[mid]), u) then SearchLevel(files, u, mid + 1, right)
              else Lookup(files[mid], u)
  {
    hide Less, FirstKey, LastKey, Lookup;
  }

  lemma InHolder(files: seq<Run>, u: Bytes, i: nat)
    requires TouchingLevel(files) && i < |files| && Lookup(files[i], u).Some?
    ensures !Less(u, FirstKey(files[i])) && !Less(LastKey(files[i]), u)
  {
    hide Less, Lookup, UserSorted, PlainEntries;
    LookupIsHeld(files[i], u);
    WithinRange(files[i], Entry(u, Lookup(files[i], u).value));
  }

  /** A file that does not hold the key lies wholly on its side of one that does. */
  lemma BesideHolder(files: seq<Run>, u: Bytes, i: nat, p: nat)
    requires TouchingLevel(files) && i < |files| && p < |files| && i != p
    requires Lookup(files[p], u).Some? && Lookup(files[i], u).None?
    ensures i < p ==> Less(LastKey(files[i]), u) && !Less(u, FirstKey(files[i]))
    ensures p < i ==> Less(u, FirstKey(files[i]))
  {
    hide Less, Lookup, UserSorted, PlainEntries;
    LessIsStrictTotalOrder();
    InHolder(files, u, p);
    RangeOrdered(files[i]);
    LookupNone(files[i], u);
    assert files[i][0] in files[i] && files[i][|files[i]| - 1] in files[i];
  }

  /** Between two files that hold the key every file does. */
  lemma HoldersTouch(files: seq<Run>, u: Bytes, p: nat, i: nat, q: nat)
    requires TouchingLevel(files) && p <= i <= q < |files| && Lookup(files[p], u).Some? && Lookup(files[q], u).Some?
    ensures Lookup(files[i], u).Some?
  {
    hide Less, Lookup, TouchingLevel;
    if Lookup(files[i], u).None? {
      BesideHolder(files, u, i, p);
      BesideHolder(files, u, i, q);
    }
  }

  function FirstHolder(files: seq<Run>, u: Bytes): (r: Option<nat>)
    ensures r.Some? ==> r.value < |files| && Lookup(files[r.value], u).Some?
    ensures r.Some? ==> forall i :: 0 <= i < r.value ==> Lookup(files[i], u).None?
    ensures r.None? ==> forall i :: 0 <= i < |files| ==> Lookup(files[i], u).None?
  {
    if files == [] then None
    else
      var n := |files| - 1;
      var r := FirstHolder(files[..n], u);
      if r.Some? then r else if Lookup(files[n], u).Some? then Some(n) else None
  }

  function LastHolder(files: seq<Run>, u: Bytes): (r: Option<nat>)
    ensures r.Some? ==> r.value < |files| && Lookup(files[r.value], u).Some?
    ensures r.Some? ==> forall i :: r.value < i < |files| ==> Lookup(files[i], u).None?
    ensures r.None? ==> forall i :: 0 <= i < |files| ==> Lookup(files[i], u).None?
  {
    if files == [] then None
    else if Lookup(files[|files| - 1], u).Some? then Some(|files| - 1)
    else LastHolder(files[..|files| - 1], u)
  }

  /** The file that holds the key and that the search meets first. */
  function MetFile(files: seq<Run>, u: Bytes): (r: Option<nat>)
    ensures r.Some? ==> r.value < |files|
  {
    match (FirstHolder(files, u), LastHolder(files, u))
    case (Some(p), Some(q)) => if p <= q then Some(Lands(0, |files| - 1, p, q)) else None
    case _ => None
  }

  /** What a lookup in a touching level answers, exactly. */
  lemma TouchingIsMet(files: seq<Run>, u: Bytes)
    requires TouchingLevel(files)
    ensures FindInLevel(files, u) == match MetFile(files, u) case None => None case Some(i) => Lookup(files[i], u)
    ensures MetFile(files, u).None? <==> forall i :: 0 <= i < |files| ==> Lookup(files[i], u).None?
    ensures MetFile(files, u).Some? ==> Lookup(files[MetFile(files, u).value], u).Some?
  {
    hide Lookup, TouchingLevel, FirstHolder, LastHolder, SearchLevel, Lands;
    match FirstHolder(files, u)
    case None => SearchMisses(files, u, 0, |files| - 1);
    case Some(p) =>
      var q := LastHolder(files, u).value;
      forall i | 0 <= i < |files| ensures Lookup(files[i], u).Some? <==> p <= i <= q {
        if p <= i <= q { HoldersTouch(files, u, p, i, q); }
      }
      SearchLands(files, u, 0, |files| - 1, p, q);
  }

  lemma {:induction false} SearchMisses(files: seq<Run>, u: Bytes, left: int, right: int)
    requires 0 <= left && right < |files| && forall i :: 0 <= i < |files| ==> Lookup(files[i], u).None?
    ensures SearchLevel(files, u, left, right) == None
    decreases right - left + 1
  {
    hide Less, Lookup;
    if left <= right {
      var mid := (left + right) / 2;
      if Less(u, FirstKey(files[mid])) { SearchMisses(files, u, left, mid - 1); }
      else if Less(LastKey(files[mid]), u) { SearchMisses(files, u, mid + 1, right); }
    }
  }
}
