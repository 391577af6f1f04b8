/** The memory table (src/memtable.cc, include/minilsm/memtable.h): versions of user keys in a
    skip list, proved against the history of Adds. */
module MemTables {
  import opened Slices
  import opened Coding
  import opened Entries
  import opened InternalKeys
  import opened SkipLists

  // ---- What a history of Adds leaves in the skip list ----

  function Stored(h: seq<Entry>): seq<Entry>
    requires |h| <= MAX_SEQUENCE
  {
    if h == [] then []
    else Put(Stored(h[..|h| - 1]), Version(h, |h| - 1), h[|h| - 1].value)
  }

  /** MemTable::Get: the first stored key that is not less than the lookup key, if it is a version of `u`. */
  function MemGet(h: seq<Entry>, u: Bytes): Option<Bytes>
    requires |h| <= MAX_SEQUENCE
  {
    FindVersion(Stored(h), u)
  }

  /** The value a map would hold after the same Adds. */
  function LastAdd(h: seq<Entry>, u: Bytes): Option<Bytes>
  {
    if h == [] then None
    else if h[|h| - 1].key == u then Some(h[|h| - 1].value)
    else LastAdd(h[..|h| - 1], u)
  }

  /** `e` is what the `i`-th Add stores. */
  predicate StoredBy(h: seq<Entry>, i: nat, e: Entry)
    requires |h| <= MAX_SEQUENCE
  {
    i < |h| && e.key == Version(h, i) && e.value == h[i].value
  }

  lemma StoredByItself(h: seq<Entry>, i: nat)
    requires i < |h| <= MAX_SEQUENCE
    ensures StoredBy(h, i, Entry(Version(h, i), h[i].value))
  {}

  lemma StoredByPrefix(h: seq<Entry>, i: nat, e: Entry)
    requires 0 < |h| <= MAX_SEQUENCE
    ensures StoredBy(h[..|h| - 1], i, e) <==> StoredBy(h, i, e) && i < |h| - 1
  {}

  /** The skip list holds exactly one entry for each Add, in key order: no Add ever overwrites. */
  lemma {:induction false} StoredExactly(h: seq<Entry>)
    requires |h| <= MAX_SEQUENCE
    ensures Sorted(Stored(h)) && |Stored(h)| == |h|
    ensures forall e :: e in Stored(h) <==> exists i :: StoredBy(h, i, e)
  {
    hide Put, Version, StoredBy, Sorted;
    if h == [] {
      assert Stored(h) == [];
      NothingStored();
    } else {
      var n := |h| - 1;
      var s, k := Stored(h[..n]), Version(h, n);
      StoredExactly(h[..n]);
      PutKeepsSorted(s, k, h[n].value);
      forall e | e in s ensures e.key != k {
        var i :| StoredBy(h[..n], i, e);
        StoredByPrefix(h, i, e);
        NewVersion(h, i, e);
      }
      PutNew(s, k, h[n].value);
      forall e
        ensures e in Stored(h) <==> exists i :: StoredBy(h, i, e)
      {
        LastStored(h, e);
        if i :| StoredBy(h, i, e) { StoredByPrefix(h, i, e); OtherStored(h, i, e); }
        if e in s {
          var i :| StoredBy(h[..n], i, e);
          StoredByPrefix(h, i, e);
        }
      }
    }
  }

  lemma NothingStored()
    ensures Sorted([])
    ensures forall e, i :: !StoredBy([], i, e)
  {}

  lemma NewVersion(h: seq<Entry>, i: nat, e: Entry)
    requires 0 < |h| <= MAX_SEQUENCE && StoredBy(h, i, e) && i < |h| - 1
    ensures e.key != Version(h, |h| - 1)
  {
    if e.key == Version(h, |h| - 1) { VersionInjective(h, i, |h| - 1); }
  }

  lemma LastStored(h: seq<Entry>, e: Entry)
    requires 0 < |h| <= MAX_SEQUENCE
    ensures StoredBy(h, |h| - 1, e) <==> e == Entry(Version(h, |h| - 1), h[|h| - 1].value)
  {}

  lemma OtherStored(h: seq<Entry>, i: nat, e: Entry)
    requires 0 < |h| <= MAX_SEQUENCE && StoredBy(h, i, e)
    ensures i < |h|
  {}

  lemma PutNew(s: seq<Entry>, key: Bytes, value: Bytes)
    requires forall e :: e in s ==> e.key != key
    ensures |Put(s, key, value)| == |s| + 1
    ensures forall e :: e in Put(s, key, value) <==> e in s || e == Entry(key, value)
  {
    var p := LowerBound(s, key);
    assert s == s[..p] + s[p..];
  }

  // ---- Which version Get finds ----

  /** The Add of `u` whose internal key is least. */
  function FirstVersion(h: seq<Entry>, u: Bytes): (r: Option<nat>)
    requires |h| <= MAX_SEQUENCE
    ensures r.Some? ==> r.value < |h| && h[r.value].key == u
  {
    if h == [] then None
    else
      var n := |h| - 1;
      var r := FirstVersion(h[..n], u);
      if h[n].key != u then r
      else if r.None? || Less(Version(h, n), Version(h, r.value)) then Some(n)
      else r
  }

  lemma {:induction false} FirstVersionIsLeast(h: seq<Entry>, u: Bytes, i: nat)
    requires i < |h| <= MAX_SEQUENCE && h[i].key == u
    ensures FirstVersion(h, u).Some?
    ensures !Less(Version(h, i), Version(h, FirstVersion(h, u).value))
  {
    hide Less, Version;
    var n := |h| - 1;
    VersionsOfPrefix(h);
    var r := FirstVersion(h[..n], u);
    if i < n {
      FirstVersionIsLeast(h[..n], u, i);
      if h[n].key == u && Less(Version(h, n), Version(h, r.value)) && Less(Version(h, i), Version(h, n)) {
        LessTransitive(Version(h, i), Version(h, n), Version(h, r.value));
      }
    } else {
      LessIrreflexive(Version(h, n));
    }
  }

  /** For plain keys Get returns the value of the version that sorts first, and finds nothing only
      when the key was never added. */
  lemma MemGetIsFirstVersion(h: seq<Entry>, u: Bytes)
    requires |h| <= MAX_SEQUENCE && PlainEntries(h) && Plain(u)
    ensures MemGet(h, u) == match FirstVersion(h, u) case None => None case Some(i) => Some(h[i].value)
  {
    hide Less, LowerBound, Stored, Version, MakeLookupKey, ExtractUserKey, Plain, FirstVersion;
    StoredExactly(h);
    var s := Stored(h);
    var p := LowerBound(s, MakeLookupKey(u));
    match FirstVersion(h, u)
    case Some(f) =>
      var e := Entry(Version(h, f), h[f].value);
      assert StoredBy(h, f, e) by { StoredByItself(h, f); }
      assert e in s;
      var q :| 0 <= q < |s| && s[q] == e;
      VersionAgainstLookup(h, f, u);
      LessIrreflexive(u);
      assert p <= q;
      var i := StoredIndex(h, p);
      VersionAgainstLookup(h, i, u);
      if h[i].key != u { VersionOfOther(h, i, f); }
      FirstVersionIsLeast(h, u, i);
    case None =>
      if p < |s| {
        var i := StoredIndex(h, p);
        VersionAgainstLookup(h, i, u);
        if h[i].key == u { FirstVersionIsLeast(h, u, i); }
      }
  }

  lemma StoredIndex(h: seq<Entry>, p: nat) returns (i: nat)
    requires |h| <= MAX_SEQUENCE && p < |Stored(h)|
    ensures StoredBy(h, i, Stored(h)[p])
  {
    hide Stored, StoredBy;
    StoredExactly(h);
    assert Stored(h)[p] in Stored(h);
    i :| StoredBy(h, i, Stored(h)[p]);
  }

  // ---- Newest first ----

  function LastIndex(h: seq<Entry>, u: Bytes): (r: Option<nat>)
    ensures r.Some? ==> r.value < |h| && h[r.value].key == u && LastAdd(h, u) == Some(h[r.value].value)
                        && forall i :: r.value < i < |h| ==> h[i].key != u
    ensures r.None? ==> LastAdd(h, u) == None && forall i :: 0 <= i < |h| ==> h[i].key != u
  {
    if h == [] then None
    else if h[|h| - 1].key == u then Some(|h| - 1)
    else LastIndex(h[..|h| - 1], u)
  }

  /** The last Add of `u` gets the least trailer of all its versions. */
  ghost predicate NewestFirst(h: seq<Entry>, u: Bytes)
  {
    var last := LastIndex(h, u);
    last.Some? ==>
      forall i :: 0 <= i < last.value && h[i].key == u ==>
        SortsBefore(last.value + 1, TypeOf(h[last.value].value), i + 1, TypeOf(h[i].value))
  }

  /** Get finds the version of the last Add exactly when that version's trailer is least. */
  lemma NewestFoundExactly(h: seq<Entry>, u: Bytes)
    requires |h| <= MAX_SEQUENCE
    ensures FirstVersion(h, u) == LastIndex(h, u) <==> NewestFirst(h, u)
  {
    hide Less, SortsBefore, FirstVersion, LastIndex;
    match LastIndex(h, u)
    case None => {}
    case Some(last) =>
      FirstVersionIsLeast(h, u, last);
      var first := FirstVersion(h, u).value;
      forall i | 0 <= i < last && h[i].key == u
        ensures Less(Version(h, last), Version(h, i)) <==>
                SortsBefore(last + 1, TypeOf(h[last].value), i + 1, TypeOf(h[i].value))
      {
        VersionOrder(u, last + 1, TypeOf(h[last].value), i + 1, TypeOf(h[i].value));
      }
      if first == last {
        forall i | 0 <= i < last && h[i].key == u
          ensures Less(Version(h, last), Version(h, i))
        {
          FirstVersionIsLeast(h, u, i);
          LessTotal(Version(h, last), Version(h, i));
          if Version(h, last) == Version(h, i) { VersionInjective(h, last, i); }
        }
      }
  }

  /** What a caller can keep to: few Adds, and no key revived after its deletion. */
  ghost predicate WithinLimits(h: seq<Entry>)
  {
    |h| <= 255 &&
    forall i, j :: 0 <= i < j < |h| && h[i].key == h[j].key && h[i].value == [] ==> h[j].value == []
  }

  lemma LimitsSuffice(h: seq<Entry>, u: Bytes)
    requires WithinLimits(h)
    ensures NewestFirst(h, u)
  {
    hide LowBytesGrow;
    var last := LastIndex(h, u);
    if last.Some? {
      forall i | 0 <= i < last.value && h[i].key == u
        ensures SortsBefore(last.value + 1, TypeOf(h[last.value].value), i + 1, TypeOf(h[i].value))
      {
        LowBytesBelow256(last.value + 1, i + 1);
      }
    }
  }

  /** Of all Adds of `u`, the `i`-th has the trailer that sorts first. */
  ghost predicate Leads(h: seq<Entry>, u: Bytes, i: nat)
  {
    && i < |h| && h[i].key == u
    && forall j :: 0 <= j < |h| && j != i && h[j].key == u ==>
         SortsBefore(i + 1, TypeOf(h[i].value), j + 1, TypeOf(h[j].value))
  }

  /** That Add has the value of the last one, if it is not the last one itself. */
  ghost predicate LeaderIsCurrent(h: seq<Entry>, u: Bytes)
  {
    forall i: nat :: Leads(h, u, i) ==> LastAdd(h, u) == Some(h[i].value)
  }

  lemma FirstVersionLeads(h: seq<Entry>, u: Bytes, i: nat)
    requires |h| <= MAX_SEQUENCE
    ensures Leads(h, u, i) <==> FirstVersion(h, u) == Some(i)
  {
    hide Less, SortsBefore, FirstVersion, Version;
    LessIsStrictTotalOrder();
    var first := FirstVersion(h, u);
    if i < |h| && h[i].key == u {
      FirstVersionIsLeast(h, u, i);
      var f := first.value;
      VersionPair(h, f, i);
      if f == i {
        forall j | 0 <= j < |h| && j != i && h[j].key == u
          ensures SortsBefore(i + 1, TypeOf(h[i].value), j + 1, TypeOf(h[j].value))
        {
          FirstVersionIsLeast(h, u, j);
          VersionPair(h, i, j);
        }
      } else {
        VersionPair(h, i, f);
      }
    }
  }

  lemma VersionPair(h: seq<Entry>, i: nat, j: nat)
    requires |h| <= MAX_SEQUENCE && i < |h| && j < |h| && h[i].key == h[j].key
    ensures Less(Version(h, i), Version(h, j)) <==> SortsBefore(i + 1, TypeOf(h[i].value), j + 1, TypeOf(h[j].value))
    ensures Version(h, i) == Version(h, j) ==> i == j
  {
    hide Less, SortsBefore;
    VersionOrder(h[i].key, i + 1, TypeOf(h[i].value), j + 1, TypeOf(h[j].value));
    if Version(h, i) == Version(h, j) { VersionInjective(h, i, j); }
  }

  /** Get answers like a map exactly when the Add whose trailer sorts first has the value of the last Add. */
  lemma MemGetIsLastAddExactly(h: seq<Entry>, u: Bytes)
    requires |h| <= MAX_SEQUENCE && PlainEntries(h) && Plain(u)
    ensures MemGet(h, u) == LastAdd(h, u) <==> LeaderIsCurrent(h, u)
  {
    hide MemGet, LastAdd, FirstVersion, LastIndex, Leads;
    MemGetIsFirstVersion(h, u);
    forall i: nat ensures Leads(h, u, i) <==> FirstVersion(h, u) == Some(i) { FirstVersionLeads(h, u, i); }
    var last := LastIndex(h, u);
    if last.Some? { FirstVersionIsLeast(h, u, last.value); }
    match FirstVersion(h, u)
    case Some(f) => assert Leads(h, u, f);
    case None => {}
  }

  /** A history on which that holds for every key. */
  ghost predicate Faithful(h: seq<Entry>)
  {
    |h| <= MAX_SEQUENCE && PlainEntries(h) && forall u :: LeaderIsCurrent(h, u)
  }

  lemma LimitsAreFaithful(h: seq<Entry>)
    requires WithinLimits(h) && PlainEntries(h)
    ensures Faithful(h)
  {
    hide WithinLimits, PlainEntries, LeaderIsCurrent;
    LimitsAreSmall(h);
    forall u ensures LeaderIsCurrent(h, u) {
      LimitsSuffice(h, u);
      NewestIsCurrent(h, u);
    }
  }

  lemma NewestIsCurrent(h: seq<Entry>, u: Bytes)
    requires |h| <= MAX_SEQUENCE && NewestFirst(h, u)
    ensures LeaderIsCurrent(h, u)
  {
    hide SortsBefore, FirstVersion, LastIndex, NewestFirst;
    NewestFoundExactly(h, u);
    forall i: nat | Leads(h, u, i) ensures LastAdd(h, u) == Some(h[i].value) { FirstVersionLeads(h, u, i); }
  }

  lemma LimitsAreSmall(h: seq<Entry>)
    requires WithinLimits(h)
    ensures |h| <= MAX_SEQUENCE
  {}

  /** A memory table with a faithful history answers like a map. */
  lemma MemGetIsLastAdd(h: seq<Entry>, u: Bytes)
    requires Faithful(h) && Plain(u)
    ensures MemGet(h, u) == LastAdd(h, u)
  {
    hide MemGet, LastAdd, LeaderIsCurrent;
    MemGetIsLastAddExactly(h, u);
  }

  /** Outside them it does not: a key put again after its deletion stays deleted. */
  lemma RevivedKeyStaysDeleted(u: Bytes, v: Bytes, w: Bytes)
    requires Plain(u) && v != [] && w != []
    ensures MemGet([Entry(u, v), Entry(u, []), Entry(u, w)], u) == Some([])
    ensures LastAdd([Entry(u, v), Entry(u, []), Entry(u, w)], u) == Some(w)
  {
    var h := [Entry(u, v), Entry(u, []), Entry(u, w)];
    MemGetIsFirstVersion(h, u);
    FirstVersionIsLeast(h, u, 1);
    var f := FirstVersion(h, u).value;
    if f != 1 {
      assert h[f].value != [];
      VersionOrder(u, 2, Deletion, f + 1, Value);
    }
  }

  // ---- Flushing ----

  /** What BackgroundFlush hands to the table builder: user keys and values in stored order. */
  function FlushEntries(h: seq<Entry>): (es: seq<Entry>)
    requires |h| <= MAX_SEQUENCE
    ensures |es| == |Stored(h)|
  {
    var s := Stored(h);
    seq(|s|, i requires 0 <= i < |s| => Entry(ExtractUserKey(s[i].key), s[i].value))
  }

  /** The entries arrive with non-decreasing user keys, all of them keys that were added. */
  lemma FlushEntriesSorted(h: seq<Entry>)
    requires |h| <= MAX_SEQUENCE && PlainEntries(h)
    ensures UserSorted(FlushEntries(h)) && PlainEntries(FlushEntries(h))
    ensures |FlushEntries(h)| == |h|
  {
    hide Less, Stored, Version, ExtractUserKey;
    StoredExactly(h);
    var s, es := Stored(h), FlushEntries(h);
    forall i | 0 <= i < |s|
      ensures Plain(es[i].key)
    {
      var a := StoredIndex(h, i);
      VersionAgainstLookup(h, a, []);
    }
    forall i, j | 0 <= i < j < |es|
      ensures !Less(es[j].key, es[i].key)
    {
      var a := StoredIndex(h, i);
      var b := StoredIndex(h, j);
      VersionAgainstLookup(h, a, []);
      VersionAgainstLookup(h, b, []);
      LessIrreflexive(h[a].key);
      if Less(h[b].key, h[a].key) {
        VersionOfOther(h, b, a);
        LessTransitive(s[i].key, s[j].key, s[i].key);
        LessIrreflexive(s[i].key);
      }
    }
  }

  /** Flushing preserves lookups exactly, whatever order the versions of a key are stored in. */
  lemma FlushPreservesLookups(h: seq<Entry>, u: Bytes)
    requires |h| <= MAX_SEQUENCE && PlainEntries(h) && Plain(u)
    ensures Lookup(FlushEntries(h), u) == MemGet(h, u)
  {
    hide Less, Stored, Version, ExtractUserKey, LowerBound, MakeLookupKey, Lookup, Plain;
    StoredExactly(h);
    FlushEntriesSorted(h);
    var s, es := Stored(h), FlushEntries(h);
    var p := LowerBound(s, MakeLookupKey(u));
    LessIrreflexive(u);
    forall i | 0 <= i < |s|
      ensures Less(s[i].key, MakeLookupKey(u)) <==> Less(es[i].key, u)
    {
      var a := StoredIndex(h, i);
      VersionAgainstLookup(h, a, u);
    }
    LookupAt(es, u, p);
    if p < |s| && es[p].key != u {
      forall i | p <= i < |es|
        ensures es[i].key != u
      {
        LessTotal(es[p].key, u);
      }
      LookupAt(es, u, |es|);
    }
  }

  // ---- The class ----

  class MemTable {
    const table: SkipList
    var lastSeq: nat
    ghost var history: seq<Entry>

    ghost predicate Valid()
      reads this, table, table.all
    {
      && table.Valid()
      && lastSeq == |history| <= MAX_SEQUENCE
      && table.Contents() == Stored(history)
    }

    constructor ()
      ensures Valid() && history == []
      ensures fresh(table) && fresh(set n | n in table.all)
    {
      table := new SkipList();
      lastSeq := 0;
      history := [];
    }

    /** Add: appends to the history under the next sequence number. */
    method Add(userKey: Bytes, value: Bytes, rand: nat -> nat)
      requires Valid() && lastSeq < MAX_SEQUENCE
      modifies this, table, table.all
      ensures Valid() && history == old(history) + [Entry(userKey, value)]
      ensures fresh(set n | n in table.all && n !in old(table.all))
    {
      hide Put, MakeInternalKey, Less;
      ghost var h := history + [Entry(userKey, value)];
      lastSeq := lastSeq + 1;
      var t := TypeOf(value);
      table.Insert(MakeInternalKey(userKey, lastSeq, t), value, rand);
      history := h;
      assert h[..|h| - 1] == old(history);
    }

    /** Get: what the history determines; within the limits, what a map would hold. */
    method Get(userKey: Bytes) returns (r: Option<Bytes>)
      requires Valid()
      ensures r == MemGet(history, userKey)
      ensures WithinLimits(history) && PlainEntries(history) && Plain(userKey) ==> r == LastAdd(history, userKey)
    {
      hide MemGet, LastAdd, Plain, Less, MakeLookupKey, ExtractUserKey, NextAt, WellFormed, Linked, Faithful,
        WithinLimits, PlainEntries;
      var node, _, _ := table.FindGreaterOrEqual(MakeLookupKey(userKey));
      GetFindsNode(userKey);
      if node == null || Compare(ExtractUserKey(node.key), userKey) != 0 {
        r := None;
      } else {
        r := Some(node.value);
      }
      if WithinLimits(history) && PlainEntries(history) && Plain(userKey) {
        LimitsAreFaithful(history);
        MemGetIsLastAdd(history, userKey);
      }
    }

    lemma GetFindsNode(userKey: Bytes)
      requires Valid()
      ensures var p := 1 + LowerBound(table.Contents(), MakeLookupKey(userKey));
              && (NodeAt(table.all, p) == null ==> MemGet(history, userKey) == None)
              && (NodeAt(table.all, p) != null ==> p < |table.all| && NodeAt(table.all, p) == table.all[p])
              && (p < |table.all| ==>
                    MemGet(history, userKey)
                    == if Compare(ExtractUserKey(table.all[p].key), userKey) == 0 then Some(table.all[p].value) else None)
    {
      hide Less, Compare, NextAt, WellFormed, Linked, LowerBound, MakeLookupKey, ExtractUserKey;
      var p := 1 + LowerBound(table.Contents(), MakeLookupKey(userKey));
      if p < |table.all| {
        CompareIsLexicographic(ExtractUserKey(table.all[p].key), userKey);
      }
    }
  }

  /** MemTableIterator over SkipList::Iterator: a cursor along level 0. */
  class MemTableIterator {
    const mem: MemTable
    var current: Node?
    ghost var pos: nat

    ghost predicate Placed()
      reads this, mem, mem.table, mem.table.all
    {
      mem.Valid() && pos <= |Stored(mem.history)| && current == NodeAt(mem.table.all, pos + 1)
    }

    constructor (mem: MemTable)
      requires mem.Valid()
      ensures Placed() && this.mem == mem && pos == 0
    {
      hide Stored;
      this.mem := mem;
      current := mem.table.head.next[0];
      pos := 0;
      new;
      FirstAlongBottom(mem.table);
    }

    predicate IsValid()
      reads this
    {
      current != null
    }

    lemma Reads()
      requires Placed()
      ensures IsValid() <==> pos < |Stored(mem.history)|
      ensures current != null ==> Entry(current.key, current.value) == Stored(mem.history)[pos]
    {
      hide Stored, Linked, WellFormed;
    }

    method Next()
      requires Placed() && IsValid()
      modifies this
      ensures Placed() && pos == old(pos) + 1
    {
      hide Stored, NextAt, WellFormed;
      Reads();
      AlongBottom(mem.table, pos + 1);
      current := current.next[0];
      pos := pos + 1;
    }

    /** Seek only moves forward: to the first key from here on that is not less than `target`. */
    method Seek(target: Bytes)
      requires Placed()
      modifies this
      ensures Placed() && pos == old(pos) + LowerBound(Stored(mem.history)[old(pos)..], target)
    {
      hide Stored, Less, NextAt, WellFormed, Linked;
      ghost var s := Stored(mem.history);
      while current != null && Compare(current.key, target) < 0
        invariant Placed() && old(pos) <= pos
        invariant pos + LowerBound(s[pos..], target) == old(pos) + LowerBound(s[old(pos)..], target)
        decreases |s| - pos
      {
        Reads();
        CompareIsLexicographic(current.key, target);
        assert s[pos..][1..] == s[pos + 1..];
        Next();
      }
      Reads();
      if current != null { CompareIsLexicographic(current.key, target); }
    }
  }

  lemma AlongBottom(t: SkipList, i: nat)
    requires t.Valid() && i < |t.all|
    ensures |t.all[i].next| > 0 && t.all[i].next[0] == NodeAt(t.all, i + 1)
  {
    BottomNext(t.all, i);
  }

  lemma FirstAlongBottom(t: SkipList)
    requires t.Valid()
    ensures |t.head.next| > 0 && t.head.next[0] == NodeAt(t.all, 1)
  {
    AlongBottom(t, 0);
  }
}
