/** K-way merging (MergeIterator in src/iterator.cc). Children are cursors over the entries they yield. */
module Merging {
  import opened Slices
  import opened Coding
  import opened Entries
  import opened InternalKeys

  type Runs = seq<seq<Entry>>

  function Total(rest: Runs): nat
  {
    if rest == [] then 0 else |rest[0]| + Total(rest[1..])
  }

  /** The heap's order: by key, then by child index. */
  predicate Ahead(rest: Runs, i: nat, j: nat)
    requires i < |rest| && j < |rest| && rest[i] != [] && rest[j] != []
  {
    Less(rest[i][0].key, rest[j][0].key) || (rest[i][0].key == rest[j][0].key && i <= j)
  }

  /** Child `i` has the least head. */
  ghost predicate IsLeast(rest: Runs, i: nat)
  {
    && i < |rest| && rest[i] != []
    && forall j :: 0 <= j < |rest| && rest[j] != [] ==> Ahead(rest, i, j)
  }

  ghost predicate AllDone(rest: Runs)
  {
    forall i :: 0 <= i < |rest| ==> rest[i] == []
  }

  /** The child with the least head among those from `from` on. */
  function LeastFrom(rest: Runs, from: nat): (r: Option<nat>)
    requires from <= |rest|
    ensures r.Some? ==> from <= r.value < |rest| && rest[r.value] != []
    decreases |rest| - from
  {
    if from == |rest| then None
    else
      var r := LeastFrom(rest, from + 1);
      if rest[from] == [] then r
      else if r == None || Ahead(rest, from, r.value) then Some(from)
      else r
  }

  lemma {:induction false} LeastFromIsLeast(rest: Runs, from: nat, j: nat)
    requires from <= j < |rest| && rest[j] != []
    ensures LeastFrom(rest, from).Some? && Ahead(rest, LeastFrom(rest, from).value, j)
    decreases |rest| - from
  {
    hide Less;
    var r := LeastFrom(rest, from + 1);
    if j > from { LeastFromIsLeast(rest, from + 1, j); }
    if j == from { LessIrreflexive(rest[from][0].key); }
    if rest[from] != [] && r.Some? {
      LessTotal(rest[from][0].key, rest[r.value][0].key);
      if Less(rest[from][0].key, rest[r.value][0].key) && Less(rest[r.value][0].key, rest[j][0].key) {
        LessTransitive(rest[from][0].key, rest[r.value][0].key, rest[j][0].key);
      }
    }
  }

  lemma LeastIsUnique(rest: Runs, i: nat)
    requires IsLeast(rest, i)
    ensures LeastFrom(rest, 0) == Some(i)
  {
    hide Less;
    LeastFromIsLeast(rest, 0, i);
    var k := LeastFrom(rest, 0).value;
    assert Ahead(rest, i, k);
    if Less(rest[i][0].key, rest[k][0].key) && Less(rest[k][0].key, rest[i][0].key) {
      LessTransitive(rest[i][0].key, rest[k][0].key, rest[i][0].key);
    }
    LessIrreflexive(rest[i][0].key);
  }

  /** `rest` after child `i` has moved past its head. */
  function Advance(rest: Runs, i: nat): Runs
    requires i < |rest| && rest[i] != []
  {
    rest[i := rest[i][1..]]
  }

  lemma {:induction false} TotalAdvance(rest: Runs, i: nat)
    requires i < |rest| && rest[i] != []
    ensures Total(Advance(rest, i)) == Total(rest) - 1
  {
    if i > 0 {
      TotalAdvance(rest[1..], i - 1);
      assert Advance(rest, i)[1..] == Advance(rest[1..], i - 1);
    } else {
      assert Advance(rest, i)[1..] == rest[1..];
    }
  }

  /** The whole merge, and for each emitted entry the child it came from. */
  function Merge(rest: Runs): (out: seq<Entry>)
    decreases Total(rest)
  {
    match LeastFrom(rest, 0)
    case None => []
    case Some(i) => TotalAdvance(rest, i); [rest[i][0]] + Merge(Advance(rest, i))
  }

  function Sources(rest: Runs): (from: seq<nat>)
    ensures |from| == |Merge(rest)|
    decreases Total(rest)
  {
    match LeastFrom(rest, 0)
    case None => []
    case Some(i) => TotalAdvance(rest, i); [i] + Sources(Advance(rest, i))
  }

  // ---- Every entry once, each child's order kept ----

  /** The emitted entries that came from child `i`, in order. */
  function Project(out: seq<Entry>, from: seq<nat>, i: nat): seq<Entry>
    requires |out| == |from|
  {
    if out == [] then []
    else if from[0] == i then [out[0]] + Project(out[1..], from[1..], i)
    else Project(out[1..], from[1..], i)
  }

  /** The merge is an interleaving of its children: taking from the output what came from one child gives back
      exactly that child, and every emitted entry came from some child. */
  lemma {:induction false} MergeInterleaves(rest: Runs, i: nat)
    requires i < |rest|
    ensures Project(Merge(rest), Sources(rest), i) == rest[i]
    ensures |Merge(rest)| == Total(rest)
    ensures forall k :: 0 <= k < |Sources(rest)| ==> Sources(rest)[k] < |rest|
    decreases Total(rest)
  {
    hide Ahead;
    match LeastFrom(rest, 0)
    case None =>
      if rest[i] != [] { LeastFromIsLeast(rest, 0, i); }
      NothingLeft(rest);
    case Some(p) =>
      TotalAdvance(rest, p);
      MergeInterleaves(Advance(rest, p), i);
      var tail := Merge(Advance(rest, p));
      assert Merge(rest)[1..] == tail && Sources(rest)[1..] == Sources(Advance(rest, p));
      if i == p { assert rest[i] == [rest[i][0]] + rest[i][1..]; }
  }

  lemma {:induction false} NothingLeft(rest: Runs)
    requires LeastFrom(rest, 0) == None
    ensures Total(rest) == 0
  {
    hide Ahead;
    if rest != [] {
      forall i | 0 <= i < |rest| ensures rest[i] == [] {
        if rest[i] != [] { LeastFromIsLeast(rest, 0, i); }
      }
      AllEmptyTotal(rest);
    }
  }

  lemma {:induction false} AllEmptyTotal(rest: Runs)
    requires AllDone(rest)
    ensures Total(rest) == 0
  {
    if rest != [] { AllEmptyTotal(rest[1..]); }
  }

  /** The same entries as the children, no more and no fewer. */
  ghost predicate Among(rest: Runs, e: Entry)
  {
    exists i :: 0 <= i < |rest| && e in rest[i]
  }

  lemma {:induction false} MergeMembers(rest: Runs, e: Entry)
    ensures e in Merge(rest) <==> Among(rest, e)
    decreases Total(rest)
  {
    hide Ahead;
    match LeastFrom(rest, 0)
    case None =>
      if Among(rest, e) {
        var i :| 0 <= i < |rest| && e in rest[i];
        LeastFromIsLeast(rest, 0, i);
      }
    case Some(p) =>
      var next := Advance(rest, p);
      TotalAdvance(rest, p);
      MergeMembers(next, e);
      if Among(rest, e) && e != rest[p][0] {
        var i :| 0 <= i < |rest| && e in rest[i];
        assert e in next[i];
      }
      if Among(next, e) {
        var i :| 0 <= i < |next| && e in next[i];
        assert e in rest[i];
      }
      if e == rest[p][0] { assert e in rest[p]; }
  }

  // ---- Order ----

  /** Internal keys of plain user keys. */
  predicate WellKeyed(e: Entry)
  {
    && |e.key| >= 8 && e.key[|e.key| - 8] < 2
    && forall i :: 0 <= i < |e.key| - 8 ==> e.key[i] >= 2
  }

  /** Non-decreasing user keys, all of them plain. */
  ghost predicate RunSorted(s: seq<Entry>)
  {
    && (forall i :: 0 <= i < |s| ==> WellKeyed(s[i]))
    && (forall i, j :: 0 <= i < j < |s| ==> !Less(ExtractUserKey(s[j].key), ExtractUserKey(s[i].key)))
  }

  lemma KeyOrderGivesUserOrder(a: Entry, b: Entry)
    requires WellKeyed(a) && WellKeyed(b)
    requires Less(a.key, b.key) || a.key == b.key
    ensures !Less(ExtractUserKey(b.key), ExtractUserKey(a.key))
  {
    hide Less;
    var u, v := ExtractUserKey(a.key), ExtractUserKey(b.key);
    var s, t := a.key[|a.key| - 8..], b.key[|b.key| - 8..];
    assert a.key == u + s && b.key == v + t;
    LessIrreflexive(u);
    if u != v {
      UserKeyOrderFirst(v, u, t, s);
      if Less(v, u) && Less(a.key, b.key) { LessTransitive(a.key, b.key, a.key); }
      LessIrreflexive(a.key);
    }
  }

  /** Every entry still to come has a user key that is not below the least head's. */
  lemma HeadIsLeast(rest: Runs, p: nat, i: nat, k: nat)
    requires forall j :: 0 <= j < |rest| ==> RunSorted(rest[j])
    requires LeastFrom(rest, 0) == Some(p) && i < |rest| && k < |rest[i]|
    ensures !Less(ExtractUserKey(rest[i][k].key), ExtractUserKey(rest[p][0].key))
  {
    hide Less, ExtractUserKey, WellKeyed;
    LeastFromIsLeast(rest, 0, i);
    assert RunSorted(rest[i]) && RunSorted(rest[p]);
    var a, b, c := ExtractUserKey(rest[p][0].key), ExtractUserKey(rest[i][0].key), ExtractUserKey(rest[i][k].key);
    KeyOrderGivesUserOrder(rest[p][0], rest[i][0]);
    if k > 0 && Less(c, a) {
      LessTotal(b, a);
      if Less(a, b) { LessTransitive(c, a, b); }
    }
  }

  lemma RunTail(s: seq<Entry>)
    requires RunSorted(s) && s != []
    ensures RunSorted(s[1..])
  {
    hide Less, ExtractUserKey, WellKeyed;
  }

  /** Merging sorted children gives non-decreasing user keys overall. */
  lemma {:induction false} MergeSorted(rest: Runs)
    requires forall j :: 0 <= j < |rest| ==> RunSorted(rest[j])
    ensures RunSorted(Merge(rest))
    decreases Total(rest)
  {
    hide Less, ExtractUserKey, WellKeyed, Ahead;
    match LeastFrom(rest, 0)
    case None => {}
    case Some(p) =>
      var next := Advance(rest, p);
      TotalAdvance(rest, p);
      RunTail(rest[p]);
      MergeSorted(next);
      var out, tail := Merge(rest), Merge(next);
      assert RunSorted(rest[p]);
      forall j | 0 < j < |out|
        ensures !Less(ExtractUserKey(out[j].key), ExtractUserKey(out[0].key))
      {
        assert out[j] == tail[j - 1];
        MergeMembers(next, out[j]);
        var i :| 0 <= i < |next| && out[j] in next[i];
        assert out[j] in rest[i];
        var k :| 0 <= k < |rest[i]| && rest[i][k] == out[j];
        HeadIsLeast(rest, p, i, k);
      }
      ConsSorted(out[0], tail);
  }

  lemma ConsSorted(e: Entry, tail: seq<Entry>)
    requires WellKeyed(e) && RunSorted(tail)
    requires forall j :: 0 < j < |[e] + tail| ==> !Less(ExtractUserKey(([e] + tail)[j].key), ExtractUserKey(e.key))
    ensures RunSorted([e] + tail)
  {
    hide Less, ExtractUserKey, WellKeyed;
    var out := [e] + tail;
    forall i, j | 0 <= i < j < |out|
      ensures !Less(ExtractUserKey(out[j].key), ExtractUserKey(out[i].key))
    {
      if i > 0 { assert out[i] == tail[i - 1] && out[j] == tail[j - 1]; }
    }
  }

  // ---- The class ----

  datatype Cursor = Cursor(items: seq<Entry>, pos: nat)
  {
    predicate Valid() { pos < |items| }

    function Head(): Entry
      requires Valid()
    {
      items[pos]
    }

    function Next(): Cursor { this.(pos := pos + 1) }

    function Left(): seq<Entry>
    {
      if pos <= |items| then items[pos..] else []
    }
  }

  function RunsOf(cursors: seq<Cursor>): Runs
  {
    seq(|cursors|, i requires 0 <= i < |cursors| => cursors[i].Left())
  }

  class MergeIterator {
    var children: seq<Cursor>
    var heap: seq<nat>
    var current: Option<nat>
    var currentKey: Bytes
    var currentValue: Bytes

    /** What each child has still to yield. */
    ghost function Rest(): Runs
      reads this`children
    {
      RunsOf(children)
    }

    ghost predicate HeapHolds(without: Option<nat>)
      reads this`children, this`heap
    {
      && (forall i :: i in heap ==> i < |children| && children[i].Valid() && Some(i) != without)
      && (forall i :: 0 <= i < |children| && children[i].Valid() && Some(i) != without ==> i in heap)
      && (forall a, b :: 0 <= a < b < |heap| ==> heap[a] != heap[b])
    }

    /** Standing on the least head of all children, which is buffered; or on nothing, when all are done. */
    ghost predicate Stands()
      reads this
    {
      match current
      case None => heap == [] && LeastFrom(Rest(), 0) == None
      case Some(i) =>
        && LeastFrom(Rest(), 0) == Some(i) && HeapHolds(current)
        && i < |children| && children[i].Valid() && children[i].Head() == Entry(currentKey, currentValue)
    }

    constructor (inputs: seq<Cursor>)
      ensures Stands() && children == inputs
    {
      children, heap, current, currentKey, currentValue := inputs, [], None, [], [];
      new;
      var i := 0;
      while i < |children|
        invariant 0 <= i <= |children| && children == inputs
        invariant forall k :: k in heap <==> 0 <= k < i && children[k].Valid()
        invariant forall a, b :: 0 <= a < b < |heap| ==> heap[a] != heap[b]
      {
        if children[i].Valid() { heap := heap + [i]; }
        i := i + 1;
      }
      PopNext();
    }

    predicate IsValid()
      reads this
    {
      current.Some?
    }

    /** Advance: `current_` is cleared first, so its duplicate test never fires and every entry is emitted. */
    method PopNext()
      requires HeapHolds(None)
      modifies this`heap, this`current, this`currentKey, this`currentValue
      ensures Stands()
    {
      hide Less, Ahead;
      current := None;
      if heap == [] {
        NoHeads();
        return;
      }
      var top := PopLeast();
      if current.Some? { assert false; }
      current := Some(top);
      currentKey := children[top].Head().key;
      currentValue := children[top].Head().value;
    }

    lemma NoHeads()
      requires HeapHolds(None) && heap == []
      ensures LeastFrom(Rest(), 0) == None
    {
      hide Ahead;
      if LeastFrom(Rest(), 0).Some? {
        var i := LeastFrom(Rest(), 0).value;
        assert Rest()[i] == children[i].Left();
      }
    }

    /** The priority queue's top and pop: the least element by key, then index. */
    method PopLeast() returns (top: nat)
      requires HeapHolds(None) && heap != []
      modifies this`heap
      ensures HeapHolds(Some(top)) && LeastFrom(Rest(), 0) == Some(top)
      ensures top < |children| && children[top].Valid()
    {
      hide Less, Compare, LeastFrom;
      var best := 0;
      var n := 1;
      assert heap[0] in heap;
      BeatsDecides(heap[0], heap[0]);
      while n < |heap|
        invariant 0 <= best < n <= |heap|
        invariant forall m :: 0 <= m < n ==> Beats(heap[best], heap[m])
        invariant HeapHolds(None)
      {
        assert heap[n] in heap && heap[best] in heap;
        BeatsDecides(heap[n], heap[best]);
        if Beats(heap[n], heap[best]) {
          forall m | 0 <= m < n ensures Beats(heap[n], heap[m]) { BeatsChains(heap[n], heap[best], heap[m]); }
          best := n;
        }
        n := n + 1;
      }
      top := heap[best];
      assert top in heap;
      LeastInHeap(top);
      heap := heap[..best] + heap[best + 1..];
    }

    /** IterWrapper's order, over the cursors' present heads. */
    predicate Beats(i: nat, j: nat)
      reads this`children
    {
      && i < |children| && j < |children| && children[i].Valid() && children[j].Valid()
      && var cmp := Compare(children[i].Head().key, children[j].Head().key);
      && (cmp < 0 || (cmp == 0 && i <= j))
    }

    lemma BeatsDecides(i: nat, j: nat)
      requires i < |children| && j < |children| && children[i].Valid() && children[j].Valid()
      ensures Beats(i, j) || Beats(j, i)
      ensures Beats(i, i)
    {
      hide Less, Compare;
      CompareIsLexicographic(children[i].Head().key, children[j].Head().key);
      CompareIsLexicographic(children[j].Head().key, children[i].Head().key);
      CompareIsLexicographic(children[i].Head().key, children[i].Head().key);
      LessTotal(children[i].Head().key, children[j].Head().key);
    }

    lemma BeatsChains(i: nat, j: nat, k: nat)
      requires Beats(i, j) && Beats(j, k)
      ensures Beats(i, k)
    {
      hide Less, Compare;
      var a, b, c := children[i].Head().key, children[j].Head().key, children[k].Head().key;
      CompareIsLexicographic(a, b);
      CompareIsLexicographic(b, c);
      CompareIsLexicographic(a, c);
      if Less(a, b) && Less(b, c) { LessTransitive(a, b, c); }
    }

    lemma LeastInHeap(top: nat)
      requires HeapHolds(None) && top in heap && forall m :: 0 <= m < |heap| ==> Beats(top, heap[m])
      ensures LeastFrom(Rest(), 0) == Some(top)
    {
      hide Less, Compare, LeastFrom;
      var rest := Rest();
      forall j | 0 <= j < |rest| && rest[j] != []
        ensures Ahead(rest, top, j)
      {
        assert rest[j] == children[j].Left() && rest[top] == children[top].Left();
        assert j in heap;
        CompareIsLexicographic(children[top].Head().key, children[j].Head().key);
      }
      LeastIsUnique(rest, top);
    }

    /** Next: the child that yielded the current entry moves on and goes back into the heap. */
    method Next()
      requires Stands()
      modifies this
      ensures Stands()
      ensures old(current) == None ==> Merge(Rest()) == old(Merge(Rest()))
      ensures old(current).Some? ==> old(Merge(Rest())) == [old(Entry(currentKey, currentValue))] + Merge(Rest())
      ensures |children| == |old(children)|
    {
      hide Less, Ahead, LeastFrom, Merge;
      if current == None { return; }
      ghost var before := Rest();
      var i := current.value;
      MergeUnfolds(before, i);
      assert before[i] == children[i].Left();
      children := children[i := children[i].Next()];
      assert Rest() == Advance(before, i);
      if children[i].Valid() {
        heap := heap + [i];
      }
      PopNext();
    }
  }

  lemma MergeUnfolds(rest: Runs, i: nat)
    requires LeastFrom(rest, 0) == Some(i)
    ensures i < |rest| && rest[i] != [] && Merge(rest) == [rest[i][0]] + Merge(Advance(rest, i))
  {}

  /** A full run of the iterator emits the merge of its children and ends after as many steps as they have entries. */
  method Drain(inputs: seq<Cursor>, ghost runs: Runs) returns (out: seq<Entry>)
    requires |runs| == |inputs| && forall i :: 0 <= i < |inputs| ==> inputs[i] == Cursor(runs[i], 0)
    ensures out == Merge(runs)
  {
    hide Merge, LeastFrom, Ahead;
    var it := new MergeIterator(inputs);
    assert it.Rest() == runs;
    out := [];
    while it.IsValid()
      invariant it.Stands() && out + Merge(it.Rest()) == Merge(runs)
      decreases |Merge(it.Rest())|
    {
      out := out + [Entry(it.currentKey, it.currentValue)];
      it.Next();
    }
    MergeEnds(it.Rest());
  }

  lemma MergeEnds(rest: Runs)
    requires LeastFrom(rest, 0) == None
    ensures Merge(rest) == []
  {}
}
