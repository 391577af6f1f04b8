/** Reference counts (Ref and Unref of include/minilsm/sstable.h and include/minilsm/memtable.h). */
module RefCounts {

  /** The counts of all objects ever made, and which of them have been deleted. */
  datatype Heap = Heap(refs: seq<int>, freed: set<nat>)

  /** A new object belongs to whoever made it. */
  function New(h: Heap): Heap
  {
    Heap(h.refs + [1], h.freed)
  }

  function Ref(h: Heap, id: nat): Heap
  {
    if id < |h.refs| then h.(refs := h.refs[id := h.refs[id] + 1]) else h
  }

  /** The Unref that takes the count from 1 deletes the object. */
  function Unref(h: Heap, id: nat): Heap
  {
    if id >= |h.refs| then h
    else Heap(h.refs[id := h.refs[id] - 1], if h.refs[id] == 1 then h.freed + {id} else h.freed)
  }

  function RefAll(h: Heap, ids: seq<nat>): Heap
  {
    if ids == [] then h else Ref(RefAll(h, ids[..|ids| - 1]), ids[|ids| - 1])
  }

  function UnrefAll(h: Heap, ids: seq<nat>): Heap
  {
    if ids == [] then h else Unref(UnrefAll(h, ids[..|ids| - 1]), ids[|ids| - 1])
  }

  function NewMany(h: Heap, n: nat): Heap
  {
    if n == 0 then h else New(NewMany(h, n - 1))
  }

  /** Every count is the number of holders, and an object is deleted exactly when nothing holds it. */
  ghost predicate Balanced(h: Heap, owners: multiset<nat>)
  {
    && (forall id :: id in owners ==> id < |h.refs|)
    && (forall id :: id in h.freed ==> id < |h.refs|)
    && forall id :: 0 <= id < |h.refs| ==> h.refs[id] == owners[id] && (id in h.freed <==> owners[id] == 0)
  }

  /** So nothing that is held has been deleted. */
  lemma HeldIsAlive(h: Heap, owners: multiset<nat>, id: nat)
    requires Balanced(h, owners) && id in owners
    ensures id < |h.refs| && h.refs[id] > 0 && id !in h.freed
  {}

  lemma NewKeeps(h: Heap, owners: multiset<nat>)
    requires Balanced(h, owners)
    ensures Balanced(New(h), owners + multiset{|h.refs|})
  {
    var o := owners + multiset{|h.refs|};
    forall id | 0 <= id < |h.refs| ensures o[id] == owners[id] {}
    assert o[|h.refs|] == 1 by { assert |h.refs| !in owners; }
  }

  lemma RefKeeps(h: Heap, owners: multiset<nat>, id: nat)
    requires Balanced(h, owners) && id in owners
    ensures Balanced(Ref(h, id), owners + multiset{id})
  {}

  lemma UnrefKeeps(h: Heap, owners: multiset<nat>, id: nat)
    requires Balanced(h, owners) && id in owners
    ensures Balanced(Unref(h, id), owners - multiset{id})
  {}

  lemma {:induction false} RefAllKeeps(h: Heap, owners: multiset<nat>, ids: seq<nat>)
    requires Balanced(h, owners) && forall i :: 0 <= i < |ids| ==> ids[i] in owners
    ensures Balanced(RefAll(h, ids), owners + multiset(ids))
  {
    hide Balanced;
    if ids == [] {
      assert owners + multiset(ids) == owners;
    } else {
      var n := |ids| - 1;
      RefAllKeeps(h, owners, ids[..n]);
      RefKeeps(RefAll(h, ids[..n]), owners + multiset(ids[..n]), ids[n]);
      assert ids[..n] + [ids[n]] == ids;
      assert owners + multiset(ids[..n]) + multiset{ids[n]} == owners + multiset(ids);
    }
  }

  lemma {:induction false} UnrefAllKeeps(h: Heap, owners: multiset<nat>, ids: seq<nat>)
    requires Balanced(h, owners) && multiset(ids) <= owners
    ensures Balanced(UnrefAll(h, ids), owners - multiset(ids))
  {
    hide Balanced;
    if ids == [] {
      assert owners - multiset(ids) == owners;
    } else {
      var n := |ids| - 1;
      assert ids[..n] + [ids[n]] == ids;
      assert multiset(ids) == multiset(ids[..n]) + multiset{ids[n]};
      UnrefAllKeeps(h, owners, ids[..n]);
      UnrefKeeps(UnrefAll(h, ids[..n]), owners - multiset(ids[..n]), ids[n]);
      assert owners - multiset(ids[..n]) - multiset{ids[n]} == owners - multiset(ids);
    }
  }

  /** The identities of `n` objects made one after another. */
  function NewIds(h: Heap, n: nat): (ids: seq<nat>)
    ensures |ids| == n
  {
    seq(n, i => |h.refs| + i)
  }

  lemma {:induction false} NewManyKeeps(h: Heap, owners: multiset<nat>, n: nat)
    requires Balanced(h, owners)
    ensures Balanced(NewMany(h, n), owners + multiset(NewIds(h, n)))
    ensures |NewMany(h, n).refs| == |h.refs| + n
  {
    hide Balanced;
    if n == 0 {
      assert NewIds(h, 0) == [];
      assert owners + multiset(NewIds(h, 0)) == owners;
    } else {
      NewManyKeeps(h, owners, n - 1);
      var before, last: nat := NewIds(h, n - 1), |h.refs| + n - 1;
      NewKeeps(NewMany(h, n - 1), owners + multiset(before));
      assert NewIds(h, n) == before + [last];
      assert owners + multiset(before) + multiset{last} == owners + multiset(NewIds(h, n));
    }
  }
}
