/** The memory pool of a memory table (src/arena.cc, include/minilsm/arena.h). Addresses are numbers. */
module Arenas {

  const BLOCK_SIZE: nat := 4096

  /** Consecutive bytes. */
  datatype Area = Area(start: nat, size: nat)

  /** No byte in common. */
  predicate Apart(a: Area, b: Area)
  {
    a.size == 0 || b.size == 0 || a.start + a.size <= b.start || b.start + b.size <= a.start
  }

  predicate Inside(a: Area, b: Area)
  {
    b.start <= a.start && a.start + a.size <= b.start + b.size
  }

  ghost predicate AllApart(areas: seq<Area>)
  {
    forall i, j :: 0 <= i < j < |areas| ==> Apart(areas[i], areas[j])
  }

  ghost predicate InsideOne(a: Area, blocks: seq<Area>)
  {
    exists k :: 0 <= k < |blocks| && Inside(a, blocks[k])
  }

  /** Where `new char[size]` may put a block: aligned, and apart from every block before. */
  ghost predicate Available(at: nat, size: nat, blocks: seq<Area>)
  {
    at % 8 == 0 && at > 0 && forall k :: 0 <= k < |blocks| ==> Apart(Area(at, size), blocks[k])
  }

  function Sizes(blocks: seq<Area>): nat
  {
    if blocks == [] then 0 else Sizes(blocks[..|blocks| - 1]) + blocks[|blocks| - 1].size
  }

  /** Bytes up to the next multiple of eight. */
  function Padding(p: nat): nat
  {
    if p % 8 == 0 then 0 else 8 - p % 8
  }

  /** The block that a request which does not fit makes. */
  function NewBlockSize(n: nat): nat
  {
    if n > BLOCK_SIZE / 4 then n else BLOCK_SIZE
  }

  /** Areas inside blocks that are apart from one another. */
  ghost predicate Disjoint(given: seq<Area>, free: Area, blocks: seq<Area>)
  {
    && AllApart(blocks) && AllApart(given)
    && (forall i :: 0 <= i < |given| ==> Apart(given[i], free) && InsideOne(given[i], blocks))
    && (free.size > 0 ==> InsideOne(free, blocks))
  }

  class Arena {
    var allocPtr: nat
    var allocBytesRemaining: nat
    var blocks: seq<Area>
    var memoryUsage: nat
    ghost var given: seq<Area>  // the non-empty areas handed out so far

    /** No byte is handed out twice, and none is outside the blocks. */
    ghost predicate Valid()
      reads this
    {
      Disjoint(given, Area(allocPtr, allocBytesRemaining), blocks) && memoryUsage == Sizes(blocks)
    }

    constructor ()
      ensures Valid() && given == [] && memoryUsage == 0
    {
      allocPtr, allocBytesRemaining, blocks, memoryUsage, given := 0, 0, [], 0, [];
    }

    /** `at` is where a new block would be placed, should one be needed. */
    method Allocate(n: nat, at: nat) returns (r: nat)
      requires Valid() && Available(at, NewBlockSize(n), blocks)
      modifies this
      ensures Valid() && given == old(given) + if n == 0 then [] else [Area(r, n)]
      ensures n == 0 ==> r == 1
      ensures 0 < n <= old(allocBytesRemaining) ==> r == old(allocPtr) && blocks == old(blocks)
      ensures n > old(allocBytesRemaining) ==> r == at && blocks == old(blocks) + [Area(at, NewBlockSize(n))]
    {
      if n == 0 { return 1; }
      if n <= allocBytesRemaining {
        CutFront(given, Area(allocPtr, allocBytesRemaining), blocks, n);
        r := allocPtr;
        allocPtr := allocPtr + n;
        allocBytesRemaining := allocBytesRemaining - n;
        given := given + [Area(r, n)];
        return;
      }
      r := AllocateFallback(n, at);
    }

    /** Aligned to eight bytes, but for an empty request that fits: that one gets the address 1. */
    method AllocateAligned(n: nat, at: nat) returns (r: nat)
      requires Valid() && Available(at, NewBlockSize(n), blocks)
      modifies this
      ensures Valid() && given == old(given) + if n == 0 then [] else [Area(r, n)]
      ensures r % 8 == 0 <==> !(n == 0 && Padding(old(allocPtr)) <= old(allocBytesRemaining))
    {
      var misalign := allocPtr % 8;
      var padding := if misalign != 0 then 8 - misalign else 0;
      if padding + n <= allocBytesRemaining {
        SkipFront(given, Area(allocPtr, allocBytesRemaining), blocks, padding);
        allocPtr := allocPtr + padding;
        allocBytesRemaining := allocBytesRemaining - padding;
        PaddingAligns(old(allocPtr));
        r := Allocate(n, at);
        return;
      }
      r := AllocateFallback(n, at);
    }

    /** A block of its own for a large request; otherwise a new default block, of which the old one's rest is lost. */
    method AllocateFallback(n: nat, at: nat) returns (r: nat)
      requires Valid() && Available(at, NewBlockSize(n), blocks)
      requires n + Padding(allocPtr) > allocBytesRemaining
      modifies this
      ensures Valid() && r == at && given == old(given) + if n == 0 then [] else [Area(r, n)]
      ensures blocks == old(blocks) + [Area(at, NewBlockSize(n))]
      ensures n <= BLOCK_SIZE / 4 ==> old(allocBytesRemaining) <= BLOCK_SIZE / 4 + 6
      ensures n > BLOCK_SIZE / 4 ==> allocPtr == old(allocPtr) && allocBytesRemaining == old(allocBytesRemaining)
    {
      var size := NewBlockSize(n);
      NewBlock(given, Area(allocPtr, allocBytesRemaining), blocks, at, size);
      blocks := blocks + [Area(at, size)];
      memoryUsage := memoryUsage + size;
      r := at;
      if n > BLOCK_SIZE / 4 {
        TakeWhole(given, Area(allocPtr, allocBytesRemaining), blocks, at, size);
        given := given + [Area(at, n)];
        return;
      }
      allocPtr, allocBytesRemaining := at, BLOCK_SIZE;
      if n > 0 {
        CutFront(given, Area(allocPtr, allocBytesRemaining), blocks, n);
        given := given + [Area(r, n)];
      }
      allocPtr, allocBytesRemaining := allocPtr + n, allocBytesRemaining - n;
    }
  }

  lemma PaddingAligns(p: nat)
    ensures (p + Padding(p)) % 8 == 0 && Padding(p) <= 7
  {}

  lemma CutFront(given: seq<Area>, free: Area, blocks: seq<Area>, n: nat)
    requires Disjoint(given, free, blocks) && 0 < n <= free.size
    ensures Disjoint(given + [Area(free.start, n)], Area(free.start + n, free.size - n), blocks)
  {
    var k :| 0 <= k < |blocks| && Inside(free, blocks[k]);
    assert Inside(Area(free.start, n), blocks[k]) && Inside(Area(free.start + n, free.size - n), blocks[k]);
  }

  lemma SkipFront(given: seq<Area>, free: Area, blocks: seq<Area>, n: nat)
    requires Disjoint(given, free, blocks) && n <= free.size
    ensures Disjoint(given, Area(free.start + n, free.size - n), blocks)
  {
    if free.size - n > 0 {
      var k :| 0 <= k < |blocks| && Inside(free, blocks[k]);
      assert Inside(Area(free.start + n, free.size - n), blocks[k]);
    }
  }

  /** A new block is apart from everything handed out and from what is left of the current one. */
  lemma NewBlock(given: seq<Area>, free: Area, blocks: seq<Area>, at: nat, size: nat)
    requires Disjoint(given, free, blocks) && Available(at, size, blocks)
    ensures Disjoint(given, free, blocks + [Area(at, size)]) && Disjoint(given, Area(at, size), blocks + [Area(at, size)])
    ensures free.size > 0 ==> Apart(free, Area(at, size))
    ensures Sizes(blocks + [Area(at, size)]) == Sizes(blocks) + size
  {
    var more, added := blocks + [Area(at, size)], Area(at, size);
    assert more[..|blocks|] == blocks;
    forall i | 0 <= i < |given|
      ensures InsideOne(given[i], more) && Apart(given[i], added)
    {
      var k :| 0 <= k < |blocks| && Inside(given[i], blocks[k]);
      assert Inside(given[i], more[k]);
    }
    if free.size > 0 {
      var k :| 0 <= k < |blocks| && Inside(free, blocks[k]);
      assert Inside(free, more[k]);
    }
    assert Inside(added, more[|blocks|]);
  }

  lemma TakeWhole(given: seq<Area>, free: Area, blocks: seq<Area>, at: nat, size: nat)
    requires Disjoint(given, free, blocks) && Disjoint(given, Area(at, size), blocks) && size > 0
    requires free.size > 0 ==> Apart(free, Area(at, size))
    ensures Disjoint(given + [Area(at, size)], free, blocks)
  {}
}
