/** The skip list (src/skiplist.cc): a twelve-level linked structure in the heap, proved against
    the sorted sequence of its entries. */
module SkipLists {
  import opened Slices
  import opened Coding
  import opened Entries

  const MAX_HEIGHT: nat := 12

  /** SkipList::Node. The flexible array member is part of the node, hence a sequence field. */
  class Node {
    const key: Bytes
    var value: Bytes
    const height: nat
    var next: seq<Node?>

    constructor (key: Bytes, value: Bytes, height: nat)
      ensures this.key == key && this.value == value && this.height == height
      ensures next == seq(height, _ => null)
    {
      this.key, this.value, this.height := key, value, height;
      this.next := seq(height, _ => null);
    }
  }

  // ---- The list as a sequence of nodes, the head first ----

  ghost function NodeAt(all: seq<Node>, i: nat): Node?
  {
    if i < |all| then all[i] else null
  }

  /** The first position from `i` on whose node reaches `level`, or the end. */
  ghost function NextAt(all: seq<Node>, i: nat, level: nat): (j: nat)
    requires i <= |all|
    ensures i <= j <= |all|
    ensures j < |all| ==> all[j].height > level
    ensures forall k :: i <= k < j ==> all[k].height <= level
    decreases |all| - i
  {
    if i == |all| || all[i].height > level then i else NextAt(all, i + 1, level)
  }

  ghost predicate WellFormed(all: seq<Node>)
  {
    && |all| > 0
    && all[0].height == MAX_HEIGHT
    && (forall i :: 0 <= i < |all| ==> 1 <= all[i].height <= MAX_HEIGHT)
    && (forall i, j :: 0 <= i < j < |all| ==> all[i] != all[j])
    && (forall i, j :: 1 <= i < j < |all| ==> Less(all[i].key, all[j].key))
  }

  /** At each level every node points to the next node that reaches the level. */
  ghost predicate Linked(all: seq<Node>)
    reads all
  {
    && (forall i :: 0 <= i < |all| ==> |all[i].next| == all[i].height)
    && (forall i, l :: 0 <= i < |all| && 0 <= l < all[i].height ==>
          all[i].next[l] == NodeAt(all, NextAt(all, i + 1, l)))
  }

  /** The first position after the head whose key is not less than `key`. */
  ghost function Bound(all: seq<Node>, i: nat, key: Bytes): (p: nat)
    requires i <= |all|
    ensures i <= p <= |all|
    ensures forall k :: i <= k < p ==> Less(all[k].key, key)
    ensures p < |all| ==> !Less(all[p].key, key)
    decreases |all| - i
  {
    if i == |all| || !Less(all[i].key, key) then i else Bound(all, i + 1, key)
  }

  /** The comparison of the search decides on which side of the target a position lies. */
  lemma AheadOf(all: seq<Node>, key: Bytes, j: nat)
    requires WellFormed(all) && 0 < j < |all|
    ensures Compare(all[j].key, key) < 0 <==> j < Bound(all, 1, key)
    ensures Compare(all[j].key, key) == 0 <==> all[j].key == key
  {
    CompareIsLexicographic(all[j].key, key);
    var p := Bound(all, 1, key);
    if p < j && Less(all[j].key, key) {
      LessTransitive(all[p].key, all[j].key, key);
    }
  }

  /** `all` with a new node at position `p`. */
  ghost function With(all: seq<Node>, p: nat, n: Node): seq<Node>
    requires p <= |all|
  {
    all[..p] + [n] + all[p..]
  }

  lemma NextAtUnique(all: seq<Node>, i: nat, level: nat, j: nat)
    requires i <= j <= |all|
    requires j < |all| ==> all[j].height > level
    requires forall k :: i <= k < j ==> all[k].height <= level
    ensures NextAt(all, i, level) == j
  {}

  /** At the bottom level every node is linked, so the next one is the next position. */
  lemma BottomNext(all: seq<Node>, i: nat)
    requires WellFormed(all) && i < |all|
    ensures NextAt(all, i + 1, 0) == i + 1
  {
    assert i + 1 < |all| ==> all[i + 1].height >= 1;
  }

  /** How a new node changes what comes next at each level. */
  lemma NextAtWith(all: seq<Node>, p: nat, n: Node, i: nat, level: nat)
    requires i <= |all| && p <= |all|
    ensures i <= p ==> NextAt(With(all, p, n), i, level) ==
                       var j := NextAt(all, i, level);
                       if j < p then j else if n.height > level then p else j + 1
    ensures p <= i ==> NextAt(With(all, p, n), i + 1, level) == NextAt(all, i, level) + 1
  {
    var j := NextAt(all, i, level);
    var b := With(all, p, n);
    if i <= p {
      NextAtUnique(b, i, level, if j < p then j else if n.height > level then p else j + 1);
    }
    if p <= i {
      NextAtUnique(b, i + 1, level, j + 1);
    }
  }

  /** `i` is the last position before `p` that reaches `level`. */
  ghost predicate IsPredecessor(all: seq<Node>, i: nat, p: nat, level: nat)
  {
    i < p <= |all| && all[i].height > level && p <= NextAt(all, i + 1, level)
  }

  ghost predicate Predecessors(all: seq<Node>, at: seq<nat>, p: nat)
  {
    |at| == MAX_HEIGHT && forall l :: 0 <= l < MAX_HEIGHT ==> IsPredecessor(all, at[l], p, l)
  }

  /** The entries of the nodes after the head. */
  ghost function EntriesOf(all: seq<Node>): (s: seq<Entry>)
    reads all
    requires |all| > 0
    ensures |s| == |all| - 1
  {
    seq(|all| - 1, i requires 0 <= i < |all| - 1 reads all => Entry(all[i + 1].key, all[i + 1].value))
  }

  lemma EntriesWith(all: seq<Node>, n: Node, p: nat)
    requires 1 <= p <= |all|
    ensures EntriesOf(With(all, p, n)) == EntriesOf(all)[..p - 1] + [Entry(n.key, n.value)] + EntriesOf(all)[p - 1..]
  {}

  /** The positions met from `i` on when following one level's pointers. */
  ghost function Level(all: seq<Node>, i: nat, level: nat): seq<nat>
    requires i <= |all|
    decreases |all| - i
  {
    var j := NextAt(all, i, level);
    if j == |all| then [] else [j] + Level(all, j + 1, level)
  }

  lemma {:induction false} LevelMembers(all: seq<Node>, i: nat, level: nat, k: nat)
    requires i <= |all|
    ensures k in Level(all, i, level) <==> i <= k < |all| && all[k].height > level
    decreases |all| - i
  {
    hide NextAt;
    var j := NextAt(all, i, level);
    if j < |all| { LevelMembers(all, j + 1, level, k); }
  }

  lemma {:induction false} LevelSteps(all: seq<Node>, i: nat, level: nat, a: nat)
    requires i <= |all| && a < |Level(all, i, level)|
    ensures var s := Level(all, i, level);
            i <= s[a] < |all| && NextAt(all, s[a] + 1, level) == if a + 1 < |s| then s[a + 1] else |all|
    decreases |all| - i
  {
    hide NextAt;
    var j := NextAt(all, i, level);
    if a > 0 { LevelSteps(all, j + 1, level, a - 1); }
  }

  lemma {:induction false} LevelIncreasing(all: seq<Node>, i: nat, level: nat, a: nat, b: nat)
    requires i <= |all| && a < b < |Level(all, i, level)|
    ensures Level(all, i, level)[a] < Level(all, i, level)[b]
    decreases b - a
  {
    hide NextAt, Level;
    LevelSteps(all, i, level, a);
    if a + 1 < b { LevelIncreasing(all, i, level, a + 1, b); }
  }

  class SkipList {
    const head: Node
    ghost var all: seq<Node>

    ghost predicate Valid()
      reads this, all
    {
      && |all| > 0 && all[0] == head && head.height == MAX_HEIGHT
      && WellFormed(all) && Linked(all)
    }

    /** The entries along level 0. */
    ghost function Contents(): (s: seq<Entry>)
      reads this, all
      requires |all| > 0
      ensures |s| == |all| - 1
    {
      EntriesOf(all)
    }

    lemma ContentsSorted()
      requires Valid()
      ensures Sorted(Contents())
    {}

    /** Searching the nodes is searching the contents. */
    lemma BoundIsLowerBound(key: Bytes)
      requires Valid()
      ensures Bound(all, 1, key) == 1 + LowerBound(Contents(), key)
    {
      ContentsSorted();
      LowerBoundUnique(Contents(), key, Bound(all, 1, key) - 1);
    }

    constructor ()
      ensures Valid() && Contents() == []
      ensures fresh(set n | n in all)
    {
      var h := new Node([], [], MAX_HEIGHT);
      head, all := h, [h];
      new;
      assert forall l :: 0 <= l < MAX_HEIGHT ==> NextAt(all, 1, l) == 1;
    }

    /** Following any level's pointers from the head visits keys in strictly increasing order... */
    lemma LevelsSorted(level: nat, a: nat)
      requires Valid() && level < MAX_HEIGHT && a < |Level(all, 1, level)|
      ensures var s := Level(all, 1, level);
              && 1 <= s[a] < |all| && level < |all[s[a]].next|
              && all[s[a]].next[level] == (if a + 1 < |s| then NodeAt(all, s[a + 1]) else null)
              && forall b :: a < b < |s| ==> s[b] < |all| && Less(all[s[a]].key, all[s[b]].key)
    {
      hide Less, NextAt, Level;
      var s := Level(all, 1, level);
      LevelSteps(all, 1, level, a);
      LevelMembers(all, 1, level, s[a]);
      forall b | a < b < |s|
        ensures s[b] < |all| && Less(all[s[a]].key, all[s[b]].key)
      {
        LevelIncreasing(all, 1, level, a, b);
        LevelSteps(all, 1, level, b);
      }
    }

    /** ...and only nodes that the level below visits as well. */
    lemma LevelsNested(level: nat, k: nat)
      requires Valid() && 0 < level < MAX_HEIGHT && k in Level(all, 1, level)
      ensures k in Level(all, 1, level - 1)
    {
      LevelMembers(all, 1, level, k);
      LevelMembers(all, 1, level - 1, k);
    }

    /** What one iteration of a search reads, and on which side of the target it lies. */
    lemma LooksAt(key: Bytes, i: nat, level: nat)
      requires Valid() && i < |all| && level < all[i].height
      ensures var j := NextAt(all, i + 1, level);
              && level < |all[i].next| && all[i].next[level] == NodeAt(all, j)
              && (NodeAt(all, j) == null <==> j == |all|)
              && (j < |all| ==> NodeAt(all, j) == all[j] && (Compare(all[j].key, key) < 0 <==> j < Bound(all, 1, key))
                                && (Compare(all[j].key, key) == 0 <==> all[j].key == key))
    {
      hide Compare, Bound, NextAt, Less;
      var j := NextAt(all, i + 1, level);
      if j < |all| { AheadOf(all, key, j); }
    }

    /** FindGreaterOrEqual: the node of the first key that is not less than `key`, found by moving
        right and down. `prev` is what the C++ records through its second argument, the last node
        before that position at every level; `at` are those nodes' positions. The search descends at
        most MAX_HEIGHT - 1 times and never moves left. */
    method FindGreaterOrEqual(key: Bytes) returns (result: Node?, prev: seq<Node>, ghost at: seq<nat>)
      requires Valid()
      ensures result == NodeAt(all, 1 + LowerBound(Contents(), key))
      ensures Predecessors(all, at, 1 + LowerBound(Contents(), key))
      ensures |prev| == MAX_HEIGHT && forall l :: 0 <= l < MAX_HEIGHT ==> prev[l] == all[at[l]]
    {
      hide Less, Compare, NextAt, Bound, LowerBound, Contents, WellFormed, Linked;
      var x: Node := head;
      var level := MAX_HEIGHT - 1;
      ghost var p := Bound(all, 1, key);
      ghost var i: nat := 0;
      prev := seq(MAX_HEIGHT, _ => head);
      at := seq(MAX_HEIGHT, _ => 0);
      while true
        invariant 0 <= level < MAX_HEIGHT && 0 <= i < p <= |all| && x == all[i] && level < x.height
        invariant |at| == |prev| == MAX_HEIGHT
        invariant forall l :: level < l < MAX_HEIGHT ==> IsPredecessor(all, at[l], p, l) && prev[l] == all[at[l]]
        decreases level, |all| - i
      {
        ghost var j := NextAt(all, i + 1, level);
        LooksAt(key, i, level);
        var next := x.next[level];
        if next != null && Compare(next.key, key) < 0 {
          x := next;
          i := j;
        } else {
          prev := prev[level := x];
          at := at[level := i];
          if level == 0 {
            BottomNext(all, i);
            result := next;
            break;
          }
          level := level - 1;
        }
      }
      BoundIsLowerBound(key);
    }

    /** Contains: the same search, then an equality test. */
    method Contains(key: Bytes) returns (r: Option<Bytes>)
      requires Valid()
      ensures r == Find(Contents(), key)
    {
      hide Less, Compare, NextAt, Bound, LowerBound, WellFormed, Linked;
      var x: Node := head;
      var level := MAX_HEIGHT - 1;
      ghost var p := Bound(all, 1, key);
      ghost var i: nat := 0;
      BoundIsLowerBound(key);
      while true
        invariant 0 <= level < MAX_HEIGHT && 0 <= i < p <= |all| && x == all[i] && level < x.height
        decreases level, |all| - i
      {
        ghost var j := NextAt(all, i + 1, level);
        LooksAt(key, i, level);
        var next := x.next[level];
        if next != null && Compare(next.key, key) < 0 {
          x := next;
          i := j;
        } else {
          if level == 0 {
            BottomNext(all, i);
            if next != null && Compare(next.key, key) == 0 {
              return Some(next.value);
            }
            return None;
          }
          level := level - 1;
        }
      }
    }

    /** One more for each draw that is divisible by four, until one is not, and at most 12. */
    static ghost predicate Drawn(rand: nat -> nat, height: nat)
    {
      && 1 <= height <= 12
      && (forall k :: 1 <= k < height ==> rand(k) % 4 == 0)
      && (height < 12 ==> rand(height) % 4 != 0)
    }

    /** RandomHeight, with the results of rand() as a parameter. */
    static method RandomHeight(rand: nat -> nat) returns (height: nat)
      ensures Drawn(rand, height) && height <= MAX_HEIGHT
    {
      height := 1;
      while height < MAX_HEIGHT && rand(height) % 4 == 0
        invariant 1 <= height <= MAX_HEIGHT
        invariant forall k :: 1 <= k < height ==> rand(k) % 4 == 0
      {
        height := height + 1;
      }
    }

    /** Insert: updates the value of an existing key in place, or links a new node of some height
        level by level from the bottom. Either way the contents change by exactly that key. */
    method Insert(key: Bytes, value: Bytes, rand: nat -> nat)
      requires Valid()
      modifies this, all
      ensures Valid()
      ensures Contents() == Put(old(Contents()), key, value)
      ensures fresh(set n | n in all && n !in old(all))
      ensures forall n :: n in all && n !in old(all) ==> n.key == key && Drawn(rand, n.height)
    {
      hide *;
      var x, prev, at := FindGreaterOrEqual(key);
      ghost var p := 1 + LowerBound(Contents(), key);
      Decides(key);
      if x != null && Compare(x.key, key) == 0 {
        UpdateValue(x, value, p);
      } else {
        BoundSeparates(key);
        var height := RandomHeight(rand);
        var n := new Node(key, value, height);
        Link(n, prev, p, at);
      }
    }

    lemma Decides(key: Bytes)
      requires Valid()
      ensures var p := 1 + LowerBound(Contents(), key);
              && 1 <= p <= |all|
              && (NodeAt(all, p) == null <==> p == |all|)
              && (p < |all| ==> NodeAt(all, p) == all[p] && (Compare(all[p].key, key) == 0 <==> all[p].key == key))
    {
      BoundIsLowerBound(key);
      var p := Bound(all, 1, key);
      if p < |all| { AheadOf(all, key, p); }
    }

    /** The branch of Insert for a key that exists. */
    method UpdateValue(x: Node, value: Bytes, ghost p: nat)
      requires Valid() && 1 <= p < |all| && x == all[p] && p == 1 + LowerBound(Contents(), x.key)
      modifies x`value
      ensures Valid() && all == old(all)
      ensures Contents() == Put(old(Contents()), x.key, value)
    {
      hide Less, NextAt, LowerBound;
      ghost var s := Contents();
      x.value := value;
      assert Contents() == s[p - 1 := Entry(x.key, value)];
    }

    /** A key that is absent falls strictly between its neighbours. */
    lemma BoundSeparates(key: Bytes)
      requires Valid()
      requires var p := 1 + LowerBound(Contents(), key); p < |all| ==> all[p].key != key
      ensures var p := 1 + LowerBound(Contents(), key);
              p <= |all| && (forall k :: 1 <= k < p ==> Less(all[k].key, key))
              && (forall k :: p <= k < |all| ==> Less(key, all[k].key))
    {
      BoundIsLowerBound(key);
      var p := Bound(all, 1, key);
      if p < |all| {
        LessTotal(all[p].key, key);
        forall k | p <= k < |all|
          ensures Less(key, all[k].key)
        {
          if p < k { LessTransitive(key, all[p].key, all[k].key); }
        }
      }
    }

    /** The linking loop of Insert. */
    method Link(n: Node, prev: seq<Node>, ghost p: nat, ghost at: seq<nat>)
      requires Valid() && n !in all && 1 <= n.height <= MAX_HEIGHT
      requires n.next == seq(n.height, _ => null)
      requires 1 <= p <= |all| && Predecessors(all, at, p) && p == 1 + LowerBound(Contents(), n.key)
      requires |prev| == MAX_HEIGHT && forall l :: 0 <= l < MAX_HEIGHT ==> prev[l] == all[at[l]]
      requires forall k :: 1 <= k < p ==> Less(all[k].key, n.key)
      requires forall k :: p <= k < |all| ==> Less(n.key, all[k].key)
      modifies this, all, n
      ensures Valid() && p <= |old(all)| && all == With(old(all), p, n)
      ensures forall k :: k in all ==> k in old(all) || k == n
      ensures Contents() == Put(old(Contents()), n.key, old(n.value))
    {
      hide NextAt, Less, With;
      ghost var s := Contents();
      LinkLevels(n, prev, p, at);
      HalfLinkedIsLinked(all, n, p, at);
      WithIsWellFormed(all, n, p);
      EntriesWith(all, n, p);
      WithAt(all, n, p, 0);
      assert EntriesOf(all) == s;
      all := With(all, p, n);
      LessIrreflexive(n.key);
    }

    method LinkLevels(n: Node, prev: seq<Node>, ghost p: nat, ghost at: seq<nat>)
      requires WellFormed(all) && Linked(all) && n !in all && 1 <= n.height <= MAX_HEIGHT
      requires n.next == seq(n.height, _ => null)
      requires 1 <= p <= |all| && Predecessors(all, at, p)
      requires |prev| == MAX_HEIGHT && forall l :: 0 <= l < MAX_HEIGHT ==> prev[l] == all[at[l]]
      modifies (set k | k in all)`next, n`next
      ensures p <= |all| && HalfLinked(all, n, p, at, n.height)
    {
      hide NextAt, Less, IsPredecessor, Predecessors, HalfLinks, Links, NodeAt;
      var i := 0;
      HalfLinkedStart(all, n, p, at);
      while i < n.height
        invariant 0 <= i <= n.height
        invariant HalfLinked(all, n, p, at, i)
      {
        PredecessorReaches(all, p, at, i);
        LinkLevel(n, prev[i], p, at, i);
        i := i + 1;
      }
    }

    /** One level of the linking loop. */
    method LinkLevel(n: Node, before: Node, ghost p: nat, ghost at: seq<nat>, i: nat)
      requires WellFormed(all) && n !in all && i < n.height
      requires p <= |all| && Predecessors(all, at, p) && HalfLinked(all, n, p, at, i)
      requires i < MAX_HEIGHT && |at| == MAX_HEIGHT && at[i] < |all| && before == all[at[i]]
      modifies n`next, before`next
      ensures HalfLinked(all, n, p, at, i + 1)
    {
      hide NextAt, Less, WellFormed, Row, NodeAt;
      ghost var q := at[i];
      NextOfPredecessor(all, n, p, at, i);
      ghost var was := Links(all);
      HalfLinkedStep(all, n, p, at, i, was, n.next);
      n.next := n.next[i := before.next[i]];
      before.next := before.next[i := n];
      OthersUntouched(all, q);
      assert Links(all) == was[q := was[q][i := n]];
    }
  }

  lemma HalfLinkedStart(all: seq<Node>, n: Node, p: nat, at: seq<nat>)
    requires WellFormed(all) && Linked(all) && n.height <= MAX_HEIGHT && n.next == seq(n.height, _ => null)
    requires p <= |all| && Predecessors(all, at, p)
    ensures HalfLinked(all, n, p, at, 0)
  {
    hide NextAt, NodeAt, IsPredecessor, Less;
    forall k | 0 <= k < |all|
      ensures Links(all)[k] == Row(all, n, at, 0, k)
    {
      assert Links(all)[k] == all[k].next;
    }
    assert n.next == NewRow(all, n, p, 0);
  }

  lemma PredecessorReaches(all: seq<Node>, p: nat, at: seq<nat>, i: nat)
    requires WellFormed(all) && p <= |all| && Predecessors(all, at, p) && i < MAX_HEIGHT
    ensures |at| == MAX_HEIGHT && at[i] < |all| && all[at[i]].height <= MAX_HEIGHT
  {
    hide NextAt, Less;
    assert IsPredecessor(all, at[i], p, i);
  }

  lemma NextOfPredecessor(all: seq<Node>, n: Node, p: nat, at: seq<nat>, i: nat)
    requires p <= |all| && Predecessors(all, at, p) && HalfLinked(all, n, p, at, i)
    requires i < n.height && i < MAX_HEIGHT && at[i] < |all| && all[at[i]].height <= MAX_HEIGHT
    ensures i < |all[at[i]].next| && all[at[i]].next[i] == NodeAt(all, NextAt(all, p, i))
  {
    hide NextAt, NodeAt, HalfLinked;
    HalfLinkedNode(all, n, p, at, i, at[i], i);
    NextAcross(all, p, at, i);
  }

  lemma NextAcross(all: seq<Node>, p: nat, at: seq<nat>, i: nat)
    requires p <= |all| && Predecessors(all, at, p) && i < MAX_HEIGHT && at[i] < |all|
    ensures NextAt(all, p, i) == NextAt(all, at[i] + 1, i) && i < all[at[i]].height
  {
    hide NextAt;
    assert IsPredecessor(all, at[i], p, i);
    NextAtUnique(all, p, i, NextAt(all, at[i] + 1, i));
  }

  lemma OthersUntouched(all: seq<Node>, q: nat)
    requires WellFormed(all) && q < |all|
    ensures forall k :: 0 <= k < |all| && k != q ==> all[k] != all[q]
  {
    hide Less;
  }

  /** Two writes link one more level. */
  lemma HalfLinkedStep(all: seq<Node>, n: Node, p: nat, at: seq<nat>, i: nat, was: seq<seq<Node?>>, wasNew: seq<Node?>)
    requires p <= |all| && Predecessors(all, at, p) && i < n.height && i < MAX_HEIGHT
    requires HalfLinks(all, n, p, at, i, was, wasNew) && at[i] < |all| && i < |was[at[i]]|
    ensures HalfLinks(all, n, p, at, i + 1, was[at[i] := was[at[i]][i := n]], wasNew[i := NodeAt(all, NextAt(all, p, i))])
  {
    hide NextAt, NodeAt, IsPredecessor;
    var q := at[i];
    var now := was[q := was[q][i := n]];
    forall k | 0 <= k < |all|
      ensures now[k] == Row(all, n, at, i + 1, k)
    {
      assert was[k] == Row(all, n, at, i, k);
      if k == q {
        assert now[k] == Row(all, n, at, i, k)[i := n];
      } else {
        assert Row(all, n, at, i, k) == Row(all, n, at, i + 1, k);
      }
    }
    assert NewRow(all, n, p, i)[i := NodeAt(all, NextAt(all, p, i))] == NewRow(all, n, p, i + 1);
  }

  lemma WithIsWellFormed(all: seq<Node>, n: Node, p: nat)
    requires WellFormed(all) && n !in all && 1 <= n.height <= MAX_HEIGHT && 1 <= p <= |all|
    requires forall k :: 1 <= k < p ==> Less(all[k].key, n.key)
    requires forall k :: p <= k < |all| ==> Less(n.key, all[k].key)
    ensures WellFormed(With(all, p, n))
  {
    hide Less;
  }

  /** The pointers when the lowest `done` levels of `n` are linked. */
  ghost predicate HalfLinked(all: seq<Node>, n: Node, p: nat, at: seq<nat>, done: nat)
    requires p <= |all| && Predecessors(all, at, p)
    reads all, n
  {
    HalfLinks(all, n, p, at, done, Links(all), n.next)
  }

  lemma HalfLinkedNode(all: seq<Node>, n: Node, p: nat, at: seq<nat>, done: nat, k: nat, l: nat)
    requires p <= |all| && Predecessors(all, at, p) && HalfLinked(all, n, p, at, done)
    requires k < |all| && l < all[k].height <= MAX_HEIGHT
    ensures l < |all[k].next| == all[k].height && all[k].next[l] == Target(all, n, at, done, k, l)
  {
    hide NextAt, NodeAt, IsPredecessor;
    assert Links(all)[k] == all[k].next == Row(all, n, at, done, k);
  }

  ghost function Links(all: seq<Node>): seq<seq<Node?>>
    reads all
  {
    seq(|all|, i requires 0 <= i < |all| reads all => all[i].next)
  }

  /** What node `k` points to at level `l`. */
  ghost function Target(all: seq<Node>, n: Node, at: seq<nat>, done: nat, k: nat, l: nat): Node?
    requires |at| == MAX_HEIGHT && k < |all| && l < MAX_HEIGHT
  {
    if l < done && k == at[l] then n else NodeAt(all, NextAt(all, k + 1, l))
  }

  ghost function Row(all: seq<Node>, n: Node, at: seq<nat>, done: nat, k: nat): (r: seq<Node?>)
    requires |at| == MAX_HEIGHT && k < |all| && all[k].height <= MAX_HEIGHT
    ensures |r| == all[k].height
  {
    seq(all[k].height, l requires 0 <= l < all[k].height => Target(all, n, at, done, k, l))
  }

  ghost function NewRow(all: seq<Node>, n: Node, p: nat, done: nat): (r: seq<Node?>)
    requires p <= |all|
    ensures |r| == n.height
  {
    seq(n.height, l requires 0 <= l < n.height => if l < done then NodeAt(all, NextAt(all, p, l)) else null)
  }

  ghost predicate HalfLinks(all: seq<Node>, n: Node, p: nat, at: seq<nat>, done: nat,
                            links: seq<seq<Node?>>, ofNew: seq<Node?>)
    requires p <= |all| && Predecessors(all, at, p)
  {
    && n.height <= MAX_HEIGHT
    && ofNew == NewRow(all, n, p, done)
    && |links| == |all|
    && (forall k :: 0 <= k < |all| ==> all[k].height <= MAX_HEIGHT && links[k] == Row(all, n, at, done, k))
  }

  lemma WithAt(all: seq<Node>, n: Node, p: nat, i: nat)
    requires p <= |all|
    ensures |With(all, p, n)| == |all| + 1
    ensures i <= |all| ==> With(all, p, n)[i] == if i < p then all[i] else if i == p then n else all[i - 1]
    ensures forall k :: k in With(all, p, n) ==> k in all || k == n
    ensures NodeAt(With(all, p, n), i) == if i < p then NodeAt(all, i) else if i == p then n else NodeAt(all, i - 1)
  {}

  /** With every level linked, the list with `n` in it is linked. */
  lemma HalfLinkedIsLinked(all: seq<Node>, n: Node, p: nat, at: seq<nat>)
    requires WellFormed(all) && n !in all && 1 <= n.height <= MAX_HEIGHT
    requires 1 <= p <= |all| && Predecessors(all, at, p) && HalfLinked(all, n, p, at, n.height)
    ensures Linked(With(all, p, n))
  {
    hide NextAt, Less, With, NodeAt;
    var b := With(all, p, n);
    WithAt(all, n, p, 0);
    forall i | 0 <= i < |b|
      ensures |b[i].next| == b[i].height
      ensures forall l :: 0 <= l < b[i].height ==> b[i].next[l] == NodeAt(b, NextAt(b, i + 1, l))
    {
      WithAt(all, n, p, i);
      forall l | 0 <= l < b[i].height
        ensures b[i].next[l] == NodeAt(b, NextAt(b, i + 1, l))
      {
        HalfLinkedAt(all, n, p, at, i, l);
      }
    }
  }

  lemma HalfLinkedAt(all: seq<Node>, n: Node, p: nat, at: seq<nat>, i: nat, l: nat)
    requires WellFormed(all) && n !in all && 1 <= n.height <= MAX_HEIGHT
    requires 1 <= p <= |all| && Predecessors(all, at, p) && HalfLinked(all, n, p, at, n.height)
    requires i < |With(all, p, n)| && l < With(all, p, n)[i].height && l < MAX_HEIGHT
    ensures l < |With(all, p, n)[i].next|
    ensures With(all, p, n)[i].next[l] == NodeAt(With(all, p, n), NextAt(With(all, p, n), i + 1, l))
  {
    hide NextAt, With, NodeAt, HalfLinked, Predecessors, Less;
    WithAt(all, n, p, i);
    if i < p {
      HalfLinkedNode(all, n, p, at, n.height, i, l);
      LinkBefore(all, n, p, at, i, l);
    } else if i == p {
      LinkNew(all, n, p, at, l);
    } else {
      HalfLinkedNode(all, n, p, at, n.height, i - 1, l);
      LinkAfter(all, n, p, at, i - 1, l);
    }
  }

  lemma LinkNew(all: seq<Node>, n: Node, p: nat, at: seq<nat>, l: nat)
    requires p <= |all| && Predecessors(all, at, p) && HalfLinked(all, n, p, at, n.height) && l < n.height
    ensures l < |n.next| && n.next[l] == NodeAt(With(all, p, n), NextAt(With(all, p, n), p + 1, l))
  {
    hide NextAt, With, NodeAt, Predecessors;
    NextAtWith(all, p, n, p, l);
    WithAt(all, n, p, NextAt(all, p, l) + 1);
  }

  lemma LinkAfter(all: seq<Node>, n: Node, p: nat, at: seq<nat>, k: nat, l: nat)
    requires p <= k < |all| && Predecessors(all, at, p) && l < MAX_HEIGHT
    ensures k != at[l]
    ensures NodeAt(With(all, p, n), NextAt(With(all, p, n), k + 2, l)) == NodeAt(all, NextAt(all, k + 1, l))
  {
    hide NextAt, With, NodeAt;
    assert IsPredecessor(all, at[l], p, l);
    NextAtWith(all, p, n, k + 1, l);
    WithAt(all, n, p, NextAt(all, k + 1, l) + 1);
  }

  lemma LinkBefore(all: seq<Node>, n: Node, p: nat, at: seq<nat>, i: nat, l: nat)
    requires WellFormed(all)
    requires i < p <= |all| && Predecessors(all, at, p) && l < all[i].height
    ensures NodeAt(With(all, p, n), NextAt(With(all, p, n), i + 1, l))
            == if l < n.height && i == at[l] then n else NodeAt(all, NextAt(all, i + 1, l))
  {
    hide NextAt, With, NodeAt, WellFormed, Predecessors;
    NextAtWith(all, p, n, i + 1, l);
    var j := NextAt(all, i + 1, l);
    PredecessorIsLast(all, p, at, i, l);
    if j < p {
      WithAt(all, n, p, j);
    } else if l < n.height {
      WithAt(all, n, p, p);
    } else {
      WithAt(all, n, p, j + 1);
    }
  }

  lemma PredecessorIsLast(all: seq<Node>, p: nat, at: seq<nat>, i: nat, l: nat)
    requires WellFormed(all)
    requires i < p <= |all| && Predecessors(all, at, p) && l < all[i].height
    ensures i == at[l] <==> p <= NextAt(all, i + 1, l)
  {
    hide NextAt, Less;
    assert IsPredecessor(all, at[l], p, l);
  }
}
