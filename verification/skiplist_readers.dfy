/** Lock-free searches beside one inserting thread (src/skiplist.cc): every pointer read of a search
    and every pointer write of an insertion is one atomic step, in sequentially consistent order. */
module SkipListReaders {
  import opened Slices
  import opened Coding

  const MAX_HEIGHT: nat := 12

  /** A node: the head, or the node of a key. Keys are never inserted twice, so a key names its node. */
  datatype Place = Head | Of(key: Bytes)

  datatype Writer =
    | Idle
    | Linking(key: Bytes, height: nat, prev: seq<Place>, level: nat, copied: bool)

  /** A search at `x` on `level`; once `finished`, `result` is the node it returned. `before` and `atEnd` are
      history: the keys linked when the search began and when it made its last read. */
  datatype Reader = Reader(target: Bytes, x: Place, level: nat, finished: bool, result: Option<Bytes>,
                           before: set<Bytes>, atEnd: set<Bytes>)

  /** `linked[k]` counts the levels, from the bottom, on which the node of `k` can be reached. */
  datatype State = State(linked: map<Bytes, nat>, next: map<Place, seq<Option<Bytes>>>, writer: Writer,
                         readers: map<nat, Reader>)

  datatype Action =
    | StartInsert(key: Bytes, height: nat, prev: seq<Place>)
    | CopyNext
    | Publish
    | StartSearch(id: nat, target: Bytes)
    | Read(id: nat)

  predicate Before(x: Place, k: Bytes)
  {
    x.Head? || Less(x.key, k)
  }

  /** The keys reachable at the bottom level: what the list holds. */
  function Keys(s: State): set<Bytes>
  {
    set k | k in s.linked && s.linked[k] > 0
  }

  predicate On(s: State, k: Bytes, level: nat)
  {
    k in s.linked && s.linked[k] > level
  }

  predicate Stands(s: State, x: Place, level: nat)
  {
    level < MAX_HEIGHT && (x.Head? || On(s, x.key, level))
  }

  /** `r` is the next node after `x` on `level`. */
  ghost predicate IsNext(s: State, level: nat, x: Place, r: Option<Bytes>)
  {
    match r
    case None => forall k :: On(s, k, level) ==> !Before(x, k)
    case Some(n) => On(s, n, level) && Before(x, n) && forall k :: On(s, k, level) && Before(x, k) ==> !Less(k, n)
  }

  /** `x` is the last node before `k` on `level`: what the writer's own search records in `prev`. */
  ghost predicate IsPrev(s: State, level: nat, x: Place, k: Bytes)
  {
    Stands(s, x, level) && Before(x, k) && forall j :: On(s, j, level) && Before(x, j) ==> !Less(j, k)
  }

  ghost predicate IsLeastFrom(keys: set<Bytes>, target: Bytes, r: Option<Bytes>)
  {
    match r
    case None => forall k :: k in keys ==> Less(k, target)
    case Some(n) => n in keys && !Less(n, target) && forall k :: k in keys && Less(k, n) ==> Less(k, target)
  }

  ghost predicate Init(s: State)
  {
    s == State(map[], map[Head := seq(MAX_HEIGHT, _ => None)], Idle, map[])
  }

  ghost predicate Enabled(s: State, a: Action)
  {
    match a
    case StartInsert(key, height, prev) =>
      s.writer.Idle? && key !in s.linked && 1 <= height <= MAX_HEIGHT
      && |prev| == MAX_HEIGHT && forall l :: 0 <= l < MAX_HEIGHT ==> IsPrev(s, l, prev[l], key)
    case CopyNext => s.writer.Linking? && !s.writer.copied
    case Publish => s.writer.Linking? && s.writer.copied
    case StartSearch(id, target) => id !in s.readers
    case Read(id) => id in s.readers && !s.readers[id].finished
  }

  /** Reads the pointer `x->next[level]`. */
  function Load(s: State, x: Place, level: nat): Option<Bytes>
  {
    if x in s.next && level < |s.next[x]| then s.next[x][level] else None
  }

  function Store(s: State, x: Place, level: nat, r: Option<Bytes>): State
  {
    if x in s.next && level < |s.next[x]| then s.(next := s.next[x := s.next[x][level := r]]) else s
  }

  /** One iteration of the search loop. */
  function ReadOnce(s: State, r: Reader): Reader
  {
    var next := Load(s, r.x, r.level);
    if next.Some? && Less(next.value, r.target) then r.(x := Of(next.value))
    else if r.level == 0 then r.(finished := true, result := next, atEnd := Keys(s))
    else r.(level := r.level - 1)
  }

  function Apply(s: State, a: Action): State
  {
    match a
    case StartInsert(key, height, prev) =>
      s.(linked := s.linked[key := 0], next := s.next[Of(key) := seq(height, _ => None)],
         writer := Linking(key, height, prev, 0, false))
    case CopyNext =>
      if !s.writer.Linking? || s.writer.level >= |s.writer.prev| then s else
      var w := s.writer;
      Store(s, Of(w.key), w.level, Load(s, w.prev[w.level], w.level)).(writer := w.(copied := true))
    case Publish =>
      if !s.writer.Linking? || s.writer.level >= |s.writer.prev| then s else
      var w := s.writer;
      Store(s, w.prev[w.level], w.level, Some(w.key))
        .(linked := s.linked[w.key := w.level + 1],
          writer := if w.level + 1 == w.height then Idle else w.(level := w.level + 1, copied := false))
    case StartSearch(id, target) =>
      s.(readers := s.readers[id := Reader(target, Head, MAX_HEIGHT - 1, false, None, Keys(s), {})])
    case Read(id) =>
      if id !in s.readers then s else s.(readers := s.readers[id := ReadOnce(s, s.readers[id])])
  }

  // ---- The invariant ----

  ghost predicate ListInv(s: State)
  {
    && Head in s.next && |s.next[Head]| == MAX_HEIGHT
    && (forall k :: k in s.linked ==> Of(k) in s.next && s.linked[k] <= |s.next[Of(k)]| <= MAX_HEIGHT)
    && (forall x, l :: Stands(s, x, l) ==> IsNext(s, l, x, Load(s, x, l)))
  }

  ghost predicate WriterInv(s: State)
  {
    var w := s.writer;
    w.Linking? ==>
      && w.level < w.height <= MAX_HEIGHT && |w.prev| == MAX_HEIGHT
      && w.key in s.linked && s.linked[w.key] == w.level && Of(w.key) in s.next && |s.next[Of(w.key)]| == w.height
      && (forall l :: w.level <= l < w.height ==> IsPrev(s, l, w.prev[l], w.key))
      && (w.copied ==> Load(s, Of(w.key), w.level) == Load(s, w.prev[w.level], w.level))
  }

  ghost predicate ReaderInv(s: State, r: Reader)
  {
    && r.before <= Keys(s)
    && (!r.finished ==> Stands(s, r.x, r.level) && Before(r.x, r.target))
    && (r.finished ==> r.before <= r.atEnd <= Keys(s) && IsLeastFrom(r.atEnd, r.target, r.result))
  }

  ghost predicate Inv(s: State)
  {
    ListInv(s) && WriterInv(s) && forall id :: id in s.readers ==> ReaderInv(s, s.readers[id])
  }

  lemma InitInv(s: State)
    requires Init(s)
    ensures Inv(s)
  {}

  /** Steps that leave the reachable part of every level alone keep the list invariant. */
  lemma ListUntouched(s: State, t: State)
    requires ListInv(s) && Head in t.next && |t.next[Head]| == MAX_HEIGHT
    requires forall k, l :: On(t, k, l) <==> On(s, k, l)
    requires forall x, l :: Stands(s, x, l) ==> Load(t, x, l) == Load(s, x, l)
    requires forall k :: k in t.linked ==> Of(k) in t.next && t.linked[k] <= |t.next[Of(k)]| <= MAX_HEIGHT
    ensures ListInv(t) && Keys(t) == Keys(s)
  {
    hide Less, Load;
    forall x, l | Stands(t, x, l)
      ensures IsNext(t, l, x, Load(t, x, l))
    {
      assert Stands(s, x, l);
      assert IsNext(s, l, x, Load(s, x, l));
    }
    forall k ensures k in Keys(t) <==> k in Keys(s) {
      assert On(t, k, 0) <==> On(s, k, 0);
    }
  }

  lemma IsPrevSame(s: State, t: State, level: nat, x: Place, k: Bytes)
    requires forall j :: On(t, j, level) <==> On(s, j, level)
    requires IsPrev(s, level, x, k)
    ensures IsPrev(t, level, x, k)
  {}

  lemma StartInsertKeepsInv(s: State, key: Bytes, height: nat, prev: seq<Place>)
    requires Inv(s) && Enabled(s, StartInsert(key, height, prev))
    ensures Inv(Apply(s, StartInsert(key, height, prev)))
  {
    hide Less, IsPrev, IsLeastFrom;
    var t := Apply(s, StartInsert(key, height, prev));
    ListUntouched(s, t);
    forall l | 0 <= l < height ensures IsPrev(t, l, prev[l], key) { IsPrevSame(s, t, l, prev[l], key); }
  }

  lemma CopyNextKeepsInv(s: State)
    requires Inv(s) && Enabled(s, CopyNext)
    ensures Inv(Apply(s, CopyNext))
  {
    hide Less, IsPrev, IsLeastFrom;
    var t := Apply(s, CopyNext);
    var w := s.writer;
    PrevElsewhere(s);
    ListUntouched(s, t);
    forall l | w.level <= l < w.height ensures IsPrev(t, l, w.prev[l], w.key) { IsPrevSame(s, t, l, w.prev[l], w.key); }
  }

  /** The node being linked is not its own predecessor. */
  lemma PrevElsewhere(s: State)
    requires WriterInv(s) && s.writer.Linking?
    ensures s.writer.prev[s.writer.level] != Of(s.writer.key)
    ensures Stands(s, s.writer.prev[s.writer.level], s.writer.level)
  {
    LessIrreflexive(s.writer.key);
    assert IsPrev(s, s.writer.level, s.writer.prev[s.writer.level], s.writer.key);
  }

  /** Publishing makes the key reachable on one more level and on no other. */
  lemma PublishMembers(s: State, k: Bytes, l: nat)
    requires Inv(s) && Enabled(s, Publish)
    ensures On(Apply(s, Publish), k, l) <==> On(s, k, l) || (k == s.writer.key && l == s.writer.level)
  {}

  lemma PublishLoads(s: State, x: Place, l: nat)
    requires Inv(s) && Enabled(s, Publish) && Stands(s, x, l)
    ensures Load(Apply(s, Publish), x, l)
            == if x == s.writer.prev[s.writer.level] && l == s.writer.level then Some(s.writer.key) else Load(s, x, l)
  {
    hide Less, IsPrev, IsNext;
    PrevElsewhere(s);
  }

  lemma PublishLinks(s: State, x: Place, l: nat)
    requires Inv(s) && Enabled(s, Publish) && Stands(Apply(s, Publish), x, l)
    ensures IsNext(Apply(s, Publish), l, x, Load(Apply(s, Publish), x, l))
  {
    hide Less, Apply, Load, ReaderInv;
    LessIsStrictTotalOrder();
    var t, w := Apply(s, Publish), s.writer;
    var p := w.prev[w.level];
    PrevElsewhere(s);
    forall k ensures On(t, k, l) <==> On(s, k, l) || (k == w.key && l == w.level) { PublishMembers(s, k, l); }
    assert IsPrev(s, w.level, p, w.key);
    if Stands(s, x, l) {
      PublishLoads(s, x, l);
      assert IsNext(s, l, x, Load(s, x, l));
    } else {
      PublishedLoad(s);
      assert IsNext(s, l, p, Load(s, p, l));
    }
  }

  lemma PublishedLoad(s: State)
    requires Inv(s) && Enabled(s, Publish)
    ensures Load(Apply(s, Publish), Of(s.writer.key), s.writer.level) == Load(s, s.writer.prev[s.writer.level], s.writer.level)
  {
    hide Less, IsPrev, IsNext;
    PrevElsewhere(s);
  }

  lemma PublishKeepsList(s: State)
    requires Inv(s) && Enabled(s, Publish)
    ensures ListInv(Apply(s, Publish)) && Keys(s) <= Keys(Apply(s, Publish))
    ensures forall x, l :: Stands(s, x, l) ==> Stands(Apply(s, Publish), x, l)
  {
    hide Less, IsNext, IsPrev;
    PrevElsewhere(s);
    var t := Apply(s, Publish);
    forall x, l | Stands(t, x, l)
      ensures IsNext(t, l, x, Load(t, x, l))
    {
      PublishLinks(s, x, l);
    }
  }

  lemma PublishKeepsInv(s: State)
    requires Inv(s) && Enabled(s, Publish)
    ensures Inv(Apply(s, Publish))
  {
    hide Less, IsNext, IsPrev, IsLeastFrom, Load;
    PublishKeepsList(s);
    PrevElsewhere(s);
    var t, w := Apply(s, Publish), s.writer;
    if t.writer.Linking? {
      forall l | t.writer.level <= l < w.height
        ensures IsPrev(t, l, w.prev[l], w.key)
      {
        forall j ensures On(t, j, l) <==> On(s, j, l) { PublishMembers(s, j, l); }
        IsPrevSame(s, t, l, w.prev[l], w.key);
      }
    }
  }

  lemma ReadKeepsInv(s: State, id: nat)
    requires Inv(s) && Enabled(s, Read(id))
    ensures Inv(Apply(s, Read(id)))
  {
    hide Less;
    var r := s.readers[id];
    ReadOnceFinds(s, r);
    var t := Apply(s, Read(id));
    assert forall x, l :: Load(t, x, l) == Load(s, x, l);
    ListUntouched(s, t);
    SameWriter(s, t);
  }

  lemma SameWriter(s: State, t: State)
    requires WriterInv(s) && t.writer == s.writer && t.linked == s.linked && t.next == s.next
    ensures WriterInv(t)
  {
    hide Less;
    var w := s.writer;
    if w.Linking? {
      forall l | w.level <= l < w.height ensures IsPrev(t, l, w.prev[l], w.key) { IsPrevSame(s, t, l, w.prev[l], w.key); }
    }
  }

  /** The heart: a search that stands before its target moves to a node before the target, descends,
      or stops at the least key of that moment that is not less than the target. */
  lemma ReadOnceFinds(s: State, r: Reader)
    requires ListInv(s) && ReaderInv(s, r) && !r.finished
    ensures ReaderInv(s, ReadOnce(s, r))
  {
    hide Less, Load;
    LessIsStrictTotalOrder();
    var next := Load(s, r.x, r.level);
    assert IsNext(s, r.level, r.x, next);
    if next.Some? && Less(next.value, r.target) {
    } else if r.level == 0 {
      forall k | k in Keys(s)
        ensures next.None? ==> Less(k, r.target)
        ensures next.Some? && Less(k, next.value) ==> Less(k, r.target)
      {
        assert On(s, k, 0);
      }
    }
  }

  lemma StepKeepsInv(s: State, a: Action)
    requires Inv(s) && Enabled(s, a)
    ensures Inv(Apply(s, a))
    ensures Keys(s) <= Keys(Apply(s, a))
  {
    match a
    case StartInsert(key, height, prev) => StartInsertKeepsInv(s, key, height, prev);
    case CopyNext => CopyNextKeepsInv(s);
    case Publish => PublishKeepsInv(s); PublishKeepsList(s);
    case StartSearch(id, target) =>
      var t := Apply(s, a);
      ListUntouched(s, t);
      SameWriter(s, t);
    case Read(id) => ReadKeepsInv(s, id);
  }

  // ---- Whole runs ----

  ghost predicate Run(trace: seq<State>, actions: seq<Action>)
  {
    && |trace| == |actions| + 1 && Init(trace[0])
    && forall i :: 0 <= i < |actions| ==> Enabled(trace[i], actions[i]) && trace[i + 1] == Apply(trace[i], actions[i])
  }

  lemma {:induction false} RunKeepsInv(trace: seq<State>, actions: seq<Action>, i: nat)
    requires Run(trace, actions) && i < |trace|
    ensures Inv(trace[i])
  {
    if i == 0 { InitInv(trace[0]); }
    else {
      RunKeepsInv(trace, actions, i - 1);
      StepKeepsInv(trace[i - 1], actions[i - 1]);
    }
  }

  /** In every run, a finished search holds the least key that was not less than its target when it made
      its last read, and so never misses a key that was present when it began. */
  lemma SearchIsExact(trace: seq<State>, actions: seq<Action>, i: nat, id: nat)
    requires Run(trace, actions) && i < |trace| && id in trace[i].readers && trace[i].readers[id].finished
    ensures var r := trace[i].readers[id];
            && IsLeastFrom(r.atEnd, r.target, r.result)
            && r.before <= r.atEnd <= Keys(trace[i])
            && (r.target in r.before ==> r.result == Some(r.target))
  {
    RunKeepsInv(trace, actions, i);
    LessIsStrictTotalOrder();
    assert ReaderInv(trace[i], trace[i].readers[id]);
  }

  /** The history fields mean what they say: `before` is what the list held when the search began, `atEnd` what
      it held at the read that finished the search. */
  lemma HistoryIsHonest(s: State, a: Action, id: nat)
    requires Inv(s) && Enabled(s, a) && id in Apply(s, a).readers
    ensures id !in s.readers ==> Apply(s, a).readers[id].before == Keys(s)
    ensures id in s.readers ==> Apply(s, a).readers[id].before == s.readers[id].before
                                && Apply(s, a).readers[id].target == s.readers[id].target
    ensures Apply(s, a).readers[id].finished && !(id in s.readers && s.readers[id].finished)
            ==> a == Read(id) && Apply(s, a).readers[id].atEnd == Keys(s)
  {}
}
