/** The one condition variable of the database and everyone who waits on it (MakeRoomForWrite, BackgroundWork,
    BackgroundFlush, BackgroundCompaction, MaybeScheduleBackgroundWork and CompactRange in src/db.cc). */
module Wakeups {

  /** Where the background thread is. `Asleep` waits un-notified; `Notified` has been woken but not run yet. */
  datatype Background = Deciding | Asleep | Notified | ToFlush | Flushing | ToCompact | Compacting

  /** A Put or Delete that found its memory table full. */
  datatype Writer = Checking | Sleeping | Woken | Through

  /** A CompactRange. */
  datatype Ranger = RangeChecking | RangeSleeping | RangeWoken | RangeFlushing | RangeFlushed

  datatype State = State(
    imm: bool, flushing: bool, pending: bool,
    level0: nat, trigger: nat,
    background: Background, writers: seq<Writer>, rangers: seq<Ranger>)

  predicate NeedsCompaction(s: State)
  {
    s.level0 >= s.trigger
  }

  // ---- Notifying ----

  function WakeAll(s: State): State
  {
    s.(background := if s.background.Asleep? then Notified else s.background,
       writers := seq(|s.writers|, i requires 0 <= i < |s.writers| => if s.writers[i].Sleeping? then Woken else s.writers[i]),
       rangers := seq(|s.rangers|, i requires 0 <= i < |s.rangers| => if s.rangers[i].RangeSleeping? then RangeWoken else s.rangers[i]))
  }

  /** Who notify_one wakes is not for the caller to choose. */
  datatype Chosen = ChooseBackground | ChooseWriter(i: nat) | ChooseRanger(j: nat) | ChooseNobody

  predicate SomebodySleeps(s: State)
  {
    || s.background.Asleep?
    || (exists i :: 0 <= i < |s.writers| && s.writers[i].Sleeping?)
    || exists j :: 0 <= j < |s.rangers| && s.rangers[j].RangeSleeping?
  }

  /** It is some sleeper, and nobody only when nobody sleeps. */
  predicate MayWake(s: State, c: Chosen)
  {
    match c
    case ChooseBackground => s.background.Asleep?
    case ChooseWriter(i) => i < |s.writers| && s.writers[i].Sleeping?
    case ChooseRanger(j) => j < |s.rangers| && s.rangers[j].RangeSleeping?
    case ChooseNobody => !SomebodySleeps(s)
  }

  function WakeOne(s: State, c: Chosen): State
    requires MayWake(s, c)
  {
    match c
    case ChooseBackground => s.(background := Notified)
    case ChooseWriter(i) => s.(writers := s.writers[i := Woken])
    case ChooseRanger(j) => s.(rangers := s.rangers[j := RangeWoken])
    case ChooseNobody => s
  }

  // ---- Steps ----

  datatype Action =
    | Arrive | ArriveRange
    | WriterLooks(i: nat, wakes: Chosen)
    | BackgroundDecides | BackgroundRuns
    | FlushStarts | FlushEnds | FlushFails
    | CompactionStarts | CompactionEnds(merged: nat) | CompactionFails
    | RangerLooks(j: nat) | RangerFlushes(j: nat, built: bool) | RangerCompacts(merged: nat)

  /** The switch: imm_ is set and the background thread is scheduled unless it already was. */
  function Scheduled(s: State, i: nat): State
    requires i < |s.writers|
  {
    s.(imm := true, pending := true, writers := s.writers[i := Through])
  }

  /** CompactRange drops imm_ even when no table could be built of it. */
  function RangeFlush(s: State, j: nat, built: bool): State
    requires j < |s.rangers|
  {
    s.(level0 := s.level0 + (if built then 1 else 0), imm := false, flushing := false, rangers := s.rangers[j := RangeFlushed])
  }

  /** A thread that sleeps may look again at any time: wake-ups can be spurious. */
  predicate Enabled(s: State, a: Action)
  {
    match a
    case Arrive => true
    case ArriveRange => true
    case WriterLooks(i, wakes) =>
      i < |s.writers| && !s.writers[i].Through? && (!s.imm && !s.pending ==> MayWake(Scheduled(s, i), wakes))
    case BackgroundDecides => s.background.Deciding?
    case BackgroundRuns => s.background.Notified? || s.background.Asleep?
    case FlushStarts => s.background.ToFlush?
    case FlushEnds => s.background.Flushing?
    case FlushFails => s.background.Flushing?
    case CompactionStarts => s.background.ToCompact?
    case CompactionEnds(merged) => s.background.Compacting? && merged <= s.level0
    case CompactionFails => s.background.Compacting?
    case RangerLooks(j) => j < |s.rangers| && (s.rangers[j].RangeChecking? || s.rangers[j].RangeSleeping? || s.rangers[j].RangeWoken?)
    case RangerFlushes(j, _) => j < |s.rangers| && s.rangers[j].RangeFlushing?
    case RangerCompacts(merged) => merged <= s.level0
  }

  function Do(s: State, a: Action): State
    requires Enabled(s, a)
  {
    match a
    case Arrive => s.(writers := s.writers + [Checking])
    case ArriveRange => s.(rangers := s.rangers + [RangeChecking])
    case WriterLooks(i, wakes) =>
      if s.imm then s.(writers := s.writers[i := Sleeping])
      else if s.pending then Scheduled(s, i)
      else WakeOne(Scheduled(s, i), wakes)
    case BackgroundDecides =>
      if !s.imm && !NeedsCompaction(s) then s.(pending := false, background := Asleep)
      else s.(pending := false, background := ToFlush)
    case BackgroundRuns => s.(pending := false, background := ToFlush)
    case FlushStarts =>
      if !s.imm || s.flushing then s.(background := ToCompact) else s.(flushing := true, background := Flushing)
    case FlushEnds => WakeAll(s.(level0 := s.level0 + 1, imm := false, flushing := false, background := ToCompact))
    case FlushFails => WakeAll(s.(flushing := false, background := ToCompact))
    case CompactionStarts => if NeedsCompaction(s) then s.(background := Compacting) else s.(background := Deciding)
    case CompactionEnds(merged) => WakeAll(s.(level0 := s.level0 - merged, background := Deciding))
    case CompactionFails => s.(background := Deciding)
    case RangerLooks(j) =>
      if s.flushing then s.(rangers := s.rangers[j := RangeSleeping])
      else if s.imm then s.(flushing := true, rangers := s.rangers[j := RangeFlushing])
      else s.(rangers := s.rangers[j := RangeFlushed])
    case RangerFlushes(j, built) => WakeAll(RangeFlush(s, j, built))
    case RangerCompacts(merged) => WakeAll(s.(level0 := s.level0 - merged))
  }

  ghost predicate Init(s: State)
  {
    !s.imm && !s.flushing && !s.pending && s.background.Deciding? && s.writers == [] && s.rangers == []
  }

  // ---- No wake-up is lost ----

  /** Who is in the middle of a flush. */
  ghost predicate RangerFlushing(s: State)
  {
    exists j :: 0 <= j < |s.rangers| && s.rangers[j].RangeFlushing?
  }

  ghost predicate OneFlusher(s: State)
  {
    && (s.flushing <==> s.background.Flushing? || RangerFlushing(s))
    && (forall i, j :: 0 <= i < j < |s.rangers| ==> !(s.rangers[i].RangeFlushing? && s.rangers[j].RangeFlushing?))
    && (s.background.Flushing? ==> !RangerFlushing(s))
    && (s.flushing ==> s.imm)
  }

  /** Whoever sleeps un-notified waits for something that has not happened. */
  ghost predicate NobodyForgotten(s: State)
  {
    && (s.background.Asleep? ==> !s.imm && !s.pending && !NeedsCompaction(s))
    && (forall i :: 0 <= i < |s.writers| && s.writers[i].Sleeping? ==> s.imm)
    && (forall j :: 0 <= j < |s.rangers| && s.rangers[j].RangeSleeping? ==> s.flushing)
  }

  ghost predicate Inv(s: State)
  {
    OneFlusher(s) && NobodyForgotten(s)
  }

  lemma InitInv(s: State)
    requires Init(s)
    ensures Inv(s)
  {}

  predicate IsFlushing(s: State, j: nat)
  {
    j < |s.rangers| && s.rangers[j].RangeFlushing?
  }

  /** Who is flushing may differ for ranger `j` only. */
  ghost predicate SameButFor(s: State, t: State, j: nat)
  {
    forall k: nat :: k != j ==> (IsFlushing(s, k) <==> IsFlushing(t, k))
  }

  lemma FlushersUnmoved(s: State, t: State)
    requires OneFlusher(s) && t.flushing == s.flushing && (t.flushing ==> t.imm)
    requires t.background.Flushing? <==> s.background.Flushing?
    requires forall k: nat :: IsFlushing(s, k) <==> IsFlushing(t, k)
    ensures OneFlusher(t)
  {
    assert forall k :: 0 <= k < |s.rangers| ==> (s.rangers[k].RangeFlushing? <==> IsFlushing(s, k));
    assert forall k :: 0 <= k < |t.rangers| ==> (t.rangers[k].RangeFlushing? <==> IsFlushing(t, k));
    if k :| 0 <= k < |s.rangers| && s.rangers[k].RangeFlushing? { assert IsFlushing(t, k); }
  }

  /** Ranger `j` stops flushing. */
  lemma FlusherLeaves(s: State, t: State, j: nat)
    requires OneFlusher(s) && IsFlushing(s, j) && SameButFor(s, t, j) && !IsFlushing(t, j)
    requires !t.flushing && (t.background.Flushing? <==> s.background.Flushing?)
    ensures OneFlusher(t)
  {
    forall k | 0 <= k < |t.rangers| ensures !t.rangers[k].RangeFlushing? {
      if k != j { assert IsFlushing(t, k) <==> IsFlushing(s, k); }
    }
  }

  /** Ranger `j` starts flushing. */
  lemma FlusherJoins(s: State, t: State, j: nat)
    requires OneFlusher(s) && !s.flushing && SameButFor(s, t, j) && IsFlushing(t, j)
    requires t.flushing && t.imm && (t.background.Flushing? <==> s.background.Flushing?)
    ensures OneFlusher(t)
  {
    forall k | 0 <= k < |t.rangers| && k != j ensures !t.rangers[k].RangeFlushing? {
      assert IsFlushing(t, k) ==> IsFlushing(s, k);
    }
  }

  lemma AwakeFlushesSame(s: State)
    ensures forall k: nat :: IsFlushing(WakeAll(s), k) <==> IsFlushing(s, k)
  {}

  lemma OneFlusherStays(s: State, a: Action)
    requires Inv(s) && Enabled(s, a)
    ensures OneFlusher(Do(s, a))
  {
    hide NobodyForgotten, NeedsCompaction, SomebodySleeps, WakeAll, OneFlusher, SameButFor;
    var t := Do(s, a);
    OneFlusherMeans(s);
    match a
    case RangerLooks(j) =>
      if !s.flushing && s.imm {
        assert SameButFor(s, t, j) by { LooksSame(s, t, j); }
        FlusherJoins(s, t, j);
      } else {
        FlushersUnmoved(s, t);
      }
    case RangerFlushes(j, built) =>
      var u := RangeFlush(s, j, built);
      assert SameButFor(s, u, j) by { LooksSame(s, u, j); }
      FlusherLeaves(s, u, j);
      AwakeFlushesSame(u);
      WakeAllKeeps(u);
      FlushersUnmoved(u, t);
    case FlushStarts => if !s.imm || s.flushing { FlushersUnmoved(s, t); } else { BackgroundJoins(s, t); }
    case FlushEnds => BackgroundLeaves(s, s.(level0 := s.level0 + 1, imm := false, flushing := false, background := ToCompact), t);
    case FlushFails => BackgroundLeaves(s, s.(flushing := false, background := ToCompact), t);
    case CompactionEnds(merged) => WakesUnmoved(s, s.(level0 := s.level0 - merged, background := Deciding), t);
    case RangerCompacts(merged) => WakesUnmoved(s, s.(level0 := s.level0 - merged), t);
    case _ => FlushersUnmoved(s, t);
  }

  lemma OneFlusherMeans(s: State)
    requires OneFlusher(s)
    ensures s.flushing ==> s.imm
    ensures s.background.Flushing? ==> s.flushing
    ensures forall k: nat :: IsFlushing(s, k) ==> s.flushing
  {}

  lemma LooksSame(s: State, t: State, j: nat)
    requires j < |s.rangers| == |t.rangers|
    requires forall k :: 0 <= k < |s.rangers| && k != j ==> t.rangers[k] == s.rangers[k]
    ensures SameButFor(s, t, j)
  {}

  lemma WakeAllKeeps(s: State)
    ensures WakeAll(s).flushing == s.flushing && WakeAll(s).imm == s.imm
    ensures WakeAll(s).background.Flushing? <==> s.background.Flushing?
  {}

  lemma WakesUnmoved(s: State, u: State, t: State)
    requires OneFlusher(s) && t == WakeAll(u) && u.flushing == s.flushing && u.imm == s.imm && u.rangers == s.rangers
    requires u.background.Flushing? <==> s.background.Flushing?
    ensures OneFlusher(t)
  {
    hide OneFlusher, WakeAll;
    OneFlusherMeans(s);
    AwakeFlushesSame(u);
    WakeAllKeeps(u);
    FlushersUnmoved(s, t);
  }

  lemma BackgroundJoins(s: State, t: State)
    requires OneFlusher(s) && !s.flushing && t == s.(flushing := true, background := Flushing) && s.imm
    ensures OneFlusher(t)
  {}

  lemma BackgroundLeaves(s: State, u: State, t: State)
    requires OneFlusher(s) && s.background.Flushing? && !u.background.Flushing? && !u.flushing && u.rangers == s.rangers
    requires t == WakeAll(u)
    ensures OneFlusher(t)
  {
    hide WakeAll;
    assert OneFlusher(u);
    AwakeFlushesSame(u);
    WakeAllKeeps(u);
    FlushersUnmoved(u, t);
  }

  /** The notify_one at a rotation can only reach the background thread, and does if that thread is asleep. */
  lemma RotationReachesBackground(s: State, i: nat, wakes: Chosen)
    requires Inv(s) && Enabled(s, WriterLooks(i, wakes)) && !s.imm
    ensures !s.pending ==> wakes == if s.background.Asleep? then ChooseBackground else ChooseNobody
    ensures s.pending ==> !s.background.Asleep?
    ensures !Do(s, WriterLooks(i, wakes)).background.Asleep?
  {
    var t := Scheduled(s, i);
    if !s.pending {
      assert forall k :: 0 <= k < |t.writers| ==> !t.writers[k].Sleeping?;
      assert forall j :: 0 <= j < |t.rangers| ==> !t.rangers[j].RangeSleeping?;
    }
  }

  lemma NobodyForgottenStays(s: State, a: Action)
    requires Inv(s) && Enabled(s, a)
    ensures NobodyForgotten(Do(s, a))
  {
    hide SomebodySleeps, RangerFlushing;
    if a.WriterLooks? && !s.imm { RotationReachesBackground(s, a.i, a.wakes); }
  }

  lemma StepInv(s: State, a: Action)
    requires Inv(s) && Enabled(s, a)
    ensures Inv(Do(s, a))
  {
    hide Do, Enabled, OneFlusher, NobodyForgotten;
    OneFlusherStays(s, a);
    NobodyForgottenStays(s, a);
  }

  ghost predicate Next(s: State, t: State)
  {
    exists a :: Enabled(s, a) && t == Do(s, a)
  }

  ghost predicate IsRun(trace: seq<State>)
  {
    trace != [] && Init(trace[0]) && forall k :: 0 < k < |trace| ==> Next(trace[k - 1], trace[k])
  }

  /** In every state before shutdown: a pending memory table keeps the background thread awake or notified, a
      writer or a CompactRange sleeps un-notified only while what it waits for has not happened, and one thread at
      most is flushing. */
  lemma {:induction false} NoWakeupIsLost(trace: seq<State>, k: nat)
    requires IsRun(trace) && k < |trace|
    ensures Inv(trace[k])
    ensures trace[k].imm ==> !trace[k].background.Asleep?
    ensures NeedsCompaction(trace[k]) ==> !trace[k].background.Asleep?
    ensures !trace[k].imm ==> forall i :: 0 <= i < |trace[k].writers| ==> !trace[k].writers[i].Sleeping?
    ensures !trace[k].flushing ==> forall j :: 0 <= j < |trace[k].rangers| ==> !trace[k].rangers[j].RangeSleeping?
  {
    hide Do, Enabled, OneFlusher;
    if k == 0 {
      InitInv(trace[0]);
    } else {
      NoWakeupIsLost(trace, k - 1);
      assert Next(trace[k - 1], trace[k]);
      var a :| Enabled(trace[k - 1], a) && trace[k] == Do(trace[k - 1], a);
      StepInv(trace[k - 1], a);
    }
  }

  // ---- The background thread gets to the flush ----

  /** Its next step, given how its compaction or flush ends. */
  function OwnStep(s: State, merged: nat): Action
  {
    match s.background
    case Deciding => BackgroundDecides
    case Asleep => BackgroundRuns
    case Notified => BackgroundRuns
    case ToFlush => FlushStarts
    case Flushing => FlushEnds
    case ToCompact => CompactionStarts
    case Compacting => CompactionEnds(if merged <= s.level0 then merged else s.level0)
  }

  /** How many of its own steps it is away from looking at imm_. */
  function StepsToFlush(b: Background): nat
  {
    match b
    case ToFlush => 0
    case Notified => 1
    case Asleep => 1
    case Deciding => 1
    case Compacting => 2
    case ToCompact => 3
    case Flushing => 4
  }

  /** While a memory table is pending each of its steps brings it closer, and then it starts the flush unless
      another thread is already doing it. */
  lemma PendingTableIsFlushed(s: State, merged: nat)
    requires Inv(s) && s.imm
    ensures !s.background.Asleep? && Enabled(s, OwnStep(s, merged))
    ensures var t := Do(s, OwnStep(s, merged));
            if s.background.ToFlush? then t.flushing && (s.flushing || t.background.Flushing?)
            else StepsToFlush(t.background) < StepsToFlush(s.background)
  {
    hide SomebodySleeps;
  }

  /** No step of anybody else takes it further away. */
  lemma OthersDoNotDelay(s: State, a: Action)
    requires Inv(s) && s.imm && Enabled(s, a)
    requires a.Arrive? || a.ArriveRange? || a.WriterLooks? || a.RangerLooks? || a.RangerFlushes? || a.RangerCompacts?
    ensures StepsToFlush(Do(s, a).background) <= StepsToFlush(s.background)
  {
    hide SomebodySleeps;
  }

  // ---- What waiting is for ----

  /** Nobody sleeps un-notified. */
  ghost predicate NobodySleeps(s: State)
  {
    && !s.background.Asleep?
    && (forall i :: 0 <= i < |s.writers| ==> !s.writers[i].Sleeping?)
    && forall j :: 0 <= j < |s.rangers| ==> !s.rangers[j].RangeSleeping?
  }

  /** A flush that ends, the background thread's or a CompactRange's, leaves no memory table pending and everybody who
      waited woken, and one table more in level 0 unless a CompactRange could not build it. */
  lemma FlushEndClears(s: State, a: Action)
    requires Inv(s) && Enabled(s, a) && (a.FlushEnds? || a.RangerFlushes?)
    ensures var t := Do(s, a);
            !t.imm && !t.flushing && t.level0 == s.level0 + (if a.RangerFlushes? && !a.built then 0 else 1) && NobodySleeps(t)
  {
    hide OneFlusher;
    OneFlusherMeans(s);
    if a.RangerFlushes? { assert IsFlushing(s, a.j); }
  }

  /** The background thread's, when it fails, leaves the table pending for the next and wakes everybody as well. */
  lemma FlushFailureKeeps(s: State)
    requires Inv(s) && Enabled(s, FlushFails)
    ensures var t := Do(s, FlushFails);
            t.imm && !t.flushing && t.level0 == s.level0 && NobodySleeps(t)
  {}

  /** A writer that looks gets through exactly when no table is pending, and its own is pending then. */
  lemma WriterGetsThrough(s: State, i: nat, wakes: Chosen)
    requires Enabled(s, WriterLooks(i, wakes))
    ensures var t := Do(s, WriterLooks(i, wakes));
            && (t.writers[i].Through? <==> !s.imm) && t.imm
            && (s.imm ==> t == s.(writers := s.writers[i := Sleeping]))
  {
    hide SomebodySleeps;
  }

  /** A CompactRange goes on to its compaction only when no table is pending. */
  lemma RangerFindsNothingPending(s: State, a: Action, j: nat)
    requires Inv(s) && Enabled(s, a) && (a == RangerLooks(j) || (a.RangerFlushes? && a.j == j))
    ensures var t := Do(s, a);
            t.rangers[j].RangeFlushed? ==> !t.imm && !t.flushing
  {}

  /** Whoever is flushing can end the flush, and then nothing is pending. */
  lemma RunningFlushClears(s: State) returns (a: Action)
    requires Inv(s) && s.flushing
    ensures if s.background.Flushing? then a == FlushEnds else a.RangerFlushes? && a.built
    ensures Enabled(s, a) && !Do(s, a).imm && !Do(s, a).flushing && Do(s, a).level0 == s.level0 + 1
  {
    if s.background.Flushing? {
      a := FlushEnds;
    } else {
      var j :| 0 <= j < |s.rangers| && s.rangers[j].RangeFlushing?;
      a := RangerFlushes(j, true);
    }
    FlushEndClears(s, a);
  }

  // ---- The background thread by itself ----

  /** How many of its own steps it is away from having flushed a pending table. */
  function StepsToClear(b: Background): nat
  {
    match b
    case Flushing => 1
    case ToFlush => 2
    case Notified => 3
    case Asleep => 3
    case Deciding => 3
    case Compacting => 4
    case ToCompact => 5
  }

  /** With nobody else flushing, its next step clears the table or brings that closer. */
  lemma OwnStepClears(s: State, merged: nat)
    requires Inv(s) && s.imm && !RangerFlushing(s)
    ensures Enabled(s, OwnStep(s, merged)) && Inv(Do(s, OwnStep(s, merged)))
    ensures var t := Do(s, OwnStep(s, merged));
            !t.imm || (!RangerFlushing(t) && StepsToClear(t.background) < StepsToClear(s.background))
  {
    hide NobodyForgotten;
    PendingTableIsFlushed(s, merged);
    StepInv(s, OwnStep(s, merged));
  }

  /** The state after `n` of its own steps, the compactions among them merging as many tables as `merged` says. */
  ghost function Alone(s: State, merged: seq<nat>): State
    decreases |merged|
  {
    if merged == [] then s
    else if Enabled(s, OwnStep(s, merged[0])) then Alone(Do(s, OwnStep(s, merged[0])), merged[1..])
    else s
  }

  /** So within five of its own steps a pending table has been flushed. */
  lemma {:induction false} FlushedWithinFive(s: State, merged: seq<nat>) returns (n: nat)
    requires Inv(s) && s.imm && !RangerFlushing(s) && |merged| >= StepsToClear(s.background)
    ensures n <= StepsToClear(s.background) <= 5 && !Alone(s, merged[..n]).imm
    decreases StepsToClear(s.background)
  {
    hide Inv, RangerFlushing, Do, Enabled;
    OwnStepClears(s, merged[0]);
    var t := Do(s, OwnStep(s, merged[0]));
    if !t.imm {
      n := 1;
      assert merged[..1][1..] == [];
      assert Alone(t, []) == t;
    } else {
      var m := FlushedWithinFive(t, merged[1..]);
      n := m + 1;
      assert merged[..n][1..] == merged[1..][..m];
    }
  }

  // ---- A full level 0 ----

  /** How many of its own steps it is away from starting a compaction. */
  function StepsToCompaction(b: Background): nat
  {
    match b
    case Compacting => 0
    case ToCompact => 1
    case Flushing => 2
    case ToFlush => 3
    case Notified => 4
    case Asleep => 4
    case Deciding => 4
  }

  /** While level 0 is full each of its steps brings it closer, until it compacts. */
  lemma FullLevelIsCompacted(s: State, merged: nat)
    requires Inv(s) && NeedsCompaction(s) && !s.background.Compacting?
    ensures !s.background.Asleep? && Enabled(s, OwnStep(s, merged))
    ensures var t := Do(s, OwnStep(s, merged));
            NeedsCompaction(t) && StepsToCompaction(t.background) < StepsToCompaction(s.background)
  {
    hide SomebodySleeps, OneFlusher;
  }

  /** No step of anybody else takes it further away. */
  lemma OthersDoNotDelayCompaction(s: State, a: Action)
    requires Inv(s) && NeedsCompaction(s) && Enabled(s, a)
    requires a.Arrive? || a.ArriveRange? || a.WriterLooks? || a.RangerLooks? || a.RangerFlushes? || a.RangerCompacts?
    ensures StepsToCompaction(Do(s, a).background) <= StepsToCompaction(s.background)
  {
    hide SomebodySleeps;
  }

  /** And a compaction that ends takes what it merged out of level 0; one that fails takes nothing. */
  lemma CompactionLowers(s: State, a: Action)
    requires Enabled(s, a) && (a.CompactionEnds? || a.CompactionFails? || a.RangerCompacts?)
    ensures var t := Do(s, a);
            && t.level0 == s.level0 - (if a.CompactionFails? then 0 else a.merged)
            && t.imm == s.imm && t.flushing == s.flushing && (a.RangerCompacts? || t.background.Deciding?)
  {}
}
