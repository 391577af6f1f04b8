/** The database as a machine whose steps are what happens between two points where the lock is taken, or one
    unlocked step of a reader or of the background work (src/db.cc). */
module Databases {
  import opened Slices
  import opened Coding
  import opened Entries
  import opened InternalKeys
  import opened MemTables
  import opened Levels
  import opened Compactions
  import opened CompactionOutputs
  import opened CompactionResults
  import opened RefCounts
  import Wal

  // ---- Data ----

  /** A memory table is its history of Adds. */
  type History = h: seq<Entry> | |h| <= MAX_SEQUENCE witness []

  /** levels_, which every constructor resizes to four. */
  type LevelFiles = ls: seq<seq<File>> | |ls| == 4 witness [[], [], [], []]

  datatype Manifest = Manifest(levels: seq<seq<nat>>, nextFile: nat, walNumber: nat)

  /** Log files, table files by number, and the manifest once it has been written. */
  datatype Disk = Disk(logs: map<nat, Bytes>, tables: map<nat, Table>, manifest: Option<Manifest>)

  /** A flush: claimed under the lock, reading imm_ through an iterator, or with its table open. */
  datatype Flush = FlushIdle | FlushClaimed(number: nat) | FlushReading(number: nat, source: nat) | FlushBuilt(file: File)

  /** A compaction: inputs chosen under the lock, merging with open iterators, or done merging. */
  datatype Compaction =
    | CompactIdle
    | CompactChosen(l0: seq<File>, l1: seq<File>, indices: seq<nat>)
    | CompactMerging(l0: seq<File>, l1: seq<File>, indices: seq<nat>, readers: seq<File>, todo: seq<Entry>, outs: seq<File>)
    | CompactMerged(l0: seq<File>, l1: seq<File>, indices: seq<nat>, outs: seq<File>)

  /** Where a Get is; `Walking` is an iterator made by NewIterator. */
  datatype Stage = InMem | InImm | InLevel0(left: nat) | InLevel(level: nat) | Returned(result: Option<Bytes>) | Walking

  datatype Client = Client(key: Bytes, memRef: nat, immRef: Option<nat>, snapshot: LevelFiles, stage: Stage,
                           heldMems: seq<nat>, heldFiles: seq<File>)

  datatype State = State(
    mems: seq<History>, memHeap: Heap, fileHeap: Heap,
    mem: nat, imm: Option<nat>, immFlushing: bool,
    levels: LevelFiles, nextFile: nat, walNumber: nat, lastSequence: nat,
    flush: Flush, compaction: Compaction, clients: seq<Client>,
    disk: Disk,
    model: map<Bytes, Bytes>)  // the plain map the store stands for

  /** Pointers point at objects that were made. */
  predicate Wired(s: State)
  {
    && s.mem < |s.mems| && (s.imm.Some? ==> s.imm.value < |s.mems|)
    && forall i :: 0 <= i < |s.clients| ==> ClientWired(s.clients[i], |s.mems|)
  }

  predicate ClientWired(c: Client, mems: nat)
  {
    && c.memRef < mems && (c.immRef.Some? ==> c.immRef.value < mems)
    && (c.stage.InLevel0? ==> c.stage.left <= |c.snapshot[0]|)
  }

  // ---- Reading ----

  function LevelRuns(levels: LevelFiles): (r: seq<seq<Run>>)
    ensures |r| == 4
  {
    [RunsIn(levels[0]), RunsIn(levels[1]), RunsIn(levels[2]), RunsIn(levels[3])]
  }

  function ImmGet(mems: seq<History>, imm: Option<nat>, u: Bytes): Option<Bytes>
    requires imm.Some? ==> imm.value < |mems|
  {
    if imm.Some? then MemGet(mems[imm.value], u) else None
  }

  function TableGet(levels: LevelFiles, u: Bytes): Option<Bytes>
  {
    Orelse(FindNewest(LevelRuns(levels)[0], u), FindFrom(LevelRuns(levels), 1, u))
  }

  /** What a lookup that nothing interrupts would answer. */
  function DbAnswer(s: State, u: Bytes): Option<Bytes>
    requires Wired(s)
  {
    Answer(Orelse(MemGet(s.mems[s.mem], u), Orelse(ImmGet(s.mems, s.imm, u), TableGet(s.levels, u))))
  }

  /** What the plain map answers. */
  function MapAnswer(model: map<Bytes, Bytes>, u: Bytes): Option<Bytes>
  {
    if u in model then Some(model[u]) else None
  }

  function MapPut(model: map<Bytes, Bytes>, k: Bytes, v: Bytes): map<Bytes, Bytes>
  {
    if v == [] then model - {k} else model[k := v]
  }

  // ---- Writing ----

  function LogOf(disk: Disk, n: nat): Bytes
  {
    if n in disk.logs then disk.logs[n] else []
  }

  /** The locked part of Put and Delete: the log first, then the memory table. */
  function Write(s: State, key: Bytes, value: Bytes, kind: byte, t: ValueType): State
    requires Wired(s) && s.lastSequence < MAX_SEQUENCE && |s.mems[s.mem]| < MAX_SEQUENCE
  {
    var seqno := s.lastSequence + 1;
    var r := Wal.Record(kind, MakeInternalKey(key, seqno, t), value);
    s.(lastSequence := seqno,
       disk := s.disk.(logs := s.disk.logs[s.walNumber := LogOf(s.disk, s.walNumber) + Wal.Encode(r)]),
       mems := s.mems[s.mem := s.mems[s.mem] + [Entry(key, value)]],
       model := MapPut(s.model, key, value))
  }

  /** What the caller and the limits of one memory table allow. */
  ghost predicate MayWrite(s: State, key: Bytes, value: Bytes)
    requires Wired(s)
  {
    && s.lastSequence < MAX_SEQUENCE && Faithful(s.mems[s.mem] + [Entry(key, value)])
    && |key| + 8 < Wal.LENGTH_LIMIT && |value| < Wal.LENGTH_LIMIT
  }

  /** The switch in MakeRoomForWrite. */
  function Rotate(s: State): State
  {
    var n := s.walNumber + 1;
    s.(imm := Some(s.mem), mem := |s.mems|, mems := s.mems + [[]], memHeap := New(s.memHeap), walNumber := n,
       disk := s.disk.(logs := s.disk.logs[n := LogOf(s.disk, n)]))
  }

  // ---- Flushing ----

  function BeginFlush(s: State): State
  {
    s.(immFlushing := true, flush := FlushClaimed(s.nextFile), nextFile := s.nextFile + 1)
  }

  /** The memory table's iterator takes a reference. */
  function ReadFlush(s: State): State
    requires s.flush.FlushClaimed? && s.imm.Some?
  {
    s.(flush := FlushReading(s.flush.number, s.imm.value), memHeap := Ref(s.memHeap, s.imm.value))
  }

  function FlushTable(h: History): (t: Table)
  {
    StoredExactly(h);
    FlushEntries(h)
  }

  /** The file is written and opened, the iterator deleted. */
  function BuildFlush(s: State): State
    requires s.flush.FlushReading? && s.flush.source < |s.mems|
  {
    var t := FlushTable(s.mems[s.flush.source]);
    s.(flush := FlushBuilt(File(|s.fileHeap.refs|, s.flush.number, t)),
       fileHeap := New(s.fileHeap), memHeap := Unref(s.memHeap, s.flush.source),
       disk := s.disk.(tables := s.disk.tables[s.flush.number := t]))
  }

  function CommitFlush(s: State): State
    requires s.flush.FlushBuilt? && s.imm.Some?
  {
    Saved(s.(levels := s.levels[0 := s.levels[0] + [s.flush.file]], memHeap := Unref(s.memHeap, s.imm.value),
             imm := None, immFlushing := false, flush := FlushIdle))
  }

  function Numbers(files: seq<File>): (r: seq<nat>)
    ensures |r| == |files|
  {
    seq(|files|, i requires 0 <= i < |files| => files[i].number)
  }

  /** WriteManifest. */
  function Saved(s: State): State
  {
    var ls := s.levels;
    var m := Manifest([Numbers(ls[0]), Numbers(ls[1]), Numbers(ls[2]), Numbers(ls[3])], s.nextFile, s.walNumber);
    s.(disk := s.disk.(manifest := Some(m)))
  }

  // ---- Compacting ----

  function Ids(files: seq<File>): (r: seq<nat>)
    ensures |r| == |files|
  {
    seq(|files|, i requires 0 <= i < |files| => files[i].id)
  }

  /** All of level 0 and the overlapping files of level 1, with a reference each. */
  function BeginCompact(s: State): State
    requires s.levels[0] != []
  {
    var l0, l1 := s.levels[0], s.levels[1];
    var chosen := Flagged(l1, FlagsFor(l0, l1));
    s.(compaction := CompactChosen(l0, chosen, Selected(RunsIn(l1), MinKey(RunsIn(l0)), MaxKey(RunsIn(l0)))),
       fileHeap := RefAll(RefAll(s.fileHeap, Ids(l0)), Ids(chosen)))
  }

  /** The iterators take a reference each, and the merge is set up. */
  function OpenCompact(s: State): State
    requires s.compaction.CompactChosen?
  {
    var c := s.compaction;
    var inputs := c.l0 + c.l1;
    s.(compaction := CompactMerging(c.l0, c.l1, c.indices, inputs, LiveEntries(RunsIn(inputs)), []),
       fileHeap := RefAll(s.fileHeap, Ids(inputs)))
  }

  /** The next `n` entries become a table of their own. */
  function EmitCompact(s: State, n: nat): State
    requires s.compaction.CompactMerging? && n <= |s.compaction.todo| && n <= MAX_SEQUENCE
  {
    var c := s.compaction;
    var t: Table := c.todo[..n];
    s.(compaction := c.(todo := c.todo[n..], outs := c.outs + [File(|s.fileHeap.refs|, s.nextFile, t)]),
       fileHeap := New(s.fileHeap), nextFile := s.nextFile + 1,
       disk := s.disk.(tables := s.disk.tables[s.nextFile := t]))
  }

  function CloseCompact(s: State): State
    requires s.compaction.CompactMerging?
  {
    var c := s.compaction;
    s.(compaction := CompactMerged(c.l0, c.l1, c.indices, c.outs), fileHeap := UnrefAll(s.fileHeap, Ids(c.readers)))
  }

  /** std::find and erase. */
  function RemoveFirst(files: seq<File>, id: nat): seq<File>
  {
    if files == [] then []
    else if files[0].id == id then files[1..]
    else [files[0]] + RemoveFirst(files[1..], id)
  }

  function RemoveEach(files: seq<File>, gone: seq<File>): seq<File>
    decreases |gone|
  {
    if gone == [] then files else RemoveEach(RemoveFirst(files, gone[0].id), gone[1..])
  }

  /** The level 1 files that the saved indices erase, from the largest index down. */
  function Erased(files: seq<File>, indices: seq<nat>): seq<File>
    decreases |indices|
  {
    if indices == [] then []
    else
      var i := indices[|indices| - 1];
      (if i < |files| then [files[i]] else [])
      + Erased(if i < |files| then EraseAt(files, i) else files, indices[..|indices| - 1])
  }

  function NumberSet(files: seq<File>): set<nat>
  {
    set f | f in files :: f.number
  }

  /** The commit: the snapshot's files leave level 0, the saved indices leave level 1, the outputs join it. */
  function CommitCompact(s: State): State
    requires s.compaction.CompactMerged?
  {
    var c := s.compaction;
    var dropped := Erased(s.levels[1], c.indices);
    var level1 := SortFiles(EraseIndices(s.levels[1], c.indices) + c.outs);
    var heap := UnrefAll(UnrefAll(UnrefAll(UnrefAll(s.fileHeap, Ids(c.l0)), Ids(dropped)), Ids(c.l0)), Ids(c.l1));
    Saved(s.(levels := s.levels[0 := RemoveEach(s.levels[0], c.l0)][1 := level1],
             fileHeap := heap, compaction := CompactIdle,
             disk := s.disk.(tables := s.disk.tables - NumberSet(c.l0) - NumberSet(dropped))))
  }

  // ---- Clients ----

  function AllFiles(levels: LevelFiles): seq<File>
  {
    levels[0] + levels[1] + levels[2] + levels[3]
  }

  function MemsHeld(mem: nat, imm: Option<nat>): seq<nat>
  {
    [mem] + if imm.Some? then [imm.value] else []
  }

  /** The locked part of Get and NewIterator: a reference to every layer. */
  function BeginRead(s: State, key: Bytes, stage: Stage): State
  {
    var c := Client(key, s.mem, s.imm, s.levels, stage, MemsHeld(s.mem, s.imm), AllFiles(s.levels));
    s.(clients := s.clients + [c], memHeap := RefAll(s.memHeap, c.heldMems), fileHeap := RefAll(s.fileHeap, Ids(c.heldFiles)))
  }

  /** One layer of an unlocked search. */
  function Searched(mems: seq<History>, c: Client): Stage
    requires ClientWired(c, |mems|)
  {
    match c.stage
    case InMem =>
      (match MemGet(mems[c.memRef], c.key)
       case Some(v) => Returned(Answer(Some(v)))
       case None => if c.immRef.Some? then InImm else InLevel0(|c.snapshot[0]|))
    case InImm =>
      (match ImmGet(mems, c.immRef, c.key)
       case Some(v) => Returned(Answer(Some(v)))
       case None => InLevel0(|c.snapshot[0]|))
    case InLevel0(left) =>
      if left == 0 then InLevel(1)
      else
        (match Lookup(c.snapshot[0][left - 1].run, c.key)
         case Some(v) => Returned(Answer(Some(v)))
         case None => InLevel0(left - 1))
    case InLevel(l) =>
      if l >= |c.snapshot| then Returned(None)
      else
        (match FindInLevel(RunsIn(c.snapshot[l]), c.key)
         case Some(v) => Returned(Answer(Some(v)))
         case None => InLevel(l + 1))
    case _ => c.stage
  }

  function StepRead(s: State, i: nat): State
    requires Wired(s) && i < |s.clients|
  {
    s.(clients := s.clients[i := s.clients[i].(stage := Searched(s.mems, s.clients[i]))])
  }

  /** One Unref: the memory tables first, then the tables in the order they were taken. */
  function ReleaseRead(s: State, i: nat): State
    requires i < |s.clients| && (s.clients[i].heldMems != [] || s.clients[i].heldFiles != [])
  {
    var c := s.clients[i];
    if c.heldMems != [] then
      s.(clients := s.clients[i := c.(heldMems := c.heldMems[1..])], memHeap := Unref(s.memHeap, c.heldMems[0]))
    else
      s.(clients := s.clients[i := c.(heldFiles := c.heldFiles[1..])], fileHeap := Unref(s.fileHeap, c.heldFiles[0].id))
  }

  // ---- Closing and reopening ----

  /** The destructor, once nothing is left to flush. */
  function Close(s: State): State
  {
    s.(memHeap := Unref(s.memHeap, s.mem), fileHeap := UnrefAll(s.fileHeap, Ids(AllFiles(s.levels))),
       levels := [[], [], [], []])
  }

  /** Opens the listed files that exist; each becomes a new object. */
  function OpenFiles(numbers: seq<nat>, tables: map<nat, Table>, base: nat): (r: seq<File>)
  {
    if numbers == [] then []
    else
      var n := |numbers| - 1;
      var before := OpenFiles(numbers[..n], tables, base);
      before + if numbers[n] in tables then [File(base + |before|, numbers[n], tables[numbers[n]])] else []
  }

  function SavedManifest(disk: Disk): Manifest
  {
    if disk.manifest.Some? then disk.manifest.value else Manifest([[], [], [], []], 1, 1)
  }

  function SavedLevel(disk: Disk, l: nat): seq<nat>
  {
    var ls := SavedManifest(disk).levels;
    if l < |ls| then ls[l] else []
  }

  /** Replaying one log record into the memory table. */
  function Replayed(r: Wal.Record): Entry
  {
    Entry(ExtractUserKey(r.key), r.value)
  }

  function Replay(rs: seq<Wal.Record>): (h: seq<Entry>)
    ensures |h| == |rs|
  {
    seq(|rs|, i requires 0 <= i < |rs| => Replayed(rs[i]))
  }

  /** last_sequence_ after replaying: the largest number met, counting on for short keys. */
  function SequenceAfter(rs: seq<Wal.Record>): (n: nat)
  {
    if rs == [] then 0
    else
      var n := SequenceAfter(rs[..|rs| - 1]);
      var key := rs[|rs| - 1].key;
      if |key| < 8 then n + 1
      else if ExtractSequence(key) > n then ExtractSequence(key)
      else n
  }

  function LogRecords(disk: Disk): seq<Wal.Record>
  {
    Wal.Records(LogOf(disk, SavedManifest(disk).walNumber), 0)
  }

  function OpenLevels(disk: Disk, base: nat): LevelFiles
  {
    var l0 := OpenFiles(SavedLevel(disk, 0), disk.tables, base);
    var l1 := OpenFiles(SavedLevel(disk, 1), disk.tables, base + |l0|);
    var l2 := OpenFiles(SavedLevel(disk, 2), disk.tables, base + |l0| + |l1|);
    var l3 := OpenFiles(SavedLevel(disk, 3), disk.tables, base + |l0| + |l1| + |l2|);
    [l0, l1, l2, l3]
  }

  /** Open: ReadManifest, a new memory table, replay of the saved log. */
  function Recover(s: State): State
    requires |LogRecords(s.disk)| <= MAX_SEQUENCE
  {
    var m := SavedManifest(s.disk);
    var levels := OpenLevels(s.disk, |s.fileHeap.refs|);
    var rs := LogRecords(s.disk);
    s.(mems := s.mems + [Replay(rs)], mem := |s.mems|, memHeap := New(s.memHeap), imm := None, immFlushing := false,
       levels := levels, fileHeap := NewMany(s.fileHeap, |AllFiles(levels)|),
       nextFile := m.nextFile, walNumber := m.walNumber, lastSequence := SequenceAfter(rs),
       flush := FlushIdle, compaction := CompactIdle,
       disk := s.disk.(logs := s.disk.logs[m.walNumber := LogOf(s.disk, m.walNumber)]))
  }

  /** Nothing pending and nobody holding a reference. */
  ghost predicate Quiet(s: State)
  {
    && s.imm.None? && s.flush.FlushIdle? && s.compaction.CompactIdle?
    && forall i :: 0 <= i < |s.clients| ==> s.clients[i].heldMems == [] && s.clients[i].heldFiles == []
  }

  // ---- Steps ----

  datatype Action =
    | PutAction(key: Bytes, value: Bytes)
    | DeleteAction(key: Bytes)
    | RotateAction
    | FlushBeginAction | FlushReadAction | FlushBuildAction | FlushCommitAction
    | CompactBeginAction | CompactOpenAction | CompactEmitAction(n: nat) | CompactCloseAction | CompactCommitAction
    | GetAction(key: Bytes)
    | IterateAction
    | SearchAction(client: nat)
    | ReleaseAction(client: nat)
    | ReopenAction

  /** The cut after `n` entries does not fall between two versions of a key. */
  predicate WholeCut(todo: seq<Entry>, n: nat)
    requires 0 < n <= |todo|
  {
    n == |todo| || todo[n - 1].key != todo[n].key
  }

  ghost predicate Enabled(s: State, a: Action)
    requires Wired(s)
  {
    match a
    case PutAction(key, value) => MayWrite(s, key, value)
    case DeleteAction(key) => MayWrite(s, key, [])
    case RotateAction => s.imm.None?
    case FlushBeginAction => s.imm.Some? && !s.immFlushing
    case FlushReadAction => s.flush.FlushClaimed? && s.imm.Some?
    case FlushBuildAction => s.flush.FlushReading? && s.flush.source < |s.mems|
    case FlushCommitAction => s.flush.FlushBuilt? && s.imm.Some?
    case CompactBeginAction => s.compaction.CompactIdle? && s.levels[0] != [] && Rightful(s.levels[0], s.levels[1])
    case CompactOpenAction => s.compaction.CompactChosen?
    case CompactEmitAction(n) =>
      s.compaction.CompactMerging? && 0 < n <= |s.compaction.todo| && n <= MAX_SEQUENCE && WholeCut(s.compaction.todo, n)
    case CompactCloseAction => s.compaction.CompactMerging? && s.compaction.todo == []
    case CompactCommitAction => s.compaction.CompactMerged?
    case GetAction(_) => true
    case IterateAction => true
    case SearchAction(i) => i < |s.clients|
    case ReleaseAction(i) =>
      && i < |s.clients| && (s.clients[i].stage.Returned? || s.clients[i].stage.Walking?)
      && (s.clients[i].heldMems != [] || s.clients[i].heldFiles != [])
    case ReopenAction => Quiet(s) && |LogRecords(s.disk)| <= MAX_SEQUENCE
  }

  ghost function Do(s: State, a: Action): State
    requires Wired(s) && Enabled(s, a)
  {
    match a
    case PutAction(key, value) => Write(s, key, value, Wal.PUT, Value)
    case DeleteAction(key) => Write(s, key, [], Wal.DELETE, Deletion)
    case RotateAction => Rotate(s)
    case FlushBeginAction => BeginFlush(s)
    case FlushReadAction => ReadFlush(s)
    case FlushBuildAction => BuildFlush(s)
    case FlushCommitAction => CommitFlush(s)
    case CompactBeginAction => BeginCompact(s)
    case CompactOpenAction => OpenCompact(s)
    case CompactEmitAction(n) => EmitCompact(s, n)
    case CompactCloseAction => CloseCompact(s)
    case CompactCommitAction => CommitCompact(s)
    case GetAction(key) => BeginRead(s, key, InMem)
    case IterateAction => BeginRead(s, [], Walking)
    case SearchAction(i) => StepRead(s, i)
    case ReleaseAction(i) => ReleaseRead(s, i)
    case ReopenAction => Recover(Close(s))
  }

  /** A new database. */
  ghost predicate Init(s: State)
  {
    && s.mems == [[]] && s.memHeap == Heap([1], {}) && s.fileHeap == Heap([], {})
    && s.mem == 0 && s.imm.None? && !s.immFlushing
    && s.levels == [[], [], [], []] && s.nextFile == 1 && s.walNumber == 1 && s.lastSequence == 0
    && s.flush.FlushIdle? && s.compaction.CompactIdle? && s.clients == []
    && s.disk == Disk(map[1 := []], map[], None)
    && s.model == map[]
  }
}
