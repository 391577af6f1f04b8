/** The tables and memory tables of the machine as the real objects: what a flush and a compaction build is what the
    machine's steps put into the levels, and a Get over the objects answers as one over the machine (src/db.cc). */
module DatabaseTables {
  import opened Slices
  import opened Coding
  import opened Entries
  import opened InternalKeys
  import opened MemTables
  import opened TableFormat
  import opened TableBuilders
  import opened Tables
  import opened TableStores
  import opened Levels
  import opened CompactionOutputs
  import opened CompactionResults
  import opened Databases
  import opened DatabaseAnswers
  import opened DatabaseRuns

  // ---- What the background work builds ----

  /** The memory table object behind a history of the machine. */
  ghost predicate Holds(mem: MemTable, h: History)
    reads mem, mem.table, mem.table.all
  {
    mem.Valid() && mem.history == h
  }

  /** Between claiming and committing a flush: the table that is built serves the file that the step records. */
  method BuildFlushed(s: State, mem: MemTable) returns (f: File, table: SSTable, ghost shape: Shape)
    requires s.flush.FlushReading? && s.flush.source < |s.mems| && Holds(mem, s.mems[s.flush.source])
    requires Writable(mem.history) && PlainEntries(mem.history)
    ensures f == BuildFlush(s).flush.file && Serves(table, shape.0, shape.1, f.run)
    ensures fresh(table) && fresh(table.bloom)
  {
    hide FlushEntries, Writable, PlainEntries, Serves;
    ghost var blocks, filter;
    table, blocks, filter := TableStores.Flush(mem);
    shape := (blocks, filter);
    f := File(|s.fileHeap.refs|, s.flush.number, FlushTable(s.mems[s.flush.source]));
  }

  /** The files that a compaction's loop writes, when it cuts no key in two, are emitted by steps of the machine, which
      then hold exactly them. */
  lemma {:induction false} OutputsAreEmitted(before: seq<State>, outs: seq<Run>, rest: seq<Entry>)
      returns (trace: seq<State>)
    requires IsRun(before)
    requires var c := before[|before| - 1].compaction;
             c.CompactMerging? && c.outs == [] && c.todo == Join(outs) + rest
    requires forall i :: 0 <= i < |outs| ==> outs[i] != [] && |outs[i]| <= MAX_SEQUENCE
    requires WholeKeys(outs) && (outs != [] && rest != [] ==> LastKey(outs[|outs| - 1]) != rest[0].key)
    ensures IsRun(trace) && |trace| == |before| + |outs|
    ensures var c := trace[|trace| - 1].compaction;
            c.CompactMerging? && RunsIn(c.outs) == outs && c.todo == rest
    decreases |outs|
  {
    if outs == [] {
      trace := before;
      assert RunsIn([]) == [];
      assert Join([]) + rest == rest;
    } else {
      var n := |outs| - 1;
      var last := outs[n];
      assert Join(outs) + rest == Join(outs[..n]) + (last + rest);
      trace := OutputsAreEmitted(before, outs[..n], last + rest);
      trace := OneEmitted(trace, last, rest);
      assert outs[..n] + [last] == outs;
    }
  }

  lemma OneEmitted(before: seq<State>, t: Run, rest: seq<Entry>) returns (trace: seq<State>)
    requires IsRun(before) && t != [] && |t| <= MAX_SEQUENCE
    requires before[|before| - 1].compaction.CompactMerging? && before[|before| - 1].compaction.todo == t + rest
    requires rest != [] ==> LastKey(t) != rest[0].key
    ensures IsRun(trace) && |trace| == |before| + 1
    ensures var c, d := before[|before| - 1].compaction, trace[|trace| - 1].compaction;
            d.CompactMerging? && RunsIn(d.outs) == RunsIn(c.outs) + [t] && d.todo == rest
  {
    hide Inv;
    var s := before[|before| - 1];
    RunInv(before, |before| - 1);
    InvIsWired(s);
    assert s.compaction.todo[..|t|] == t && s.compaction.todo[|t|..] == rest;
    var a := CompactEmitAction(|t|);
    trace := before + [Do(s, a)];
    assert Next(s, Do(s, a));
    OneMoreStep(before, Do(s, a));
    RunsAppend(s.compaction.outs, File(|s.fileHeap.refs|, s.nextFile, t));
  }

  lemma InvIsWired(s: State)
    requires Inv(s)
    ensures Wired(s)
  {}

  lemma OneMoreStep(before: seq<State>, t: State)
    requires IsRun(before) && Next(before[|before| - 1], t)
    ensures IsRun(before + [t])
  {
    hide Next, Init;
    var trace := before + [t];
    forall i | 0 < i < |trace| ensures Next(trace[i - 1], trace[i]) {
      if i < |before| { assert Next(before[i - 1], before[i]); }
    }
  }

  // ---- A Get over the objects ----

  lemma EndKeysServe(table: SSTable, blocks: seq<seq<Entry>>, filter: Bytes, es: Table)
    requires Serves(table, blocks, filter, es)
    ensures ExtractUserKey(table.firstKey) == FirstKey(es) && ExtractUserKey(table.lastKey) == LastKey(es)
  {
    hide IsTable, TableFits, UserSorted, PlainEntries, Flatten, Version, IndexOf, FileBytes, ExtractUserKey;
    NoUserKey();
    EndsOfBlocks(blocks);
    if es != [] {
      StripVersion(es, 0);
      StripVersion(es, |es| - 1);
    }
  }

  lemma NoUserKey()
    ensures ExtractUserKey([]) == []
  {}

  lemma EndsOfBlocks(blocks: seq<seq<Entry>>)
    requires SmallBlocks(blocks)
    ensures blocks == [] <==> Flatten(blocks) == []
    ensures blocks != [] ==> FirstKeyOf(blocks) == Flatten(blocks)[0].key
    ensures blocks != [] ==> LastKeyOf(blocks) == TableFormat.Last(Flatten(blocks)).key
  {
    if blocks != [] {
      var n := |blocks| - 1;
      FlattenAt(blocks, 0, 0);
      FlattenAt(blocks, n, |blocks[n]| - 1);
      assert blocks[..0] == [] && blocks[..n + 1] == blocks;
    }
  }

  /** Level 0: newest table first. */
  method SearchTables0(files: seq<File>, tables: seq<SSTable>, ghost shapes: seq<Shape>, key: Bytes)
      returns (hit: Option<Bytes>)
    requires AllServe(tables, shapes, RunsIn(files)) && Plain(key)
    ensures hit == FindNewest(RunsIn(files), key)
  {
    hide Lookup, Plain, Serves, FindNewest;
    var i := |tables| - 1;
    assert files[..|files|] == files;
    while i >= 0
      invariant -1 <= i < |files|
      invariant FindNewest(RunsIn(files[..i + 1]), key) == FindNewest(RunsIn(files), key)
    {
      NewestUnfolds(files[..i + 1], key);
      assert files[..i + 1][..i] == files[..i];
      hit := TableAnswer(tables[i], shapes[i].0, shapes[i].1, files[i].run, key);
      if hit != None { return; }
      i := i - 1;
    }
    NoNewest(files[..0], key);
    hit := None;
  }

  lemma NoNewest(files: seq<File>, u: Bytes)
    requires files == []
    ensures FindNewest(RunsIn(files), u) == None
  {}

  /** SSTable::Get as the level loops use it. */
  method TableAnswer(table: SSTable, ghost blocks: seq<seq<Entry>>, ghost filter: Bytes, ghost es: Table, key: Bytes)
      returns (hit: Option<Bytes>)
    requires Serves(table, blocks, filter, es) && Plain(key)
    ensures hit == Lookup(es, key)
  {
    hide Sound, IsTable, Lookup, Plain;
    BloomFits(table, blocks, filter, es);
    var status := table.Get(key, blocks, filter, es);
    hit := match status case Ok(v) => Some(v) case _ => None;
  }

  /** A deeper level: the binary search over the tables' own first and last keys. */
  method SearchTables(files: seq<File>, tables: seq<SSTable>, ghost shapes: seq<Shape>, key: Bytes)
      returns (hit: Option<Bytes>)
    requires AllServe(tables, shapes, RunsIn(files)) && Plain(key)
    ensures hit == FindInLevel(RunsIn(files), key)
  {
    hide Less, Compare, Lookup, FirstKey, LastKey, Plain, Serves;
    var left, right := 0, |tables| - 1;
    ghost var runs := RunsIn(files);
    while left <= right
      invariant 0 <= left && right < |files|
      invariant SearchLevel(runs, key, left, right) == FindInLevel(runs, key)
      decreases right - left + 1
    {
      var mid := (left + right) / 2;
      EndKeysServe(tables[mid], shapes[mid].0, shapes[mid].1, files[mid].run);
      var first, last := ExtractUserKey(tables[mid].firstKey), ExtractUserKey(tables[mid].lastKey);
      CompareIsLexicographic(key, first);
      CompareIsLexicographic(key, last);
      if Compare(key, first) < 0 {
        right := mid - 1;
      } else if Compare(key, last) > 0 {
        left := mid + 1;
      } else {
        hit := TableAnswer(tables[mid], shapes[mid].0, shapes[mid].1, files[mid].run, key);
        return;
      }
    }
    hit := None;
  }

  /** Every layer of a snapshot as objects. */
  ghost predicate Realized(c: Client, mems: seq<History>, mem: MemTable, imm: MemTable?,
                           tables: seq<seq<SSTable>>, shapes: seq<seq<Shape>>)
    requires ClientWired(c, |mems|)
    reads mem, mem.table, mem.table.all
    reads if imm != null then {imm, imm.table} else {}
    reads if imm != null then imm.table.all else []
    reads set l, t | 0 <= l < |tables| && t in tables[l] :: t.bloom
  {
    && Holds(mem, mems[c.memRef])
    && (imm != null <==> c.immRef.Some?) && (imm != null ==> Holds(imm, mems[c.immRef.value]))
    && |tables| == |shapes| == 4
    && forall l :: 0 <= l < 4 ==> AllServe(tables[l], shapes[l], RunsIn(c.snapshot[l]))
  }

  /** The unlocked search of DB::Get over skip lists and table files. */
  method SearchObjects(c: Client, ghost mems: seq<History>, mem: MemTable, imm: MemTable?,
                       tables: seq<seq<SSTable>>, ghost shapes: seq<seq<Shape>>) returns (r: Option<Bytes>)
    requires ClientWired(c, |mems|) && Realized(c, mems, mem, imm, tables, shapes) && Plain(c.key)
    ensures var memory := Orelse(MemGet(mems[c.memRef], c.key), ImmGet(mems, c.immRef, c.key));
            r == Answer(Orelse(memory, TableGet(c.snapshot, c.key)))
  {
    hide MemGet, LastAdd, FindNewest, FindFrom, FindInLevel, Lookup, Plain, AllServe, Faithful, WithinLimits, RunsIn;
    var hit := mem.Get(c.key);
    if hit == None && imm != null {
      hit := imm.Get(c.key);
    }
    if hit == None {
      hit := SearchTables0(c.snapshot[0], tables[0], shapes[0], c.key);
    }
    if hit == None {
      hit := SearchDeeper(c.snapshot, tables, shapes, c.key);
    }
    r := if hit == Some([]) then None else hit;
  }

  method SearchDeeper(levels: LevelFiles, tables: seq<seq<SSTable>>, ghost shapes: seq<seq<Shape>>, key: Bytes)
      returns (hit: Option<Bytes>)
    requires |tables| == |shapes| == 4 && Plain(key)
    requires forall l :: 0 <= l < 4 ==> AllServe(tables[l], shapes[l], RunsIn(levels[l]))
    ensures hit == FindFrom(LevelRuns(levels), 1, key)
  {
    hide FindInLevel, RunsIn, AllServe, Plain;
    var l := 1;
    while l < |tables|
      invariant 1 <= l <= 4 && FindFrom(LevelRuns(levels), l, key) == FindFrom(LevelRuns(levels), 1, key)
    {
      hit := SearchTables(levels[l], tables[l], shapes[l], key);
      assert LevelRuns(levels)[l] == RunsIn(levels[l]);
      if hit != None { return; }
      l := l + 1;
    }
    hit := None;
  }
}
