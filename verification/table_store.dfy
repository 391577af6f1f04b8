/** Where the parts meet: writing a table and reading it back, flushing a memory table, and the output
    loop of a compaction (BackgroundFlush and BackgroundCompaction in src/db.cc). */
module TableStores {
  import opened Slices
  import opened Coding
  import opened Entries
  import opened InternalKeys
  import opened TableFormat
  import opened TableBuilders
  import opened Tables
  import opened TableIterators
  import opened MemTables
  import opened Levels
  import opened Merging
  import opened Compactions
  import opened CompactionOutputs
  import BloomFilters

  /** The blocks and the filter bits of a table. */
  type Shape = (seq<seq<Entry>>, Bytes)

  /** Entries whose lengths are 32-bit numbers. */
  ghost predicate Lengths(es: seq<Entry>)
  {
    forall i :: 0 <= i < |es| ==> |es[i].key| + 8 < U32 && |es[i].value| < U32
  }

  /** And few enough for the number of their filter's bits to be one too. */
  ghost predicate Writable(es: seq<Entry>)
  {
    Lengths(es) && 8 * BloomFilters.FilterSize(|es|, BITS_PER_KEY) < U32
  }

  ghost predicate Ordered(es: seq<Entry>)
  {
    Lengths(es) && UserSorted(es) && PlainEntries(es)
  }

  ghost predicate Source(es: seq<Entry>)
  {
    Writable(es) && UserSorted(es) && PlainEntries(es)
  }

  /** An open table over a finished file: it answers every lookup like a scan of the entries it was built from. */
  ghost predicate Serves(table: SSTable, blocks: seq<seq<Entry>>, filter: Bytes, es: seq<Entry>)
    reads table.bloom
  {
    table.Shows(blocks, filter) && Sound(blocks, filter, es)
  }

  lemma FilterFits(es: seq<Entry>)
    requires Writable(es)
    ensures |es| < 0x2000_0000
  {}

  // ---- Such a file's length is a 64-bit number ----

  const ENTRY_BOUND: nat := 0x2_0000_0080

  lemma EntryBound(e: Entry)
    requires Fits(e)
    ensures |EncodeEntry(e)| <= ENTRY_BOUND
  {
    VarintSize(|e.key|, 5);
    VarintSize(|e.value|, 5);
    VarintSize(0, 1);
    assert Pow128(2) == 0x4000; assert Pow128(4) == 0x1000_0000; assert Pow128(5) == 0x8_0000_0000;
  }

  lemma {:induction false} EntriesBound(es: seq<Entry>)
    requires AllFit(es)
    ensures |EncodeEntries(es)| <= |es| * ENTRY_BOUND
  {
    hide EncodeEntry;
    if es != [] {
      EntriesBound(es[..|es| - 1]);
      EntryBound(es[|es| - 1]);
    }
  }

  lemma {:induction false} DataBound(blocks: seq<seq<Entry>>)
    requires SmallBlocks(blocks) && forall i :: 0 <= i < |blocks| ==> AllFit(blocks[i])
    ensures |blocks| <= |Flatten(blocks)|
    ensures |DataBytes(blocks)| <= |Flatten(blocks)| * (ENTRY_BOUND + 12)
  {
    hide EncodeEntries, Restarts, AllFit;
    if blocks != [] {
      var n := |blocks| - 1;
      DataBound(blocks[..n]);
      EntriesBound(blocks[n]);
      RestartCount(blocks[n]);
    }
  }

  lemma {:induction false} PrefixShorter(blocks: seq<seq<Entry>>, i: nat)
    requires i <= |blocks|
    ensures |DataBytes(blocks[..i])| <= |DataBytes(blocks)|
    ensures i < |blocks| ==> |DataBlock(blocks[i])| <= |DataBytes(blocks)|
    decreases |blocks|
  {
    hide DataBlock;
    if i == |blocks| {
      assert blocks[..i] == blocks;
    } else {
      var n := |blocks| - 1;
      PrefixShorter(blocks[..n], i);
      assert blocks[..n][..i] == blocks[..i];
    }
  }

  lemma IndexBound(blocks: seq<seq<Entry>>)
    requires SmallBlocks(blocks) && |DataBytes(blocks)| < U64
    requires forall i :: 0 <= i < |blocks| ==> AllFit(blocks[i])
    ensures |IndexBlock(IndexOf(blocks))| <= |blocks| * ENTRY_BOUND + 12
  {
    hide DataBytes, DataBlock, EncodeEntries, HandleEntry;
    var es := HandleEntries(IndexOf(blocks));
    forall i | 0 <= i < |blocks|
      ensures Fits(es[i])
    {
      PrefixShorter(blocks, i);
      HandleFits(IndexOf(blocks)[i]);
    }
    EntriesBound(es);
  }

  lemma FileBound(blocks: seq<seq<Entry>>, filter: Bytes)
    requires SmallBlocks(blocks) && |Flatten(blocks)| < 0x2000_0000 && |filter| < U32
    requires forall i :: 0 <= i < |blocks| ==> AllFit(blocks[i])
    ensures |FileBytes(blocks, filter)| < U64
  {
    hide DataBytes, IndexBlock, IndexOf, AllFit, Flatten, Footer;
    var n := |Flatten(blocks)|;
    DataBound(blocks);
    assert n * (ENTRY_BOUND + 12) <= 0x2000_0000 * (ENTRY_BOUND + 12);
    IndexBound(blocks);
    assert |blocks| * ENTRY_BOUND <= 0x2000_0000 * ENTRY_BOUND;
    BloomLength(filter);
  }

  lemma BloomLength(filter: Bytes)
    ensures |BloomBlock(filter)| == |filter| + 12
  {}

  /** What Finish leaves is a well-formed table. */
  lemma FinishedIsSound(blocks: seq<seq<Entry>>, filter: Bytes, es: seq<Entry>)
    requires TableOf(blocks, filter, es) && Source(es)
    ensures Sound(blocks, filter, es) && IsTable(FileBytes(blocks, filter), blocks, filter)
  {
    hide FileBytes, Flatten, Version, Less, Plain, BloomFilters.Holds;
    forall i | 0 <= i < |blocks|
      ensures AllFit(blocks[i])
    {
      forall j | 0 <= j < |blocks[i]|
        ensures Fits(blocks[i][j])
      {
        FlattenAt(blocks, i, j);
        VersionFits(es, |Flatten(blocks[..i])| + j);
      }
    }
    FilterFits(es);
    FileBound(blocks, filter);
  }

  lemma VersionFits(es: seq<Entry>, i: nat)
    requires Writable(es) && i < |es|
    ensures Fits(Numbered(es)[i])
  {}

  // ---- Writing, opening, reading ----

  /** Finish, then Open: the reader stands for the entries that were added. */
  method FinishAndOpen(builder: SSTableBuilder) returns (table: SSTable, ghost blocks: seq<seq<Entry>>, ghost filter: Bytes)
    requires builder.Valid() && Source(builder.added)
    modifies builder
    ensures Serves(table, blocks, filter, old(builder.added)) && fresh(table) && fresh(table.bloom)
  {
    hide FileBytes, TableOf, IsTable, Sound, Flatten, Numbered, UserSorted, PlainEntries;
    FilterFits(builder.added);
    filter := builder.Finish();
    blocks := builder.blocks;
    FinishedIsSound(blocks, filter, builder.added);
    var status, reader := SSTable.Open(builder.file, blocks, filter);
    table := reader;
  }

  method WriteTable(es: seq<Entry>) returns (table: SSTable, ghost blocks: seq<seq<Entry>>, ghost filter: Bytes)
    requires Source(es)
    ensures Serves(table, blocks, filter, es) && fresh(table) && fresh(table.bloom)
  {
    hide UserSorted, PlainEntries, SSTableBuilder.Valid, TableOf;
    var builder := new SSTableBuilder();
    var i := 0;
    while i < |es|
      invariant 0 <= i <= |es| && fresh(builder) && builder.Valid() && builder.added == es[..i]
    {
      builder.Add(es[i].key, es[i].value);
      assert es[..i + 1] == es[..i] + [es[i]];
      i := i + 1;
    }
    assert es[..i] == es;
    table, blocks, filter := FinishAndOpen(builder);
  }

  /** Build, open and get: the value of the first entry added for the key, or NotFound when there is none. */
  method WriteThenGet(es: seq<Entry>, u: Bytes) returns (r: Status)
    requires Source(es) && Plain(u)
    ensures Lookup(es, u).Some? ==> r == Ok(Lookup(es, u).value)
    ensures Lookup(es, u).None? ==> r == NotFound
  {
    hide Sound, IsTable, Lookup;
    var table, blocks, filter := WriteTable(es);
    BloomFits(table, blocks, filter, es);
    r := table.Get(u, blocks, filter, es);
  }

  lemma BloomFits(table: SSTable, blocks: seq<seq<Entry>>, filter: Bytes, es: seq<Entry>)
    requires Serves(table, blocks, filter, es)
    ensures 8 * |table.bloom.bits| < U32
  {
    hide FileBytes, IndexOf, TableOf;
  }

  /** Build, open and iterate: every added entry once, in order, under its internal key. */
  method WriteThenWalk(es: seq<Entry>) returns (out: seq<Entry>)
    requires Source(es)
    ensures out == Numbered(es)
  {
    var table, blocks, filter := WriteTable(es);
    out := Walk(table, blocks, filter, es);
  }

  method Walk(table: SSTable, ghost blocks: seq<seq<Entry>>, ghost filter: Bytes,
              ghost es: seq<Entry>) returns (out: seq<Entry>)
    requires Serves(table, blocks, filter, es)
    ensures out == Numbered(es)
  {
    hide Sound, IsTable, Numbered, Flatten, SSTableIterator.StandsOn, SSTableIterator.Opened;
    var it := new SSTableIterator(table, blocks, filter);
    Walked(table, blocks, filter, es);
    out := [];
    ghost var all := Flatten(blocks);
    while it.valid
      invariant fresh(it) && it.table == table && it.blocks == blocks && it.filter == filter && it.Opened()
      invariant |out| <= |all| && out == all[..|out|] && it.StandsOn(|out|)
      decreases |all| - |out|
    {
      var e := WalkOne(it, |out|);
      assert all[..|out|] + [all[|out|]] == all[..|out| + 1];
      out := out + [e];
    }
    WalkEnds(it, |out|);
    assert all[..|out|] == all;
  }

  lemma WalkEnds(it: SSTableIterator, q: nat)
    requires it.Opened() && it.StandsOn(q) && !it.valid
    ensures q >= |Flatten(it.blocks)|
  {
    hide IsTable, Flatten;
  }

  method WalkOne(it: SSTableIterator, ghost q: nat) returns (e: Entry)
    requires it.Opened() && it.StandsOn(q) && it.valid
    modifies it
    ensures it.Opened() && q < |Flatten(it.blocks)| && e == Flatten(it.blocks)[q] && it.StandsOn(q + 1)
  {
    hide IsTable, Flatten;
    e := Entry(it.currentKey, it.currentValue);
    it.Next(q);
  }

  lemma Walked(table: SSTable, blocks: seq<seq<Entry>>, filter: Bytes, es: seq<Entry>)
    requires Serves(table, blocks, filter, es)
    ensures Flatten(blocks) == Numbered(es)
  {
    hide Flatten, Numbered, IsTable;
  }

  // ---- Flushing a memory table ----

  lemma FlushIsSource(h: seq<Entry>)
    requires Writable(h) && PlainEntries(h)
    ensures Source(FlushEntries(h))
  {
    hide UserSorted, Stored, ExtractUserKey, Version, Plain;
    FlushEntriesSorted(h);
    var es := FlushEntries(h);
    forall i | 0 <= i < |es|
      ensures |es[i].key| + 8 < U32 && |es[i].value| < U32
    {
      var a := StoredIndex(h, i);
      VersionAgainstLookup(h, a, []);
    }
  }

  /** The body of the loop of BackgroundFlush. */
  method FlushOne(it: MemTableIterator, builder: SSTableBuilder)
    requires it.Placed() && it.IsValid() && builder.Valid()
    requires Writable(FlushEntries(it.mem.history)) && it.pos <= |FlushEntries(it.mem.history)|
    requires builder.added == FlushEntries(it.mem.history)[..it.pos]
    modifies it, builder
    ensures it.Placed() && builder.Valid() && it.pos == old(it.pos) + 1 <= |FlushEntries(it.mem.history)|
    ensures builder.added == FlushEntries(it.mem.history)[..it.pos]
  {
    hide Stored, Writable, ExtractUserKey, FlushEntries;
    it.Reads();
    FlushEntryAt(it.mem.history, it.pos);
    WritableEntry(FlushEntries(it.mem.history), it.pos);
    builder.Add(ExtractUserKey(it.current.key), it.current.value);
    it.Next();
  }

  /** The loop of BackgroundFlush. */
  method Flush(mem: MemTable) returns (table: SSTable, ghost blocks: seq<seq<Entry>>, ghost filter: Bytes)
    requires mem.Valid() && Writable(mem.history) && PlainEntries(mem.history)
    ensures Serves(table, blocks, filter, FlushEntries(mem.history)) && fresh(table) && fresh(table.bloom)
  {
    hide UserSorted, PlainEntries, Stored, Writable, ExtractUserKey, TableOf, FlushEntries, SSTableBuilder.Valid;
    ghost var es := FlushEntries(mem.history);
    FlushIsSource(mem.history);
    var builder := new SSTableBuilder();
    var it := new MemTableIterator(mem);
    while it.IsValid()
      invariant fresh(it) && it.mem == mem && it.Placed()
      invariant fresh(builder) && builder.Valid() && it.pos <= |es| && builder.added == es[..it.pos]
      decreases |es| - it.pos
    {
      FlushOne(it, builder);
    }
    it.Reads();
    assert es[..it.pos] == es;
    table, blocks, filter := FinishAndOpen(builder);
  }

  lemma FlushEntryAt(h: seq<Entry>, i: nat)
    requires |h| <= MAX_SEQUENCE && i < |Stored(h)|
    ensures FlushEntries(h)[i] == Entry(ExtractUserKey(Stored(h)[i].key), Stored(h)[i].value)
    ensures FlushEntries(h)[..i + 1] == FlushEntries(h)[..i] + [FlushEntries(h)[i]]
  {}

  lemma WritableEntry(es: seq<Entry>, i: nat)
    requires Writable(es) && i < |es|
    ensures |es[i].key| + 8 < U32 && |es[i].value| < U32 && |es| <= MAX_SEQUENCE
  {}

  /** A flushed memory table answers every lookup as the memory table did. */
  method FlushThenGet(mem: MemTable, u: Bytes) returns (before: Option<Bytes>, after: Status)
    requires mem.Valid() && Writable(mem.history) && PlainEntries(mem.history) && Plain(u)
    ensures before == MemGet(mem.history, u)
    ensures after == match before case Some(v) => Ok(v) case None => NotFound
  {
    hide Sound, IsTable, Lookup, MemGet, LastAdd, PlainEntries, Plain;
    before := mem.Get(u);
    var table, blocks, filter := Flush(mem);
    FlushPreservesLookups(mem.history, u);
    BloomFits(table, blocks, filter, FlushEntries(mem.history));
    after := table.Get(u, blocks, filter, FlushEntries(mem.history));
  }

  // ---- The output loop of a compaction ----

  const OUTPUT_LIMIT: nat := 2 * 1024 * 1024

  ghost predicate AllServe(tables: seq<SSTable>, shapes: seq<Shape>, outs: seq<Run>)
    reads set t | t in tables :: t.bloom
  {
    && |tables| == |shapes| == |outs|
    && forall i :: 0 <= i < |tables| ==> Serves(tables[i], shapes[i].0, shapes[i].1, outs[i])
  }

  /** Inputs whose entries a table can describe. */
  ghost predicate Compactable(inputs: seq<Run>)
  {
    GoodTables(inputs) && forall i :: 0 <= i < |inputs| ==> Lengths(inputs[i])
  }

  lemma LiveIsOrdered(inputs: seq<Run>)
    requires Compactable(inputs)
    ensures ShortTables(inputs)
    ensures Ordered(LiveEntries(inputs))
  {
    hide LiveEntries, Less, Plain, UserSorted, PlainEntries;
    LiveIsSorted(inputs);
    var live := LiveEntries(inputs);
    forall k | 0 <= k < |live|
      ensures |live[k].key| + 8 < U32 && |live[k].value| < U32
    {
      assert live[k] in live;
      LiveMembers(inputs, live[k]);
      var i :| 0 <= i < |inputs| && live[k] in inputs[i];
      var j :| 0 <= j < |inputs[i]| && inputs[i][j] == live[k];
    }
  }

  /** A consecutive part of the entries to write can be written as a table, unless it is too long. */
  lemma PartIsOrdered(a: seq<Entry>, b: seq<Entry>, c: seq<Entry>)
    requires Ordered(a + b + c)
    ensures Ordered(b)
    ensures |b| <= OUTPUT_ENTRIES ==> Source(b)
  {
    hide Less, Plain;
    var all := a + b + c;
    forall i | 0 <= i < |b| ensures b[i] == all[|a| + i] {}
    forall i, j | 0 <= i < j < |b| ensures !Less(b[j].key, b[i].key) {
      assert b[i] == all[|a| + i] && b[j] == all[|a| + j];
    }
  }

  /** No builder takes more entries than this before its blocks reach the limit: each entry has at least three bytes. */
  const OUTPUT_ENTRIES: nat := 0x10_0000

  lemma {:induction false} DataIsLong(blocks: seq<seq<Entry>>)
    ensures 3 * |Flatten(blocks)| <= |DataBytes(blocks)|
  {
    hide EncodeEntries, Restarts;
    if blocks != [] {
      DataIsLong(blocks[..|blocks| - 1]);
      EntriesAreLong(blocks[|blocks| - 1]);
    }
  }

  lemma {:induction false} EntriesAreLong(es: seq<Entry>)
    ensures 3 * |es| <= |EncodeEntries(es)|
  {
    hide EncodeEntry;
    if es != [] { EntriesAreLong(es[..|es| - 1]); }
  }

  lemma RoomForOne(builder: SSTableBuilder)
    requires builder.Valid() && builder.fileSize < OUTPUT_LIMIT
    ensures |builder.added| < OUTPUT_ENTRIES
  {
    hide Flatten, DataBytes, EncodeEntries, Numbered, UserKeys, IndexOf;
    DataIsLong(builder.blocks);
    assert |Flatten(builder.blocks)| + |builder.pending| == |builder.added|;
  }

  /** A builder in the middle of its output file. */
  ghost predicate InUse(builder: SSTableBuilder)
    reads builder
  {
    builder.Valid() && builder.added != [] && |builder.added| <= OUTPUT_ENTRIES
  }

  /** What the builder in use has taken. */
  ghost function Taken(builder: SSTableBuilder?): seq<Entry>
    reads builder
  {
    if builder == null then [] else builder.added
  }

  /** Closing the builder in use: finish it, open the file, append the table. */
  method CloseOutput(builder: SSTableBuilder, tables: seq<SSTable>, ghost shapes: seq<Shape>,
                     ghost outs: seq<Run>)
      returns (more: seq<SSTable>, ghost moreShapes: seq<Shape>)
    requires builder.Valid() && Source(builder.added) && AllServe(tables, shapes, outs)
    modifies builder
    ensures AllServe(more, moreShapes, outs + [old(builder.added)])
  {
    hide Serves, Source;
    var table, blocks, filter := FinishAndOpen(builder);
    more, moreShapes := tables + [table], shapes + [(blocks, filter)];
  }

  /** One entry of the merge, as the output loop sees it. */
  lemma LiveUnfolds(e: Entry, rest: seq<Entry>)
    ensures LiveOf([e] + rest) == (if e.value == [] then [] else [Strip(e)]) + LiveOf(rest)
  {
    assert ([e] + rest)[1..] == rest;
  }

  /** Written files, the builder in use and the entries still to come make up all there is to write. */
  ghost predicate Accounts(done: seq<Entry>, taken: seq<Entry>, rest: seq<Entry>, live: seq<Entry>)
  {
    done + taken + rest == live && Ordered(live)
  }

  lemma AccountsNext(done: seq<Entry>, taken: seq<Entry>, e: Entry, rest: seq<Entry>, live: seq<Entry>)
    requires Accounts(done, taken, LiveOf([e] + rest), live)
    ensures |taken| <= OUTPUT_ENTRIES ==> Source(taken)
    ensures e.value == [] ==> Accounts(done, taken, LiveOf(rest), live)
    ensures e.value != [] ==> |ExtractUserKey(e.key)| + 8 < U32 && |e.value| < U32
  {
    hide LiveOf, UserSorted, PlainEntries, ExtractUserKey;
    PartIsOrdered(done, taken, LiveOf([e] + rest));
    LiveUnfolds(e, rest);
    if e.value != [] { assert live[|done + taken|] == Strip(e); }
  }

  lemma AccountsAdded(done: seq<Entry>, taken: seq<Entry>, more: seq<Entry>, added: seq<Entry>, e: Entry,
                      rest: seq<Entry>, live: seq<Entry>)
    requires Accounts(done, taken, LiveOf([e] + rest), live) && e.value != []
    requires more + added == done + taken
    ensures Accounts(more, added + [Strip(e)], LiveOf(rest), live)
  {
    hide LiveOf, UserSorted, PlainEntries;
    LiveUnfolds(e, rest);
    assert done + taken + ([Strip(e)] + LiveOf(rest)) == more + (added + [Strip(e)]) + LiveOf(rest);
  }

  lemma AccountsClosed(done: seq<Entry>, taken: seq<Entry>, live: seq<Entry>)
    requires Accounts(done, taken, LiveOf([]), live)
    ensures done + taken == live && (|taken| <= OUTPUT_ENTRIES ==> Source(taken))
  {
    hide UserSorted, PlainEntries;
    PartIsOrdered(done, taken, []);
  }

  /** Moves on to a builder that takes the next entry: the one in use until its blocks reach the limit. */
  method RoomyBuilder(builder: SSTableBuilder?, tables: seq<SSTable>, ghost shapes: seq<Shape>,
                      ghost outs: seq<Run>)
      returns (roomy: SSTableBuilder, more: seq<SSTable>, ghost moreShapes: seq<Shape>, ghost moreOuts: seq<Run>)
    requires builder != null ==> InUse(builder) && Source(builder.added)
    requires AllServe(tables, shapes, outs) && forall i :: 0 <= i < |outs| ==> outs[i] != []
    modifies builder
    ensures roomy.Valid() && |roomy.added| < OUTPUT_ENTRIES && (roomy == builder || fresh(roomy))
    ensures roomy == builder <==> builder != null && old(builder.fileSize) < OUTPUT_LIMIT
    ensures roomy != builder ==> roomy.added == []
    ensures AllServe(more, moreShapes, moreOuts) && forall i :: 0 <= i < |moreOuts| ==> moreOuts[i] != []
    ensures Join(moreOuts) + roomy.added == Join(outs) + old(Taken(builder))
  {
    hide Serves, Source, Join, AllServe;
    more, moreShapes, moreOuts := tables, shapes, outs;
    if builder != null && builder.fileSize < OUTPUT_LIMIT {
      RoomForOne(builder);
      return builder, more, moreShapes, moreOuts;
    }
    if builder != null {
      JoinAppend(outs, builder.added);
      moreOuts := outs + [builder.added];
      more, moreShapes := CloseOutput(builder, tables, shapes, outs);
    }
    roomy := new SSTableBuilder();
  }

  lemma JoinAppend(outs: seq<Run>, t: Run)
    ensures Join(outs + [t]) == Join(outs) + t
    ensures Join([]) == []
  {
    assert (outs + [t])[..|outs|] == outs;
  }

  /** The body of the output loop. */
  method WriteOne(builder: SSTableBuilder?, key: Bytes, value: Bytes, tables: seq<SSTable>,
                  ghost shapes: seq<Shape>, ghost outs: seq<Run>, ghost rest: seq<Entry>, ghost live: seq<Entry>)
      returns (next: SSTableBuilder?, more: seq<SSTable>, ghost moreShapes: seq<Shape>, ghost moreOuts: seq<Run>)
    requires builder != null ==> InUse(builder)
    requires AllServe(tables, shapes, outs) && forall i :: 0 <= i < |outs| ==> outs[i] != []
    requires Accounts(Join(outs), Taken(builder), LiveOf([Entry(key, value)] + rest), live)
    modifies builder
    ensures next != null ==> InUse(next) && (next == builder || fresh(next))
    ensures AllServe(more, moreShapes, moreOuts) && forall i :: 0 <= i < |moreOuts| ==> moreOuts[i] != []
    ensures Accounts(Join(moreOuts), Taken(next), LiveOf(rest), live)
  {
    hide LiveOf, Join, AllServe, Accounts, ExtractUserKey;
    next, more, moreShapes, moreOuts := builder, tables, shapes, outs;
    ghost var e := Entry(key, value);
    ghost var taken := Taken(builder);
    AccountsNext(Join(outs), taken, e, rest, live);
    if value != [] {
      var roomy;
      roomy, more, moreShapes, moreOuts := RoomyBuilder(builder, tables, shapes, outs);
      AccountsAdded(Join(outs), taken, Join(moreOuts), roomy.added, e, rest, live);
      roomy.Add(ExtractUserKey(key), value);
      next := roomy;
    }
  }

  /** The same, with the merge moving on. */
  method CompactOne(it: MergeIterator, builder: SSTableBuilder?, tables: seq<SSTable>,
                    ghost shapes: seq<Shape>,
                    ghost outs: seq<Run>, ghost live: seq<Entry>)
      returns (next: SSTableBuilder?, more: seq<SSTable>, ghost moreShapes: seq<Shape>, ghost moreOuts: seq<Run>)
    requires it.Stands() && it.IsValid()
    requires builder != null ==> InUse(builder)
    requires AllServe(tables, shapes, outs) && forall i :: 0 <= i < |outs| ==> outs[i] != []
    requires Accounts(Join(outs), Taken(builder), LiveOf(Merge(it.Rest())), live)
    modifies it, builder
    ensures it.Stands() && |Merge(it.Rest())| < old(|Merge(it.Rest())|)
    ensures next != null ==> InUse(next) && (next == builder || fresh(next))
    ensures AllServe(more, moreShapes, moreOuts) && forall i :: 0 <= i < |moreOuts| ==> moreOuts[i] != []
    ensures Accounts(Join(moreOuts), Taken(next), LiveOf(Merge(it.Rest())), live)
  {
    hide Merge, LeastFrom, LiveOf, Join, AllServe, Accounts;
    var key, value := it.currentKey, it.currentValue;
    StandsAhead(it);
    ghost var rest := Merge(it.Rest())[1..];
    assert [Entry(key, value)] + rest == Merge(it.Rest());
    next, more, moreShapes, moreOuts := WriteOne(builder, key, value, tables, shapes, outs, rest, live);
    it.Next();
  }

  /** The output loop writes the entries to keep, in order, into non-empty tables that answer for them. */
  method CompactFiles(inputs: seq<Run>)
      returns (tables: seq<SSTable>, ghost shapes: seq<Shape>, ghost outs: seq<Run>)
    requires Compactable(inputs)
    ensures ShortTables(inputs)
    ensures Join(outs) == LiveEntries(inputs) && forall i :: 0 <= i < |outs| ==> outs[i] != []
    ensures AllServe(tables, shapes, outs)
  {
    hide Merge, LeastFrom, LiveOf, Join, AllServe, Compactable, Accounts, Ordered;
    LiveIsOrdered(inputs);
    ghost var live := LiveEntries(inputs);
    var it := OpenMerge(inputs);
    var builder: SSTableBuilder? := null;
    tables, shapes, outs := [], [], [];
    NothingWritten(live);
    while it.IsValid()
      invariant fresh(it) && it.Stands()
      invariant builder != null ==> fresh(builder) && InUse(builder)
      invariant Accounts(Join(outs), Taken(builder), LiveOf(Merge(it.Rest())), live)
      invariant forall i :: 0 <= i < |outs| ==> outs[i] != []
      invariant AllServe(tables, shapes, outs)
      decreases |Merge(it.Rest())|
    {
      builder, tables, shapes, outs := CompactOne(it, builder, tables, shapes, outs, live);
    }
    MergeEnds(it.Rest());
    tables, shapes, outs := CloseLast(builder, tables, shapes, outs, live);
  }

  /** After the loop: the builder still in use, if any, is closed too. */
  method CloseLast(builder: SSTableBuilder?, tables: seq<SSTable>, ghost shapes: seq<Shape>,
                   ghost outs: seq<Run>,
                   ghost live: seq<Entry>)
      returns (more: seq<SSTable>, ghost moreShapes: seq<Shape>, ghost moreOuts: seq<Run>)
    requires builder != null ==> InUse(builder)
    requires Accounts(Join(outs), Taken(builder), LiveOf([]), live)
    requires AllServe(tables, shapes, outs) && forall i :: 0 <= i < |outs| ==> outs[i] != []
    modifies builder
    ensures Join(moreOuts) == live && forall i :: 0 <= i < |moreOuts| ==> moreOuts[i] != []
    ensures AllServe(more, moreShapes, moreOuts)
  {
    hide LiveOf, Join, AllServe, Accounts, Source;
    more, moreShapes, moreOuts := tables, shapes, outs;
    AccountsClosed(Join(outs), Taken(builder), live);
    if builder != null {
      JoinAppend(outs, builder.added);
      moreOuts := outs + [builder.added];
      more, moreShapes := CloseOutput(builder, tables, shapes, outs);
    }
  }

  lemma NothingWritten(live: seq<Entry>)
    requires Ordered(live)
    ensures Accounts(Join([]), [], live, live)
    ensures AllServe([], [], [])
  {}

  method OpenMerge(inputs: seq<Run>) returns (it: MergeIterator)
    requires ShortTables(inputs)
    ensures fresh(it) && it.Stands() && it.Rest() == NumberedAll(inputs)
  {
    hide Numbered, Merge, LeastFrom;
    it := new MergeIterator(seq(|inputs|, i requires 0 <= i < |inputs| => Cursor(Numbered(inputs[i]), 0)));
    assert it.Rest() == NumberedAll(inputs);
  }

  lemma StandsAhead(it: MergeIterator)
    requires it.Stands() && it.IsValid()
    ensures Merge(it.Rest()) != [] && Merge(it.Rest())[0] == Entry(it.currentKey, it.currentValue)
  {
    hide Merge, LeastFrom;
    MergeUnfolds(it.Rest(), it.current.value);
  }
}
