/** Reading a table file (src/sstable.cc): Open and the two-stage search of Get. */
module Tables {
  import opened Slices
  import opened Coding
  import opened Entries
  import opened InternalKeys
  import opened TableFormat
  import opened TableBuilders
  import Checksum
  import BloomFilters

  datatype Status = Ok(value: Bytes) | NotFound | CorruptionError | IOError

  /** What the 32- and 64-bit fields of a file can describe. */
  ghost predicate TableFits(blocks: seq<seq<Entry>>, filter: Bytes)
  {
    && SmallBlocks(blocks)
    && (forall i :: 0 <= i < |blocks| ==> AllFit(blocks[i]))
    && |FileBytes(blocks, filter)| < U64
    && filter != [] && 8 * |filter| < U32
  }

  // ---- The index search, shared by Get and by the iterator's Seek ----

  /** Entries before block `i`. */
  ghost function Start(blocks: seq<seq<Entry>>, i: nat): nat
    requires i <= |blocks|
  {
    |Flatten(blocks[..i])|
  }

  /** `p` splits the flattened entries into those before the key and the rest. */
  ghost predicate Splits(blocks: seq<seq<Entry>>, key: Bytes, p: nat)
  {
    && p <= |Flatten(blocks)|
    && (forall i :: 0 <= i < p ==> Less(Flatten(blocks)[i].key, key))
    && (forall i :: p <= i < |Flatten(blocks)| ==> !Less(Flatten(blocks)[i].key, key))
  }

  lemma LastOfBlock(blocks: seq<seq<Entry>>, key: Bytes, p: nat, i: nat)
    requires SmallBlocks(blocks) && Splits(blocks, key, p) && i < |blocks|
    ensures Less(Last(blocks[i]).key, key) <==> Start(blocks, i + 1) <= p
    ensures Start(blocks, i + 1) == Start(blocks, i) + |blocks[i]| <= |Flatten(blocks)|
  {
    hide Less, Flatten;
    FlattenAt(blocks, i, |blocks[i]| - 1);
  }

  /** The block the index search must reach: the one that holds position `p`, or the last one. */
  ghost predicate HoldsPosition(blocks: seq<seq<Entry>>, p: nat, b: nat)
  {
    b < |blocks| && Start(blocks, b) <= p && (b + 1 < |blocks| ==> p < Start(blocks, b + 1))
  }

  ghost predicate IndexFor(index: seq<IndexEntry>, lookupKey: Bytes, blocks: seq<seq<Entry>>, p: nat)
  {
    SmallBlocks(blocks) && |index| == |blocks| && index == IndexOf(blocks) && Splits(blocks, lookupKey, p)
  }

  method FindBlock(index: seq<IndexEntry>, lookupKey: Bytes, ghost blocks: seq<seq<Entry>>,
                   ghost p: nat) returns (left: nat)
    requires index != []
    ensures left < |index|
    ensures IndexFor(index, lookupKey, blocks, p) ==> HoldsPosition(blocks, p, left)
  {
    hide Start, Compare, IndexFor;
    ghost var known := |index| == |blocks| && IndexFor(index, lookupKey, blocks, p);
    IndexForSize(index, lookupKey, blocks, p);
    StartZero(blocks);
    left := 0;
    var right := |index| - 1;
    while left < right
      invariant 0 <= left <= right < |index|
      invariant known ==> Start(blocks, left) <= p
      invariant known && right + 1 < |index| ==> p < Start(blocks, right + 1)
    {
      var mid := (left + right) / 2;
      if known { IndexStep(index, lookupKey, blocks, p, mid); }
      if Compare(index[mid].lastKey, lookupKey) < 0 {
        left := mid + 1;
      } else {
        right := mid;
      }
    }
  }

  lemma IndexForSize(index: seq<IndexEntry>, lookupKey: Bytes, blocks: seq<seq<Entry>>, p: nat)
    ensures IndexFor(index, lookupKey, blocks, p) ==> |index| == |blocks|
  {}

  /** One comparison of the index search tells on which side of a block's end the position lies. */
  lemma IndexStep(index: seq<IndexEntry>, lookupKey: Bytes, blocks: seq<seq<Entry>>, p: nat, mid: nat)
    requires IndexFor(index, lookupKey, blocks, p) && mid < |index|
    ensures mid < |blocks| && (Compare(index[mid].lastKey, lookupKey) < 0 <==> Start(blocks, mid + 1) <= p)
  {
    hide Less, Splits, Start, Compare;
    CompareIsLexicographic(index[mid].lastKey, lookupKey);
    LastOfBlock(blocks, lookupKey, p, mid);
  }

  lemma StartZero(blocks: seq<seq<Entry>>)
    ensures Start(blocks, 0) == 0
  {
    assert blocks[..0] == [];
  }

  lemma LowerBoundIs(s: seq<Entry>, key: Bytes, p: nat)
    requires p <= |s| && (forall i :: 0 <= i < p ==> Less(s[i].key, key)) && (p < |s| ==> !Less(s[p].key, key))
    ensures LowerBound(s, key) == p
  {}

  /** Within the block that the index search reached, the first entry that is not less is the one
      wanted from the whole table. */
  lemma PositionInBlock(blocks: seq<seq<Entry>>, key: Bytes, p: nat, b: nat)
    requires SmallBlocks(blocks) && Splits(blocks, key, p) && HoldsPosition(blocks, p, b)
    ensures LowerBound(blocks[b], key) == p - Start(blocks, b)
    ensures LowerBound(Flatten(blocks), key) == p
    ensures p < |Flatten(blocks)| <==> p - Start(blocks, b) < |blocks[b]|
    ensures p < |Flatten(blocks)| ==> Flatten(blocks)[p] == blocks[b][p - Start(blocks, b)]
  {
    hide Less, Flatten, LowerBound;
    var n := |blocks[b]|;
    LastOfBlock(blocks, key, p, b);
    if b + 1 == |blocks| { assert blocks[..b + 1] == blocks; }
    forall j | 0 <= j < n
      ensures Flatten(blocks)[Start(blocks, b) + j] == blocks[b][j]
    {
      FlattenAt(blocks, b, j);
    }
    LowerBoundIs(blocks[b], key, p - Start(blocks, b));
    LowerBoundIs(Flatten(blocks), key, p);
  }

  /** The hypotheses under which a table answers like its list of entries. */
  ghost predicate Sound(blocks: seq<seq<Entry>>, filter: Bytes, es: seq<Entry>)
  {
    TableOf(blocks, filter, es) && TableFits(blocks, filter) && UserSorted(es) && PlainEntries(es)
  }

  lemma TableSplits(blocks: seq<seq<Entry>>, filter: Bytes, es: seq<Entry>, u: Bytes)
    requires Sound(blocks, filter, es) && Plain(u)
    ensures Splits(blocks, MakeLookupKey(u), LowerBound(Flatten(blocks), MakeLookupKey(u)))
    ensures FindVersion(Flatten(blocks), u) == Lookup(es, u)
  {
    hide Less, MakeLookupKey, LowerBound, Lookup, FindVersion, Version, Plain, Flatten;
    FindVersionIsLookup(es, u);
    var s := Numbered(es);
    var p := LowerBound(s, MakeLookupKey(u));
    forall i | p <= i < |s|
      ensures !Less(s[i].key, MakeLookupKey(u))
    {
      VersionAgainstLookup(es, i, u);
    }
  }

  // ---- Search inside a block ----

  function BlockSearch(es: seq<Entry>, u: Bytes): Status
  {
    match FindVersion(es, u) case Some(v) => Ok(v) case None => NotFound
  }

  /** The first entry that is not less than the lookup key has a user key that is not less than `u`. */
  ghost predicate ScanOrdered(es: seq<Entry>, u: Bytes)
  {
    var p := LowerBound(es, MakeLookupKey(u));
    p < |es| ==> !Less(ExtractUserKey(es[p].key), u)
  }

  lemma DataBlockParts(es: seq<Entry>)
    requires |es| <= 4096
    ensures |DataBlock(es)| >= 8 && SealHolds(DataBlock(es)) && EntriesEnd(DataBlock(es)) == |EncodeEntries(es)|
    ensures |EncodeEntries(es)| <= |DataBlock(es)|
  {
    hide EncodeEntries, Restarts, Checksum.Crc32;
    RestartCount(es);
    BlockParts(es, Restarts(es));
  }

  /** The entry a scan meets after `i` others. */
  lemma EntryInBlock(es: seq<Entry>, i: nat)
    requires i <= |es|
    ensures i < |es| ==> Coding.At(DataBlock(es), |EncodeEntries(es[..i])|, EncodeEntry(es[i]))
    ensures i < |es| ==> |EncodeEntries(es[..i])| + |EncodeEntry(es[i])| == |EncodeEntries(es[..i + 1])| <= |EncodeEntries(es)|
    ensures i == |es| ==> |EncodeEntries(es[..i])| == |EncodeEntries(es)|
  {
    hide EncodeEntries, EncodeEntry, Block, Restarts;
    if i < |es| {
      BlockEntry(es, Restarts(es), i);
    } else {
      assert es[..i] == es;
    }
  }

  lemma NoEntries()
    ensures EncodeEntries([]) == []
  {}

  lemma LookupUserKey(u: Bytes)
    ensures ExtractUserKey(MakeLookupKey(u)) == u
  {
    InternalKeyRoundTrip(u, MAX_SEQUENCE, Deletion);
  }

  /** BinarySearchInBlock, which scans entry by entry. */
  method BinarySearchInBlock(block: Bytes, lookupKey: Bytes, ghost es: seq<Entry>, ghost u: Bytes) returns (r: Status)
    ensures |block| < 8 ==> r == NotFound
    ensures |block| >= 8 && !SealHolds(block) ==> r == CorruptionError
    ensures block == DataBlock(es) && AllFit(es) && |es| <= 4096 && lookupKey == MakeLookupKey(u) && ScanOrdered(es, u)
            ==> r == BlockSearch(es, u)
  {
    hide Less, Compare, EncodeEntries, EncodeEntry, LowerBound, DataBlock, Checksum.Crc32, Checksum.ToNat, Checksum.Xor,
      Checksum.BitSerial, DecodeFixed, MakeLookupKey, ExtractUserKey, Fits;
    ghost var known := block == DataBlock(es) && AllFit(es) && |es| <= 4096 && lookupKey == MakeLookupKey(u) && ScanOrdered(es, u);
    if known { DataBlockParts(es); LookupUserKey(u); LessIrreflexive(u); }
    if |block| < 8 { return NotFound; }
    var crc := Checksum.ComputeCrc32(block[..|block| - 4]);
    if DecodeFixed(block[|block| - 4..]) != crc { return CorruptionError; }
    var end := EntriesEnd(block);
    var limit: nat := if end < 0 then 0 else end;
    var target := ExtractUserKey(lookupKey);
    var p: nat := 0;
    ghost var i: nat := 0;
    assert EncodeEntries([]) == [] by { NoEntries(); }
    while p < limit
      invariant known ==> i <= |es| && p == |EncodeEntries(es[..i])|
      invariant known ==> forall j :: 0 <= j < i ==> Less(es[j].key, lookupKey)
      decreases limit - p
    {
      if known { EntryInBlock(es, i); }
      var entry := ParseEntry(block, p, limit);
      if entry == None { break; }
      p := entry.value.1;
      var e := entry.value.0;
      CompareIsLexicographic(e.key, lookupKey);
      if Compare(e.key, lookupKey) < 0 {
        i := i + 1;
        continue;
      }
      if known { LowerBoundIs(es, lookupKey, i); }
      CompareIsLexicographic(ExtractUserKey(e.key), target);
      var userCmp := Compare(ExtractUserKey(e.key), target);
      if userCmp == 0 { return Ok(e.value); }
      if userCmp > 0 { break; }
      i := i + 1;
    }
    if known {
      EntryInBlock(es, i);
      if i == |es| { LowerBoundIs(es, lookupKey, i); }
    }
    r := NotFound;
  }

  // ---- Opening ----

  function PRead(file: Bytes, offset: nat, size: nat): Option<Bytes>
  {
    if offset + size <= |file| then Some(file[offset..offset + size]) else None
  }

  ghost predicate IndexFits(idx: seq<IndexEntry>)
  {
    forall i :: 0 <= i < |idx| ==> |idx[i].lastKey| < U32 && idx[i].offset < U64 && idx[i].size < U64
  }

  ghost function HandleEntries(idx: seq<IndexEntry>): (es: seq<Entry>)
    ensures |es| == |idx|
  {
    seq(|idx|, i requires 0 <= i < |idx| => HandleEntry(idx[i]))
  }

  lemma IndexBlockParts(idx: seq<IndexEntry>)
    ensures var b := IndexBlock(idx);
            && |b| >= 8 && SealHolds(b) && EntriesEnd(b) == |EncodeEntries(HandleEntries(idx))| <= |b|
  {
    hide EncodeEntries, Checksum.Crc32, HandleEntry;
    BlockParts(HandleEntries(idx), if idx == [] then [] else [0]);
  }

  lemma IndexEntryAt(idx: seq<IndexEntry>, i: nat)
    requires i <= |idx| && IndexFits(idx)
    ensures var es := HandleEntries(idx);
            i < |idx| ==> Coding.At(IndexBlock(idx), |EncodeEntries(es[..i])|, EncodeEntry(es[i])) && Fits(es[i])
    ensures var es := HandleEntries(idx);
            i < |idx| ==> |EncodeEntries(es[..i])| + |EncodeEntry(es[i])| == |EncodeEntries(es[..i + 1])| <= |EncodeEntries(es)|
    ensures var es := HandleEntries(idx);
            i == |idx| ==> |EncodeEntries(es[..i])| == |EncodeEntries(es)|
  {
    hide EncodeEntries, EncodeEntry, Block, Varint;
    var es := HandleEntries(idx);
    if i < |idx| {
      BlockEntry(es, [0], i);
      HandleFits(idx[i]);
    } else {
      assert es[..i] == es;
    }
  }

  lemma HandleFits(e: IndexEntry)
    requires |e.lastKey| < U32 && e.offset < U64 && e.size < U64
    ensures Fits(HandleEntry(e))
  {
    VarintSize(e.offset, 10);
    VarintSize(e.size, 10);
    assert Pow128(2) == 0x4000; assert Pow128(4) == 0x1000_0000; assert Pow128(6) == 0x400_0000_0000;
    assert Pow128(8) == 0x100_0000_0000_0000; assert Pow128(10) == 0x40_0000_0000_0000_0000;
  }

  /** The index-parsing loop of Open. */
  method ParseIndex(data: Bytes, limit: nat, ghost idx: seq<IndexEntry>) returns (index: seq<IndexEntry>)
    requires limit <= |data|
    ensures data == IndexBlock(idx) && IndexFits(idx) && limit == |EncodeEntries(HandleEntries(idx))| ==> index == idx
  {
    hide EncodeEntries, EncodeEntry, IndexBlock, ReadVarint, Varint, Fits;
    ghost var known := data == IndexBlock(idx) && IndexFits(idx) && limit == |EncodeEntries(HandleEntries(idx))|;
    ghost var es := HandleEntries(idx);
    index := [];
    var p: nat := 0;
    NoEntries();
    while p < limit
      invariant known ==> |index| <= |idx| && index == idx[..|index|] && p == |EncodeEntries(es[..|index|])|
      decreases limit - p
    {
      if known { IndexEntryAt(idx, |index|); }
      var entry := ParseEntry(data, p, limit);
      if entry == None { break; }
      if known { HandleBack(idx[|index|]); }
      var handle := entry.value.0.value;
      var offset := VarintDecode(handle, 0, U64);
      if offset == None { break; }
      var size := VarintDecode(handle, offset.value.1, U64);
      if size == None { break; }
      p := entry.value.1;
      index := index + [IndexEntry(entry.value.0.key, offset.value.0, size.value.0)];
    }
    if known { IndexEntryAt(idx, |index|); }
  }

  lemma HandleBack(e: IndexEntry)
    ensures var h := HandleEntry(e).value;
            && HandleEntry(e).key == e.lastKey
            && ReadVarint(h, 0) == Some((e.offset, |Varint(e.offset)|))
            && ReadVarint(h, |Varint(e.offset)|) == Some((e.size, |h|))
    ensures e.offset < U64 ==> e.offset % U64 == e.offset
    ensures e.size < U64 ==> e.size % U64 == e.size
  {
    hide Varint, ReadVarint;
    HandleParts(e);
  }

  /** The first key, read from the first entry of the first block. */
  method ParseFirstKey(block: Bytes, ghost es: seq<Entry>) returns (key: Bytes)
    ensures block == DataBlock(es) && es != [] && Fits(es[0]) ==> key == es[0].key
  {
    hide EncodeEntries, EncodeEntry, DataBlock, ReadVarint;
    if block == DataBlock(es) && es != [] {
      EntryInBlock(es, 0);
      FirstEntryAt(es);
    }
    key := [];
    if |block| > 4 {
      var shared := VarintDecode(block, 0, U32);
      if shared != None && shared.value.1 < |block| {
        var keyLen := VarintDecode(block, shared.value.1, U32);
        if keyLen != None && keyLen.value.1 + keyLen.value.0 <= |block| {
          key := block[keyLen.value.1..keyLen.value.1 + keyLen.value.0];
        }
      }
    }
  }

  lemma FirstEntryAt(es: seq<Entry>)
    requires es != []
    ensures EntryAt(DataBlock(es), 0, es[0]) && |DataBlock(es)| > 4
  {
    hide EncodeEntries, EncodeEntry, DataBlock, ReadVarint;
    EntryInBlock(es, 0);
    NoEntries();
    assert es[..0] == [];
    EntryParts(DataBlock(es), 0, es[0]);
    BlockLength(es);
  }

  lemma BlockLength(es: seq<Entry>)
    ensures |DataBlock(es)| >= 8
  {}

  datatype OpenStatus = OpenOk | OpenCorruption | OpenIOError

  ghost function FirstKeyOf(blocks: seq<seq<Entry>>): Bytes
  {
    if blocks == [] || blocks[0] == [] then [] else blocks[0][0].key
  }

  ghost function LastKeyOf(blocks: seq<seq<Entry>>): Bytes
  {
    if blocks == [] || blocks[|blocks| - 1] == [] then [] else Last(blocks[|blocks| - 1]).key
  }

  /** `file` is a well-formed table with these blocks and filter bits. */
  ghost predicate IsTable(file: Bytes, blocks: seq<seq<Entry>>, filter: Bytes)
  {
    TableFits(blocks, filter) && file == FileBytes(blocks, filter)
  }

  /** The four numbers of the footer, when the file is long enough and ends with the magic number. */
  method ReadFooter(file: Bytes) returns (status: OpenStatus, indexOffset: nat, indexSize: nat, bloomOffset: nat, bloomSize: nat)
    ensures |file| < 48 ==> status == OpenCorruption
    ensures forall a: nat, b: nat, c: nat, d: nat ::
              |file| >= 48 && a < U64 && b < U64 && c < U64 && d < U64 && file[|file| - 48..] == Footer(a, b, c, d)
              ==> status == OpenOk && indexOffset == a && indexSize == b && bloomOffset == c && bloomSize == d
    ensures |file| >= 48 && DecodeFixed(file[|file| - 16..|file| - 8]) != 0x4C53_4D54 ==> status == OpenCorruption
  {
    hide Footer, DecodeFixed;
    indexOffset, indexSize, bloomOffset, bloomSize := 0, 0, 0, 0;
    if |file| < 48 { return OpenCorruption, 0, 0, 0, 0; }
    var footer := file[|file| - 48..];
    assert footer[32..40] == file[|file| - 16..|file| - 8];
    forall a: nat, b: nat, c: nat, d: nat | a < U64 && b < U64 && c < U64 && d < U64 && footer == Footer(a, b, c, d)
      ensures DecodeFixed(footer[..8]) == a && DecodeFixed(footer[8..16]) == b && DecodeFixed(footer[16..24]) == c
      ensures DecodeFixed(footer[24..32]) == d && DecodeFixed(footer[32..40]) == MAGIC
    {
      FooterParts(a, b, c, d);
    }
    if DecodeFixed(footer[32..40]) != MAGIC { return OpenCorruption, 0, 0, 0, 0; }
    status := OpenOk;
    indexOffset, indexSize := DecodeFixed(footer[..8]), DecodeFixed(footer[8..16]);
    bloomOffset, bloomSize := DecodeFixed(footer[16..24]), DecodeFixed(footer[24..32]);
  }

  /** Reading, checking and parsing the index block. */
  method ReadIndex(file: Bytes, offset: nat, size: nat, ghost idx: seq<IndexEntry>)
      returns (status: OpenStatus, index: seq<IndexEntry>)
    ensures PRead(file, offset, size) == Some(IndexBlock(idx)) && IndexFits(idx) ==> status == OpenOk && index == idx
    ensures PRead(file, offset, size) == None ==> status == OpenIOError
    ensures PRead(file, offset, size).Some? && !SealHolds(PRead(file, offset, size).value) ==> status == OpenCorruption
  {
    hide IndexBlock, IndexFits, Checksum.Crc32, Checksum.ToNat, Checksum.Xor, Checksum.BitSerial, DecodeFixed,
      EncodeEntries, HandleEntry, Varint;
    IndexBlockParts(idx);
    index := [];
    var read := PRead(file, offset, size);
    if read == None { return OpenIOError, []; }
    var data := read.value;
    if size < 8 { return OpenCorruption, []; }
    var crc := Checksum.ComputeCrc32(data[..|data| - 4]);
    if DecodeFixed(data[|data| - 4..]) != crc { return OpenCorruption, []; }
    var end := EntriesEnd(data);
    index := ParseIndex(data, if end < 0 then 0 else end, idx);
    status := OpenOk;
  }

  /** Reading and checking the filter; a damaged or missing filter is ignored. */
  method ReadBloom(file: Bytes, offset: nat, size: nat, bloom: BloomFilters.BloomFilter, ghost filter: Bytes)
      returns (hasBloom: bool)
    modifies bloom
    ensures PRead(file, offset, size) == Some(BloomBlock(filter))
            ==> hasBloom && bloom.bits == filter && bloom.k == BloomFilters.Probes(BITS_PER_KEY)
  {
    hide Checksum.Crc32, Checksum.ToNat, Checksum.Xor, Checksum.BitSerial, DecodeFixed,
      BloomFilters.ParseFilter, BloomBlock;
    hasBloom := false;
    BloomSealed(filter);
    if size > 0 {
      var read := PRead(file, offset, size);
      if read != None && |read.value| > 4 {
        var data := read.value;
        var crc := Checksum.ComputeCrc32(data[..|data| - 4]);
        if DecodeFixed(data[|data| - 4..]) == crc {
          var ok := bloom.Decode(data[..|data| - 4]);
          hasBloom := true;
        }
      }
    }
  }

  lemma BloomSealed(filter: Bytes)
    ensures var b, k := BloomBlock(filter), BloomFilters.Probes(BITS_PER_KEY);
            && |b| > 4 && SealHolds(b)
            && BloomFilters.ParseFilter(b[..|b| - 4]) == Some(BloomFilters.Parameters(BITS_PER_KEY, k, filter))
  {
    hide Checksum.Crc32, BloomFilters.FilterBytes, BloomFilters.ParseFilter;
    SealParts(BloomFilters.FilterBytes(BITS_PER_KEY, BloomFilters.Probes(BITS_PER_KEY), filter));
    BloomFilters.FilterRoundTrip(BITS_PER_KEY, BloomFilters.Probes(BITS_PER_KEY), filter);
    FilterNotEmpty(filter);
  }

  lemma FilterNotEmpty(filter: Bytes)
    ensures |BloomFilters.FilterBytes(BITS_PER_KEY, BloomFilters.Probes(BITS_PER_KEY), filter)| > 4
  {}

  /** Where the parts of a well-formed file lie. */
  lemma TableParts(file: Bytes, blocks: seq<seq<Entry>>, filter: Bytes)
    requires IsTable(file, blocks, filter)
    ensures var d, x, b := |DataBytes(blocks)|, |IndexBlock(IndexOf(blocks))|, |BloomBlock(filter)|;
            && |file| >= 48 && d < U64 && x < U64 && d + x < U64 && b < U64
            && file[|file| - 48..] == Footer(d, x, d + x, b)
            && PRead(file, d, x) == Some(IndexBlock(IndexOf(blocks)))
            && PRead(file, d + x, b) == Some(BloomBlock(filter))
    ensures NonEmptyBlocks(blocks) && IndexFits(IndexOf(blocks))
  {
    hide DataBytes, IndexBlock, BloomBlock, Footer, FileBytes, DataBlock;
    FileParts(blocks, filter);
    forall i | 0 <= i < |blocks|
      ensures IndexOf(blocks)[i].offset < U64 && IndexOf(blocks)[i].size < U64 && |IndexOf(blocks)[i].lastKey| < U32
    {
      BlockAt(blocks, filter, i);
    }
  }

  lemma TableIndex(file: Bytes, blocks: seq<seq<Entry>>, filter: Bytes)
    requires IsTable(file, blocks, filter)
    ensures NonEmptyBlocks(blocks)
    ensures forall i :: 0 <= i < |blocks| ==>
              PRead(file, IndexOf(blocks)[i].offset, IndexOf(blocks)[i].size) == Some(DataBlock(blocks[i]))
              && IndexOf(blocks)[i].lastKey == Last(blocks[i]).key && AllFit(blocks[i]) && 0 < |blocks[i]| <= 4096
  {
    hide DataBytes, FileBytes, DataBlock, AllFit;
    forall i | 0 <= i < |blocks|
      ensures PRead(file, IndexOf(blocks)[i].offset, IndexOf(blocks)[i].size) == Some(DataBlock(blocks[i]))
    {
      BlockAt(blocks, filter, i);
    }
  }

  /** first_key_ and last_key_. */
  method EndKeys(file: Bytes, index: seq<IndexEntry>, ghost blocks: seq<seq<Entry>>, ghost filter: Bytes)
      returns (firstKey: Bytes, lastKey: Bytes)
    ensures IsTable(file, blocks, filter) && NonEmptyBlocks(blocks) && index == IndexOf(blocks)
            ==> firstKey == FirstKeyOf(blocks) && lastKey == LastKeyOf(blocks)
  {
    hide DataBytes, FileBytes, DataBlock, PRead, TableFits;
    ghost var known := IsTable(file, blocks, filter) && NonEmptyBlocks(blocks) && index == IndexOf(blocks);
    if known { TableIndex(file, blocks, filter); }
    firstKey, lastKey := [], [];
    if index != [] {
      var first := PRead(file, index[0].offset, index[0].size);
      if first != None {
        firstKey := ParseFirstKey(first.value, if known then blocks[0] else []);
      }
      lastKey := index[|index| - 1].lastKey;
    }
  }

  class SSTable {
    const file: Bytes
    const index: seq<IndexEntry>
    const bloom: BloomFilters.BloomFilter
    const hasBloom: bool
    const firstKey: Bytes
    const lastKey: Bytes

    constructor (file: Bytes, index: seq<IndexEntry>, bloom: BloomFilters.BloomFilter, hasBloom: bool, firstKey: Bytes, lastKey: Bytes)
      ensures this.file == file && this.index == index && this.bloom == bloom && this.hasBloom == hasBloom
      ensures this.firstKey == firstKey && this.lastKey == lastKey
    {
      this.file, this.index, this.bloom, this.hasBloom := file, index, bloom, hasBloom;
      this.firstKey, this.lastKey := firstKey, lastKey;
    }

    /** The open table stands for these blocks and filter bits. */
    ghost predicate Shows(blocks: seq<seq<Entry>>, filter: Bytes)
      reads bloom
    {
      && IsTable(file, blocks, filter) && index == IndexOf(blocks)
      && hasBloom && bloom.bits == filter && bloom.k == BloomFilters.Probes(BITS_PER_KEY)
      && firstKey == FirstKeyOf(blocks) && lastKey == LastKeyOf(blocks)
    }

    /** Open. */
    static method Open(file: Bytes, ghost blocks: seq<seq<Entry>>,
                       ghost filter: Bytes) returns (status: OpenStatus, table: SSTable?)
      ensures status == OpenOk <==> table != null
      ensures |file| < 48 ==> status == OpenCorruption
      ensures |file| >= 48 && DecodeFixed(file[|file| - 16..|file| - 8]) != 0x4C53_4D54 ==> status == OpenCorruption
      ensures IsTable(file, blocks, filter) ==> status == OpenOk && table.Shows(blocks, filter)
      ensures table != null ==> fresh(table) && fresh(table.bloom)
    {
      hide DataBytes, IndexBlock, BloomBlock, Footer, FileBytes, DecodeFixed, TableFits, PRead, IndexFits, IndexOf, FirstKeyOf,
        LastKeyOf, IsTable, BloomFilters.Probes;
      ghost var known := IsTable(file, blocks, filter);
      if known { TableParts(file, blocks, filter); }
      table := null;
      var indexOffset, indexSize, bloomOffset, bloomSize;
      status, indexOffset, indexSize, bloomOffset, bloomSize := ReadFooter(file);
      if status != OpenOk { return; }
      var index;
      status, index := ReadIndex(file, indexOffset, indexSize, if known then IndexOf(blocks) else []);
      if status != OpenOk { return; }
      var firstKey, lastKey := EndKeys(file, index, blocks, filter);
      var bloom := new BloomFilters.BloomFilter(10);
      var hasBloom := ReadBloom(file, bloomOffset, bloomSize, bloom, filter);
      table := new SSTable(file, index, bloom, hasBloom, firstKey, lastKey);
    }

    method ReadBlock(offset: nat, size: nat) returns (r: Option<Bytes>)
      ensures r == PRead(file, offset, size)
    {
      r := PRead(file, offset, size);
    }

    /** Get: filter, index search, block scan. On a table built from sorted plain entries it returns the value
        of the first entry added for the key, or NotFound when there is none. */
    method Get(u: Bytes, ghost blocks: seq<seq<Entry>>, ghost filter: Bytes, ghost es: seq<Entry>) returns (r: Status)
      requires 8 * |bloom.bits| < U32
      ensures Shows(blocks, filter) && Sound(blocks, filter, es) && Plain(u)
              ==> r == match Lookup(es, u) case Some(v) => Ok(v) case None => NotFound
    {
      hide BloomFilters.Covers, IsTable, IndexOf, TableOf, TableFits, Less, MakeLookupKey, LowerBound, Lookup,
        FindVersion, Plain, Flatten, Splits, DataBlock, PRead, FirstKeyOf, LastKeyOf, UserSorted, PlainEntries,
        Numbered, HoldsPosition, ScanOrdered;
      ghost var known := Shows(blocks, filter) && Sound(blocks, filter, es) && Plain(u);
      if known { IndexLength(file, blocks, filter); }
      if hasBloom {
        var may := bloom.MayContain(u);
        if known && !may { FilterRulesOut(blocks, filter, es, u); }
        if !may { return NotFound; }
      }
      if index == [] {
        if known { EmptyTable(blocks, filter, es, u); }
        return NotFound;
      }
      var lookupKey := MakeLookupKey(u);
      ghost var p := LowerBound(Flatten(blocks), lookupKey);
      if known { SearchApplies(file, index, blocks, filter, es, u); }
      var left := FindBlock(index, lookupKey, blocks, p);
      var block := ReadBlock(index[left].offset, index[left].size);
      if known { SearchEndsRight(file, index, blocks, filter, es, u, left); }
      if block == None { return IOError; }
      r := BinarySearchInBlock(block.value, lookupKey, if known then blocks[left] else [], u);
    }
  }

  lemma IndexLength(file: Bytes, blocks: seq<seq<Entry>>, filter: Bytes)
    requires IsTable(file, blocks, filter)
    ensures NonEmptyBlocks(blocks) && |IndexOf(blocks)| == |blocks| && filter != []
  {}

  lemma FilterRulesOut(blocks: seq<seq<Entry>>, filter: Bytes, es: seq<Entry>, u: Bytes)
    requires Sound(blocks, filter, es)
    requires !BloomFilters.Covers(filter, BloomFilters.Probes(BITS_PER_KEY), u)
    ensures Lookup(es, u) == None
  {
    hide BloomFilters.Covers, BloomFilters.Holds, Lookup;
    if Lookup(es, u).Some? {
      var n := LookupFinds(es, u);
      assert UserKeys(es)[n] == u;
      BloomFilters.HeldKeysAreCovered(filter, BloomFilters.Probes(BITS_PER_KEY), UserKeys(es), n);
    }
  }

  lemma EmptyTable(blocks: seq<seq<Entry>>, filter: Bytes, es: seq<Entry>, u: Bytes)
    requires Sound(blocks, filter, es) && blocks == []
    ensures Lookup(es, u) == None
  {
    assert |es| == |Flatten([])| == 0;
  }

  lemma SearchApplies(file: Bytes, index: seq<IndexEntry>, blocks: seq<seq<Entry>>, filter: Bytes, es: seq<Entry>, u: Bytes)
    requires IsTable(file, blocks, filter) && NonEmptyBlocks(blocks) && index == IndexOf(blocks)
    requires Sound(blocks, filter, es) && Plain(u)
    ensures IndexFor(index, MakeLookupKey(u), blocks, LowerBound(Flatten(blocks), MakeLookupKey(u)))
  {
    hide Less, MakeLookupKey, LowerBound, Splits, Plain, Flatten, FileBytes;
    TableSplits(blocks, filter, es, u);
  }

  lemma SearchEndsRight(file: Bytes, index: seq<IndexEntry>, blocks: seq<seq<Entry>>, filter: Bytes,
                        es: seq<Entry>, u: Bytes, b: nat)
    requires IsTable(file, blocks, filter) && NonEmptyBlocks(blocks) && index == IndexOf(blocks)
    requires Sound(blocks, filter, es) && Plain(u)
    requires HoldsPosition(blocks, LowerBound(Flatten(blocks), MakeLookupKey(u)), b)
    ensures b < |index| && PRead(file, index[b].offset, index[b].size) == Some(DataBlock(blocks[b]))
    ensures AllFit(blocks[b]) && |blocks[b]| <= 4096 && ScanOrdered(blocks[b], u)
    ensures BlockSearch(blocks[b], u) == match Lookup(es, u) case Some(v) => Ok(v) case None => NotFound
  {
    hide Less, MakeLookupKey, LowerBound, Plain, Flatten, FileBytes, DataBlock, PRead, ExtractUserKey, Version,
      Lookup;
    TableIndex(file, blocks, filter);
    TableSplits(blocks, filter, es, u);
    var p := LowerBound(Flatten(blocks), MakeLookupKey(u));
    PositionInBlock(blocks, MakeLookupKey(u), p, b);
    FindVersionIsLookup(es, u);
    if p < |es| { VersionAgainstLookup(es, p, u); }
  }
}
