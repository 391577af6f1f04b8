/** Building a table file (src/sstable_builder.cc). */
module TableBuilders {
  import opened Slices
  import opened Coding
  import opened Entries
  import opened InternalKeys
  import opened TableFormat
  import Checksum
  import BloomFilters

  function UserKeys(es: seq<Entry>): seq<Bytes>
  {
    seq(|es|, i requires 0 <= i < |es| => es[i].key)
  }

  /** Few enough entries for their restart count to be stored: 4096 small entries, or one of any size. */
  ghost predicate SmallBlocks(blocks: seq<seq<Entry>>)
  {
    forall i :: 0 <= i < |blocks| ==> 0 < |blocks[i]| <= 4096
  }

  /** `blocks` and `filter` describe a table to which `es` were added. */
  ghost predicate TableOf(blocks: seq<seq<Entry>>, filter: Bytes, es: seq<Entry>)
  {
    && SmallBlocks(blocks)
    && |es| <= MAX_SEQUENCE && Flatten(blocks) == Numbered(es)
    && filter != [] && |filter| == BloomFilters.FilterSize(|es|, BITS_PER_KEY)
    && BloomFilters.Holds(filter, BloomFilters.Probes(BITS_PER_KEY), UserKeys(es))
  }

  lemma NumberedAppend(es: seq<Entry>, e: Entry)
    requires |es| < MAX_SEQUENCE
    ensures Numbered(es + [e]) == Numbered(es) + [Entry(MakeInternalKey(e.key, |es| + 1, TypeOf(e.value)), e.value)]
    ensures UserKeys(es + [e]) == UserKeys(es) + [e.key]
  {
    hide MakeInternalKey;
  }

  class SSTableBuilder {
    const blockSize: nat := 4096
    var file: Bytes
    var block: Bytes
    var entryCount: nat
    var restartOffsets: seq<nat>
    var lastKeyInBlock: Bytes
    var blockInfos: seq<IndexEntry>
    var keys: seq<Bytes>
    var numEntries: nat
    var fileSize: nat
    var finished: bool
    var builderSeq: nat
    ghost var added: seq<Entry>
    ghost var blocks: seq<seq<Entry>>
    ghost var pending: seq<Entry>

    ghost predicate Valid()
      reads this
    {
      && !finished
      && |added| == builderSeq == numEntries <= MAX_SEQUENCE && keys == UserKeys(added)
      && Flatten(blocks) + pending == Numbered(added)
      && BlocksWritten()
      && BlockOpen()
    }

    ghost predicate BlocksWritten()
      reads this`blocks, this`file, this`fileSize, this`blockInfos
    {
      SmallBlocks(blocks) && file == DataBytes(blocks) && fileSize == |file| && blockInfos == IndexOf(blocks)
    }

    ghost predicate BlockOpen()
      reads this`block, this`entryCount, this`restartOffsets, this`lastKeyInBlock, this`pending
    {
      && block == EncodeEntries(pending) && entryCount == |pending| && restartOffsets == Restarts(pending)
      && (pending != [] ==> lastKeyInBlock == Last(pending).key)
      && (|pending| <= 1 || 3 * |pending| <= |block| <= blockSize)
    }

    constructor ()
      ensures Valid() && added == []
    {
      file, block, entryCount, restartOffsets, lastKeyInBlock := [], [], 0, [], [];
      blockInfos, keys, numEntries, fileSize, finished, builderSeq := [], [], 0, 0, false, 0;
      added, blocks, pending := [], [], [];
    }

    /** Add: encodes the entry, first cutting the current block if the entry would overfill it. */
    method Add(userKey: Bytes, value: Bytes)
      requires Valid() && |added| < MAX_SEQUENCE && |userKey| + 8 < U32 && |value| < U32
      modifies this
      ensures Valid() && added == old(added) + [Entry(userKey, value)]
    {
      hide MakeInternalKey, Varint, EncodeEntry, EncodeEntries, Flatten, UserKeys, Numbered, BlockOpen,
        BlocksWritten, Varint32Length, TypeOf;
      builderSeq := builderSeq + 1;
      var ik := MakeInternalKey(userKey, builderSeq, TypeOf(value));
      NumberedAppend(added, Entry(userKey, value));
      var entrySize := Varint32Length(0) + Varint32Length(|ik|) + |ik| + Varint32Length(|value|) + |value|;
      EntrySize(Entry(ik, value));
      MakeRoom(entrySize);
      assert Flatten(blocks) + (pending + [Entry(ik, value)]) == Flatten(blocks) + pending + [Entry(ik, value)];
      AppendEntry(ik, value);
      keys := keys + [userKey];
      numEntries := numEntries + 1;
      added := added + [Entry(userKey, value)];
    }

    /** The cut in the middle of Add. */
    method MakeRoom(entrySize: nat)
      requires BlocksWritten() && BlockOpen()
      modifies this`file, this`fileSize, this`blockInfos, this`block, this`restartOffsets, this`entryCount, this`blocks, this`pending
      ensures BlocksWritten() && BlockOpen() && Flatten(blocks) + pending == old(Flatten(blocks) + pending)
      ensures if old(|block|) + entrySize > blockSize && old(pending) != []
              then pending == [] && blocks == old(blocks) + [old(pending)]
              else pending == old(pending) && blocks == old(blocks) && block == old(block)
    {
      hide EncodeEntries, Restarts, Flatten, BlocksWritten, Last;
      if |block| + entrySize > blockSize && entryCount > 0 {
        FlushBlock();
        FlattenNone(blocks);
      }
    }

    /** The encoding half of Add. */
    method AppendEntry(ik: Bytes, value: Bytes)
      requires BlockOpen() && |ik| < U32 && |value| < U32
      requires pending == [] || |block| + |EncodeEntry(Entry(ik, value))| <= blockSize
      modifies this`block, this`entryCount, this`restartOffsets, this`lastKeyInBlock, this`pending
      ensures BlockOpen() && pending == old(pending) + [Entry(ik, value)]
    {
      hide Varint;
      ghost var was := pending;
      if entryCount % 16 == 0 {
        restartOffsets := restartOffsets + [|block|];
      }
      var shared := VarintEncode(0);
      var keyLen := VarintEncode(|ik|);
      var valueLen := VarintEncode(|value|);
      EntryShape(ik, value);
      block := block + (shared + keyLen + ik + valueLen + value);
      lastKeyInBlock := ik;
      entryCount := entryCount + 1;
      pending := pending + [Entry(ik, value)];
      assert pending[..|pending| - 1] == was;
    }

    /** FlushBlock: writes the block with its restart array, count and checksum. */
    method FlushBlock()
      requires BlocksWritten() && BlockOpen()
      modifies this`file, this`fileSize, this`blockInfos, this`block, this`restartOffsets, this`entryCount, this`blocks, this`pending
      ensures BlocksWritten() && BlockOpen() && pending == []
      ensures Flatten(blocks) == old(Flatten(blocks) + pending)
      ensures blocks == if old(pending) == [] then old(blocks) else old(blocks) + [old(pending)]
    {
      hide EncodeEntries, DataBytes, Restarts, DataBlock, SmallBlocks, IndexOf, Flatten, Last, Seal, EncodeOffsets,
        EncodeFixed32;
      FlattenNone(blocks);
      if entryCount == 0 { return; }
      var image := BlockImage(block, restartOffsets);
      BlocksAppend(blocks, pending);
      BlockIsDataBlock(pending);
      var size := |block| + |restartOffsets| * 4 + 4 + 4;
      blockInfos := blockInfos + [IndexEntry(lastKeyInBlock, fileSize, size)];
      file := file + image;
      fileSize := fileSize + size;
      blocks := blocks + [pending];
      block, restartOffsets, entryCount, pending := [], [], 0, [];
      EmptyBlock();
      FlattenNone(blocks);
    }

    /** Finish: the last block, the index, the filter and the footer. */
    method Finish() returns (ghost filter: Bytes)
      requires finished || (Valid() && 8 * BloomFilters.FilterSize(|added|, BITS_PER_KEY) < U32)
      modifies this
      ensures finished && added == old(added)
      ensures old(finished) ==> file == old(file) && fileSize == old(fileSize)
      ensures !old(finished) ==> TableOf(blocks, filter, added) && file == FileBytes(blocks, filter) && fileSize == |file|
    {
      hide DataBytes, IndexBlock, IndexOf, BloomFilters.FilterBytes, BloomFilters.Holds, Flatten, Numbered, Footer,
        BlockOpen, FileBytes, Seal;
      filter := [];
      if finished { return; }
      finished := true;
      FlushBlock();
      FlattenNone(blocks);
      var index := BuildIndex(blockInfos);
      var bloom;
      bloom, filter := BuildBloom(keys);
      FileShape(blocks, filter);
      file := file + index + bloom + Footer(fileSize, |index|, fileSize + |index|, |bloom|);
      fileSize := fileSize + |index| + |bloom| + 48;
    }
  }

  method BuildBloom(keys: seq<Bytes>) returns (image: Bytes, ghost filter: Bytes)
    requires 8 * BloomFilters.FilterSize(|keys|, BITS_PER_KEY) < U32
    ensures image == BloomBlock(filter) && filter != [] && |filter| == BloomFilters.FilterSize(|keys|, BITS_PER_KEY)
    ensures BloomFilters.Holds(filter, BloomFilters.Probes(BITS_PER_KEY), keys)
  {
    hide Checksum.Crc32, BloomFilters.Holds, BloomFilters.FilterBytes;
    image := BloomFilters.CreateFilter(keys, BITS_PER_KEY);
    filter := image[8..];
    var crc := Checksum.ComputeCrc32(image);
    image := image + EncodeFixed32(crc);
  }

  lemma FileShape(blocks: seq<seq<Entry>>, filter: Bytes)
    requires NonEmptyBlocks(blocks)
    ensures var d, x, b := DataBytes(blocks), IndexBlock(IndexOf(blocks)), BloomBlock(filter);
            FileBytes(blocks, filter) == d + x + b + Footer(|d|, |x|, |d| + |x|, |b|)
            && |FileBytes(blocks, filter)| == |d| + |x| + |b| + 48
  {
    hide DataBytes, IndexBlock, IndexOf, BloomBlock, Footer;
  }

  /** The Index Block: one entry a data block, one restart point. */
  method BuildIndex(infos: seq<IndexEntry>) returns (image: Bytes)
    ensures image == IndexBlock(infos)
  {
    hide Varint, EncodeEntry, EncodeOffsets, Seal;
    ghost var es := seq(|infos|, i requires 0 <= i < |infos| => HandleEntry(infos[i]));
    var indexBlock: Bytes, restarts: seq<nat> := [], [];
    var i := 0;
    while i < |infos|
      invariant 0 <= i <= |infos|
      invariant indexBlock == EncodeEntries(es[..i])
      invariant restarts == if i == 0 then [] else [0]
    {
      if restarts == [] {
        restarts := restarts + [|indexBlock|];
      }
      var offset := VarintEncode(infos[i].offset);
      var size := VarintEncode(infos[i].size);
      var handle := offset + size;
      var shared := VarintEncode(0);
      var keyLen := VarintEncode(|infos[i].lastKey|);
      var handleLen := VarintEncode(|handle|);
      EntryShape(infos[i].lastKey, handle);
      indexBlock := indexBlock + (shared + keyLen + infos[i].lastKey + handleLen + handle);
      assert es[..i + 1][..i] == es[..i];
      i := i + 1;
    }
    assert es[..i] == es;
    image := BlockImage(indexBlock, restarts);
  }

  /** The bytes FlushBlock writes: entries, restart offsets, their count, and a checksum of all that. */
  method BlockImage(block: Bytes, restartOffsets: seq<nat>) returns (image: Bytes)
    ensures image == Seal(block + EncodeOffsets(restartOffsets) + EncodeFixed32(|restartOffsets|))
  {
    hide Checksum.Crc32;
    var checked := block;
    var i := 0;
    while i < |restartOffsets|
      invariant 0 <= i <= |restartOffsets|
      invariant checked == block + EncodeOffsets(restartOffsets[..i])
    {
      assert restartOffsets[..i + 1][..i] == restartOffsets[..i];
      checked := checked + EncodeFixed32(restartOffsets[i]);
      i := i + 1;
    }
    assert restartOffsets[..i] == restartOffsets;
    checked := checked + EncodeFixed32(|restartOffsets|);
    var crc := Checksum.ComputeCrc32(checked);
    image := checked + EncodeFixed32(crc);
  }

  lemma BlockIsDataBlock(es: seq<Entry>)
    ensures DataBlock(es) == Seal(EncodeEntries(es) + EncodeOffsets(Restarts(es)) + EncodeFixed32(|Restarts(es)|))
    ensures |DataBlock(es)| == |EncodeEntries(es)| + |Restarts(es)| * 4 + 8
  {
    hide EncodeEntries, Restarts;
  }

  lemma FlattenNone(blocks: seq<seq<Entry>>)
    ensures Flatten(blocks) + [] == Flatten(blocks)
  {}

  lemma EmptyBlock()
    ensures EncodeEntries([]) == [] && Restarts([]) == []
  {}

  lemma EntrySize(e: Entry)
    ensures |EncodeEntry(e)| == |Varint(0)| + |Varint(|e.key|)| + |e.key| + |Varint(|e.value|)| + |e.value|
  {
    hide Varint;
  }

  lemma EntryShape(ik: Bytes, value: Bytes)
    ensures Varint(0) + Varint(|ik|) + ik + Varint(|value|) + value == EncodeEntry(Entry(ik, value))
  {
    hide Varint;
  }

  lemma BlocksAppend(blocks: seq<seq<Entry>>, b: seq<Entry>)
    requires SmallBlocks(blocks) && b != []
    ensures Flatten(blocks + [b]) == Flatten(blocks) + b
    ensures DataBytes(blocks + [b]) == DataBytes(blocks) + DataBlock(b)
    ensures NonEmptyBlocks(blocks + [b]) && (|b| <= 4096 ==> SmallBlocks(blocks + [b]))
    ensures IndexOf(blocks + [b]) == IndexOf(blocks) + [IndexEntry(Last(b).key, |DataBytes(blocks)|, |DataBlock(b)|)]
  {
    hide DataBlock;
    FlattenAppend(blocks, b);
    assert (blocks + [b])[..|blocks|] == blocks;
    forall i | 0 <= i < |blocks|
      ensures IndexOf(blocks + [b])[i] == IndexOf(blocks)[i]
    {
      assert (blocks + [b])[..i] == blocks[..i];
    }
  }
}
