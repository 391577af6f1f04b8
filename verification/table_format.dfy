/** The bytes of a table file: what src/sstable_builder.cc writes and src/sstable.cc and src/iterator.cc read. */
module TableFormat {
  import opened Slices
  import opened Coding
  import opened Entries
  import Checksum
  import BloomFilters

  const MAGIC: nat := 0x4C534D54

  /** One entry: a shared length that is always 0, then key and value with their lengths. */
  function EncodeEntry(e: Entry): (r: Bytes)
    ensures |r| >= 3
  {
    Varint(0) + (Varint(|e.key|) + (e.key + (Varint(|e.value|) + e.value)))
  }

  function EncodeEntries(es: seq<Entry>): Bytes
  {
    if es == [] then [] else EncodeEntries(es[..|es| - 1]) + EncodeEntry(es[|es| - 1])
  }

  function EncodeOffsets(offsets: seq<nat>): (r: Bytes)
    ensures |r| == 4 * |offsets|
  {
    if offsets == [] then [] else EncodeOffsets(offsets[..|offsets| - 1]) + EncodeFixed32(offsets[|offsets| - 1])
  }

  /** Appends the checksum of what precedes it. */
  function Seal(b: Bytes): (r: Bytes)
    ensures |r| == |b| + 4
  {
    b + EncodeFixed32(Checksum.Crc32(b))
  }

  /** A data or index block. */
  function Block(es: seq<Entry>, restarts: seq<nat>): (r: Bytes)
    ensures |r| == |EncodeEntries(es)| + 4 * |restarts| + 8
  {
    Seal(EncodeEntries(es) + EncodeOffsets(restarts) + EncodeFixed32(|restarts|))
  }

  /** Every sixteenth entry is a restart point. */
  function Restarts(es: seq<Entry>): seq<nat>
  {
    if es == [] then []
    else
      var before := es[..|es| - 1];
      if |before| % 16 == 0 then Restarts(before) + [|EncodeEntries(before)|] else Restarts(before)
  }

  lemma {:induction false} RestartCount(es: seq<Entry>)
    ensures |Restarts(es)| == (|es| + 15) / 16
  {
    if es != [] { RestartCount(es[..|es| - 1]); }
  }

  /** Restart `i` is where entry `16 * i` begins. */
  lemma {:induction false} RestartAt(es: seq<Entry>, i: nat)
    requires i < (|es| + 15) / 16
    ensures 16 * i < |es| && |Restarts(es)| == (|es| + 15) / 16
    ensures Restarts(es)[i] == |EncodeEntries(es[..16 * i])|
  {
    hide EncodeEntries;
    RestartCount(es);
    var before := es[..|es| - 1];
    RestartCount(before);
    if i < (|before| + 15) / 16 {
      RestartAt(before, i);
      assert before[..16 * i] == es[..16 * i];
    } else {
      assert es[..16 * i] == before;
    }
  }

  function DataBlock(es: seq<Entry>): Bytes
  {
    Block(es, Restarts(es))
  }

  datatype IndexEntry = IndexEntry(lastKey: Bytes, offset: nat, size: nat)

  function Last(es: seq<Entry>): Entry
    requires es != []
  {
    es[|es| - 1]
  }

  ghost predicate NonEmptyBlocks(blocks: seq<seq<Entry>>)
  {
    forall i :: 0 <= i < |blocks| ==> blocks[i] != []
  }

  /** The data blocks, one after another. */
  function DataBytes(blocks: seq<seq<Entry>>): Bytes
  {
    if blocks == [] then [] else DataBytes(blocks[..|blocks| - 1]) + DataBlock(blocks[|blocks| - 1])
  }

  /** Where each block lies and which internal key ends it. */
  ghost function IndexOf(blocks: seq<seq<Entry>>): (r: seq<IndexEntry>)
    requires NonEmptyBlocks(blocks)
    ensures |r| == |blocks|
  {
    seq(|blocks|, i requires 0 <= i < |blocks| =>
      IndexEntry(Last(blocks[i]).key, |DataBytes(blocks[..i])|, |DataBlock(blocks[i])|))
  }

  function HandleEntry(e: IndexEntry): Entry
  {
    Entry(e.lastKey, Varint(e.offset) + Varint(e.size))
  }

  function IndexBlock(index: seq<IndexEntry>): Bytes
  {
    Block(seq(|index|, i requires 0 <= i < |index| => HandleEntry(index[i])), if index == [] then [] else [0])
  }

  function Footer(indexOffset: nat, indexSize: nat, bloomOffset: nat, bloomSize: nat): (r: Bytes)
    ensures |r| == 48
  {
    EncodeFixed64(indexOffset) + EncodeFixed64(indexSize) + EncodeFixed64(bloomOffset)
    + EncodeFixed64(bloomSize) + EncodeFixed64(MAGIC) + EncodeFixed64(0)
  }

  const BITS_PER_KEY: nat := 10

  function BloomBlock(filter: Bytes): Bytes
  {
    Seal(BloomFilters.FilterBytes(BITS_PER_KEY, BloomFilters.Probes(BITS_PER_KEY), filter))
  }

  /** A whole file, determined by its data blocks and its filter bits. */
  ghost function FileBytes(blocks: seq<seq<Entry>>, filter: Bytes): Bytes
    requires NonEmptyBlocks(blocks)
  {
    var data, index, bloom := DataBytes(blocks), IndexBlock(IndexOf(blocks)), BloomBlock(filter);
    data + index + bloom + Footer(|data|, |index|, |data| + |index|, |bloom|)
  }

  function Flatten(blocks: seq<seq<Entry>>): seq<Entry>
  {
    if blocks == [] then [] else Flatten(blocks[..|blocks| - 1]) + blocks[|blocks| - 1]
  }

  /** What 32-bit lengths and counts can describe. */
  ghost predicate Fits(e: Entry)
  {
    |e.key| < U32 && |e.value| < U32
  }

  ghost predicate AllFit(es: seq<Entry>)
  {
    forall i :: 0 <= i < |es| ==> Fits(es[i])
  }

  // ---- Reading entries back ----

  /** Parses one entry at `p`. None when the entry would run past `limit`, where every reader stops. */
  method ParseEntry(data: Bytes, p: nat, limit: nat) returns (r: Option<(Entry, nat)>)
    requires limit <= |data|
    ensures r.Some? ==> p < r.value.1 <= limit
    ensures forall e :: Fits(e) && Coding.At(data, p, EncodeEntry(e)) && p + |EncodeEntry(e)| <= limit
                        ==> r == Some((e, p + |EncodeEntry(e)|))
  {
    hide EncodeEntry, Varint, ReadVarint;
    forall e | Fits(e) && Coding.At(data, p, EncodeEntry(e)) ensures EntryAt(data, p, e) { EntryParts(data, p, e); }
    var shared := VarintDecode(data, p, U32);
    if shared == None || shared.value.1 >= limit { return None; }
    var keyLen := VarintDecode(data, shared.value.1, U32);
    if keyLen == None { return None; }
    var q := keyLen.value.1;
    if q + keyLen.value.0 > limit { return None; }
    var key := data[q..q + keyLen.value.0];
    q := q + keyLen.value.0;
    if q >= limit { return None; }
    var valueLen := VarintDecode(data, q, U32);
    if valueLen == None { return None; }
    q := valueLen.value.1;
    if q + valueLen.value.0 > limit { return None; }
    var value := data[q..q + valueLen.value.0];
    r := Some((Entry(key, value), q + valueLen.value.0));
  }

  /** The fields an encoded entry at `p` is read as. */
  ghost predicate EntryAt(data: Bytes, p: nat, e: Entry)
  {
    && ReadVarint(data, p) == Some((0, p + 1))
    && ReadVarint(data, p + 1).Some? && ReadVarint(data, p + 1).value.0 == |e.key|
    && var q := ReadVarint(data, p + 1).value.1;
    && q + |e.key| <= |data| && data[q..q + |e.key|] == e.key
    && ReadVarint(data, q + |e.key|).Some? && ReadVarint(data, q + |e.key|).value.0 == |e.value|
    && var t := ReadVarint(data, q + |e.key|).value.1;
    && t + |e.value| == p + |EncodeEntry(e)| <= |data| && data[t..t + |e.value|] == e.value
  }

  lemma EntryParts(data: Bytes, p: nat, e: Entry)
    requires Coding.At(data, p, EncodeEntry(e))
    ensures EntryAt(data, p, e)
  {
    hide Varint, ReadVarint;
    var a, b := Varint(|e.key|), Varint(|e.value|);
    assert |Varint(0)| == 1 by { ZeroVarint(); }
    AtSplit(data, p, Varint(0), a + (e.key + (b + e.value)));
    AtSplit(data, p + 1, a, e.key + (b + e.value));
    AtSplit(data, p + 1 + |a|, e.key, b + e.value);
    AtSplit(data, p + 1 + |a| + |e.key|, b, e.value);
    VarintRoundTrip(0, data, p);
    VarintRoundTrip(|e.key|, data, p + 1);
    VarintRoundTrip(|e.value|, data, p + 1 + |a| + |e.key|);
  }

  lemma ZeroVarint()
    ensures Varint(0) == [0]
  {}

  /** Entry `i` of a run of encoded entries stands right after the ones before it. */
  lemma {:induction false} EntryOffset(es: seq<Entry>, i: nat)
    requires i < |es|
    ensures |EncodeEntries(es[..i])| + |EncodeEntry(es[i])| == |EncodeEntries(es[..i + 1])| <= |EncodeEntries(es)|
    ensures Coding.At(EncodeEntries(es), |EncodeEntries(es[..i])|, EncodeEntry(es[i]))
    decreases |es|
  {
    hide EncodeEntry;
    var n := |es| - 1;
    assert es[..i + 1][..i] == es[..i];
    if i < n {
      EntryOffset(es[..n], i);
      assert es[..n][..i] == es[..i] && es[..n][..i + 1] == es[..i + 1];
      AtGrows(EncodeEntries(es[..n]), |EncodeEntries(es[..i])|, EncodeEntry(es[i]), EncodeEntry(es[n]));
    } else {
      assert es[..i + 1] == es;
    }
  }

  lemma AtGrows(data: Bytes, p: nat, part: Bytes, more: Bytes)
    requires Coding.At(data, p, part)
    ensures Coding.At(data + more, p, part)
  {
    assert (data + more)[p..p + |part|] == data[p..p + |part|];
  }

  // ---- Reading blocks back ----

  /** entries_end: the block size less the trailer that the stored restart count announces. */
  function EntriesEnd(block: Bytes): int
  {
    if |block| < 8 then 0
    else |block| - 8 - (DecodeFixed(block[|block| - 8..|block| - 4]) * 4) % U32
  }

  lemma BlockParts(es: seq<Entry>, restarts: seq<nat>)
    requires |restarts| < 0x4000_0000
    ensures var b := Block(es, restarts);
            && b[..|EncodeEntries(es)|] == EncodeEntries(es)
            && EntriesEnd(b) == |EncodeEntries(es)|
            && SealHolds(b)
  {
    hide EncodeEntries, EncodeOffsets, Checksum.Crc32;
    var body := EncodeEntries(es) + EncodeOffsets(restarts) + EncodeFixed32(|restarts|);
    var b := Block(es, restarts);
    SealParts(body);
    assert b[..|EncodeEntries(es)|] == EncodeEntries(es);
    assert b[|b| - 8..|b| - 4] == EncodeFixed32(|restarts|);
    Fixed32RoundTrip(|restarts|);
  }

  /** The stored checksum of a sealed block matches. */
  predicate SealHolds(b: Bytes)
  {
    |b| >= 4 && DecodeFixed(b[|b| - 4..]) == Checksum.Crc32(b[..|b| - 4])
  }

  lemma SealParts(b: Bytes)
    ensures SealHolds(Seal(b)) && Seal(b)[..|Seal(b)| - 4] == b
  {
    hide Checksum.Crc32;
    assert Seal(b)[|b|..] == EncodeFixed32(Checksum.Crc32(b)) && Seal(b)[..|b|] == b;
    Fixed32RoundTrip(Checksum.Crc32(b));
  }

  /** The `i`-th entry of a block, where a reader finds it. */
  lemma BlockEntry(es: seq<Entry>, restarts: seq<nat>, i: nat)
    requires i < |es|
    ensures Coding.At(Block(es, restarts), |EncodeEntries(es[..i])|, EncodeEntry(es[i]))
    ensures |EncodeEntries(es[..i])| + |EncodeEntry(es[i])| == |EncodeEntries(es[..i + 1])| <= |EncodeEntries(es)|
  {
    hide EncodeEntries, EncodeOffsets, EncodeEntry, Checksum.Crc32;
    EntryOffset(es, i);
    var more := EncodeOffsets(restarts) + EncodeFixed32(|restarts|)
                + EncodeFixed32(Checksum.Crc32(EncodeEntries(es) + EncodeOffsets(restarts) + EncodeFixed32(|restarts|)));
    assert Block(es, restarts) == EncodeEntries(es) + more;
    AtGrows(EncodeEntries(es), |EncodeEntries(es[..i])|, EncodeEntry(es[i]), more);
  }

  lemma {:induction false} OffsetAt(offsets: seq<nat>, i: nat)
    requires i < |offsets|
    ensures Coding.At(EncodeOffsets(offsets), 4 * i, EncodeFixed32(offsets[i]))
    decreases |offsets|
  {
    hide EncodeFixed32;
    var n := |offsets| - 1;
    if i < n {
      OffsetAt(offsets[..n], i);
      AtGrows(EncodeOffsets(offsets[..n]), 4 * i, EncodeFixed32(offsets[i]), EncodeFixed32(offsets[n]));
    }
  }

  /** The stored restart points: four bytes each behind the entries, the `i`-th being where entry `16 * i` stands. */
  lemma BlockRestart(es: seq<Entry>, i: nat)
    requires i < (|es| + 15) / 16
    ensures var b, at, start := DataBlock(es), |EncodeEntries(es)| + 4 * i, |EncodeEntries(es[..16 * i])|;
            && 16 * i < |es| && at + 4 <= |b| && DecodeFixed(b[at..at + 4]) == start % U32
            && Coding.At(b, start, EncodeEntry(es[16 * i]))
  {
    hide EncodeEntries, EncodeOffsets, EncodeEntry, EncodeFixed32, Block, DecodeFixed, Restarts;
    RestartAt(es, i);
    BlockEntry(es, Restarts(es), 16 * i);
    StoredOffset(es, Restarts(es), i);
    Fixed32RoundTrip(Restarts(es)[i]);
  }

  lemma StoredOffset(es: seq<Entry>, restarts: seq<nat>, i: nat)
    requires i < |restarts|
    ensures Coding.At(Block(es, restarts), |EncodeEntries(es)| + 4 * i, EncodeFixed32(restarts[i]))
  {
    hide EncodeEntries, EncodeOffsets, EncodeFixed32, Checksum.Crc32;
    var a, o := EncodeEntries(es), EncodeOffsets(restarts);
    var more := EncodeFixed32(|restarts|) + EncodeFixed32(Checksum.Crc32(a + o + EncodeFixed32(|restarts|)));
    OffsetAt(restarts, i);
    AtGrows(o, 4 * i, EncodeFixed32(restarts[i]), more);
    AtBehind(a, o + more, 4 * i, EncodeFixed32(restarts[i]));
    assert Block(es, restarts) == a + (o + more);
  }

  lemma AtBehind(before: Bytes, data: Bytes, p: nat, part: Bytes)
    requires Coding.At(data, p, part)
    ensures Coding.At(before + data, |before| + p, part)
  {
    assert (before + data)[|before| + p..|before| + p + |part|] == data[p..p + |part|];
  }

  // ---- Reading files back ----

  lemma {:induction false} DataPrefix(blocks: seq<seq<Entry>>, i: nat)
    requires i <= |blocks|
    ensures |DataBytes(blocks[..i])| <= |DataBytes(blocks)|
    ensures i < |blocks| ==> Coding.At(DataBytes(blocks), |DataBytes(blocks[..i])|, DataBlock(blocks[i]))
    decreases |blocks|
  {
    hide DataBlock;
    var n := |blocks| - 1;
    if i == |blocks| {
      assert blocks[..i] == blocks;
    } else if i < n {
      DataPrefix(blocks[..n], i);
      assert blocks[..n][..i] == blocks[..i];
      AtGrows(DataBytes(blocks[..n]), |DataBytes(blocks[..i])|, DataBlock(blocks[i]), DataBlock(blocks[n]));
    }
  }

  /** The index leads to every block. */
  lemma BlockAt(blocks: seq<seq<Entry>>, filter: Bytes, i: nat)
    requires NonEmptyBlocks(blocks) && i < |blocks|
    ensures Coding.At(FileBytes(blocks, filter), IndexOf(blocks)[i].offset, DataBlock(blocks[i]))
    ensures IndexOf(blocks)[i].size == |DataBlock(blocks[i])|
  {
    hide DataBlock, DataBytes, IndexBlock, BloomBlock, Footer;
    DataPrefix(blocks, i);
    var data, index, bloom := DataBytes(blocks), IndexBlock(IndexOf(blocks)), BloomBlock(filter);
    var more := index + bloom + Footer(|data|, |index|, |data| + |index|, |bloom|);
    assert FileBytes(blocks, filter) == data + more;
    AtGrows(data, IndexOf(blocks)[i].offset, DataBlock(blocks[i]), more);
  }

  lemma FileParts(blocks: seq<seq<Entry>>, filter: Bytes)
    requires NonEmptyBlocks(blocks)
    ensures var f, d, x, b := FileBytes(blocks, filter), |DataBytes(blocks)|, IndexBlock(IndexOf(blocks)), BloomBlock(filter);
            && |f| == d + |x| + |b| + 48
            && f[|f| - 48..] == Footer(d, |x|, d + |x|, |b|)
            && f[d..d + |x|] == x
            && f[d + |x|..d + |x| + |b|] == b
  {
    hide DataBytes, IndexBlock, IndexOf, BloomBlock, Footer;
  }

  lemma FooterParts(a: nat, b: nat, c: nat, d: nat)
    requires a < U64 && b < U64 && c < U64 && d < U64
    ensures var f := Footer(a, b, c, d);
            && DecodeFixed(f[..8]) == a && DecodeFixed(f[8..16]) == b && DecodeFixed(f[16..24]) == c
            && DecodeFixed(f[24..32]) == d && DecodeFixed(f[32..40]) == 0x4C53_4D54 && DecodeFixed(f[40..]) == 0
  {
    hide EncodeFixed64;
    var f := Footer(a, b, c, d);
    assert f[..8] == EncodeFixed64(a) && f[8..16] == EncodeFixed64(b) && f[16..24] == EncodeFixed64(c);
    assert f[24..32] == EncodeFixed64(d) && f[32..40] == EncodeFixed64(MAGIC);
    assert f[40..] == EncodeFixed64(0);
    Fixed64RoundTrip(a); Fixed64RoundTrip(b); Fixed64RoundTrip(c); Fixed64RoundTrip(d); Fixed64RoundTrip(MAGIC);
    Fixed64RoundTrip(0);
  }

  /** A handle gives back offset and size. */
  lemma HandleParts(e: IndexEntry)
    ensures var h := HandleEntry(e).value;
            && ReadVarint(h, 0) == Some((e.offset, |Varint(e.offset)|))
            && ReadVarint(h, |Varint(e.offset)|) == Some((e.size, |h|))
  {
    hide Varint, ReadVarint;
    var h := HandleEntry(e).value;
    assert h[0..|h|] == h;
    AtSplit(h, 0, Varint(e.offset), Varint(e.size));
    VarintRoundTrip(e.offset, h, 0);
    VarintRoundTrip(e.size, h, |Varint(e.offset)|);
  }

  // ---- Flattened blocks ----

  lemma {:induction false} FlattenAppend(blocks: seq<seq<Entry>>, b: seq<Entry>)
    ensures Flatten(blocks + [b]) == Flatten(blocks) + b
  {
    assert (blocks + [b])[..|blocks|] == blocks;
  }

  /** Entry `j` of block `i` in the flattened sequence. */
  lemma {:induction false} FlattenAt(blocks: seq<seq<Entry>>, i: nat, j: nat)
    requires i < |blocks| && j < |blocks[i]|
    ensures |Flatten(blocks[..i])| + |blocks[i]| == |Flatten(blocks[..i + 1])| <= |Flatten(blocks)|
    ensures Flatten(blocks)[|Flatten(blocks[..i])| + j] == blocks[i][j]
    decreases |blocks|
  {
    var n := |blocks| - 1;
    assert blocks[..i + 1][..i] == blocks[..i];
    if i < n {
      FlattenAt(blocks[..n], i, j);
      assert blocks[..n][..i] == blocks[..i] && blocks[..n][..i + 1] == blocks[..i + 1];
    } else {
      assert blocks[..i + 1] == blocks;
    }
  }
}
