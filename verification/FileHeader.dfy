/** filesys/filehdr.cc: the file header (i-node) with its direct, single-indirect and
    double-indirect sector tables, in both builds (with and without INDIRECT_MAP). */
module FileHeaders {
  import opened Words
  import opened BitMaps
  import opened Collections
  import opened SectorStore
  import Layouts

  const LEVEL_MAP_NUM: nat := 32       // sector numbers in one index sector
  const NUM_DATA_SECTORS: nat := 9     // words of the table inside the header
  const INDIRECT_IDX: nat := 7
  const DOUBLE_IDX: nat := 8

  /** NumDirect: the whole table, or all of it but the last two words under INDIRECT_MAP. */
  function NumDirect(ind: bool): nat {
    if ind then 7 else 9
  }

  // Sizes the builds can represent are below this many sectors.
  function MaxSectors(ind: bool): nat {
    if ind then 7 + 32 + 32 * 32 else 9
  }

  /** divRoundUp(fileSize, SectorSize) with C's truncating division. */
  function SectorsFor(fileSize: int): (n: int)
    ensures SECTOR_SIZE * (n - 1) < fileSize <= SECTOR_SIZE * n
  {
    if fileSize >= 0 then (fileSize + 127) / 128 else -((-fileSize) / 128)
  }

  datatype Inode = Inode(numBytes: int, numSectors: int, dataSectors: seq<int>)

  // ---------------------------------------------------------------------------
  // The header as it lies in its sector

  const ATTRIBUTE_BYTES: nat := 84

  /** The header stored in a sector. */
  function Decode(sector: seq<Byte>): Inode
    requires |sector| == SECTOR_SIZE
  {
    Inode(WordAt(sector, 0), WordAt(sector, 1),
      seq(NUM_DATA_SECTORS, i requires 0 <= i < NUM_DATA_SECTORS => WordAt(sector, 2 + i)))
  }

  function Encode(numBytes: Int32, numSectors: Int32, dataSectors: seq<Int32>, attributes: seq<Byte>)
    : (sector: seq<Byte>)
    requires |dataSectors| == NUM_DATA_SECTORS && |attributes| == ATTRIBUTE_BYTES
    ensures |sector| == SECTOR_SIZE
    ensures Decode(sector) == Inode(numBytes, numSectors, dataSectors)
  {
    var ints: seq<int> := [numBytes, numSectors] + dataSectors;
    var words := EncodeInts(ints);
    var sector := words + attributes;
    assert forall k :: 0 <= k < 11 ==> WordAt(sector, k) == WordAt(words, k) == ints[k];
    sector
  }

  // ---------------------------------------------------------------------------
  // Reading the index

  /** The k-th sector number in index sector s; -1 where there is no such word. */
  function Entry(d: Sectors, s: int, k: int): int {
    if 0 <= s < |d| && |d[s]| == 128 && 0 <= k < 32 then WordAt(d[s], k) else -1
  }

  function HeaderEntry(h: Inode, i: nat): int {
    if i < |h.dataSectors| then h.dataSectors[i] else -1
  }

  /** The sector that holds block i of a file. */
  function BlockSector(ind: bool, h: Inode, d: Sectors, i: nat): int {
    if i < NumDirect(ind) then HeaderEntry(h, i)
    else if i < 39 then Entry(d, HeaderEntry(h, INDIRECT_IDX), i - 7)
    else Entry(d, Entry(d, HeaderEntry(h, DOUBLE_IDX), (i - 39) / 32), (i - 39) % 32)
  }

  /** Second-level index sectors of a file of n sectors. */
  function Tables(n: int): nat {
    Layouts.Tables(7, 32, n)
  }

  function Blocks(ind: bool, h: Inode, d: Sectors): (r: seq<int>)
    requires h.numSectors >= 0
  {
    seq(h.numSectors, i requires 0 <= i => BlockSector(ind, h, d, i))
  }

  /** The index sectors that reading the file goes through. */
  function IndexSectors(ind: bool, h: Inode, d: Sectors): seq<int> {
    if !ind || h.numSectors <= 7 then []
    else if h.numSectors <= 39 then [HeaderEntry(h, INDIRECT_IDX)]
    else
      var top := HeaderEntry(h, DOUBLE_IDX);
      [HeaderEntry(h, INDIRECT_IDX)] + seq(Tables(h.numSectors), j => Entry(d, top, j)) + [top]
  }

  ghost predicate OnDisk(xs: seq<int>) {
    forall i :: 0 <= i < |xs| ==> 0 <= xs[i] < NUM_SECTORS
  }

  ghost predicate Apart(xs: seq<int>, ys: seq<int>) {
    forall i, j :: 0 <= i < |xs| && 0 <= j < |ys| ==> xs[i] != ys[j]
  }

  /** Every block has a sector of its own and none of them holds part of the index. */
  ghost predicate WellFormed(ind: bool, h: Inode, d: Sectors) {
    && |h.dataSectors| == NUM_DATA_SECTORS
    && h.numSectors == SectorsFor(h.numBytes)
    && 0 <= h.numSectors <= MaxSectors(ind)
    && var blocks, index := Blocks(ind, h, d), IndexSectors(ind, h, d);
    && OnDisk(blocks) && OnDisk(index)
    && NoDup(blocks) && NoDup(index) && Apart(blocks, index)
  }

  // ---------------------------------------------------------------------------
  // Allocation order: the position, in the ascending free list, of each sector Allocate takes

  /** Which of the successive Finds supplies block i. */
  function Rank(ind: bool, i: nat): nat {
    if ind then Layouts.Rank(7, 32, i) else i
  }

  /** How many Finds a file of n sectors makes. */
  function Total(ind: bool, n: nat): nat {
    if ind then Layouts.Total(7, 32, n) else n
  }

  /** The last Find whose result is used as an index sector. */
  function LastIndexRank(n: nat): nat {
    if n < 39 then 7 else if n == 39 then 40 else 41 + 33 * (Tables(n) - 1)
  }

  /** The header and the index sectors lay the file out along the free list. */
  ghost predicate LaidOut(ind: bool, h: Inode, d: Sectors, free: seq<int>) {
    && |h.dataSectors| == NUM_DATA_SECTORS
    && h.numSectors >= 0
    && (forall i :: 0 <= i < h.numSectors ==> BlockSector(ind, h, d, i) == At(free, Rank(ind, i)))
    && (ind && h.numSectors >= 7 ==> HeaderEntry(h, INDIRECT_IDX) == At(free, 7))
    && (ind && h.numSectors >= 39 ==> HeaderEntry(h, DOUBLE_IDX) == At(free, 40))
    && (ind ==> forall j :: 0 <= j < Tables(h.numSectors) ==>
      Entry(d, HeaderEntry(h, DOUBLE_IDX), j) == At(free, 41 + 33 * j))
  }

  lemma RankMonotone(ind: bool, i: nat, j: nat)
    requires i < j
    ensures Rank(ind, i) < Rank(ind, j)
  {
    Layouts.RankMonotone(7, 32, i, j);
  }

  lemma RankBound(ind: bool, i: nat, n: nat)
    requires i < n
    ensures Rank(ind, i) < Total(ind, n)
  {
    Layouts.RankBound(7, 32, i, n);
  }

  function IndexRanks(n: int): seq<nat> {
    Layouts.IndexRanks(7, 32, n)
  }

  lemma IndexAlongFree(h: Inode, d: Sectors, free: seq<int>)
    requires LaidOut(true, h, d, free)
    ensures |IndexSectors(true, h, d)| == |IndexRanks(h.numSectors)|
    ensures forall k :: 0 <= k < |IndexRanks(h.numSectors)| ==>
      IndexSectors(true, h, d)[k] == At(free, IndexRanks(h.numSectors)[k])
  {
  }

  /** Under INDIRECT_MAP the file is a layout with 7 direct entries and 32 entries in an index sector. */
  lemma LaidOutAlong(h: Inode, d: Sectors, free: seq<int>)
    requires LaidOut(true, h, d, free) && Total(true, h.numSectors) <= |free|
    ensures Layouts.Along(7, 32, free, Blocks(true, h, d), IndexSectors(true, h, d))
  {
    var n, blocks, index := h.numSectors, Blocks(true, h, d), IndexSectors(true, h, d);
    IndexAlongFree(h, d, free);
    forall i | 0 <= i < n ensures Layouts.Rank(7, 32, i) < |free| && blocks[i] == free[Layouts.Rank(7, 32, i)] {
      Layouts.RankBound(7, 32, i, n);
    }
    forall k | 0 <= k < |index| ensures IndexRanks(n)[k] < |free| && index[k] == free[IndexRanks(n)[k]] {
      Layouts.IndexRanksSpec(7, 32, n, k, k);
    }
  }

  /** A layout along a long enough free list is well formed. */
  lemma LaidOutWellFormed(ind: bool, h: Inode, d: Sectors, free: seq<int>)
    requires LaidOut(ind, h, d, free)
    requires h.numSectors == SectorsFor(h.numBytes) && h.numSectors <= MaxSectors(ind)
    requires Ascending(free) && OnDisk(free)
    requires Total(ind, h.numSectors) <= |free|
    ensures WellFormed(ind, h, d)
  {
    var blocks, index := Blocks(ind, h, d), IndexSectors(ind, h, d);
    if ind {
      LaidOutAlong(h, d, free);
      Layouts.AlongIsSound(7, 32, free, blocks, index);
      hide LaidOut, Layouts.Rank, Layouts.IndexRanks, Layouts.Total;
      assert OnDisk(blocks) && OnDisk(index);
    }
  }

  /** A layout that ran past the end of the free list is not: its last block has no sector. */
  lemma ShortLayoutIsBroken(ind: bool, h: Inode, d: Sectors, free: seq<int>)
    requires LaidOut(ind, h, d, free)
    requires |free| < Total(ind, h.numSectors)
    requires ind && h.numSectors >= 7 ==> LastIndexRank(h.numSectors) < |free|
    ensures !WellFormed(ind, h, d)
  {
    var n := h.numSectors;
    assert n > 0 && Rank(ind, n - 1) == Total(ind, n) - 1;
    assert Blocks(ind, h, d)[n - 1] == -1;
  }

  // ---------------------------------------------------------------------------

  datatype Outcome = Granted | Refused | Aborted

  /** Allocate's answer as the caller can work it out beforehand. */
  function Answer(ind: bool, n: int, free: nat): Outcome {
    if n < 0 then Aborted
    else if free < n then Refused
    else if n < NumDirect(ind) then Granted
    else if !ind || free <= LastIndexRank(n) then Aborted
    else Granted
  }

  /** The size is negative or too large for the build, or a sector for an index table is missing: the only one of a file
      of 7 data sectors, or the last one of the double-indirect part. */
  predicate Stops(ind: bool, n: int, free: nat) {
    || n < 0
    || (!ind && 9 <= n <= free)
    || (ind && n == 7 && free == 7)
    || (ind && n == 39 && 39 <= free <= 40)
    || (ind && n >= 40 && n <= free <= 41 + 33 * ((n - 40) / 32))
  }

  /** The same in terms of the size and the number of clear sectors. */
  lemma AnswerIs(ind: bool, n: int, free: nat)
    ensures Answer(ind, n, free) == Refused <==> n >= 0 && free < n
    ensures Answer(ind, n, free) == Aborted <==> Stops(ind, n, free)
  {
    if n >= 40 { assert Tables(n) - 1 == (n - 40) / 32; }
  }

  /** The same along the branches of Allocate. */
  lemma AnswerCases(ind: bool, n: int, free: nat)
    ensures n < 0 ==> Answer(ind, n, free) == Aborted
    ensures 0 <= n && free < n ==> Answer(ind, n, free) == Refused
    ensures 0 <= n < NumDirect(ind) && n <= free ==> Answer(ind, n, free) == Granted
    ensures !ind && 9 <= n <= free ==> Answer(ind, n, free) == Aborted
    ensures ind && 7 <= n < 39 && n <= free ==> Answer(ind, n, free) == if 7 < free then Granted else Aborted
    ensures ind && 39 <= n <= free ==> Answer(ind, n, free) == if free <= LastIndexRank(n) then Aborted else Granted
  {
  }

  /** What is left of a free list after k Finds. */
  ghost predicate Cursor(now: seq<int>, free: seq<int>, k: nat) {
    now == Drop(free, k)
  }

  lemma StartOfList(free: seq<int>)
    ensures Cursor(free, free, 0)
  {
  }

  /** Find, seen as the k-th of a series of Finds. */
  method TakeNext(freeMap: BitMap, ghost free: seq<int>, ghost k: nat) returns (r: Int32)
    requires freeMap.Valid() && freeMap.numBits == NUM_SECTORS
    requires Cursor(freeMap.free, free, k)
    modifies freeMap, freeMap.words
    ensures freeMap.Valid() && Cursor(freeMap.free, free, k + 1)
    ensures r == At(free, k)
  {
    r := freeMap.Find();
  }

  /** Fills table[from..to] with the next free sectors, -1 once there are none. */
  method FillTable(freeMap: BitMap, table: array<Int32>, from: nat, to: nat, ghost free: seq<int>, ghost k: nat)
    requires freeMap.Valid() && freeMap.numBits == NUM_SECTORS && freeMap.words as object != table
    requires from <= to <= table.Length
    requires Cursor(freeMap.free, free, k)
    modifies freeMap, freeMap.words, table
    ensures freeMap.Valid() && Cursor(freeMap.free, free, k + to - from)
    ensures forall i :: from <= i < to ==> table[i] == At(free, k + i - from)
    ensures forall i :: 0 <= i < table.Length && !(from <= i < to) ==> table[i] == old(table[i])
  {
    hide Cursor, At, Free, Packs;
    for i := from to to
      invariant freeMap.Valid() && Cursor(freeMap.free, free, k + i - from)
      invariant forall j :: from <= j < i ==> table[j] == At(free, k + j - from)
      invariant forall j :: 0 <= j < table.Length && !(from <= j < i) ==> table[j] == old(table[j])
    {
      table[i] := TakeNext(freeMap, free, k + i - from);
    }
  }

  /** Writes an index table to its sector. */
  method WriteTable(disk: SynchDisk, s: int, table: array<Int32>) returns (ghost bytes: seq<Byte>)
    requires disk.Valid() && 0 <= s < NUM_SECTORS && table.Length == LEVEL_MAP_NUM
    modifies disk
    ensures disk.Valid()
    ensures Holds(bytes, table[..])
    ensures disk.sectors == old(disk.sectors)[s := bytes]
  {
    var image := EncodeInts(table[..]);
    var buf := new Byte[SECTOR_SIZE](i requires 0 <= i < SECTOR_SIZE => image[i]);
    assert buf[0..SECTOR_SIZE] == image;
    disk.WriteSector(s, buf, 0);
    bytes := image;
  }

  /** The sector image of an index table. */
  ghost predicate Holds(bytes: seq<Byte>, table: seq<int>) {
    && |bytes| == SECTOR_SIZE && |table| == LEVEL_MAP_NUM
    && forall k :: 0 <= k < LEVEL_MAP_NUM ==> WordAt(bytes, k) == table[k]
  }

  /** Writing one index sector leaves every other one readable as before. */
  lemma EntryAfterWrite(d: Sectors, s: int, bytes: seq<Byte>, table: seq<int>, t: int, k: int)
    requires Formatted(d) && 0 <= s < NUM_SECTORS && Holds(bytes, table)
    ensures 0 <= k < LEVEL_MAP_NUM ==> Entry(d[s := bytes], s, k) == table[k]
    ensures t != s ==> Entry(d[s := bytes], t, k) == Entry(d, t, k)
  {
  }

  lemma FreeOnDisk(bits: seq<bool>)
    requires |bits| == NUM_SECTORS
    ensures |Free(bits)| <= NUM_SECTORS && Ascending(Free(bits)) && OnDisk(Free(bits))
  {
    CountIsFree(bits);
    FreeSpec(bits);
    forall i | 0 <= i < |Free(bits)| ensures 0 <= Free(bits)[i] < NUM_SECTORS {
      assert Free(bits)[i] in Free(bits);
    }
  }

  /** Second-level index sector q, and the sector of block 39 + 32 * q + r. */
  function TableSector(free: seq<int>, q: nat): int {
    At(free, 41 + 33 * q)
  }

  function TableBlock(free: seq<int>, q: nat, r: nat): int {
    At(free, 42 + 33 * q + r)
  }

  /** How many Finds precede second-level table j. */
  function TableCursor(j: nat, sectorsLeft: nat): nat {
    41 + j + if 32 * j <= sectorsLeft then 32 * j else sectorsLeft
  }

  ghost predicate Untouched(d: Sectors, d0: Sectors, free: seq<int>) {
    && |d| == |d0|
    && forall s :: 0 <= s < |d| && s !in free ==> d[s] == d0[s]
  }

  lemma DirectLaidOut(ind: bool, h: Inode, d: Sectors, free: seq<int>)
    requires |h.dataSectors| == NUM_DATA_SECTORS && 0 <= h.numSectors < NumDirect(ind)
    requires forall i :: 0 <= i < h.numSectors ==> h.dataSectors[i] == At(free, i)
    ensures LaidOut(ind, h, d, free) && Total(ind, h.numSectors) == h.numSectors
  {
    hide At;
  }

  lemma SingleLaidOut(h: Inode, d: Sectors, free: seq<int>)
    requires |h.dataSectors| == NUM_DATA_SECTORS && 7 <= h.numSectors < 39
    requires forall i :: 0 <= i < 8 ==> h.dataSectors[i] == At(free, i)
    requires forall k :: 0 <= k < h.numSectors - 7 ==> Entry(d, At(free, 7), k) == At(free, 8 + k)
    ensures LaidOut(true, h, d, free) && Total(true, h.numSectors) == h.numSectors + 1
  {
    hide At, Entry;
    forall i | 0 <= i < h.numSectors ensures BlockSector(true, h, d, i) == At(free, Rank(true, i)) {
      if i >= 7 {
        var k := i - 7;
        assert Entry(d, At(free, 7), k) == At(free, 8 + k);
      }
    }
  }

  lemma NothingWritten(d: Sectors, free: seq<int>)
    ensures Untouched(d, d, free)
  {
  }

  lemma FirstIndexWritten(d: Sectors, e: Sectors, free: seq<int>, s: int, bytes: seq<Byte>, table: seq<int>, count: nat)
    requires Formatted(d) && s == At(free, 7) && 0 <= s < NUM_SECTORS && e == d[s := bytes]
    requires Holds(bytes, table) && count <= LEVEL_MAP_NUM
    requires forall k :: 0 <= k < count ==> table[k] == At(free, 8 + k)
    ensures Untouched(e, d, free)
    ensures forall k :: 0 <= k < count ==> Entry(e, s, k) == At(free, 8 + k)
  {
    forall k | 0 <= k < count ensures Entry(e, s, k) == At(free, 8 + k) {
      EntryAfterWrite(d, s, bytes, table, s, k);
    }
  }

  /** The single-indirect table: count blocks listed in the sector index. */
  method AllocateSingleTable(freeMap: BitMap, disk: SynchDisk, index: Int32, count: nat, ghost free: seq<int>)
    returns (ok: bool)
    requires disk.Valid() && freeMap.Valid() && freeMap.numBits == NUM_SECTORS
    requires count <= LEVEL_MAP_NUM && Cursor(freeMap.free, free, 8) && OnDisk(free) && index == At(free, 7)
    modifies freeMap, freeMap.words, disk
    ensures disk.Valid() && freeMap.Valid() && Cursor(freeMap.free, free, 8 + count)
    ensures ok <==> 7 < |free|
    ensures Untouched(disk.sectors, old(disk.sectors), free)
    ensures ok ==> forall k :: 0 <= k < count ==> Entry(disk.sectors, index, k) == At(free, 8 + k)
  {
    NothingWritten(disk.sectors, free);
    assert 0 <= index < NUM_SECTORS <==> 7 < |free|;
    hide Cursor, Free, Packs, Untouched, Entry, Holds, At, OnDisk, Formatted;
    var indirectIndex := new Int32[LEVEL_MAP_NUM];
    FillTable(freeMap, indirectIndex, 0, count, free, 8);
    ok := 0 <= index < NUM_SECTORS;
    if ok {
      ghost var bytes := WriteTable(disk, index, indirectIndex);
      FirstIndexWritten(old(disk.sectors), disk.sectors, free, index, bytes, indirectIndex[..], count);
    }
  }

  /** The first-level index sector and the first j second-level ones are as they should be. */
  ghost predicate Progress(d: Sectors, free: seq<int>, j: nat, sectorsLeft: int) {
    && Formatted(d)
    && (forall k :: 0 <= k < 32 ==> Entry(d, At(free, 7), k) == At(free, 8 + k))
    && (forall q, r :: 0 <= q < j && 0 <= r < 32 && 32 * q + r < sectorsLeft ==>
          Entry(d, TableSector(free, q), r) == TableBlock(free, q, r))
  }

  lemma ProgressStep(d: Sectors, free: seq<int>, j: nat, sectorsLeft: int, bytes: seq<Byte>, table: seq<int>)
    requires Progress(d, free, j, sectorsLeft)
    requires Ascending(free) && OnDisk(free) && 41 + 33 * j < |free|
    requires Holds(bytes, table)
    requires forall r :: 0 <= r < 32 && 32 * j + r < sectorsLeft ==> table[r] == TableBlock(free, j, r)
    ensures Progress(d[free[41 + 33 * j] := bytes], free, j + 1, sectorsLeft)
  {
    var s := free[41 + 33 * j];
    var e := d[s := bytes];
    forall k | 0 <= k < 32 ensures Entry(e, At(free, 7), k) == At(free, 8 + k) {
      EntryAfterWrite(d, s, bytes, table, At(free, 7), k);
    }
    forall q, r | 0 <= q < j + 1 && 0 <= r < 32 && 32 * q + r < sectorsLeft
      ensures Entry(e, TableSector(free, q), r) == TableBlock(free, q, r)
    {
      EntryAfterWrite(d, s, bytes, table, TableSector(free, q), r);
    }
  }

  /** Writing the top table completes the layout of a double-indirect file. */
  lemma DoubleLaidOut(h: Inode, d: Sectors, free: seq<int>, bytes: seq<Byte>, top: seq<int>)
    requires |h.dataSectors| == NUM_DATA_SECTORS && 39 <= h.numSectors <= NUM_SECTORS
    requires forall i :: 0 <= i < 8 ==> h.dataSectors[i] == At(free, i)
    requires h.dataSectors[DOUBLE_IDX] == At(free, 40)
    requires Ascending(free) && OnDisk(free) && 40 < |free|
    requires Tables(h.numSectors) > 0 ==> 41 + 33 * (Tables(h.numSectors) - 1) < |free|
    requires Progress(d, free, Tables(h.numSectors), h.numSectors - 39)
    requires Holds(bytes, top)
    requires forall j :: 0 <= j < Tables(h.numSectors) ==> top[j] == TableSector(free, j)
    ensures LaidOut(true, h, d[free[40] := bytes], free)
  {
    var e := d[free[40] := bytes];
    forall j | 0 <= j < Tables(h.numSectors)
      ensures Entry(e, HeaderEntry(h, DOUBLE_IDX), j) == At(free, 41 + 33 * j)
    {
      EntryAfterWrite(d, free[40], bytes, top, free[40], j);
    }
    forall i | 0 <= i < h.numSectors
      ensures BlockSector(true, h, e, i) == At(free, Rank(true, i))
    {
      if i >= 39 {
        var q, r := (i - 39) / 32, (i - 39) % 32;
        assert 32 * q + r == i - 39 && q < Tables(h.numSectors);
        EntryAfterWrite(d, free[40], bytes, top, TableSector(free, q), r);
      } else if i >= 7 {
        EntryAfterWrite(d, free[40], bytes, top, At(free, 7), i - 7);
      }
    }
  }

  /** Second-level table j: one Find for its own sector, one for each block it lists, then the write. */
  method AllocateTable(freeMap: BitMap, disk: SynchDisk, j: nat, sectorsLeft: nat, ghost free: seq<int>)
    returns (s: Int32, ok: bool)
    requires disk.Valid() && freeMap.Valid() && freeMap.numBits == NUM_SECTORS
    requires 32 * j < sectorsLeft && Ascending(free) && OnDisk(free)
    requires Cursor(freeMap.free, free, TableCursor(j, sectorsLeft))
    requires Progress(disk.sectors, free, j, sectorsLeft)
    modifies freeMap, freeMap.words, disk
    ensures freeMap.Valid() && s == TableSector(free, j)
    ensures ok <==> 41 + 33 * j < |free|
    ensures Untouched(disk.sectors, old(disk.sectors), free) && Formatted(disk.sectors)
    ensures ok ==> Progress(disk.sectors, free, j + 1, sectorsLeft)
    ensures ok ==> Cursor(freeMap.free, free, TableCursor(j + 1, sectorsLeft))
  {
    hide Ascending, Progress, Free;
    s := TakeNext(freeMap, free, 41 + 33 * j);
    var table := new Int32[LEVEL_MAP_NUM];
    var count := if 32 * j + 32 <= sectorsLeft then 32 else sectorsLeft - 32 * j;
    FillTable(freeMap, table, 0, count, free, 42 + 33 * j);
    ok := 0 <= s < NUM_SECTORS;
    if ok {
      ghost var bytes := WriteTable(disk, s, table);
      ProgressStep(old(disk.sectors), free, j, sectorsLeft, bytes, table[..]);
    }
  }

  method AllocateSecondLevel(freeMap: BitMap, disk: SynchDisk, numSectors: int, ghost free: seq<int>)
    returns (ok: bool, doubleIndirectIndex: array<Int32>)
    requires disk.Valid() && freeMap.Valid() && freeMap.numBits == NUM_SECTORS
    requires 39 <= numSectors <= |free| <= NUM_SECTORS && Ascending(free) && OnDisk(free)
    requires Cursor(freeMap.free, free, 41)
    requires Progress(disk.sectors, free, 0, numSectors - 39)
    modifies freeMap, freeMap.words, disk
    ensures disk.Valid() && freeMap.Valid()
    ensures fresh(doubleIndirectIndex) && doubleIndirectIndex.Length == LEVEL_MAP_NUM
    ensures ok <==> Tables(numSectors) == 0 || 41 + 33 * (Tables(numSectors) - 1) < |free|
    ensures Untouched(disk.sectors, old(disk.sectors), free)
    ensures ok ==> forall k :: 0 <= k < Tables(numSectors) ==> doubleIndirectIndex[k] == TableSector(free, k)
    ensures ok ==> Progress(disk.sectors, free, Tables(numSectors), numSectors - 39)
    ensures ok ==> Cursor(freeMap.free, free, Total(true, numSectors))
  {
    hide Ascending, Progress, Free, OnDisk;
    var sectorsLeft := numSectors - 39;
    doubleIndirectIndex := new Int32[LEVEL_MAP_NUM];
    for j := 0 to Tables(numSectors)
      invariant freeMap.Valid() && disk.Valid()
      invariant fresh(doubleIndirectIndex) && doubleIndirectIndex.Length == LEVEL_MAP_NUM
      invariant Cursor(freeMap.free, free, TableCursor(j, sectorsLeft))
      invariant j > 0 ==> 41 + 33 * (j - 1) < |free|
      invariant forall k :: 0 <= k < j ==> doubleIndirectIndex[k] == TableSector(free, k)
      invariant Progress(disk.sectors, free, j, sectorsLeft)
      invariant Untouched(disk.sectors, old(disk.sectors), free)
    {
      var s;
      s, ok := AllocateTable(freeMap, disk, j, sectorsLeft, free);
      doubleIndirectIndex[j] := s;
      if !ok {
        return;
      }
    }
    ok := true;
  }

  // ---------------------------------------------------------------------------
  // Giving sectors back

  ghost function Elements(xs: seq<int>): set<int> {
    set x | x in xs
  }

  lemma ElementsSnoc(xs: seq<int>, i: nat)
    requires i < |xs|
    ensures Elements(xs[..i + 1]) == Elements(xs[..i]) + {xs[i]}
  {
    assert xs[..i + 1] == xs[..i] + [xs[i]];
  }

  ghost predicate Distinct(blocks: seq<int>, index: seq<int>) {
    OnDisk(blocks) && OnDisk(index) && NoDup(blocks) && NoDup(index) && Apart(blocks, index)
  }

  /** The data sectors of a file and the index sectors that reading it goes through. */
  ghost function Owned(ind: bool, h: Inode, d: Sectors): set<int>
    requires h.numSectors >= 0
  {
    Elements(Blocks(ind, h, d)) + Elements(IndexSectors(ind, h, d))
  }

  /** The header as far as its index reaches. */
  function Clipped(ind: bool, h: Inode): Inode {
    if h.numSectors < 0 then h.(numSectors := 0)
    else if ind && h.numSectors > MaxSectors(true) then h.(numSectors := MaxSectors(true))
    else h
  }

  /** What lies behind the table does not matter while the size is right. */
  function NoWord(k: nat): Int32 {
    0
  }

  /** The data sectors that Deallocate goes through, and the index sectors. */
  function Visited(ind: bool, h: Inode, d: Sectors, beyond: nat -> Int32): seq<int> {
    if !ind && h.numSectors > 9
    then seq(h.numSectors, i requires 0 <= i => if i < 9 then HeaderEntry(h, i) else beyond(i))
    else Blocks(ind, Clipped(ind, h), d)
  }

  function VisitedIndex(ind: bool, h: Inode, d: Sectors): seq<int> {
    IndexSectors(ind, Clipped(ind, h), d)
  }

  /** For a size that the tables can hold these are the sectors of the file. */
  lemma VisitedIsOwned(ind: bool, h: Inode, d: Sectors, beyond: nat -> Int32)
    requires 0 <= h.numSectors <= MaxSectors(ind)
    ensures Visited(ind, h, d, beyond) == Blocks(ind, h, d) && VisitedIndex(ind, h, d) == IndexSectors(ind, h, d)
    ensures Elements(Visited(ind, h, d, beyond)) + Elements(VisitedIndex(ind, h, d)) == Owned(ind, h, d)
  {
  }

  lemma DirectVisited(ind: bool, h: Inode, d: Sectors, beyond: nat -> Int32)
    requires |h.dataSectors| == NUM_DATA_SECTORS
    ensures var blocks := Visited(ind, h, d, beyond);
      && (ind ==> IsClipped(h.numSectors, |blocks|) || h.numSectors < 0 == |blocks|)
      && (!ind || h.numSectors <= 7 ==> VisitedIndex(ind, h, d) == [])
      && (!ind ==> |blocks| == if h.numSectors > 0 then h.numSectors else 0)
      && (forall k :: 0 <= k < |blocks| && k < NumDirect(ind) ==> blocks[k] == h.dataSectors[k])
      && (!ind ==> forall k :: 9 <= k < |blocks| ==> blocks[k] == beyond(k))
  {
    var blocks := Visited(ind, h, d, beyond);
    forall k | 0 <= k < |blocks| && k < NumDirect(ind) ensures blocks[k] == h.dataSectors[k] {
      if ind || h.numSectors <= 9 {
        assert blocks[k] == BlockSector(ind, Clipped(ind, h), d, k) == HeaderEntry(h, k);
      } else {
        assert blocks[k] == HeaderEntry(h, k);
      }
    }
  }

  ghost predicate AllMarked(bits: seq<bool>, xs: seq<int>) {
    forall k :: 0 <= k < |xs| ==> 0 <= xs[k] < |bits| && bits[xs[k]]
  }

  /** The map after the given sectors were released. */
  ghost predicate Cleared(now: seq<bool>, was: seq<bool>, gone: set<int>) {
    && |now| == |was|
    && forall s :: 0 <= s < |was| ==> now[s] == (was[s] && s !in gone)
  }

  /** i blocks and m index sectors have been released so far: all of them different, and marked before. */
  ghost predicate Gone(now: seq<bool>, was: seq<bool>, blocks: seq<int>, index: seq<int>, i: nat, m: nat) {
    && i <= |blocks| && m <= |index|
    && Distinct(blocks[..i], index[..m])
    && AllMarked(was, blocks[..i]) && AllMarked(was, index[..m])
    && Cleared(now, was, Elements(blocks[..i]) + Elements(index[..m]))
  }

  /** All sectors of a file are different and marked: what Deallocate insists on. */
  ghost predicate Releasable(was: seq<bool>, blocks: seq<int>, index: seq<int>) {
    Distinct(blocks, index) && AllMarked(was, blocks) && AllMarked(was, index)
  }

  lemma GoneNone(was: seq<bool>, blocks: seq<int>, index: seq<int>)
    ensures Gone(was, was, blocks, index, 0, 0)
  {
  }

  lemma GoneAll(now: seq<bool>, was: seq<bool>, blocks: seq<int>, index: seq<int>)
    requires Gone(now, was, blocks, index, |blocks|, |index|)
    ensures Releasable(was, blocks, index) && Cleared(now, was, Elements(blocks) + Elements(index))
  {
    assert blocks[..|blocks|] == blocks && index[..|index|] == index;
  }

  lemma GoneBlock(now: seq<bool>, was: seq<bool>, blocks: seq<int>, index: seq<int>, i: nat, m: nat)
    requires Gone(now, was, blocks, index, i, m) && |was| == NUM_SECTORS && i < |blocks|
    ensures 0 <= blocks[i] < NUM_SECTORS && now[blocks[i]] ==>
      Gone(now[blocks[i] := false], was, blocks, index, i + 1, m)
    ensures !(0 <= blocks[i] < NUM_SECTORS && now[blocks[i]]) ==> !Releasable(was, blocks, index)
  {
    ElementsSnoc(blocks, i);
    var s, gone := blocks[i], Elements(blocks[..i]) + Elements(index[..m]);
    if 0 <= s < NUM_SECTORS && now[s] {
      DistinctSnoc(blocks[..i], index[..m], s);
      assert blocks[..i + 1] == blocks[..i] + [s];
    } else if s in gone && Distinct(blocks, index) {
      NotTwice(blocks, index, i, m);
    }
  }

  lemma GoneIndex(now: seq<bool>, was: seq<bool>, blocks: seq<int>, index: seq<int>, i: nat, m: nat)
    requires Gone(now, was, blocks, index, i, m) && |was| == NUM_SECTORS && m < |index|
    ensures 0 <= index[m] < NUM_SECTORS && now[index[m]] ==> Gone(now[index[m] := false], was, blocks, index, i, m + 1)
    ensures !(0 <= index[m] < NUM_SECTORS && now[index[m]]) ==> !Releasable(was, blocks, index)
  {
    ElementsSnoc(index, m);
    var s, gone := index[m], Elements(blocks[..i]) + Elements(index[..m]);
    if 0 <= s < NUM_SECTORS && now[s] {
      DistinctSnoc(index[..m], blocks[..i], s);
      assert index[..m + 1] == index[..m] + [s];
    } else if s in gone && Distinct(blocks, index) {
      NotTwice(index, blocks, m, i);
    }
  }

  /** One more sector that is in neither list. */
  lemma DistinctSnoc(xs: seq<int>, ys: seq<int>, s: int)
    requires Distinct(xs, ys) && 0 <= s < NUM_SECTORS && s !in Elements(xs) && s !in Elements(ys)
    ensures Distinct(xs + [s], ys) && Distinct(ys, xs + [s])
  {
    forall i | 0 <= i < |xs| ensures xs[i] != s { assert xs[i] in Elements(xs); }
    forall i | 0 <= i < |ys| ensures ys[i] != s { assert ys[i] in Elements(ys); }
  }

  lemma NotTwice(xs: seq<int>, ys: seq<int>, i: nat, m: nat)
    requires (Distinct(xs, ys) || Distinct(ys, xs)) && i < |xs| && m <= |ys|
    ensures xs[i] !in Elements(xs[..i]) && xs[i] !in Elements(ys[..m])
  {
    forall k | 0 <= k < i ensures xs[..i][k] != xs[i] { assert xs[..i][k] == xs[k]; }
    forall k | 0 <= k < m ensures ys[..m][k] != xs[i] { assert ys[..m][k] == ys[k]; }
  }

  /** Clears a sector that ought to be marked; the result is false where the source stops because it is not. */
  method Release(freeMap: BitMap, s: int) returns (ok: bool)
    requires freeMap.Valid()
    modifies freeMap, freeMap.words
    ensures freeMap.Valid()
    ensures ok == (0 <= s < freeMap.numBits && old(freeMap.bits)[s])
    ensures freeMap.bits == if ok then old(freeMap.bits)[s := false] else old(freeMap.bits)
  {
    ok := false;
    if 0 <= s < freeMap.numBits {
      ok := freeMap.Test(s);
    }
    if ok {
      freeMap.Clear(s);
    }
  }

  /** A loop that ends at block number end, or at the size of the file, stays within the first n blocks. */
  predicate Covers(numSectors: int, n: nat, end: nat) {
    n == (if numSectors > 0 then numSectors else 0) || end <= n < numSectors
  }

  /** Releases the blocks listed in table, from block i on, until the table or the file ends. */
  method ReleaseListed(freeMap: BitMap, table: array<Int32>, numSectors: int, i0: nat,
                       ghost was: seq<bool>, ghost blocks: seq<int>, ghost index: seq<int>, ghost m: nat)
    returns (ok: bool, i: nat)
    requires freeMap.Valid() && freeMap.numBits == NUM_SECTORS == |was|
    requires i0 <= |blocks| && Covers(numSectors, |blocks|, i0 + table.Length)
    requires forall k :: 0 <= k < table.Length && i0 + k < |blocks| ==> table[k] == blocks[i0 + k]
    requires Gone(freeMap.bits, was, blocks, index, i0, m)
    modifies freeMap, freeMap.words
    ensures freeMap.Valid()
    ensures ok ==> i == if i0 + table.Length <= |blocks| then i0 + table.Length else |blocks|
    ensures ok ==> Gone(freeMap.bits, was, blocks, index, i, m)
    ensures !ok ==> !Releasable(was, blocks, index)
  {
    i := i0;
    var ii := 0;
    while i < numSectors && ii < table.Length
      invariant i == i0 + ii && i <= |blocks| && ii <= table.Length
      invariant freeMap.Valid() && Gone(freeMap.bits, was, blocks, index, i, m)
    {
      GoneBlock(freeMap.bits, was, blocks, index, i, m);
      ok := Release(freeMap, table[ii]);
      if !ok { return; }
      i, ii := i + 1, ii + 1;
    }
    ok := true;
  }

  /** Reads an index table from its sector. */
  method ReadTable(disk: SynchDisk, s: int) returns (table: array<Int32>)
    requires disk.Valid() && 0 <= s < NUM_SECTORS
    ensures fresh(table) && table.Length == LEVEL_MAP_NUM
    ensures forall k :: 0 <= k < LEVEL_MAP_NUM ==> table[k] == Entry(disk.sectors, s, k)
  {
    var buf := new Byte[SECTOR_SIZE];
    disk.ReadSector(s, buf, 0);
    var image := buf[..];
    assert image == disk.sectors[s];
    table := new Int32[LEVEL_MAP_NUM](k requires 0 <= k < LEVEL_MAP_NUM => WordAt(image, k));
  }

  /** Index sector s lists the blocks from number i on. */
  ghost predicate TableLists(d: Sectors, s: int, blocks: seq<int>, i: nat) {
    forall r :: 0 <= r < 32 && i + r < |blocks| ==> Entry(d, s, r) == blocks[i + r]
  }

  /** What the index sectors list, read off the disk: single is the first-level index sector, top the
      second-level one. */
  ghost predicate IndexLists(d: Sectors, n: int, single: int, top: int, blocks: seq<int>, index: seq<int>) {
    && |blocks| == n && Tables(n) <= LEVEL_MAP_NUM
    && |index| == (if n > 39 then Tables(n) + 2 else 1)
    && index[0] == single
    && TableLists(d, single, blocks, 7)
    && (n > 39 ==> index[|index| - 1] == top)
    && (forall j :: 0 <= j < Tables(n) ==> Entry(d, top, j) == index[1 + j])
    && (forall j :: 0 <= j < Tables(n) ==> TableLists(d, index[1 + j], blocks, 39 + 32 * j))
  }

  lemma SecondLevelLists(h: Inode, d: Sectors, j: nat)
    requires 39 < h.numSectors && j < Tables(h.numSectors)
    ensures TableLists(d, Entry(d, HeaderEntry(h, DOUBLE_IDX), j), Blocks(true, h, d), 39 + 32 * j)
  {
    forall r | 0 <= r < 32 && 39 + 32 * j + r < h.numSectors
      ensures BlockSector(true, h, d, 39 + 32 * j + r) == Entry(d, Entry(d, HeaderEntry(h, DOUBLE_IDX), j), r)
    {
      assert (32 * j + r) / 32 == j && (32 * j + r) % 32 == r;
    }
  }

  /** What the index of any header lists. */
  lemma HeaderLists(h: Inode, d: Sectors)
    requires |h.dataSectors| == NUM_DATA_SECTORS && 7 < h.numSectors <= MaxSectors(true)
    ensures IndexLists(d, h.numSectors, h.dataSectors[INDIRECT_IDX], h.dataSectors[DOUBLE_IDX], Blocks(true, h, d),
      IndexSectors(true, h, d))
  {
    if h.numSectors > 39 {
      var index := IndexSectors(true, h, d);
      forall j | 0 <= j < Tables(h.numSectors) ensures TableLists(d, index[1 + j], Blocks(true, h, d), 39 + 32 * j) {
        SecondLevelLists(h, d, j);
      }
    }
  }

  lemma VisitedLists(h: Inode, d: Sectors, beyond: nat -> Int32)
    requires |h.dataSectors| == NUM_DATA_SECTORS && 7 < h.numSectors
    ensures var blocks := Visited(true, h, d, beyond);
      IndexLists(d, |blocks|, h.dataSectors[INDIRECT_IDX], h.dataSectors[DOUBLE_IDX], blocks, VisitedIndex(true, h, d))
  {
    HeaderLists(Clipped(true, h), d);
    hide IndexLists, BlockSector, IndexSectors;
  }

  lemma IndexOnDisk(h: Inode, d: Sectors, i: nat)
    requires WellFormed(true, h, d) && 7 <= i < h.numSectors
    ensures i < 39 ==> 0 <= HeaderEntry(h, INDIRECT_IDX) < NUM_SECTORS
    ensures i >= 39 ==> (i - 39) / 32 < 32 && 0 <= HeaderEntry(h, DOUBLE_IDX) < NUM_SECTORS
    ensures i >= 39 ==> 0 <= Entry(d, HeaderEntry(h, DOUBLE_IDX), (i - 39) / 32) < NUM_SECTORS
  {
    var index := IndexSectors(true, h, d);
    assert index[0] == HeaderEntry(h, INDIRECT_IDX);
    if i >= 39 {
      assert index[|index| - 1] == HeaderEntry(h, DOUBLE_IDX);
      assert index[1 + (i - 39) / 32] == Entry(d, HeaderEntry(h, DOUBLE_IDX), (i - 39) / 32);
    }
  }

  lemma OffsetToBlock(offset: nat)
    ensures offset < 7 * 128 <==> offset / 128 < 7
    ensures offset < 39 * 128 <==> offset / 128 < 39
    ensures offset >= 7 * 128 ==> (offset - 7 * 128) / 128 == offset / 128 - 7
    ensures offset >= 39 * 128 ==> (offset - 39 * 128) / 128 == offset / 128 - 39
  {
  }

  /** The loops over the index end with its last entry, whatever the size says. */
  predicate IsClipped(numSectors: int, n: int) {
    n == if numSectors <= MaxSectors(true) then numSectors else MaxSectors(true)
  }

  /** The part of Deallocate for files with an index. */
  method ReleaseIndirect(freeMap: BitMap, disk: SynchDisk, numSectors: int, single: int, top: int,
                         ghost was: seq<bool>, ghost blocks: seq<int>, ghost index: seq<int>) returns (ok: bool)
    requires disk.Valid() && freeMap.Valid() && freeMap.numBits == NUM_SECTORS == |was|
    requires 7 < |blocks| && IsClipped(numSectors, |blocks|)
    requires IndexLists(disk.sectors, |blocks|, single, top, blocks, index)
    requires Gone(freeMap.bits, was, blocks, index, 7, 0)
    modifies freeMap, freeMap.words
    ensures freeMap.Valid()
    ensures ok ==> Gone(freeMap.bits, was, blocks, index, |blocks|, |index|)
    ensures !ok ==> !Releasable(was, blocks, index)
  {
    var i;
    ok, i := ReleaseTable(freeMap, disk, numSectors, single, 7, was, blocks, index, 0);
    if ok && numSectors > 39 {
      ok := ReleaseTables(freeMap, disk, numSectors, single, top, was, blocks, index);
    }
  }

  /** The blocks one index sector lists, and then the index sector. */
  method ReleaseTable(freeMap: BitMap, disk: SynchDisk, numSectors: int, s: int, i0: nat,
                      ghost was: seq<bool>, ghost blocks: seq<int>, ghost index: seq<int>, ghost m: nat)
    returns (ok: bool, i: nat)
    requires disk.Valid() && freeMap.Valid() && freeMap.numBits == NUM_SECTORS == |was|
    requires i0 <= |blocks| && Covers(numSectors, |blocks|, i0 + 32)
    requires m < |index| && s == index[m] && TableLists(disk.sectors, s, blocks, i0)
    requires Gone(freeMap.bits, was, blocks, index, i0, m)
    modifies freeMap, freeMap.words
    ensures freeMap.Valid()
    ensures ok ==> i == if i0 + 32 <= |blocks| then i0 + 32 else |blocks|
    ensures ok ==> Gone(freeMap.bits, was, blocks, index, i, m + 1)
    ensures !ok ==> !Releasable(was, blocks, index)
  {
    if !(0 <= s < NUM_SECTORS) {
      return false, i0;
    }
    var table := ReadTable(disk, s);
    ok, i := ReleaseListed(freeMap, table, numSectors, i0, was, blocks, index, m);
    if ok {
      GoneIndex(freeMap.bits, was, blocks, index, i, m);
      ok := Release(freeMap, s);
    }
  }

  method ReleaseTables(freeMap: BitMap, disk: SynchDisk, numSectors: int, ghost single: int, top: int,
                       ghost was: seq<bool>, ghost blocks: seq<int>, ghost index: seq<int>) returns (ok: bool)
    requires disk.Valid() && freeMap.Valid() && freeMap.numBits == NUM_SECTORS == |was|
    requires 39 < |blocks| && IsClipped(numSectors, |blocks|)
    requires IndexLists(disk.sectors, |blocks|, single, top, blocks, index)
    requires Gone(freeMap.bits, was, blocks, index, 39, 1)
    modifies freeMap, freeMap.words
    ensures freeMap.Valid()
    ensures ok ==> Gone(freeMap.bits, was, blocks, index, |blocks|, |index|)
    ensures !ok ==> !Releasable(was, blocks, index)
  {
    if !(0 <= top < NUM_SECTORS) {
      return false;
    }
    hide Gone, Releasable, TableLists, Entry;
    ghost var n := |blocks|;
    var doubleIndex := ReadTable(disk, top);
    var i, ii := 39, 0;
    while i < numSectors && ii < LEVEL_MAP_NUM
      invariant forall j :: 0 <= j < Tables(n) ==> doubleIndex[j] == index[1 + j]
      invariant ii <= Tables(n) && i == (if 39 + 32 * ii <= n then 39 + 32 * ii else n)
      invariant i == n ==> ii == Tables(n)
      invariant freeMap.Valid() && Gone(freeMap.bits, was, blocks, index, i, 1 + ii)
    {
      assert ii < Tables(n);
      ok, i := ReleaseTable(freeMap, disk, numSectors, doubleIndex[ii], i, was, blocks, index, 1 + ii);
      if !ok { return; }
      ii := ii + 1;
    }
    GoneIndex(freeMap.bits, was, blocks, index, i, 1 + ii);
    ok := Release(freeMap, top);
  }

  class FileHeader {
    const indirect: bool
    var numBytes: Int32
    var numSectors: Int32
    const dataSectors: array<Int32>

    ghost predicate Valid()
      reads this
    {
      dataSectors.Length == NUM_DATA_SECTORS
    }

    ghost function View(): Inode
      reads this, dataSectors
    {
      Inode(numBytes, numSectors, dataSectors[..])
    }

    /** The sector that the header and the attributes make up. */
    ghost function Image(attributes: seq<Byte>): (image: seq<Byte>)
      requires Valid() && |attributes| == ATTRIBUTE_BYTES
      reads this, dataSectors
      ensures |image| == SECTOR_SIZE && Decode(image) == View()
    {
      Encode(numBytes, numSectors, dataSectors[..], attributes)
    }

    constructor (indirect: bool)
      ensures Valid() && fresh(dataSectors) && this.indirect == indirect
    {
      this.indirect := indirect;
      dataSectors := new Int32[NUM_DATA_SECTORS];
    }

    /** Lays a new file of fileSize bytes out along the free list. The guard counts data sectors only,
        so a nearly full map can run out on the way: Find then yields -1, which aborts the machine when
        it is the number of an index sector to be written, and otherwise ends up in the table. */
    method Allocate(freeMap: BitMap, disk: SynchDisk, fileSize: Int32) returns (outcome: Outcome)
      requires Valid() && disk.Valid() && freeMap.Valid() && freeMap.numBits == NUM_SECTORS
      requires freeMap.words as object != dataSectors
      modifies this, dataSectors, freeMap, freeMap.words, disk
      ensures Valid() && disk.Valid() && freeMap.Valid()
      ensures numBytes == fileSize && numSectors == SectorsFor(fileSize)
      ensures outcome == Answer(indirect, numSectors, |old(freeMap.free)|)
      ensures outcome == Refused <==> 0 <= numSectors && |old(freeMap.free)| < numSectors
      ensures outcome == Aborted <==> Stops(indirect, numSectors, |old(freeMap.free)|)
      ensures Untouched(disk.sectors, old(disk.sectors), old(freeMap.free))
      ensures !indirect || outcome == Refused ==> disk.sectors == old(disk.sectors)
      ensures outcome == Refused ==> freeMap.bits == old(freeMap.bits)
      ensures outcome == Granted ==> numSectors >= 0
      ensures outcome == Granted ==> Cursor(freeMap.free, old(freeMap.free), Total(indirect, numSectors))
      ensures outcome == Granted ==> LaidOut(indirect, View(), disk.sectors, old(freeMap.free))
    {
      ghost var free := freeMap.free;
      numBytes := fileSize;
      numSectors := SectorsFor(fileSize);
      AnswerIs(indirect, numSectors, |free|);
      AnswerCases(indirect, numSectors, |free|);
      NothingWritten(disk.sectors, free);
      hide Stops, LaidOut, Cursor, Free, Packs, Untouched, Entry, At, Total, SectorsFor, Formatted, Answer,
        LastIndexRank;
      var clear := freeMap.NumClear();
      if clear < numSectors {
        return Refused;
      }
      if 0 <= numSectors < NumDirect(indirect) {
        StartOfList(free);
        FillTable(freeMap, dataSectors, 0, numSectors, free, 0);
        DirectLaidOut(indirect, View(), disk.sectors, free);
        return Granted;
      }
      if !indirect || numSectors < 0 {
        return Aborted;
      }
      if numSectors < 39 {
        var ok := AllocateFirstLevel(freeMap, disk, numSectors - 7);
        if ok { SingleLaidOut(View(), disk.sectors, free); }
        outcome := if ok then Granted else Aborted;
      } else {
        outcome := AllocateDouble(freeMap, disk);
      }
    }

    /** What the two indirect branches start with: the direct blocks, the first index sector and
        count blocks listed in it. */
    method AllocateFirstLevel(freeMap: BitMap, disk: SynchDisk, count: nat) returns (ok: bool)
      requires Valid() && disk.Valid() && freeMap.Valid() && freeMap.numBits == NUM_SECTORS
      requires freeMap.words as object != dataSectors && count <= LEVEL_MAP_NUM
      modifies dataSectors, freeMap, freeMap.words, disk
      ensures disk.Valid() && freeMap.Valid()
      ensures ok <==> 7 < |old(freeMap.free)|
      ensures forall i :: 0 <= i < 8 ==> dataSectors[i] == At(old(freeMap.free), i)
      ensures Untouched(disk.sectors, old(disk.sectors), old(freeMap.free))
      ensures Cursor(freeMap.free, old(freeMap.free), 8 + count)
      ensures ok ==> forall k :: 0 <= k < count ==>
        Entry(disk.sectors, At(old(freeMap.free), 7), k) == At(old(freeMap.free), 8 + k)
    {
      ghost var free := freeMap.free;
      FreeOnDisk(freeMap.bits);
      StartOfList(free);
      hide Cursor, Free, Packs, Untouched, Entry, At, Ascending, OnDisk, Formatted;
      FillTable(freeMap, dataSectors, 0, 7, free, 0);
      var index := TakeNext(freeMap, free, 7);
      dataSectors[INDIRECT_IDX] := index;
      ok := AllocateSingleTable(freeMap, disk, index, count, free);
    }

    /** The double-indirect branch of Allocate. */
    method AllocateDouble(freeMap: BitMap, disk: SynchDisk) returns (outcome: Outcome)
      requires Valid() && disk.Valid() && freeMap.Valid() && freeMap.numBits == NUM_SECTORS
      requires freeMap.words as object != dataSectors
      requires indirect && 39 <= numSectors <= |freeMap.free|
      modifies dataSectors, freeMap, freeMap.words, disk
      ensures disk.Valid() && freeMap.Valid()
      ensures outcome == if |old(freeMap.free)| <= LastIndexRank(numSectors) then Aborted else Granted
      ensures Untouched(disk.sectors, old(disk.sectors), old(freeMap.free))
      ensures outcome == Granted ==> Cursor(freeMap.free, old(freeMap.free), Total(true, numSectors))
      ensures outcome == Granted ==> LaidOut(true, View(), disk.sectors, old(freeMap.free))
    {
      ghost var free := freeMap.free;
      FreeOnDisk(freeMap.bits);
      var ok := AllocateFirstLevel(freeMap, disk, LEVEL_MAP_NUM);
      var index := TakeNext(freeMap, free, 40);
      dataSectors[DOUBLE_IDX] := index;
      outcome := AllocateTables(freeMap, disk, free);
    }

    /** The second-level tables and the top table. */
    method AllocateTables(freeMap: BitMap, disk: SynchDisk, ghost free: seq<int>) returns (outcome: Outcome)
      requires Valid() && disk.Valid() && freeMap.Valid() && freeMap.numBits == NUM_SECTORS
      requires freeMap.words as object != dataSectors
      requires 39 <= numSectors <= |free| <= NUM_SECTORS && Ascending(free) && OnDisk(free)
      requires Cursor(freeMap.free, free, 41)
      requires forall i :: 0 <= i < 8 ==> dataSectors[i] == At(free, i)
      requires dataSectors[DOUBLE_IDX] == At(free, 40)
      requires Progress(disk.sectors, free, 0, numSectors - 39)
      modifies freeMap, freeMap.words, disk
      ensures disk.Valid() && freeMap.Valid()
      ensures outcome == if |free| <= LastIndexRank(numSectors) then Aborted else Granted
      ensures Untouched(disk.sectors, old(disk.sectors), free)
      ensures outcome == Granted ==> Cursor(freeMap.free, free, Total(true, numSectors))
      ensures outcome == Granted ==> LaidOut(true, View(), disk.sectors, free)
    {
      hide Ascending, Progress, Free;
      var ok, doubleIndirectIndex := AllocateSecondLevel(freeMap, disk, numSectors, free);
      if !ok || !(0 <= dataSectors[DOUBLE_IDX] < NUM_SECTORS) {
        return Aborted;
      }
      ghost var before := disk.sectors;
      ghost var bytes := WriteTable(disk, dataSectors[DOUBLE_IDX], doubleIndirectIndex);
      DoubleLaidOut(View(), before, free, bytes, doubleIndirectIndex[..]);
      return Granted;
    }

    /** Gives back the file's blocks and the index sectors its size makes it look at. The result is false where the
        source stops: a sector that is not on the disk, not marked, or there twice. The size is not checked: without
        an index the words behind the table, which beyond stands for, are taken for sector numbers. */
    method Deallocate(freeMap: BitMap, disk: SynchDisk, beyond: nat -> Int32) returns (ok: bool)
      requires Valid() && disk.Valid() && freeMap.Valid() && freeMap.numBits == NUM_SECTORS
      modifies freeMap, freeMap.words
      ensures freeMap.Valid()
      ensures
        (ok <==> Releasable(old(freeMap.bits), Visited(indirect, View(), disk.sectors, beyond),
                            VisitedIndex(indirect, View(), disk.sectors)))
      ensures ok ==>
        Cleared(freeMap.bits, old(freeMap.bits),
                Elements(Visited(indirect, View(), disk.sectors, beyond))
                + Elements(VisitedIndex(indirect, View(), disk.sectors)))
    {
      hide Gone, Releasable, Visited, VisitedIndex, IndexLists, Cleared;
      ghost var was, h, d := freeMap.bits, View(), disk.sectors;
      ghost var blocks, index := Visited(indirect, h, d, beyond), VisitedIndex(indirect, h, d);
      if indirect && numSectors > 7 { VisitedLists(h, d, beyond); }
      var direct := DirectPart(beyond);
      DirectVisited(indirect, h, d, beyond);
      GoneNone(was, blocks, index);
      var i;
      ok, i := ReleaseListed(freeMap, direct, numSectors, 0, was, blocks, index, 0);
      if ok && indirect && numSectors > 7 {
        ok := ReleaseIndirect(freeMap, disk, numSectors, dataSectors[INDIRECT_IDX], dataSectors[DOUBLE_IDX], was,
          blocks, index);
      }
      if ok { GoneAll(freeMap.bits, was, blocks, index); }
    }

    /** Translates a byte offset into the sector that stores it. */
    method ByteToSector(disk: SynchDisk, offset: int) returns (s: int)
      requires Valid() && disk.Valid() && WellFormed(indirect, View(), disk.sectors)
      requires 0 <= offset && offset / 128 < numSectors
      ensures s == BlockSector(indirect, View(), disk.sectors, offset / 128)
    {
      OffsetToBlock(offset);
      if indirect && offset / 128 >= 7 {
        IndexOnDisk(View(), disk.sectors, offset / 128);
      }
      assert offset / 128 < |dataSectors[..]| || indirect;
      hide WellFormed;
      var directMapSize := NumDirect(indirect) * 128;
      var singleIndirectMapSize := directMapSize + 32 * 128;
      if !indirect || offset < directMapSize {
        s := dataSectors[offset / 128];
      } else if offset < singleIndirectMapSize {
        var sectorNum := (offset - directMapSize) / 128;
        var singleIndirectIndex := ReadTable(disk, dataSectors[INDIRECT_IDX]);
        s := singleIndirectIndex[sectorNum];
      } else {
        var indexSectorNum := (offset - singleIndirectMapSize) / 128 / 32;
        var sectorNum := (offset - singleIndirectMapSize) / 128 % 32;
        var doubleIndirectIndex := ReadTable(disk, dataSectors[DOUBLE_IDX]);
        var singleIndirectIndex := ReadTable(disk, doubleIndirectIndex[indexSectorNum]);
        s := singleIndirectIndex[sectorNum];
      }
    }

    method FetchFrom(disk: SynchDisk, sector: int)
      requires Valid() && disk.Valid() && 0 <= sector < NUM_SECTORS
      modifies this, dataSectors
      ensures Valid() && View() == Decode(disk.sectors[sector])
    {
      var buf := new Byte[SECTOR_SIZE];
      disk.ReadSector(sector, buf, 0);
      var image := buf[..];
      assert image == disk.sectors[sector];
      for i := 0 to NUM_DATA_SECTORS
        invariant forall k :: 0 <= k < i ==> dataSectors[k] == WordAt(image, 2 + k)
      {
        dataSectors[i] := WordAt(image, 2 + i);
      }
      numBytes := WordAt(image, 0);
      numSectors := WordAt(image, 1);
      assert dataSectors[..] == Decode(image).dataSectors;
    }

    /** attributes: the type and time strings that fill the rest of the header sector. */
    method WriteBack(disk: SynchDisk, sector: int, attributes: seq<Byte>)
      requires Valid() && disk.Valid() && 0 <= sector < NUM_SECTORS
      requires |attributes| == ATTRIBUTE_BYTES
      modifies disk
      ensures disk.Valid()
      ensures disk.sectors == old(disk.sectors)[sector := Image(attributes)]
    {
      var image := Encode(numBytes, numSectors, dataSectors[..], attributes);
      var buf := new Byte[SECTOR_SIZE](i requires 0 <= i < SECTOR_SIZE => image[i]);
      assert buf[0..SECTOR_SIZE] == image;
      disk.WriteSector(sector, buf, 0);
    }

    /** The words that the first loop of Deallocate goes through. */
    method DirectPart(beyond: nat -> Int32) returns (direct: array<Int32>)
      requires Valid()
      ensures fresh(direct) && direct.Length >= NumDirect(indirect)
      ensures direct.Length == if !indirect && numSectors > 9 then numSectors else NumDirect(indirect)
      ensures forall k :: 0 <= k < direct.Length ==> direct[k] == if k < 9 then dataSectors[k] else beyond(k)
    {
      var table := dataSectors[..];
      direct := new Int32[if !indirect && numSectors > 9 then numSectors else NumDirect(indirect)](
        k requires k >= 0 => if k < 9 then table[k] else beyond(k));
    }
  }

  // ---------------------------------------------------------------------------
  // Allocate and Deallocate together

  /** What Allocate grants is a usable file exactly when the map had room for the index sectors too. */
  lemma GrantSoundIffRoomForIndex(ind: bool, h: Inode, d: Sectors, free: seq<int>)
    requires Ascending(free) && OnDisk(free) && |free| <= NUM_SECTORS
    requires h.numSectors == SectorsFor(h.numBytes)
    requires Answer(ind, h.numSectors, |free|) == Granted && LaidOut(ind, h, d, free)
    ensures WellFormed(ind, h, d) <==> Total(ind, h.numSectors) <= |free|
  {
    if Total(ind, h.numSectors) <= |free| {
      LaidOutWellFormed(ind, h, d, free);
    } else {
      ShortLayoutIsBroken(ind, h, d, free);
    }
  }

  /** The guard alone is not enough: eight clear sectors are granted to a file of eight sectors, which
      needs nine, so its last block has no sector. */
  lemma GuardOvercommits(h: Inode, d: Sectors, bits: seq<bool>)
    requires |bits| == NUM_SECTORS && |Free(bits)| == 8
    requires h.numSectors == SectorsFor(h.numBytes) == 8
    requires LaidOut(true, h, d, Free(bits))
    ensures Answer(true, h.numSectors, |Free(bits)|) == Granted
    ensures !WellFormed(true, h, d) && BlockSector(true, h, d, 7) == -1
  {
    ShortLayoutIsBroken(true, h, d, Free(bits));
  }

  lemma {:induction false} FreeTail(bits: seq<bool>, from: nat, k: nat)
    requires k <= |bits| && from <= |bits|
    requires forall i :: 0 <= i < |bits| ==> (bits[i] <==> i < from)
    ensures |FreeFrom(bits, k)| == |bits| - if k < from then from else k
    decreases |bits| - k
  {
    if k < |bits| { FreeTail(bits, from, k + 1); }
  }

  /** Such a map exists, and Allocate does grant the file on it: the header it fills in is not usable. */
  method Overcommit(disk: SynchDisk) returns (outcome: Outcome, h: Inode, d: Sectors)
    requires disk.Valid()
    modifies disk
    ensures outcome == Granted && h.numSectors == SectorsFor(h.numBytes) == 8
    ensures !WellFormed(true, h, d) && BlockSector(true, h, d, 7) == -1
  {
    var freeMap := new BitMap(NUM_SECTORS);
    for i := 0 to NUM_SECTORS - 8
      invariant disk.Valid() && freeMap.Valid() && fresh(freeMap) && fresh(freeMap.words)
      invariant forall k :: 0 <= k < NUM_SECTORS ==> (freeMap.bits[k] <==> k < i)
    {
      freeMap.Mark(i);
    }
    ghost var bits := freeMap.bits;
    FreeTail(bits, NUM_SECTORS - 8, 0);
    var hdr := new FileHeader(true);
    outcome := hdr.Allocate(freeMap, disk, 8 * SECTOR_SIZE);
    h, d := Inode(hdr.numBytes, hdr.numSectors, hdr.dataSectors[..]), disk.sectors;
    GuardOvercommits(h, d, bits);
  }

  /** Consecutive blocks lie in ascending sectors, all of them clear before the call. */
  lemma BlocksAscend(ind: bool, h: Inode, d: Sectors, bits: seq<bool>, i: nat, j: nat)
    requires |bits| == NUM_SECTORS
    requires LaidOut(ind, h, d, Free(bits)) && h.numSectors <= MaxSectors(ind)
    requires Total(ind, h.numSectors) <= |Free(bits)|
    requires i < j < h.numSectors
    ensures 0 <= BlockSector(ind, h, d, i) < BlockSector(ind, h, d, j) < NUM_SECTORS
    ensures !bits[BlockSector(ind, h, d, i)] && !bits[BlockSector(ind, h, d, j)]
  {
    FreeOnDisk(bits);
    FreeSpec(bits);
    RankMonotone(ind, i, j);
    RankBound(ind, j, h.numSectors);
    assert Free(bits)[Rank(ind, i)] in Free(bits) && Free(bits)[Rank(ind, j)] in Free(bits);
  }

  /** The Find, if any, whose sector Deallocate forgets. */
  function Leaked(ind: bool, n: nat): seq<nat> {
    if ind then Layouts.Leaked(7, 32, n) else []
  }

  lemma LeakedOnce(ind: bool, n: nat)
    ensures |Leaked(ind, n)| <= 1
    ensures forall k :: k in Leaked(ind, n) ==> k < Total(ind, n)
  {
  }

  /** A sector is taken by Allocate exactly when Deallocate returns it, except for the leaked one. */
  lemma TakenIsOwned(ind: bool, h: Inode, d: Sectors, free: seq<int>, k: nat)
    requires LaidOut(ind, h, d, free)
    requires Ascending(free) && OnDisk(free) && Total(ind, h.numSectors) <= |free| && k < |free|
    ensures free[k] in Owned(ind, h, d) <==> k < Total(ind, h.numSectors) && k !in Leaked(ind, h.numSectors)
  {
    var blocks, index := Blocks(ind, h, d), IndexSectors(ind, h, d);
    if ind {
      LaidOutAlong(h, d, free);
      Layouts.AlongIsReturned(7, 32, free, blocks, index, k);
    } else {
      if k < h.numSectors { assert blocks[k] == free[k]; }
      if free[k] in blocks {
        var i :| 0 <= i < |blocks| && blocks[i] == free[k];
        SamePlace(free, i, k);
      }
    }
  }

  lemma SamePlace(xs: seq<int>, i: nat, j: nat)
    requires Ascending(xs) && i < |xs| && j < |xs| && xs[i] == xs[j]
    ensures i == j
  {
  }

  lemma TakenOrBefore(before: seq<bool>, during: seq<bool>, n: nat, s: nat)
    requires |before| == |during| == NUM_SECTORS && n <= |Free(before)| && s < NUM_SECTORS
    requires Cursor(Free(during), Free(before), n)
    ensures before[s] ==> during[s]
    ensures !before[s] ==> exists k :: 0 <= k < |Free(before)| && Free(before)[k] == s && (during[s] <==> k < n)
  {
    FreeOnDisk(before);
    FreeSpec(before);
    FreeSpec(during);
    var free := Free(before);
    if before[s] {
      assert s !in free;
    } else {
      assert s in free;
      var k :| 0 <= k < |free| && free[k] == s;
      if k < n {
        assert s !in free[n..];
      } else {
        assert free[n..][k - n] == s;
      }
    }
  }

  /** Allocate followed by Deallocate restores the free map, except that a file of exactly NumDirect or
      NumDirect + LevelMapNum sectors leaves one index sector marked. */
  lemma AllocateThenDeallocate(ind: bool, h: Inode, d: Sectors, before: seq<bool>, during: seq<bool>, after: seq<bool>)
    requires |before| == |during| == NUM_SECTORS && 0 <= h.numSectors <= MaxSectors(ind)
    requires Total(ind, h.numSectors) <= |Free(before)|
    requires Cursor(Free(during), Free(before), Total(ind, h.numSectors))
    requires LaidOut(ind, h, d, Free(before))
    requires Cleared(after, during, Owned(ind, h, d))
    ensures Leaked(ind, h.numSectors) == [] ==> after == before
    ensures forall k :: k in Leaked(ind, h.numSectors) ==>
      0 <= k < |Free(before)| && 0 <= Free(before)[k] < NUM_SECTORS && after == before[Free(before)[k] := true]
  {
    hide LaidOut, Free, Cursor, Owned, Total, Leaked;
    LeakedOnce(ind, h.numSectors);
    var n, free := h.numSectors, Free(before);
    FreeOnDisk(before);
    forall s | 0 <= s < NUM_SECTORS
      ensures before[s] ==> after[s]
      ensures !before[s] ==> (after[s] <==> exists k :: k in Leaked(ind, n) && 0 <= k < |free| && free[k] == s)
    {
      TakenOrBefore(before, during, Total(ind, n), s);
      if before[s] {
        if s in Owned(ind, h, d) { OwnedWasFree(ind, h, d, before, s); }
      } else {
        var k :| 0 <= k < |free| && free[k] == s && (during[s] <==> k < Total(ind, n));
        TakenIsOwned(ind, h, d, free, k);
        forall l | l in Leaked(ind, n) && 0 <= l < |free| && free[l] == s ensures l == k {
          SamePlace(free, l, k);
        }
      }
    }
  }

  lemma OwnedWasFree(ind: bool, h: Inode, d: Sectors, before: seq<bool>, s: int)
    requires |before| == NUM_SECTORS
    requires LaidOut(ind, h, d, Free(before)) && s in Owned(ind, h, d)
    requires Total(ind, h.numSectors) <= |Free(before)|
    ensures 0 <= s < NUM_SECTORS && !before[s]
    ensures s in Free(before)[..Total(ind, h.numSectors)]
  {
    var n, free := h.numSectors, Free(before);
    FreeSpec(before);
    var blocks, index := Blocks(ind, h, d), IndexSectors(ind, h, d);
    if s in blocks {
      var i :| 0 <= i < n && blocks[i] == s;
      RankBound(ind, i, n);
      assert free[..Total(ind, n)][Rank(ind, i)] == s;
    } else {
      IndexAlongFree(h, d, free);
      var m :| 0 <= m < |index| && index[m] == s;
      Layouts.IndexRanksSpec(7, 32, n, m, m);
      assert free[..Total(ind, n)][IndexRanks(n)[m]] == s;
    }
    assert s in free;
  }

  /** Nothing Deallocate tests was unmarked: no "ought to be marked" assertion fails. */
  lemma AllocatedIsMarked(ind: bool, h: Inode, d: Sectors, before: seq<bool>, during: seq<bool>)
    requires |before| == |during| == NUM_SECTORS && 0 <= h.numSectors <= MaxSectors(ind)
    requires Total(ind, h.numSectors) <= |Free(before)|
    requires Cursor(Free(during), Free(before), Total(ind, h.numSectors))
    requires LaidOut(ind, h, d, Free(before))
    ensures AllMarked(during, Blocks(ind, h, d)) && AllMarked(during, IndexSectors(ind, h, d))
  {
    forall s | s in Owned(ind, h, d) ensures 0 <= s < NUM_SECTORS && during[s] {
      var n, free := h.numSectors, Free(before);
      OwnedWasFree(ind, h, d, before, s);
      FreeOnDisk(before);
      TakenOrBefore(before, during, Total(ind, n), s);
      var k :| 0 <= k < |free| && free[k] == s && (during[s] <==> k < Total(ind, n));
      var l :| 0 <= l < Total(ind, n) && free[..Total(ind, n)][l] == s;
      SamePlace(free, k, l);
    }
    assert forall i :: 0 <= i < |Blocks(ind, h, d)| ==> Blocks(ind, h, d)[i] in Owned(ind, h, d);
    assert forall i :: 0 <= i < |IndexSectors(ind, h, d)| ==> IndexSectors(ind, h, d)[i] in Owned(ind, h, d);
  }

  lemma WellFormedApart(ind: bool, h: Inode, d: Sectors)
    requires WellFormed(ind, h, d)
    ensures Distinct(Blocks(ind, h, d), IndexSectors(ind, h, d))
  {
  }

  lemma RoomIsGranted(ind: bool, n: int, free: nat)
    requires 0 <= n && Total(ind, n) <= free <= NUM_SECTORS && (!ind ==> n < MaxSectors(false))
    ensures Answer(ind, n, free) == Granted && n <= MaxSectors(ind)
  {
  }

  /** The two operations run one after the other on a real map and disk. */
  method AllocateAndFree(hdr: FileHeader, freeMap: BitMap, disk: SynchDisk, fileSize: Int32, beyond: nat -> Int32)
    returns (outcome: Outcome, ok: bool)
    requires hdr.Valid() && disk.Valid() && freeMap.Valid() && freeMap.numBits == NUM_SECTORS
    requires freeMap.words as object != hdr.dataSectors
    requires 0 <= fileSize && Total(hdr.indirect, SectorsFor(fileSize)) <= |freeMap.free|
    requires !hdr.indirect ==> SectorsFor(fileSize) < MaxSectors(false)
    modifies hdr, hdr.dataSectors, freeMap, freeMap.words, disk
    ensures outcome == Granted && ok && freeMap.Valid()
    ensures Leaked(hdr.indirect, SectorsFor(fileSize)) == [] ==> freeMap.bits == old(freeMap.bits)
    ensures forall k :: k in Leaked(hdr.indirect, SectorsFor(fileSize)) ==>
      && 0 <= k < |old(freeMap.free)| && 0 <= old(freeMap.free)[k] < NUM_SECTORS
      && freeMap.bits == old(freeMap.bits)[old(freeMap.free)[k] := true]
  {
    ghost var before, ind := freeMap.bits, hdr.indirect;
    FreeOnDisk(before);
    RoomIsGranted(ind, SectorsFor(fileSize), |freeMap.free|);
    hide Answer, LaidOut, Cursor, Owned, Total, Leaked, Cleared, Blocks, IndexSectors, WellFormed, Visited,
      VisitedIndex, AllMarked, SectorsFor, Untouched, Free, Ascending, Distinct;
    outcome := hdr.Allocate(freeMap, disk, fileSize);
    ghost var during, h, d := freeMap.bits, hdr.View(), disk.sectors;
    GrantSoundIffRoomForIndex(ind, h, d, Free(before));
    AllocatedIsMarked(ind, h, d, before, during);
    WellFormedApart(ind, h, d);
    VisitedIsOwned(ind, h, d, beyond);
    ok := hdr.Deallocate(freeMap, disk, beyond);
    AllocateThenDeallocate(ind, h, d, before, during, freeMap.bits);
  }
}
