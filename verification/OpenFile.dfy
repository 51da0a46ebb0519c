/** filesys/openfile.cc: byte-range reads and writes over whole-sector I/O. */
module OpenFiles {
  import opened Collections
  import opened Words
  import opened SectorStore
  import opened FileHeaders

  // ---------------------------------------------------------------------------
  // A file as one flat byte string

  /** Byte p of a file whose blocks lie in the given sectors. */
  function ByteAt(d: Sectors, blocks: seq<int>, p: nat): Byte
    requires Formatted(d) && OnDisk(blocks) && p < 128 * |blocks|
  {
    d[blocks[p / 128]][p % 128]
  }

  function FlatBytes(d: Sectors, blocks: seq<int>, length: nat): (bytes: seq<Byte>)
    requires Formatted(d) && OnDisk(blocks) && length <= 128 * |blocks|
    ensures |bytes| == length
  {
    seq(length, p requires 0 <= p < length => ByteAt(d, blocks, p))
  }

  function Length(h: Inode): nat {
    if h.numBytes > 0 then h.numBytes else 0
  }

  /** The contents of a well-formed file. */
  ghost function Flat(ind: bool, h: Inode, d: Sectors): (bytes: seq<Byte>)
    requires Formatted(d) && WellFormed(ind, h, d)
    ensures |bytes| == Length(h)
  {
    FlatBytes(d, Blocks(ind, h, d), Length(h))
  }

  /** Bytes actually transferred by a request. */
  function Count(length: int, numBytes: int, position: int): (n: nat)
    requires position >= 0
    ensures n == 0 || position + n <= length
  {
    if numBytes <= 0 || position >= length then 0
    else if position + numBytes > length then length - position
    else numBytes
  }

  /** How many bytes of a request are transferred: none of an empty request or one behind the end of the file, and
      otherwise all that were asked for, or as many as there are up to the end. */
  ghost predicate Transferred(length: int, numBytes: int, position: int, count: nat) {
    && (numBytes <= 0 || position >= length ==> count == 0)
    && (numBytes > 0 && position < length ==> count == Min(numBytes, length - position))
  }

  lemma CountIsTransferred(length: int, numBytes: int, position: nat)
    ensures Transferred(length, numBytes, position, Count(length, numBytes, position))
  {
  }

  /** Byte by byte: the data has been laid over the bytes from position on, as far as these reach. */
  ghost predicate LaidOver(before: seq<Byte>, after: seq<Byte>, position: nat, data: seq<Byte>) {
    && |after| == |before|
    && forall p :: 0 <= p < |before| ==>
         after[p] == if position <= p < position + |data| then data[p - position] else before[p]
  }

  /** Byte by byte: out are the bytes from position on, numBytes of them or as many as there are. */
  ghost predicate ReadFrom(bytes: seq<Byte>, position: nat, numBytes: int, out: seq<Byte>) {
    && Transferred(|bytes|, numBytes, position, |out|)
    && forall k :: 0 <= k < |out| ==> position + k < |bytes| && out[k] == bytes[position + k]
  }

  /** The contents after writing at position. */
  function Patch(bytes: seq<Byte>, position: nat, data: seq<Byte>): (r: seq<Byte>)
    requires position + |data| <= |bytes|
    ensures |r| == |bytes|
  {
    bytes[..position] + data + bytes[position + |data|..]
  }

  /** After a write, the bytes written are read back and all others are as they were. */
  lemma PatchReadsBack(bytes: seq<Byte>, position: nat, data: seq<Byte>)
    requires position + |data| <= |bytes|
    ensures Patch(bytes, position, data)[position..position + |data|] == data
    ensures forall p :: 0 <= p < |bytes| && !(position <= p < position + |data|) ==>
      Patch(bytes, position, data)[p] == bytes[p]
  {
    assert Patch(bytes, position, data)[position..position + |data|] == data;
  }

  // ---------------------------------------------------------------------------
  // Frames

  ghost predicate SameOn(d: Sectors, e: Sectors, xs: seq<int>) {
    |d| == |e| && forall i :: 0 <= i < |xs| ==> 0 <= xs[i] < |d| && d[xs[i]] == e[xs[i]]
  }

  /** A file's sector map depends on its index sectors only. */
  lemma MapStable(ind: bool, h: Inode, d: Sectors, e: Sectors)
    requires WellFormed(ind, h, d) && SameOn(d, e, IndexSectors(ind, h, d))
    ensures Blocks(ind, h, e) == Blocks(ind, h, d)
    ensures IndexSectors(ind, h, e) == IndexSectors(ind, h, d)
    ensures WellFormed(ind, h, e)
  {
    var index := IndexSectors(ind, h, d);
    var n := h.numSectors;
    if ind && n > 39 {
      assert index[|index| - 1] == HeaderEntry(h, DOUBLE_IDX);
      assert index[0] == HeaderEntry(h, INDIRECT_IDX);
      forall i | 39 <= i < n ensures BlockSector(ind, h, e, i) == BlockSector(ind, h, d, i) {
        var j := (i - 39) / 32;
        assert j < Tables(n) && index[1 + j] == Entry(d, HeaderEntry(h, DOUBLE_IDX), j);
      }
    } else if ind && n > 7 {
      assert index[0] == HeaderEntry(h, INDIRECT_IDX);
    }
    assert Blocks(ind, h, e) == Blocks(ind, h, d);
    assert IndexSectors(ind, h, e) == index;
  }

  /** Writing other sectors does not touch a file. */
  lemma FlatStable(ind: bool, h: Inode, d: Sectors, e: Sectors)
    requires Formatted(d) && Formatted(e) && WellFormed(ind, h, d)
    requires SameOn(d, e, IndexSectors(ind, h, d)) && SameOn(d, e, Blocks(ind, h, d))
    ensures WellFormed(ind, h, e) && Flat(ind, h, e) == Flat(ind, h, d)
  {
    MapStable(ind, h, d, e);
    var blocks := Blocks(ind, h, d);
    forall p | 0 <= p < Length(h) ensures ByteAt(e, blocks, p) == ByteAt(d, blocks, p) {
      assert d[blocks[p / 128]] == e[blocks[p / 128]];
    }
  }

  /** A write confined to the blocks of one file leaves every file with other sectors as it was. */
  lemma DisjointFileUntouched(ind: bool, h: Inode, g: Inode, d: Sectors, e: Sectors)
    requires Formatted(d) && Formatted(e) && WellFormed(ind, h, d) && WellFormed(ind, g, d)
    requires Apart(Blocks(ind, h, d), Blocks(ind, g, d)) && Apart(Blocks(ind, h, d), IndexSectors(ind, g, d))
    requires forall s :: 0 <= s < NUM_SECTORS && s !in Blocks(ind, h, d) ==> d[s] == e[s]
    ensures WellFormed(ind, g, e) && Flat(ind, g, e) == Flat(ind, g, d)
  {
    FlatStable(ind, g, d, e);
  }

  // ---------------------------------------------------------------------------

  /** buf holds the bytes of blocks first to last, as far as they lie before upTo. */
  ghost predicate Image(buf: seq<Byte>, d: Sectors, blocks: seq<int>, first: nat, upTo: nat) {
    && Formatted(d) && OnDisk(blocks) && upTo <= 128 * |blocks| && upTo <= 128 * first + |buf|
    && forall p :: 128 * first <= p < upTo ==> buf[p - 128 * first] == ByteAt(d, blocks, p)
  }

  /** A stretch of the image is a stretch of the file. */
  lemma ImageSlice(buf: seq<Byte>, d: Sectors, blocks: seq<int>, length: nat, first: nat, upTo: nat, p: nat, n: nat)
    requires Image(buf, d, blocks, first, upTo) && length <= 128 * |blocks|
    requires 128 * first <= p && p + n <= upTo && p + n <= length
    ensures buf[p - 128 * first..p - 128 * first + n] == FlatBytes(d, blocks, length)[p..p + n]
  {
    var a, b := buf[p - 128 * first..p - 128 * first + n], FlatBytes(d, blocks, length)[p..p + n];
    forall k | 0 <= k < n ensures a[k] == b[k] {
      assert buf[p + k - 128 * first] == ByteAt(d, blocks, p + k);
    }
  }

  lemma SectorRange(position: nat, count: nat, length: nat)
    requires 0 < count && position + count <= length
    ensures position / 128 <= (position + count - 1) / 128 < SectorsFor(length)
    ensures 128 * (position / 128) <= position
    ensures 128 * ((position + count - 1) / 128) < position + count <= 128 * ((position + count - 1) / 128 + 1)
    ensures 128 * (SectorsFor(length) - 1) < length <= 128 * SectorsFor(length)
  {
  }

  /** bcopy. */
  method Copy(from: array<Byte>, fromAt: nat, to: array<Byte>, toAt: nat, n: nat)
    requires fromAt + n <= from.Length && toAt + n <= to.Length && from != to
    modifies to
    ensures to[..] == old(to[..toAt]) + from[fromAt..fromAt + n] + old(to[toAt + n..])
  {
    ghost var before, bytes := to[..], from[fromAt..fromAt + n];
    for k := 0 to n
      invariant to[..] == before[..toAt] + bytes[..k] + before[toAt + k..]
    {
      CopyStep(before, toAt, bytes, k);
      assert from[fromAt + k] == bytes[k];
      to[toAt + k] := from[fromAt + k];
      assert to[..] == before[..toAt] + bytes[..k + 1] + before[toAt + k + 1..];
    }
  }

  /** buf, laid over the sectors of a request, is the patched file as far as the file reaches. */
  ghost predicate Patched(buf: seq<Byte>, contents: seq<Byte>, data: seq<Byte>, position: nat) {
    && position + |data| <= |contents|
    && var base := 128 * (position / 128);
    && forall p :: base <= p < base + |buf| && p < |contents| ==> buf[p - base] == Patch(contents, position, data)[p]
  }

  /** Block k of the file, as far as the file reaches, is in a buffer that starts at block first. */
  ghost predicate Loaded(buf: seq<Byte>, contents: seq<Byte>, first: nat, k: nat) {
    && first <= k && 128 * (k - first) + 128 <= |buf|
    && forall p :: 128 * k <= p < 128 * k + 128 && p < |contents| ==> buf[p - 128 * first] == contents[p]
  }

  lemma LoadedBy(old_: seq<Byte>, buf: seq<Byte>, contents: seq<Byte>, first: nat, k: nat, count: nat)
    requires first <= k && 128 * (k - first) + 128 <= |old_| && 128 * k < |contents|
    requires count == if 128 * k + 128 > |contents| then |contents| - 128 * k else 128
    requires buf == old_[..128 * (k - first)] + contents[128 * k..128 * k + count] + old_[128 * (k - first) + count..]
    ensures Loaded(buf, contents, first, k)
    ensures forall j :: first <= j < k && Loaded(old_, contents, first, j) ==> Loaded(buf, contents, first, j)
  {
  }

  lemma PatchBuffer(raw: seq<Byte>, contents: seq<Byte>, data: seq<Byte>, position: nat)
    requires 0 < |data| && position + |data| <= |contents|
    requires |raw| == (1 + (position + |data| - 1) / 128 - position / 128) * 128
    requires position != 128 * (position / 128) ==> Loaded(raw, contents, position / 128, position / 128)
    requires position + |data| != 128 * ((position + |data| - 1) / 128 + 1) ==>
      Loaded(raw, contents, position / 128, (position + |data| - 1) / 128)
    ensures var off := position - 128 * (position / 128);
      Patched(raw[..off] + data + raw[off + |data|..], contents, data, position)
  {
    SectorRange(position, |data|, |contents|);
    var first, last := position / 128, (position + |data| - 1) / 128;
    var off := position - 128 * first;
    var buf := raw[..off] + data + raw[off + |data|..];
    var patched := Patch(contents, position, data);
    forall p | 128 * first <= p < 128 * first + |buf| && p < |contents|
      ensures buf[p - 128 * first] == patched[p]
    {
      if p < position {
        assert raw[p - 128 * first] == contents[p];
      } else if p >= position + |data| {
        assert 128 * last <= p < 128 * last + 128;
        assert raw[p - 128 * first] == contents[p];
      }
    }
  }

  /** Blocks first to i - 1 have been overwritten from buf, and nothing else. */
  ghost predicate Written(d: Sectors, d0: Sectors, blocks: seq<int>, buf: seq<Byte>, first: nat, i: nat) {
    && Formatted(d) && Formatted(d0) && OnDisk(blocks)
    && first <= i <= |blocks| && 128 * (i - first) <= |buf|
    && (forall s :: 0 <= s < NUM_SECTORS && s !in blocks[first..i] ==> d[s] == d0[s])
    && (forall k :: first <= k < i ==> d[blocks[k]] == buf[128 * (k - first)..128 * (k - first) + 128])
  }

  lemma WrittenStep(d: Sectors, d0: Sectors, blocks: seq<int>, buf: seq<Byte>, first: nat, i: nat)
    requires Written(d, d0, blocks, buf, first, i)
    requires NoDup(blocks) && i < |blocks| && 128 * (i - first) + 128 <= |buf|
    ensures Written(d[blocks[i] := buf[128 * (i - first)..128 * (i - first) + 128]], d0, blocks, buf, first, i + 1)
  {
    assert blocks[first..i + 1] == blocks[first..i] + [blocks[i]];
  }

  /** Overwriting block i leaves the file's sector map alone. */
  lemma FlushStep(ind: bool, h: Inode, d: Sectors, d0: Sectors, buf: seq<Byte>, first: nat, i: nat)
    requires WellFormed(ind, h, d) && i < h.numSectors && 128 * (i - first) + 128 <= |buf|
    requires Written(d, d0, Blocks(ind, h, d), buf, first, i)
    ensures Blocks(ind, h, d)[i] == BlockSector(ind, h, d, i)
    ensures var e := d[Blocks(ind, h, d)[i] := buf[128 * (i - first)..128 * (i - first) + 128]];
      && WellFormed(ind, h, e) && Blocks(ind, h, e) == Blocks(ind, h, d)
      && Written(e, d0, Blocks(ind, h, d), buf, first, i + 1)
  {
    var blocks := Blocks(ind, h, d);
    var e := d[blocks[i] := buf[128 * (i - first)..128 * (i - first) + 128]];
    WrittenStep(d, d0, blocks, buf, first, i);
    assert SameOn(d, e, IndexSectors(ind, h, d));
    MapStable(ind, h, d, e);
  }

  /** Flushing a patched buffer patches the file. */
  lemma WriteIsPatch(d: Sectors, d0: Sectors, blocks: seq<int>, length: nat, buf: seq<Byte>, data: seq<Byte>,
      position: nat)
    requires 0 < |data| && position + |data| <= length && SectorsFor(length) == |blocks| && NoDup(blocks)
    requires Written(d, d0, blocks, buf, position / 128, (position + |data| - 1) / 128 + 1)
    requires |buf| == (1 + (position + |data| - 1) / 128 - position / 128) * 128
    requires Patched(buf, FlatBytes(d0, blocks, length), data, position)
    ensures FlatBytes(d, blocks, length) == Patch(FlatBytes(d0, blocks, length), position, data)
  {
    SectorRange(position, |data|, length);
    var first, last := position / 128, (position + |data| - 1) / 128;
    var patched := Patch(FlatBytes(d0, blocks, length), position, data);
    forall p | 0 <= p < length ensures ByteAt(d, blocks, p) == patched[p] {
      var k := p / 128;
      if first <= k <= last {
        assert d[blocks[k]][p % 128] == buf[128 * (k - first) + p % 128];
        assert buf[p - 128 * first] == patched[p];
      } else {
        assert blocks[k] !in blocks[first..last + 1];
        assert patched[p] == ByteAt(d0, blocks, p);
      }
    }
  }

  lemma OnlyBlocks(d: Sectors, d0: Sectors, blocks: seq<int>, buf: seq<Byte>, first: nat, i: nat)
    requires Written(d, d0, blocks, buf, first, i)
    ensures forall s :: 0 <= s < NUM_SECTORS && s !in blocks ==> d[s] == d0[s]
  {
  }

  method CopyIn(from: array<Byte>, numBytes: nat, position: nat, buf: array<Byte>, ghost contents: seq<Byte>)
    requires 0 < numBytes <= from.Length && position + numBytes <= |contents| && from != buf
    requires buf.Length == (1 + (position + numBytes - 1) / 128 - position / 128) * 128
    requires position != 128 * (position / 128) ==> Loaded(buf[..], contents, position / 128, position / 128)
    requires position + numBytes != 128 * ((position + numBytes - 1) / 128 + 1) ==>
      Loaded(buf[..], contents, position / 128, (position + numBytes - 1) / 128)
    modifies buf
    ensures Patched(buf[..], contents, from[..numBytes], position)
  {
    hide Patched, Loaded;
    SectorRange(position, numBytes, |contents|);
    ghost var raw, data := buf[..], from[..numBytes];
    PatchBuffer(raw, contents, data, position);
    var off := position - 128 * (position / 128);
    Copy(from, 0, buf, off, numBytes);
    assert from[0..numBytes] == data;
    assert buf[..] == raw[..off] + data + raw[off + numBytes..];
  }

  class OpenFile {
    const disk: SynchDisk
    const hdr: FileHeader
    const headerSector: int
    var seekPosition: int

    ghost predicate Valid()
      reads this, disk, hdr, hdr.dataSectors
    {
      && hdr.Valid() && disk.Valid()
      && WellFormed(hdr.indirect, hdr.View(), disk.sectors)
    }

    ghost function Blocks(): seq<int>
      requires hdr.numSectors >= 0
      reads this, disk, hdr, hdr.dataSectors
    {
      FileHeaders.Blocks(hdr.indirect, hdr.View(), disk.sectors)
    }

    ghost function Contents(): seq<Byte>
      requires Valid()
      reads this, disk, hdr, hdr.dataSectors
    {
      Flat(hdr.indirect, hdr.View(), disk.sectors)
    }

    constructor (disk: SynchDisk, sector: int, indirect: bool)
      requires disk.Valid() && 0 <= sector < NUM_SECTORS
      ensures this.disk == disk && fresh(hdr) && fresh(hdr.dataSectors) && hdr.Valid() && hdr.indirect == indirect
      ensures hdr.View() == Decode(disk.sectors[sector])
      ensures headerSector == sector && seekPosition == 0
    {
      this.disk := disk;
      headerSector := sector;
      seekPosition := 0;
      hdr := new FileHeader(indirect);
      new;
      hdr.FetchFrom(disk, sector);
    }

    /** Reads the sectors of blocks first to last. */
    method ReadBlocks(first: nat, last: nat) returns (buf: array<Byte>)
      requires Valid() && first <= last < hdr.numSectors
      ensures fresh(buf) && buf.Length == (1 + last - first) * 128
      ensures Image(buf[..], disk.sectors, Blocks(), first, 128 * (last + 1))
    {
      ghost var blocks, d := Blocks(), disk.sectors;
      buf := new Byte[(1 + last - first) * 128];
      for i := first to last + 1
        invariant Image(buf[..], d, blocks, first, 128 * i)
      {
        var s := hdr.ByteToSector(disk, i * 128);
        assert s == blocks[i];
        disk.ReadSector(s, buf, (i - first) * 128);
      }
    }

    method ReadAt(into: array<Byte>, at: nat, numBytes: int, position: int) returns (count: nat)
      requires Valid() && position >= 0
      requires at <= into.Length && (numBytes > 0 ==> at + numBytes <= into.Length)
      requires into as object != hdr.dataSectors
      modifies into
      ensures Valid()
      ensures count == Count(hdr.numBytes, numBytes, position)
      ensures Transferred(hdr.numBytes, numBytes, position, count)
      ensures count == 0 ==> into[..] == old(into[..])
      ensures count > 0 ==>
        into[..] == old(into[..at]) + Contents()[position..position + count] + old(into[at + count..])
    {
      var fileLength := hdr.numBytes;
      if numBytes <= 0 || position >= fileLength {
        return 0;
      }
      count := numBytes;
      if position + numBytes > fileLength {
        count := fileLength - position;
      }
      var buf, off := ReadSectors(position, count);
      hide WellFormed, Flat, Formatted;
      Copy(buf, off, into, at, count);
    }

    /** Reads all the full and partial sectors of a request; its bytes start at off. */
    method ReadSectors(position: nat, count: nat) returns (buf: array<Byte>, off: nat)
      requires Valid() && 0 < count && position + count <= hdr.numBytes
      ensures fresh(buf) && off + count <= buf.Length
      ensures buf[off..off + count] == Contents()[position..position + count]
    {
      SectorRange(position, count, hdr.numBytes);
      assert hdr.numSectors == SectorsFor(hdr.numBytes);
      hide WellFormed, Image, Formatted;
      var firstSector := position / 128;
      var lastSector := (position + count - 1) / 128;
      buf := ReadBlocks(firstSector, lastSector);
      off := position - firstSector * 128;
      ImageSlice(buf[..], disk.sectors, Blocks(), hdr.numBytes, firstSector, 128 * (lastSector + 1), position, count);
      assert buf[..][off..off + count] == buf[off..off + count];
    }

    /** Reads block k into its place in a buffer that starts at block first. */
    method LoadBlock(buf: array<Byte>, first: nat, k: nat)
      requires Valid() && first <= k < hdr.numSectors && 128 * (k - first) + 128 <= buf.Length
      requires buf as object != hdr.dataSectors
      modifies buf
      ensures Loaded(buf[..], Contents(), first, k)
      ensures forall j :: first <= j < k && old(Loaded(buf[..], Contents(), first, j)) ==>
        Loaded(buf[..], Contents(), first, j)
    {
      MapFacts();
      assert 128 * k < hdr.numBytes;
      hide WellFormed, Flat, Loaded, Formatted, SectorsFor, Transferred, ReadFrom;
      ghost var contents, raw := Contents(), buf[..];
      var count := ReadAt(buf, (k - first) * 128, 128, k * 128);
      assert |contents| == hdr.numBytes && count == if 128 * k + 128 > |contents| then |contents| - 128 * k else 128;
      hide Count;
      LoadedBy(raw, buf[..], contents, first, k, count);
    }

    /** The buffer that WriteAt flushes: the sectors of the request with the new bytes copied in. Bytes past the
        end of the file are whatever the fresh buffer held. */
    method FillBuffer(from: array<Byte>, numBytes: nat, position: nat) returns (buf: array<Byte>)
      requires Valid() && 0 < numBytes <= from.Length && position + numBytes <= hdr.numBytes
      ensures fresh(buf) && buf.Length == (1 + (position + numBytes - 1) / 128 - position / 128) * 128
      ensures Patched(buf[..], Contents(), from[..numBytes], position)
    {
      SectorRange(position, numBytes, hdr.numBytes);
      assert hdr.numSectors == SectorsFor(hdr.numBytes);
      hide WellFormed, Flat, Loaded, Patched, Formatted;
      var firstSector := position / 128;
      var lastSector := (position + numBytes - 1) / 128;
      buf := new Byte[(1 + lastSector - firstSector) * 128];
      var firstAligned := position == firstSector * 128;
      var lastAligned := position + numBytes == (lastSector + 1) * 128;
      if !firstAligned {
        LoadBlock(buf, firstSector, firstSector);
      }
      if !lastAligned && (firstSector != lastSector || firstAligned) {
        LoadBlock(buf, firstSector, lastSector);
      }
      CopyIn(from, numBytes, position, buf, Contents());
    }

    /** Writes the buffer's part for block i. */
    method FlushBlock(buf: array<Byte>, first: nat, i: nat, ghost d: Sectors)
      requires Valid() && i < hdr.numSectors && 128 * (i - first) + 128 <= buf.Length
      requires Written(disk.sectors, d, Blocks(), buf[..], first, i)
      modifies disk
      ensures Valid() && Blocks() == old(Blocks())
      ensures Written(disk.sectors, d, Blocks(), buf[..], first, i + 1)
    {
      var s := hdr.ByteToSector(disk, i * 128);
      FlushStep(hdr.indirect, hdr.View(), disk.sectors, d, buf[..], first, i);
      assert buf[..][128 * (i - first)..128 * (i - first) + 128] == buf[(i - first) * 128..(i - first) * 128 + 128];
      disk.WriteSector(s, buf, (i - first) * 128);
    }

    /** Writes the buffer back over blocks first to last. */
    method FlushBlocks(buf: array<Byte>, first: nat, last: nat)
      requires Valid() && first <= last < hdr.numSectors && buf.Length == (1 + last - first) * 128
      modifies disk
      ensures Valid() && Blocks() == old(Blocks())
      ensures Written(disk.sectors, old(disk.sectors), Blocks(), buf[..], first, last + 1)
    {
      ghost var d := disk.sectors;
      assert hdr.numSectors >= 0 && Written(d, d, Blocks(), buf[..], first, first);
      hide WellFormed, Written, Formatted;
      for i := first to last + 1
        invariant Valid() && Blocks() == old(Blocks())
        invariant Written(disk.sectors, d, Blocks(), buf[..], first, i)
      {
        FlushBlock(buf, first, i, d);
      }
    }

    /** Exactly the clamped range changes; no sector outside the file's blocks is touched. */
    method WriteAt(from: array<Byte>, numBytes: int, position: int) returns (count: nat)
      requires Valid() && position >= 0 && numBytes <= from.Length
      modifies disk
      ensures Valid() && Blocks() == old(Blocks())
      ensures count == Count(hdr.numBytes, numBytes, position)
      ensures Transferred(hdr.numBytes, numBytes, position, count)
      ensures count == 0 ==> disk.sectors == old(disk.sectors)
      ensures count > 0 ==> Contents() == Patch(old(Contents()), position, from[..count])
      ensures forall s :: 0 <= s < NUM_SECTORS && s !in Blocks() ==> disk.sectors[s] == old(disk.sectors[s])
    {
      var fileLength := hdr.numBytes;
      if numBytes <= 0 || position >= fileLength {
        return 0;
      }
      count := numBytes;
      if position + numBytes > fileLength {
        count := fileLength - position;
      }
      WriteRange(from, count, position);
    }

    /** A write that lies within the file: read-modify-write on the sectors it touches. */
    method WriteRange(from: array<Byte>, count: nat, position: nat)
      requires Valid() && 0 < count <= from.Length && position + count <= hdr.numBytes
      modifies disk
      ensures Valid() && Blocks() == old(Blocks())
      ensures Contents() == Patch(old(Contents()), position, from[..count])
      ensures forall s :: 0 <= s < NUM_SECTORS && s !in Blocks() ==> disk.sectors[s] == old(disk.sectors[s])
    {
      hide WellFormed, Patched, NoDup, SectorsFor, Written, Formatted, OnDisk;
      MapFacts();
      SectorRange(position, count, hdr.numBytes);
      var firstSector := position / 128;
      var lastSector := (position + count - 1) / 128;
      ghost var d, blocks, length := disk.sectors, Blocks(), hdr.numBytes;
      var buf := FillBuffer(from, count, position);
      FlushBlocks(buf, firstSector, lastSector);
      OnlyBlocks(disk.sectors, d, blocks, buf[..], firstSector, lastSector + 1);
      WriteIsPatch(disk.sectors, d, blocks, length, buf[..], from[..count], position);
    }

    lemma MapFacts()
      requires Valid()
      ensures hdr.numSectors == SectorsFor(hdr.numBytes) && hdr.numSectors >= 0 && NoDup(Blocks())
    {
    }

    method Seek(position: int)
      modifies this
      ensures seekPosition == position
    {
      seekPosition := position;
    }

    /** Read at the implicit position, which moves by the bytes read. */
    method Read(into: array<Byte>, numBytes: int) returns (count: nat)
      requires Valid() && seekPosition >= 0
      requires numBytes > 0 ==> numBytes <= into.Length
      requires into as object != hdr.dataSectors
      modifies this, into
      ensures Valid() && seekPosition == old(seekPosition) + count
      ensures count == Count(hdr.numBytes, numBytes, old(seekPosition))
      ensures Transferred(hdr.numBytes, numBytes, old(seekPosition), count)
      ensures count > 0 ==> into[..count] == Contents()[old(seekPosition)..old(seekPosition) + count]
    {
      hide WellFormed, Flat, Formatted;
      count := ReadAt(into, 0, numBytes, seekPosition);
      seekPosition := seekPosition + count;
    }

    /** Write at the implicit position, which moves by the bytes written. */
    method Write(from: array<Byte>, numBytes: int) returns (count: nat)
      requires Valid() && seekPosition >= 0 && numBytes <= from.Length
      modifies this, disk
      ensures Valid() && Blocks() == old(Blocks()) && seekPosition == old(seekPosition) + count
      ensures count == Count(hdr.numBytes, numBytes, old(seekPosition))
      ensures Transferred(hdr.numBytes, numBytes, old(seekPosition), count)
      ensures count == 0 ==> disk.sectors == old(disk.sectors)
      ensures count > 0 ==> Contents() == Patch(old(Contents()), old(seekPosition), from[..count])
      ensures forall s :: 0 <= s < NUM_SECTORS && s !in Blocks() ==> disk.sectors[s] == old(disk.sectors[s])
    {
      hide WellFormed, Flat, Formatted;
      count := WriteAt(from, numBytes, seekPosition);
      seekPosition := seekPosition + count;
    }
  }
}
