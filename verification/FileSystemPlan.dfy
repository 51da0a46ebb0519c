/** What the operations of filesys/filesys.cc work out in memory, and what their writes amount to. */
module FileSystemPlans {
  import opened Words
  import opened BitMaps
  import opened SectorStore
  import opened FileHeaders
  import opened OpenFiles
  import opened Directories
  import opened FileSystemSpec

  // ---------------------------------------------------------------------------
  // The bitmap as words

  lemma LoadedMap(freeMapWords: seq<Word>, bytes: seq<Byte>)
    requires |bytes| == FREE_MAP_BYTES && freeMapWords == WordsOf(bytes)
    ensures Packs(freeMapWords, BitsOf(bytes))
  {
  }

  lemma StoredMap(ws: seq<Word>, bytes: seq<Byte>, bits: seq<bool>)
    requires |ws| == 32 && |bits| == NUM_SECTORS && Packs(ws, bits)
    requires |bytes| == FREE_MAP_BYTES && forall k :: 0 <= k < 32 ==> UWordAt(bytes, k) == ws[k]
    ensures BitsOf(bytes) == bits
  {
    assert WordsOf(bytes) == ws;
    forall s | 0 <= s < NUM_SECTORS ensures BitsOf(bytes)[s] == bits[s] {
      assert PackedBit(ws, s) == bits[s];
    }
  }

  // ---------------------------------------------------------------------------
  // Looking up

  lemma EntriesAre(d: Sectors)
    requires Bootable(d)
    ensures MetaOf(d).entries == DirectoryOf(d)
  {
  }

  lemma SameIndex(entries: seq<DirEntry>, key: seq<Byte>, i: int, j: int)
    requires IsIndexOf(entries, key, i) && IsIndexOf(entries, key, j)
    ensures i == j
  {
  }

  lemma SystemFilesOn(d: Sectors)
    requires Consistent(d)
    ensures SystemFiles(MetaOf(d))
  {
  }

  lemma RepresentsConsistent(d: Sectors, files: Files)
    requires Represents(d, files)
    ensures Consistent(d)
  {
  }

  lemma ListedHeader(d: Sectors, i: nat)
    requires Consistent(d) && InUse(d, i)
    ensures 0 <= DirectoryOf(d)[i].sector < NUM_SECTORS
    ensures Decode(d[DirectoryOf(d)[i].sector]) == MetaOf(d).headers[i]
    ensures ListedFile(MetaOf(d), i)
  {
    hide Entries, BitsOf, FileBytes, Decode;
    assert ListedFile(MetaOf(d), i);
  }

  /** Looking a name up in the directory is looking it up among the files. */
  lemma ListedByName(d: Sectors, files: Files, key: seq<Byte>, i: int)
    requires Represents(d, files) && IsIndexOf(DirectoryOf(d), key, i)
    ensures i == -1 <==> key !in files
    ensures i == -1 <==> forall k :: !Named(DirectoryOf(d), k, key)
    ensures i != -1 ==> InUse(d, i) && 0 <= DirectoryOf(d)[i].sector < NUM_SECTORS && DirectoryOf(d)[i].name == key
  {
    hide Entries, BitsOf, FileBytes, Decode, DirectFile, DirectBlocks, Bootable, MetaOf, MetaOk, DirectoryOf, FileAt;
    if i != -1 {
      ListedHeader(d, i);
    } else if key in files {
      var k :| InUse(d, k) && DirectoryOf(d)[k].name == key;
      NamedBySlot(d, k);
    }
  }

  /** Every sector of a listed file is marked in the map: Deallocate's assertions hold. */
  lemma ListedIsMarked(d: Sectors, i: nat)
    requires Consistent(d) && InUse(d, i)
    ensures var h := MetaOf(d).headers[i];
      && 0 <= h.numSectors <= MaxSectors(false)
      && Releasable(MetaOf(d).bits, Blocks(false, h, d), IndexSectors(false, h, d))
  {
    var m, h := MetaOf(d), MetaOf(d).headers[i];
    ListedIsDirect(d, i);
    DirectIsWellFormed(h, d);
    hide Entries, BitsOf, FileBytes, Decode, MetaOf, DirectoryOf, WellFormed, Blocks;
    var blocks := DirectBlocks(h);
    forall k | 0 <= k < |blocks| ensures 0 <= blocks[k] < NUM_SECTORS && m.bits[blocks[k]] {
      assert blocks[k] in Claim(m, i);
      assert Claimed(m, blocks[k]);
    }
  }

  lemma FileOpened(d: Sectors, files: Files, i: int)
    requires Represents(d, files) && InUse(d, i)
    ensures WellFormed(false, MetaOf(d).headers[i], d)
    ensures DirectoryOf(d)[i].name in files && Flat(false, MetaOf(d).headers[i], d) == files[DirectoryOf(d)[i].name]
  {
    hide MetaOf, DirectoryOf;
    ListedIsDirect(d, i);
    FileBytesIsFlat(MetaOf(d).headers[i], d);
  }

  // ---------------------------------------------------------------------------
  // Writing back

  /** Writing the data of one system file leaves the well-known headers alone. */
  lemma FlushedOne(d: Sectors, e: Sectors, which: nat)
    requires Bootable(d) && SystemFiles(MetaOf(d)) && which < 2 && Formatted(e)
    requires forall s :: 0 <= s < NUM_SECTORS && s !in DirectBlocks(Decode(d[which])) ==> e[s] == d[s]
    ensures Bootable(e) && e[0] == d[0] && e[1] == d[1]
  {
  }

  /** The bitmap's data sectors are not the directory's. */
  lemma OtherFlushed(d: Sectors, e: Sectors)
    requires Bootable(d) && SystemFiles(MetaOf(d)) && Formatted(e) && e[0] == d[0] && e[1] == d[1] && Bootable(e)
    requires forall s :: 0 <= s < NUM_SECTORS && s !in DirectBlocks(Decode(d[0])) ==> e[s] == d[s]
    ensures FileBytes(Decode(d[1]), e) == FileBytes(Decode(d[1]), d)
    ensures DirectoryOf(e) == DirectoryOf(d)
  {
    var blocks := DirectBlocks(Decode(d[1]));
    forall p | 0 <= p < DIRECTORY_BYTES ensures ByteAt(e, blocks, p) == ByteAt(d, blocks, p) {
      assert blocks[p / 128] !in DirectBlocks(Decode(d[0]));
    }
  }

  lemma DirectWritten(d: Sectors, e: Sectors, i: int)
    requires Consistent(d) && InUse(d, i) && Formatted(e)
    requires DirectFile(MetaOf(d).headers[i])
    requires forall s :: 0 <= s < NUM_SECTORS && s !in Blocks(false, MetaOf(d).headers[i], d) ==> e[s] == d[s]
    ensures WrittenTo(d, e, i)
  {
    DirectIsWellFormed(MetaOf(d).headers[i], d);
  }

  /** The bytes that a read of numBytes at a position gets. */
  function ReadOut(files: Files, key: seq<Byte>, position: nat, numBytes: int): seq<Byte> {
    if key !in files then []
    else
      var n := Count(|files[key]|, numBytes, position);
      if n == 0 then [] else files[key][position..position + n]
  }

  /** The files after numBytes of data were offered at a position of one of them. */
  function Overwritten(files: Files, key: seq<Byte>, position: nat, data: seq<Byte>, numBytes: int): Files {
    if key !in files then files
    else
      var n := Count(|files[key]|, numBytes, position);
      if 0 < n <= |data| then files[key := Patch(files[key], position, data[..n])] else files
  }

  /** Which is, byte by byte, the data laid over the bytes of that name, and no other name touched. */
  lemma OverwrittenIs(files: Files, key: seq<Byte>, position: nat, data: seq<Byte>)
    ensures var g := Overwritten(files, key, position, data, |data|);
      if key in files then key in g && g == files[key := g[key]] && LaidOver(files[key], g[key], position, data)
      else g == files
  {
    if key in files {
      var n := Count(|files[key]|, |data|, position);
      CountIsTransferred(|files[key]|, |data|, position);
      if n > 0 { PatchReadsBack(files[key], position, data[..n]); }
    }
  }

  lemma ReadOutIs(files: Files, key: seq<Byte>, position: nat, numBytes: int)
    ensures var out := ReadOut(files, key, position, numBytes);
      if key in files then ReadFrom(files[key], position, numBytes, out) else out == []
  {
    if key in files { CountIsTransferred(|files[key]|, numBytes, position); }
  }

  /** A write through the blocks of listed file i changes the bytes of its name, and nothing else. */
  lemma WrittenThrough(d: Sectors, e: Sectors, files: Files, i: nat, position: nat, data: seq<Byte>, n: nat)
    requires Represents(d, files) && WrittenTo(d, e, i) && DirectFile(MetaOf(d).headers[i])
    requires DirectoryOf(d)[i].name in files
    requires n == Count(|files[DirectoryOf(d)[i].name]|, |data|, position) && (n == 0 ==> e == d)
    requires n > 0 ==>
      FileBytes(MetaOf(d).headers[i], e) == Patch(files[DirectoryOf(d)[i].name], position, data[..n])
    ensures Bootable(e) && e[0] == d[0] && e[1] == d[1] && MetaOf(e) == MetaOf(d)
    ensures Represents(e, Overwritten(files, DirectoryOf(d)[i].name, position, data, |data|))
  {
    hide MetaOk, MetaOf, DirectoryOf, Decode, Represents, DirectFile, FileBytes, Bootable, WrittenTo;
    RepresentsConsistent(d, files);
    WrittenHeaders(d, e, i);
    WrittenMeta(d, e, i);
    WriteEffect(d, e, files, i);
  }

  // ---------------------------------------------------------------------------
  // Create

  datatype CreateResult = Created | Exists | NoHeaderSector | DirectoryFull | NoSpace | TooBig

  /** Create's answer, as the caller can read it off the disk beforehand. */
  ghost function CreateAnswer(m: Meta, key: seq<Byte>, size: int): CreateResult
    requires Shape(m)
  {
    if exists k :: Named(m.entries, k, key) then Exists
    else if |Free(m.bits)| == 0 then NoHeaderSector
    else if forall k :: 0 <= k < NUM_DIR_ENTRIES ==> m.entries[k].inUse then DirectoryFull
    else match Answer(false, SectorsFor(size), |Free(m.bits)| - 1)
      case Granted => Created
      case Refused => NoSpace
      case Aborted => TooBig
  }

  /** What Create has worked out in memory before it writes anything. */
  ghost predicate Planned(m: Meta, i: int, key: seq<Byte>, sector: int, h: Inode, entries: seq<DirEntry>,
      bits: seq<bool>)
  {
    && Shape(m) && 0 <= i < NUM_DIR_ENTRIES && !m.entries[i].inUse
    && 0 <= sector < NUM_SECTORS && DirectFile(h) && sector !in DirectBlocks(h)
    && sector == At(Free(m.bits), 0)
    && (forall k :: 0 <= k < |DirectBlocks(h)| ==> DirectBlocks(h)[k] == At(Free(m.bits), 1 + k))
    && !m.bits[sector] && (forall k :: 0 <= k < |DirectBlocks(h)| ==> !m.bits[DirectBlocks(h)[k]])
    && entries == m.entries[i := DirEntry(true, sector, key)]
    && |bits| == NUM_SECTORS
    && forall s :: 0 <= s < NUM_SECTORS ==> (bits[s] <==> m.bits[s] || s == sector || s in DirectBlocks(h))
  }

  lemma PlannedParts(m: Meta, i: int, key: seq<Byte>, sector: int, h: Inode, entries: seq<DirEntry>, bits: seq<bool>)
    requires Planned(m, i, key, sector, h, entries, bits)
    ensures Shape(m) && 0 <= sector < NUM_SECTORS && !m.bits[sector] && DirectFile(h)
    ensures sector == At(Free(m.bits), 0)
    ensures forall k :: 0 <= k < |DirectBlocks(h)| ==> DirectBlocks(h)[k] == At(Free(m.bits), 1 + k)
  {
  }

  /** Slot k of the directory lists the same file, with the same header. */
  ghost predicate Kept(d: Sectors, e: Sectors, k: int)
    requires Bootable(d) && Bootable(e) && 0 <= k < NUM_DIR_ENTRIES
  {
    DirectoryOf(e)[k] == DirectoryOf(d)[k] && MetaOf(e).headers[k] == MetaOf(d).headers[k]
  }

  /** So do all slots whose names are not among those that went. */
  ghost predicate OthersKept(d: Sectors, e: Sectors, gone: set<seq<Byte>>)
    requires Bootable(d) && Bootable(e)
  {
    forall k :: InUse(d, k) && DirectoryOf(d)[k].name !in gone ==> Kept(d, e, k)
  }

  /** Create has entered a file in slot i: its header is in the lowest sector that was clear, its data in the next
      ones, and the map has gained exactly these; the other slots are as they were. */
  ghost predicate NewFile(d: Sectors, e: Sectors, i: int, key: seq<Byte>)
    requires Bootable(d) && Bootable(e)
  {
    && InUse(e, i) && DirectoryOf(e)[i].name == key && DirectoryOf(e)[i].sector == At(Free(MetaOf(d).bits), 0)
    && (forall k :: 0 <= k < |DirectBlocks(MetaOf(e).headers[i])| ==>
          DirectBlocks(MetaOf(e).headers[i])[k] == At(Free(MetaOf(d).bits), 1 + k))
    && (forall s :: s in Claim(MetaOf(e), i) ==> 0 <= s < NUM_SECTORS && !MetaOf(d).bits[s])
    && (forall k :: InUse(d, k) ==> k != i && Kept(d, e, k))
    && forall s :: 0 <= s < NUM_SECTORS ==> (MetaOf(e).bits[s] <==> MetaOf(d).bits[s] || s in Claim(MetaOf(e), i))
  }

  lemma EnteredIsNew(d: Sectors, e: Sectors, i: nat, key: seq<Byte>, sector: int, h: Inode)
    requires Consistent(d) && Entered(d, e, i, key, sector, h) && sector == At(Free(MetaOf(d).bits), 0)
    requires forall k :: 0 <= k < |DirectBlocks(h)| ==> DirectBlocks(h)[k] == At(Free(MetaOf(d).bits), 1 + k)
    ensures NewFile(d, e, i, key)
  {
    hide MetaOf, DirectoryOf, MetaOk, Free, Updated, Decode, DirectFile, DirectBlocks, Bootable, Claim;
    EnteredMeta(d, e, i, key, sector, h);
    EntriesAre(e);
    NewClaimIs(MetaOf(e), i, key, sector, h);
    forall k | InUse(d, k) ensures k != i && Kept(d, e, k) { assert SlotKept(d, e, k); }
  }

  lemma NewClaimIs(m: Meta, i: nat, key: seq<Byte>, sector: int, h: Inode)
    requires Shape(m) && i < NUM_DIR_ENTRIES && m.entries[i] == DirEntry(true, sector, key) && m.headers[i] == h
    ensures forall s :: s in Claim(m, i) <==> s == sector || s in DirectBlocks(h)
    ensures DirectFile(h) ==> forall s :: s in DirectBlocks(h) ==> 0 <= s < NUM_SECTORS
  {
  }

  lemma DirectOwned(h: Inode, d: Sectors)
    requires DirectFile(h)
    ensures Owned(false, h, d) == Elements(DirectBlocks(h))
  {
    DirectIsWellFormed(h, d);
  }

  lemma BlocksInOrder(h: Inode, d: Sectors, free: seq<int>)
    requires LaidOut(false, h, d, free) && DirectFile(h)
    ensures forall k :: 0 <= k < |DirectBlocks(h)| ==> DirectBlocks(h)[k] == At(free, k)
  {
    DirectIsWellFormed(h, d);
    forall k | 0 <= k < h.numSectors ensures DirectBlocks(h)[k] == At(free, k) {
      assert Blocks(false, h, d)[k] == BlockSector(false, h, d, k);
    }
  }

  /** The sectors Create hands to a new file: header sector first, then the blocks. */
  lemma PlannedFile(bits: seq<bool>, sector: int, h: Inode, d: Sectors, during: seq<bool>)
    requires |bits| == |during| == NUM_SECTORS && 0 <= sector < NUM_SECTORS && !bits[sector]
    requires 0 <= h.numSectors < NUM_DATA_SECTORS && h.numSectors == SectorsFor(h.numBytes)
    requires h.numSectors <= |Free(bits[sector := true])| && Free(bits[sector := true]) == Drop(Free(bits), 1)
    requires LaidOut(false, h, d, Free(bits[sector := true]))
    requires Cursor(Free(during), Free(bits[sector := true]), h.numSectors)
    ensures DirectFile(h) && sector !in DirectBlocks(h)
    ensures forall k :: 0 <= k < |DirectBlocks(h)| ==> !bits[DirectBlocks(h)[k]]
    ensures forall k :: 0 <= k < |DirectBlocks(h)| ==> DirectBlocks(h)[k] == At(Free(bits), 1 + k)
    ensures forall s :: 0 <= s < NUM_SECTORS ==> (during[s] <==> bits[s] || s == sector || s in DirectBlocks(h))
  {
    hide LaidOut, WellFormed, Free, Blocks, DirectFile, Owned;
    var marked, n := bits[sector := true], h.numSectors;
    var free := Free(marked);
    FreeOnDisk(marked);
    LaidOutWellFormed(false, h, d, free);
    DirectIsWellFormed(h, d);
    DirectOwned(h, d);
    BlocksInOrder(h, d, free);
    forall s | s in DirectBlocks(h) ensures s != sector && 0 <= s < NUM_SECTORS && !bits[s] {
      OwnedWasFree(false, h, d, marked, s);
    }
    forall s | 0 <= s < NUM_SECTORS ensures during[s] <==> marked[s] || s in DirectBlocks(h) {
      TakenOrBefore(marked, during, n, s);
      if !marked[s] {
        var k :| 0 <= k < |free| && free[k] == s && (during[s] <==> k < n);
        TakenIsOwned(false, h, d, free, k);
      }
    }
  }

  lemma PlanEntered(d: Sectors, e: Sectors, i: int, key: seq<Byte>, sector: int, h: Inode, entries: seq<DirEntry>,
      bits: seq<bool>)
    requires Consistent(d) && Planned(MetaOf(d), i, key, sector, h, entries, bits)
    requires forall k :: !Named(DirectoryOf(d), k, key)
    requires Updated(d, e, sector) && Bootable(e) && e[0] == d[0] && e[1] == d[1] && Decode(e[sector]) == h
    requires DirectoryOf(e) == entries && MetaOf(e).bits == bits
    ensures Entered(d, e, i, key, sector, h)
  {
    assert MetaOf(d).entries == DirectoryOf(d);
    hide MetaOf, DirectoryOf, MetaOk, Decode, Bootable, FileBytes, BitsOf, Entries;
  }

  // ---------------------------------------------------------------------------
  // Remove

  /** The map without the sectors of listed file i. */
  ghost predicate Released(now: seq<bool>, m: Meta, i: int) {
    && |now| == |m.bits| == NUM_SECTORS
    && forall s :: 0 <= s < NUM_SECTORS ==> (now[s] <==> m.bits[s] && s !in Claim(m, i))
  }

  /** Remove has taken the file of that name out of slot i: the map has lost exactly its sectors, and the other slots
      are as they were. */
  ghost predicate ReleasedNamed(d: Sectors, e: Sectors, i: int, key: seq<Byte>)
    requires Bootable(d) && Bootable(e)
  {
    && InUse(d, i) && DirectoryOf(d)[i].name == key && Released(MetaOf(e).bits, MetaOf(d), i)
    && forall k :: InUse(d, k) && k != i ==> Kept(d, e, k)
  }

  /** What Remove releases is exactly what the file claims. */
  lemma ReleasedFile(m: Meta, d: Sectors, i: nat, now: seq<bool>)
    requires Shape(m) && i < NUM_DIR_ENTRIES && ListedFile(m, i) && m.entries[i].inUse
    requires Cleared(now, m.bits, Owned(false, m.headers[i], d))
    ensures Released(now[m.entries[i].sector := false], m, i)
  {
    DirectIsWellFormed(m.headers[i], d);
  }

  lemma ReleasedDropped(d: Sectors, e: Sectors, i: int, entries: seq<DirEntry>, bits: seq<bool>)
    requires Consistent(d) && InUse(d, i) && Released(bits, MetaOf(d), i)
    requires Updated(d, e, -1) && Bootable(e) && e[0] == d[0] && e[1] == d[1]
    requires DirectoryOf(e) == DirectoryOf(d)[i := DirectoryOf(d)[i].(inUse := false)] && MetaOf(e).bits == bits
    ensures Dropped(d, e, i)
  {
    hide MetaOf, DirectoryOf, MetaOk, Decode, Bootable, FileBytes, BitsOf, Entries;
  }

  lemma DroppedIsReleased(d: Sectors, e: Sectors, i: int)
    requires Consistent(d) && 0 <= i && Dropped(d, e, i)
    ensures ReleasedNamed(d, e, i, DirectoryOf(d)[i].name)
  {
    hide MetaOf, DirectoryOf, MetaOk, Updated, Decode, DirectFile, DirectBlocks, Bootable, Claim;
    DroppedMeta(d, e, i);
    forall k | InUse(d, k) && k != i ensures Kept(d, e, k) { assert SlotKept(d, e, k); }
  }

  lemma SameKept(d: Sectors, e: Sectors)
    requires Bootable(d) && Bootable(e) && MetaOf(e) == MetaOf(d)
    ensures OthersKept(d, e, {})
  {
    EntriesAre(d);
    EntriesAre(e);
    hide MetaOf, DirectoryOf, Bootable;
  }

  lemma MoreGone(d: Sectors, e: Sectors, gone: set<seq<Byte>>)
    requires Bootable(d) && Bootable(e) && OthersKept(d, e, {})
    ensures OthersKept(d, e, gone)
  {
    hide MetaOf, DirectoryOf, Bootable;
  }

  lemma NewKept(d: Sectors, e: Sectors, key: seq<Byte>)
    requires Bootable(d) && Bootable(e) && exists i :: NewFile(d, e, i, key)
    ensures OthersKept(d, e, {})
  {
    hide MetaOf, DirectoryOf, Bootable, Kept;
    var i :| NewFile(d, e, i, key);
  }

  lemma ReleasedKept(d: Sectors, e: Sectors, key: seq<Byte>)
    requires Bootable(d) && Bootable(e) && exists i :: ReleasedNamed(d, e, i, key)
    ensures OthersKept(d, e, {key})
  {
    hide MetaOf, DirectoryOf, Bootable, Kept;
    var i :| ReleasedNamed(d, e, i, key);
  }

  // ---------------------------------------------------------------------------
  // Format

  lemma {:induction false} ClearFrom(bits: seq<bool>, from: nat)
    requires from <= |bits| && forall k :: from <= k < |bits| ==> !bits[k]
    ensures |FreeFrom(bits, from)| == |bits| - from
    ensures forall k :: 0 <= k < |bits| - from ==> FreeFrom(bits, from)[k] == from + k
    decreases |bits| - from
  {
    if from < |bits| {
      ClearFrom(bits, from + 1);
    }
  }

  /** With the two header sectors taken, the free sectors are 2, 3, 4 and so on. */
  lemma FreshFree(bits: seq<bool>)
    requires |bits| == NUM_SECTORS && forall k :: 0 <= k < NUM_SECTORS ==> (bits[k] <==> k < 2)
    ensures |Free(bits)| == NUM_SECTORS - 2
    ensures forall k :: 0 <= k < NUM_SECTORS - 2 ==> Free(bits)[k] == 2 + k
  {
    ClearFrom(bits, 2);
    assert FreeFrom(bits, 1) == FreeFrom(bits, 2);
    assert Free(bits) == FreeFrom(bits, 1);
  }

  /** The map and the directory of a new disk lie in sectors 2 and 3 to 9. */
  ghost predicate FreshSystem(mapHdr: Inode, dirHdr: Inode, bits: seq<bool>) {
    && |mapHdr.dataSectors| == NUM_DATA_SECTORS && mapHdr.numBytes == FREE_MAP_BYTES && mapHdr.numSectors == 1
    && mapHdr.dataSectors[0] == 2
    && |dirHdr.dataSectors| == NUM_DATA_SECTORS && dirHdr.numBytes == DIRECTORY_BYTES && dirHdr.numSectors == 7
    && (forall k :: 0 <= k < 7 ==> dirHdr.dataSectors[k] == 3 + k)
    && |bits| == NUM_SECTORS && forall s :: 0 <= s < NUM_SECTORS ==> (bits[s] <==> s < 10)
  }

  lemma FreshLayout(bits: seq<bool>, mapHdr: Inode, dirHdr: Inode, d: Sectors, free1: seq<int>, after: seq<bool>)
    requires |bits| == |after| == NUM_SECTORS && forall k :: 0 <= k < NUM_SECTORS ==> (bits[k] <==> k < 2)
    requires mapHdr.numBytes == FREE_MAP_BYTES && mapHdr.numSectors == 1 && LaidOut(false, mapHdr, d, Free(bits))
    requires dirHdr.numBytes == DIRECTORY_BYTES && dirHdr.numSectors == 7 && LaidOut(false, dirHdr, d, free1)
    requires Cursor(free1, Free(bits), 1) && Cursor(Free(after), free1, 7)
    ensures FreshSystem(mapHdr, dirHdr, after)
  {
    FreshFree(bits);
    FreeSpec(after);
    var free := Free(bits);
    assert mapHdr.dataSectors[0] == BlockSector(false, mapHdr, d, 0);
    forall k | 0 <= k < 7 ensures dirHdr.dataSectors[k] == 3 + k {
      assert dirHdr.dataSectors[k] == BlockSector(false, dirHdr, d, k);
    }
    assert Free(after) == free[8..];
    forall s | 0 <= s < NUM_SECTORS ensures after[s] <==> s < 10 {
      if s >= 10 { assert Free(after)[s - 10] == s; }
    }
  }

  lemma FreshIsSystem(m: Meta)
    requires FreshSystem(m.mapHdr, m.dirHdr, m.bits)
    ensures SystemFiles(m)
    ensures SystemClaim(m) == {0, 1, 2, 3, 4, 5, 6, 7, 8, 9}
  {
    assert DirectBlocks(m.mapHdr) == [2];
    assert DirectBlocks(m.dirHdr) == [3, 4, 5, 6, 7, 8, 9];
  }

  lemma FreshIsOk(m: Meta)
    requires Shape(m) && FreshSystem(m.mapHdr, m.dirHdr, m.bits)
    requires forall k :: 0 <= k < NUM_DIR_ENTRIES ==> !m.entries[k].inUse
    ensures MetaOk(m)
  {
    FreshIsSystem(m);
    forall s | 0 <= s < NUM_SECTORS ensures m.bits[s] <==> Claimed(m, s) {
      if s < 10 { assert s in Claim(m, NUM_DIR_ENTRIES); }
    }
  }

  lemma EmptyDisk(d: Sectors)
    requires Bootable(d) && FreshSystem(Decode(d[0]), Decode(d[1]), MetaOf(d).bits)
    requires forall k :: 0 <= k < NUM_DIR_ENTRIES ==> !DirectoryOf(d)[k].inUse
    ensures Represents(d, map[])
  {
    FreshIsOk(MetaOf(d));
  }

  lemma FreshBoots(d: Sectors, bits: seq<bool>)
    requires Formatted(d) && FreshSystem(Decode(d[0]), Decode(d[1]), bits)
    ensures Bootable(d) && SystemFiles(MetaOf(d))
  {
    hide Entries, BitsOf, FileBytes, Decode;
    FreshIsSystem(Meta(Decode(d[0]), Decode(d[1]), [], [], bits));
  }

  // ---------------------------------------------------------------------------
  // Close

  /** Closing a file has written its header to sector s and changed nothing else. */
  ghost predicate HeaderWritten(d: Sectors, e: Sectors, s: int, image: seq<Byte>) {
    Formatted(d) && 0 <= s < NUM_SECTORS && |image| == SECTOR_SIZE && e == d[s := image]
  }

  /** The header of listed file i may be overwritten with h: it describes the same bytes on the same sectors. */
  ghost predicate SameFile(d: Sectors, h: Inode, i: int)
    requires Consistent(d) && InUse(d, i)
  {
    && DirectFile(h) && Elements(DirectBlocks(h)) == Elements(DirectBlocks(MetaOf(d).headers[i]))
    && FileBytes(h, d) == FileAt(d, i)
  }

  /** How much of its block k a file uses. */
  function BytesIn(g: Inode, k: nat): (n: nat)
    ensures n <= SECTOR_SIZE
  {
    if Length(g) >= 128 * k + 128 then 128 else if Length(g) > 128 * k then Length(g) - 128 * k else 0
  }

  /** A data sector of a file may be overwritten with the image: as far as the file uses it, it has these bytes. */
  ghost predicate SameBytes(d: Sectors, s: int, image: seq<Byte>, g: Inode)
    requires Formatted(d) && 0 <= s < NUM_SECTORS && |image| == SECTOR_SIZE
  {
    forall k :: 0 <= k < |DirectBlocks(g)| && DirectBlocks(g)[k] == s ==>
      image[..BytesIn(g, k)] == d[s][..BytesIn(g, k)]
  }

  /** Nobody is harmed by the write: if s is the header of a listed file, the image describes that file; if it is a
      data sector of one, the image repeats what the file has there. */
  ghost predicate Harmless(d: Sectors, s: int, image: seq<Byte>)
    requires Consistent(d) && 0 <= s < NUM_SECTORS && |image| == SECTOR_SIZE
  {
    forall i :: InUse(d, i) ==>
      && (s == DirectoryOf(d)[i].sector ==> SameFile(d, Decode(image), i))
      && SameBytes(d, s, image, MetaOf(d).headers[i])
  }

  lemma BlockUnchanged(d: Sectors, e: Sectors, s: int, image: seq<Byte>, g: Inode, k: nat)
    requires HeaderWritten(d, e, s, image) && DirectFile(g)
    requires k < |DirectBlocks(g)| && DirectBlocks(g)[k] == s && FileBytes(g, e) == FileBytes(g, d)
    ensures image[..BytesIn(g, k)] == d[s][..BytesIn(g, k)]
  {
    forall q | 0 <= q < BytesIn(g, k) ensures image[q] == d[s][q] {
      var p := 128 * k + q;
      assert p / 128 == k && p % 128 == q;
      assert FileBytes(g, e)[p] == FileBytes(g, d)[p];
    }
  }

  /** The bytes of a file survive the write exactly when the image repeats them. */
  lemma BytesAfter(d: Sectors, e: Sectors, s: int, image: seq<Byte>, g: Inode)
    requires HeaderWritten(d, e, s, image) && DirectFile(g)
    ensures FileBytes(g, e) == FileBytes(g, d) <==> SameBytes(d, s, image, g)
  {
    var blocks := DirectBlocks(g);
    if FileBytes(g, e) == FileBytes(g, d) {
      forall k | 0 <= k < |blocks| && blocks[k] == s ensures image[..BytesIn(g, k)] == d[s][..BytesIn(g, k)] {
        BlockUnchanged(d, e, s, image, g, k);
      }
    }
    if SameBytes(d, s, image, g) {
      forall p | 0 <= p < Length(g) ensures ByteAt(e, blocks, p) == ByteAt(d, blocks, p) {
        var k, q := p / 128, p % 128;
        if blocks[k] == s {
          assert image[..BytesIn(g, k)][q] == d[s][..BytesIn(g, k)][q];
        }
      }
    }
  }

  lemma SystemUntouched(d: Sectors, e: Sectors, s: int, image: seq<Byte>)
    requires Consistent(d) && HeaderWritten(d, e, s, image) && s !in SystemClaim(MetaOf(d))
    ensures Bootable(e) && e[0] == d[0] && e[1] == d[1]
    ensures DirectoryOf(e) == DirectoryOf(d) && MetaOf(e).bits == MetaOf(d).bits
    ensures MetaOf(e).mapHdr == MetaOf(d).mapHdr && MetaOf(e).dirHdr == MetaOf(d).dirHdr
  {
    var m := MetaOf(d);
    assert 0 in SystemClaim(m) && 1 in SystemClaim(m);
    BytesElsewhere(d, e, s, Decode(d[0]));
    BytesElsewhere(d, e, s, Decode(d[1]));
  }

  lemma BytesElsewhere(d: Sectors, e: Sectors, s: int, g: Inode)
    requires Formatted(d) && Formatted(e) && DirectFile(g) && s !in DirectBlocks(g)
    requires forall t :: 0 <= t < NUM_SECTORS && t != s ==> e[t] == d[t]
    ensures FileBytes(g, e) == FileBytes(g, d)
  {
    var blocks := DirectBlocks(g);
    forall p | 0 <= p < Length(g) ensures ByteAt(e, blocks, p) == ByteAt(d, blocks, p) {
      assert blocks[p / 128] != s;
    }
  }

  /** Headers other than the one in s are as they were. */
  lemma HeadersAfter(d: Sectors, e: Sectors, s: int, image: seq<Byte>, i: nat)
    requires Consistent(d) && HeaderWritten(d, e, s, image) && s !in SystemClaim(MetaOf(d)) && i < NUM_DIR_ENTRIES
    requires Bootable(e) && DirectoryOf(e) == DirectoryOf(d)
    ensures MetaOf(e).headers[i] ==
      if InUse(d, i) && DirectoryOf(d)[i].sector == s then Decode(image) else MetaOf(d).headers[i]
  {
    hide Entries, BitsOf, FileBytes, Decode, DirectFile, DirectBlocks, SystemClaim, Claim, DirectoryOf, Bootable;
    assert ListedFile(MetaOf(d), i);
  }

  /** With the same directory, a disk stands for the same files exactly when each listed file has the same bytes. */
  lemma SameRepresents(d: Sectors, e: Sectors, files: Files)
    requires Represents(d, files) && Consistent(e) && DirectoryOf(e) == DirectoryOf(d)
    ensures forall i :: InUse(e, i) <==> InUse(d, i)
    ensures Represents(e, files) <==> forall i :: InUse(d, i) ==> FileAt(e, i) == FileAt(d, i)
  {
    hide MetaOk, MetaOf, DirectoryOf, FileAt, Bootable;
    assert forall i :: InUse(e, i) <==> InUse(d, i);
    if forall i :: InUse(d, i) ==> FileAt(e, i) == FileAt(d, i) {
      forall name | name in files ensures exists i :: InUse(e, i) && DirectoryOf(e)[i].name == name {
        var i :| InUse(d, i) && DirectoryOf(d)[i].name == name;
        assert InUse(e, i);
      }
    }
  }

  /** A header may be exchanged for another one on the same set of sectors, and for no other. */
  lemma HeaderExchanged(m: Meta, i: nat, h: Inode)
    requires MetaOk(m) && i < NUM_DIR_ENTRIES && m.entries[i].inUse
    ensures MetaOk(m.(headers := m.headers[i := h])) <==>
      DirectFile(h) && Elements(DirectBlocks(h)) == Elements(DirectBlocks(m.headers[i]))
  {
    var n := m.(headers := m.headers[i := h]);
    assert ListedFile(m, i);
    hide DirectFile, DirectBlocks;
    forall k | 0 <= k <= NUM_DIR_ENTRIES && k != i ensures Claim(n, k) == Claim(m, k) { ClaimsElsewhere(m, n, i, k); }
    if MetaOk(n) {
      ExchangedClaim(m, n, i);
      assert ListedFile(n, i);
      forall x ensures x in Elements(DirectBlocks(h)) <==> x in Elements(DirectBlocks(m.headers[i])) {
        assert x in Claim(n, i) <==> x in Claim(m, i);
      }
    }
    if DirectFile(h) && Elements(DirectBlocks(h)) == Elements(DirectBlocks(m.headers[i])) {
      assert Claim(n, i) == Claim(m, i);
      assert m.entries[i].sector !in Elements(DirectBlocks(h));
      forall k | 0 <= k < NUM_DIR_ENTRIES ensures ListedFile(n, k) { assert ListedFile(m, k); }
      SameClaims(m, n);
    }
  }

  lemma SameClaims(m: Meta, n: Meta)
    requires MetaOk(m) && Shape(n) && n.entries == m.entries && n.bits == m.bits
    requires forall k :: 0 <= k <= NUM_DIR_ENTRIES ==> Claim(n, k) == Claim(m, k)
    ensures Disjoint(n) && MapExact(n)
  {
    forall x ensures Claimed(n, x) <==> Claimed(m, x) {
      if i :| 0 <= i <= NUM_DIR_ENTRIES && x in Claim(n, i) { assert x in Claim(m, i); }
      if i :| 0 <= i <= NUM_DIR_ENTRIES && x in Claim(m, i) { assert x in Claim(n, i); }
    }
  }

  /** When two exact maps agree on the bits and on all claims but one, they agree on that one. */
  lemma ExchangedClaim(m: Meta, n: Meta, i: nat)
    requires MetaOk(m) && MetaOk(n) && m.bits == n.bits && i < NUM_DIR_ENTRIES
    requires forall k :: 0 <= k <= NUM_DIR_ENTRIES && k != i ==> Claim(n, k) == Claim(m, k)
    ensures Claim(n, i) == Claim(m, i)
  {
    forall x ensures x in Claim(n, i) ==> x in Claim(m, i) { InOneClaim(n, m, i, x); }
    forall x ensures x in Claim(m, i) ==> x in Claim(n, i) { InOneClaim(m, n, i, x); }
  }

  lemma InOneClaim(m: Meta, n: Meta, i: nat, x: int)
    requires MetaOk(m) && MetaOk(n) && m.bits == n.bits && i < NUM_DIR_ENTRIES
    requires forall k :: 0 <= k <= NUM_DIR_ENTRIES && k != i ==> Claim(n, k) == Claim(m, k)
    ensures x in Claim(m, i) ==> x in Claim(n, i)
  {
    if x in Claim(m, i) {
      ClaimOnDisk(m, i, x);
      assert Claimed(m, x);
      forall k | 0 <= k <= NUM_DIR_ENTRIES && k != i ensures x !in Claim(n, k) {
        assert k < i ==> Claim(m, k) !! Claim(m, i);
        assert i < k ==> Claim(m, i) !! Claim(m, k);
      }
      var k :| 0 <= k <= NUM_DIR_ENTRIES && x in Claim(n, k);
    }
  }

  lemma ClaimOnDisk(m: Meta, i: nat, x: int)
    requires MetaOk(m) && i < NUM_DIR_ENTRIES && x in Claim(m, i)
    ensures 0 <= x < NUM_SECTORS
  {
    assert ListedFile(m, i);
  }

  lemma HeaderCase(d: Sectors, e: Sectors, files: Files, s: int, image: seq<Byte>, i: int)
    requires Represents(d, files) && HeaderWritten(d, e, s, image) && s !in SystemClaim(MetaOf(d))
    requires InUse(d, i) && DirectoryOf(d)[i].sector == s
    ensures Represents(e, files) <==> SameFile(d, Decode(image), i)
    ensures Harmless(d, s, image) <==> SameFile(d, Decode(image), i)
  {
    hide Entries, BitsOf, FileBytes, Decode, DirectFile, DirectBlocks, Claim, MetaOk, Bootable, Elements, SystemClaim;
    var m, h := MetaOf(d), Decode(image);
    SystemUntouched(d, e, s, image);
    OnlyHeader(d, e, s, image, i);
    HeaderExchanged(m, i, h);
    if DirectFile(h) && Elements(DirectBlocks(h)) == Elements(DirectBlocks(m.headers[i])) {
      SameRepresents(d, e, files);
      OwnHeader(d, i);
      SameElements(DirectBlocks(h), DirectBlocks(m.headers[i]), s);
      BytesElsewhere(d, e, s, h);
      forall k | InUse(d, k) && k != i ensures FileAt(e, k) == FileAt(d, k) {
        OtherFile(d, k, i, s);
        ListedIsDirect(d, k);
        BytesElsewhere(d, e, s, m.headers[k]);
      }
      assert FileAt(e, i) == FileBytes(h, e);
    }
    HeaderOnly(d, s, i);
  }

  lemma SameElements(xs: seq<int>, ys: seq<int>, x: int)
    requires Elements(xs) == Elements(ys)
    ensures x in xs <==> x in ys
  {
    assert x in Elements(xs) <==> x in Elements(ys);
  }

  lemma OnlyHeader(d: Sectors, e: Sectors, s: int, image: seq<Byte>, i: int)
    requires Consistent(d) && HeaderWritten(d, e, s, image) && s !in SystemClaim(MetaOf(d))
    requires InUse(d, i) && DirectoryOf(d)[i].sector == s
    ensures Bootable(e) && MetaOf(e) == MetaOf(d).(headers := MetaOf(d).headers[i := Decode(image)])
  {
    hide Entries, BitsOf, FileBytes, Decode, DirectFile, DirectBlocks, MetaOk, Bootable, SystemClaim;
    SystemUntouched(d, e, s, image);
    forall k | 0 <= k < NUM_DIR_ENTRIES ensures MetaOf(e).headers[k] == MetaOf(d).headers[i := Decode(image)][k] {
      HeadersAfter(d, e, s, image, k);
      if InUse(d, k) && k != i { OtherFile(d, k, i, s); }
    }
    EntriesAre(d);
    EntriesAre(e);
    hide MetaOf, DirectoryOf;
    assert MetaOf(e).headers == MetaOf(d).headers[i := Decode(image)];
  }

  /** A sector of listed file i is neither header nor data of another one. */
  lemma OtherFile(d: Sectors, k: int, i: int, s: int)
    requires Consistent(d) && InUse(d, k) && InUse(d, i) && k != i && s in Claim(MetaOf(d), i)
    ensures DirectoryOf(d)[k].sector != s && s !in DirectBlocks(MetaOf(d).headers[k])
  {
    var m := MetaOf(d);
    EntriesAre(d);
    assert Claim(m, k) !! Claim(m, i) by {
      assert k < i ==> Claim(m, k) !! Claim(m, i);
      assert i < k ==> Claim(m, i) !! Claim(m, k);
    }
    assert DirectoryOf(d)[k].sector in Claim(m, k);
    assert s in DirectBlocks(m.headers[k]) ==> s in Claim(m, k);
  }

  lemma OwnHeader(d: Sectors, i: int)
    requires Consistent(d) && InUse(d, i)
    ensures DirectoryOf(d)[i].sector !in DirectBlocks(MetaOf(d).headers[i])
    ensures DirectoryOf(d)[i].sector in Claim(MetaOf(d), i)
  {
    EntriesAre(d);
    assert ListedFile(MetaOf(d), i);
  }

  lemma HeaderOnly(d: Sectors, s: int, i: int)
    requires Consistent(d) && InUse(d, i) && DirectoryOf(d)[i].sector == s
    ensures forall k :: InUse(d, k) && k != i ==> DirectoryOf(d)[k].sector != s
    ensures forall k :: InUse(d, k) ==> s !in DirectBlocks(MetaOf(d).headers[k])
  {
    OwnHeader(d, i);
    hide MetaOf, DirectoryOf, Consistent, Claim, DirectBlocks;
    forall k | InUse(d, k) && k != i ensures DirectoryOf(d)[k].sector != s && s !in DirectBlocks(MetaOf(d).headers[k]) {
      OtherFile(d, k, i, s);
    }
  }

  lemma NoHeaderCase(d: Sectors, e: Sectors, files: Files, s: int, image: seq<Byte>)
    requires Represents(d, files) && HeaderWritten(d, e, s, image) && s !in SystemClaim(MetaOf(d))
    requires forall i :: InUse(d, i) ==> DirectoryOf(d)[i].sector != s
    ensures Represents(e, files) <==> Harmless(d, s, image)
  {
    hide Entries, BitsOf, FileBytes, Decode, DirectFile, DirectBlocks, Claim, MetaOk, Bootable, SystemClaim;
    SystemUntouched(d, e, s, image);
    forall k | 0 <= k < NUM_DIR_ENTRIES ensures MetaOf(e).headers[k] == MetaOf(d).headers[k] {
      HeadersAfter(d, e, s, image, k);
    }
    assert MetaOf(e).headers == MetaOf(d).headers;
    EntriesAre(d);
    EntriesAre(e);
    assert MetaOf(e) == MetaOf(d);
    SameRepresents(d, e, files);
    forall k | InUse(d, k)
      ensures FileAt(e, k) == FileAt(d, k) <==> SameBytes(d, s, image, MetaOf(d).headers[k])
    {
      ListedIsDirect(d, k);
      BytesAfter(d, e, s, image, MetaOf(d).headers[k]);
    }
  }

  /** Closing a file keeps all files as they are if and only if the header that is written harms nobody who uses the
      sector by now. */
  lemma CloseExact(d: Sectors, e: Sectors, files: Files, s: int, image: seq<Byte>)
    requires Represents(d, files) && HeaderWritten(d, e, s, image) && s !in SystemClaim(MetaOf(d))
    ensures Represents(e, files) <==> Harmless(d, s, image)
  {
    hide MetaOf, DirectoryOf, Represents, Harmless, HeaderWritten, SameFile, MetaOk, Bootable;
    RepresentsConsistent(d, files);
    if i :| InUse(d, i) && DirectoryOf(d)[i].sector == s {
      HeaderCase(d, e, files, s, image, i);
    } else {
      NoHeaderCase(d, e, files, s, image);
    }
  }

  lemma UnclaimedIsHarmless(d: Sectors, s: int, image: seq<Byte>)
    requires Consistent(d) && 0 <= s < NUM_SECTORS && !MetaOf(d).bits[s] && |image| == SECTOR_SIZE
    ensures Harmless(d, s, image)
  {
    hide MetaOk, MetaOf, DirectoryOf, Bootable, DirectBlocks, DirectFile, Decode, FileBytes;
    forall i | InUse(d, i) ensures DirectoryOf(d)[i].sector != s && s !in DirectBlocks(MetaOf(d).headers[i]) {
      ClearIsUnclaimed(d, s, i);
      EntriesAre(d);
    }
  }

  /** It does when the sector is free by now, and when the file is still listed. */
  lemma CloseIsSafe(d: Sectors, e: Sectors, files: Files, s: int, image: seq<Byte>)
    requires Represents(d, files) && HeaderWritten(d, e, s, image) && s !in SystemClaim(MetaOf(d))
    requires || !MetaOf(d).bits[s]
             || exists i :: InUse(d, i) && DirectoryOf(d)[i].sector == s && MetaOf(d).headers[i] == Decode(image)
    ensures Represents(e, files)
  {
    RepresentsConsistent(d, files);
    hide MetaOk, MetaOf, DirectoryOf, Bootable, Represents, DirectBlocks, DirectFile, Decode, FileBytes, SystemClaim,
      Harmless;
    if i :| InUse(d, i) && DirectoryOf(d)[i].sector == s && MetaOf(d).headers[i] == Decode(image) {
      ListedIsDirect(d, i);
      HeaderCase(d, e, files, s, image, i);
    } else {
      UnclaimedIsHarmless(d, s, image);
      CloseExact(d, e, files, s, image);
    }
  }

  /** It does not when the sector has become the header of a file of another length: closing after Remove and
      Create can destroy the new file. */
  lemma StaleCloseHarms(d: Sectors, e: Sectors, files: Files, s: int, image: seq<Byte>, i: int)
    requires Represents(d, files) && HeaderWritten(d, e, s, image) && s !in SystemClaim(MetaOf(d))
    requires InUse(d, i) && DirectoryOf(d)[i].sector == s && Length(Decode(image)) != |files[DirectoryOf(d)[i].name]|
    ensures !Represents(e, files)
  {
    hide MetaOf, DirectoryOf, HeaderWritten;
    HeaderCase(d, e, files, s, image, i);
  }

  /** Nor does it when the sector has become a data sector of a file that has another byte there. */
  lemma StaleCloseOverwrites(d: Sectors, e: Sectors, files: Files, s: int, image: seq<Byte>, i: int, k: nat, q: nat)
    requires Represents(d, files) && HeaderWritten(d, e, s, image) && s !in SystemClaim(MetaOf(d))
    requires InUse(d, i) && k < |DirectBlocks(MetaOf(d).headers[i])| && DirectBlocks(MetaOf(d).headers[i])[k] == s
    requires q < BytesIn(MetaOf(d).headers[i], k) && image[q] != d[s][q]
    ensures !Represents(e, files)
  {
    hide MetaOf, DirectoryOf, Bootable, MetaOk, Represents, DirectBlocks, Decode;
    RepresentsConsistent(d, files);
    CloseExact(d, e, files, s, image);
    var n := BytesIn(MetaOf(d).headers[i], k);
    assert image[..n][q] != d[s][..n][q];
  }
}
