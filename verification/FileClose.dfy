/** What the destructor of an open file can do to the files of a disk from which the file was removed. */
module FileCloses {
  import opened Words
  import opened BitMaps
  import opened SectorStore
  import opened FileHeaders
  import opened OpenFiles
  import opened Directories
  import opened FileSystemSpec
  import opened FileSystemPlans
  import opened FileSystems
  import opened FileSystemRuns

  lemma OneSlot(d: Sectors, i: int, j: int)
    requires Consistent(d) && InUse(d, i) && InUse(d, j) && DirectoryOf(d)[i].name == DirectoryOf(d)[j].name
    ensures i == j
  {
    EntriesAre(d);
    assert NamesDiffer(MetaOf(d).entries);
  }

  /** Create and then Remove of the same name leave the free map as it was. */
  lemma CreateThenRemove(d: Sectors, e: Sectors, g: Sectors, i: int, j: int, key: seq<Byte>)
    requires Bootable(d) && Consistent(e) && Bootable(g) && NewFile(d, e, i, key) && ReleasedNamed(e, g, j, key)
    ensures MetaOf(g).bits == MetaOf(d).bits
  {
    OneSlot(e, i, j);
    hide MetaOf, DirectoryOf, MetaOk, Bootable, Claim, Free;
    forall s | 0 <= s < NUM_SECTORS ensures MetaOf(g).bits[s] == MetaOf(d).bits[s] {
    }
  }

  /** The header sector of a listed file belongs to that file alone. */
  lemma HeaderNotSystem(d: Sectors, i: int)
    requires Consistent(d) && InUse(d, i)
    ensures DirectoryOf(d)[i].sector !in SystemClaim(MetaOf(d)) && 0 <= DirectoryOf(d)[i].sector < NUM_SECTORS
  {
    EntriesAre(d);
    assert ListedFile(MetaOf(d), i);
    assert Claim(MetaOf(d), i) !! Claim(MetaOf(d), NUM_DIR_ENTRIES);
    assert MetaOf(d).entries[i].sector in Claim(MetaOf(d), i);
  }

  /** What was created, removed and created again has its header where it was the first time. */
  lemma SectorAgain(d0: Sectors, d1: Sectors, d2: Sectors, d3: Sectors, i: int, a: seq<Byte>, b: seq<Byte>)
    returns (k: int)
    requires Bootable(d0) && Consistent(d1) && Bootable(d2) && Bootable(d3)
    requires InUse(d1, i) && DirectoryOf(d1)[i].name == a
    requires exists i :: NewFile(d0, d1, i, a)
    requires exists i :: ReleasedNamed(d1, d2, i, a)
    requires exists i :: NewFile(d2, d3, i, b)
    ensures InUse(d3, k) && DirectoryOf(d3)[k].name == b && DirectoryOf(d3)[k].sector == DirectoryOf(d1)[i].sector
  {
    hide MetaOf, DirectoryOf, Bootable, MetaOk, Free, InUse, Released;
    var i1 :| NewFile(d0, d1, i1, a);
    var i2 :| ReleasedNamed(d1, d2, i2, a);
    k :| NewFile(d2, d3, k, b);
    CreateThenRemove(d0, d1, d2, i1, i2, a);
    OneSlot(d1, i, i1);
  }

  /** A file is created, opened and removed; a new one of another length is created and gets the same header sector;
      then the first one is closed. Before that the disk stands for the files there should be, and afterwards it does
      not. */
  method CloseAfterRemove(fs: FileSystem, a: seq<Byte>, b: seq<Byte>, sizeA: Int32, sizeB: Int32,
                          attributes: seq<Byte>, ghost files: Files)
    returns (ghost between: Sectors, ghost content: seq<Byte>)
    requires fs.Valid() && Represents(fs.disk.sectors, files) && |files| < NUM_DIR_ENTRIES
    requires CString(a) && CString(b) && |attributes| == ATTRIBUTE_BYTES && Key(a) !in files && Key(b) !in files
    requires 0 <= SectorsFor(sizeA) < NUM_DATA_SECTORS && 0 <= SectorsFor(sizeB) < NUM_DATA_SECTORS
    requires sizeA != sizeB && (sizeA > 0 || sizeB > 0)
    modifies fs.disk
    ensures |content| == if sizeB > 0 then sizeB else 0
    ensures Represents(between, files[Key(b) := content])
    ensures !Represents(fs.disk.sectors, files[Key(b) := content])
  {
    hide Represents, MetaOf, DirectoryOf, Bootable, Consistent, Free, Key, Flat, CString, SystemClaim, NewFile,
      ReleasedNamed, CreateAnswer, CreateReply, InUse, Decode, HeaderWritten, Harmless, SectorsFor;
    ghost var d0 := fs.disk.sectors;
    AnswerIsReply(d0, files, Key(a), sizeA);
    var r, contentA := fs.Create(a, sizeA, attributes, files);
    ghost var d1, filesA := fs.disk.sectors, files[Key(a) := contentA];
    var file, i := fs.Open(a, filesA);
    var ok := fs.Remove(a, filesA);
    ghost var d2 := fs.disk.sectors;
    assert filesA - {Key(a)} == files;
    AnswerIsReply(d2, files, Key(b), sizeB);
    r, content := fs.Create(b, sizeB, attributes, files);
    between := fs.disk.sectors;
    ghost var k := SectorAgain(d0, d1, d2, between, i, Key(a), Key(b));
    HeaderNotSystem(between, k);
    fs.Close(file, attributes, files[Key(b) := content]);
    ghost var image := file.hdr.Image(attributes);
    StaleCloseHarms(between, fs.disk.sectors, files[Key(b) := content], file.headerSector, image, k);
  }

  /** Taking the first free sector leaves the others. */
  lemma FreeAfterFirst(bits: seq<bool>)
    requires |Free(bits)| > 0
    ensures 0 <= Free(bits)[0] < |bits| && Free(bits[Free(bits)[0] := true]) == Free(bits)[1..]
  {
    FreeSpec(bits);
    hide Free;
    var first := Free(bits)[0];
    assert first in Free(bits);
    forall k | k in Free(bits) ensures first <= k {
      var j :| 0 <= j < |Free(bits)| && Free(bits)[j] == k;
    }
    FirstTaken(bits, first);
  }

  lemma FirstTaken(bits: seq<bool>, first: nat)
    requires first < |bits| && !bits[first] && forall k :: 0 <= k < first ==> bits[k]
    ensures |Free(bits)| > 0 && Free(bits[first := true]) == Free(bits)[1..]
  {
    FreeMarkFirst(bits, first, 0);
  }

  lemma BlocksOfLength(h: Inode)
    requires DirectFile(h)
    ensures Length(h) == 0 ==> DirectBlocks(h) == []
    ensures Length(h) == 128 ==> |DirectBlocks(h)| == 1 && BytesIn(h, 0) == 128
  {
  }

  /** The bytes of a name are those of the listed file. */
  lemma ListedBytes(d: Sectors, files: Files, i: int)
    requires Represents(d, files) && InUse(d, i)
    ensures Formatted(d) && DirectFile(MetaOf(d).headers[i]) && DirectoryOf(d)[i].name in files
    ensures files[DirectoryOf(d)[i].name] == FileBytes(MetaOf(d).headers[i], d)
  {
    ListedIsDirect(d, i);
    hide MetaOf, DirectoryOf, MetaOk, DirectFile, FileBytes, Bootable;
  }

  /** An empty file created takes the first free sector for its header and nothing else. */
  lemma EmptyCreated(d: Sectors, e: Sectors, files: Files, i: int, key: seq<Byte>)
    requires Bootable(d) && Represents(e, files) && NewFile(d, e, i, key) && key in files && files[key] == []
    requires |Free(MetaOf(d).bits)| > 0
    ensures Free(MetaOf(e).bits) == Free(MetaOf(d).bits)[1..]
  {
    hide MetaOf, DirectoryOf, Represents, Bootable, Free, MetaOk, Kept, DirectBlocks, DirectFile, FileBytes, Claim;
    RepresentsConsistent(e, files);
    ListedBytes(e, files, i);
    var m, h := MetaOf(e), MetaOf(e).headers[i];
    BlocksOfLength(h);
    EntriesAre(e);
    NewClaimIs(m, i, key, m.entries[i].sector, h);
    FreeAfterFirst(MetaOf(d).bits);
    assert m.bits == MetaOf(d).bits[Free(MetaOf(d).bits)[0] := true];
  }

  lemma KeptClaim(d: Sectors, e: Sectors, k: int)
    requires Bootable(d) && Bootable(e) && 0 <= k < NUM_DIR_ENTRIES && Kept(d, e, k)
    ensures Claim(MetaOf(e), k) == Claim(MetaOf(d), k)
  {
    EntriesAre(d);
    EntriesAre(e);
    hide MetaOf, DirectoryOf, Bootable;
  }

  /** Two files created and removed in the same order leave the free map as it was. */
  lemma TwoCreatedTwoRemoved(d0: Sectors, d1: Sectors, d2: Sectors, d3: Sectors, d4: Sectors,
                             i: int, j: int, k: int, l: int, c: seq<Byte>, a: seq<Byte>)
    requires Bootable(d0) && Consistent(d1) && Consistent(d2) && Consistent(d3) && Bootable(d4)
    requires NewFile(d0, d1, i, c) && NewFile(d1, d2, j, a)
    requires ReleasedNamed(d2, d3, k, c) && ReleasedNamed(d3, d4, l, a) && c != a
    ensures MetaOf(d4).bits == MetaOf(d0).bits
  {
    hide MetaOf, DirectoryOf, Bootable, MetaOk, Claim, Free, DirectBlocks;
    assert Kept(d1, d2, i) && InUse(d2, i);
    OneSlot(d2, i, k);
    assert Kept(d2, d3, j) && InUse(d3, j);
    OneSlot(d3, j, l);
    KeptClaim(d1, d2, i);
    KeptClaim(d2, d3, j);
    var b0, b4 := MetaOf(d0).bits, MetaOf(d4).bits;
    hide Kept, InUse;
    forall s | 0 <= s < NUM_SECTORS ensures b4[s] == b0[s] {
    }
  }

  lemma FirstByteOf(h: Inode, d: Sectors)
    requires Formatted(d) && DirectFile(h) && Length(h) == 128
    ensures |DirectBlocks(h)| == 1 && 0 <= DirectBlocks(h)[0] < NUM_SECTORS
    ensures FileBytes(h, d)[0] == d[DirectBlocks(h)[0]][0]
  {
    BlocksOfLength(h);
  }

  /** The first byte of a file of one sector. */
  lemma FirstByte(d: Sectors, files: Files, i: int)
    requires Represents(d, files) && InUse(d, i) && |files[DirectoryOf(d)[i].name]| == 128
    ensures |DirectBlocks(MetaOf(d).headers[i])| == 1 && BytesIn(MetaOf(d).headers[i], 0) == 128
    ensures var s := DirectBlocks(MetaOf(d).headers[i])[0];
      0 <= s < NUM_SECTORS && files[DirectoryOf(d)[i].name][0] == d[s][0]
  {
    hide MetaOf, DirectoryOf, Bootable, MetaOk, Represents, DirectFile, DirectBlocks, FileBytes;
    RepresentsConsistent(d, files);
    ListedBytes(d, files, i);
    BlocksOfLength(MetaOf(d).headers[i]);
    FirstByteOf(MetaOf(d).headers[i], d);
  }
  /** c, empty, and a were created, a has its header in sector s, and both were removed. */
  ghost predicate Vacated(d0: Sectors, d4: Sectors, s: int) {
    && Bootable(d0) && Bootable(d4) && MetaOf(d4).bits == MetaOf(d0).bits
    && |Free(MetaOf(d0).bits)| > 0 && s == At(Free(MetaOf(d0).bits), 1)
  }

  lemma BothVacated(d0: Sectors, d1: Sectors, d2: Sectors, d3: Sectors, d4: Sectors,
                    filesC: Files, c: seq<Byte>, a: seq<Byte>, j: int)
    requires Bootable(d0) && Represents(d1, filesC) && Consistent(d2) && Consistent(d3) && Bootable(d4)
    requires c != a && c in filesC && filesC[c] == [] && |Free(MetaOf(d0).bits)| > 0
    requires exists i :: NewFile(d0, d1, i, c)
    requires exists i :: NewFile(d1, d2, i, a)
    requires exists i :: ReleasedNamed(d2, d3, i, c)
    requires exists i :: ReleasedNamed(d3, d4, i, a)
    requires InUse(d2, j) && DirectoryOf(d2)[j].name == a
    ensures Vacated(d0, d4, DirectoryOf(d2)[j].sector)
  {
    hide MetaOf, DirectoryOf, Bootable, MetaOk, Free, Released, Represents, Claim, DirectBlocks, Kept;
    RepresentsConsistent(d1, filesC);
    var i1 :| NewFile(d0, d1, i1, c);
    var i2 :| NewFile(d1, d2, i2, a);
    var i3 :| ReleasedNamed(d2, d3, i3, c);
    var i4 :| ReleasedNamed(d3, d4, i4, a);
    TwoCreatedTwoRemoved(d0, d1, d2, d3, d4, i1, i2, i3, i4, c, a);
    EmptyCreated(d0, d1, filesC, i1, c);
    OneSlot(d2, j, i2);
  }

  lemma DataNotSystem(m: Meta, i: int, k: nat)
    requires MetaOk(m) && 0 <= i < NUM_DIR_ENTRIES && m.entries[i].inUse && k < |DirectBlocks(m.headers[i])|
    ensures DirectBlocks(m.headers[i])[k] !in SystemClaim(m)
  {
    assert Claim(m, i) !! Claim(m, NUM_DIR_ENTRIES);
    assert DirectBlocks(m.headers[i])[k] in Claim(m, i);
  }

  /** A file of one sector where it was before its bytes were written. */
  lemma WrittenOver(d: Sectors, e: Sectors, now: Files, k: int, key: seq<Byte>)
    requires Bootable(d) && Represents(e, now) && MetaOf(e) == MetaOf(d) && InUse(d, k)
    requires DirectoryOf(d)[k].name == key && key in now && |now[key]| == 128
    ensures InUse(e, k) && |DirectBlocks(MetaOf(d).headers[k])| == 1
    ensures BytesIn(MetaOf(d).headers[k], 0) == 128
    ensures var s := DirectBlocks(MetaOf(d).headers[k])[0];
      0 <= s < NUM_SECTORS && s !in SystemClaim(MetaOf(d)) && e[s][0] == now[key][0]
  {
    hide MetaOf, DirectoryOf, Bootable, MetaOk, Represents, DirectBlocks, BytesIn, SystemClaim;
    RepresentsConsistent(e, now);
    EntriesAre(d);
    EntriesAre(e);
    FirstByte(e, now, k);
    DataNotSystem(MetaOf(e), k, 0);
  }

  lemma RoomToCreate(m: Meta, key: seq<Byte>, size: int)
    requires Shape(m) && CreateAnswer(m, key, size) == Created
    ensures |Free(m.bits)| > 0
  {
  }

  method OpenAndRemove(fs: FileSystem, a: seq<Byte>, c: seq<Byte>, attributes: seq<Byte>, ghost files: Files)
    returns (file: OpenFile)
    requires fs.Valid() && Represents(fs.disk.sectors, files) && |files| + 2 <= NUM_DIR_ENTRIES
    requires CString(a) && CString(c) && |attributes| == ATTRIBUTE_BYTES
    requires Key(a) !in files && Key(c) !in files && Key(a) != Key(c)
    modifies fs.disk
    ensures fs.Valid() && Represents(fs.disk.sectors, files)
    ensures fresh(file) && fresh(file.hdr) && fresh(file.hdr.dataSectors) && file.hdr.Valid()
    ensures Vacated(old(fs.disk.sectors), fs.disk.sectors, file.headerSector)
  {
    hide Represents, MetaOf, DirectoryOf, Bootable, Consistent, Free, Key, Flat, CString, NewFile, ReleasedNamed,
      CreateAnswer, CreateReply, InUse, Decode, Vacated;
    ghost var d0 := fs.disk.sectors;
    AnswerIsReply(d0, files, Key(c), 0);
    var r, content := fs.Create(c, 0, attributes, files);
    RoomToCreate(MetaOf(d0), Key(c), 0);
    ghost var d1, filesC := fs.disk.sectors, files[Key(c) := content];
    AnswerIsReply(d1, filesC, Key(a), 0);
    r, content := fs.Create(a, 0, attributes, filesC);
    ghost var d2, filesA := fs.disk.sectors, filesC[Key(a) := content];
    var f, j := fs.Open(a, filesA);
    file := f;
    var ok := fs.Remove(c, filesA);
    ghost var d3 := fs.disk.sectors;
    ok := fs.Remove(a, filesA - {Key(c)});
    assert filesA - {Key(c)} - {Key(a)} == files;
    BothVacated(d0, d1, d2, d3, fs.disk.sectors, filesC, Key(c), Key(a), j);
  }

  /** A new file has its data from the second free sector on. */
  lemma DataOnHeader(d: Sectors, e: Sectors, s: int, b: seq<Byte>) returns (k: int)
    requires Bootable(d) && Bootable(e) && s == At(Free(MetaOf(d).bits), 1)
    requires exists i :: NewFile(d, e, i, b)
    ensures InUse(e, k) && DirectoryOf(e)[k].name == b
    ensures |DirectBlocks(MetaOf(e).headers[k])| > 0 ==> DirectBlocks(MetaOf(e).headers[k])[0] == s
  {
    k :| NewFile(d, e, k, b);
  }

  lemma FirstByteWritten(files: Files, key: seq<Byte>, data: seq<Byte>)
    requires key in files && |files[key]| == 128 && |data| == 1
    ensures var now := Overwritten(files, key, 0, data, 1);
      key in now && now - {key} == files - {key} && |now[key]| == 128 && now[key][0] == data[0]
  {
    OverwrittenIs(files, key, 0, data);
  }

  /** Two empty files c and a are created, a is opened, and both are removed; the new file b has its header where c had
      it and its data where a had its header. b is written, and then a is closed. Before that the disk stands for the
      files there should be, and afterwards it does not. */
  method CloseOntoData(fs: FileSystem, a: seq<Byte>, b: seq<Byte>, c: seq<Byte>,
                       attributes: seq<Byte>, ghost files: Files)
    returns (ghost between: Sectors, ghost now: Files)
    requires fs.Valid() && Represents(fs.disk.sectors, files) && |files| + 2 <= NUM_DIR_ENTRIES
    requires CString(a) && CString(b) && CString(c) && |attributes| == ATTRIBUTE_BYTES
    requires Key(a) !in files && Key(b) !in files && Key(c) !in files && Key(a) != Key(c)
    modifies fs.disk
    ensures Key(b) in now && now - {Key(b)} == files && |now[Key(b)]| == 128
    ensures Represents(between, now) && !Represents(fs.disk.sectors, now)
  {
    hide Represents, MetaOf, DirectoryOf, Bootable, Consistent, Free, Key, Flat, CString, SystemClaim, NewFile,
      ReleasedNamed, CreateAnswer, CreateReply, InUse, Decode, HeaderWritten, Harmless, DirectBlocks, BytesIn,
      OthersKept, Transferred, Encode, SectorsFor, Patch, Overwritten, MetaOk;
    var file := OpenAndRemove(fs, a, c, attributes, files);
    ghost var d := fs.disk.sectors;
    AnswerIsReply(d, files, Key(b), 128);
    var r, content := fs.Create(b, 128, attributes, files);
    ghost var e, filesB := fs.disk.sectors, files[Key(b) := content];
    ghost var k := DataOnHeader(d, e, file.headerSector, Key(b));
    var image := Encode(file.hdr.numBytes, file.hdr.numSectors, file.hdr.dataSectors[..], attributes);
    var from := new Byte[1](_ => if image[0] == 0 then 1 else 0);
    var _ := fs.WriteNamed(b, from, 1, 0, filesB);
    between, now := fs.disk.sectors, Overwritten(filesB, Key(b), 0, from[..], 1);
    FirstByteWritten(filesB, Key(b), from[..]);
    WrittenOver(e, between, now, k, Key(b));
    fs.Close(file, attributes, now);
    StaleCloseOverwrites(between, fs.disk.sectors, now, file.headerSector, image, k, 0, 0);
  }
}
