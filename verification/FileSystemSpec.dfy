/** What a disk of the default build (no INDIRECT_MAP, one directory) means: which file owns which sector,
    and which bytes each name stands for. */
module FileSystemSpec {
  import opened Collections
  import opened Words
  import opened BitMaps
  import opened SectorStore
  import opened FileHeaders
  import opened OpenFiles
  import opened Directories

  /** The abstract state: names and the bytes they stand for. */
  type Files = map<seq<Byte>, seq<Byte>>

  const FREE_MAP_SECTOR := 0
  const DIRECTORY_SECTOR := 1
  const FREE_MAP_BYTES := 128

  // ---------------------------------------------------------------------------
  // Direct files

  /** A header of the default build whose blocks have sectors of their own. */
  ghost predicate DirectFile(h: Inode) {
    && |h.dataSectors| == NUM_DATA_SECTORS
    && h.numSectors == SectorsFor(h.numBytes)
    && 0 <= h.numSectors <= NUM_DATA_SECTORS
    && OnDisk(h.dataSectors[..h.numSectors]) && NoDup(h.dataSectors[..h.numSectors])
  }

  ghost function DirectBlocks(h: Inode): seq<int> {
    if 0 <= h.numSectors <= |h.dataSectors| then h.dataSectors[..h.numSectors] else []
  }

  /** Without an index, well-formedness and the sector map are matters of the header alone. */
  lemma DirectIsWellFormed(h: Inode, d: Sectors)
    ensures WellFormed(false, h, d) <==> DirectFile(h)
    ensures DirectFile(h) ==> Blocks(false, h, d) == DirectBlocks(h)
  {
    if |h.dataSectors| == NUM_DATA_SECTORS && 0 <= h.numSectors <= NUM_DATA_SECTORS {
      assert Blocks(false, h, d) == h.dataSectors[..h.numSectors];
    }
  }

  // ---------------------------------------------------------------------------
  // Ownership

  /** Everything the disk says about itself: headers[i] is the header of directory entry i. */
  datatype Meta = Meta(mapHdr: Inode, dirHdr: Inode, entries: seq<DirEntry>, headers: seq<Inode>, bits: seq<bool>)

  ghost function SystemClaim(m: Meta): set<int> {
    {FREE_MAP_SECTOR, DIRECTORY_SECTOR} + Elements(DirectBlocks(m.mapHdr)) + Elements(DirectBlocks(m.dirHdr))
  }

  /** The sectors of entry i's file: its header and its data. Number 10 is the system itself. */
  ghost function Claim(m: Meta, i: int): set<int> {
    if i == NUM_DIR_ENTRIES then SystemClaim(m)
    else if 0 <= i < |m.entries| && i < |m.headers| && m.entries[i].inUse
    then {m.entries[i].sector} + Elements(DirectBlocks(m.headers[i]))
    else {}
  }

  ghost predicate Shape(m: Meta) {
    && |m.entries| == NUM_DIR_ENTRIES && |m.headers| == NUM_DIR_ENTRIES && |m.bits| == NUM_SECTORS
  }

  ghost predicate SystemFiles(m: Meta) {
    && DirectFile(m.mapHdr) && m.mapHdr.numBytes == FREE_MAP_BYTES
    && DirectFile(m.dirHdr) && m.dirHdr.numBytes == DIRECTORY_BYTES
    && 0 !in DirectBlocks(m.mapHdr) && 1 !in DirectBlocks(m.mapHdr)
    && 0 !in DirectBlocks(m.dirHdr) && 1 !in DirectBlocks(m.dirHdr)
    && Apart(DirectBlocks(m.mapHdr), DirectBlocks(m.dirHdr))
  }

  ghost predicate ListedFile(m: Meta, i: int)
    requires Shape(m) && 0 <= i < NUM_DIR_ENTRIES
  {
    m.entries[i].inUse ==>
      && 0 <= m.entries[i].sector < NUM_SECTORS
      && DirectFile(m.headers[i])
      && m.entries[i].sector !in DirectBlocks(m.headers[i])
  }

  ghost predicate Disjoint(m: Meta) {
    forall i, j :: 0 <= i < j <= NUM_DIR_ENTRIES ==> Claim(m, i) !! Claim(m, j)
  }

  ghost predicate NamesDiffer(entries: seq<DirEntry>) {
    forall i, j :: 0 <= i < j < |entries| && entries[i].inUse && entries[j].inUse ==> entries[i].name != entries[j].name
  }

  ghost predicate Claimed(m: Meta, s: int) {
    exists i :: 0 <= i <= NUM_DIR_ENTRIES && s in Claim(m, i)
  }

  /** The free map marks exactly the claimed sectors. */
  ghost predicate MapExact(m: Meta) {
    forall s :: 0 <= s < |m.bits| ==> (m.bits[s] <==> Claimed(m, s))
  }

  /** Sector ownership is a disjoint union, and the free map is that union. */
  ghost predicate MetaOk(m: Meta) {
    && Shape(m) && SystemFiles(m)
    && (forall i :: 0 <= i < NUM_DIR_ENTRIES ==> ListedFile(m, i))
    && Disjoint(m) && NamesDiffer(m.entries) && MapExact(m)
  }

  const NO_INODE := Inode(0, 0, [])

  /** m with file (sector, h) entered under key in slot i and bits as the new map. */
  ghost function WithFile(m: Meta, i: nat, key: seq<Byte>, sector: int, h: Inode, bits: seq<bool>): Meta
    requires Shape(m) && i < NUM_DIR_ENTRIES
  {
    m.(entries := m.entries[i := DirEntry(true, sector, key)], headers := m.headers[i := h], bits := bits)
  }

  ghost function WithoutFile(m: Meta, i: nat, bits: seq<bool>): Meta
    requires Shape(m) && i < NUM_DIR_ENTRIES
  {
    m.(entries := m.entries[i := m.entries[i].(inUse := false)], headers := m.headers[i := NO_INODE], bits := bits)
  }

  lemma ClaimsElsewhere(m: Meta, n: Meta, i: nat, k: int)
    requires Shape(m) && Shape(n) && i < NUM_DIR_ENTRIES && k != i && 0 <= k <= NUM_DIR_ENTRIES
    requires n.mapHdr == m.mapHdr && n.dirHdr == m.dirHdr
    requires forall j :: 0 <= j < NUM_DIR_ENTRIES && j != i ==>
      n.entries[j] == m.entries[j] && n.headers[j] == m.headers[j]
    ensures Claim(n, k) == Claim(m, k)
  {
  }

  /** Entering a file whose sectors were clear keeps ownership disjoint and the map exact. */
  lemma AddKeepsMeta(m: Meta, i: nat, key: seq<Byte>, sector: int, h: Inode, bits: seq<bool>)
    requires MetaOk(m) && i < NUM_DIR_ENTRIES && !m.entries[i].inUse
    requires forall k :: !Named(m.entries, k, key)
    requires 0 <= sector < NUM_SECTORS && DirectFile(h) && sector !in DirectBlocks(h)
    requires !m.bits[sector] && forall k :: 0 <= k < |DirectBlocks(h)| ==> !m.bits[DirectBlocks(h)[k]]
    requires |bits| == NUM_SECTORS
    requires forall s :: 0 <= s < NUM_SECTORS ==> (bits[s] <==> m.bits[s] || s == sector || s in DirectBlocks(h))
    ensures MetaOk(WithFile(m, i, key, sector, h, bits))
  {
    var n := WithFile(m, i, key, sector, h, bits);
    forall k | 0 <= k < NUM_DIR_ENTRIES ensures ListedFile(n, k) { assert ListedFile(m, k); }
    forall k | 0 <= k <= NUM_DIR_ENTRIES && k != i ensures Claim(n, k) == Claim(m, k) && Claim(n, k) !! Claim(n, i) {
      ClaimsElsewhere(m, n, i, k);
      forall s | s in Claim(m, k) ensures s !in Claim(n, i) {
        if 0 <= s < NUM_SECTORS { assert Claimed(m, s); }
      }
    }
    forall s | 0 <= s < NUM_SECTORS ensures bits[s] <==> Claimed(n, s) {
      if Claimed(m, s) {
        var k :| 0 <= k <= NUM_DIR_ENTRIES && s in Claim(m, k);
        assert s in Claim(n, k);
      }
      if s in Claim(n, i) { assert Claimed(n, s); }
      if Claimed(n, s) {
        var k :| 0 <= k <= NUM_DIR_ENTRIES && s in Claim(n, k);
        assert k != i ==> s in Claim(m, k);
      }
    }
    forall k | 0 <= k < NUM_DIR_ENTRIES && k != i && n.entries[k].inUse ensures n.entries[k].name != key {
      assert !Named(m.entries, k, key);
    }
  }

  /** Dropping a file and releasing its sectors does too. */
  lemma DropKeepsMeta(m: Meta, i: nat, bits: seq<bool>)
    requires MetaOk(m) && i < NUM_DIR_ENTRIES && m.entries[i].inUse
    requires |bits| == NUM_SECTORS
    requires forall s :: 0 <= s < NUM_SECTORS ==> (bits[s] <==> m.bits[s] && s !in Claim(m, i))
    ensures MetaOk(WithoutFile(m, i, bits))
  {
    var n := WithoutFile(m, i, bits);
    forall k | 0 <= k < NUM_DIR_ENTRIES ensures ListedFile(n, k) { assert ListedFile(m, k); }
    forall k | 0 <= k <= NUM_DIR_ENTRIES && k != i ensures Claim(n, k) == Claim(m, k) && Claim(n, k) !! Claim(m, i) {
      ClaimsElsewhere(m, n, i, k);
      assert k < i ==> Claim(m, k) !! Claim(m, i);
      assert i < k ==> Claim(m, i) !! Claim(m, k);
    }
    forall s | 0 <= s < NUM_SECTORS ensures bits[s] <==> Claimed(n, s) {
      if Claimed(n, s) {
        var k :| 0 <= k <= NUM_DIR_ENTRIES && s in Claim(n, k);
        assert k != i && s in Claim(m, k);
      }
      if bits[s] {
        var k :| 0 <= k <= NUM_DIR_ENTRIES && s in Claim(m, k);
        assert k != i && s in Claim(n, k);
      }
    }
  }

  // ---------------------------------------------------------------------------
  // Reading all this off a disk

  /** The two well-known headers describe files of the right sizes. */
  ghost predicate Bootable(d: Sectors) {
    && Formatted(d)
    && DirectFile(Decode(d[0])) && Decode(d[0]).numBytes == FREE_MAP_BYTES
    && DirectFile(Decode(d[1])) && Decode(d[1]).numBytes == DIRECTORY_BYTES
  }

  /** The bytes of a file of the default build. */
  ghost function FileBytes(h: Inode, d: Sectors): (bytes: seq<Byte>)
    requires Formatted(d) && DirectFile(h)
    ensures |bytes| == Length(h)
  {
    FlatBytes(d, DirectBlocks(h), Length(h))
  }

  lemma FileBytesIsFlat(h: Inode, d: Sectors)
    requires Formatted(d) && DirectFile(h)
    ensures WellFormed(false, h, d) && Flat(false, h, d) == FileBytes(h, d)
  {
    DirectIsWellFormed(h, d);
  }

  function WordsOf(bytes: seq<Byte>): (ws: seq<Word>)
    requires |bytes| == FREE_MAP_BYTES
    ensures |ws| == 32
  {
    seq(32, k requires 0 <= k < 32 => UWordAt(bytes, k))
  }

  /** The free map stored in its file. */
  ghost function BitsOf(bytes: seq<Byte>): (bits: seq<bool>)
    requires |bytes| == FREE_MAP_BYTES
    ensures |bits| == NUM_SECTORS
  {
    seq(NUM_SECTORS, s requires 0 <= s < NUM_SECTORS => PackedBit(WordsOf(bytes), s))
  }

  ghost function HeaderOf(d: Sectors, e: DirEntry): Inode
    requires Formatted(d)
  {
    if e.inUse && 0 <= e.sector < NUM_SECTORS then Decode(d[e.sector]) else NO_INODE
  }

  ghost function DirectoryOf(d: Sectors): (entries: seq<DirEntry>)
    requires Bootable(d)
    ensures |entries| == NUM_DIR_ENTRIES
  {
    Entries(FileBytes(Decode(d[1]), d))
  }

  ghost function MetaOf(d: Sectors): (m: Meta)
    requires Bootable(d)
    ensures Shape(m)
  {
    var entries := DirectoryOf(d);
    Meta(Decode(d[0]), Decode(d[1]), entries,
         seq(NUM_DIR_ENTRIES, i requires 0 <= i < NUM_DIR_ENTRIES => HeaderOf(d, entries[i])),
         BitsOf(FileBytes(Decode(d[0]), d)))
  }

  /** The invariant of the file system: the bitmap read back from its own file is the disjoint union of
      sectors 0 and 1, the data sectors of the bitmap and the directory, and every listed file's sectors. */
  ghost predicate Consistent(d: Sectors) {
    Bootable(d) && MetaOk(MetaOf(d))
  }

  ghost predicate InUse(d: Sectors, i: int)
    requires Bootable(d)
  {
    0 <= i < NUM_DIR_ENTRIES && DirectoryOf(d)[i].inUse
  }

  ghost function FileAt(d: Sectors, i: int): seq<Byte>
    requires Consistent(d) && InUse(d, i)
  {
    assert ListedFile(MetaOf(d), i);
    FileBytes(MetaOf(d).headers[i], d)
  }

  /** The disk stands for these files. */
  ghost predicate Represents(d: Sectors, files: Files) {
    && Consistent(d)
    && (forall i :: InUse(d, i) ==> DirectoryOf(d)[i].name in files && files[DirectoryOf(d)[i].name] == FileAt(d, i))
    && (forall name :: name in files ==> exists i :: InUse(d, i) && DirectoryOf(d)[i].name == name)
  }

  /** A consistent disk represents one set of files. */
  lemma RepresentsUnique(d: Sectors, f: Files, g: Files)
    requires Represents(d, f) && Represents(d, g)
    ensures f == g
  {
    hide MetaOk, MetaOf, DirectoryOf, FileAt;
    forall name | name in f ensures name in g && g[name] == f[name] {
      var i :| InUse(d, i) && DirectoryOf(d)[i].name == name;
    }
    forall name | name in g ensures name in f {
      var i :| InUse(d, i) && DirectoryOf(d)[i].name == name;
    }
  }

  // ---------------------------------------------------------------------------
  // Frames

  /** d and e differ at most in the given sector and in the data of the bitmap and the directory. */
  ghost predicate Updated(d: Sectors, e: Sectors, sector: int)
    requires Bootable(d)
  {
    && Formatted(e)
    && forall s :: 0 <= s < NUM_SECTORS && s != sector
                   && s !in DirectBlocks(Decode(d[0])) && s !in DirectBlocks(Decode(d[1])) ==>
         d[s] == e[s]
  }

  /** Header and bytes of a file none of whose sectors is touched. */
  lemma FileElsewhere(d: Sectors, e: Sectors, sector: int, i: nat)
    requires Consistent(d) && Updated(d, e, sector) && InUse(d, i)
    requires sector !in Claim(MetaOf(d), i)
    ensures 0 <= DirectoryOf(d)[i].sector < NUM_SECTORS
    ensures HeaderOf(e, DirectoryOf(d)[i]) == MetaOf(d).headers[i]
    ensures DirectFile(MetaOf(d).headers[i]) && FileBytes(MetaOf(d).headers[i], e) == FileAt(d, i)
  {
    var m := MetaOf(d);
    var h := m.headers[i];
    assert ListedFile(m, i);
    assert Claim(m, i) !! Claim(m, NUM_DIR_ENTRIES);
    assert m.entries[i].sector in Claim(m, i);
    var blocks := DirectBlocks(h);
    forall p | 0 <= p < Length(h) ensures ByteAt(e, blocks, p) == ByteAt(d, blocks, p) {
      assert blocks[p / 128] in Claim(m, i);
    }
  }

  /** The two system headers survive a write to a sector that was clear. */
  lemma StillBootable(d: Sectors, e: Sectors, sector: int)
    requires Consistent(d) && Updated(d, e, sector) && sector !in SystemClaim(MetaOf(d))
    ensures Bootable(e) && e[0] == d[0] && e[1] == d[1] && SystemFiles(MetaOf(e))
  {
    assert 0 in SystemClaim(MetaOf(d)) && 1 in SystemClaim(MetaOf(d));
    assert SystemFiles(MetaOf(d));
  }

  lemma ClearIsUnclaimed(d: Sectors, s: int, i: int)
    requires Consistent(d) && 0 <= s < NUM_SECTORS && !MetaOf(d).bits[s] && 0 <= i <= NUM_DIR_ENTRIES
    ensures s !in Claim(MetaOf(d), i)
  {
    assert MapExact(MetaOf(d));
  }

  lemma ClearNotSystem(d: Sectors, s: int)
    requires Consistent(d) && 0 <= s < NUM_SECTORS && !MetaOf(d).bits[s]
    ensures s !in SystemClaim(MetaOf(d)) && s !in DirectBlocks(Decode(d[0])) && s !in DirectBlocks(Decode(d[1]))
  {
    hide BitsOf, Entries, FileBytes, MetaOk, DirectBlocks, Decode;
    ClearIsUnclaimed(d, s, NUM_DIR_ENTRIES);
  }

  /** e lists the same file as d in slot k, or nothing where d lists nothing. */
  ghost predicate SlotKept(d: Sectors, e: Sectors, k: nat)
    requires Consistent(d) && Bootable(e) && k < NUM_DIR_ENTRIES
  {
    && DirectoryOf(e)[k] == DirectoryOf(d)[k]
    && MetaOf(e).headers[k] == MetaOf(d).headers[k]
    && (InUse(d, k) ==> DirectFile(MetaOf(e).headers[k]) && FileBytes(MetaOf(e).headers[k], e) == FileAt(d, k))
  }

  lemma SlotElsewhere(d: Sectors, e: Sectors, sector: int, k: nat)
    requires Consistent(d) && Updated(d, e, sector) && Bootable(e) && k < NUM_DIR_ENTRIES
    requires DirectoryOf(e)[k] == DirectoryOf(d)[k]
    requires InUse(d, k) ==> sector !in Claim(MetaOf(d), k)
    ensures SlotKept(d, e, k)
  {
    if InUse(d, k) { FileElsewhere(d, e, sector, k); }
  }

  /** What Create leaves on the disk when it succeeds, seen from the directory, the map and the new header. */
  ghost predicate Entered(d: Sectors, e: Sectors, i: nat, key: seq<Byte>, sector: int, h: Inode)
    requires Consistent(d)
  {
    && i < NUM_DIR_ENTRIES && !InUse(d, i) && (forall k :: !Named(DirectoryOf(d), k, key))
    && 0 <= sector < NUM_SECTORS && DirectFile(h) && sector !in DirectBlocks(h)
    && !MetaOf(d).bits[sector] && (forall k :: 0 <= k < |DirectBlocks(h)| ==> !MetaOf(d).bits[DirectBlocks(h)[k]])
    && Updated(d, e, sector)
    && Bootable(e) && e[0] == d[0] && e[1] == d[1] && Decode(e[sector]) == h
    && DirectoryOf(e) == DirectoryOf(d)[i := DirEntry(true, sector, key)]
    && forall s :: 0 <= s < NUM_SECTORS ==>
      (MetaOf(e).bits[s] <==> MetaOf(d).bits[s] || s == sector || s in DirectBlocks(h))
  }

  lemma EnteredMeta(d: Sectors, e: Sectors, i: nat, key: seq<Byte>, sector: int, h: Inode)
    requires Consistent(d) && Entered(d, e, i, key, sector, h)
    ensures Consistent(e)
    ensures forall k :: 0 <= k < NUM_DIR_ENTRIES && k != i ==> SlotKept(d, e, k)
    ensures MetaOf(e).headers[i] == h
  {
    hide Entries, BitsOf, FileBytes, Decode, DirectFile, DirectBlocks, MetaOk, Claim, Updated;
    var m, n := MetaOf(d), MetaOf(e);
    forall k | 0 <= k < NUM_DIR_ENTRIES && k != i ensures SlotKept(d, e, k) && n.headers[k] == m.headers[k] {
      ClearIsUnclaimed(d, sector, k);
      SlotElsewhere(d, e, sector, k);
    }
    assert n.headers == m.headers[i := h];
    assert n == WithFile(m, i, key, sector, h, n.bits);
    AddKeepsMeta(m, i, key, sector, h, n.bits);
  }

  /** After Create's writes the new file is listed and every other file is as it was. */
  lemma CreateEffect(d: Sectors, e: Sectors, files: Files,
                     i: nat, key: seq<Byte>, sector: int, h: Inode)
    requires Represents(d, files) && Entered(d, e, i, key, sector, h)
    ensures key !in files
    ensures Represents(e, files[key := FileBytes(h, e)])
  {
    hide MetaOk, MetaOf, DirectoryOf, FileBytes, DirectFile, DirectBlocks, Updated, Decode, SlotKept;
    EnteredMeta(d, e, i, key, sector, h);
    var gs := files[key := FileBytes(h, e)];
    forall k | InUse(e, k) ensures DirectoryOf(e)[k].name in gs && gs[DirectoryOf(e)[k].name] == FileAt(e, k) {
      if k != i {
        KeptFile(d, e, k);
        assert !Named(DirectoryOf(d), k, key);
      }
    }
    forall name | name in gs ensures exists k :: InUse(e, k) && DirectoryOf(e)[k].name == name {
      if name == key {
        assert InUse(e, i);
      } else {
        var k :| InUse(d, k) && DirectoryOf(d)[k].name == name;
        KeptFile(d, e, k);
      }
    }
    if key in files {
      assert forall k :: !Named(DirectoryOf(d), k, key);
      var k :| InUse(d, k) && DirectoryOf(d)[k].name == key;
      NamedBySlot(d, k);
    }
  }

  lemma NamedBySlot(d: Sectors, k: nat)
    requires Bootable(d) && InUse(d, k)
    ensures Named(DirectoryOf(d), k, DirectoryOf(d)[k].name)
  {
  }

  lemma KeptFile(d: Sectors, e: Sectors, k: nat)
    requires Consistent(d) && Consistent(e) && k < NUM_DIR_ENTRIES && SlotKept(d, e, k)
    ensures InUse(e, k) <==> InUse(d, k)
    ensures InUse(e, k) ==> FileAt(e, k) == FileAt(d, k) && DirectoryOf(e)[k].name == DirectoryOf(d)[k].name
  {
  }

  /** What Remove leaves on the disk. */
  ghost predicate Dropped(d: Sectors, e: Sectors, i: nat)
    requires Consistent(d)
  {
    && InUse(d, i)
    && Updated(d, e, -1)
    && Bootable(e) && e[0] == d[0] && e[1] == d[1]
    && DirectoryOf(e) == DirectoryOf(d)[i := DirectoryOf(d)[i].(inUse := false)]
    && forall s :: 0 <= s < NUM_SECTORS ==> (MetaOf(e).bits[s] <==> MetaOf(d).bits[s] && s !in Claim(MetaOf(d), i))
  }

  lemma NoSectorMinusOne(d: Sectors, k: nat)
    requires Consistent(d) && InUse(d, k)
    ensures -1 !in Claim(MetaOf(d), k)
  {
    hide Entries, BitsOf, FileBytes, Decode;
    assert ListedFile(MetaOf(d), k);
  }

  lemma DroppedMeta(d: Sectors, e: Sectors, i: nat)
    requires Consistent(d) && Dropped(d, e, i)
    ensures Consistent(e)
    ensures forall k :: 0 <= k < NUM_DIR_ENTRIES && k != i ==> SlotKept(d, e, k)
  {
    hide Entries, BitsOf, FileBytes, Decode, DirectFile, DirectBlocks, MetaOk, Claim, Updated;
    var m, n := MetaOf(d), MetaOf(e);
    forall k | 0 <= k < NUM_DIR_ENTRIES && k != i ensures SlotKept(d, e, k) && n.headers[k] == m.headers[k] {
      if InUse(d, k) { NoSectorMinusOne(d, k); }
      SlotElsewhere(d, e, -1, k);
    }
    assert n.headers == m.headers[i := NO_INODE];
    assert n == WithoutFile(m, i, n.bits);
    DropKeepsMeta(m, i, n.bits);
  }

  lemma NamesDifferOn(d: Sectors)
    requires Consistent(d)
    ensures NamesDiffer(DirectoryOf(d))
  {
  }

  /** After Remove's writes the name is gone and every other file is as it was. */
  lemma RemoveEffect(d: Sectors, e: Sectors, files: Files, i: nat)
    requires Represents(d, files) && Dropped(d, e, i)
    ensures DirectoryOf(d)[i].name in files
    ensures Represents(e, files - {DirectoryOf(d)[i].name})
  {
    hide MetaOk, MetaOf, DirectoryOf, FileBytes, DirectFile, DirectBlocks, Updated, Decode, SlotKept, Claim, FileAt;
    DroppedMeta(d, e, i);
    NamesDifferOn(d);
    var key := DirectoryOf(d)[i].name;
    var gs := files - {key};
    forall k | InUse(e, k) ensures DirectoryOf(e)[k].name in gs && gs[DirectoryOf(e)[k].name] == FileAt(e, k) {
      KeptFile(d, e, k);
      assert InUse(d, k) && DirectoryOf(d)[k].name != key;
    }
    forall name | name in gs ensures exists k :: InUse(e, k) && DirectoryOf(e)[k].name == name {
      var k :| InUse(d, k) && DirectoryOf(d)[k].name == name;
      KeptFile(d, e, k);
    }
  }

  /** What a write through an open file of slot i leaves: only that file's data sectors changed. */
  ghost predicate WrittenTo(d: Sectors, e: Sectors, i: nat)
    requires Consistent(d)
  {
    && InUse(d, i) && Formatted(e)
    && forall s :: 0 <= s < NUM_SECTORS && s !in DirectBlocks(MetaOf(d).headers[i]) ==> d[s] == e[s]
  }

  /** Files other than the written one, and all headers, are where they were. */
  lemma WrittenBytes(d: Sectors, e: Sectors, i: nat, h: Inode, k: int)
    requires Consistent(d) && WrittenTo(d, e, i) && DirectFile(h)
    requires 0 <= k <= NUM_DIR_ENTRIES && k != i && Elements(DirectBlocks(h)) <= Claim(MetaOf(d), k)
    ensures FileBytes(h, e) == FileBytes(h, d)
  {
    var m := MetaOf(d);
    var blocks := DirectBlocks(h);
    assert Claim(m, i) !! Claim(m, k) by { assert Disjoint(m); }
    forall p | 0 <= p < Length(h) ensures ByteAt(e, blocks, p) == ByteAt(d, blocks, p) {
      assert blocks[p / 128] in Claim(m, k);
      assert blocks[p / 128] !in Claim(m, i);
    }
  }

  lemma WrittenHeaders(d: Sectors, e: Sectors, i: nat)
    requires Consistent(d) && WrittenTo(d, e, i)
    ensures e[0] == d[0] && e[1] == d[1]
    ensures forall k :: InUse(d, k) ==> HeaderOf(e, DirectoryOf(d)[k]) == MetaOf(d).headers[k]
  {
    hide Entries, BitsOf, FileBytes, Decode;
    var m := MetaOf(d);
    assert Claim(m, i) !! Claim(m, NUM_DIR_ENTRIES) by { assert Disjoint(m); }
    assert 0 in Claim(m, NUM_DIR_ENTRIES) && 1 in Claim(m, NUM_DIR_ENTRIES);
    forall k | InUse(d, k) ensures HeaderOf(e, DirectoryOf(d)[k]) == m.headers[k] {
      assert ListedFile(m, k) && ListedFile(m, i);
      if k != i {
        assert Claim(m, k) !! Claim(m, i) by { assert Disjoint(m); }
        assert m.entries[k].sector in Claim(m, k);
      }
    }
  }

  lemma WrittenMeta(d: Sectors, e: Sectors, i: nat)
    requires Consistent(d) && WrittenTo(d, e, i)
    ensures Bootable(e) && MetaOf(e) == MetaOf(d)
  {
    WrittenHeaders(d, e, i);
    SystemBytesKept(d, e, i);
    hide Entries, BitsOf, FileBytes, Decode, DirectBlocks, MetaOk, Claim;
    assert DirectoryOf(e) == DirectoryOf(d);
    forall k | 0 <= k < NUM_DIR_ENTRIES ensures MetaOf(e).headers[k] == MetaOf(d).headers[k] {
      assert InUse(d, k) || MetaOf(d).headers[k] == NO_INODE;
    }
    assert MetaOf(e).headers == MetaOf(d).headers;
  }

  lemma SystemBytesKept(d: Sectors, e: Sectors, i: nat)
    requires Consistent(d) && WrittenTo(d, e, i)
    ensures FileBytes(Decode(d[0]), e) == FileBytes(Decode(d[0]), d)
    ensures FileBytes(Decode(d[1]), e) == FileBytes(Decode(d[1]), d)
  {
    WrittenBytes(d, e, i, Decode(d[0]), NUM_DIR_ENTRIES);
    WrittenBytes(d, e, i, Decode(d[1]), NUM_DIR_ENTRIES);
  }

  lemma OtherFileKept(d: Sectors, e: Sectors, i: nat, k: nat)
    requires Consistent(d) && WrittenTo(d, e, i) && Consistent(e) && MetaOf(e) == MetaOf(d)
    requires InUse(d, k) && k != i
    ensures InUse(e, k) && FileAt(e, k) == FileAt(d, k)
  {
    assert ListedFile(MetaOf(d), k);
    WrittenBytes(d, e, i, MetaOf(d).headers[k], k);
  }

  /** Writing a file through its blocks changes that name's bytes and nothing else. */
  lemma WriteEffect(d: Sectors, e: Sectors, files: Files, i: nat)
    requires Represents(d, files) && WrittenTo(d, e, i)
    ensures DirectFile(MetaOf(d).headers[i]) && DirectoryOf(d)[i].name in files
    ensures Represents(e, files[DirectoryOf(d)[i].name := FileBytes(MetaOf(d).headers[i], e)])
  {
    hide Entries, BitsOf, FileBytes, Decode, DirectFile, DirectBlocks, Claim, MetaOk, Bootable;
    WrittenMeta(d, e, i);
    assert DirectoryOf(d) == MetaOf(d).entries && DirectoryOf(e) == MetaOf(e).entries;
    ListedIsDirect(d, i);
    NamesDifferOn(d);
    assert FileAt(e, i) == FileBytes(MetaOf(d).headers[i], e);
    hide MetaOf, DirectoryOf, FileAt, WrittenTo;
    var key := DirectoryOf(d)[i].name;
    var gs := files[key := FileBytes(MetaOf(d).headers[i], e)];
    forall k | InUse(e, k) ensures DirectoryOf(e)[k].name in gs && gs[DirectoryOf(e)[k].name] == FileAt(e, k) {
      if k != i {
        OtherFileKept(d, e, i, k);
        assert DirectoryOf(d)[k].name != key;
      }
    }
    forall name | name in gs ensures exists k :: InUse(e, k) && DirectoryOf(e)[k].name == name {
      if name != key {
        var k :| InUse(d, k) && DirectoryOf(d)[k].name == name;
        assert InUse(e, k);
      } else {
        assert InUse(e, i);
      }
    }
  }

  lemma ListedIsDirect(d: Sectors, i: nat)
    requires Consistent(d) && InUse(d, i)
    ensures DirectFile(MetaOf(d).headers[i])
  {
    assert ListedFile(MetaOf(d), i);
  }
}
