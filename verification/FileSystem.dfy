/** filesys/filesys.cc: format, Create, Open and Remove of the default build, on a real sector store. */
module FileSystems {
  import opened Words
  import opened BitMaps
  import opened SectorStore
  import opened FileHeaders
  import opened OpenFiles
  import opened Directories
  import opened FileSystemSpec
  import opened FileSystemPlans


  /** BitMap::FetchFrom. */
  method FetchMap(freeMap: BitMap, file: OpenFile)
    requires freeMap.Valid() && freeMap.numBits == NUM_SECTORS
    requires file.Valid() && file.hdr.numBytes == FREE_MAP_BYTES
    modifies freeMap, freeMap.words
    ensures freeMap.Valid() && freeMap.bits == BitsOf(file.Contents())
  {
    assert freeMap.numWords == 32;
    hide WellFormed, Flat, Free, Binary, UWordAt, BitsOf, Packs;
    var buf := new Byte[FREE_MAP_BYTES];
    var _ := file.ReadAt(buf, 0, freeMap.numWords * 4, 0);
    var bytes := buf[..];
    assert bytes == file.Contents();
    LoadedMap(WordsOf(bytes), bytes);
    freeMap.Load(WordsOf(bytes), BitsOf(bytes));
  }

  /** BitMap::WriteBack. */
  method StoreMap(freeMap: BitMap, file: OpenFile)
    requires freeMap.Valid() && freeMap.numBits == NUM_SECTORS
    requires file.Valid() && file.hdr.numBytes == FREE_MAP_BYTES
    modifies file.disk
    ensures file.Valid() && file.Blocks() == old(file.Blocks())
    ensures BitsOf(file.Contents()) == freeMap.bits
    ensures forall s :: 0 <= s < NUM_SECTORS && s !in file.Blocks() ==>
      file.disk.sectors[s] == old(file.disk.sectors[s])
  {
    hide WellFormed, Flat, Free, Binary, UWordAt, BitsOf;
    var bytes := EncodeWords(freeMap.words[..]);
    var buf := new Byte[FREE_MAP_BYTES](i requires 0 <= i < FREE_MAP_BYTES => bytes[i]);
    assert buf[..] == bytes;
    StoredMap(freeMap.words[..], bytes, freeMap.bits);
    var _ := file.WriteAt(buf, freeMap.numWords * 4, 0);
    assert file.Contents() == bytes;
  }

  /** Directory::FetchFrom. */
  method FetchDirectory(directory: Directory, file: OpenFile)
    requires directory.Valid() && file.Valid() && file.hdr.numBytes == DIRECTORY_BYTES
    requires directory.table as object != file.hdr.dataSectors
    modifies directory.table
    ensures directory.table[..] == file.Contents()
  {
    hide WellFormed, Flat;
    var _ := file.ReadAt(directory.table, 0, DIRECTORY_BYTES, 0);
  }

  /** Directory::WriteBack. */
  method StoreDirectory(directory: Directory, file: OpenFile)
    requires directory.Valid() && file.Valid() && file.hdr.numBytes == DIRECTORY_BYTES
    modifies file.disk
    ensures file.Valid() && file.Blocks() == old(file.Blocks())
    ensures file.Contents() == directory.table[..]
    ensures forall s :: 0 <= s < NUM_SECTORS && s !in file.Blocks() ==>
      file.disk.sectors[s] == old(file.disk.sectors[s])
  {
    hide WellFormed, Flat;
    var _ := file.WriteAt(directory.table, DIRECTORY_BYTES, 0);
    assert file.Contents() == directory.table[..];
  }

  /** Create up to its first write. */
  method Plan(directory: Directory, freeMap: BitMap, hdr: FileHeader, disk: SynchDisk, name: seq<Byte>,
      initialSize: Int32, ghost m: Meta)
    returns (r: CreateResult, sector: int, ghost slot: int)
    requires directory.Valid() && freeMap.Valid() && freeMap.numBits == NUM_SECTORS
    requires hdr.Valid() && !hdr.indirect && disk.Valid()
    requires freeMap.words as object != hdr.dataSectors && directory.table as object != hdr.dataSectors
    requires directory.table as object != freeMap.words
    requires CString(name) && Shape(m)
    requires Entries(directory.table[..]) == m.entries && freeMap.bits == m.bits
    requires forall k :: !Named(m.entries, k, Key(name))
    modifies directory.table, freeMap, freeMap.words, hdr, hdr.dataSectors, disk
    ensures disk.sectors == old(disk.sectors) && freeMap.Valid() && hdr.Valid()
    ensures r == CreateAnswer(m, Key(name), initialSize) && r != Exists
    ensures r == Created ==> Planned(m, slot, Key(name), sector, hdr.View(), Entries(directory.table[..]), freeMap.bits)
    ensures hdr.numBytes == initialSize || r != Created
  {
    hide Free, Entries, Formatted, CString, Key, FreeFrom;
    slot := -1;
    sector := freeMap.Find();
    if sector == -1 {
      return NoHeaderSector, -1, -1;
    }
    var ok;
    ok, slot := directory.Add(name, sector);
    if !ok {
      return DirectoryFull, sector, -1;
    }
    ghost var marked := freeMap.free;
    var outcome := hdr.Allocate(freeMap, disk, initialSize);
    if outcome == Refused {
      return NoSpace, sector, slot;
    } else if outcome == Aborted {
      return TooBig, sector, slot;
    }
    PlannedFile(m.bits, sector, hdr.View(), disk.sectors, freeMap.bits);
    r := Created;
  }

  class FileSystem {
    const disk: SynchDisk
    const freeMapFile: OpenFile
    const directoryFile: OpenFile

    ghost predicate Ready()
      reads this, disk, freeMapFile, freeMapFile.hdr, freeMapFile.hdr.dataSectors,
            directoryFile, directoryFile.hdr, directoryFile.hdr.dataSectors
    {
      && freeMapFile.disk == disk && directoryFile.disk == disk
      && freeMapFile.hdr.Valid() && !freeMapFile.hdr.indirect
      && directoryFile.hdr.Valid() && !directoryFile.hdr.indirect
      && Bootable(disk.sectors)
      && freeMapFile.hdr.View() == Decode(disk.sectors[0])
      && directoryFile.hdr.View() == Decode(disk.sectors[1])
    }

    ghost predicate Valid()
      reads this, disk, freeMapFile, freeMapFile.hdr, freeMapFile.hdr.dataSectors,
            directoryFile, directoryFile.hdr, directoryFile.hdr.dataSectors
    {
      Ready() && Consistent(disk.sectors)
    }

    lemma FilesOpen()
      requires Ready()
      ensures freeMapFile.Valid() && freeMapFile.hdr.numBytes == FREE_MAP_BYTES
      ensures directoryFile.Valid() && directoryFile.hdr.numBytes == DIRECTORY_BYTES
      ensures freeMapFile.Blocks() == DirectBlocks(Decode(disk.sectors[0]))
      ensures directoryFile.Blocks() == DirectBlocks(Decode(disk.sectors[1]))
      ensures Entries(directoryFile.Contents()) == DirectoryOf(disk.sectors)
      ensures BitsOf(freeMapFile.Contents()) == MetaOf(disk.sectors).bits
    {
      var d := disk.sectors;
      FileBytesIsFlat(Decode(d[0]), d);
      FileBytesIsFlat(Decode(d[1]), d);
      DirectIsWellFormed(Decode(d[0]), d);
      DirectIsWellFormed(Decode(d[1]), d);
    }

    constructor Boot(disk: SynchDisk)
      requires disk.Valid() && Bootable(disk.sectors)
      ensures Ready() && this.disk == disk
    {
      this.disk := disk;
      freeMapFile := new OpenFile(disk, FREE_MAP_SECTOR, false);
      directoryFile := new OpenFile(disk, DIRECTORY_SECTOR, false);
    }

    /** Writes the directory and the map back, which touches nothing but their own data sectors. */
    method Flush(directory: Directory, freeMap: BitMap)
      requires Ready() && SystemFiles(MetaOf(disk.sectors))
      requires directory.Valid() && freeMap.Valid() && freeMap.numBits == NUM_SECTORS
      modifies disk
      ensures Ready() && disk.sectors[0] == old(disk.sectors[0]) && disk.sectors[1] == old(disk.sectors[1])
      ensures Updated(old(disk.sectors), disk.sectors, -1)
      ensures DirectoryOf(disk.sectors) == Entries(directory.table[..])
      ensures MetaOf(disk.sectors).bits == freeMap.bits
    {
      ghost var d := disk.sectors;
      FilesOpen();
      StoreDirectory(directory, directoryFile);
      ghost var d1 := disk.sectors;
      FlushedOne(d, d1, 1);
      FilesOpen();
      StoreMap(freeMap, freeMapFile);
      FlushedOne(d1, disk.sectors, 0);
      OtherFlushed(d1, disk.sectors);
      FilesOpen();
    }

    /** The directory in memory and the place of a name in it. */
    method LookUp(name: seq<Byte>, ghost files: Files) returns (directory: Directory, sector: int, ghost i: int)
      requires Ready() && CString(name) && Represents(disk.sectors, files)
      ensures fresh(directory) && fresh(directory.table) && directory.Valid()
      ensures Entries(directory.table[..]) == DirectoryOf(disk.sectors)
      ensures IsIndexOf(DirectoryOf(disk.sectors), Key(name), i)
      ensures sector == -1 <==> i == -1
      ensures sector == -1 <==> Key(name) !in files
      ensures i == -1 <==> forall k :: !Named(DirectoryOf(disk.sectors), k, Key(name))
      ensures i != -1 ==>
        InUse(disk.sectors, i) && sector == DirectoryOf(disk.sectors)[i].sector && 0 <= sector < NUM_SECTORS
      ensures i != -1 ==> DirectoryOf(disk.sectors)[i].name == Key(name)
    {
      FilesOpen();
      hide Flat, BitsOf, Entries, MetaOf, DirectoryOf, WellFormed, Formatted, CString, Key, Bootable, Decode,
        Represents, IsIndexOf, Named, Consistent, InUse;
      directory := new Directory();
      FetchDirectory(directory, directoryFile);
      sector, i := directory.Find(name);
      ListedByName(disk.sectors, files, Key(name), i);
    }

    /** Either nothing on the disk changes, or the new file is there, of the size asked for, and every other
        file is as it was. */
    method Create(name: seq<Byte>, initialSize: Int32, attributes: seq<Byte>, ghost files: Files)
      returns (r: CreateResult, ghost content: seq<Byte>)
      requires Valid() && CString(name) && |attributes| == ATTRIBUTE_BYTES
      requires Represents(disk.sectors, files)
      modifies disk
      ensures Valid()
      ensures r == CreateAnswer(old(MetaOf(disk.sectors)), Key(name), initialSize)
      ensures r == Exists <==> Key(name) in files
      ensures r == Created ==> exists i :: NewFile(old(disk.sectors), disk.sectors, i, Key(name))
      ensures r != Created ==> disk.sectors == old(disk.sectors)
      ensures r == Created ==> Represents(disk.sectors, files[Key(name) := content])
      ensures r == Created ==> |content| == if initialSize > 0 then initialSize else 0
    {
      var directory, found, i := LookUp(name, files);
      content := [];
      assert MetaOf(disk.sectors).entries == DirectoryOf(disk.sectors);
      if found != -1 {
        assert Named(DirectoryOf(disk.sectors), i, Key(name));
        return Exists, [];
      }
      r, content := Enter(directory, name, initialSize, attributes, files);
    }

    /** The rest of Create, for a name that is new. */
    method Enter(directory: Directory, name: seq<Byte>, initialSize: Int32, attributes: seq<Byte>, ghost files: Files)
      returns (r: CreateResult, ghost content: seq<Byte>)
      requires Valid() && CString(name) && |attributes| == ATTRIBUTE_BYTES
      requires Represents(disk.sectors, files)
      requires directory.Valid() && Entries(directory.table[..]) == DirectoryOf(disk.sectors)
      requires directory.table as object != freeMapFile.hdr.dataSectors
      requires directory.table as object != directoryFile.hdr.dataSectors
      requires forall k :: !Named(DirectoryOf(disk.sectors), k, Key(name))
      modifies disk, directory.table
      ensures Valid() && r != Exists
      ensures r == CreateAnswer(old(MetaOf(disk.sectors)), Key(name), initialSize)
      ensures r == Created ==> exists i :: NewFile(old(disk.sectors), disk.sectors, i, Key(name))
      ensures r != Created ==> disk.sectors == old(disk.sectors)
      ensures r == Created ==> Represents(disk.sectors, files[Key(name) := content])
      ensures r == Created ==> |content| == if initialSize > 0 then initialSize else 0
    {
      hide Flat, Free, BitsOf, Entries, MetaOk, MetaOf, DirectoryOf, WellFormed, Formatted, CString, Key, Bootable,
        Decode, Represents, Named, Consistent, CreateAnswer, Planned, FileBytes;
      ghost var m := MetaOf(disk.sectors);
      content := [];
      FilesOpen();
      EntriesAre(disk.sectors);
      var freeMap := new BitMap(NUM_SECTORS);
      FetchMap(freeMap, freeMapFile);
      var hdr := new FileHeader(false);
      var sector;
      ghost var slot;
      r, sector, slot := Plan(directory, freeMap, hdr, disk, name, initialSize, m);
      if r == Created {
        content := EnterPlanned(directory, freeMap, hdr, sector, attributes, slot, Key(name), files);
      }
    }

    /** Create from its first write on. */
    method EnterPlanned(directory: Directory, freeMap: BitMap, hdr: FileHeader, sector: int, attributes: seq<Byte>,
                        ghost slot: int, ghost key: seq<Byte>, ghost files: Files)
      returns (ghost content: seq<Byte>)
      requires Valid() && Represents(disk.sectors, files)
      requires directory.Valid() && freeMap.Valid() && freeMap.numBits == NUM_SECTORS
      requires hdr.Valid() && |attributes| == ATTRIBUTE_BYTES
      requires Planned(MetaOf(disk.sectors), slot, key, sector, hdr.View(), Entries(directory.table[..]), freeMap.bits)
      requires forall k :: !Named(DirectoryOf(disk.sectors), k, key)
      modifies disk
      ensures Valid() && Represents(disk.sectors, files[key := content])
      ensures NewFile(old(disk.sectors), disk.sectors, slot, key)
      ensures |content| == if hdr.numBytes > 0 then hdr.numBytes else 0
    {
      ghost var d, m, h, entries, bits := disk.sectors, MetaOf(disk.sectors), hdr.View(),
        Entries(directory.table[..]), freeMap.bits;
      PlannedParts(m, slot, key, sector, h, entries, bits);
      hide MetaOk, MetaOf, DirectoryOf, Bootable, Decode, Represents, Named, Planned, FileBytes, DirectFile, Updated,
        Entered, Free, Entries;
      Commit(directory, freeMap, hdr, sector, attributes);
      PlanEntered(d, disk.sectors, slot, key, sector, h, entries, bits);
      CreateEffect(d, disk.sectors, files, slot, key, sector, h);
      EnteredIsNew(d, disk.sectors, slot, key, sector, h);
      content := FileBytes(h, disk.sectors);
      RepresentsConsistent(disk.sectors, files[key := content]);
    }

    /** Create's three writes: the new header, the directory, the map. */
    method Commit(directory: Directory, freeMap: BitMap, hdr: FileHeader, sector: int, attributes: seq<Byte>)
      requires Valid() && directory.Valid() && freeMap.Valid() && freeMap.numBits == NUM_SECTORS
      requires hdr.Valid() && 0 <= sector < NUM_SECTORS && !MetaOf(disk.sectors).bits[sector]
      requires |attributes| == ATTRIBUTE_BYTES
      modifies disk
      ensures Ready() && disk.sectors[0] == old(disk.sectors[0]) && disk.sectors[1] == old(disk.sectors[1])
      ensures Updated(old(disk.sectors), disk.sectors, sector)
      ensures Decode(disk.sectors[sector]) == hdr.View()
      ensures DirectoryOf(disk.sectors) == Entries(directory.table[..])
      ensures MetaOf(disk.sectors).bits == freeMap.bits
    {
      hide Free, Entries, MetaOk, MetaOf, DirectoryOf, FileBytes, BitsOf, SystemFiles, SystemClaim, DirectFile,
        DirectBlocks, Decode;
      ghost var d := disk.sectors;
      ClearNotSystem(d, sector);
      hdr.WriteBack(disk, sector, attributes);
      assert forall s :: 0 <= s < NUM_SECTORS && s != sector ==> disk.sectors[s] == d[s];
      StillBootable(d, disk.sectors, sector);
      Flush(directory, freeMap);
    }

    /** The result is whether there was such a file; a file that is there is gone afterwards, with its sectors. */
    method Remove(name: seq<Byte>, ghost files: Files) returns (ok: bool)
      requires Valid() && CString(name) && Represents(disk.sectors, files)
      modifies disk
      ensures Valid()
      ensures ok <==> Key(name) in files
      ensures !ok ==> disk.sectors == old(disk.sectors)
      ensures ok ==> exists i :: ReleasedNamed(old(disk.sectors), disk.sectors, i, Key(name))
      ensures Represents(disk.sectors, files - {Key(name)})
    {
      hide Flat, BitsOf, Entries, MetaOk, MetaOf, DirectoryOf, WellFormed, Formatted, CString, Key, Bootable, Decode,
        Represents, Named, IsIndexOf, Consistent, Free, Released, InUse;
      var directory, sector, i := LookUp(name, files);
      if sector == -1 {
        assert files - {Key(name)} == files;
        return false;
      }
      FilesOpen();
      var freeMap := new BitMap(NUM_SECTORS);
      FetchMap(freeMap, freeMapFile);
      ghost var d := disk.sectors;
      Reclaim(freeMap, sector, i);
      var _, j := directory.Remove(name);
      SameIndex(DirectoryOf(disk.sectors), Key(name), i, j);
      FlushDropped(directory, freeMap, i, files);
      assert ReleasedNamed(d, disk.sectors, i, Key(name));
      return true;
    }

    /** Gives the sectors of listed file i back to a map that still has them. */
    method Reclaim(freeMap: BitMap, sector: int, ghost i: int)
      requires Valid() && freeMap.Valid() && freeMap.numBits == NUM_SECTORS && freeMap.bits == MetaOf(disk.sectors).bits
      requires InUse(disk.sectors, i) && sector == DirectoryOf(disk.sectors)[i].sector
      modifies freeMap, freeMap.words
      ensures freeMap.Valid()
      ensures Released(freeMap.bits, MetaOf(disk.sectors), i)
    {
      ghost var d, m := disk.sectors, MetaOf(disk.sectors);
      ListedHeader(d, i);
      ListedIsMarked(d, i);
      hide Flat, BitsOf, Entries, MetaOk, MetaOf, DirectoryOf, WellFormed, Formatted, Bootable, Decode, Free,
        ListedFile, Released, Cleared, Releasable, Blocks, IndexSectors, Owned, Visited, VisitedIndex;
      var fileHdr := new FileHeader(false);
      fileHdr.FetchFrom(disk, sector);
      VisitedIsOwned(false, fileHdr.View(), d, NoWord);
      var _ := fileHdr.Deallocate(freeMap, disk, NoWord);
      ReleasedFile(m, d, i, freeMap.bits);
      freeMap.Clear(sector);
    }

    method FlushDropped(directory: Directory, freeMap: BitMap, ghost i: int, ghost files: Files)
      requires Valid() && Represents(disk.sectors, files) && InUse(disk.sectors, i)
      requires directory.Valid() && freeMap.Valid() && freeMap.numBits == NUM_SECTORS
      requires Entries(directory.table[..]) ==
        DirectoryOf(disk.sectors)[i := DirectoryOf(disk.sectors)[i].(inUse := false)]
      requires Released(freeMap.bits, MetaOf(disk.sectors), i)
      modifies disk
      ensures Valid() && Represents(disk.sectors, files - {old(DirectoryOf(disk.sectors))[i].name})
      ensures ReleasedNamed(old(disk.sectors), disk.sectors, i, old(DirectoryOf(disk.sectors))[i].name)
    {
      ghost var d, bits := disk.sectors, freeMap.bits;
      SystemFilesOn(d);
      hide MetaOf, DirectoryOf, Bootable, Decode, Updated, Free, Entries, MetaOk, Represents, SystemFiles, Released,
        Dropped, InUse;
      Flush(directory, freeMap);
      ReleasedDropped(d, disk.sectors, i, Entries(directory.table[..]), bits);
      RemoveEffect(d, disk.sectors, files, i);
      DroppedIsReleased(d, disk.sectors, i);
      RepresentsConsistent(disk.sectors, files - {DirectoryOf(d)[i].name});
    }

    /** The file of that name, positioned at its start; null when there is none. */
    method Open(name: seq<Byte>, ghost files: Files) returns (file: OpenFile?, ghost i: int)
      requires Valid() && CString(name) && Represents(disk.sectors, files)
      ensures file == null <==> Key(name) !in files
      ensures file != null ==>
        fresh(file) && fresh(file.hdr) && fresh(file.hdr.dataSectors) && file.disk == disk && file.Valid()
      ensures file != null ==> file.seekPosition == 0 && file.Contents() == files[Key(name)]
      ensures file != null ==> InUse(disk.sectors, i) && DirectoryOf(disk.sectors)[i].name == Key(name)
      ensures file != null ==> file.hdr.View() == MetaOf(disk.sectors).headers[i] && !file.hdr.indirect
      ensures file != null ==> file.headerSector == DirectoryOf(disk.sectors)[i].sector
    {
      hide Flat, BitsOf, Entries, MetaOk, MetaOf, DirectoryOf, WellFormed, CString, Key, Decode, Represents, Named,
        IsIndexOf;
      var directory, sector;
      directory, sector, i := LookUp(name, files);
      file := null;
      if sector >= 0 {
        ListedHeader(disk.sectors, i);
        FileOpened(disk.sectors, files, i);
        file := new OpenFile(disk, sector, false);
      }
    }

    /** A read through a file opened by name. */
    method ReadNamed(name: seq<Byte>, numBytes: int, position: nat, ghost files: Files) returns (bytes: seq<Byte>)
      requires Valid() && CString(name) && Represents(disk.sectors, files)
      ensures bytes == ReadOut(files, Key(name), position, numBytes)
    {
      hide Flat, MetaOf, DirectoryOf, WellFormed, CString, Key, Represents, Consistent, Bootable, Decode;
      var file, i := Open(name, files);
      if file == null {
        return [];
      }
      var into := new Byte[if numBytes > 0 then numBytes else 0];
      var count := file.ReadAt(into, 0, numBytes, position);
      assert |files[Key(name)]| == Length(file.hdr.View()) by { assert file.Contents() == files[Key(name)]; }
      bytes := into[..count];
    }

    /** A write through a file opened by name: those bytes of that file change and nothing else. */
    method WriteNamed(name: seq<Byte>, from: array<Byte>, numBytes: int, position: nat, ghost files: Files)
      returns (count: nat)
      requires Valid() && CString(name) && Represents(disk.sectors, files) && numBytes <= from.Length
      modifies disk
      ensures Valid()
      ensures count == if Key(name) in files then Count(|files[Key(name)]|, numBytes, position) else 0
      ensures Represents(disk.sectors, Overwritten(files, Key(name), position, from[..], numBytes))
      ensures MetaOf(disk.sectors) == old(MetaOf(disk.sectors))
    {
      hide Flat, BitsOf, Entries, MetaOk, MetaOf, DirectoryOf, WellFormed, CString, Key, Decode, Represents,
        DirectFile, Blocks;
      var file, i := Open(name, files);
      if file == null {
        return 0;
      }
      ghost var d, h := disk.sectors, file.hdr.View();
      ListedIsDirect(d, i);
      FileBytesIsFlat(h, d);
      count := file.WriteAt(from, numBytes, position);
      DirectWritten(d, disk.sectors, i);
      FileBytesIsFlat(h, disk.sectors);
      ghost var data := if numBytes > 0 then from[..numBytes] else [];
      assert count > 0 ==> from[..count] == data[..count];
      WrittenThrough(d, disk.sectors, files, i, position, data, count);
      assert count > 0 ==> data[..count] == from[..][..count];
      RepresentsConsistent(disk.sectors, Overwritten(files, Key(name), position, from[..], numBytes));
    }

    /** The destructor of a file opened earlier: its header goes back to the sector it came from. Whether the files
        stay as they are is decided by who uses that sector by now, and by what is written. */
    method Close(file: OpenFile, attributes: seq<Byte>, ghost files: Files)
      requires Valid() && Represents(disk.sectors, files) && file.hdr.Valid() && |attributes| == ATTRIBUTE_BYTES
      requires 0 <= file.headerSector < NUM_SECTORS && file.headerSector !in SystemClaim(MetaOf(disk.sectors))
      modifies disk
      ensures HeaderWritten(old(disk.sectors), disk.sectors, file.headerSector, file.hdr.Image(attributes))
      ensures Represents(disk.sectors, files) <==>
        old(Harmless(disk.sectors, file.headerSector, file.hdr.Image(attributes)))
      ensures Ready() && (Represents(disk.sectors, files) ==> Valid())
    {
      hide MetaOf, Represents, Harmless, Decode, SystemClaim, DirectFile;
      ghost var d, s, image := disk.sectors, file.headerSector, file.hdr.Image(attributes);
      file.hdr.WriteBack(disk, file.headerSector, attributes);
      CloseExact(d, disk.sectors, files, s, image);
      SystemUntouched(d, disk.sectors, s, image);
      if Represents(disk.sectors, files) { RepresentsConsistent(disk.sectors, files); }
    }
  }

  /** The empty map, with the two well-known sectors and the two system files taken out of it. */
  method LayOutSystem(freeMap: BitMap, mapHdr: FileHeader, dirHdr: FileHeader, disk: SynchDisk) returns (ok: bool)
    requires freeMap.Valid() && freeMap.numBits == NUM_SECTORS
    requires forall s :: 0 <= s < NUM_SECTORS ==> !freeMap.bits[s]
    requires mapHdr.Valid() && !mapHdr.indirect && dirHdr.Valid() && !dirHdr.indirect
    requires mapHdr != dirHdr && disk.Valid()
    requires mapHdr.dataSectors != dirHdr.dataSectors
    requires freeMap.words as object != mapHdr.dataSectors && freeMap.words as object != dirHdr.dataSectors
    modifies freeMap, freeMap.words, mapHdr, mapHdr.dataSectors, dirHdr, dirHdr.dataSectors, disk
    ensures disk.sectors == old(disk.sectors) && freeMap.Valid() && mapHdr.Valid() && dirHdr.Valid()
    ensures ok && FreshSystem(mapHdr.View(), dirHdr.View(), freeMap.bits)
  {
    freeMap.Mark(FREE_MAP_SECTOR);
    freeMap.Mark(DIRECTORY_SECTOR);
    ghost var bits := freeMap.bits;
    FreshFree(bits);
    hide Free, FreeFrom, Formatted, LaidOut, FreshSystem, Untouched;
    var first := mapHdr.Allocate(freeMap, disk, FREE_MAP_BYTES);
    ghost var free1, d := freeMap.free, disk.sectors;
    var second := dirHdr.Allocate(freeMap, disk, DIRECTORY_BYTES);
    FreshLayout(bits, mapHdr.View(), dirHdr.View(), d, free1, freeMap.bits);
    ok := first == Granted && second == Granted;
  }

  /** Formats a disk, whatever it held: a consistent file system without files. */
  method Format(disk: SynchDisk, mapAttributes: seq<Byte>, dirAttributes: seq<Byte>) returns (fs: FileSystem)
    requires disk.Valid() && |mapAttributes| == |dirAttributes| == ATTRIBUTE_BYTES
    modifies disk
    ensures fs.disk == disk && fs.Valid()
    ensures Represents(disk.sectors, map[])
  {
    var freeMap := new BitMap(NUM_SECTORS);
    var directory := new Directory();
    var mapHdr := new FileHeader(false);
    var dirHdr := new FileHeader(false);
    var ok := LayOutSystem(freeMap, mapHdr, dirHdr, disk);
    hide Free, FreeFrom, LaidOut, Entries, BitsOf, FileBytes, FreshSystem, Represents, Decode;
    mapHdr.WriteBack(disk, FREE_MAP_SECTOR, mapAttributes);
    dirHdr.WriteBack(disk, DIRECTORY_SECTOR, dirAttributes);
    FreshBoots(disk.sectors, freeMap.bits);
    fs := new FileSystem.Boot(disk);
    fs.Flush(directory, freeMap);
    EmptyDisk(disk.sectors);
    RepresentsConsistent(disk.sectors, map[]);
  }
}
