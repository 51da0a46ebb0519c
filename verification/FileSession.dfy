/** Programs that open files, read and write through the open files, and close them again, next to operations by name.
    As long as nobody uses an open file that was closed, or whose name was removed, the disk behaves as named byte
    strings and positions in them. */
module FileSessions {
  import opened Words
  import opened SectorStore
  import opened FileHeaders
  import opened OpenFiles
  import opened Directories
  import opened FileSystemSpec
  import opened FileSystemPlans
  import opened FileSystems
  import opened FileSystemRuns
  import opened FileCloses

  // ---------------------------------------------------------------------------
  // What a program sees

  /** An open file: the name it was opened under and the position, while it may be used. */
  datatype Handle = Live(key: seq<Byte>, position: nat) | Unusable

  datatype Call =
    | ByName(op: Operation)
    | Open(name: seq<Byte>)
    | Read(h: nat, numBytes: int)
    | Write(h: nat, data: seq<Byte>)
    | Seek(h: nat, position: nat)
    | Close(h: nat, attributes: seq<Byte>)

  datatype Answer = Named(reply: Reply) | Opened(ok: bool) | Bytes(bytes: seq<Byte>) | Wrote(count: nat) | Done

  datatype Desk = Desk(files: Files, handles: seq<Handle>)

  ghost predicate LegalCall(c: Call) {
    match c
    case ByName(op) => Wellformed(op)
    case Open(name) => CString(name)
    case Close(_, attributes) => |attributes| == ATTRIBUTE_BYTES
    case _ => true
  }

  /** The call does not use a file that is closed or gone. */
  predicate Orderly(handles: seq<Handle>, c: Call) {
    c.ByName? || c.Open? || (c.h < |handles| && handles[c.h].Live?)
  }

  /** Whoever had the file open cannot use it any more. */
  function Revoked(handles: seq<Handle>, key: seq<Byte>): (r: seq<Handle>)
    ensures |r| == |handles|
  {
    seq(|handles|, i requires 0 <= i < |handles| =>
      if handles[i].Live? && handles[i].key == key then Unusable else handles[i])
  }

  ghost predicate Move(s: Desk, c: Call, a: Answer, t: Desk)
    requires Orderly(s.handles, c)
  {
    match c
    case ByName(op) =>
      && a.Named? && Effect(s.files, op, a.reply, t.files)
      && t.handles == if op.DoRemove? then Revoked(s.handles, Key(op.name)) else s.handles
    case Open(name) =>
      && a == Opened(Key(name) in s.files)
      && t == if Key(name) in s.files then s.(handles := s.handles + [Live(Key(name), 0)]) else s
    case Read(h, numBytes) =>
      var key, position := s.handles[h].key, s.handles[h].position;
      && key in s.files
      && a.Bytes? && ReadFrom(s.files[key], position, numBytes, a.bytes)
      && t == s.(handles := Advanced(s.handles, h, |a.bytes|))
    case Write(h, data) =>
      var key, position := s.handles[h].key, s.handles[h].position;
      && key in s.files && key in t.files
      && a.Wrote? && Transferred(|s.files[key]|, |data|, position, a.count)
      && t.files == s.files[key := t.files[key]] && LaidOver(s.files[key], t.files[key], position, data)
      && t.handles == Advanced(s.handles, h, a.count)
    case Seek(h, position) => a == Done && t == s.(handles := s.handles[h := s.handles[h].(position := position)])
    case Close(h, _) => a == Done && t == s.(handles := s.handles[h := Unusable])
  }

  function Advanced(handles: seq<Handle>, h: nat, n: nat): seq<Handle>
    requires h < |handles| && handles[h].Live?
  {
    handles[h := Live(handles[h].key, handles[h].position + n)]
  }

  // ---------------------------------------------------------------------------
  // How it lies on the disk

  ghost predicate ListedAt(m: Meta, i: int, key: seq<Byte>, sector: int, h: Inode) {
    && Shape(m) && 0 <= i < NUM_DIR_ENTRIES
    && m.entries[i] == DirEntry(true, sector, key) && m.headers[i] == h
  }

  /** The directory lists this name with this header in this sector. */
  ghost predicate Listed(m: Meta, key: seq<Byte>, sector: int, h: Inode) {
    exists i :: ListedAt(m, i, key, sector, h)
  }

  lemma ListedSlot(d: Sectors, i: int, key: seq<Byte>, sector: int, h: Inode)
    requires Bootable(d)
    ensures ListedAt(MetaOf(d), i, key, sector, h) <==>
      InUse(d, i) && DirectoryOf(d)[i] == DirEntry(true, sector, key) && MetaOf(d).headers[i] == h
  {
    EntriesAre(d);
    hide MetaOf, DirectoryOf, Bootable;
  }

  lemma StillListed(d: Sectors, e: Sectors, gone: set<seq<Byte>>, key: seq<Byte>, sector: int, h: Inode)
    requires Bootable(d) && Bootable(e) && OthersKept(d, e, gone)
    requires Listed(MetaOf(d), key, sector, h) && key !in gone
    ensures Listed(MetaOf(e), key, sector, h)
  {
    hide MetaOf, DirectoryOf, Bootable, ListedAt;
    var i :| ListedAt(MetaOf(d), i, key, sector, h);
    ListedSlot(d, i, key, sector, h);
    assert Kept(d, e, i);
    ListedSlot(e, i, key, sector, h);
  }

  /** An open file on a disk with these sectors, seen as a handle. */
  ghost predicate IsHandle(f: OpenFile, disk: SynchDisk, m: Meta, hd: Handle)
    reads f, f.hdr, f.hdr.dataSectors
  {
    hd.Live? ==>
      && f.disk == disk && f.hdr.Valid() && !f.hdr.indirect && f.seekPosition == hd.position
      && Listed(m, hd.key, f.headerSector, f.hdr.View())
  }

  /** What a live handle gives access to. */
  lemma ThroughHandle(d: Sectors, files: Files, hd: Handle, sector: int, h: Inode) returns (i: nat)
    requires Represents(d, files) && hd.Live? && Listed(MetaOf(d), hd.key, sector, h)
    ensures InUse(d, i) && DirectoryOf(d)[i] == DirEntry(true, sector, hd.key) && MetaOf(d).headers[i] == h
    ensures Formatted(d) && WellFormed(false, h, d) && DirectFile(h) && hd.key in files
    ensures Flat(false, h, d) == files[hd.key] && FileBytes(h, d) == files[hd.key]
    ensures 0 <= sector < NUM_SECTORS && sector !in SystemClaim(MetaOf(d))
  {
    hide MetaOf, DirectoryOf, Bootable, Represents, ListedAt, WellFormed, DirectFile, Flat, FileBytes, SystemClaim,
      MetaOk;
    RepresentsConsistent(d, files);
    var slot :| ListedAt(MetaOf(d), slot, hd.key, sector, h);
    ListedSlot(d, slot, hd.key, sector, h);
    i := slot;
    ListedBytes(d, files, i);
    FileOpened(d, files, i);
    FileBytesIsFlat(h, d);
    HeaderNotSystem(d, i);
  }

  /** Closing a file that is listed changes neither files nor headers. */
  lemma ClosedCleanly(d: Sectors, e: Sectors, files: Files, s: int, image: seq<Byte>, i: nat)
    requires Represents(d, files) && HeaderWritten(d, e, s, image) && s !in SystemClaim(MetaOf(d))
    requires InUse(d, i) && DirectoryOf(d)[i].sector == s && MetaOf(d).headers[i] == Decode(image)
    ensures Represents(e, files) && Bootable(e) && MetaOf(e) == MetaOf(d)
  {
    hide MetaOf, DirectoryOf, Bootable, Represents, SystemClaim, MetaOk, HeaderWritten, Decode;
    RepresentsConsistent(d, files);
    CloseIsSafe(d, e, files, s, image);
    OnlyHeader(d, e, s, image, i);
    assert MetaOf(d).headers[i := MetaOf(d).headers[i]] == MetaOf(d).headers;
  }

  lemma OpenedIsListed(d: Sectors, i: int, key: seq<Byte>, sector: int, h: Inode)
    requires Bootable(d) && InUse(d, i) && DirectoryOf(d)[i].name == key && DirectoryOf(d)[i].sector == sector
    requires MetaOf(d).headers[i] == h
    ensures Listed(MetaOf(d), key, sector, h)
  {
    ListedSlot(d, i, key, sector, h);
    hide MetaOf, DirectoryOf, Bootable, ListedAt;
    assert ListedAt(MetaOf(d), i, key, sector, h);
  }

  method ReadThrough(fs: FileSystem, f: OpenFile, numBytes: int, ghost hd: Handle, ghost files: Files)
    returns (bytes: seq<Byte>)
    requires fs.Valid() && Represents(fs.disk.sectors, files)
    requires hd.Live? && IsHandle(f, fs.disk, MetaOf(fs.disk.sectors), hd)
    modifies f
    ensures hd.key in files && ReadFrom(files[hd.key], hd.position, numBytes, bytes)
    ensures f.seekPosition == hd.position + |bytes|
  {
    hide Represents, Bootable, MetaOf, MetaOk, DirectoryOf, Listed, Key, WellFormed, DirectFile, Flat, FileBytes,
      SystemClaim, InUse, Decode;
    ghost var i := ThroughHandle(fs.disk.sectors, files, hd, f.headerSector, f.hdr.View());
    assert f.Valid();
    var into := new Byte[if numBytes > 0 then numBytes else 0];
    var count := f.Read(into, numBytes);
    bytes := into[..count];
  }

  method WriteThrough(fs: FileSystem, f: OpenFile, data: seq<Byte>, ghost hd: Handle, ghost files: Files)
    returns (count: nat)
    requires fs.Valid() && Represents(fs.disk.sectors, files)
    requires hd.Live? && IsHandle(f, fs.disk, MetaOf(fs.disk.sectors), hd)
    modifies f, fs.disk
    ensures fs.Valid() && MetaOf(fs.disk.sectors) == old(MetaOf(fs.disk.sectors))
    ensures Represents(fs.disk.sectors, Overwritten(files, hd.key, hd.position, data, |data|))
    ensures hd.key in files && Transferred(|files[hd.key]|, |data|, hd.position, count)
    ensures f.seekPosition == hd.position + count
  {
    hide Represents, Bootable, MetaOf, MetaOk, DirectoryOf, Listed, Key, WellFormed, DirectFile, Flat, FileBytes,
      SystemClaim, Blocks, InUse, Overwritten, WrittenTo, Decode;
    ghost var d, inode := fs.disk.sectors, f.hdr.View();
    ghost var i := ThroughHandle(d, files, hd, f.headerSector, inode);
    assert f.Valid();
    var from := new Byte[|data|](k requires 0 <= k < |data| => data[k]);
    assert from[..] == data;
    count := f.Write(from, |data|);
    DirectWritten(d, fs.disk.sectors, i);
    FileBytesIsFlat(inode, fs.disk.sectors);
    assert from[..count] == data[..count];
    WrittenThrough(d, fs.disk.sectors, files, i, hd.position, data, count);
    RepresentsConsistent(fs.disk.sectors, Overwritten(files, hd.key, hd.position, data, |data|));
  }

  class Session {
    const fs: FileSystem
    var open: seq<OpenFile>
    var handles: seq<Handle>
    ghost var files: Files

    ghost function Headers(): set<object>
      reads this, open
    {
      (set f | f in open :: f.hdr as object) + (set f | f in open :: f.hdr.dataSectors as object)
    }

    ghost predicate Valid()
      reads this, open, Headers(), fs, fs.disk, fs.freeMapFile, fs.freeMapFile.hdr, fs.freeMapFile.hdr.dataSectors,
            fs.directoryFile, fs.directoryFile.hdr, fs.directoryFile.hdr.dataSectors
    {
      && fs.Valid() && Represents(fs.disk.sectors, files)
      && |open| == |handles|
      && (forall i, j :: 0 <= i < j < |open| ==> open[i] != open[j])
      && (forall i :: 0 <= i < |open| ==> IsHandle(open[i], fs.disk, MetaOf(fs.disk.sectors), handles[i]))
    }

    ghost function View(): Desk
      reads this
    {
      Desk(files, handles)
    }

    constructor (fs: FileSystem, ghost files: Files)
      requires fs.Valid() && Represents(fs.disk.sectors, files)
      ensures Valid() && this.fs == fs && View() == Desk(files, []) && open == []
    {
      this.fs := fs;
      this.files := files;
      open, handles := [], [];
    }

    method DoByName(op: Operation) returns (a: Answer)
      requires Valid() && Wellformed(op)
      modifies this, fs.disk
      ensures Valid() && open == old(open) && Move(old(View()), ByName(op), a, View())
    {
      hide Represents, Bootable, MetaOf, MetaOk, OthersKept, Effect, Listed, Wellformed;
      ghost var d := fs.disk.sectors;
      var reply;
      ghost var files';
      reply, files' := Apply(fs, op, files);
      a, files := Named(reply), files';
      if op.DoRemove? {
        handles := Revoked(handles, Key(op.name));
      }
      forall i | 0 <= i < |open| ensures IsHandle(open[i], fs.disk, MetaOf(fs.disk.sectors), handles[i]) {
        if handles[i].Live? {
          var f := open[i];
          StillListed(d, fs.disk.sectors, if op.DoRemove? then {Key(op.name)} else {}, handles[i].key,
                      f.headerSector, f.hdr.View());
        }
      }
    }

    method DoOpen(name: seq<Byte>) returns (a: Answer)
      requires Valid() && CString(name)
      modifies this
      ensures Valid() && Move(old(View()), Open(name), a, View())
      ensures forall f :: f in open && f !in old(open) ==> fresh(f) && fresh(f.hdr) && fresh(f.hdr.dataSectors)
    {
      hide Represents, Bootable, MetaOf, MetaOk, DirectoryOf, Listed, CString, Key;
      var file, i := fs.Open(name, files);
      a := Opened(file != null);
      if file != null {
        OpenedIsListed(fs.disk.sectors, i, Key(name), file.headerSector, file.hdr.View());
        open, handles := open + [file], handles + [Live(Key(name), 0)];
      }
    }

    method DoRead(h: nat, numBytes: int) returns (a: Answer)
      requires Valid() && h < |handles| && handles[h].Live?
      modifies this, open[h]
      ensures Valid() && open == old(open) && Move(old(View()), Read(h, numBytes), a, View())
    {
      hide Represents, Bootable, MetaOf, MetaOk, Listed;
      var bytes := ReadThrough(fs, open[h], numBytes, handles[h], files);
      a := Bytes(bytes);
      handles := Advanced(handles, h, |bytes|);
    }

    method DoWrite(h: nat, data: seq<Byte>) returns (a: Answer)
      requires Valid() && h < |handles| && handles[h].Live?
      modifies this, open[h], fs.disk
      ensures Valid() && open == old(open) && Move(old(View()), Write(h, data), a, View())
    {
      hide Represents, Bootable, MetaOf, MetaOk, Listed, Overwritten;
      ghost var hd := handles[h];
      var count := WriteThrough(fs, open[h], data, hd, files);
      OverwrittenIs(files, hd.key, hd.position, data);
      files := Overwritten(files, hd.key, hd.position, data, |data|);
      a := Wrote(count);
      handles := Advanced(handles, h, count);
    }

    method DoSeek(h: nat, position: nat) returns (a: Answer)
      requires Valid() && h < |handles| && handles[h].Live?
      modifies this, open[h]
      ensures Valid() && open == old(open) && Move(old(View()), Seek(h, position), a, View())
    {
      hide Represents, Bootable, MetaOf, MetaOk, Listed;
      open[h].Seek(position);
      handles := handles[h := handles[h].(position := position)];
      a := Done;
    }

    method DoClose(h: nat, attributes: seq<Byte>) returns (a: Answer)
      requires Valid() && h < |handles| && handles[h].Live? && |attributes| == ATTRIBUTE_BYTES
      modifies this, fs.disk
      ensures Valid() && open == old(open) && Move(old(View()), Close(h, attributes), a, View())
    {
      hide Represents, Bootable, MetaOf, MetaOk, DirectoryOf, Listed, WellFormed, DirectFile, Flat, FileBytes,
        SystemClaim, Decode, Harmless, HeaderWritten;
      var f := open[h];
      ghost var d := fs.disk.sectors;
      ghost var i := ThroughHandle(d, files, handles[h], f.headerSector, f.hdr.View());
      fs.Close(f, attributes, files);
      ClosedCleanly(d, fs.disk.sectors, files, f.headerSector, f.hdr.Image(attributes), i);
      handles := handles[h := Unusable];
      a := Done;
    }
  }

  method Perform(session: Session, c: Call) returns (a: Answer)
    requires session.Valid() && LegalCall(c) && Orderly(session.handles, c)
    modifies session, session.open, session.fs.disk
    ensures session.Valid() && Move(old(session.View()), c, a, session.View())
    ensures forall f :: f in session.open && f !in old(session.open) ==> fresh(f)
  {
    hide Move, Wellformed, CString, Session.Valid;
    match c
    case ByName(op) => a := session.DoByName(op);
    case Open(name) => a := session.DoOpen(name);
    case Read(h, numBytes) => OpenAt(session, h); a := session.DoRead(h, numBytes);
    case Write(h, data) => OpenAt(session, h); a := session.DoWrite(h, data);
    case Seek(h, position) => OpenAt(session, h); a := session.DoSeek(h, position);
    case Close(h, attributes) => a := session.DoClose(h, attributes);
  }

  lemma StandsFor(session: Session)
    requires session.Valid()
    ensures Represents(session.fs.disk.sectors, session.files)
  {
  }

  lemma OpenAt(session: Session, h: nat)
    requires session.Valid() && h < |session.handles|
    ensures |session.open| == |session.handles| && session.open[h] in session.open
  {
  }

  // ---------------------------------------------------------------------------
  // Runs

  /** The answers are right and lead from desk to desk. */
  ghost predicate Story(calls: seq<Call>, answers: seq<Answer>, desks: seq<Desk>) {
    && |answers| == |calls| && |desks| == |calls| + 1
    && forall k :: 0 <= k < |calls| ==>
         Orderly(desks[k].handles, calls[k]) && Move(desks[k], calls[k], answers[k], desks[k + 1])
  }

  lemma StoryGoesOn(calls: seq<Call>, answers: seq<Answer>, desks: seq<Desk>, c: Call, a: Answer, next: Desk)
    requires Story(calls, answers, desks)
    requires Orderly(desks[|calls|].handles, c) && Move(desks[|calls|], c, a, next)
    ensures Story(calls + [c], answers + [a], desks + [next])
  {
    hide Move, Orderly;
  }

  /** Formatting and then any sequence of calls, up to the first that uses a file that is closed or gone: all answers
      are those of named byte strings with positions, and the disk stands for what the calls add up to. */
  method Run(disk: SynchDisk, mapAttributes: seq<Byte>, dirAttributes: seq<Byte>, calls: seq<Call>)
    returns (session: Session, answers: seq<Answer>, ghost desks: seq<Desk>)
    requires disk.Valid() && |mapAttributes| == |dirAttributes| == ATTRIBUTE_BYTES
    requires forall k :: 0 <= k < |calls| ==> LegalCall(calls[k])
    modifies disk
    ensures session.fs.disk == disk && session.Valid() && |answers| <= |calls|
    ensures Story(calls[..|answers|], answers, desks) && desks[0] == Desk(map[], [])
    ensures session.View() == desks[|answers|] && Represents(disk.sectors, desks[|answers|].files)
    ensures |answers| < |calls| ==> !Orderly(desks[|answers|].handles, calls[|answers|])
  {
    hide Represents, Move, LegalCall, Bootable, MetaOk, MetaOf, Session.Valid;
    var fs := Format(disk, mapAttributes, dirAttributes);
    session := new Session(fs, map[]);
    answers, desks := [], [session.View()];
    var i := 0;
    while i < |calls| && Orderly(session.handles, calls[i])
      invariant i == |answers| <= |calls| && session.fs == fs && fs.disk == disk
      invariant session.Valid() && fresh(session) && forall f :: f in session.open ==> fresh(f)
      invariant Story(calls[..i], answers, desks) && desks[0] == Desk(map[], []) && desks[i] == session.View()
    {
      assert forall k :: 0 <= k < |session.open| ==> session.open[k] in session.open;
      var a := Perform(session, calls[i]);
      StoryGoesOn(calls[..i], answers, desks, calls[i], a, session.View());
      assert calls[..i + 1] == calls[..i] + [calls[i]];
      answers, desks := answers + [a], desks + [session.View()];
      i := i + 1;
    }
    StandsFor(session);
  }

  /** The call closes the handle, or removes the name it was opened under. */
  predicate Ends(c: Call, h: nat, key: seq<Byte>) {
    (c.Close? && c.h == h) || (c.ByName? && c.op.DoRemove? && Key(c.op.name) == key)
  }

  lemma HandleStep(s: Desk, c: Call, a: Answer, t: Desk, h: nat)
    requires Orderly(s.handles, c) && Move(s, c, a, t) && h < |s.handles|
    ensures h < |t.handles|
    ensures s.handles[h].Unusable? ==> t.handles[h].Unusable?
    ensures s.handles[h].Live? ==> (t.handles[h].Live? <==> !Ends(c, h, s.handles[h].key))
    ensures s.handles[h].Live? && t.handles[h].Live? ==> t.handles[h].key == s.handles[h].key
  {
    hide Effect, ReadFrom, LaidOver, Transferred, Key;
  }

  /** An open file can be used under its name until it is closed or its name is removed, and no longer. */
  lemma {:induction false} UsableUntilEnded(calls: seq<Call>, answers: seq<Answer>, desks: seq<Desk>, h: nat,
                                            j: nat, k: nat)
    requires Story(calls, answers, desks) && j <= k <= |calls|
    requires h < |desks[j].handles| && desks[j].handles[h].Live?
    ensures h < |desks[k].handles|
    ensures desks[k].handles[h].Live? <==>
      forall i :: j <= i < k ==> !Ends(calls[i], h, desks[j].handles[h].key)
    ensures desks[k].handles[h].Live? ==> desks[k].handles[h].key == desks[j].handles[h].key
  {
    hide Move, Ends;
    if j < k {
      UsableUntilEnded(calls, answers, desks, h, j, k - 1);
      assert Move(desks[k - 1], calls[k - 1], answers[k - 1], desks[k - 1 + 1]);
      HandleStep(desks[k - 1], calls[k - 1], answers[k - 1], desks[k], h);
    }
  }

  /** The call does not change the bytes of a name. */
  predicate LeavesBytes(s: Desk, c: Call, key: seq<Byte>)
    requires Orderly(s.handles, c)
  {
    && (c.ByName? ==> Spares(c.op, key))
    && (c.Write? ==> s.handles[c.h].key != key)
  }

  lemma {:induction false} BytesLeft(calls: seq<Call>, answers: seq<Answer>, desks: seq<Desk>, key: seq<Byte>,
                                     j: nat, k: nat)
    requires Story(calls, answers, desks) && j <= k <= |calls| && key in desks[j].files
    requires forall i :: j <= i < k ==> LeavesBytes(desks[i], calls[i], key)
    ensures key in desks[k].files && desks[k].files[key] == desks[j].files[key]
  {
    if j < k {
      BytesLeft(calls, answers, desks, key, j, k - 1);
      assert LeavesBytes(desks[k - 1], calls[k - 1], key);
      assert Move(desks[k - 1], calls[k - 1], answers[k - 1], desks[k]);
    }
  }

  /** What is written through one open file is read through any other of the same name, whatever else is opened, closed
      or written in between, as long as no call touches these bytes. */
  lemma WriteThenReadElsewhere(calls: seq<Call>, answers: seq<Answer>, desks: seq<Desk>, j: nat, k: nat)
    requires Story(calls, answers, desks) && j < k < |calls| && calls[j].Write? && calls[k].Read?
    requires Orderly(desks[j].handles, calls[j]) && Orderly(desks[k].handles, calls[k])
    requires calls[k].numBytes == |calls[j].data|
    requires desks[k].handles[calls[k].h] == desks[j].handles[calls[j].h]
    requires forall i :: j < i < k ==> LeavesBytes(desks[i], calls[i], desks[j].handles[calls[j].h].key)
    ensures answers[j].Wrote? && answers[j].count <= |calls[j].data|
    ensures answers[k] == Bytes(calls[j].data[..answers[j].count])
  {
    var key, position, data := desks[j].handles[calls[j].h].key, desks[j].handles[calls[j].h].position, calls[j].data;
    assert Move(desks[j], calls[j], answers[j], desks[j + 1]) && Move(desks[k], calls[k], answers[k], desks[k + 1]);
    BytesLeft(calls, answers, desks, key, j + 1, k);
    assert answers[k].bytes == data[..answers[j].count];
  }
}
