/** Whole runs of the file system: what every operation answers and what it does to the named files. */
module FileSystemRuns {
  import opened Collections
  import opened Words
  import opened BitMaps
  import opened SectorStore
  import opened FileHeaders
  import opened OpenFiles
  import opened Directories
  import opened FileSystemSpec
  import opened FileSystemPlans
  import opened FileSystems

  // ---------------------------------------------------------------------------
  // How full the disk is, read off the named files

  ghost function Below(n: nat): (s: set<int>)
    ensures |s| == n
    ensures forall i :: i in s <==> 0 <= i < n
  {
    if n == 0 then {} else Below(n - 1) + {n - 1}
  }

  lemma {:induction false} ElementsSize(xs: seq<int>)
    requires NoDup(xs)
    ensures |Elements(xs)| == |xs|
  {
    if xs != [] {
      var n := |xs| - 1;
      ElementsSnoc(xs, n);
      assert xs[..n + 1] == xs;
      ElementsSize(xs[..n]);
    } else {
      assert Elements(xs) == {};
    }
  }

  /** Sectors a file of that length takes: its header and its blocks. */
  function Cost(length: nat): nat {
    1 + SectorsFor(length)
  }

  /** Sectors the named files take together. */
  ghost function Used(files: Files): nat
    decreases |files|
  {
    if files == map[] then 0
    else
      var name :| name in files;
      assert |files - {name}| < |files| by { assert files.Keys == (files - {name}).Keys + {name}; }
      Cost(|files[name]|) + Used(files - {name})
  }

  lemma SmallerWithout(files: Files, name: seq<Byte>)
    requires name in files
    ensures |files - {name}| == |files| - 1
  {
    assert files.Keys == (files - {name}).Keys + {name};
  }

  /** It does not matter which file is counted first. */
  lemma {:induction false} UsedWithout(files: Files, name: seq<Byte>)
    requires name in files
    ensures Used(files) == Cost(|files[name]|) + Used(files - {name})
    decreases |files|
  {
    assert files != map[];
    var first :| first in files && Used(files) == Cost(|files[first]|) + Used(files - {first});
    if first != name {
      SmallerWithout(files, first);
      UsedWithout(files - {first}, name);
      SmallerWithout(files, name);
      UsedWithout(files - {name}, first);
      assert files - {first} - {name} == files - {name} - {first};
    }
  }

  lemma UsedWith(files: Files, name: seq<Byte>, content: seq<Byte>)
    requires name !in files
    ensures Used(files[name := content]) == Used(files) + Cost(|content|)
  {
    UsedWithout(files[name := content], name);
    assert files[name := content] - {name} == files;
  }

  /** The sectors of the first k directory entries, and the files listed in them. */
  ghost function ClaimedUpTo(m: Meta, k: nat): set<int> {
    if k == 0 then {} else ClaimedUpTo(m, k - 1) + Claim(m, k - 1)
  }

  ghost function ListedUpTo(d: Sectors, k: nat): Files
    requires Consistent(d) && k <= NUM_DIR_ENTRIES
  {
    if k == 0 then map[]
    else if InUse(d, k - 1) then ListedUpTo(d, k - 1)[DirectoryOf(d)[k - 1].name := FileAt(d, k - 1)]
    else ListedUpTo(d, k - 1)
  }

  lemma {:induction false} ClaimedUpToIs(m: Meta, k: nat, s: int)
    ensures s in ClaimedUpTo(m, k) <==> exists i :: 0 <= i < k && s in Claim(m, i)
  {
    if k > 0 { ClaimedUpToIs(m, k - 1, s); }
  }

  lemma {:induction false} ListedUpToIs(d: Sectors, k: nat, name: seq<Byte>)
    requires Consistent(d) && k <= NUM_DIR_ENTRIES
    ensures name in ListedUpTo(d, k) <==> exists i :: 0 <= i < k && InUse(d, i) && DirectoryOf(d)[i].name == name
  {
    hide Consistent, FileAt, DirectoryOf;
    if k > 0 { ListedUpToIs(d, k - 1, name); }
  }

  lemma ClaimSize(m: Meta, i: nat)
    requires Shape(m) && i < NUM_DIR_ENTRIES && ListedFile(m, i) && m.entries[i].inUse
    ensures |Claim(m, i)| == Cost(Length(m.headers[i]))
  {
    var blocks := DirectBlocks(m.headers[i]);
    ElementsSize(blocks);
    assert m.entries[i].sector !in Elements(blocks);
  }

  lemma SystemSize(m: Meta)
    requires SystemFiles(m)
    ensures |SystemClaim(m)| == 10
  {
    var a, b := DirectBlocks(m.mapHdr), DirectBlocks(m.dirHdr);
    ElementsSize(a);
    ElementsSize(b);
    assert |a| == 1 && |b| == 7;
    assert Elements(a) !! Elements(b) && {0, 1} !! Elements(a) && {0, 1} !! Elements(b);
    assert SystemClaim(m) == ({0, 1} + Elements(a)) + Elements(b);
    assert |{0, 1} + Elements(a)| == 3;
  }

  /** The claims of the listed files are disjoint, so their sizes add up to what the files take. */
  lemma {:induction false} ClaimedSize(d: Sectors, k: nat)
    requires Consistent(d) && k <= NUM_DIR_ENTRIES
    ensures |ClaimedUpTo(MetaOf(d), k)| == Used(ListedUpTo(d, k))
    ensures ClaimedUpTo(MetaOf(d), k) !! SystemClaim(MetaOf(d))
  {
    hide Entries, BitsOf, FileBytes, Decode, DirectFile, DirectBlocks, MetaOf, DirectoryOf, SystemClaim, Bootable;
    if k > 0 {
      ClaimedSize(d, k - 1);
      var m := MetaOf(d);
      OneMore(d, k - 1);
      assert |ClaimedUpTo(m, k)| == |ClaimedUpTo(m, k - 1)| + |Claim(m, k - 1)|;
    }
  }

  lemma OneMore(d: Sectors, i: nat)
    requires Consistent(d) && i < NUM_DIR_ENTRIES
    ensures ClaimedUpTo(MetaOf(d), i) !! Claim(MetaOf(d), i) && Claim(MetaOf(d), i) !! SystemClaim(MetaOf(d))
    ensures |Claim(MetaOf(d), i)| + Used(ListedUpTo(d, i)) == Used(ListedUpTo(d, i + 1))
  {
    var m := MetaOf(d);
    NewClaim(m, i);
    EntriesAre(d);
    NamesDifferOn(d);
    assert ListedFile(m, i);
    hide Entries, BitsOf, FileBytes, Decode, DirectFile, DirectBlocks, MetaOf, DirectoryOf, SystemClaim, Bootable,
      Consistent;
    if InUse(d, i) {
      ClaimSize(m, i);
      ListedUpToIs(d, i, DirectoryOf(d)[i].name);
      FileLength(d, i);
      UsedWith(ListedUpTo(d, i), DirectoryOf(d)[i].name, FileAt(d, i));
    } else {
      assert Claim(m, i) == {};
    }
  }

  lemma NewClaim(m: Meta, i: nat)
    requires MetaOk(m) && i < NUM_DIR_ENTRIES
    ensures ClaimedUpTo(m, i) !! Claim(m, i) && Claim(m, i) !! SystemClaim(m)
  {
    forall s | s in ClaimedUpTo(m, i) ensures s !in Claim(m, i) {
      ClaimedUpToIs(m, i, s);
    }
    assert Claim(m, i) !! Claim(m, NUM_DIR_ENTRIES);
  }

  lemma FileLength(d: Sectors, i: nat)
    requires Consistent(d) && InUse(d, i)
    ensures |FileAt(d, i)| == Length(MetaOf(d).headers[i])
  {
    ListedIsDirect(d, i);
  }

  lemma AllListed(d: Sectors, files: Files)
    requires Represents(d, files)
    ensures ListedUpTo(d, NUM_DIR_ENTRIES) == files
  {
    hide MetaOk, MetaOf, DirectoryOf, FileAt, Bootable;
    var all := ListedUpTo(d, NUM_DIR_ENTRIES);
    forall name ensures name in all <==> name in files {
      ListedUpToIs(d, NUM_DIR_ENTRIES, name);
    }
    forall name | name in files ensures all[name] == files[name] { ListedContent(d, files, NUM_DIR_ENTRIES, name); }
  }

  lemma {:induction false} ListedContent(d: Sectors, files: Files, k: nat, name: seq<Byte>)
    requires Represents(d, files) && k <= NUM_DIR_ENTRIES && name in ListedUpTo(d, k)
    ensures name in files && ListedUpTo(d, k)[name] == files[name]
  {
    hide MetaOk, MetaOf, DirectoryOf, FileAt, Bootable;
    if !(InUse(d, k - 1) && DirectoryOf(d)[k - 1].name == name) {
      ListedContent(d, files, k - 1, name);
    }
  }

  /** The free sectors are all but the ten of the system and those of the files. */
  lemma FreeSize(d: Sectors, files: Files)
    requires Represents(d, files)
    ensures |Free(MetaOf(d).bits)| == NUM_SECTORS - 10 - Used(files)
  {
    var m := MetaOf(d);
    assert MetaOk(m);
    hide MetaOf, Free, Represents, MetaOk, ClaimedUpTo, SystemClaim, SystemFiles, Used, ListedUpTo;
    ClaimedSize(d, NUM_DIR_ENTRIES);
    AllListed(d, files);
    SystemFilesOn(d);
    SystemSize(m);
    FreeAndTaken(m);
  }

  lemma FreeAndTaken(m: Meta)
    requires MetaOk(m)
    ensures |Free(m.bits)| + |ClaimedUpTo(m, NUM_DIR_ENTRIES) + SystemClaim(m)| == NUM_SECTORS
  {
    FreeElements(m.bits);
    hide MetaOk, Free, ClaimedUpTo, SystemClaim, Elements;
    var free, taken := Elements(Free(m.bits)), ClaimedUpTo(m, NUM_DIR_ENTRIES) + SystemClaim(m);
    forall s ensures s in free <==> 0 <= s < NUM_SECTORS && s !in taken { TakenOrFree(m, s); }
    forall s | s in taken ensures 0 <= s < NUM_SECTORS { TakenOrFree(m, s); }
    Complement(NUM_SECTORS, free, taken);
  }

  lemma FreeElements(bits: seq<bool>)
    requires |bits| == NUM_SECTORS
    ensures |Elements(Free(bits))| == |Free(bits)|
    ensures forall s :: s in Elements(Free(bits)) <==> 0 <= s < |bits| && !bits[s]
  {
    FreeSpec(bits);
    hide Free;
    ElementsSize(Free(bits));
  }

  lemma Complement(n: nat, a: set<int>, b: set<int>)
    requires forall s :: s in a <==> 0 <= s < n && s !in b
    requires forall s :: s in b ==> 0 <= s < n
    ensures |a| + |b| == n
  {
    assert Below(n) == a + b;
  }

  lemma TakenOrFree(m: Meta, s: int)
    requires MetaOk(m)
    ensures var taken := ClaimedUpTo(m, NUM_DIR_ENTRIES) + SystemClaim(m);
      && (s in taken ==> 0 <= s < NUM_SECTORS && m.bits[s])
      && (0 <= s < NUM_SECTORS && m.bits[s] ==> s in taken)
  {
    ClaimedUpToIs(m, NUM_DIR_ENTRIES, s);
    if s in ClaimedUpTo(m, NUM_DIR_ENTRIES) {
      var i :| 0 <= i < NUM_DIR_ENTRIES && s in Claim(m, i);
      assert ListedFile(m, i);
      assert Claimed(m, s);
    } else if s in SystemClaim(m) {
      assert s in Claim(m, NUM_DIR_ENTRIES) && Claimed(m, s);
    }
    if 0 <= s < NUM_SECTORS && m.bits[s] {
      var i :| 0 <= i <= NUM_DIR_ENTRIES && s in Claim(m, i);
    }
  }

  lemma {:induction false} ListedCount(d: Sectors, k: nat)
    requires Consistent(d) && k <= NUM_DIR_ENTRIES
    ensures |ListedUpTo(d, k)| <= k && (|ListedUpTo(d, k)| == k <==> forall i :: 0 <= i < k ==> InUse(d, i))
  {
    hide FileAt, DirectoryOf, MetaOk, MetaOf, Bootable;
    if k > 0 {
      ListedCount(d, k - 1);
      if InUse(d, k - 1) {
        NameIsNew(d, k - 1);
        assert ListedUpTo(d, k).Keys == ListedUpTo(d, k - 1).Keys + {DirectoryOf(d)[k - 1].name};
      }
    }
  }

  lemma {:induction false} UsedBound(d: Sectors, k: nat)
    requires Consistent(d) && k <= NUM_DIR_ENTRIES
    ensures Used(ListedUpTo(d, k)) <= 10 * k
  {
    if k > 0 {
      hide Used, ListedUpTo, MetaOk, MetaOf, Bootable, Claim, ClaimedUpTo, SystemClaim;
      UsedBound(d, k - 1);
      OneMore(d, k - 1);
      ClaimBound(d, k - 1);
    }
  }

  lemma NameIsNew(d: Sectors, i: nat)
    requires Consistent(d) && InUse(d, i)
    ensures DirectoryOf(d)[i].name !in ListedUpTo(d, i)
  {
    NamesDifferOn(d);
    hide Consistent, FileAt, DirectoryOf;
    ListedUpToIs(d, i, DirectoryOf(d)[i].name);
  }

  lemma ClaimBound(d: Sectors, i: nat)
    requires Consistent(d) && i < NUM_DIR_ENTRIES
    ensures |Claim(MetaOf(d), i)| <= 10
  {
    assert ListedFile(MetaOf(d), i);
    EntriesAre(d);
    hide Entries, BitsOf, FileBytes, Decode, MetaOf, DirectoryOf, Bootable, Consistent;
    if InUse(d, i) { ClaimSize(MetaOf(d), i); }
  }

  /** What Create answers, as the named files decide it. */
  ghost function CreateReply(files: Files, key: seq<Byte>, size: int): CreateResult {
    if key in files then Exists
    else if |files| >= NUM_DIR_ENTRIES then DirectoryFull
    else if SectorsFor(size) < 0 then TooBig
    else if SectorsFor(size) < NUM_DATA_SECTORS then Created
    else if SectorsFor(size) > NUM_SECTORS - 11 - Used(files) then NoSpace
    else TooBig
  }

  /** Ten files never fill the disk, so that a new file is refused for its name, for want of a directory entry or
      for its own size, and for nothing else. */
  lemma AnswerIsReply(d: Sectors, files: Files, key: seq<Byte>, size: int)
    requires Represents(d, files)
    ensures CreateAnswer(MetaOf(d), key, size) == CreateReply(files, key, size)
    ensures CreateReply(files, key, size) == Created <==>
      key !in files && |files| < NUM_DIR_ENTRIES && 0 <= SectorsFor(size) < NUM_DATA_SECTORS
    ensures CreateReply(files, key, size) == Exists <==> key in files
    ensures CreateReply(files, key, size) == DirectoryFull <==> key !in files && |files| >= NUM_DIR_ENTRIES
    ensures CreateReply(files, key, size) == NoSpace <==>
      key !in files && |files| < NUM_DIR_ENTRIES && SectorsFor(size) > |Free(MetaOf(d).bits)| - 1
  {
    hide Represents, MetaOf, DirectoryOf, Free, Used, ListedUpTo, Bootable, Named;
    RepresentsConsistent(d, files);
    FreeSize(d, files);
    FullWhen(d, files);
    EntriesAre(d);
    NameListed(d, files, key);
  }

  lemma FullWhen(d: Sectors, files: Files)
    requires Represents(d, files)
    ensures |files| <= NUM_DIR_ENTRIES && Used(files) <= 100
    ensures |files| == NUM_DIR_ENTRIES <==> forall k :: 0 <= k < NUM_DIR_ENTRIES ==> MetaOf(d).entries[k].inUse
  {
    hide Represents, MetaOf, DirectoryOf, Used, ListedUpTo, Bootable;
    RepresentsConsistent(d, files);
    AllListed(d, files);
    ListedCount(d, NUM_DIR_ENTRIES);
    UsedBound(d, NUM_DIR_ENTRIES);
    EntriesAre(d);
    assert forall k :: 0 <= k < NUM_DIR_ENTRIES ==> (InUse(d, k) <==> MetaOf(d).entries[k].inUse);
  }

  lemma NameListed(d: Sectors, files: Files, key: seq<Byte>)
    requires Represents(d, files)
    ensures key in files <==> exists k :: Named(DirectoryOf(d), k, key)
  {
    hide MetaOk, MetaOf, DirectoryOf, FileAt, Bootable;
    if key in files {
      var k :| InUse(d, k) && DirectoryOf(d)[k].name == key;
      NamedBySlot(d, k);
    }
    if k :| Named(DirectoryOf(d), k, key) { assert InUse(d, k); }
  }

  // ---------------------------------------------------------------------------
  // Runs

  datatype Operation =
    | DoCreate(name: seq<Byte>, size: Int32, attributes: seq<Byte>)
    | DoRemove(name: seq<Byte>)
    | DoWrite(name: seq<Byte>, data: seq<Byte>, position: nat)
    | DoRead(name: seq<Byte>, numBytes: int, position: nat)

  datatype Reply = Creation(result: CreateResult) | Removal(ok: bool) | Writing(count: nat) | Reading(bytes: seq<Byte>)

  ghost predicate Wellformed(op: Operation) {
    CString(op.name) && (op.DoCreate? ==> |op.attributes| == ATTRIBUTE_BYTES)
  }

  /** The reply to an operation and what it does to the files. A new file holds whatever its sectors held, and
      everything else is decided by the files. */
  ghost predicate Effect(f: Files, op: Operation, reply: Reply, g: Files) {
    var key := Key(op.name);
    match op
    case DoCreate(_, size, _) =>
      && reply == Creation(CreateReply(f, key, size))
      && if CreateReply(f, key, size) == Created
         then key in g && |g[key]| == (if size > 0 then size else 0) && g == f[key := g[key]]
         else g == f
    case DoRemove(_) => reply == Removal(key in f) && g == f - {key}
    case DoWrite(_, data, position) =>
      && reply.Writing?
      && if key in f
         then
           && Transferred(|f[key]|, |data|, position, reply.count)
           && key in g && g == f[key := g[key]] && LaidOver(f[key], g[key], position, data)
         else reply.count == 0 && g == f
    case DoRead(_, numBytes, position) =>
      && reply.Reading? && g == f
      && if key in f then ReadFrom(f[key], position, numBytes, reply.bytes) else reply.bytes == []
  }

  ghost predicate History(ops: seq<Operation>, replies: seq<Reply>, states: seq<Files>) {
    && |replies| == |ops| && |states| == |ops| + 1
    && forall k :: 0 <= k < |ops| ==> Effect(states[k], ops[k], replies[k], states[k + 1])
  }

  method Apply(fs: FileSystem, op: Operation, ghost files: Files) returns (reply: Reply, ghost files': Files)
    requires fs.Valid() && Represents(fs.disk.sectors, files) && Wellformed(op)
    modifies fs.disk
    ensures fs.Valid() && Represents(fs.disk.sectors, files')
    ensures Effect(files, op, reply, files')
    ensures OthersKept(old(fs.disk.sectors), fs.disk.sectors, if op.DoRemove? then {Key(op.name)} else {})
  {
    hide Represents, Consistent, CString, Key, Overwritten, ReadOut, Bootable, CreateAnswer, CreateReply, MetaOf,
      OthersKept, NewFile, ReleasedNamed, LaidOver, ReadFrom, Transferred;
    ghost var d := fs.disk.sectors;
    SameKept(d, d);
    match op {
      case DoCreate(name, size, attributes) =>
        AnswerIsReply(fs.disk.sectors, files, Key(name), size);
        ghost var content;
        var result;
        result, content := fs.Create(name, size, attributes, files);
        if result == Created { NewKept(d, fs.disk.sectors, Key(name)); }
        reply := Creation(result);
        files' := if result == Created then files[Key(name) := content] else files;
      case DoRemove(name) =>
        var ok := fs.Remove(name, files);
        if ok { ReleasedKept(d, fs.disk.sectors, Key(name)); } else { MoreGone(d, d, {Key(name)}); }
        reply := Removal(ok);
        files' := files - {Key(name)};
      case DoWrite(name, data, position) =>
        var from := new Byte[|data|](i requires 0 <= i < |data| => data[i]);
        assert from[..] == data;
        var count := fs.WriteNamed(name, from, |data|, position, files);
        SameKept(d, fs.disk.sectors);
        OverwrittenIs(files, Key(name), position, data);
        if Key(name) in files { CountIsTransferred(|files[Key(name)]|, |data|, position); }
        reply := Writing(count);
        files' := Overwritten(files, Key(name), position, data, |data|);
      case DoRead(name, numBytes, position) =>
        var bytes := fs.ReadNamed(name, numBytes, position, files);
        ReadOutIs(files, Key(name), position, numBytes);
        reply := Reading(bytes);
        files' := files;
    }
  }

  /** Formatting and then any sequence of operations: the replies are those of operations on named byte strings, and
      the disk stands for what these add up to. Valid says that after every operation the bitmap file is the disjoint
      union of all sectors in use. */
  method Run(disk: SynchDisk, mapAttributes: seq<Byte>, dirAttributes: seq<Byte>, ops: seq<Operation>)
    returns (fs: FileSystem, replies: seq<Reply>, ghost states: seq<Files>)
    requires disk.Valid() && |mapAttributes| == |dirAttributes| == ATTRIBUTE_BYTES
    requires forall k :: 0 <= k < |ops| ==> Wellformed(ops[k])
    modifies disk
    ensures fs.disk == disk && fs.Valid()
    ensures History(ops, replies, states) && states[0] == map[] && Represents(disk.sectors, states[|ops|])
  {
    hide Represents, Consistent, Effect, Wellformed, Bootable;
    fs := Format(disk, mapAttributes, dirAttributes);
    replies, states := [], [map[]];
    for i := 0 to |ops|
      invariant fs.disk == disk && fs.Valid()
      invariant History(ops[..i], replies, states) && states[0] == map[]
      invariant Represents(disk.sectors, states[i])
    {
      var reply;
      ghost var files';
      reply, files' := Apply(fs, ops[i], states[i]);
      replies, states := replies + [reply], states + [files'];
      assert ops[..i + 1][..i] == ops[..i];
    }
    assert ops[..|ops|] == ops;
  }

  /** Operations that leave the bytes of a name alone: reads, and anything done to other names. */
  predicate Spares(op: Operation, key: seq<Byte>) {
    op.DoRead? || Key(op.name) != key
  }

  lemma {:induction false} BytesSpared(ops: seq<Operation>, replies: seq<Reply>, states: seq<Files>, key: seq<Byte>,
      j: nat, k: nat)
    requires History(ops, replies, states) && j <= k <= |ops|
    requires key in states[j] && forall i :: j <= i < k ==> Spares(ops[i], key)
    ensures key in states[k] && states[k][key] == states[j][key]
  {
    if j < k {
      BytesSpared(ops, replies, states, key, j, k - 1);
      assert Effect(states[k - 1], ops[k - 1], replies[k - 1], states[k]);
    }
  }

  /** Over every run: a read gets what the last write to that stretch put there, as far as the file reached. */
  lemma WriteThenRead(ops: seq<Operation>, replies: seq<Reply>, states: seq<Files>, j: nat, k: nat)
    requires History(ops, replies, states) && j < k < |ops|
    requires ops[j].DoWrite? && ops[k].DoRead? && Key(ops[k].name) == Key(ops[j].name)
    requires ops[k].position == ops[j].position && ops[k].numBytes == |ops[j].data|
    requires forall i :: j < i < k ==> Spares(ops[i], Key(ops[j].name))
    ensures replies[j].Writing? && replies[j].count <= |ops[j].data|
    ensures replies[k] == Reading(ops[j].data[..replies[j].count])
  {
    var key, f, g := Key(ops[j].name), states[j], states[j + 1];
    assert Effect(f, ops[j], replies[j], g) && Effect(states[k], ops[k], replies[k], states[k + 1]);
    hide Key;
    if key in f {
      BytesSpared(ops, replies, states, key, j + 1, k);
      assert replies[k].bytes == ops[j].data[..replies[j].count];
    } else {
      NeverCreated(ops, replies, states, key, j + 1, k);
    }
  }

  lemma {:induction false} NeverCreated(ops: seq<Operation>, replies: seq<Reply>, states: seq<Files>, key: seq<Byte>,
      j: nat, k: nat)
    requires History(ops, replies, states) && j <= k <= |ops|
    requires key !in states[j] && forall i :: j <= i < k ==> Spares(ops[i], key)
    ensures key !in states[k]
  {
    if j < k {
      NeverCreated(ops, replies, states, key, j, k - 1);
      assert Effect(states[k - 1], ops[k - 1], replies[k - 1], states[k]);
    }
  }
  // ---------------------------------------------------------------------------
  // Names

  /** At time k there is a file under this name: some operation before created one under a name in which strncmp sees no
      difference, and none since removed one under such a name. */
  ghost predicate CreatedBy(ops: seq<Operation>, replies: seq<Reply>, j: int, k: nat, name: seq<Byte>)
    requires |replies| == |ops| && k <= |ops|
  {
    && 0 <= j < k && ops[j].DoCreate? && replies[j] == Creation(Created) && SameName(ops[j].name, name)
    && forall i :: j < i < k ==> !(ops[i].DoRemove? && SameName(ops[i].name, name))
  }

  /** What is done under a name leaves every file alone whose name differs from it in a character that is compared. */
  lemma OtherNamesUntouched(f: Files, op: Operation, reply: Reply, g: Files, name: seq<Byte>)
    requires Effect(f, op, reply, g) && CString(op.name) && CString(name) && !SameName(op.name, name)
    ensures Key(name) in g <==> Key(name) in f
    ensures Key(name) in f ==> g[Key(name)] == f[Key(name)]
  {
    hide Key, SameName, CreateReply, LaidOver, ReadFrom, Transferred;
    KeyIsName(op.name, name);
  }

  /** Two different names that are not too long are two files: neither sees what is done under the other. */
  lemma TwoNamesTwoFiles(f: Files, op: Operation, reply: Reply, g: Files, name: seq<Byte>)
    requires Effect(f, op, reply, g) && CString(op.name) && CString(name) && op.name != name
    requires |op.name| <= FILE_NAME_MAX_LEN && |name| <= FILE_NAME_MAX_LEN
    ensures Key(name) in g <==> Key(name) in f
    ensures Key(name) in f ==> g[Key(name)] == f[Key(name)]
  {
    hide Effect, SameName, Key;
    ShortNames(op.name, name);
    OtherNamesUntouched(f, op, reply, g, name);
  }

  /** Over every stretch of a run in which only other names are used. */
  lemma {:induction false} OtherNamesOverRuns(ops: seq<Operation>, replies: seq<Reply>, states: seq<Files>,
                                              name: seq<Byte>, j: nat, k: nat)
    requires History(ops, replies, states) && j <= k <= |ops| && CString(name) && |name| <= FILE_NAME_MAX_LEN
    requires forall i :: j <= i < k ==>
      CString(ops[i].name) && |ops[i].name| <= FILE_NAME_MAX_LEN && ops[i].name != name
    ensures Key(name) in states[k] <==> Key(name) in states[j]
    ensures Key(name) in states[j] ==> states[k][Key(name)] == states[j][Key(name)]
  {
    if j < k {
      OtherNamesOverRuns(ops, replies, states, name, j, k - 1);
      assert Effect(states[k - 1], ops[k - 1], replies[k - 1], states[k - 1 + 1]);
      hide Effect, Key, CString;
      TwoNamesTwoFiles(states[k - 1], ops[k - 1], replies[k - 1], states[k], name);
    }
  }

  lemma NameAfter(f: Files, op: Operation, reply: Reply, g: Files, name: seq<Byte>)
    requires Effect(f, op, reply, g) && CString(op.name) && CString(name)
    ensures Key(name) in g <==>
      || (op.DoCreate? && reply == Creation(Created) && SameName(op.name, name))
      || (Key(name) in f && !(op.DoRemove? && SameName(op.name, name)))
  {
    hide Key, SameName, LaidOver, ReadFrom, Transferred;
    KeyIsName(op.name, name);
  }

  /** Over every run a name is there exactly when it was created and not removed since. */
  lemma {:induction false} NameIsThere(ops: seq<Operation>, replies: seq<Reply>, states: seq<Files>, k: nat,
      name: seq<Byte>)
    requires History(ops, replies, states) && states[0] == map[] && k <= |ops|
    requires CString(name) && forall i :: 0 <= i < |ops| ==> CString(ops[i].name)
    ensures Key(name) in states[k] <==> exists j :: CreatedBy(ops, replies, j, k, name)
  {
    hide Key, SameName, Effect, CString;
    if k > 0 {
      var m := k - 1;
      var op := ops[m];
      NameIsThere(ops, replies, states, m, name);
      NameAfter(states[m], op, replies[m], states[k], name);
      if j :| CreatedBy(ops, replies, j, m, name) {
        assert CreatedBy(ops, replies, j, k, name) <==> !(op.DoRemove? && SameName(op.name, name));
      }
      if op.DoCreate? && replies[m] == Creation(Created) && SameName(op.name, name) {
        assert CreatedBy(ops, replies, m, k, name);
      }
      if j :| CreatedBy(ops, replies, j, k, name) && j < m {
        assert CreatedBy(ops, replies, j, m, name);
      }
    }
  }

  /** So Create finds the name taken exactly then. */
  lemma ExistsExactly(ops: seq<Operation>, replies: seq<Reply>, states: seq<Files>, k: nat)
    requires History(ops, replies, states) && states[0] == map[] && k < |ops| && ops[k].DoCreate?
    requires forall i :: 0 <= i < |ops| ==> CString(ops[i].name)
    ensures replies[k] == Creation(Exists) <==> exists j :: CreatedBy(ops, replies, j, k, ops[k].name)
  {
    assert Effect(states[k], ops[k], replies[k], states[k + 1]);
    hide Key, History, CString, CreatedBy, Used;
    NameIsThere(ops, replies, states, k, ops[k].name);
  }
}
