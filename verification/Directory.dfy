/** filesys/directory.cc: the table of file names, kept as the bytes that go to and from its file. */
module Directories {
  import opened Words

  const NUM_DIR_ENTRIES: nat := 10
  const DIRECTORY_BYTES: nat := 880     // ten entries of 88 bytes: inUse at 0, sector at 4, name[78] at 8
  const FILE_NAME_MAX_LEN: nat := 77

  datatype DirEntry = DirEntry(inUse: bool, sector: int, name: seq<Byte>)

  // ---------------------------------------------------------------------------
  // C strings

  /** A C string, written without its terminating zero. */
  predicate CString(name: seq<Byte>) {
    0 !in name
  }

  /** The part of a name that strncmp and strncpy look at. */
  function Key(name: seq<Byte>): seq<Byte> {
    if |name| <= FILE_NAME_MAX_LEN then name else name[..FILE_NAME_MAX_LEN]
  }

  /** Character k of a C string, with zeros behind its end. */
  function CharAt(name: seq<Byte>, k: nat): Byte {
    if k < |name| then name[k] else 0
  }

  /** strncmp finds no difference between the two names. */
  ghost predicate SameName(a: seq<Byte>, b: seq<Byte>) {
    forall k :: 0 <= k < FILE_NAME_MAX_LEN ==> CharAt(a, k) == CharAt(b, k)
  }

  /** Names with the same key are those in which the characters compared agree. */
  lemma KeyIsName(a: seq<Byte>, b: seq<Byte>)
    requires CString(a) && CString(b)
    ensures Key(a) == Key(b) <==> SameName(a, b)
    ensures SameName(a, Key(a)) && CString(Key(a)) && |Key(a)| <= FILE_NAME_MAX_LEN
  {
    if SameName(a, b) {
      SameLength(a, b);
      SameLength(b, a);
      forall k | 0 <= k < |Key(a)| ensures Key(a)[k] == Key(b)[k] { assert CharAt(a, k) == CharAt(b, k); }
    }
    if Key(a) == Key(b) {
      forall k | 0 <= k < FILE_NAME_MAX_LEN ensures CharAt(a, k) == CharAt(b, k) {
        assert CharAt(a, k) == CharAt(Key(a), k) && CharAt(b, k) == CharAt(Key(b), k);
      }
    }
  }

  lemma SameLength(a: seq<Byte>, b: seq<Byte>)
    requires CString(a) && SameName(a, b)
    ensures |Key(a)| <= |Key(b)|
  {
    if |Key(a)| > 0 {
      var last := |Key(a)| - 1;
      assert CharAt(b, last) == CharAt(a, last) == a[last] && a[last] in a;
    }
  }

  /** Names that are short enough to be compared in full are the same only when they are equal. */
  lemma ShortNames(a: seq<Byte>, b: seq<Byte>)
    requires CString(a) && CString(b) && |a| <= FILE_NAME_MAX_LEN && |b| <= FILE_NAME_MAX_LEN
    ensures SameName(a, b) <==> a == b
  {
    KeyIsName(a, b);
  }

  /** The string stored in a character field. */
  function UpToZero(field: seq<Byte>): seq<Byte> {
    if field == [] || field[0] == 0 then [] else [field[0]] + UpToZero(field[1..])
  }

  lemma {:induction false} UpToZeroIs(field: seq<Byte>)
    ensures CString(UpToZero(field)) && |UpToZero(field)| <= |field|
    ensures forall k :: 0 <= k < |UpToZero(field)| ==> UpToZero(field)[k] == field[k]
    ensures |UpToZero(field)| < |field| ==> field[|UpToZero(field)|] == 0
  {
    if field != [] && field[0] != 0 { UpToZeroIs(field[1..]); }
  }

  lemma {:induction false} UpToZeroPadded(name: seq<Byte>, field: seq<Byte>)
    requires CString(name) && |name| <= |field|
    requires forall k :: 0 <= k < |field| ==> field[k] == if k < |name| then name[k] else 0
    ensures UpToZero(field) == name
  {
    if name != [] {
      assert name == [name[0]] + name[1..];
      UpToZeroPadded(name[1..], field[1..]);
    }
  }

  // ---------------------------------------------------------------------------
  // The table as bytes

  function EntryAt(table: seq<Byte>, i: nat): DirEntry
    requires |table| == DIRECTORY_BYTES && i < NUM_DIR_ENTRIES
  {
    DirEntry(table[88 * i] != 0, WordAt(table, 22 * i + 1), UpToZero(table[88 * i + 8..88 * i + 85]))
  }

  function Entries(table: seq<Byte>): (r: seq<DirEntry>)
    requires |table| == DIRECTORY_BYTES
    ensures |r| == NUM_DIR_ENTRIES
  {
    seq(NUM_DIR_ENTRIES, i requires 0 <= i < NUM_DIR_ENTRIES => EntryAt(table, i))
  }

  /** An entry depends on its own 88 bytes only. */
  lemma EntryLocal(a: seq<Byte>, b: seq<Byte>, i: nat)
    requires |a| == |b| == DIRECTORY_BYTES && i < NUM_DIR_ENTRIES
    requires forall p :: 88 * i <= p < 88 * i + 88 ==> a[p] == b[p]
    ensures EntryAt(a, i) == EntryAt(b, i)
  {
    assert a[88 * i + 8..88 * i + 85] == b[88 * i + 8..88 * i + 85];
    assert 4 * (22 * i + 1) == 88 * i + 4;
  }

  ghost predicate Named(entries: seq<DirEntry>, i: int, key: seq<Byte>) {
    0 <= i < |entries| && entries[i].inUse && entries[i].name == key
  }

  /** What the loop over the table looks for. */
  ghost predicate Matches(e: DirEntry, name: seq<Byte>) {
    e.inUse && SameName(e.name, name)
  }

  /** An entry matches a name exactly when it is listed under the key of the name. */
  lemma NamesAre(table: seq<Byte>, name: seq<Byte>)
    requires |table| == DIRECTORY_BYTES && CString(name)
    ensures forall i :: 0 <= i < NUM_DIR_ENTRIES ==>
      (Named(Entries(table), i, Key(name)) <==> Matches(Entries(table)[i], name))
  {
    forall i | 0 <= i < NUM_DIR_ENTRIES
      ensures Named(Entries(table), i, Key(name)) <==> Matches(Entries(table)[i], name)
    {
      UpToZeroIs(table[88 * i + 8..88 * i + 85]);
      KeyIsName(Entries(table)[i].name, name);
    }
  }

  /** i is the first entry in use under this name, or -1 when there is none. */
  ghost predicate IsIndexOf(entries: seq<DirEntry>, key: seq<Byte>, i: int) {
    if i == -1 then forall k :: 0 <= k < |entries| ==> !Named(entries, k, key)
    else Named(entries, i, key) && forall k :: 0 <= k < i ==> !Named(entries, k, key)
  }

  /** What strncpy leaves in the name: the characters, then zeros. */
  function NameField(name: seq<Byte>): (field: seq<Byte>)
    ensures |field| == FILE_NAME_MAX_LEN
    ensures forall k :: 0 <= k < FILE_NAME_MAX_LEN ==> field[k] == if k < |Key(name)| then Key(name)[k] else 0
  {
    seq(FILE_NAME_MAX_LEN, k requires 0 <= k < FILE_NAME_MAX_LEN => if k < |name| then name[k] else 0)
  }

  function Overlaid(table: seq<Byte>, at: nat, bytes: seq<Byte>): (r: seq<Byte>)
    requires at + |bytes| <= |table|
    ensures |r| == |table|
    ensures r[at..at + |bytes|] == bytes
    ensures forall p :: 0 <= p < |table| && !(at <= p < at + |bytes|) ==> r[p] == table[p]
  {
    table[..at] + bytes + table[at + |bytes|..]
  }

  /** An entry filled in: in use, then the name, then the sector. */
  lemma Filled(before: seq<Byte>, after: seq<Byte>, i: nat, name: seq<Byte>, sector: Int32)
    requires |before| == DIRECTORY_BYTES && i < NUM_DIR_ENTRIES && CString(name)
    requires
      var named := Overlaid(before[88 * i := 1], 88 * i + 8, NameField(name));
      after == Overlaid(named, 88 * i + 4, WordBytes(FromInt(sector)))
    ensures Entries(after) == Entries(before)[i := DirEntry(true, sector, Key(name))]
  {
    var named := Overlaid(before[88 * i := 1], 88 * i + 8, NameField(name));
    hide UpToZero;
    FilledParts(before, named, after, i, NameField(name), WordBytes(FromInt(sector)));
    UpToZeroPadded(Key(name), NameField(name));
    hide Overlaid, NameField, WordBytes, Key;
    StoredWord(after, i, FromInt(sector));
    assert EntryAt(after, i) == DirEntry(true, sector, Key(name));
    hide EntryAt, WordAt, FromInt;
    forall j | 0 <= j < NUM_DIR_ENTRIES && j != i ensures EntryAt(after, j) == EntryAt(before, j) {
      EntryLocal(after, before, j);
    }
  }

  lemma FilledParts(before: seq<Byte>, named: seq<Byte>, after: seq<Byte>, i: nat, field: seq<Byte>, word: seq<Byte>)
    requires |before| == DIRECTORY_BYTES && i < NUM_DIR_ENTRIES && |field| == FILE_NAME_MAX_LEN && |word| == 4
    requires named == Overlaid(before[88 * i := 1], 88 * i + 8, field) && after == Overlaid(named, 88 * i + 4, word)
    ensures after[88 * i] == 1
    ensures after[88 * i + 8..88 * i + 85] == field
    ensures forall k :: 0 <= k < 4 ==> after[88 * i + 4 + k] == word[k]
    ensures forall p :: 0 <= p < DIRECTORY_BYTES && !(88 * i <= p < 88 * i + 88) ==> after[p] == before[p]
  {
    hide Overlaid;
    assert after[88 * i + 8..88 * i + 85] == named[88 * i + 8..88 * i + 85];
    var stored := after[88 * i + 4..88 * i + 8];
    forall k | 0 <= k < 4 ensures after[88 * i + 4 + k] == word[k] { assert stored[k] == word[k]; }
  }

  lemma StoredWord(table: seq<Byte>, i: nat, u: int)
    requires |table| == DIRECTORY_BYTES && i < NUM_DIR_ENTRIES && 0 <= u < TWO32
    requires forall k :: 0 <= k < 4 ==> table[88 * i + 4 + k] == WordBytes(u)[k]
    ensures WordAt(table, 22 * i + 1) == ToInt(u)
  {
    var at := 88 * i + 4;
    assert 4 * (22 * i + 1) == at;
    assert table[at] == table[at + 0] == WordBytes(u)[0];
    assert table[at + 1] == WordBytes(u)[1];
    assert table[at + 2] == WordBytes(u)[2];
    assert table[at + 3] == WordBytes(u)[3];
  }

  lemma Vacated(table: seq<Byte>, i: nat)
    requires |table| == DIRECTORY_BYTES && i < NUM_DIR_ENTRIES
    ensures Entries(table[88 * i := 0]) == Entries(table)[i := Entries(table)[i].(inUse := false)]
  {
    var after := table[88 * i := 0];
    forall j | 0 <= j < NUM_DIR_ENTRIES && j != i ensures EntryAt(after, j) == EntryAt(table, j) {
      EntryLocal(after, table, j);
    }
    assert after[88 * i + 8..88 * i + 85] == table[88 * i + 8..88 * i + 85];
    assert 4 * (22 * i + 1) == 88 * i + 4;
  }

  class Directory {
    const table: array<Byte>

    ghost predicate Valid()
      reads this
    {
      table.Length == DIRECTORY_BYTES
    }

    constructor ()
      ensures Valid() && fresh(table)
      ensures forall i :: 0 <= i < NUM_DIR_ENTRIES ==> !Entries(table[..])[i].inUse
    {
      table := new Byte[DIRECTORY_BYTES];
      new;
      for i := 0 to NUM_DIR_ENTRIES
        invariant fresh(table) && table.Length == DIRECTORY_BYTES
        invariant forall k :: 0 <= k < i ==> table[88 * k] == 0
      {
        table[88 * i] := 0;
      }
    }

    method FindIndex(name: seq<Byte>) returns (i: int)
      requires Valid() && CString(name)
      ensures IsIndexOf(Entries(table[..]), Key(name), i)
      ensures -1 <= i < NUM_DIR_ENTRIES
      ensures i != -1 ==> Matches(Entries(table[..])[i], name)
      ensures forall k :: 0 <= k < (if i == -1 then NUM_DIR_ENTRIES else i) ==> !Matches(Entries(table[..])[k], name)
    {
      NamesAre(table[..], name);
      hide Matches;
      ghost var entries := Entries(table[..]);
      for k := 0 to NUM_DIR_ENTRIES
        invariant forall j :: 0 <= j < k ==> !Named(entries, j, Key(name))
      {
        if table[88 * k] != 0 && UpToZero(table[88 * k + 8..88 * k + 85]) == Key(name) {
          assert table[..][88 * k + 8..88 * k + 85] == table[88 * k + 8..88 * k + 85];
          return k;
        }
        assert table[..][88 * k + 8..88 * k + 85] == table[88 * k + 8..88 * k + 85];
      }
      return -1;
    }

    /** The sector of the file's header, or -1 when the name is not in the directory. */
    method Find(name: seq<Byte>) returns (sector: int, ghost i: int)
      requires Valid() && CString(name)
      ensures IsIndexOf(Entries(table[..]), Key(name), i)
      ensures sector == if i == -1 then -1 else Entries(table[..])[i].sector
      ensures (forall k :: !Named(Entries(table[..]), k, Key(name))) ==> sector == -1
      ensures forall k :: k != -1 && IsIndexOf(Entries(table[..]), Key(name), k) ==>
        sector == Entries(table[..])[k].sector
    {
      var index := FindIndex(name);
      i := index;
      if index != -1 {
        sector := WordAt(table[..], 22 * index + 1);
      } else {
        sector := -1;
      }
    }

    method PutBytes(at: nat, bytes: seq<Byte>)
      requires at + |bytes| <= table.Length
      modifies table
      ensures table[..] == Overlaid(old(table[..]), at, bytes)
    {
      ghost var before := table[..];
      for k := 0 to |bytes|
        invariant table[..] == before[..at] + bytes[..k] + before[at + k..]
      {
        CopyStep(before, at, bytes, k);
        table[at + k] := bytes[k];
      }
    }

    /** Marks the entry as used and stores the name, padded with zeros, and the sector. */
    method FillEntry(i: nat, name: seq<Byte>, newSector: Int32)
      requires Valid() && CString(name) && i < NUM_DIR_ENTRIES
      modifies table
      ensures Entries(table[..]) == old(Entries(table[..]))[i := DirEntry(true, newSector, Key(name))]
    {
      ghost var before := table[..];
      table[88 * i] := 1;
      PutBytes(88 * i + 8, NameField(name));
      PutBytes(88 * i + 4, WordBytes(FromInt(newSector)));
      Filled(before, table[..], i, name, newSector);
    }

    /** Fails, changing nothing, when the name is there already or every entry is in use. */
    method Add(name: seq<Byte>, newSector: Int32) returns (ok: bool, ghost i: int)
      requires Valid() && CString(name)
      modifies table
      ensures !ok ==> table[..] == old(table[..])
      ensures !ok <==>
        || (exists k :: Named(old(Entries(table[..])), k, Key(name)))
        || (forall k :: 0 <= k < NUM_DIR_ENTRIES ==> old(Entries(table[..]))[k].inUse)
      ensures ok ==> 0 <= i < NUM_DIR_ENTRIES && !old(Entries(table[..]))[i].inUse
      ensures ok ==> Entries(table[..]) == old(Entries(table[..]))[i := DirEntry(true, newSector, Key(name))]
    {
      ghost var entries := Entries(table[..]);
      var index := FindIndex(name);
      i := -1;
      if index != -1 {
        return false, -1;
      }
      assert forall k :: !Named(entries, k, Key(name));
      for k := 0 to NUM_DIR_ENTRIES
        invariant table[..] == old(table[..])
        invariant forall j :: 0 <= j < k ==> entries[j].inUse
      {
        if table[88 * k] == 0 {
          assert !entries[k].inUse;
          FillEntry(k, name, newSector);
          return true, k;
        }
      }
      return false, -1;
    }

    method Remove(name: seq<Byte>) returns (ok: bool, ghost i: int)
      requires Valid() && CString(name)
      modifies table
      ensures IsIndexOf(old(Entries(table[..])), Key(name), i)
      ensures ok <==> i != -1
      ensures !ok ==> table[..] == old(table[..])
      ensures ok ==> Entries(table[..]) == old(Entries(table[..]))[i := old(Entries(table[..]))[i].(inUse := false)]
    {
      var index := FindIndex(name);
      i := index;
      if index == -1 {
        return false, -1;
      }
      table[88 * index] := 0;
      assert table[..] == old(table[..])[88 * index := 0];
      Vacated(old(table[..]), index);
      return true, index;
    }
  }

  /** What was added under one name is found under another exactly when strncmp sees no difference between them. */
  method AddThenFind(directory: Directory, a: seq<Byte>, b: seq<Byte>, sector: Int32)
    returns (ok: bool, ghost i: int, j: int)
    requires directory.Valid() && CString(a) && CString(b)
    modifies directory.table
    ensures ok ==> 0 <= i < NUM_DIR_ENTRIES && (j == i <==> SameName(a, b))
  {
    KeyIsName(a, b);
    hide SameName, Entries, Key, Matches;
    ok, i := directory.Add(a, sector);
    j := directory.FindIndex(b);
    if ok {
      assert Named(Entries(directory.table[..]), i, Key(a));
      forall k | Named(Entries(directory.table[..]), k, Key(a)) ensures k == i {
        assert !Named(old(Entries(directory.table[..])), k, Key(a));
      }
    }
  }
}
