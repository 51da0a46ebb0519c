/** machine/translate.cc, and the TLB parts of userprog/exception.cc and userprog/addrspace.cc: a small
    first-in-first-out TLB in front of the page table of the running address space. */
module Tlbs {
  import opened Words

  const PAGE_SIZE: nat := 128
  const NUM_PHYS_PAGES: nat := 32
  const MEMORY_SIZE: nat := 4096

  datatype Entry = Entry(virtualPage: int, physicalPage: int, valid: bool, readOnly: bool, use: bool, dirty: bool)

  datatype Exception = NoException | AddressError | PageFault | ReadOnlyError | BusError

  function Vpn(virtAddr: Int32): nat {
    FromInt(virtAddr) / PAGE_SIZE
  }

  function Offset(virtAddr: Int32): nat {
    FromInt(virtAddr) % PAGE_SIZE
  }

  predicate Misaligned(virtAddr: Int32, size: int) {
    (size == 4 && FromInt(virtAddr) % 4 != 0) || (size == 2 && FromInt(virtAddr) % 2 != 0)
  }

  // ---------------------------------------------------------------------------
  // The TLB as a sequence of slots

  predicate Hit(tlb: seq<Entry>, i: nat, vpn: int) {
    i < |tlb| && tlb[i].valid && tlb[i].virtualPage == vpn
  }

  ghost predicate Present(tlb: seq<Entry>, vpn: int) {
    exists i :: Hit(tlb, i, vpn)
  }

  function FirstInvalid(tlb: seq<Entry>): (i: nat)
    ensures i <= |tlb|
    ensures forall j :: 0 <= j < i ==> tlb[j].valid
    ensures i < |tlb| ==> !tlb[i].valid
  {
    if tlb == [] || !tlb[0].valid then 0 else 1 + FirstInvalid(tlb[1..])
  }

  /** The same pages in the same slots; the use and dirty bits may differ. */
  ghost predicate Same(a: seq<Entry>, b: seq<Entry>) {
    |a| == |b| && forall j :: 0 <= j < |a| ==> a[j].valid == b[j].valid && a[j].virtualPage == b[j].virtualPage
  }

  lemma SamePresent(a: seq<Entry>, b: seq<Entry>, v: int)
    requires Same(a, b)
    ensures Present(a, v) <==> Present(b, v)
  {
    assert forall j: nat :: Hit(a, j, v) <==> Hit(b, j, v);
  }

  lemma {:induction false} FirstInvalidIs(tlb: seq<Entry>, i: nat)
    requires i <= |tlb| && (forall j :: 0 <= j < i ==> tlb[j].valid) && (i < |tlb| ==> !tlb[i].valid)
    ensures FirstInvalid(tlb) == i
  {
    if i > 0 { FirstInvalidIs(tlb[1..], i - 1); }
  }

  /** TLBAlgoFIFO: into the first free slot, or behind the others with the first one pushed out. */
  function Filled(tlb: seq<Entry>, page: Entry): seq<Entry>
    requires |tlb| > 0
  {
    if FirstInvalid(tlb) < |tlb| then tlb[FirstInvalid(tlb) := page] else tlb[1..] + [page]
  }

  /** Valid entries come first, no page is there twice, and each copies its page-table entry. */
  ghost predicate TlbOk(tlb: seq<Entry>, table: seq<Entry>) {
    && (forall i, j :: 0 <= i < j < |tlb| && tlb[j].valid ==> tlb[i].valid)
    && (forall i, j :: 0 <= i < j < |tlb| && tlb[i].valid && tlb[j].valid ==> tlb[i].virtualPage != tlb[j].virtualPage)
    && (forall i :: 0 <= i < |tlb| && tlb[i].valid ==> Copies(tlb[i], table))
  }

  predicate Copies(e: Entry, table: seq<Entry>) {
    && 0 <= e.virtualPage < |table| && table[e.virtualPage].valid
    && e.physicalPage == table[e.virtualPage].physicalPage && e.readOnly == table[e.virtualPage].readOnly
  }

  /** Page v of an address space is described by its v-th entry. */
  ghost predicate TableOk(table: seq<Entry>) {
    forall v :: 0 <= v < |table| ==> table[v].virtualPage == v
  }

  /** The pages in the TLB, the one loaded longest ago first. */
  function Live(tlb: seq<Entry>): seq<int> {
    if tlb == [] then []
    else (if tlb[0].valid then [tlb[0].virtualPage] else []) + Live(tlb[1..])
  }

  lemma {:induction false} LiveConcat(a: seq<Entry>, b: seq<Entry>)
    ensures Live(a + b) == Live(a) + Live(b)
  {
    if a == [] {
      assert a + b == b;
    } else {
      assert (a + b)[1..] == a[1..] + b && (a + b)[0] == a[0];
      assert Live(a + b) == (if a[0].valid then [a[0].virtualPage] else []) + Live(a[1..] + b);
      LiveConcat(a[1..], b);
      hide Live;
    }
  }

  lemma {:induction false} LiveNothing(a: seq<Entry>)
    requires forall i :: 0 <= i < |a| ==> !a[i].valid
    ensures Live(a) == []
  {
    if a != [] { LiveNothing(a[1..]); }
  }

  /** The miss handler works as a bounded queue of pages: a new page goes behind the others, and the oldest leaves
      only when every slot is taken. */
  lemma FilledIsQueue(tlb: seq<Entry>, page: Entry)
    requires |tlb| > 0 && page.valid && forall i, j :: 0 <= i < j < |tlb| && tlb[j].valid ==> tlb[i].valid
    ensures Live(Filled(tlb, page)) ==
      (if FirstInvalid(tlb) < |tlb| then Live(tlb) else Live(tlb)[1..]) + [page.virtualPage]
    ensures FirstInvalid(tlb) == |tlb| ==> |Live(tlb)| > 0
  {
    LiveOne(page);
    if FirstInvalid(tlb) < |tlb| {
      FilledFree(tlb, FirstInvalid(tlb), page);
    } else {
      LiveConcat(tlb[1..], [page]);
    }
  }

  lemma LiveOne(page: Entry)
    requires page.valid
    ensures Live([page]) == [page.virtualPage]
  {
    assert [page][1..] == [];
  }

  lemma FilledFree(tlb: seq<Entry>, k: nat, page: Entry)
    requires k < |tlb| && page.valid && forall i :: k <= i < |tlb| ==> !tlb[i].valid
    ensures Live(tlb[k := page]) == Live(tlb) + [page.virtualPage]
  {
    LiveOne(page);
    LiveConcat(tlb[..k], tlb[k..]);
    LiveConcat(tlb[..k], [page] + tlb[k + 1..]);
    LiveConcat([page], tlb[k + 1..]);
    LiveNothing(tlb[k..]);
    LiveNothing(tlb[k + 1..]);
    hide Live;
    assert tlb == tlb[..k] + tlb[k..];
    assert tlb[k := page] == tlb[..k] + ([page] + tlb[k + 1..]);
  }

  lemma SameFilled(a: seq<Entry>, b: seq<Entry>, page: Entry)
    requires Same(a, b) && |a| > 0
    ensures Same(Filled(a, page), Filled(b, page))
  {
    FirstInvalidIs(b, FirstInvalid(a));
  }

  /** The entries that the next load leaves in the TLB. */
  function Staying(tlb: seq<Entry>): seq<Entry>
    requires |tlb| > 0
  {
    if FirstInvalid(tlb) < |tlb| then tlb else tlb[1..]
  }

  /** Whatever is loaded, even from beyond the page table: the TLB keeps agreeing with the page table if and only if
      the entry is not valid, or copies the page table and is not there already. */
  lemma FilledExact(tlb: seq<Entry>, table: seq<Entry>, page: Entry)
    requires |tlb| > 0 && TlbOk(tlb, table)
    ensures TlbOk(Filled(tlb, page), table) <==>
      !page.valid || (Copies(page, table) && !Present(Staying(tlb), page.virtualPage))
  {
    var k, after, stay := FirstInvalid(tlb), Filled(tlb, page), Staying(tlb);
    var at := if k < |tlb| then k else |tlb| - 1;
    assert after[at] == page;
    assert forall i :: 0 <= i < |tlb| && i != at ==> after[i] == stay[i];
    assert forall i :: at < i < |tlb| ==> !after[i].valid;
    if TlbOk(after, table) && page.valid {
      forall i: nat ensures !Hit(stay, i, page.virtualPage) {
        if i < |stay| && i != at { assert after[i] == stay[i]; }
      }
    }
    if !Present(stay, page.virtualPage) {
      forall i | 0 <= i < |stay| && stay[i].valid ensures stay[i].virtualPage != page.virtualPage {
        assert !Hit(stay, i, page.virtualPage);
      }
    }
  }

  /** Loading the entry of a page that is not there keeps the TLB in agreement with the page table. */
  lemma FilledOk(tlb: seq<Entry>, table: seq<Entry>, vpn: nat)
    requires |tlb| > 0 && TlbOk(tlb, table) && TableOk(table) && vpn < |table| && !Present(tlb, vpn)
    ensures TlbOk(Filled(tlb, table[vpn]), table)
    ensures table[vpn].valid ==> Present(Filled(tlb, table[vpn]), vpn)
  {
    var k, after := FirstInvalid(tlb), Filled(tlb, table[vpn]);
    assert forall i :: 0 <= i < |tlb| && tlb[i].valid ==> tlb[i].virtualPage != vpn by {
      forall i | 0 <= i < |tlb| && tlb[i].valid ensures tlb[i].virtualPage != vpn { assert !Hit(tlb, i, vpn); }
    }
    if k < |tlb| {
      assert forall i :: k < i < |tlb| ==> !tlb[i].valid;
      assert Hit(after, k, vpn) || !table[vpn].valid;
    } else {
      assert forall i :: 0 <= i < |tlb| - 1 ==> after[i] == tlb[i + 1];
      assert Hit(after, |tlb| - 1, vpn) || !table[vpn].valid;
    }
  }

  // ---------------------------------------------------------------------------
  // Memory

  /** The bytes at a place, read as a number by a host of either byte order. */
  function HostRead4(bs: seq<Byte>, big: bool): Word
    requires |bs| == 4
  {
    if big then WordOf(bs[3], bs[2], bs[1], bs[0]) else WordOf(bs[0], bs[1], bs[2], bs[3])
  }

  function HostWrite4(w: Word, big: bool): (bs: seq<Byte>)
    ensures |bs| == 4 && HostRead4(bs, big) == w
  {
    var bs := WordBytes(w);
    if big then [bs[3], bs[2], bs[1], bs[0]] else bs
  }

  type Half = h: int | 0 <= h < 65536

  function Pair(low: int, high: int): int {
    low + 256 * high
  }

  function HostRead2(bs: seq<Byte>, big: bool): Half
    requires |bs| == 2
  {
    if big then Pair(bs[1], bs[0]) else Pair(bs[0], bs[1])
  }

  function HostWrite2(h: Half, big: bool): (bs: seq<Byte>)
    ensures |bs| == 2 && HostRead2(bs, big) == h
  {
    if big then [h / 256, h % 256] else [h % 256, h / 256]
  }

  /** The shifts and masks of WordToHost on a big-endian host. */
  function WordToHost(w: Word, big: bool): (r: Word)
    ensures forall bs: seq<Byte> :: |bs| == 4 && HostRead4(bs, big) == w ==> r == WordOf(bs[0], bs[1], bs[2], bs[3])
  {
    if !big then w
    else
      var r := w / 16777216 + (w / 65536 % 256) * 256 + (w / 256 % 256) * 65536 + (w % 256) * 16777216;
      assert forall bs: seq<Byte> :: |bs| == 4 && HostRead4(bs, true) == w ==>
        r == WordOf(bs[0], bs[1], bs[2], bs[3]) by {
        forall bs: seq<Byte> | |bs| == 4 && HostRead4(bs, true) == w ensures r == WordOf(bs[0], bs[1], bs[2], bs[3]) {
          SwapBytes(bs[3], bs[2], bs[1], bs[0]);
        }
      }
      r
  }

  lemma SwapBytes(b0: Byte, b1: Byte, b2: Byte, b3: Byte)
    ensures var w := WordOf(b0, b1, b2, b3);
      w % 256 == b0 && w / 256 % 256 == b1 && w / 65536 % 256 == b2 && w / 16777216 == b3
  {
    var w := WordOf(b0, b1, b2, b3);
    assert w / 256 == b1 + 256 * b2 + 65536 * b3;
    assert w / 65536 == b2 + 256 * b3;
  }

  function ShortToHost(h: Half, big: bool): (r: Half)
    ensures forall bs: seq<Byte> :: |bs| == 2 && HostRead2(bs, big) == h ==> r == Pair(bs[0], bs[1])
  {
    if !big then h else (h % 256) * 256 + h / 256
  }

  predicate LegalSize(size: int) {
    size == 1 || size == 2 || size == 4
  }

  /** The char at an address, widened to int: chars are signed. */
  function SignExtend(b: int): int {
    if b < 128 then b else b - 256
  }

  /** What ReadMem makes of the bytes at a physical address. */
  function Loaded(mem: seq<Byte>, at: nat, size: int, big: bool): int
    requires LegalSize(size) && at + size <= |mem|
  {
    if size == 1 then SignExtend(mem[at])
    else if size == 2 then ShortToHost(HostRead2(mem[at..at + 2], big), big)
    else ToInt(WordToHost(HostRead4(mem[at..at + 4], big), big))
  }

  /** What WriteMem puts there. */
  function StoredBytes(value: Int32, size: int, big: bool): (bs: seq<Byte>)
    requires LegalSize(size)
    ensures |bs| == size
  {
    if size == 1 then [FromInt(value) % 256]
    else if size == 2 then HostWrite2(ShortToHost(FromInt(value) % 65536, big), big)
    else HostWrite4(WordToHost(FromInt(value), big), big)
  }

  function Stored(mem: seq<Byte>, at: nat, value: Int32, size: int, big: bool): (r: seq<Byte>)
    requires LegalSize(size) && at + size <= |mem|
    ensures |r| == |mem|
  {
    mem[..at] + StoredBytes(value, size, big) + mem[at + size..]
  }

  /** The value as far as an access of that size can hold it: one byte with its sign, two without, or all. */
  function Clipped(value: Int32, size: int): int {
    if size == 1 then SignExtend(FromInt(value) % 256)
    else if size == 2 then FromInt(value) % 65536
    else value
  }

  /** Exactly these values come back as they were: a byte from -128 to 127, a halfword from 0 to 65535, any word. */
  lemma WhatFits(value: Int32, size: int)
    requires LegalSize(size)
    ensures Clipped(value, size) == value <==>
      size == 4 || (size == 1 && -128 <= value < 128) || (size == 2 && 0 <= value < 65536)
    ensures size == 1 ==> -128 <= Clipped(value, size) < 128 && (value - Clipped(value, size)) % 256 == 0
    ensures size == 2 ==> 0 <= Clipped(value, size) < 65536 && (value - Clipped(value, size)) % 65536 == 0
  {
    var u := FromInt(value);
    assert u == value || u == value + 65536 * 65536;
    var q, r := u / 256, u % 256;
    assert value - r == 256 * (if u == value then q else q - 16777216);
    var q2, r2 := u / 65536, u % 65536;
    assert value - r2 == 65536 * (if u == value then q2 else q2 - 65536);
  }

  lemma SwapTwice(w: Word, big: bool)
    ensures WordToHost(WordToHost(w, big), big) == w
  {
    var bs := HostWrite4(w, big);
    var swapped := [bs[3], bs[2], bs[1], bs[0]];
    assert HostRead4(bs, big) == w;
    assert big ==> WordToHost(w, big) == HostRead4(swapped, big);
  }

  /** Memory holds numbers with the low byte first, whatever the host's byte order. */
  lemma LittleEndian(value: Int32, size: int, big: bool)
    requires LegalSize(size)
    ensures StoredBytes(value, size, big) == WordBytes(FromInt(value))[..size]
  {
    var u := FromInt(value);
    if size == 4 {
      WordLittleEndian(u, big);
    } else if size == 2 {
      ShortLittleEndian(u, big);
    }
  }

  lemma WordLittleEndian(u: Word, big: bool)
    ensures HostWrite4(WordToHost(u, big), big) == WordBytes(u)
  {
    hide WordToHost;
    var bs := HostWrite4(WordToHost(u, big), big);
    SwapTwice(u, big);
    assert u == WordOf(bs[0], bs[1], bs[2], bs[3]);
    hide HostWrite4, HostRead4;
    SwapBytes(bs[0], bs[1], bs[2], bs[3]);
  }

  lemma ShortLittleEndian(u: Word, big: bool)
    ensures HostWrite2(ShortToHost(u % 65536, big), big) == WordBytes(u)[..2]
  {
    var h := u % 65536;
    LowBytes(u / 65536, h / 256, h % 256);
    ShortSwapped(h, big);
    hide HostWrite2, ShortToHost;
  }

  lemma LowBytes(a: nat, b1: Byte, b0: Byte)
    ensures var u := 65536 * a + 256 * b1 + b0; u % 256 == b0 && u / 256 % 256 == b1
  {
    var u := 65536 * a + 256 * b1 + b0;
    assert u == 256 * (256 * a + b1) + b0;
    assert u / 256 == 256 * a + b1;
  }

  lemma ShortSwapped(h: Half, big: bool)
    ensures HostWrite2(ShortToHost(h, big), big) == [h % 256, h / 256]
  {
    if big {
      var r := ShortToHost(h, big);
      LowBytes(0, h % 256, h / 256);
      assert r == 256 * (h % 256) + h / 256;
    }
  }

  /** A load from where a store went gives the stored value back, on hosts of either byte order. */
  lemma LoadAfterStore(mem: seq<Byte>, at: nat, value: Int32, size: int, big: bool)
    requires LegalSize(size) && at + size <= |mem|
    ensures Loaded(Stored(mem, at, value, size, big), at, size, big) == Clipped(value, size)
  {
    var mem', bs := Stored(mem, at, value, size, big), StoredBytes(value, size, big);
    assert mem'[at..at + size] == bs && mem'[at] == bs[0];
    LoadBytes(value, size, big);
    hide StoredBytes, Stored, ShortToHost, WordToHost, HostRead2, HostRead4, Clipped;
  }

  lemma LoadBytes(value: Int32, size: int, big: bool)
    requires LegalSize(size)
    ensures Loaded(StoredBytes(value, size, big), 0, size, big) == Clipped(value, size)
  {
    hide WordToHost, ShortToHost, HostRead2, HostRead4, HostWrite2, HostWrite4, FromInt;
    var bs := StoredBytes(value, size, big);
    if size == 4 {
      SwapTwice(FromInt(value), big);
      assert bs[0..4] == bs;
    } else if size == 2 {
      ShortTwice(FromInt(value) % 65536, big);
      assert bs[0..2] == bs;
    }
  }

  lemma ShortTwice(h: Half, big: bool)
    ensures ShortToHost(ShortToHost(h, big), big) == h
  {
    if big {
      LowBytes(0, h % 256, h / 256);
    }
  }

  /** An access elsewhere is not affected by it. */
  lemma LoadElsewhere(mem: seq<Byte>, at: nat, value: Int32, size: int, from: nat, size': int, big: bool)
    requires LegalSize(size) && at + size <= |mem| && LegalSize(size') && from + size' <= |mem|
    requires from + size' <= at || at + size <= from
    ensures Loaded(Stored(mem, at, value, size, big), from, size', big) == Loaded(mem, from, size', big)
  {
    hide StoredBytes;
    var mem' := Stored(mem, at, value, size, big);
    forall k | from <= k < from + size' ensures mem'[k] == mem[k] {
    }
    assert mem'[from..from + size'] == mem[from..from + size'];
    assert size' == 2 ==> mem'[from..from + 2] == mem[from..from + 2];
    assert size' == 4 ==> mem'[from..from + 4] == mem[from..from + 4];
  }

  /** An aligned access stays within its page, and so within memory. */
  lemma AlignedStaysInPage(virtAddr: Int32, size: int, frame: int)
    requires LegalSize(size) && !Misaligned(virtAddr, size) && 0 <= frame < NUM_PHYS_PAGES
    ensures Offset(virtAddr) + size <= PAGE_SIZE
    ensures 0 <= frame * PAGE_SIZE + Offset(virtAddr) && frame * PAGE_SIZE + Offset(virtAddr) + size <= MEMORY_SIZE
  {
    OffsetAligned(FromInt(virtAddr));
  }

  lemma OffsetAligned(u: nat)
    ensures u % 128 % 4 == u % 4 && u % 128 % 2 == u % 2
  {
    var q, r := u / 128, u % 128;
    RemainderOfFour(32 * q + r / 4, r % 4);
    RemainderOfTwo(64 * q + r / 2, r % 2);
  }

  lemma RemainderOfFour(k: nat, r: nat)
    requires r < 4
    ensures (4 * k + r) % 4 == r
  {
  }

  lemma RemainderOfTwo(k: nat, r: nat)
    requires r < 2
    ensures (2 * k + r) % 2 == r
  {
  }

  // ---------------------------------------------------------------------------

  /** What the page table alone would answer for a page that is valid in it. */
  function TableAnswer(e: Entry, virtAddr: Int32, size: int, writing: bool): Exception {
    if Misaligned(virtAddr, size) then AddressError
    else if e.readOnly && writing then ReadOnlyError
    else if !(0 <= e.physicalPage < NUM_PHYS_PAGES) then BusError
    else NoException
  }

  /** The memory beyond the page table is whatever it is; the entry read there is given as beyond. */
  function EntryFor(table: seq<Entry>, virtAddr: Int32, beyond: Entry): Entry {
    if Vpn(virtAddr) < |table| then table[Vpn(virtAddr)] else beyond
  }

  const NO_ENTRY := Entry(0, 0, false, false, false, false)

  function Phys(table: seq<Entry>, virtAddr: Int32): int {
    if Vpn(virtAddr) < |table| then table[Vpn(virtAddr)].physicalPage * PAGE_SIZE + Offset(virtAddr) else -1
  }

  /** When the page table answers what: a misaligned address before a write to a read-only page, and that before a
      frame that memory does not have. */
  lemma TableAnswerIs(e: Entry, virtAddr: Int32, size: int, writing: bool)
    requires LegalSize(size)
    ensures var r, aligned := TableAnswer(e, virtAddr, size, writing), FromInt(virtAddr) % size == 0;
      && (r == AddressError <==> !aligned)
      && (r == ReadOnlyError <==> aligned && e.readOnly && writing)
      && (r == BusError <==> aligned && !(e.readOnly && writing) && !(0 <= e.physicalPage < 32))
      && (r == NoException <==> aligned && !(e.readOnly && writing) && 0 <= e.physicalPage < 32)
  {
  }

  /** The byte of a page stays at its place in the page's frame. */
  lemma ByteKeepsItsPlace(table: seq<Entry>, virtAddr: Int32)
    requires FromInt(virtAddr) / 128 < |table|
    ensures Phys(table, virtAddr) / 128 == table[FromInt(virtAddr) / 128].physicalPage
    ensures Phys(table, virtAddr) % 128 == FromInt(virtAddr) % 128
  {
    FrameAndOffset(table[FromInt(virtAddr) / 128].physicalPage, FromInt(virtAddr) % 128);
  }

  lemma FrameAndOffset(frame: int, offset: nat)
    requires offset < 128
    ensures (frame * 128 + offset) / 128 == frame && (frame * 128 + offset) % 128 == offset
  {
  }

  /** No two pages share a frame, and every frame is there. */
  ghost predicate FramesApart(table: seq<Entry>) {
    && (forall v :: 0 <= v < |table| ==> 0 <= table[v].physicalPage < NUM_PHYS_PAGES)
    && (forall v, w :: 0 <= v < w < |table| ==> table[v].physicalPage != table[w].physicalPage)
  }

  /** Aligned accesses that do not overlap in the program's addresses do not overlap in memory. */
  lemma StayApart(table: seq<Entry>, a: Int32, size: int, b: Int32, size': int)
    requires FramesApart(table) && LegalSize(size) && LegalSize(size')
    requires FromInt(a) / 128 < |table| && FromInt(b) / 128 < |table|
    requires FromInt(a) % size == 0 && FromInt(b) % size' == 0
    requires FromInt(b) + size' <= FromInt(a) || FromInt(a) + size <= FromInt(b)
    ensures 0 <= Phys(table, a) && Phys(table, a) + size <= MEMORY_SIZE
    ensures 0 <= Phys(table, b) && Phys(table, b) + size' <= MEMORY_SIZE
    ensures Phys(table, b) + size' <= Phys(table, a) || Phys(table, a) + size <= Phys(table, b)
  {
    var p, q := table[FromInt(a) / 128].physicalPage, table[FromInt(b) / 128].physicalPage;
    InOnePage(table, a, size);
    InOnePage(table, b, size');
    hide Phys, FramesApart;
    if FromInt(a) / 128 != FromInt(b) / 128 { assert p != q by { Apart(table, FromInt(a) / 128, FromInt(b) / 128); } }
  }

  lemma Apart(table: seq<Entry>, v: nat, w: nat)
    requires FramesApart(table) && v < |table| && w < |table| && v != w
    ensures table[v].physicalPage != table[w].physicalPage
  {
  }

  lemma InOnePage(table: seq<Entry>, a: Int32, size: int)
    requires FramesApart(table) && LegalSize(size) && FromInt(a) / 128 < |table| && FromInt(a) % size == 0
    ensures var v := FromInt(a) / 128;
      && Phys(table, a) - 128 * table[v].physicalPage == FromInt(a) - 128 * v
      && 0 <= FromInt(a) - 128 * v && FromInt(a) - 128 * v + size <= 128
      && 0 <= table[v].physicalPage < NUM_PHYS_PAGES
  {
    AlignedStaysInPage(a, size, table[FromInt(a) / 128].physicalPage);
  }

  /** So the pages of a program are a memory of their own: a store is seen by every later load of that address, and by
      no load of other addresses. */
  lemma StoreElsewhere(table: seq<Entry>, mem: seq<Byte>, a: Int32, size: int, value: Int32,
                       b: Int32, size': int, big: bool)
    requires FramesApart(table) && LegalSize(size) && LegalSize(size') && |mem| == MEMORY_SIZE
    requires FromInt(a) / 128 < |table| && FromInt(b) / 128 < |table|
    requires FromInt(a) % size == 0 && FromInt(b) % size' == 0
    requires FromInt(b) + size' <= FromInt(a) || FromInt(a) + size <= FromInt(b)
    ensures 0 <= Phys(table, a) && Phys(table, a) + size <= MEMORY_SIZE
    ensures 0 <= Phys(table, b) && Phys(table, b) + size' <= MEMORY_SIZE
    ensures Loaded(Stored(mem, Phys(table, a), value, size, big), Phys(table, b), size', big) ==
      Loaded(mem, Phys(table, b), size', big)
  {
    hide Phys, FramesApart, Loaded, Stored;
    StayApart(table, a, size, b, size');
    LoadElsewhere(mem, Phys(table, a), value, size, Phys(table, b), size', big);
  }

  /** A successful access marks the entry it went through as used, and a write marks it as dirty; nothing else in the
      TLB changes. */
  ghost predicate Touched(before: seq<Entry>, after: seq<Entry>, vpn: int, done: bool, writing: bool) {
    && |after| == |before|
    && forall j :: 0 <= j < |before| ==>
         var through := done && Hit(before, j, vpn);
         && after[j].use == (before[j].use || through)
         && after[j].dirty == (before[j].dirty || (through && writing))
         && after[j] == before[j].(use := after[j].use, dirty := after[j].dirty)
  }

  /** Setting the use and dirty bits of an entry. */
  lemma Marked(tlb: seq<Entry>, table: seq<Entry>, i: nat, writing: bool)
    requires TlbOk(tlb, table) && i < |tlb|
    ensures var tlb' := tlb[i := tlb[i].(use := true, dirty := writing || tlb[i].dirty)];
      && TlbOk(tlb', table) && Same(tlb', tlb) && Live(tlb') == Live(tlb)
      && (forall v :: Present(tlb', v) <==> Present(tlb, v))
      && (tlb[i].valid ==> Touched(tlb, tlb', tlb[i].virtualPage, true, writing))
  {
    var tlb' := tlb[i := tlb[i].(use := true, dirty := writing || tlb[i].dirty)];
    LiveSame(tlb, tlb');
    forall v ensures Present(tlb', v) <==> Present(tlb, v) {
      assert forall j: nat :: Hit(tlb', j, v) <==> Hit(tlb, j, v);
    }
  }

  lemma {:induction false} LiveSame(a: seq<Entry>, b: seq<Entry>)
    requires |a| == |b| && forall j :: 0 <= j < |a| ==> a[j].valid == b[j].valid && a[j].virtualPage == b[j].virtualPage
    ensures Live(a) == Live(b)
  {
    if a != [] { LiveSame(a[1..], b[1..]); }
  }

  // ---------------------------------------------------------------------------
  // Progress of one instruction: it fetches from page c and touches page d, and starts over after every miss

  ghost predicate Completes(tlb: seq<Entry>, c: Entry, d: Entry) {
    Present(tlb, c.virtualPage) && Present(tlb, d.virtualPage)
  }

  /** One attempt: the first page that is missing is loaded. */
  ghost function Attempted(tlb: seq<Entry>, c: Entry, d: Entry): seq<Entry>
    requires |tlb| > 0
  {
    if !Present(tlb, c.virtualPage) then Filled(tlb, c)
    else if !Present(tlb, d.virtualPage) then Filled(tlb, d)
    else tlb
  }

  /** The TLB after n attempts; once the instruction completes nothing changes. */
  ghost function AfterAttempts(tlb: seq<Entry>, c: Entry, d: Entry, n: nat): (r: seq<Entry>)
    requires |tlb| > 0
    ensures |r| == |tlb|
    decreases n
  {
    if n == 0 then tlb else AfterAttempts(Attempted(tlb, c, d), c, d, n - 1)
  }

  lemma PageLoaded(tlb: seq<Entry>, page: Entry)
    requires |tlb| > 0 && page.valid
    ensures Present(Filled(tlb, page), page.virtualPage)
    ensures |Filled(tlb, page)| == |tlb|
  {
    var k := FirstInvalid(tlb);
    assert Hit(Filled(tlb, page), if k < |tlb| then k else |tlb| - 1, page.virtualPage);
  }

  /** A page behind the first slot, or any page while there is room, survives the next load. */
  lemma PageSurvives(tlb: seq<Entry>, page: Entry, i: nat, v: int)
    requires |tlb| > 0 && Hit(tlb, i, v) && (i > 0 || FirstInvalid(tlb) < |tlb|)
    ensures Present(Filled(tlb, page), v)
  {
    assert Hit(Filled(tlb, page), if FirstInvalid(tlb) < |tlb| then i else i - 1, v);
  }

  /** A full TLB stays full, and has the two pages loaded last in its last two slots. */
  lemma TwoLoads(tlb: seq<Entry>, a: Entry, b: Entry)
    requires |tlb| >= 2 && FirstInvalid(tlb) == |tlb| && a.valid && b.valid
    ensures FirstInvalid(Filled(tlb, a)) == |tlb|
    ensures Present(Filled(Filled(tlb, a), b), a.virtualPage) && Present(Filled(Filled(tlb, a), b), b.virtualPage)
  {
    var t := Filled(tlb, a);
    FirstInvalidIs(t, |tlb|);
    assert Hit(t, |tlb| - 1, a.virtualPage);
    PageSurvives(t, b, |tlb| - 1, a.virtualPage);
    PageLoaded(t, b);
  }

  /** Both pages are missing and the only free slot is the first one, so that the second load pushes the first
      page out again. */
  ghost predicate Awkward(tlb: seq<Entry>, c: Entry, d: Entry) {
    && c.virtualPage != d.virtualPage
    && !Present(tlb, c.virtualPage) && !Present(tlb, d.virtualPage)
    && |tlb| > 0 && !tlb[0].valid && forall i :: 0 < i < |tlb| ==> tlb[i].valid
  }

  /** A page that is only in the first slot of a full TLB is pushed out by the next load. */
  lemma PushedOut(tlb: seq<Entry>, page: Entry, v: int)
    requires |tlb| > 0 && FirstInvalid(tlb) == |tlb| && page.virtualPage != v
    requires forall i: nat :: Hit(tlb, i, v) ==> i == 0
    ensures !Present(Filled(tlb, page), v)
  {
    forall i: nat ensures !Hit(Filled(tlb, page), i, v) {
      assert i < |tlb| - 1 ==> Filled(tlb, page)[i] == tlb[i + 1] && !Hit(tlb, i + 1, v);
    }
  }

  lemma BothMissing(tlb: seq<Entry>, c: Entry, d: Entry)
    requires |tlb| >= 2 && c.valid && d.valid && c.virtualPage != d.virtualPage
    requires !Present(tlb, c.virtualPage) && !Present(tlb, d.virtualPage)
    ensures !Present(Filled(tlb, c), d.virtualPage)
    ensures Present(Filled(tlb, c), c.virtualPage)
    ensures Present(Filled(Filled(tlb, c), d), d.virtualPage)
    ensures Present(Filled(Filled(tlb, c), d), c.virtualPage) <==> !Awkward(tlb, c, d)
  {
    var k := FirstInvalid(tlb);
    var slot := if k < |tlb| then k else |tlb| - 1;
    var t := Filled(tlb, c);
    PageLoaded(tlb, c);
    PageLoaded(t, d);
    forall i: nat ensures !Hit(t, i, d.virtualPage) {
      assert Hit(t, i, d.virtualPage) ==> Hit(tlb, if k < |tlb| then i else i + 1, d.virtualPage);
    }
    forall i: nat | i != slot ensures !Hit(t, i, c.virtualPage) {
      assert Hit(t, i, c.virtualPage) ==> Hit(tlb, if k < |tlb| then i else i + 1, c.virtualPage);
    }
    if slot > 0 || FirstInvalid(t) < |t| {
      PageSurvives(t, d, slot, c.virtualPage);
      if slot == 0 { assert !t[FirstInvalid(t)].valid && FirstInvalid(t) != 0; }
    } else {
      assert forall i :: 0 < i < |tlb| ==> tlb[i] == t[i];
      PushedOut(t, d, c.virtualPage);
    }
  }

  /** One page is there: loading the other may push it out, and loading it again brings both together. */
  lemma OneMissing(tlb: seq<Entry>, a: Entry, b: Entry)
    requires |tlb| >= 2 && a.valid && b.valid && Present(tlb, a.virtualPage) && !Present(tlb, b.virtualPage)
    ensures Present(Filled(tlb, b), b.virtualPage)
    ensures Present(Filled(tlb, b), a.virtualPage) ||
      (Present(Filled(Filled(tlb, b), a), a.virtualPage) && Present(Filled(Filled(tlb, b), a), b.virtualPage))
  {
    PageLoaded(tlb, b);
    var i :| Hit(tlb, i, a.virtualPage);
    if i > 0 || FirstInvalid(tlb) < |tlb| {
      PageSurvives(tlb, b, i, a.virtualPage);
    } else {
      TwoLoads(tlb, b, a);
    }
  }

  lemma Unfold(tlb: seq<Entry>, c: Entry, d: Entry)
    requires |tlb| > 0
    ensures var t1 := Attempted(tlb, c, d); var t2 := Attempted(t1, c, d);
      && |t1| == |t2| == |tlb|
      && AfterAttempts(tlb, c, d, 2) == t2 && AfterAttempts(tlb, c, d, 3) == Attempted(t2, c, d)
  {
    var t1 := Attempted(tlb, c, d);
    var t2 := Attempted(t1, c, d);
    assert AfterAttempts(t2, c, d, 0) == t2;
    assert AfterAttempts(t1, c, d, 1) == t2;
    assert AfterAttempts(Attempted(t2, c, d), c, d, 0) == Attempted(t2, c, d);
    assert AfterAttempts(t2, c, d, 1) == Attempted(t2, c, d);
    assert AfterAttempts(t1, c, d, 2) == Attempted(t2, c, d);
  }

  /** From any TLB state with at least two slots, at most two misses are met exactly when the state is not the
      awkward one; three are always enough. */
  lemma Progress(tlb: seq<Entry>, c: Entry, d: Entry)
    requires |tlb| >= 2 && c.valid && d.valid && (c.virtualPage == d.virtualPage ==> c == d)
    ensures Completes(AfterAttempts(tlb, c, d, 2), c, d) <==> !Awkward(tlb, c, d)
    ensures Completes(AfterAttempts(tlb, c, d, 3), c, d)
  {
    Unfold(tlb, c, d);
    hide AfterAttempts, Filled;
    if !Present(tlb, c.virtualPage) {
      PageLoaded(tlb, c);
      if c == d {
      } else if !Present(tlb, d.virtualPage) {
        BothMissing(tlb, c, d);
        if Awkward(tlb, c, d) { AwkwardThird(tlb, c, d); }
      } else {
        OneMissing(tlb, d, c);
      }
    } else if !Present(tlb, d.virtualPage) {
      OneMissing(tlb, c, d);
    }
  }

  lemma AwkwardThird(tlb: seq<Entry>, c: Entry, d: Entry)
    requires |tlb| >= 2 && c.valid && d.valid && Awkward(tlb, c, d)
    ensures var t := Filled(Filled(Filled(tlb, c), d), c); Present(t, c.virtualPage) && Present(t, d.virtualPage)
  {
    var t := Filled(tlb, c);
    FirstInvalidIs(tlb, 0);
    FirstInvalidIs(t, |t|);
    TwoLoads(t, d, c);
  }

  /** A TLB that the miss handler and the flushes alone have filled is never awkward. */
  lemma AtMostTwoMisses(tlb: seq<Entry>, table: seq<Entry>, c: nat, d: nat)
    requires |tlb| >= 2 && TlbOk(tlb, table) && TableOk(table)
    requires c < |table| && d < |table| && table[c].valid && table[d].valid
    ensures Completes(AfterAttempts(tlb, table[c], table[d], 2), table[c], table[d])
  {
    assert tlb[1].valid ==> tlb[0].valid;
    Progress(tlb, table[c], table[d]);
  }

  /** The awkward state does cost a third miss: two slots, the first one free. */
  lemma ThreeMisses()
    ensures var page := (v: int) => Entry(v, v, true, false, false, false);
      var tlb := [Entry(0, 0, false, false, false, false), page(7)];
      !Completes(AfterAttempts(tlb, page(1), page(2), 2), page(1), page(2))
  {
    var page := (v: int) => Entry(v, v, true, false, false, false);
    var tlb := [Entry(0, 0, false, false, false, false), page(7)];
    assert forall i: nat :: !Hit(tlb, i, 1) && !Hit(tlb, i, 2);
    Progress(tlb, page(1), page(2));
  }

  // ---------------------------------------------------------------------------

  class Machine {
    const tlb: array<Entry>
    const mainMemory: array<Byte>
    const bigEndianHost: bool
    var pageTable: seq<Entry>

    ghost predicate Valid()
      reads this, tlb
    {
      && tlb.Length > 0 && mainMemory.Length == MEMORY_SIZE && tlb as object != mainMemory
      && TableOk(pageTable) && TlbOk(tlb[..], pageTable)
    }

    /** A machine that is about to run an address space with the given page table. */
    constructor (tlbSize: nat, table: seq<Entry>, big: bool)
      requires tlbSize > 0 && TableOk(table)
      ensures Valid() && tlb.Length == tlbSize && pageTable == table && fresh(tlb) && fresh(mainMemory)
      ensures bigEndianHost == big && forall i :: 0 <= i < tlbSize ==> tlb[i] == NO_ENTRY
      ensures forall i :: 0 <= i < MEMORY_SIZE ==> mainMemory[i] == 0
    {
      tlb := new Entry[tlbSize](_ => NO_ENTRY);
      mainMemory := new Byte[MEMORY_SIZE](_ => 0);
      bigEndianHost := big;
      pageTable := table;
    }

    /** Machine::Translate with a TLB: a hit gives what the page table would give, a miss a page fault. */
    method Translate(virtAddr: Int32, size: int, writing: bool) returns (e: Exception, physAddr: int)
      requires Valid() && LegalSize(size)
      modifies tlb
      ensures Valid() && Live(tlb[..]) == old(Live(tlb[..]))
      ensures Same(tlb[..], old(tlb[..]))
      ensures Touched(old(tlb[..]), tlb[..], Vpn(virtAddr), e == NoException, writing)
      ensures forall v :: Present(tlb[..], v) <==> old(Present(tlb[..], v))
      ensures e == PageFault <==> !Misaligned(virtAddr, size) && !old(Present(tlb[..], Vpn(virtAddr)))
      ensures e != PageFault && e != AddressError ==> Vpn(virtAddr) < |pageTable|
      ensures e != PageFault && Vpn(virtAddr) < |pageTable| ==>
        e == TableAnswer(pageTable[Vpn(virtAddr)], virtAddr, size, writing)
      ensures e == NoException ==>
        physAddr == Phys(pageTable, virtAddr) && 0 <= physAddr && physAddr + size <= MEMORY_SIZE
    {
      physAddr := -1;
      if Misaligned(virtAddr, size) {
        return AddressError, -1;
      }
      var vpn, offset := Vpn(virtAddr), Offset(virtAddr);
      var i := FindSlot(vpn);
      if i == tlb.Length {
        return PageFault, -1;
      }
      assert Hit(tlb[..], i, vpn);
      assert Copies(tlb[..][i], pageTable);
      if tlb[i].readOnly && writing {
        return ReadOnlyError, -1;
      }
      var pageFrame := tlb[i].physicalPage;
      if !(0 <= pageFrame < NUM_PHYS_PAGES) {
        return BusError, -1;
      }
      AlignedStaysInPage(virtAddr, size, pageFrame);
      Marked(tlb[..], pageTable, i, writing);
      tlb[i] := tlb[i].(use := true, dirty := writing || tlb[i].dirty);
      assert tlb[..] == old(tlb[..])[i := old(tlb[i]).(use := true, dirty := writing || old(tlb[i]).dirty)];
      return NoException, pageFrame * PAGE_SIZE + offset;
    }

    /** The slot that holds vpn, or the size of the TLB. */
    method FindSlot(vpn: nat) returns (i: nat)
      ensures i <= tlb.Length
      ensures i < tlb.Length ==> Hit(tlb[..], i, vpn)
      ensures i == tlb.Length ==> !Present(tlb[..], vpn)
    {
      i := 0;
      while i < tlb.Length && !(tlb[i].valid && tlb[i].virtualPage == vpn)
        invariant i <= tlb.Length
        invariant forall j :: 0 <= j < i ==> !Hit(tlb[..], j, vpn)
      {
        i := i + 1;
      }
    }

    /** TLBAlgoFIFO. */
    method LoadEntry(page: Entry)
      requires tlb.Length > 0
      modifies tlb
      ensures tlb[..] == Filled(old(tlb[..]), page)
    {
      var i := 0;
      while i < tlb.Length && tlb[i].valid
        invariant i <= tlb.Length
        invariant forall j :: 0 <= j < i ==> tlb[j].valid
      {
        i := i + 1;
      }
      FirstInvalidIs(tlb[..], i);
      if i == tlb.Length {
        i := tlb.Length - 1;
        PushOut();
      }
      tlb[i] := page;
    }

    /** Moves every entry but the first one slot down. */
    method PushOut()
      requires tlb.Length > 0
      modifies tlb
      ensures tlb[..tlb.Length - 1] == old(tlb[1..])
    {
      for k := 0 to tlb.Length - 1
        invariant forall j :: 0 <= j < k ==> tlb[j] == old(tlb[j + 1])
        invariant forall j :: k <= j < tlb.Length ==> tlb[j] == old(tlb[j])
      {
        tlb[k] := tlb[k + 1];
      }
    }

    /** The handler for a page that is not in the TLB, after which the access can be made again. It does not check the
        page number against the size of the page table. */
    method TLBMissHandler(virtAddr: Int32, beyond: Entry)
      requires Valid() && !Present(tlb[..], Vpn(virtAddr))
      modifies tlb
      ensures tlb[..] == Filled(old(tlb[..]), EntryFor(pageTable, virtAddr, beyond))
      ensures Vpn(virtAddr) < |pageTable| ==>
        Valid() && (pageTable[Vpn(virtAddr)].valid ==> Present(tlb[..], Vpn(virtAddr)))
      ensures Vpn(virtAddr) >= |pageTable| ==>
        (Valid() <==>
          (beyond.valid ==> Copies(beyond, pageTable) && !Present(Staying(old(tlb[..])), beyond.virtualPage)))
    {
      if Vpn(virtAddr) < |pageTable| {
        FilledOk(tlb[..], pageTable, Vpn(virtAddr));
      } else {
        FilledExact(tlb[..], pageTable, beyond);
      }
      LoadEntry(EntryFor(pageTable, virtAddr, beyond));
    }

    /** AddrSpace::SaveState of the space that stops and RestoreState of the one that starts. */
    method SwitchSpace(table: seq<Entry>)
      requires Valid() && TableOk(table)
      modifies this, tlb
      ensures Valid() && pageTable == table && Live(tlb[..]) == []
    {
      for i := 0 to tlb.Length
        invariant forall j :: 0 <= j < i ==> !tlb[j].valid
      {
        tlb[i] := tlb[i].(valid := false);
      }
      LiveNothing(tlb[..]);
      pageTable := table;
    }

    method ReadMem(addr: Int32, size: int) returns (e: Exception, value: int)
      requires Valid() && LegalSize(size)
      modifies tlb
      ensures Valid() && Live(tlb[..]) == old(Live(tlb[..]))
      ensures Same(tlb[..], old(tlb[..]))
      ensures Touched(old(tlb[..]), tlb[..], Vpn(addr), e == NoException, false)
      ensures forall v :: Present(tlb[..], v) <==> old(Present(tlb[..], v))
      ensures e != PageFault && Vpn(addr) < |pageTable| ==> e == TableAnswer(pageTable[Vpn(addr)], addr, size, false)
      ensures e == PageFault <==> !Misaligned(addr, size) && !old(Present(tlb[..], Vpn(addr)))
      ensures e == NoException ==> 0 <= Phys(pageTable, addr) && Phys(pageTable, addr) + size <= MEMORY_SIZE
      ensures e == NoException ==> value == Loaded(mainMemory[..], Phys(pageTable, addr), size, bigEndianHost)
    {
      var physicalAddress;
      value := 0;
      e, physicalAddress := Translate(addr, size, false);
      if e == NoException {
        value := Loaded(mainMemory[..], physicalAddress, size, bigEndianHost);
      }
    }

    method WriteMem(addr: Int32, size: int, value: Int32) returns (e: Exception)
      requires Valid() && LegalSize(size)
      modifies tlb, mainMemory
      ensures Valid() && Live(tlb[..]) == old(Live(tlb[..]))
      ensures Same(tlb[..], old(tlb[..]))
      ensures Touched(old(tlb[..]), tlb[..], Vpn(addr), e == NoException, true)
      ensures forall v :: Present(tlb[..], v) <==> old(Present(tlb[..], v))
      ensures e != PageFault && Vpn(addr) < |pageTable| ==> e == TableAnswer(pageTable[Vpn(addr)], addr, size, true)
      ensures e == PageFault <==> !Misaligned(addr, size) && !old(Present(tlb[..], Vpn(addr)))
      ensures e != NoException ==> mainMemory[..] == old(mainMemory[..])
      ensures e == NoException ==> 0 <= Phys(pageTable, addr) && Phys(pageTable, addr) + size <= MEMORY_SIZE
      ensures e == NoException ==>
        mainMemory[..] == Stored(old(mainMemory[..]), Phys(pageTable, addr), value, size, bigEndianHost)
    {
      var physicalAddress;
      e, physicalAddress := Translate(addr, size, true);
      if e == NoException {
        Poke(physicalAddress, StoredBytes(value, size, bigEndianHost));
      }
    }

    method Poke(at: nat, bytes: seq<Byte>)
      requires at + |bytes| <= mainMemory.Length
      modifies mainMemory
      ensures mainMemory[..] == old(mainMemory[..at]) + bytes + old(mainMemory[at + |bytes|..])
    {
      ghost var before := mainMemory[..];
      for k := 0 to |bytes|
        invariant mainMemory[..] == before[..at] + bytes[..k] + before[at + k..]
      {
        CopyStep(before, at, bytes, k);
        mainMemory[at + k] := bytes[k];
      }
    }
  }

  /** AddrSpace's page table: page i in the i-th frame handed out. */
  method BuildTable(numPages: nat, frames: seq<int>) returns (table: array<Entry>)
    requires |frames| == numPages
    ensures table.Length == numPages && TableOk(table[..])
    ensures forall v :: 0 <= v < numPages ==> table[v].valid && !table[v].readOnly && table[v].physicalPage == frames[v]
  {
    table := new Entry[numPages];
    for i := 0 to numPages
      invariant forall v :: 0 <= v < i ==> table[v] == Entry(v, frames[v], true, false, false, false)
    {
      table[i] := Entry(i, frames[i], true, false, false, false);
    }
  }

  /** A store and a later load of the same address, with the misses they meet, and with the entry of another page
      loaded in between, which may push out the one just used. */
  method StoreThenLoad(m: Machine, addr: Int32, size: int, value: Int32, other: Int32) returns (loaded: int)
    requires m.Valid() && LegalSize(size) && !Misaligned(addr, size)
    requires Vpn(addr) < |m.pageTable| && m.pageTable[Vpn(addr)].valid && !m.pageTable[Vpn(addr)].readOnly
    requires 0 <= m.pageTable[Vpn(addr)].physicalPage < NUM_PHYS_PAGES
    requires Vpn(other) < |m.pageTable|
    modifies m.tlb, m.mainMemory
    ensures m.Valid() && loaded == Clipped(value, size)
  {
    hide TlbOk, TableOk, Filled, Live, Loaded, Stored, Clipped, Present;
    var e := m.WriteMem(addr, size, value);
    if e == PageFault {
      m.TLBMissHandler(addr, NO_ENTRY);
      e := m.WriteMem(addr, size, value);
    }
    var slot := m.FindSlot(Vpn(other));
    if slot == m.tlb.Length {
      m.TLBMissHandler(other, NO_ENTRY);
    }
    e, loaded := m.ReadMem(addr, size);
    if e == PageFault {
      m.TLBMissHandler(addr, NO_ENTRY);
      e, loaded := m.ReadMem(addr, size);
    }
    LoadAfterStore(old(m.mainMemory[..]), Phys(m.pageTable, addr), value, size, m.bigEndianHost);
  }

  /** The missing check matters: a program with one page reads beyond it, and what lies behind the page table in memory
      looks like a valid entry. The access misses, the handler loads that entry, and the TLB then maps a page that the
      program does not have. */
  method MissBeyondTable(big: bool) returns (m: Machine, e: Exception)
    ensures |m.pageTable| == 1 && e == PageFault
    ensures Hit(m.tlb[..], 0, 1) && m.tlb[0].physicalPage == 5 && !m.Valid()
  {
    var table := [Entry(0, 3, true, false, false, false)];
    m := new Machine(4, table, big);
    var address: Int32 := PAGE_SIZE;
    assert Vpn(address) == 1;
    assert forall i: nat :: !Hit(m.tlb[..], i, 1);
    var loaded;
    e, loaded := m.ReadMem(address, 4);
    var beyond := Entry(1, 5, true, false, false, false);
    m.TLBMissHandler(address, beyond);
    assert !Copies(beyond, m.pageTable);
  }

  /** The attempts made so far, one more after each miss. */
  lemma {:induction false} AttemptsSnoc(tlb: seq<Entry>, c: Entry, d: Entry, n: nat)
    requires |tlb| > 0
    ensures AfterAttempts(tlb, c, d, n + 1) == Attempted(AfterAttempts(tlb, c, d, n), c, d)
    decreases n
  {
    if n > 0 { AttemptsSnoc(Attempted(tlb, c, d), c, d, n - 1); }
  }

  lemma SameAttempted(a: seq<Entry>, b: seq<Entry>, c: Entry, d: Entry)
    requires Same(a, b) && |a| > 0
    ensures Same(Attempted(a, c, d), Attempted(b, c, d))
  {
    SamePresent(a, b, c.virtualPage);
    SamePresent(a, b, d.virtualPage);
    SameFilled(a, b, c);
    SameFilled(a, b, d);
  }

  /** After n misses the machine's TLB is the one of n attempts, apart from the use and dirty bits. */
  ghost predicate OnCourse(now: seq<Entry>, start: seq<Entry>, c: Entry, d: Entry, n: nat) {
    |start| > 0 && Same(now, AfterAttempts(start, c, d, n))
  }

  lemma OneMoreMiss(now: seq<Entry>, start: seq<Entry>, c: Entry, d: Entry, n: nat)
    requires OnCourse(now, start, c, d, n) && |now| > 0
    ensures OnCourse(Attempted(now, c, d), start, c, d, n + 1)
  {
    AttemptsSnoc(start, c, d, n);
    SameAttempted(now, AfterAttempts(start, c, d, n), c, d);
  }

  lemma StillOnCourse(now: seq<Entry>, later: seq<Entry>, start: seq<Entry>, c: Entry, d: Entry, n: nat)
    requires OnCourse(now, start, c, d, n) && Same(later, now)
    ensures OnCourse(later, start, c, d, n)
  {
  }

  lemma NoThirdMiss(now: seq<Entry>, start: seq<Entry>, table: seq<Entry>, c: nat, d: nat)
    requires |start| >= 2 && TlbOk(start, table) && TableOk(table)
    requires c < |table| && d < |table| && table[c].valid && table[d].valid
    requires OnCourse(now, start, table[c], table[d], 2)
    ensures Present(now, c) && Present(now, d)
  {
    AtMostTwoMisses(start, table, c, d);
    SamePresent(now, AfterAttempts(start, table[c], table[d], 2), c);
    SamePresent(now, AfterAttempts(start, table[c], table[d], 2), d);
  }

  /** What a load or store does, and to which memory, when its page is there: what the page table says. */
  ghost predicate Accessed(table: seq<Entry>, before: seq<Byte>, after: seq<Byte>, addr: Int32, size: int,
                           writing: bool, value: Int32, big: bool, e: Exception, loaded: int)
    requires LegalSize(size) && |before| == |after| == MEMORY_SIZE && Vpn(addr) < |table|
  {
    && e == TableAnswer(table[Vpn(addr)], addr, size, writing)
    && if e != NoException then after == before
       else
         && 0 <= Phys(table, addr) && Phys(table, addr) + size <= MEMORY_SIZE
         && if writing then after == Stored(before, Phys(table, addr), value, size, big)
            else after == before && loaded == Loaded(before, Phys(table, addr), size, big)
  }

  /** A load or a store. */
  method Access(m: Machine, addr: Int32, size: int, writing: bool, value: Int32) returns (e: Exception, loaded: int)
    requires m.Valid() && LegalSize(size) && Vpn(addr) < |m.pageTable|
    modifies m.tlb, m.mainMemory
    ensures m.Valid() && Same(m.tlb[..], old(m.tlb[..]))
    ensures forall v :: Present(m.tlb[..], v) <==> old(Present(m.tlb[..], v))
    ensures e == PageFault <==> !Misaligned(addr, size) && !old(Present(m.tlb[..], Vpn(addr)))
    ensures e == PageFault || !writing ==> m.mainMemory[..] == old(m.mainMemory[..])
    ensures e != PageFault ==>
      Accessed(m.pageTable, old(m.mainMemory[..]), m.mainMemory[..], addr, size, writing, value, m.bigEndianHost, e,
        loaded)
  {
    hide TlbOk, TableOk, Live, Loaded, Stored, Present, Same, TableAnswer, Vpn, Phys, Misaligned;
    loaded := 0;
    if writing {
      e := m.WriteMem(addr, size, value);
    } else {
      e, loaded := m.ReadMem(addr, size);
    }
  }

  /** One attempt at an instruction: done, or one page loaded. */
  method Try(m: Machine, pc: Int32, addr: Int32, size: int, writing: bool, value: Int32)
    returns (done: bool, e: Exception, loaded: int, ghost before: seq<Entry>)
    requires m.Valid() && LegalSize(size) && Vpn(pc) < |m.pageTable| && Vpn(addr) < |m.pageTable|
    requires !Misaligned(pc, 4) && 0 <= m.pageTable[Vpn(pc)].physicalPage < NUM_PHYS_PAGES
    modifies m.tlb, m.mainMemory
    ensures m.Valid() && Same(before, old(m.tlb[..]))
    ensures done <==> Present(before, Vpn(pc)) && (Present(before, Vpn(addr)) || Misaligned(addr, size))
    ensures !done ==> m.mainMemory[..] == old(m.mainMemory[..])
    ensures !done ==> |before| > 0 && m.tlb[..] == Attempted(before, m.pageTable[Vpn(pc)], m.pageTable[Vpn(addr)])
    ensures done ==>
      Accessed(m.pageTable, old(m.mainMemory[..]), m.mainMemory[..], addr, size, writing, value, m.bigEndianHost, e,
        loaded)
  {
    FetchWorks(m.pageTable[Vpn(pc)], pc);
    assert m.pageTable[Vpn(pc)].virtualPage == Vpn(pc) && m.pageTable[Vpn(addr)].virtualPage == Vpn(addr);
    hide TlbOk, TableOk, Filled, Live, Loaded, Stored, Present, TableAnswer, Vpn, Phys, Misaligned, Copies, Staying;
    var raw;
    e, raw := Access(m, pc, 4, false, 0);
    before := m.tlb[..];
    if e == PageFault {
      m.TLBMissHandler(pc, NO_ENTRY);
      return false, e, 0, before;
    }
    hide Accessed;
    e, loaded := Access(m, addr, size, writing, value);
    before := m.tlb[..];
    done := e != PageFault;
    if !done {
      m.TLBMissHandler(addr, NO_ENTRY);
    }
  }

  /** The memory part of an instruction: fetch, then one load or store, starting over after every miss. At most two
      misses are met, and the access is done once, as if there had been none. */
  method RunInstruction(m: Machine, pc: Int32, addr: Int32, size: int, writing: bool, value: Int32)
    returns (e: Exception, loaded: int, misses: nat)
    requires m.Valid() && m.tlb.Length >= 2 && LegalSize(size)
    requires !Misaligned(pc, 4) && Vpn(pc) < |m.pageTable| && m.pageTable[Vpn(pc)].valid
    requires 0 <= m.pageTable[Vpn(pc)].physicalPage < NUM_PHYS_PAGES
    requires Vpn(addr) < |m.pageTable| && m.pageTable[Vpn(addr)].valid
    modifies m.tlb, m.mainMemory
    ensures m.Valid() && misses <= 2
    ensures
      Accessed(m.pageTable, old(m.mainMemory[..]), m.mainMemory[..], addr, size, writing, value, m.bigEndianHost, e,
        loaded)
  {
    ghost var start, c, d := m.tlb[..], m.pageTable[Vpn(pc)], m.pageTable[Vpn(addr)];
    hide TlbOk, TableOk, Present, Same, OnCourse, Vpn, Misaligned, Accessed, Attempted;
    StartOnCourse(start, c, d);
    misses := 0;
    var done;
    ghost var before;
    done, e, loaded, before := Try(m, pc, addr, size, writing, value);
    ghost var now := start;
    while !done
      invariant m.Valid() && misses <= 2 && (!done ==> misses < 2)
      invariant !done ==> m.mainMemory[..] == old(m.mainMemory[..])
      invariant OnCourse(now, start, c, d, misses) && Same(before, now)
      invariant !done ==> |before| > 0 && m.tlb[..] == Attempted(before, c, d)
      invariant done ==>
        Accessed(m.pageTable, old(m.mainMemory[..]), m.mainMemory[..], addr, size, writing, value, m.bigEndianHost, e,
          loaded)
      decreases if done then 0 else 3 - misses
    {
      StillOnCourse(now, before, start, c, d, misses);
      OneMoreMiss(before, start, c, d, misses);
      misses := misses + 1;
      now := m.tlb[..];
      done, e, loaded, before := Try(m, pc, addr, size, writing, value);
      if misses == 2 {
        NoThirdMiss(now, start, m.pageTable, Vpn(pc), Vpn(addr));
        SamePresent(before, now, Vpn(pc));
        SamePresent(before, now, Vpn(addr));
      }
    }
  }

  lemma StartOnCourse(start: seq<Entry>, c: Entry, d: Entry)
    requires |start| > 0
    ensures OnCourse(start, start, c, d, 0)
  {
  }

  lemma FetchWorks(page: Entry, pc: Int32)
    requires !Misaligned(pc, 4) && 0 <= page.physicalPage < NUM_PHYS_PAGES
    ensures TableAnswer(page, pc, 4, false) == NoException
  {
  }
}
