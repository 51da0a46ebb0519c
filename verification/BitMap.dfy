/** userprog/bitmap.cc: a bit map packed into 32-bit words, used as the disk's sector allocator. */
module BitMaps {
  import opened Words

  // ---------------------------------------------------------------------------
  // One word

  /** The n low-order bits of an unsigned number, lowest first. */
  function Binary(u: nat, n: nat): (bits: seq<bool>)
    ensures |bits| == n
  {
    if n == 0 then [] else [u % 2 == 1] + Binary(u / 2, n - 1)
  }

  function Value(bits: seq<bool>): nat {
    if bits == [] then 0 else (if bits[0] then 1 else 0) + 2 * Value(bits[1..])
  }

  function Pow2(n: nat): nat {
    if n == 0 then 1 else 2 * Pow2(n - 1)
  }

  lemma Pow2Word()
    ensures Pow2(32) == TWO32
  {
    assert Pow2(4) == 16;
    assert Pow2(8) == 256;
    assert Pow2(12) == 4096;
    assert Pow2(16) == 65536;
    assert Pow2(20) == 1048576;
    assert Pow2(24) == 16777216;
    assert Pow2(28) == 268435456;
  }

  lemma {:induction false} ValueBound(bits: seq<bool>)
    ensures Value(bits) < Pow2(|bits|)
  {
    if bits != [] { ValueBound(bits[1..]); }
  }

  lemma {:induction false} BinaryOfValue(bits: seq<bool>)
    ensures Binary(Value(bits), |bits|) == bits
  {
    if bits != [] {
      BinaryOfValue(bits[1..]);
      assert Value(bits) / 2 == Value(bits[1..]);
      assert bits == [bits[0]] + bits[1..];
    }
  }

  predicate Bit(w: Word, k: nat)
    requires k < 32
  {
    Binary(w, 32)[k]
  }

  /** w | 1 << k when on, and w & ~(1 << k) when off. */
  function WithBit(w: Word, k: nat, on: bool): (r: Word)
    requires k < 32
    ensures forall j :: 0 <= j < 32 ==> Bit(r, j) == if j == k then on else Bit(w, j)
  {
    var bits := Binary(w, 32)[k := on];
    assert Value(bits) < TWO32 by { ValueBound(bits); Pow2Word(); }
    assert Binary(Value(bits), 32) == bits by { BinaryOfValue(bits); }
    Value(bits)
  }

  // ---------------------------------------------------------------------------
  // The clear bits in ascending order: what successive calls of Find hand out

  ghost function FreeFrom(bits: seq<bool>, from: nat): seq<int>
    requires from <= |bits|
    decreases |bits| - from
  {
    if from == |bits| then []
    else (if bits[from] then [] else [from]) + FreeFrom(bits, from + 1)
  }

  ghost function Free(bits: seq<bool>): seq<int> {
    FreeFrom(bits, 0)
  }

  ghost predicate Ascending(xs: seq<int>) {
    forall i, j :: 0 <= i < j < |xs| ==> xs[i] < xs[j]
  }

  lemma ConsAscending(x: int, xs: seq<int>)
    requires Ascending(xs) && forall y :: y in xs ==> x < y
    ensures Ascending([x] + xs)
    ensures forall y :: y in [x] + xs <==> y == x || y in xs
  {
    forall k | 0 <= k < |xs| ensures x < xs[k] { assert xs[k] in xs; }
  }

  lemma {:induction false} FreeFromSpec(bits: seq<bool>, from: nat)
    requires from <= |bits|
    ensures Ascending(FreeFrom(bits, from))
    ensures forall x :: x in FreeFrom(bits, from) <==> from <= x < |bits| && !bits[x]
    decreases |bits| - from
  {
    if from < |bits| {
      FreeFromSpec(bits, from + 1);
      var rest := FreeFrom(bits, from + 1);
      assert FreeFrom(bits, from) == (if bits[from] then [] else [from]) + rest;
      hide FreeFrom;
      if bits[from] {
        assert [] + rest == rest;
      } else {
        ConsAscending(from, rest);
      }
    }
  }

  /** Free lists exactly the clear bits, in strictly ascending order. */
  lemma FreeSpec(bits: seq<bool>)
    ensures Ascending(Free(bits))
    ensures forall x :: x in Free(bits) <==> 0 <= x < |bits| && !bits[x]
  {
    FreeFromSpec(bits, 0);
  }

  lemma {:induction false} FreeAllSet(bits: seq<bool>, from: nat)
    requires from <= |bits|
    requires forall k :: from <= k < |bits| ==> bits[k]
    ensures FreeFrom(bits, from) == []
    decreases |bits| - from
  {
    if from < |bits| { FreeAllSet(bits, from + 1); }
  }

  lemma {:induction false} FreeSuffix(a: seq<bool>, b: seq<bool>, from: nat)
    requires |a| == |b| && from <= |a|
    requires forall k :: from <= k < |a| ==> a[k] == b[k]
    ensures FreeFrom(a, from) == FreeFrom(b, from)
    decreases |a| - from
  {
    if from < |a| { FreeSuffix(a, b, from + 1); }
  }

  /** Marking the first clear bit takes the head off the free list. */
  lemma {:induction false} FreeMarkFirst(bits: seq<bool>, first: nat, from: nat)
    requires from <= first < |bits| && !bits[first]
    requires forall k :: from <= k < first ==> bits[k]
    ensures |FreeFrom(bits, from)| > 0
    ensures FreeFrom(bits, from)[0] == first
    ensures FreeFrom(bits[first := true], from) == FreeFrom(bits, from)[1..]
    decreases |bits| - from
  {
    if from < first {
      FreeMarkFirst(bits, first, from + 1);
    } else {
      FreeSuffix(bits, bits[first := true], from + 1);
    }
  }

  /** The free list determines the map. */
  lemma FreeDetermines(a: seq<bool>, b: seq<bool>)
    requires |a| == |b| && Free(a) == Free(b)
    ensures a == b
  {
    FreeSpec(a);
    FreeSpec(b);
    forall k | 0 <= k < |a| ensures a[k] == b[k] {
      assert k in Free(a) <==> k in Free(b);
    }
  }

  // What the k-th of a series of Finds returns, and what is left after k of them.
  function At(free: seq<int>, k: nat): int {
    if k < |free| then free[k] else -1
  }

  function Drop(free: seq<int>, k: nat): seq<int> {
    if k <= |free| then free[k..] else []
  }

  function CountClear(bits: seq<bool>): (n: nat)
    ensures n <= |bits|
  {
    if bits == [] then 0
    else CountClear(bits[..|bits| - 1]) + if bits[|bits| - 1] then 0 else 1
  }

  lemma {:induction false} CountPrefix(bits: seq<bool>, k: nat)
    requires k <= |bits|
    ensures |FreeFrom(bits, k)| + CountClear(bits[..k]) == |Free(bits)|
  {
    if k > 0 {
      CountPrefix(bits, k - 1);
      assert bits[..k][..k - 1] == bits[..k - 1];
    }
  }

  /** NumClear counts the free list. */
  lemma CountIsFree(bits: seq<bool>)
    ensures CountClear(bits) == |Free(bits)|
  {
    CountPrefix(bits, |bits|);
    assert bits[..|bits|] == bits;
  }

  // ---------------------------------------------------------------------------

  /** Bit i of an array of words. */
  predicate PackedBit(ws: seq<Word>, i: nat)
    requires i / 32 < |ws|
  {
    Bit(ws[i / 32], i % 32)
  }

  /** The packed words hold the bits. */
  ghost predicate Packs(ws: seq<Word>, bits: seq<bool>) {
    && |ws| == |bits| / 32 + (if |bits| % 32 > 0 then 1 else 0)
    && forall i {:trigger PackedBit(ws, i)} :: 0 <= i < |bits| ==> PackedBit(ws, i) == bits[i]
  }

  lemma PacksUpdate(ws: seq<Word>, bits: seq<bool>, which: nat, on: bool)
    requires Packs(ws, bits) && which < |bits|
    ensures Packs(ws[which / 32 := WithBit(ws[which / 32], which % 32, on)], bits[which := on])
  {
    var ws' := ws[which / 32 := WithBit(ws[which / 32], which % 32, on)];
    forall i | 0 <= i < |bits| ensures PackedBit(ws', i) == bits[which := on][i] {
      assert PackedBit(ws, i) == bits[i];
    }
  }

  class BitMap {
    const numBits: nat
    const numWords: nat
    const words: array<Word>
    ghost var bits: seq<bool>   // the abstract map
    ghost var free: seq<int>    // its clear bits, ascending

    ghost predicate Valid()
      reads this, words
    {
      && |bits| == numBits
      && numWords == words.Length
      && Packs(words[..], bits)
      && free == Free(bits)
    }

    constructor (nitems: nat)
      ensures Valid() && fresh(words)
      ensures numBits == nitems
      ensures forall i :: 0 <= i < nitems ==> !bits[i]
    {
      numBits := nitems;
      numWords := nitems / 32 + if nitems % 32 > 0 then 1 else 0;
      words := new Word[nitems / 32 + if nitems % 32 > 0 then 1 else 0];
      new;
      ghost var ws := words[..];
      bits := seq(nitems, i requires 0 <= i < nitems => PackedBit(ws, i));
      free := Free(bits);
      for i := 0 to numBits
        invariant Valid() && fresh(words)
        invariant forall k :: 0 <= k < i ==> !bits[k]
      {
        Clear(i);
      }
    }

    method Mark(which: int)
      requires Valid() && 0 <= which < numBits
      modifies this, words
      ensures Valid()
      ensures bits == old(bits)[which := true]
    {
      PacksUpdate(words[..], bits, which, true);
      words[which / 32] := WithBit(words[which / 32], which % 32, true);
      bits := bits[which := true];
      free := Free(bits);
    }

    method Clear(which: int)
      requires Valid() && 0 <= which < numBits
      modifies this, words
      ensures Valid()
      ensures bits == old(bits)[which := false]
    {
      PacksUpdate(words[..], bits, which, false);
      words[which / 32] := WithBit(words[which / 32], which % 32, false);
      bits := bits[which := false];
      free := Free(bits);
    }

    method Test(which: int) returns (b: bool)
      requires Valid() && 0 <= which < numBits
      ensures b == bits[which]
    {
      b := Bit(words[which / 32], which % 32);
      assert b == PackedBit(words[..], which);
    }

    /** Takes the lowest clear bit, or returns -1 and changes nothing when there is none. */
    method Find() returns (r: int)
      requires Valid()
      modifies this, words
      ensures Valid()
      ensures r == At(old(free), 0)
      ensures free == Drop(old(free), 1)
      ensures r != -1 ==> 0 <= r < numBits && !old(bits)[r]
      ensures bits == if r == -1 then old(bits) else old(bits)[r := true]
    {
      for i := 0 to numBits
        invariant Valid() && bits == old(bits) && free == old(free)
        invariant forall k :: 0 <= k < i ==> bits[k]
      {
        var used := Test(i);
        if !used {
          FreeMarkFirst(bits, i, 0);
          Mark(i);
          return i;
        }
      }
      FreeAllSet(bits, 0);
      return -1;
    }

    /** Overwrites the words, as reading them from a file does. */
    method Load(ws: seq<Word>, ghost newBits: seq<bool>)
      requires Valid() && |newBits| == numBits && Packs(ws, newBits)
      modifies this, words
      ensures Valid() && bits == newBits
    {
      for k := 0 to numWords
        invariant words[..k] == ws[..k]
      {
        words[k] := ws[k];
      }
      assert words[..] == ws;
      bits := newBits;
      free := Free(newBits);
    }

    method NumClear() returns (count: nat)
      requires Valid()
      ensures count == |free|
    {
      count := 0;
      for i := 0 to numBits
        invariant count == CountClear(bits[..i])
      {
        var used := Test(i);
        assert bits[..i + 1][..i] == bits[..i];
        if !used { count := count + 1; }
      }
      assert bits[..numBits] == bits;
      CountIsFree(bits);
    }
  }
}
