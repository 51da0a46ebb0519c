/** Bytes and 32-bit machine words as the simulated disk and memory hold them: little endian. */
module Words {
  type Byte = b: int | 0 <= b < 256

  const TWO32: int := 0x1_0000_0000

  type Word = u: int | 0 <= u < TWO32

  function Min(a: int, b: int): (m: int)
    ensures m <= a && m <= b && (m == a || m == b)
  {
    if a <= b then a else b
  }

  predicate FitsInt(x: int) {
    -0x8000_0000 <= x < 0x8000_0000
  }

  type Int32 = x: int | FitsInt(x)

  /** The two's complement reading of an unsigned word. */
  function ToInt(u: int): (x: int)
    requires 0 <= u < TWO32
    ensures FitsInt(x) && (x - u) % TWO32 == 0
  {
    if u < 0x8000_0000 then u else u - TWO32
  }

  function FromInt(x: int): (u: int)
    requires FitsInt(x)
    ensures 0 <= u < TWO32
    ensures ToInt(u) == x
  {
    if x >= 0 then x else x + TWO32
  }

  function WordOf(b0: Byte, b1: Byte, b2: Byte, b3: Byte): (u: int)
    ensures 0 <= u < TWO32
  {
    b0 + 256 * b1 + 65536 * b2 + 16777216 * b3
  }

  function WordBytes(u: int): (bs: seq<Byte>)
    requires 0 <= u < TWO32
    ensures |bs| == 4
    ensures WordOf(bs[0], bs[1], bs[2], bs[3]) == u
  {
    assert u / 65536 == u / 256 / 256 && u / 16777216 == u / 65536 / 256;
    [u % 256, u / 256 % 256, u / 65536 % 256, u / 16777216]
  }

  /** The k-th unsigned word of a byte string. */
  function UWordAt(bs: seq<Byte>, k: nat): (u: int)
    requires 4 * k + 4 <= |bs|
    ensures 0 <= u < TWO32
  {
    WordOf(bs[4 * k], bs[4 * k + 1], bs[4 * k + 2], bs[4 * k + 3])
  }

  /** The k-th signed word of a byte string. */
  function WordAt(bs: seq<Byte>, k: nat): (x: int)
    requires 4 * k + 4 <= |bs|
    ensures FitsInt(x)
  {
    ToInt(UWordAt(bs, k))
  }

  /** One more byte copied over a stretch of a byte string. */
  lemma CopyStep(base: seq<Byte>, at: nat, bytes: seq<Byte>, k: nat)
    requires k < |bytes| && at + |bytes| <= |base|
    ensures (base[..at] + bytes[..k] + base[at + k..])[at + k := bytes[k]] ==
      base[..at] + bytes[..k + 1] + base[at + k + 1..]
  {
    assert bytes[..k + 1] == bytes[..k] + [bytes[k]];
  }

  function EncodeWords(us: seq<int>): (bs: seq<Byte>)
    requires forall k :: 0 <= k < |us| ==> 0 <= us[k] < TWO32
    ensures |bs| == 4 * |us|
    ensures forall k :: 0 <= k < |us| ==> UWordAt(bs, k) == us[k]
  {
    if us == [] then []
    else
      var last := |us| - 1;
      EncodeWords(us[..last]) + WordBytes(us[last])
  }

  function EncodeInts(xs: seq<int>): (bs: seq<Byte>)
    requires forall k :: 0 <= k < |xs| ==> FitsInt(xs[k])
    ensures |bs| == 4 * |xs|
    ensures forall k :: 0 <= k < |xs| ==> WordAt(bs, k) == xs[k]
  {
    EncodeWords(seq(|xs|, k requires 0 <= k < |xs| => FromInt(xs[k])))
  }
}
