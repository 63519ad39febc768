/** The raw storage of a shared block: a flat run of bytes read and written as little-endian words. */
module Memory {
  type Byte = b: int | 0 <= b < 256
  type Word = w: int | 0 <= w < 0x1_0000_0000
  type Long = v: int | -0x8000_0000_0000_0000 <= v < 0x8000_0000_0000_0000
  type Bits64 = v: int | 0 <= v < 0x1_0000_0000_0000_0000
  type Mem = seq<Byte>

  /** The word whose bytes are `b0` (lowest) to `b3` (highest). */
  function Assemble(b0: Byte, b1: Byte, b2: Byte, b3: Byte): Word {
    b0 as int + 0x100 * b1 as int + 0x1_0000 * b2 as int + 0x100_0000 * b3 as int
  }

  function WordAt(m: Mem, o: int): Word
    requires 0 <= o && o + 4 <= |m|
  {
    Assemble(m[o], m[o + 1], m[o + 2], m[o + 3])
  }

  function WordBytes(w: Word): (bs: seq<Byte>)
    ensures |bs| == 4
  {
    [w % 0x100, w / 0x100 % 0x100, w / 0x1_0000 % 0x100, w / 0x100_0000]
  }

  function Patch(m: Mem, o: int, bs: seq<Byte>): Mem
    requires 0 <= o && o + |bs| <= |m|
  {
    m[..o] + bs + m[o + |bs|..]
  }

  function PutWord(m: Mem, o: int, w: Word): Mem
    requires 0 <= o && o + 4 <= |m|
  {
    Patch(m, o, WordBytes(w))
  }

  /** `m` and `n` hold the same bytes everywhere outside `[lo, hi)`. */
  ghost predicate SameOutside(m: Mem, n: Mem, lo: int, hi: int) {
    |m| == |n| && forall i | 0 <= i < |m| && !(lo <= i < hi) :: m[i] == n[i]
  }

  lemma WordRoundTrip(w: Word)
    ensures var bs := WordBytes(w); Assemble(bs[0], bs[1], bs[2], bs[3]) == w
  {
    assert w == 0x100 * (w / 0x100) + w % 0x100;
    assert w / 0x100 == 0x100 * (w / 0x1_0000) + w / 0x100 % 0x100;
    assert w / 0x1_0000 == 0x100 * (w / 0x100_0000) + w / 0x1_0000 % 0x100;
  }

  lemma PutWordReads(m: Mem, o: int, w: Word)
    requires 0 <= o && o + 4 <= |m|
    ensures |PutWord(m, o, w)| == |m| && SameOutside(m, PutWord(m, o, w), o, o + 4)
    ensures WordAt(PutWord(m, o, w), o) == w
  {
    WordRoundTrip(w);
  }

  lemma PatchReads(m: Mem, o: int, bs: seq<Byte>)
    requires 0 <= o && o + |bs| <= |m|
    ensures SameOutside(m, Patch(m, o, bs), o, o + |bs|)
    ensures Patch(m, o, bs)[o..o + |bs|] == bs
  {
  }

  lemma WordFrame(m: Mem, n: Mem, lo: int, hi: int, o: int)
    requires SameOutside(m, n, lo, hi)
    requires 0 <= o && o + 4 <= |m|
    requires o + 4 <= lo || hi <= o
    ensures WordAt(m, o) == WordAt(n, o)
  {
  }

  /** The low and high halves of a 64-bit pattern. */
  function Low(v: Bits64): Word { v % 0x1_0000_0000 }
  function High(v: Bits64): Word { v / 0x1_0000_0000 }
  function Join(lo: Word, hi: Word): Bits64 { lo + 0x1_0000_0000 * hi }

  /** Two's complement reading and writing of a signed 64-bit integer. */
  function ToBits(v: Long): Bits64 { if v < 0 then v + 0x1_0000_0000_0000_0000 else v }
  function FromBits(u: Bits64): Long {
    if u < 0x8000_0000_0000_0000 then u else u - 0x1_0000_0000_0000_0000
  }

  lemma LongRoundTrip(v: Long)
    ensures FromBits(Join(Low(ToBits(v)), High(ToBits(v)))) == v
  {
  }

  method StoreWord(data: array<Byte>, o: int, w: Word)
    requires 0 <= o && o + 4 <= data.Length
    modifies data
    ensures data[..] == PutWord(old(data[..]), o, w)
    ensures SameOutside(old(data[..]), data[..], o, o + 4) && WordAt(data[..], o) == w
  {
    PutWordReads(data[..], o, w);
    data[o], data[o + 1] := w % 0x100, w / 0x100 % 0x100;
    data[o + 2], data[o + 3] := w / 0x1_0000 % 0x100, w / 0x100_0000;
  }

  method LoadWord(data: array<Byte>, o: int) returns (w: Word)
    requires 0 <= o && o + 4 <= data.Length
    ensures w == WordAt(data[..], o)
  {
    w := Assemble(data[o], data[o + 1], data[o + 2], data[o + 3]);
  }

  /** memcpy_s: copy `bs` to offset `o`. */
  method CopyIn(data: array<Byte>, o: int, bs: seq<Byte>)
    requires 0 <= o && o + |bs| <= data.Length
    modifies data
    ensures data[..] == Patch(old(data[..]), o, bs)
    ensures SameOutside(old(data[..]), data[..], o, o + |bs|) && data[o..o + |bs|] == bs
  {
    ghost var was := data[..];
    for i := 0 to |bs|
      invariant forall k | 0 <= k < data.Length && !(o <= k < o + i) :: data[k] == was[k]
      invariant forall k | 0 <= k < i :: data[o + k] == bs[k]
    {
      data[o + i] := bs[i];
    }
    assert data[..] == Patch(was, o, bs) by {
      forall k | 0 <= k < |was| ensures data[k] == Patch(was, o, bs)[k] {
        if o <= k < o + |bs| { assert data[o + (k - o)] == bs[k - o]; }
      }
    }
  }

  function Zeros(n: nat): seq<Byte> { seq(n, _ => 0) }
}
