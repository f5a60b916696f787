/** The free bitmap of fs.c: one bit per disk block, eight to a byte, BPB to a bitmap block. */
module Bitmap {

  const BITMAP_BYTES := 512
  const BPB := 4096

  type Bits = seq<seq<bv8>>

  /** 1 << k */
  function Mask(k: int): bv8
    requires 0 <= k < 8
  {
    if k == 0 then 1 else if k == 1 then 2 else if k == 2 then 4 else if k == 3 then 8
    else if k == 4 then 16 else if k == 5 then 32 else if k == 6 then 64 else 128
  }

  predicate Has(x: bv8, k: int)
    requires 0 <= k < 8
  {
    x & Mask(k) != 0
  }

  function SetBit(x: bv8, k: int): bv8
    requires 0 <= k < 8
  {
    x | Mask(k)
  }

  function ResetBit(x: bv8, k: int): bv8
    requires 0 <= k < 8
  {
    x & !Mask(k)
  }

  lemma OneBit(x: bv8, k: int, l: int)
    requires 0 <= k < 8 && 0 <= l < 8
    ensures Has(SetBit(x, k), l) <==> k == l || Has(x, l)
    ensures Has(ResetBit(x, k), l) <==> k != l && Has(x, l)
  {
    OneBitSet(x, k, l);
    OneBitReset(x, k, l);
    hide Has, SetBit, ResetBit;
  }

  lemma OneBitSet(x: bv8, k: int, l: int)
    requires 0 <= k < 8 && 0 <= l < 8
    ensures Has(SetBit(x, k), l) <==> k == l || Has(x, l)
  {
  }

  lemma OneBitReset(x: bv8, k: int, l: int)
    requires 0 <= k < 8 && 0 <= l < 8
    ensures Has(ResetBit(x, k), l) <==> k != l && Has(x, l)
  {
  }

  /** The bitmap block of block b, and its byte and bit there. */
  function BlockOf(b: int): int
  {
    b / BPB
  }

  function ByteOf(b: int): (r: int)
    ensures 0 <= r < BITMAP_BYTES
  {
    b % BPB / 8
  }

  function BitOf(b: int): (r: int)
    ensures 0 <= r < 8
  {
    b % BPB % 8
  }

  predicate Shaped(bits: Bits)
  {
    forall k :: 0 <= k < |bits| ==> |bits[k]| == BITMAP_BYTES
  }

  predicate Within(bits: Bits, b: int)
  {
    0 <= b && 0 <= BlockOf(b) < |bits| && |bits[BlockOf(b)]| == BITMAP_BYTES
  }

  predicate Used(bits: Bits, b: int)
  {
    Within(bits, b) && Has(bits[BlockOf(b)][ByteOf(b)], BitOf(b))
  }

  /** Where the bit of block b is on the disk. */
  lemma BitLayout(bits: Bits, b: int)
    requires Shaped(bits) && 0 <= b < |bits| * 4096
    ensures Used(bits, b) <==> bits[b / 4096][b % 4096 / 8] & ((1 as bv8) << (b % 8)) != 0
  {
    BitAt(bits[b / 4096][b % 4096 / 8], b % 8);
    assert b % 4096 % 8 == b % 8;
    hide Has;
  }

  lemma BitAt(x: bv8, k: nat)
    requires k < 8
    ensures Has(x, k) <==> x & ((1 as bv8) << k) != 0
  {
  }

  function Put(bits: Bits, b: int, byte: bv8): (r: Bits)
    requires Within(bits, b)
    ensures |r| == |bits|
  {
    bits[BlockOf(b) := bits[BlockOf(b)][ByteOf(b) := byte]]
  }

  function Mark(bits: Bits, b: int): (r: Bits)
    requires Within(bits, b)
    ensures |r| == |bits|
  {
    Put(bits, b, SetBit(bits[BlockOf(b)][ByteOf(b)], BitOf(b)))
  }

  function Clear(bits: Bits, b: int): (r: Bits)
    requires Within(bits, b)
    ensures |r| == |bits|
  {
    Put(bits, b, ResetBit(bits[BlockOf(b)][ByteOf(b)], BitOf(b)))
  }

  /** The three coordinates of a block determine it. */
  lemma Distinct(bits: Bits, b: int, c: int)
    requires Within(bits, b) && Within(bits, c)
    requires BlockOf(b) == BlockOf(c) && ByteOf(b) == ByteOf(c) && BitOf(b) == BitOf(c)
    ensures b == c
  {
  }

  lemma PutOnly(bits: Bits, b: int, byte: bv8, c: int)
    requires Shaped(bits) && Within(bits, b)
    ensures Shaped(Put(bits, b, byte))
    ensures Within(Put(bits, b, byte), c) <==> Within(bits, c)
    ensures Within(bits, c) ==>
      Put(bits, b, byte)[BlockOf(c)][ByteOf(c)] ==
      (if BlockOf(c) == BlockOf(b) && ByteOf(c) == ByteOf(b) then byte else bits[BlockOf(c)][ByteOf(c)])
  {
  }

  /** Marking a block changes its own bit and no other, whatever shares its byte. */
  lemma MarkOnly(bits: Bits, b: int, c: int)
    requires Shaped(bits) && Within(bits, b)
    ensures Shaped(Mark(bits, b))
    ensures Used(Mark(bits, b), c) <==> c == b || Used(bits, c)
    ensures Within(Mark(bits, b), c) <==> Within(bits, c)
  {
    var x := bits[BlockOf(b)][ByteOf(b)];
    PutOnly(bits, b, SetBit(x, BitOf(b)), c);
    OneBit(x, BitOf(b), BitOf(c));
    hide Mask, Has, SetBit, ResetBit, BlockOf, ByteOf, BitOf, Put, Within, Shaped;
    if Within(bits, c) && BlockOf(c) == BlockOf(b) && ByteOf(c) == ByteOf(b) && BitOf(b) == BitOf(c) {
      Distinct(bits, b, c);
    }
  }

  lemma ClearOnly(bits: Bits, b: int, c: int)
    requires Shaped(bits) && Within(bits, b)
    ensures Shaped(Clear(bits, b))
    ensures Used(Clear(bits, b), c) <==> c != b && Used(bits, c)
    ensures Within(Clear(bits, b), c) <==> Within(bits, c)
  {
    var x := bits[BlockOf(b)][ByteOf(b)];
    PutOnly(bits, b, ResetBit(x, BitOf(b)), c);
    OneBit(x, BitOf(b), BitOf(c));
    hide Mask, Has, SetBit, ResetBit, BlockOf, ByteOf, BitOf, Put, Within, Shaped;
    if Within(bits, c) && BlockOf(c) == BlockOf(b) && ByteOf(c) == ByteOf(b) && BitOf(b) == BitOf(c) {
      Distinct(bits, b, c);
    }
  }

  const NONE := -1

  /** The first free block from b up to n. */
  function LeastFree(bits: Bits, n: int, b: int): (r: int)
    ensures r == NONE || b <= r < n
    decreases n - b
  {
    if b >= n then NONE else if !Used(bits, b) then b else LeastFree(bits, n, b + 1)
  }

  /** It is free, and everything before it is used. */
  lemma {:induction false} LeastFreeIs(bits: Bits, n: int, b: int, c: int)
    requires 0 <= b <= c
    ensures var r := LeastFree(bits, n, b);
      (r != NONE ==> !Used(bits, r)) && (c < (if r == NONE then n else r) ==> Used(bits, c))
    decreases n - b
  {
    hide Used;
    if b < n && Used(bits, b) && b < c {
      LeastFreeIs(bits, n, b + 1, c);
    } else if b < n && Used(bits, b) {
      LeastFreeIs(bits, n, b + 1, c + 1);
    }
  }

  /** balloc's two loops over the bitmap: the least free block, if any. */
  method FindFree(bits: Bits, size: nat) returns (r: int)
    requires Shaped(bits) && size <= |bits| * BPB
    ensures r == LeastFree(bits, size, 0)
  {
    hide Has, Used, BlockOf, ByteOf, BitOf;
    var b := 0;
    while b < size
      invariant 0 <= b && b % BPB == 0
      invariant LeastFree(bits, size, 0) == LeastFree(bits, size, b)
    {
      SameBlock(bits, size, b, 0);
      var block := bits[BlockOf(b)];
      var bi := 0;
      while bi < BPB && b + bi < size
        invariant 0 <= bi <= BPB
        invariant LeastFree(bits, size, 0) == LeastFree(bits, size, b + bi)
      {
        SameBlock(bits, size, b, bi);
        if !Has(block[bi / 8], bi % 8) {
          return b + bi;
        }
        bi := bi + 1;
      }
      NothingPast(bits, size, b + bi, b + BPB);
      b := b + BPB;
    }
    return NONE;
  }

  lemma NothingPast(bits: Bits, size: nat, b: int, c: int)
    requires b == c || size <= b <= c
    ensures LeastFree(bits, size, c) == LeastFree(bits, size, b)
  {
  }

  lemma SameBlock(bits: Bits, size: nat, b: int, bi: int)
    requires Shaped(bits)
    requires 0 <= b && b % BPB == 0 && 0 <= bi < BPB && b + bi < size <= |bits| * BPB
    ensures 0 <= BlockOf(b) < |bits|
    ensures Used(bits, b + bi) <==> Has(bits[BlockOf(b)][bi / 8], bi % 8)
  {
    assert BlockOf(b + bi) == BlockOf(b) && ByteOf(b + bi) == bi / 8 && BitOf(b + bi) == bi % 8;
    hide Has;
  }
}
