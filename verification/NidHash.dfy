/**
  The partition hash of a 64-bit NID that is not on a KFI network (lnet_nid4_cpt_hash in
  lnet/lnet/api-ni.c): bytes are added pairwise in four 16-bit lanes, and one multiplication adds
  the lanes into the top one. Words are naturals below 2^64; wrap-around is written out.
*/
module NidHash {
  import opened Machine

  const TWO_16: nat := 0x1_0000
  const TWO_48: nat := 0x1_0000_0000_0000
  const PAIR_BITS: nat := 0x1_0001_0001_0001

  /** Byte i of a word. */
  function Byte(key: nat, i: nat): (b: nat)
    ensures b <= 255
  {
    match i
    case 0 => key % 256
    case 1 => key / 0x100 % 256
    case 2 => key / 0x1_0000 % 256
    case 3 => key / 0x100_0000 % 256
    case 4 => key / 0x1_0000_0000 % 256
    case 5 => key / 0x100_0000_0000 % 256
    case 6 => key / 0x1_0000_0000_0000 % 256
    case _ => key / 0x100_0000_0000_0000 % 256
  }

  /** Bitwise and of two words, bit by bit. */
  function BitAnd(x: nat, y: nat): nat {
    if x == 0 || y == 0 then 0 else (x % 2) * (y % 2) + 2 * BitAnd(x / 2, y / 2)
  }

  /** The bytes 0, 2, 4 and 6 in place, the others zero. */
  function EvenBytes(key: nat): nat {
    Lanes(Byte(key, 0), Byte(key, 2), Byte(key, 4), Byte(key, 6))
  }

  /** Four 16-bit lanes. */
  function Lanes(a: nat, b: nat, c: nat, d: nat): nat {
    a + b * TWO_16 + c * TWO_32 + d * TWO_48
  }

  /** lnet_nid4_cpt_hash, in 64-bit arithmetic; the sum is cut to 32 bits before the remainder. */
  function Nid4CptHash(key: nat, number: nat): nat
    requires number >= 1
  {
    AddLanes(BitAnd(key, PAIR_BITS * 0xFF), BitAnd(key / 256, PAIR_BITS * 0xFF)) % TWO_32 % number
  }

  /** The pairwise sum, multiplied and shifted down by 48 bits. */
  function AddLanes(even: nat, odd: nat): nat {
    (even + odd) % TWO_64 * PAIR_BITS % TWO_64 / TWO_48
  }

  function ByteSum(key: nat): nat {
    Byte(key, 0) + Byte(key, 1) + Byte(key, 2) + Byte(key, 3) + Byte(key, 4) + Byte(key, 5) + Byte(key, 6) + Byte(key, 7)
  }

  lemma BitAndOdd(x: nat, m: nat)
    ensures BitAnd(x, 2 * m + 1) == x % 2 + 2 * BitAnd(x / 2, m)
  {
    assert (2 * m + 1) % 2 == 1 && (2 * m + 1) / 2 == m;
  }

  lemma BitAndEven(x: nat, m: nat)
    ensures BitAnd(x, 2 * m) == 2 * BitAnd(x / 2, m)
  {
    assert (2 * m) % 2 == 0 && (2 * m) / 2 == m;
  }

  /** Four bits of a mask that are all ones let the low four bits through. */
  lemma NibbleOnes(x: nat, m: nat)
    ensures BitAnd(x, 16 * m + 15) == x % 16 + 16 * BitAnd(x / 16, m)
  {
    BitAndOdd(x, 8 * m + 7);
    BitAndOdd(x / 2, 4 * m + 3);
    BitAndOdd(x / 2 / 2, 2 * m + 1);
    BitAndOdd(x / 2 / 2 / 2, m);
    assert x / 2 / 2 == x / 4 && x / 4 / 2 == x / 8 && x / 8 / 2 == x / 16;
    assert x % 16 == x % 2 + 2 * (x / 2 % 2) + 4 * (x / 4 % 2) + 8 * (x / 8 % 2);
  }

  /** Four bits that are all zeros let nothing through. */
  lemma NibbleZeros(x: nat, m: nat)
    ensures BitAnd(x, 16 * m) == 16 * BitAnd(x / 16, m)
  {
    BitAndEven(x, 8 * m);
    BitAndEven(x / 2, 4 * m);
    BitAndEven(x / 2 / 2, 2 * m);
    BitAndEven(x / 2 / 2 / 2, m);
    assert x / 2 / 2 == x / 4 && x / 4 / 2 == x / 8 && x / 8 / 2 == x / 16;
  }

  /** A mask of 0x00FF below m: one byte stays, the next goes. */
  lemma ByteKept(x: nat, m: nat)
    ensures BitAnd(x, 0x1_0000 * m + 0xFF) == x % 256 + 0x1_0000 * BitAnd(x / 0x1_0000, m)
  {
    NibbleOnes(x, 0x1000 * m + 0xF);
    NibbleOnes(x / 16, 0x100 * m);
    NibbleZeros(x / 16 / 16, 16 * m);
    NibbleZeros(x / 16 / 16 / 16, m);
    assert x / 16 / 16 == x / 256 && x / 256 / 16 == x / 4096 && x / 4096 / 16 == x / 0x1_0000;
    assert x % 256 == x % 16 + 16 * (x / 16 % 16);
  }

  /** key & (pair_bits * 0xFF) keeps every other byte. */
  lemma MaskKeepsEven(key: nat)
    ensures BitAnd(key, PAIR_BITS * 0xFF) == EvenBytes(key)
  {
    ByteKept(key, 0xFF_00FF_00FF);
    ByteKept(key / 0x1_0000, 0xFF_00FF);
    ByteKept(key / 0x1_0000 / 0x1_0000, 0xFF);
    ByteKept(key / 0x1_0000 / 0x1_0000 / 0x1_0000, 0);
    assert key / 0x1_0000 / 0x1_0000 == key / 0x1_0000_0000;
    assert key / 0x1_0000_0000 / 0x1_0000 == key / 0x1_0000_0000_0000;
    assert BitAnd(key / 0x1_0000_0000_0000 / 0x1_0000, 0) == 0;
    assert PAIR_BITS * 0xFF == 0xFF_00FF_00FF_00FF;
  }

  /** Shifting by eight bits brings the odd bytes to even places. */
  lemma OddBytes(key: nat)
    ensures EvenBytes(key / 256) == Lanes(Byte(key, 1), Byte(key, 3), Byte(key, 5), Byte(key, 7))
  {
    assert key / 256 / 0x1_0000 == key / 0x100_0000;
    assert key / 256 / 0x1_0000_0000 == key / 0x100_0000_0000;
    assert key / 256 / 0x1_0000_0000_0000 == key / 0x100_0000_0000_0000;
  }

  lemma Cut(x: nat, h: nat)
    requires x < TWO_64
    ensures (x + h * TWO_64) % TWO_64 == x
  {
  }

  lemma Top(x: nat, d: nat)
    requires x < TWO_48
    ensures (x + d * TWO_48) / TWO_48 == d
  {
  }

  /** No lane carries into the next, so the top lane of the product is the sum of the lanes. */
  lemma TopLane(a: nat, b: nat, c: nat, d: nat)
    requires a <= 510 && b <= 510 && c <= 510 && d <= 510
    ensures Lanes(a, b, c, d) < TWO_64
    ensures Lanes(a, b, c, d) * PAIR_BITS % TWO_64 / TWO_48 == a + b + c + d
  {
    var low := a + (a + b) * TWO_16 + (a + b + c) * TWO_32;
    var high := (b + c + d) + (c + d) * TWO_16 + d * TWO_32;
    assert Lanes(a, b, c, d) * PAIR_BITS == low + (a + b + c + d) * TWO_48 + high * TWO_64;
    Cut(low + (a + b + c + d) * TWO_48, high);
    Top(low, a + b + c + d);
  }

  lemma LanesAdded(b0: nat, b1: nat, b2: nat, b3: nat, b4: nat, b5: nat, b6: nat, b7: nat)
    requires b0 <= 255 && b1 <= 255 && b2 <= 255 && b3 <= 255 && b4 <= 255 && b5 <= 255 && b6 <= 255 && b7 <= 255
    ensures AddLanes(Lanes(b0, b2, b4, b6), Lanes(b1, b3, b5, b7)) == b0 + b1 + b2 + b3 + b4 + b5 + b6 + b7
  {
    var s := Lanes(b0 + b1, b2 + b3, b4 + b5, b6 + b7);
    assert Lanes(b0, b2, b4, b6) + Lanes(b1, b3, b5, b7) == s;
    TopLane(b0 + b1, b2 + b3, b4 + b5, b6 + b7);
    Cut(s, 0);
    assert s % TWO_64 == s;
  }

  /** The hash is the sum of the eight bytes modulo the number of partitions. */
  lemma HashIsByteSum(key: nat, number: nat)
    requires number >= 1 && key < TWO_64
    ensures Nid4CptHash(key, number) == ByteSum(key) % number
  {
    MaskKeepsEven(key);
    MaskKeepsEven(key / 256);
    OddBytes(key);
    LanesAdded(Byte(key, 0), Byte(key, 1), Byte(key, 2), Byte(key, 3), Byte(key, 4), Byte(key, 5), Byte(key, 6), Byte(key, 7));
    Fits(ByteSum(key));
  }

  lemma Fits(x: nat)
    requires x < TWO_32
    ensures x % TWO_32 == x
  {
  }
}
