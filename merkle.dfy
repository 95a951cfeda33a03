/** `librustzcash_merkle_hash` and `librustzcash_tree_uncommitted` of
    src/rustzcash.rs: how the two 32-byte operands become the bit string the
    Pedersen hash consumes, and how the hash's x-coordinate is written back. */
module Merkle {

  import opened Wrappers
  import opened Limbs
  import opened FieldCodec

  /** `Fr::NUM_BITS`: the bit length of the BLS12-381 scalar-field modulus. */
  const NumBits: nat := 255

  /** A C `size_t` on a 64-bit target. */
  type SizeT = n: int | 0 <= n < 0x1_0000_0000_0000_0000

  /** The personalization the hash is domain-separated by; only the Merkle
      tree layer is used here. */
  datatype Personalization = MerkleTree(depth: SizeT)

  /** sapling_crypto's `pedersen_hash` followed by `into_xy().0.into_repr()`:
      the x-coordinate of the hash point as a field representation. */
  type PedersenX = (Personalization, seq<bool>) -> Repr

  /** Bit `i` (0 to 63) of a limb. */
  predicate LimbBit(x: Limb, i: int)
    requires 0 <= i < 64
  {
    Bit(x, BitIndex(i))
  }

  /** Bit `n` (0 to 255, least significant first) of a representation. */
  predicate ReprBit(f: Repr, n: int)
    requires 0 <= n < 256
  {
    LimbBit(f[n / 64], n % 64)
  }

  /** The 256 bits of a representation, least significant first. */
  function ReprBits(f: Repr): (s: seq<bool>)
    ensures |s| == 256
  {
    seq(256, n requires 0 <= n < 256 => ReprBit(f, n))
  }

  /** The bit string handed to the hash: the low `NumBits` bits of `a`, then
      the low `NumBits` bits of `b`, each least significant first. */
  function MerkleInput(a: Repr, b: Repr): (s: seq<bool>)
    ensures |s| == 2 * NumBits
    ensures forall n :: 0 <= n < NumBits ==> s[n] == ReprBit(a, n) && s[NumBits + n] == ReprBit(b, n)
  {
    ReprBits(a)[..NumBits] + ReprBits(b)[..NumBits]
  }

  /** The test `BitIterator` applies to a limb: `x & (1 << bit) > 0`. */
  predicate TestBit(x: Limb, bit: int)
    requires 0 <= bit < 64
  {
    x & (1 << BitIndex(bit)) > 0
  }

  /** Testing with a one-bit mask reads the bit. */
  lemma TestBitIsBit(x: Limb, bit: int)
    requires 0 <= bit < 64
    ensures TestBit(x, bit) == LimbBit(x, bit)
  {
    MaskBit(x, BitIndex(bit));
  }

  /** The item `BitIterator` yields once its counter has stepped down to
      `n`: limb `n / 64`, bit `n - 64 * (n / 64)`, is bit `n` of the
      representation. */
  lemma BitIteratorItem(f: Repr, n: int)
    requires 0 <= n < 256
    ensures 0 <= n - 64 * (n / 64) < 64
    ensures TestBit(f[n / 64], n - 64 * (n / 64)) == ReprBit(f, n)
  {
    assert n - 64 * (n / 64) == n % 64;
    TestBitIsBit(f[n / 64], n % 64);
  }

  /** The zip of `lhs.iter_mut().rev()` with `BitIterator::new(f)`: the
      iterator's counter `n` runs down from 256 and, in lockstep, the slot
      written runs down from the end of the array, so slot `j` receives bit
      `j` of `f`. */
  method FillFromBitIterator(arr: array<bool>, f: Repr)
    requires arr.Length == 256
    modifies arr
    ensures arr[..] == ReprBits(f)
  {
    var n := 256;
    while n > 0
      invariant 0 <= n <= 256
      invariant forall j :: n <= j < 256 ==> arr[j] == ReprBit(f, j)
    {
      n := n - 1;
      var part := n / 64;
      var bit := n - 64 * part;
      BitIteratorItem(f, n);
      arr[n] := TestBit(f[part], bit);
    }
  }

  /** What `librustzcash_merkle_hash` writes for `depth`, `a` and `b`: the
      encoding of the hash of the two operands' bit strings. */
  function MerkleHashResult(hash: PedersenX, depth: SizeT, a: seq<Byte>, b: seq<Byte>): (r: seq<Byte>)
    requires |a| == 32 && |b| == 32
    ensures |r| == 32
    ensures Decode(r) == hash(MerkleTree(depth), MerkleInput(Decode(a), Decode(b)))
  {
    var r := Encode(hash(MerkleTree(depth), MerkleInput(Decode(a), Decode(b))));
    DecodeEncode(hash(MerkleTree(depth), MerkleInput(Decode(a), Decode(b))));
    r
  }

  /** `librustzcash_merkle_hash`; the operand and result pointers are to
      32-byte arrays, so the lengths are part of the types. */
  method MerkleHash(hash: PedersenX, depth: SizeT, a: seq<Byte>, b: seq<Byte>, result: array<Byte>)
    requires |a| == 32 && |b| == 32 && result.Length == 32
    modifies result
    ensures result[..] == MerkleHashResult(hash, depth, a, b)
  {
    var aRepr := ReadLe(a);
    var bRepr := ReadLe(b);
    var lhs := new bool[256](_ => false);
    var rhs := new bool[256](_ => false);
    FillFromBitIterator(lhs, aRepr.value);
    FillFromBitIterator(rhs, bRepr.value);
    var tmp := hash(MerkleTree(depth), lhs[..NumBits] + rhs[..NumBits]);
    var ok := WriteLe(tmp, result);
  }

  // One-fact conversions between `int` and bit-vector values. Each is stated
  // on its own because the solver proves it quickly in isolation but runs
  // out of resource when the fact has to be found inside a larger proof.

  lemma ByteOfBitIndex(k: bv64)
    requires k < 64
    ensures (k / 8) as int == (k as int) / 8
  {
  }

  lemma BitOfBitIndex(k: bv64)
    requires k < 64
    ensures ((k % 8) as bv8) as int == (k as int) % 8
  {
  }

  lemma SmallToByte(i: int)
    requires 0 <= i < 8
    ensures (i as bv8) as int == i
  {
  }

  lemma ByteValues(x: Byte, y: Byte)
    requires x as int == y as int
    ensures x == y
  {
  }

  lemma FlipBitValue(x: Byte)
    requires x < 8
    ensures (7 - x) as int == 7 - x as int
  {
  }

  /** Position `i` (0 to 63) of a limb split into a byte of the big-endian
      word and a bit of that byte, most significant first. */
  lemma BitIndexBytes(i: int)
    requires 0 <= i < 64
    ensures (BitIndex(i) / 8) as int == i / 8
    ensures 7 - (BitIndex(i) % 8) as bv8 == (7 - i % 8) as bv8
  {
    var k := BitIndex(i);
    ByteOfBitIndex(k);
    BitOfBitIndex(k);
    var x := (k % 8) as bv8;
    SmallToByte(7 - i % 8);
    FlipBitValue(x);
    ByteValues(7 - x, (7 - i % 8) as bv8);
  }

  /** Bit `i` of limb `w` of a decoded buffer is bit `7 - i % 8` of byte
      `8 * w + i / 8`. */
  lemma DecodeLimbBit(bytes: seq<Byte>, w: int, i: int)
    requires |bytes| == 32 && 0 <= w < 4 && 0 <= i < 64
    ensures LimbBit(Decode(bytes)[w], i) == ByteBit(bytes[8 * w + i / 8], (7 - i % 8) as bv8)
  {
    BitIndexBytes(i);
    DecodeBitAt(bytes, w, BitIndex(i), i / 8, (7 - i % 8) as bv8);
  }

  /** `DecodeBit` with the byte offset and the bit within the byte named. */
  lemma DecodeBitAt(bytes: seq<Byte>, w: int, k: bv64, p: int, j: bv8)
    requires |bytes| == 32 && 0 <= w < 4 && k < 64 && 0 <= p < 8 && j < 8
    requires (k / 8) as int == p && 7 - (k % 8) as bv8 == j
    ensures Bit(Decode(bytes)[w], k) == ByteBit(bytes[8 * w + p], j)
  {
    DecodeBit(bytes, w, k);
  }

  /** Bit `n` of a decoded buffer is bit `7 - n % 8` of byte `n / 8`. */
  lemma DecodeReprBit(bytes: seq<Byte>, n: int)
    requires |bytes| == 32 && 0 <= n < 256
    ensures ReprBit(Decode(bytes), n) == ByteBit(bytes[n / 8], (7 - n % 8) as bv8)
  {
    DecodeLimbBit(bytes, n / 64, n % 64);
    assert 8 * (n / 64) + (n % 64) / 8 == n / 8;
    assert (n % 64) % 8 == n % 8;
  }

  /** Where bit `n` of an operand appears in the hash input, in terms of the
      32 bytes it was decoded from: `a`'s bits first, then `b`'s. */
  lemma MerkleInputBytes(a: seq<Byte>, b: seq<Byte>, n: int)
    requires |a| == 32 && |b| == 32 && 0 <= n < NumBits
    ensures MerkleInput(Decode(a), Decode(b))[n] == ByteBit(a[n / 8], (7 - n % 8) as bv8)
    ensures MerkleInput(Decode(a), Decode(b))[NumBits + n] == ByteBit(b[n / 8], (7 - n % 8) as bv8)
  {
    DecodeReprBit(a, n);
    DecodeReprBit(b, n);
  }

  /** Bit 255 of a decoded operand, the one the hash never sees, is the low
      bit of its last byte. */
  lemma Bit255IsLastByteLow(a: seq<Byte>)
    requires |a| == 32
    ensures ReprBit(Decode(a), 255) == ByteBit(a[31], 0)
  {
    DecodeReprBit(a, 255);
  }

  /** An operand with that bit cleared. */
  function ClearBit255(s: seq<Byte>): (r: seq<Byte>)
    requires |s| == 32
    ensures |r| == 32
  {
    s[..31] + [s[31] & 0xFE]
  }

  lemma ClearLowBit(x: Byte)
    ensures !ByteBit(x & 0xFE, 0)
    ensures forall j: bv8 :: 1 <= j < 8 ==> ByteBit(x & 0xFE, j) == ByteBit(x, j)
  {
  }

  /** Every bit other than bit 255, as a (byte, bit) position. */
  predicate Kept(i: int, j: bv8)
  {
    0 <= i < 32 && j < 8 && (i < 31 || j > 0)
  }

  /** Buffers that agree once bit 255 is cleared agree on every kept bit. */
  lemma KeptBitOfCleared(s: seq<Byte>, t: seq<Byte>, i: int, j: bv8)
    requires |s| == 32 && |t| == 32 && ClearBit255(s) == ClearBit255(t) && Kept(i, j)
    ensures ByteBit(s[i], j) == ByteBit(t[i], j)
  {
    if i < 31 {
      assert s[i] == ClearBit255(s)[i];
      assert t[i] == ClearBit255(t)[i];
    } else {
      ClearLowBit(s[31]);
      ClearLowBit(t[31]);
      assert ClearBit255(s)[31] == s[31] & 0xFE;
      assert ClearBit255(t)[31] == t[31] & 0xFE;
    }
  }

  /** Byte `i` of two buffers with bit 255 cleared, given all kept bits agree. */
  lemma ClearedByteOfKeptBits(s: seq<Byte>, t: seq<Byte>, i: int)
    requires |s| == 32 && |t| == 32 && 0 <= i < 32
    requires forall j: bv8 :: Kept(i, j) ==> ByteBit(s[i], j) == ByteBit(t[i], j)
    ensures ClearBit255(s)[i] == ClearBit255(t)[i]
  {
    if i < 31 {
      assert Kept(i, 0) && Kept(i, 1) && Kept(i, 2) && Kept(i, 3);
      assert Kept(i, 4) && Kept(i, 5) && Kept(i, 6) && Kept(i, 7);
      ByteExt(s[i], t[i]);
    } else {
      assert Kept(31, 1) && Kept(31, 2) && Kept(31, 3);
      assert Kept(31, 4) && Kept(31, 5) && Kept(31, 6) && Kept(31, 7);
      ClearLowBit(s[31]);
      ClearLowBit(t[31]);
      ByteExt(s[31] & 0xFE, t[31] & 0xFE);
    }
  }

  /** Two buffers agree once bit 255 is cleared exactly when they agree on
      every kept bit. */
  lemma {:induction false} ClearBit255Iff(s: seq<Byte>, t: seq<Byte>)
    requires |s| == 32 && |t| == 32
    ensures ClearBit255(s) == ClearBit255(t) <==>
      forall i: int, j: bv8 :: Kept(i, j) ==> ByteBit(s[i], j) == ByteBit(t[i], j)
  {
    if ClearBit255(s) == ClearBit255(t) {
      forall i: int, j: bv8 | Kept(i, j) ensures ByteBit(s[i], j) == ByteBit(t[i], j) {
        KeptBitOfCleared(s, t, i, j);
      }
    }
    if forall i: int, j: bv8 :: Kept(i, j) ==> ByteBit(s[i], j) == ByteBit(t[i], j) {
      forall i | 0 <= i < 32 ensures ClearBit255(s)[i] == ClearBit255(t)[i] {
        ClearedByteOfKeptBits(s, t, i);
      }
    }
  }

  /** A one-fact conversion, kept apart for the same reason as those above. */
  lemma IntToByte(j: bv8)
    ensures (j as int) as bv8 == j
  {
  }

  /** The input position of the kept bit `j` of byte `i`. */
  lemma PositionOf(i: int, j: bv8)
    requires Kept(i, j)
    ensures 0 <= 8 * i + 7 - j as int < NumBits
    ensures (8 * i + 7 - j as int) / 8 == i
    ensures (7 - (8 * i + 7 - j as int) % 8) as bv8 == j
  {
    var n := 8 * i + 7 - j as int;
    assert n % 8 == 7 - j as int;
    IntToByte(j);
  }

  /** The byte and bit an input position below `NumBits` comes from is kept. */
  lemma KeptOf(n: int)
    requires 0 <= n < NumBits
    ensures Kept(n / 8, (7 - n % 8) as bv8)
  {
    SmallToByte(7 - n % 8);
  }

  /** Equal hash inputs agree on every kept bit of both operands. */
  lemma KeptBitOfInput(a: seq<Byte>, b: seq<Byte>, a2: seq<Byte>, b2: seq<Byte>, i: int, j: bv8)
    requires |a| == 32 && |b| == 32 && |a2| == 32 && |b2| == 32 && Kept(i, j)
    requires MerkleInput(Decode(a), Decode(b)) == MerkleInput(Decode(a2), Decode(b2))
    ensures ByteBit(a[i], j) == ByteBit(a2[i], j) && ByteBit(b[i], j) == ByteBit(b2[i], j)
  {
    var n := 8 * i + 7 - j as int;
    PositionOf(i, j);
    MerkleInputBytes(a, b, n);
    MerkleInputBytes(a2, b2, n);
  }

  /** Operands agreeing on every kept bit give equal input at position `n`. */
  lemma InputOfKeptBits(a: seq<Byte>, b: seq<Byte>, a2: seq<Byte>, b2: seq<Byte>, n: int)
    requires |a| == 32 && |b| == 32 && |a2| == 32 && |b2| == 32 && 0 <= n < 2 * NumBits
    requires forall i: int, j: bv8 :: Kept(i, j) ==> ByteBit(a[i], j) == ByteBit(a2[i], j)
    requires forall i: int, j: bv8 :: Kept(i, j) ==> ByteBit(b[i], j) == ByteBit(b2[i], j)
    ensures MerkleInput(Decode(a), Decode(b))[n] == MerkleInput(Decode(a2), Decode(b2))[n]
  {
    var p := if n < NumBits then n else n - NumBits;
    KeptOf(p);
    MerkleInputBytes(a, b, p);
    MerkleInputBytes(a2, b2, p);
  }

  /** The hash sees the same bits for `(a, b)` and `(a2, b2)` exactly when
      the operands agree everywhere except bit 255. */
  lemma {:induction false} MerkleInputIff(a: seq<Byte>, b: seq<Byte>, a2: seq<Byte>, b2: seq<Byte>)
    requires |a| == 32 && |b| == 32 && |a2| == 32 && |b2| == 32
    ensures MerkleInput(Decode(a), Decode(b)) == MerkleInput(Decode(a2), Decode(b2)) <==>
      ClearBit255(a) == ClearBit255(a2) && ClearBit255(b) == ClearBit255(b2)
  {
    var m := MerkleInput(Decode(a), Decode(b));
    var m2 := MerkleInput(Decode(a2), Decode(b2));
    ClearBit255Iff(a, a2);
    ClearBit255Iff(b, b2);
    if m == m2 {
      forall i: int, j: bv8 | Kept(i, j)
        ensures ByteBit(a[i], j) == ByteBit(a2[i], j) && ByteBit(b[i], j) == ByteBit(b2[i], j)
      {
        KeptBitOfInput(a, b, a2, b2, i, j);
      }
    }
    if ClearBit255(a) == ClearBit255(a2) && ClearBit255(b) == ClearBit255(b2) {
      forall n | 0 <= n < 2 * NumBits ensures m[n] == m2[n] {
        InputOfKeptBits(a, b, a2, b2, n);
      }
    }
  }

  /** Changing bit 255 of either operand does not change the result. */
  lemma {:induction false} MerkleHashIgnoresBit255(hash: PedersenX, depth: SizeT, a: seq<Byte>, b: seq<Byte>, a2: seq<Byte>, b2: seq<Byte>)
    requires |a| == 32 && |b| == 32 && |a2| == 32 && |b2| == 32
    requires ClearBit255(a) == ClearBit255(a2) && ClearBit255(b) == ClearBit255(b2)
    ensures MerkleHashResult(hash, depth, a, b) == MerkleHashResult(hash, depth, a2, b2)
  {
    MerkleInputIff(a, b, a2, b2);
  }

  /** The operands are not interchangeable: swapping them gives the hash the
      same bits only when they agree everywhere except bit 255. */
  lemma {:induction false} MerkleInputOrder(a: seq<Byte>, b: seq<Byte>)
    requires |a| == 32 && |b| == 32
    ensures MerkleInput(Decode(a), Decode(b)) == MerkleInput(Decode(b), Decode(a)) <==>
      ClearBit255(a) == ClearBit255(b)
  {
    MerkleInputIff(a, b, b, a);
  }

  /** `depth` reaches the result only through the personalization: two depths
      give the same result exactly when the hash, under their two
      personalizations, agrees on the operands' bits. */
  lemma {:induction false} MerkleHashDepth(hash: PedersenX, d1: SizeT, d2: SizeT, a: seq<Byte>, b: seq<Byte>)
    requires |a| == 32 && |b| == 32
    ensures MerkleHashResult(hash, d1, a, b) == MerkleHashResult(hash, d2, a, b) <==>
      hash(MerkleTree(d1), MerkleInput(Decode(a), Decode(b))) == hash(MerkleTree(d2), MerkleInput(Decode(a), Decode(b)))
  {
    EncodeInjective(hash(MerkleTree(d1), MerkleInput(Decode(a), Decode(b))),
                    hash(MerkleTree(d2), MerkleInput(Decode(a), Decode(b))));
  }

  /** `Note::uncommitted()` of sapling_crypto is the field element one, whose
      representation is the limbs `[1, 0, 0, 0]`. */
  const UncommittedRepr: Repr := [1, 0, 0, 0]

  /** The 32 bytes `librustzcash_tree_uncommitted` writes: the set top bit of
      the first byte carries bit 0 of the representation. */
  function UncommittedBytes(): (r: seq<Byte>)
    ensures |r| == 32 && r[0] == 0x80 && forall i :: 1 <= i < 32 ==> r[i] == 0
  {
    [0x80] + seq(31, _ => 0)
  }

  lemma UncommittedEncoding()
    ensures Encode(UncommittedRepr) == UncommittedBytes()
  {
  }

  /** `librustzcash_tree_uncommitted`. */
  method TreeUncommitted(result: array<Byte>)
    requires result.Length == 32
    modifies result
    ensures result[..] == UncommittedBytes()
    ensures Decode(result[..]) == UncommittedRepr
  {
    var tmp := UncommittedRepr;
    var ok := WriteLe(tmp, result);
    UncommittedEncoding();
    DecodeEncode(UncommittedRepr);
  }
}
