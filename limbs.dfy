/** Words, limbs and the two foreign primitives the field codec is built on:
    the 64-bit bit reversal `swap_bits_u64` of sapling_crypto and the
    big-endian limb reader/writer `read_be`/`write_be` of pairing's `FrRepr`.
    Neither primitive's source is part of this model; each is given by a body
    whose contract is the behaviour the codec relies on. */
module Limbs {

  type Byte = bv8
  type Limb = bv64

  /** A BLS12-381 scalar-field representation (`FrRepr`): four limbs, limb 0
      the least significant. No range reduction is implied. */
  type Repr = f: seq<Limb> | |f| == 4 witness [0, 0, 0, 0]

  /** Bit `k` of a limb, counting from the least significant bit. */
  predicate Bit(x: Limb, k: bv64)
    requires k < 64
  {
    (x >> k) & 1 == 1
  }

  /** Bit `j` of a byte, counting from the least significant bit. */
  predicate ByteBit(b: Byte, j: bv8)
    requires j < 8
  {
    (b >> j) & 1 == 1
  }

  /** Bit position `i` (0 to 63) of a limb as a shift amount. This is the
      identity from `int` to `bv64`; it is written by recursion only because
      the solver handles that form far more cheaply than a direct conversion. */
  function BitIndex(i: int): (k: bv64)
    requires 0 <= i < 64
    ensures k < 64 && k as int == i
  {
    if i == 0 then 0 else BitIndex(i - 1) + 1
  }

  /** Testing a bit with a one-bit mask, as `x & (1 << k) > 0`, is `Bit`. */
  lemma MaskBit(x: Limb, k: bv64)
    requires k < 64
    ensures (x & (1 << k) > 0) == Bit(x, k)
  {
  }

  /** A byte is determined by its eight bits. */
  lemma ByteExt(x: Byte, y: Byte)
    requires ByteBit(x, 0) == ByteBit(y, 0) && ByteBit(x, 1) == ByteBit(y, 1)
    requires ByteBit(x, 2) == ByteBit(y, 2) && ByteBit(x, 3) == ByteBit(y, 3)
    requires ByteBit(x, 4) == ByteBit(y, 4) && ByteBit(x, 5) == ByteBit(y, 5)
    requires ByteBit(x, 6) == ByteBit(y, 6) && ByteBit(x, 7) == ByteBit(y, 7)
    ensures x == y
  {
  }

  /** `swap_bits_u64`: reverses the order of the 64 bits of a limb. */
  function SwapBitsU64(x: Limb): (r: Limb)
    ensures forall k: bv64 :: k < 64 ==> Bit(r, k) == Bit(x, 63 - k)
  {
    var x1 := ((x >> 1) & 0x5555_5555_5555_5555) | ((x & 0x5555_5555_5555_5555) << 1);
    var x2 := ((x1 >> 2) & 0x3333_3333_3333_3333) | ((x1 & 0x3333_3333_3333_3333) << 2);
    var x3 := ((x2 >> 4) & 0x0F0F_0F0F_0F0F_0F0F) | ((x2 & 0x0F0F_0F0F_0F0F_0F0F) << 4);
    var x4 := ((x3 >> 8) & 0x00FF_00FF_00FF_00FF) | ((x3 & 0x00FF_00FF_00FF_00FF) << 8);
    var x5 := ((x4 >> 16) & 0x0000_FFFF_0000_FFFF) | ((x4 & 0x0000_FFFF_0000_FFFF) << 16);
    (x5 >> 32) | (x5 << 32)
  }

  /** Reversing the bits twice gives the limb back. */
  lemma SwapBitsInvolution(x: Limb)
    ensures SwapBitsU64(SwapBitsU64(x)) == x
  {
  }

  /** A limb read from eight bytes, most significant byte first
      (`read_u64::<BigEndian>`). */
  function BeWord(s: seq<Byte>): (x: Limb)
    requires |s| == 8
  {
    (s[0] as bv64 << 56) | (s[1] as bv64 << 48) | (s[2] as bv64 << 40) | (s[3] as bv64 << 32) |
    (s[4] as bv64 << 24) | (s[5] as bv64 << 16) | (s[6] as bv64 << 8) | s[7] as bv64
  }

  /** The eight bytes of a limb, most significant byte first
      (`write_u64::<BigEndian>`). */
  function BeBytes(x: Limb): (s: seq<Byte>)
    ensures |s| == 8
  {
    [(x >> 56) as bv8, ((x >> 48) & 0xFF) as bv8, ((x >> 40) & 0xFF) as bv8, ((x >> 32) & 0xFF) as bv8,
     ((x >> 24) & 0xFF) as bv8, ((x >> 16) & 0xFF) as bv8, ((x >> 8) & 0xFF) as bv8, (x & 0xFF) as bv8]
  }

  /** Bit `k` of a big-endian word is bit `k % 8` of byte `7 - k / 8`. */
  lemma BeWordBit(s: seq<Byte>, k: bv64)
    requires |s| == 8 && k < 64
    ensures Bit(BeWord(s), k) == ByteBit(s[7 - (k / 8) as int], (k % 8) as bv8)
  {
  }

  lemma BeWordBytes(x: Limb)
    ensures BeWord(BeBytes(x)) == x
  {
  }

  lemma BeBytesWord(s: seq<Byte>)
    requires |s| == 8
    ensures BeBytes(BeWord(s)) == s
  {
  }

  /** `FrRepr::read_be` on a 32-byte buffer: limb 3 from bytes 0..8, limb 2
      from bytes 8..16, limb 1 from 16..24 and limb 0 from 24..32, each word
      big-endian. */
  function ReadBe(bytes: seq<Byte>): (f: Repr)
    requires |bytes| == 32
  {
    [BeWord(bytes[24..32]), BeWord(bytes[16..24]), BeWord(bytes[8..16]), BeWord(bytes[0..8])]
  }

  /** `FrRepr::write_be` into a 32-byte buffer: the big-endian words of limbs
      3, 2, 1 and 0, in that order. */
  function WriteBe(f: Repr): (bytes: seq<Byte>)
    ensures |bytes| == 32
  {
    BeBytes(f[3]) + BeBytes(f[2]) + BeBytes(f[1]) + BeBytes(f[0])
  }

  /** Limb `w` that `ReadBe` gives is the big-endian word at bytes
      `8 * (3 - w) .. 8 * (3 - w) + 8`. */
  lemma ReadBeWord(bytes: seq<Byte>, w: int)
    requires |bytes| == 32 && 0 <= w < 4
    ensures ReadBe(bytes)[w] == BeWord(bytes[8 * (3 - w)..8 * (3 - w) + 8])
  {
    if w == 0 {
      assert 8 * (3 - w) == 24;
    } else if w == 1 {
      assert 8 * (3 - w) == 16;
    } else if w == 2 {
      assert 8 * (3 - w) == 8;
    } else {
      assert 8 * (3 - w) == 0;
    }
  }

  /** The four eight-element pieces of a concatenation are its slices. */
  lemma ConcatSlices<T>(a: seq<T>, b: seq<T>, c: seq<T>, d: seq<T>)
    requires |a| == 8 && |b| == 8 && |c| == 8 && |d| == 8
    ensures (a + b + c + d)[0..8] == a && (a + b + c + d)[8..16] == b
    ensures (a + b + c + d)[16..24] == c && (a + b + c + d)[24..32] == d
  {
  }

  /** The eight bytes `WriteBe` gives limb `w` are that limb's big-endian word. */
  lemma WriteBeWord(f: Repr, w: int)
    requires 0 <= w < 4
    ensures WriteBe(f)[8 * (3 - w)..8 * (3 - w) + 8] == BeBytes(f[w])
  {
    ConcatSlices(BeBytes(f[3]), BeBytes(f[2]), BeBytes(f[1]), BeBytes(f[0]));
    if w == 0 {
      assert 8 * (3 - w) == 24;
    } else if w == 1 {
      assert 8 * (3 - w) == 16;
    } else if w == 2 {
      assert 8 * (3 - w) == 8;
    } else {
      assert 8 * (3 - w) == 0;
    }
  }

  /** Writing a repr and reading it back gives the same limbs. */
  lemma {:induction false} ReadBeWriteBe(f: Repr)
    ensures ReadBe(WriteBe(f)) == f
  {
    forall w | 0 <= w < 4 ensures ReadBe(WriteBe(f))[w] == f[w] {
      ReadBeWord(WriteBe(f), w);
      WriteBeWord(f, w);
      BeWordBytes(f[w]);
    }
  }

  /** A 32-element sequence is the concatenation of its four eighths. */
  lemma SplitInFour<T>(s: seq<T>)
    requires |s| == 32
    ensures s == s[0..8] + s[8..16] + s[16..24] + s[24..32]
  {
  }

  /** Reading 32 bytes and writing them back gives the same bytes. */
  lemma {:induction false} WriteBeReadBe(bytes: seq<Byte>)
    requires |bytes| == 32
    ensures WriteBe(ReadBe(bytes)) == bytes
  {
    BeBytesWord(bytes[0..8]);
    BeBytesWord(bytes[8..16]);
    BeBytesWord(bytes[16..24]);
    BeBytesWord(bytes[24..32]);
    SplitInFour(bytes);
  }

  /** `read_be` as pairing runs it on a limb array: the limbs are visited from
      the last to the first and each takes the next big-endian word. */
  method ReadBeInto(f: array<Limb>, from: seq<Byte>)
    requires f.Length == 4 && |from| == 32
    modifies f
    ensures f[..] == ReadBe(from)
  {
    var i := 0;
    while i < 4
      invariant 0 <= i <= 4
      invariant forall w :: 4 - i <= w < 4 ==> f[w] == BeWord(from[8 * (3 - w)..8 * (3 - w) + 8])
    {
      f[3 - i] := BeWord(from[8 * i..8 * i + 8]);
      i := i + 1;
    }
  }

  /** `write_u64::<BigEndian>` into `to` at offset `at`. */
  method WriteWordAt(to: array<Byte>, at: int, x: Limb)
    requires 0 <= at && at + 8 <= to.Length
    modifies to
    ensures forall p :: 0 <= p < at ==> to[p] == old(to[p])
    ensures to[at..at + 8] == BeBytes(x)
  {
    var word := BeBytes(x);
    forall q | 0 <= q < 8 {
      to[at + q] := word[q];
    }
  }

  /** The bytes `write_be` has produced after visiting `i` limbs. */
  function WriteBePrefix(f: Repr, i: nat): (s: seq<Byte>)
    requires i <= 4
    ensures |s| == 8 * i
  {
    if i == 0 then [] else WriteBePrefix(f, i - 1) + BeBytes(f[4 - i])
  }

  /** Visiting all four limbs gives the whole of `WriteBe`. */
  lemma {:induction false} WriteBePrefixWhole(f: Repr)
    ensures WriteBePrefix(f, 4) == WriteBe(f)
  {
    assert WriteBePrefix(f, 1) == BeBytes(f[3]);
    assert WriteBePrefix(f, 2) == BeBytes(f[3]) + BeBytes(f[2]);
    assert WriteBePrefix(f, 3) == BeBytes(f[3]) + BeBytes(f[2]) + BeBytes(f[1]);
  }

  /** `write_be` as pairing runs it: the limbs are visited from the last to the
      first and each writes its big-endian word at the next eight bytes. */
  method WriteBeInto(f: Repr, to: array<Byte>)
    requires to.Length == 32
    modifies to
    ensures to[..] == WriteBe(f)
  {
    var i := 0;
    while i < 4
      invariant 0 <= i <= 4
      invariant to[..8 * i] == WriteBePrefix(f, i)
    {
      ghost var before := to[..8 * i];
      WriteWordAt(to, 8 * i, f[3 - i]);
      assert to[..8 * i] == before;
      assert to[..8 * i + 8] == to[..8 * i] + to[8 * i..8 * i + 8];
      i := i + 1;
    }
    assert to[..] == to[..32];
    WriteBePrefixWhole(f);
  }
}
