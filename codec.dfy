/** The field-representation codec `read_le`/`write_le` of src/rustzcash.rs.

    `read_le` reads 32 bytes big-endian into the four limbs, reverses the limb
    order and reverses the bits of every limb; `write_le` does the same two
    in-place steps and then writes the limbs big-endian. The net layout: bit
    `k` of limb `w` is bit `7 - k % 8` of byte `8 * w + k / 8`, so the bytes
    are taken in order and the bits of each byte most significant first. */
module FieldCodec {

  import opened Wrappers
  import opened Limbs

  /** The limbs in the opposite order (`<[u64]>::reverse`). */
  function Reverse(s: seq<Limb>): (r: seq<Limb>)
    ensures |r| == |s|
  {
    seq(|s|, i requires 0 <= i < |s| => s[|s| - 1 - i])
  }

  /** Every limb with its bits reversed. */
  function SwapEach(s: seq<Limb>): (r: seq<Limb>)
    ensures |r| == |s|
  {
    seq(|s|, i requires 0 <= i < |s| => SwapBitsU64(s[i]))
  }

  /** Reversing the 64 bits of a limb maps bit `63 - k` to bit `k`; in byte
      terms, byte `7 - (63 - k) / 8` becomes byte `k / 8` and bit
      `(63 - k) % 8` within it becomes bit `7 - k % 8`. */
  lemma BitIndexFlip(k: bv64)
    requires k < 64
    ensures 7 - ((63 - k) / 8) as int == (k / 8) as int
    ensures ((63 - k) % 8) as bv8 == 7 - (k % 8) as bv8
  {
  }

  /** What `read_le` returns for a 32-byte buffer. Every buffer decodes: the
      result is a raw representation, not reduced modulo the field order. */
  function Decode(bytes: seq<Byte>): (f: Repr)
    requires |bytes| == 32
  {
    SwapEach(Reverse(ReadBe(bytes)))
  }

  /** What `write_le` stores for a representation. */
  function Encode(f: Repr): (bytes: seq<Byte>)
    ensures |bytes| == 32
  {
    WriteBe(SwapEach(Reverse(f)))
  }

  /** One limb as `read_le` builds it from eight bytes: bit `k` of the limb is
      bit `7 - k % 8` of byte `k / 8`. */
  lemma LeWordBit(s: seq<Byte>, k: bv64)
    requires |s| == 8 && k < 64
    ensures Bit(SwapBitsU64(BeWord(s)), k) == ByteBit(s[(k / 8) as int], 7 - (k % 8) as bv8)
  {
    BeWordBit(s, 63 - k);
    BitIndexFlip(k);
  }

  /** Limb `w` of a decoded buffer comes from bytes `8 * w .. 8 * w + 8`. */
  lemma DecodeLimb(bytes: seq<Byte>, w: int)
    requires |bytes| == 32 && 0 <= w < 4
    ensures Decode(bytes)[w] == SwapBitsU64(BeWord(bytes[8 * w..8 * w + 8]))
  {
  }

  /** Bytes `8 * w .. 8 * w + 8` of an encoding come from limb `w`. */
  lemma EncodeLimb(f: Repr, w: int)
    requires 0 <= w < 4
    ensures Encode(f)[8 * w..8 * w + 8] == BeBytes(SwapBitsU64(f[w]))
  {
    var g := SwapEach(Reverse(f));
    assert g[3 - w] == SwapBitsU64(f[w]);
    WriteBeWord(g, 3 - w);
    assert 3 - (3 - w) == w;
  }

  /** The bit layout of `read_le`: bit `k` of limb `w` is bit `7 - k % 8` of
      byte `8 * w + k / 8`. */
  lemma DecodeBit(bytes: seq<Byte>, w: int, k: bv64)
    requires |bytes| == 32 && 0 <= w < 4 && k < 64
    ensures Bit(Decode(bytes)[w], k) == ByteBit(bytes[8 * w + (k / 8) as int], 7 - (k % 8) as bv8)
  {
    DecodeLimb(bytes, w);
    LeWordBit(bytes[8 * w..8 * w + 8], k);
  }

  /** The bit layout of `write_le`: bit `7 - k % 8` of byte `8 * w + k / 8`
      is bit `k` of limb `w`. */
  lemma EncodeBit(f: Repr, w: int, k: bv64)
    requires 0 <= w < 4 && k < 64
    ensures ByteBit(Encode(f)[8 * w + (k / 8) as int], 7 - (k % 8) as bv8) == Bit(f[w], k)
  {
    var s := BeBytes(SwapBitsU64(f[w]));
    EncodeLimb(f, w);
    BeWordBytes(SwapBitsU64(f[w]));
    SwapBitsInvolution(f[w]);
    LeWordBit(s, k);
  }

  lemma {:induction false} ReverseReverse(s: seq<Limb>)
    ensures Reverse(Reverse(s)) == s
  {
    forall i | 0 <= i < |s| ensures Reverse(Reverse(s))[i] == s[i] {
      assert Reverse(Reverse(s))[i] == Reverse(s)[|s| - 1 - i];
    }
  }

  lemma {:induction false} SwapEachSwapEach(s: seq<Limb>)
    ensures SwapEach(SwapEach(s)) == s
  {
    forall i | 0 <= i < |s| ensures SwapEach(SwapEach(s))[i] == s[i] {
      SwapBitsInvolution(s[i]);
    }
  }

  /** Bit-reversing every limb commutes with reversing the limb order. */
  lemma SwapEachReverse(s: seq<Limb>)
    ensures SwapEach(Reverse(s)) == Reverse(SwapEach(s))
  {
  }

  /** `read_le(write_le(f)) == f` for every representation. */
  lemma {:induction false} DecodeEncode(f: Repr)
    ensures Decode(Encode(f)) == f
  {
    var g: Repr := SwapEach(Reverse(f));
    ReadBeWriteBe(g);
    SwapEachReverse(g);
    SwapEachSwapEach(Reverse(f));
    ReverseReverse(f);
  }

  /** `write_le(read_le(b)) == b` for every 32-byte buffer. */
  lemma {:induction false} EncodeDecode(bytes: seq<Byte>)
    requires |bytes| == 32
    ensures Encode(Decode(bytes)) == bytes
  {
    var g := ReadBe(bytes);
    SwapEachReverse(SwapEach(Reverse(g)));
    SwapEachSwapEach(Reverse(g));
    ReverseReverse(g);
    WriteBeReadBe(bytes);
  }

  /** Distinct representations have distinct encodings. */
  lemma EncodeInjective(f: Repr, g: Repr)
    ensures Encode(f) == Encode(g) <==> f == g
  {
    if Encode(f) == Encode(g) {
      DecodeEncode(f);
      DecodeEncode(g);
    }
  }

  /** `f.as_mut().reverse()` on the limb array. */
  method ReverseLimbs(a: array<Limb>)
    modifies a
    ensures a[..] == Reverse(old(a[..]))
  {
    var n, i := a.Length, 0;
    while i < n / 2
      invariant 0 <= i <= n / 2
      invariant forall p :: 0 <= p < i ==> a[p] == old(a[n - 1 - p]) && a[n - 1 - p] == old(a[p])
      invariant forall p :: i <= p < n - i ==> a[p] == old(a[p])
    {
      a[i], a[n - 1 - i] := a[n - 1 - i], a[i];
      i := i + 1;
    }
  }

  /** `for b in f.as_mut() { *b = swap_bits_u64(*b); }` */
  method SwapEachLimb(a: array<Limb>)
    modifies a
    ensures a[..] == SwapEach(old(a[..]))
  {
    var i := 0;
    while i < a.Length
      invariant 0 <= i <= a.Length
      invariant forall p :: 0 <= p < i ==> a[p] == SwapBitsU64(old(a[p]))
      invariant forall p :: i <= p < a.Length ==> a[p] == old(a[p])
    {
      a[i] := SwapBitsU64(a[i]);
      i := i + 1;
    }
  }

  /** `read_le`: `None` is the abort of `assert_eq!(from.len(), 32)`. */
  method ReadLe(from: seq<Byte>) returns (r: Option<Repr>)
    ensures r.Some? <==> |from| == 32
    ensures r.Some? ==> r.value == Decode(from)
  {
    if |from| != 32 {
      return None;
    }
    var f := new Limb[4];
    ReadBeInto(f, from);
    ReverseLimbs(f);
    SwapEachLimb(f);
    return Some(f[..]);
  }

  /** `write_le`: `false` is the abort of `assert_eq!(to.len(), 32)`, which
      happens before anything is written. */
  method WriteLe(f: Repr, to: array<Byte>) returns (ok: bool)
    modifies to
    ensures ok <==> to.Length == 32
    ensures ok ==> to[..] == Encode(f)
    ensures !ok ==> unchanged(to)
  {
    if to.Length != 32 {
      return false;
    }
    var g := new Limb[4];
    g[0], g[1], g[2], g[3] := f[0], f[1], f[2], f[3];
    assert g[..] == f;
    ReverseLimbs(g);
    SwapEachLimb(g);
    WriteBeInto(g[..], to);
    return true;
  }
}
