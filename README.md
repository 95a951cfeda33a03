# librustzcash core: field codec, Merkle hash input, parameter loading

A Dafny model of `src/rustzcash.rs`, the Rust side of Zcash's first Rust
integration. It has five parts:

- **Field codec** (`wrappers.dfy`, `limbs.dfy`, `codec.dfy`). `read_le` and
  `write_le` convert between a 32-byte buffer and an `FrRepr`, the four
  64-bit limbs of a BLS12-381 scalar. `read_le` reads the buffer big-endian
  (`read_be`), reverses the limb order in place and bit-reverses every limb
  (`swap_bits_u64`). `write_le` does the same two in-place steps and then
  writes big-endian. Both are methods over limb arrays, proved against the
  functions `Decode` and `Encode`:
  - both round trips hold;
  - bit `k` of limb `w` is bit `7 - k % 8` of byte `8 * w + k / 8`.
  The foreign primitives `swap_bits_u64`, `read_be` and `write_be` are given
  bodies whose contracts state the behaviour the codec relies on.
- **Merkle hash** (`merkle.dfy`). `librustzcash_merkle_hash` decodes both
  operands and fills two 256-entry bool arrays from `BitIterator`. It hands
  the first `Fr::NUM_BITS` (255) bits of each array to the Pedersen hash
  under the `MerkleTree(depth)` personalization, then writes the
  x-coordinate back with `write_le`.
  - The Pedersen hash, with the x-coordinate extraction, is a
    function-valued parameter.
  - The model proves where every operand bit lands in the 510-bit input.
  - It proves that the hash sees the same input exactly when the operands
    agree everywhere except bit 255.
  - It proves that `depth` reaches the result only through the
    personalization.
- **Uncommitted leaf** (`merkle.dfy`). `librustzcash_tree_uncommitted` writes
  `write_le` of the field element one: the byte `0x80` followed by 31 zero
  bytes.
- **Parameter loading** (`params.dfy`). `librustzcash_init_zksnark_params`
  decodes three C-string paths, opens three files, and deserializes two
  proving-parameter sets and one verifying key. It prepares three verifying
  keys and only then assigns the six `static mut` slots.
  - The slots are the fields of the class `GlobalParams`.
  - The foreign loaders are function-valued fields of an `Env`.
  - A process abort is the `panic` message the method returns, the message
    argument the source passes to `expect`, with every slot left as it was.
- **Xor** (`xor.dfy`). `librustzcash_xor` and the vector of its unit test.

No range reduction happens anywhere in the codec: `read_le` returns whatever
four limbs the bytes spell out, and so does `Decode`, even when they exceed
the field modulus.

## Model

| member | source | states |
|---|---|---|
| `Limbs.SwapBitsU64` | src/rustzcash.rs:36-38 | bit `k` of the result is bit `63 - k` of the input |
| `Limbs.SwapBitsInvolution` | src/rustzcash.rs:53-56 | reversing the bits of a limb twice gives the limb back |
| `Limbs.ReadBeInto` | src/rustzcash.rs:50-51 | `read_be` on a limb array: limb 3 from bytes 0..8, down to limb 0 from bytes 24..32, each word big-endian |
| `Limbs.WriteBeInto` | src/rustzcash.rs:40 | `write_be` into a 32-byte buffer: the big-endian words of limbs 3, 2, 1, 0 in that order |
| `Limbs.ReadBeWriteBe` | src/rustzcash.rs:40-51 | reading back what `write_be` wrote gives the same limbs |
| `Limbs.WriteBeReadBe` | src/rustzcash.rs:40-51 | writing what `read_be` read gives the same 32 bytes |
| `FieldCodec.ReverseLimbs` | src/rustzcash.rs:35 | the in-place `reverse()` leaves the limb array in the opposite order |
| `FieldCodec.SwapEachLimb` | src/rustzcash.rs:36-38 | the loop leaves every limb bit-reversed in place and no other change |
| `FieldCodec.ReadLe` | src/rustzcash.rs:46-59 | a buffer of any length other than 32 aborts; a 32-byte buffer yields `Decode` of it |
| `FieldCodec.WriteLe` | src/rustzcash.rs:32-41 | a buffer of any length other than 32 aborts with nothing written; otherwise the buffer holds `Encode` of the representation |
| `FieldCodec.DecodeBit` | src/rustzcash.rs:50-56 | bit `k` of decoded limb `w` is bit `7 - k % 8` of byte `8 * w + k / 8` |
| `FieldCodec.EncodeBit` | src/rustzcash.rs:35-40 | the encoding puts bit `k` of limb `w` at bit `7 - k % 8` of byte `8 * w + k / 8` |
| `FieldCodec.DecodeEncode` | src/rustzcash.rs:32-59 | `read_le(write_le(f)) == f` for every representation |
| `FieldCodec.EncodeDecode` | src/rustzcash.rs:32-59 | `write_le(read_le(b)) == b` for every 32-byte buffer |
| `FieldCodec.EncodeInjective` | src/rustzcash.rs:32-41 | two representations have the same encoding exactly when they are equal |
| `Merkle.BitIteratorItem` | src/rustzcash.rs:149-150 | the iterator item for counter `n` (limb `n / 64`, bit `n - 64 * (n / 64)`) is bit `n` of the representation |
| `Merkle.FillFromBitIterator` | src/rustzcash.rs:146-155 | filling the reversed array from `BitIterator` leaves slot `j` holding bit `j` of the representation |
| `Merkle.MerkleInput` | src/rustzcash.rs:157-162 | the hash input has 510 entries: bits 0..254 of `a`, then bits 0..254 of `b`, least significant first |
| `Merkle.DecodeReprBit` | src/rustzcash.rs:139-151 | bit `n` of a decoded operand is bit `7 - n % 8` of byte `n / 8` |
| `Merkle.MerkleInputBytes` | src/rustzcash.rs:139-162 | input position `n` holds bit `7 - n % 8` of byte `n / 8` of `a`, and position `255 + n` the same bit of `b` |
| `Merkle.Bit255IsLastByteLow` | src/rustzcash.rs:146-162 | the operand bit that never reaches the hash, bit 255, is the low bit of the last byte |
| `Merkle.MerkleInputIff` | src/rustzcash.rs:139-162 | two operand pairs give the same hash input exactly when they agree everywhere except bit 255 of each operand |
| `Merkle.MerkleInputOrder` | src/rustzcash.rs:157-162 | swapping the operands gives the same input exactly when they agree everywhere except bit 255 |
| `Merkle.MerkleHashResult` | src/rustzcash.rs:157-172 | the 32 result bytes decode to the hash, under `MerkleTree(depth)`, of the operands' input bits |
| `Merkle.MerkleHashIgnoresBit255` | src/rustzcash.rs:157-172 | changing bit 255 of either operand does not change the result |
| `Merkle.MerkleHashDepth` | src/rustzcash.rs:157-172 | two depths give the same result exactly when the hash agrees under their two personalizations |
| `Merkle.MerkleHash` | src/rustzcash.rs:130-173 | the result buffer holds exactly `MerkleHashResult` of depth and operands |
| `Merkle.UncommittedBytes` | src/rustzcash.rs:119-127 | the uncommitted leaf is the byte `0x80` followed by 31 zero bytes |
| `Merkle.UncommittedEncoding` | src/rustzcash.rs:120-126 | `write_le` of the representation of one is those 32 bytes |
| `Merkle.TreeUncommitted` | src/rustzcash.rs:119-127 | the result buffer holds those bytes, and they decode to the representation of one |
| `ZksnarkParams.ParamsAt` | src/rustzcash.rs:72-96 | parameters come back exactly when the path decodes, the file opens and `Parameters::read` succeeds |
| `ZksnarkParams.VkAt` | src/rustzcash.rs:80-98 | a verifying key comes back exactly when the path decodes, the file opens and `VerifyingKey::read` succeeds |
| `ZksnarkParams.Load` | src/rustzcash.rs:72-103 | on success the spend and output parameters are those read from the spend and output files, the Sprout path is the decoded path, each Sapling verifying key is the preparation of its parameters' key and the Sprout key is the preparation of the key read from the Sprout file |
| `ZksnarkParams.LoadSucceedsIff` | src/rustzcash.rs:72-98 | the load succeeds exactly when all three decodings, all three opens and all three reads succeed |
| `ZksnarkParams.SpendPathFailsFirst` | src/rustzcash.rs:72-75 | an undecodable spend path aborts with the path error, whatever else would fail |
| `ZksnarkParams.SpendFileMissing` | src/rustzcash.rs:86 | with all paths decoded, a spend file that does not open aborts with the spend open error |
| `ZksnarkParams.OpensBeforeReads` | src/rustzcash.rs:86-98 | all three files are opened before any is read: a missing Sprout file aborts as an open error |
| `ZksnarkParams.AfterInit` | src/rustzcash.rs:107-115 | a failed load leaves the slots as they were; a successful one sets all six |
| `ZksnarkParams.InitAllOrNothing` | src/rustzcash.rs:62-116 | from empty slots, all six are set when every step succeeds, and all six stay empty otherwise |
| `ZksnarkParams.PublishedKeys` | src/rustzcash.rs:93-114 | the published parameters are those read from the spend and output files, the published Sapling keys are the preparations of their keys, the Sprout key is the preparation of the key read from the Sprout file, and the published path is the decoded Sprout path |
| `ZksnarkParams.AbortMessageAsWritten` | src/rustzcash.rs:72-98 | the message arguments the source passes to `expect`: each abort's own message, except that the output parameters' deserialization failure passes the spend parameters' message |
| `ZksnarkParams.AbortMessageAsWrittenCollides` | src/rustzcash.rs:93-96 | as written, the output-parameters deserialization abort carries the spend message |
| `ZksnarkParams.AbortMessageIdentifiesStep` | src/rustzcash.rs:86-98 | with the corrected message, every open or deserialization abort names its own step |
| `ZksnarkParams.GlobalParams.constructor` | src/rustzcash.rs:23-29 | the six statics start as `None` |
| `ZksnarkParams.GlobalParams.InitZksnarkParams` | src/rustzcash.rs:62-116 | the new slots are `AfterInit` of the old slots and the load; the call panics exactly when the load fails, with the message argument the source passes to `expect` for that failure (`AbortMessageAsWritten`) |
| `Xor.Xor` | src/rustzcash.rs:179-181 | each bit of `a ^ b` is set exactly when `a` and `b` differ in it |
| `Xor.XorSelfInverse` | src/rustzcash.rs:179-181 | xoring with `b` twice gives `a` back |
| `Xor.XorCommutes` | src/rustzcash.rs:179-181 | the operands commute |
| `Xor.XorTestVector` | src/rustzcash.rs:183-189 | `0x0f0f0f0f0f0f0f0f ^ 0x1111111111111111 == 0x1e1e1e1e1e1e1e1e` |

## Left out

- The Pedersen hash, the Jubjub curve and `into_xy().0.into_repr()` are foreign elliptic-curve code. They are one function-valued parameter, `PedersenX`, so nothing is assumed of the hash. In particular the model does not capture that `into_repr` of a field element is below the modulus.
- The lazily initialised `JUBJUB` parameters (`lazy_static`, and the `initialize` call at the top of the parameter loading) are curve constants the hash uses. They are left out with the hash.
- `CStr::to_str`, `File::open`, `Parameters::read`, `VerifyingKey::read` and `prepare_verifying_key` are I/O and foreign Groth16 code. Each is a function field of `Env` giving its outcome. File contents and the Groth16 formats are not modelled.
- A process abort (a failed `expect` or `assert_eq!` across the C boundary) is a returned value: `None` from `ReadLe`, `false` from `WriteLe`, the `panic` message from `InitZksnarkParams`. Termination of the process is not modelled.
- Raw pointer dereferences at the C boundary are replaced by sequences and arrays of the stated length. The `[c_uchar; 32]` types make those lengths preconditions. Aliasing between an operand and the result buffer is not modelled; the operands are read into values before anything is written.
- Thread-safety of the `static mut` slots rests on the caller calling the initialisation once and has no code to model. Only the single-call publication order is modelled.
- The source of `swap_bits_u64` (sapling_crypto), `read_be`/`write_be` and `BitIterator` (pairing), and `Note::uncommitted` are not part of this model. The first three are modelled by their behaviour. `Note::uncommitted` is taken to be the field element one, whose representation is the limbs `[1, 0, 0, 0]`.
- The `expect("length is 32 bytes")` on `read_be` and `write_be` cannot fail once the length assertion has passed, so the model has no path for it.
- `Result::expect` follows its message argument with the debug form of the error value, which comes from foreign I/O and Groth16 code. That suffix is not modelled: `panic` carries the argument only.
- Nothing in the file reads the global slots, so the model has no read accessors for them.

## Findings

| source | as written | input that shows it | evidently intended | confidence | as-written member | corrected member |
|---|---|---|---|---|---|---|
| src/rustzcash.rs:95-96 | a failed read of the output parameters aborts with a panic message beginning "couldn't deserialize Sapling spend parameters file", the message of the spend read two lines above | a readable spend parameters file together with a corrupt output parameters file | "couldn't deserialize Sapling output parameters file", so that every open and deserialization abort names its own file | high; not executed | `ZksnarkParams.AbortMessageAsWrittenCollides` | `ZksnarkParams.AbortMessageIdentifiesStep` |
