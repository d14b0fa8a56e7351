# Toy blockchain ledger engine, modelled in Dafny

This project models the ledger engine of a small command-line blockchain,
the `Chain` type in `src/blockchain.rs`, and proves properties of the model.
The engine does four things:

- It keeps an append-only list of blocks.
- It buffers pending transactions, and each new block drains the buffer.
- It computes a Merkle root over each block's transactions with a FIFO
  queue reduction.
- It seals each block header by proof of work: it increments the nonce
  until the digest's first `difficulty` characters parse as the `u32`
  value 0.

Digests are SHA-256 over the JSON form of a record. Their bytes are
written in lower-case hex without zero padding, so a digest's length varies
between 32 and 64 characters.

Files, one module each:

- `hex.dfy` (`HexFormat`): `hex_to_string` and the `{:x}` rendering of one
  byte.
- `records.dfy` (`Records`): the `Transaction`, `Blockheader` and `Block`
  records, and `Chain::hash`. The foreign part, SHA-256 over the JSON
  serialisation, is a parameter `sha: Item -> seq<u8>`.
- `merkle.dfy` (`Merkle`): `get_merkle`. Here `Chain::hash` is an
  uninterpreted function `Item -> string`.
- `pow.dfy` (`Pow`): the `parse::<u32>` step and `proof_of_work`.
- `ledger.dfy` (`Ledger`): the `Chain` state machine as a class.

Modelling choices:

- An `f32` amount is kept as its 32-bit pattern (`F32(bits: bv32)`). The
  engine only copies amounts, and 100.0 is `0x42C80000`.
- `block.transactions.len() as u32` is written out as `% 2^32`.
- The timestamp is a method parameter.
- A header is a value. `ProofOfWork` takes the header and returns it
  sealed, with only the nonce changed.

## Model

| member | source | states |
|---|---|---|
| `HexFormat.ByteHex` | src/blockchain.rs:360 | `{:x}` of a byte has one character exactly when the byte is below 0x10, else two. |
| `HexFormat.ByteHexDigits` | src/blockchain.rs:360 | `{:x}` of a byte is lower-case hex and reads back as the byte's value. It starts with '0' only for the byte 0, so there is no padding. |
| `HexFormat.HexToString` | src/blockchain.rs:357-364 | The loop that appends each byte's rendering produces exactly `Hex(bs)`, the renderings concatenated in input order. |
| `HexFormat.HexLength` | src/blockchain.rs:357-364 | The output length is 2·n minus the number of input bytes below 0x10. |
| `HexFormat.HexLengthBounds` | src/blockchain.rs:357-364 | The output of n bytes has between n and 2·n characters. |
| `HexFormat.HexAlphabet` | src/blockchain.rs:357-364 | Every output character is in `0-9a-f`. |
| `HexFormat.HexConcat` | src/blockchain.rs:359-361 | The rendering of `a + b` is the rendering of `a` followed by that of `b`. |
| `HexFormat.AllZeroHex` | src/blockchain.rs:357-364 | A rendering made only of '0' characters comes from zero bytes and has exactly one character per byte. |
| `HexFormat.HexNotInjective` | src/blockchain.rs:360 | Two different byte sequences, `[0x01,0x23]` and `[0x12,0x03]`, both render as "123": without padding, the rendering is ambiguous. |
| `Records.Hash` | src/blockchain.rs:330-338 | `Chain::hash` is the unpadded hex rendering of the digest bytes. The function carries no contract of its own; what is proved about it is in `HashShape` and `DigestNotAllZero64`: a digest is lower-case hex of between one and two characters per byte, and a 32-byte digest never equals the 64-zero sentinel. |
| `Records.HashShape` | src/blockchain.rs:330-338 | A digest is lower-case hex. Its length is twice the digest byte count minus the bytes below 0x10, so it lies between one and two characters per byte. |
| `Records.DigestNotAllZero64` | src/blockchain.rs:330-338 | A 32-byte digest never renders as 64 '0' characters. |
| `Merkle.LeafDigests` | src/blockchain.rs:241-245 | Gives exactly one digest per transaction. |
| `Merkle.LeafDigestsAt` | src/blockchain.rs:241-245 | Digest i is the hash of transaction i, so the digests keep the transaction order. |
| `Merkle.Pad` | src/blockchain.rs:247-250 | The result has even length. It is the input, plus one copy of the last digest exactly when the count is odd. |
| `Merkle.Step` | src/blockchain.rs:252-258 | One loop iteration shrinks the queue by exactly one, which is the termination measure. |
| `Merkle.GetMerkle` | src/blockchain.rs:238-260 | The hashing loop, the single padding and the FIFO reduction loop return exactly `MerkleRoot`. The input must be non-empty, because the source's `unwrap` panics on an empty list. |
| `Merkle.DrainLevel` | src/blockchain.rs:252-258 | Popping an even-length front segment of the queue appends that segment's pairs, in order, behind the rest of the queue. |
| `Merkle.LevelFirst` | src/blockchain.rs:252-258 | On an even queue, the reduction completes a whole pairing level before combining any results. |
| `Merkle.TreeLevel` | src/blockchain.rs:252-258 | On 2^k digests, the balanced tree over one pairing level equals the balanced tree over the digests. |
| `Merkle.ReduceIsTree` | src/blockchain.rs:252-259 | On 2^k digests, the queue reduction equals the balanced binary Merkle tree, an independent definition. |
| `Merkle.MerkleRootPow2` | src/blockchain.rs:238-260 | For 2^k transactions (k ≥ 1), the root is the balanced tree over the transaction digests. |
| `Merkle.MerkleSingle` | src/blockchain.rs:247-259 | For a single transaction t, the root is `hash(hash(t) ++ hash(t))`. |
| `Merkle.MerkleTwo` | src/blockchain.rs:252-257 | For two transactions, the earlier digest is the first operand of the concatenation. |
| `Merkle.ReduceFour` | src/blockchain.rs:252-257 | `[a,b,c,d]` reduces to `hash(hash(a++b) ++ hash(c++d))`. |
| `Merkle.MerkleThree` | src/blockchain.rs:247-257 | For three transactions, the third digest is duplicated once and paired with itself. |
| `Merkle.ReduceSix` | src/blockchain.rs:247-258 | Padding happens only once. Six digests give an odd second level, and the last pair's result ends up as the first operand of the root. |
| `Pow.ParseU32` | src/blockchain.rs:289 | A successful `parse::<u32>` yields a value of at most `u32::MAX`. Empty input, a lone sign, a non-digit and an overflow are errors. |
| `Pow.ParseDigitsZero` | src/blockchain.rs:289-301 | The remaining digits parse to 0 exactly when the value read so far is 0 and all of them are '0'. |
| `Pow.ParseU32Zero` | src/blockchain.rs:289-301 | An unsigned string parses to `Ok(0)` exactly when it is non-empty and all '0'. This is the stopping condition of the sealing loop. |
| `Pow.ParseExamples` | src/blockchain.rs:289-301 | "123" is `Ok(123)` and "1a0" is an invalid digit, so both are retried. "" is `Empty`, so difficulty 0 never succeeds. |
| `Pow.ProofOfWork` | src/blockchain.rs:284-304 | Only the nonce changes, and it never decreases. On return, the first `difficulty` characters of the digest are all '0' and `difficulty ≥ 1`. Every nonce tried before failed that test, so the first winning nonce is returned. |
| `Pow.ZeroDifficultyUnsealable` | src/blockchain.rs:287-301 | A header with difficulty 0 can never be sealed, because the empty prefix never parses. |
| `Pow.SliceInRange` | src/blockchain.rs:287 | With 32-byte digests, a difficulty of at most 32 never slices out of range. |
| `Pow.SealableFromWitness` | src/blockchain.rs:284-304 | With 32-byte digests and difficulty ≤ 32, any nonce at or above the start whose digest has the zero prefix guarantees the search ends. |
| `Ledger.Zeros` | src/blockchain.rs:119 | Gives n characters, all '0'. The sentinel is `Zeros(64)`. |
| `Ledger.Chain.LastHash` | src/blockchain.rs:116-123 | On an empty chain, the result is 64 '0' characters. Otherwise it is the hash of the last block's header. |
| `Ledger.LastHashNotSentinel` | src/blockchain.rs:116-123 | On a non-empty chain with 32-byte digests, `last_hash` never equals the sentinel. |
| `Ledger.Chain.constructor` | src/blockchain.rs:60-70 | The new chain has exactly one block whose `pre_hash` is the sentinel. Its only transaction is the reward of 100.0 to the miner, with count 1. Its header is the genesis header with only the nonce changed, and that nonce is the first from 0 that seals, as `generate_new_block` does it (through `NewBlock`). Pending is empty, the reward is 100.0, and the chain invariant holds. |
| `Ledger.Chain.NewTransaction` | src/blockchain.rs:91-99 | Appends exactly one transaction to the end of pending and returns true. Blocks, difficulty and reward are unchanged. |
| `Ledger.Chain.UpdateDifficulty` | src/blockchain.rs:143-146 | Replaces only the difficulty and returns true. Blocks already appended are unchanged. |
| `Ledger.Chain.UpdateReward` | src/blockchain.rs:166-169 | Replaces only the reward and returns true. Blocks already appended are unchanged. |
| `Ledger.Chain.GenerateNewBlock` | src/blockchain.rs:185-216 | See the list after this table. |
| `Ledger.AppendValid` | src/blockchain.rs:214 | Pushing a well-formed block whose `pre_hash` is the current `last_hash` onto a valid chain gives a valid chain. |
| `Ledger.NewBlockWellFormed` | src/blockchain.rs:194-211 | The block built from the reward transaction, the pending list, the Merkle root over those transactions and a sealing nonce is well formed: reward first, the count, the Merkle field and the seal. |
| `Ledger.LinkedAt` | src/blockchain.rs:189-214 | In a valid chain, `chain[i].pre_hash == hash(chain[i-1].header)` for every i ≥ 1. |

`Ledger.Chain.GenerateNewBlock` (src/blockchain.rs:185-216) states these
effects of every call:

- The chain grows by one block, and earlier blocks are unchanged.
- The new block's transactions are `[{"Root", miner, reward}] ++ old pending`,
  with the reward taken before the call (the first clause of `NewBlock`).
- `count == |transactions| mod 2^32`.
- The header is the pre-sealing header with only the nonce changed. So
  `pre_hash` is `last_hash()` taken before the append, and `merkle` is the
  root over the block's own transactions.
- The nonce is the first that seals.
- Pending is empty afterwards.
- The chain invariant is preserved. The invariant covers linking, the
  reward transaction first, the count, the Merkle field and sealing.

## Left out

- `src/main.rs` is not part of this model. It holds the interactive menu,
  input parsing and the front end's difficulty limit of 2.
- SHA-256 and `serde_json` serialisation inside `Chain::hash` are foreign
  libraries. They are the parameter `sha`, and no collision or fixed-width
  property is assumed beyond the explicit `Sha256Width` hypothesis of the
  lemmas that need it.
- `Utc::now()` is replaced by a `timestamp` parameter. The `println!`
  output is not modelled.
- `f32` semantics are not modelled. Amounts are opaque bit patterns and are
  only copied.
- The header nonce is a natural number, so the `u32` overflow of
  `nonce += 1` (a panic or a wrap, depending on the build) is not modelled.
- `Pow.ProofOfWork`: requires that some nonce at or above the start seals
  the header (`Sealable`), because the model cannot write a loop without a
  termination measure. The source instead loops forever when no such nonce
  exists, which includes every difficulty-0 header. The same predicate also
  excludes the source's panic when a digest is shorter than `difficulty`
  (an out-of-range slice).
- `Ledger.Chain.GenerateNewBlock`: inherits the `Sealable` precondition for
  the header it is about to seal.
- `Ledger.Chain.constructor`: inherits the `Sealable` precondition for the
  genesis header.
- `Pow.ProofOfWork`: the in-place update through `&mut Blockheader` is
  modelled as a header value in and a sealed header value out.
- `Vec::remove(0)` and `push` in `get_merkle` are modelled on a `seq` queue.
  The cost of shifting is not modelled.
