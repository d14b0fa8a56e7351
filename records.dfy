/**
 * The ledger's records (`Transaction`, `Blockheader`, `Block`) and the
 * canonical hash `Chain::hash`: serialise the record as JSON, take its
 * SHA-256 digest and render the 32 digest bytes with `HexFormat.Hex`.
 *
 * Serialisation and SHA-256 are foreign code, so the model receives their
 * composition as a parameter `sha` mapping each hashable item to its digest
 * bytes.
 */
module Records {
  import opened HexFormat

  /** Width of the source's `u32` fields. */
  const U32Modulus: int := 0x1_0000_0000

  type u32 = x: int | 0 <= x < U32Modulus

  /** An `f32` amount. The engine only copies amounts, so the model keeps
      the 32-bit IEEE 754 pattern and never does arithmetic on it. */
  datatype F32 = F32(bits: bv32)

  /** 100.0 as an IEEE 754 binary32 value: the reward a new chain starts with. */
  const DefaultReward: F32 := F32(0x42C8_0000)

  datatype Transaction = Transaction(sender: string, receiver: string, amount: F32)

  /** A block header. `nonce` is unbounded here: the source's `u32`
      overflow of `nonce += 1` is not modelled. */
  datatype Header = Header(
    timestamp: int,
    nonce: nat,
    preHash: string,
    merkle: string,
    difficulty: u32)

  datatype Block = Block(header: Header, count: u32, transactions: seq<Transaction>)

  /** Everything `Chain::hash` is applied to. A digest pair is hashed as a
      JSON string, which serialises differently from a record. */
  datatype Item = TxItem(tx: Transaction) | HeaderItem(header: Header) | TextItem(text: string)

  /** SHA-256 of the JSON serialisation of an item. */
  type Sha = Item -> seq<u8>

  /** SHA-256 always yields 32 bytes. */
  ghost predicate Sha256Width(sha: Sha) {
    forall item :: |sha(item)| == 32
  }

  /** `Chain::hash`: the unpadded hexadecimal rendering of the digest bytes. */
  function Hash(sha: Sha, item: Item): string {
    Hex(sha(item))
  }

  /** `Chain::hash` as a value, for the components that treat it as an
      uninterpreted function. */
  type Hasher = Item -> string

  function HashOf(sha: Sha): Hasher {
    item => Hash(sha, item)
  }

  /** A digest is lower-case hexadecimal, and its length varies with the
      number of digest bytes below 0x10. */
  lemma {:induction false} HashShape(sha: Sha, item: Item)
    ensures AllLowerHex(Hash(sha, item))
    ensures |Hash(sha, item)| == 2 * |sha(item)| - CountBelow16(sha(item))
    ensures |sha(item)| <= |Hash(sha, item)| <= 2 * |sha(item)|
  {
    HexAlphabet(sha(item));
    HexLength(sha(item));
  }

  /** A 32-byte digest never renders as 64 '0' characters: its all-zero
      renderings have exactly 32 characters. */
  lemma {:induction false} DigestNotAllZero64(sha: Sha, item: Item, z: string)
    requires |sha(item)| == 32
    requires |z| == 64 && AllZeroChars(z)
    ensures Hash(sha, item) != z
  {
    if Hash(sha, item) == z {
      AllZeroHex(sha(item));
    }
  }
}
