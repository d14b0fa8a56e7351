/**
 * The ledger engine `Chain`: an append-only list of sealed blocks, a buffer
 * of pending transactions that each new block drains, and the operator's
 * parameters (difficulty, miner address, reward).
 *
 * The clock read by `generate_new_block` becomes a `timestamp` parameter;
 * SHA-256 over the JSON serialisation is the constant `sha`.
 */
module Ledger {
  import opened HexFormat
  import opened Records
  import opened Merkle
  import opened Pow

  /** `n` ASCII '0' characters. */
  function Zeros(n: nat): (s: string)
    ensures |s| == n && AllZeroChars(s)
  {
    if n == 0 then "" else Zeros(n - 1) + "0"
  }

  /** What `last_hash` returns on an empty chain: 64 ASCII '0' characters,
      a literal rather than a computed digest. */
  const Sentinel: string := Zeros(64)

  const RootSender: string := "Root"

  /** The transaction that pays the miner, placed first in every block. */
  function RewardTransaction(minerAddr: string, reward: F32): Transaction {
    Transaction(RootSender, minerAddr, reward)
  }

  /** What holds of every block once it is on the chain. */
  ghost predicate WellFormedBlock(sha: Sha, minerAddr: string, b: Block) {
    && |b.transactions| >= 1
    && b.transactions[0].sender == RootSender
    && b.transactions[0].receiver == minerAddr
    && b.count == |b.transactions| % U32Modulus
    && b.header.merkle == MerkleRoot(HashOf(sha), b.transactions)
    && Seals(Hash(sha, HeaderItem(b.header)), b.header.difficulty)
  }

  /** The genesis block points at the sentinel, every later block at the
      digest of the header before it. */
  ghost predicate Linked(sha: Sha, blocks: seq<Block>) {
    && (|blocks| >= 1 ==> blocks[0].header.preHash == Sentinel)
    && forall i | 1 <= i < |blocks| ::
         blocks[i].header.preHash == Hash(sha, HeaderItem(blocks[i - 1].header))
  }

  /** The chain invariant: linking, and every block well formed. */
  ghost predicate ValidChain(sha: Sha, minerAddr: string, blocks: seq<Block>) {
    && Linked(sha, blocks)
    && forall i | 0 <= i < |blocks| :: WellFormedBlock(sha, minerAddr, blocks[i])
  }

  /** What `last_hash` returns for a list of blocks. */
  function LastDigest(sha: Sha, blocks: seq<Block>): string {
    if blocks == [] then Sentinel else Hash(sha, HeaderItem(blocks[|blocks| - 1].header))
  }

  /** Appending a well-formed block that points at the last digest keeps the
      chain invariant. */
  lemma {:induction false} AppendValid(sha: Sha, minerAddr: string, blocks: seq<Block>, b: Block)
    requires ValidChain(sha, minerAddr, blocks)
    requires WellFormedBlock(sha, minerAddr, b)
    requires b.header.preHash == LastDigest(sha, blocks)
    ensures ValidChain(sha, minerAddr, blocks + [b])
  {
  }

  /** The block `generate_new_block` appends, given the reward and pending
      transactions it found and the header it handed to the sealer: the
      reward transaction followed by the pending ones, their count modulo
      2^32, and the header with only the nonce changed, to the first nonce
      that seals. */
  ghost predicate NewBlock(sha: Sha, minerAddr: string, reward: F32, pending: seq<Transaction>,
                           next: Header, b: Block)
  {
    && b.transactions == [RewardTransaction(minerAddr, reward)] + pending
    && b.count == (|pending| + 1) % U32Modulus
    && b.header == next.(nonce := b.header.nonce)
    && forall n | 0 <= n < b.header.nonce :: !Seals(AttemptDigest(sha, next, n), next.difficulty)
  }

  /** The block `generate_new_block` builds is well formed once its header
      carries the root over the block's own transactions and is sealed. */
  lemma {:induction false} NewBlockWellFormed(sha: Sha, minerAddr: string, reward: F32,
                                              pending: seq<Transaction>, next: Header, b: Block)
    requires NewBlock(sha, minerAddr, reward, pending, next, b)
    requires next.merkle == MerkleRoot(HashOf(sha), b.transactions)
    requires Seals(Hash(sha, HeaderItem(b.header)), b.header.difficulty)
    ensures WellFormedBlock(sha, minerAddr, b)
  {
  }

  /** The header a new chain seals for its genesis block. */
  function GenesisHeader(sha: Sha, minerAddr: string, difficulty: u32, timestamp: int): Header {
    Header(timestamp, 0, Sentinel,
           MerkleRoot(HashOf(sha), [RewardTransaction(minerAddr, DefaultReward)]), difficulty)
  }

  class Chain {
    var chain: seq<Block>
    var currTrans: seq<Transaction>
    var difficulty: u32
    const minerAddr: string
    var reward: F32
    /** SHA-256 of the JSON text of an item (foreign code). */
    const sha: Sha

    ghost predicate Valid()
      reads this
    {
      ValidChain(sha, minerAddr, chain)
    }

    /** `last_hash`. */
    function LastHash(): (d: string)
      reads this
      ensures chain == [] ==> |d| == 64 && AllZeroChars(d)
      ensures chain != [] ==> d == Hash(sha, HeaderItem(chain[|chain| - 1].header))
    {
      LastDigest(sha, chain)
    }

    /** The transactions the next block will hold. */
    function NextTransactions(): (txs: seq<Transaction>)
      reads this
      ensures |txs| == |currTrans| + 1
    {
      [RewardTransaction(minerAddr, reward)] + currTrans
    }

    /** The header `generate_new_block` hands to the sealer at `timestamp`. */
    function NextHeader(timestamp: int): Header
      reads this
    {
      Header(timestamp, 0, LastHash(), MerkleRoot(HashOf(sha), NextTransactions()), difficulty)
    }

    /** `Chain::new`: an empty chain, reward 100.0, then one generated block.
        The search for the genesis nonce must end. */
    constructor (minerAddr: string, difficulty: u32, sha: Sha, timestamp: int)
      requires Sealable(sha, GenesisHeader(sha, minerAddr, difficulty, timestamp))
      ensures Valid()
      ensures this.minerAddr == minerAddr && this.difficulty == difficulty && this.sha == sha
      ensures reward == DefaultReward && currTrans == []
      ensures |chain| == 1
      ensures chain[0].header.preHash == Sentinel
      ensures chain[0].transactions == [RewardTransaction(minerAddr, DefaultReward)]
      ensures NewBlock(sha, minerAddr, DefaultReward, [],
                       GenesisHeader(sha, minerAddr, difficulty, timestamp), chain[0])
    {
      this.chain := [];
      this.currTrans := [];
      this.difficulty := difficulty;
      this.minerAddr := minerAddr;
      this.reward := DefaultReward;
      this.sha := sha;
      new;
      assert NextHeader(timestamp) == GenesisHeader(sha, minerAddr, difficulty, timestamp);
      var _ := GenerateNewBlock(timestamp);
    }

    /** `new_transaction`: buffer one transaction; no validation. */
    method NewTransaction(sender: string, receiver: string, amount: F32) returns (ok: bool)
      requires Valid()
      modifies this
      ensures Valid() && ok
      ensures currTrans == old(currTrans) + [Transaction(sender, receiver, amount)]
      ensures chain == old(chain) && difficulty == old(difficulty) && reward == old(reward)
    {
      currTrans := currTrans + [Transaction(sender, receiver, amount)];
      ok := true;
    }

    /** `update_difficulty`: only later blocks see the new value. */
    method UpdateDifficulty(difficulty: u32) returns (ok: bool)
      requires Valid()
      modifies this
      ensures Valid() && ok
      ensures this.difficulty == difficulty
      ensures chain == old(chain) && currTrans == old(currTrans) && reward == old(reward)
    {
      this.difficulty := difficulty;
      ok := true;
    }

    /** `update_reward`: only later blocks see the new value. */
    method UpdateReward(reward: F32) returns (ok: bool)
      requires Valid()
      modifies this
      ensures Valid() && ok
      ensures this.reward == reward
      ensures chain == old(chain) && currTrans == old(currTrans) && difficulty == old(difficulty)
    {
      this.reward := reward;
      ok := true;
    }

    /** `generate_new_block`: build the header and the reward transaction,
        move the pending transactions into the block, compute the Merkle
        root, seal, and append. */
    method GenerateNewBlock(timestamp: int) returns (ok: bool)
      requires Valid()
      requires Sealable(sha, NextHeader(timestamp))
      modifies this
      ensures Valid() && ok
      ensures |chain| == |old(chain)| + 1 && chain[..|old(chain)|] == old(chain)
      ensures NewBlock(sha, minerAddr, old(reward), old(currTrans), old(NextHeader(timestamp)),
                       chain[|chain| - 1])
      ensures currTrans == [] && difficulty == old(difficulty) && reward == old(reward)
    {
      ghost var next, pending := NextHeader(timestamp), currTrans;
      var header := Header(timestamp, 0, LastHash(), "", difficulty);
      var rewardTrans := Transaction(RootSender, minerAddr, reward);
      var block := Block(header, 0, []);
      block := block.(transactions := block.transactions + [rewardTrans]);
      block := block.(transactions := block.transactions + currTrans);
      assert block.transactions == NextTransactions();
      currTrans := [];
      block := block.(count := |block.transactions| % U32Modulus);
      var root := GetMerkle(HashOf(sha), block.transactions);
      block := block.(header := block.header.(merkle := root));
      assert block.header == next;
      var sealed := ProofOfWork(sha, block.header);
      block := block.(header := sealed);
      assert NewBlock(sha, minerAddr, reward, pending, next, block);
      NewBlockWellFormed(sha, minerAddr, reward, pending, next, block);
      AppendValid(sha, minerAddr, chain, block);
      ghost var before := chain;
      chain := chain + [block];
      assert chain[..|before|] == before && chain[|chain| - 1] == block;
      ok := true;
    }
  }

  /** With 32-byte digests the sentinel cannot be mistaken for the digest
      of a real header. */
  lemma LastHashNotSentinel(c: Chain)
    requires c.chain != [] && Sha256Width(c.sha)
    ensures c.LastHash() != Sentinel
  {
    DigestNotAllZero64(c.sha, HeaderItem(c.chain[|c.chain| - 1].header), Sentinel);
  }

  /** Header linking, read off an arbitrary position of a valid chain. */
  lemma LinkedAt(c: Chain, i: int)
    requires c.Valid() && 1 <= i < |c.chain|
    ensures c.chain[i].header.preHash == Hash(c.sha, HeaderItem(c.chain[i - 1].header))
  {
  }
}
