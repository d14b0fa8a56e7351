/**
 * `Chain::get_merkle`: hash every transaction, duplicate the last digest
 * once if there is an odd number of them, then reduce the list as a FIFO
 * queue: pop the two front digests, hash their concatenation and push the
 * result to the back, until one digest is left.
 *
 * `hash` stands for `Chain::hash`, left uninterpreted: nothing here depends
 * on how digests are computed or rendered.
 */
module Merkle {
  import opened Records

  /** The digests of the transactions, in order. */
  function LeafDigests(hash: Hasher, txs: seq<Transaction>): (ds: seq<string>)
    ensures |ds| == |txs|
  {
    if txs == [] then [] else LeafDigests(hash, txs[..|txs| - 1]) + [hash(TxItem(txs[|txs| - 1]))]
  }

  /** Digest `i` is the digest of transaction `i`. */
  lemma {:induction false} LeafDigestsAt(hash: Hasher, txs: seq<Transaction>)
    ensures forall i | 0 <= i < |txs| :: LeafDigests(hash, txs)[i] == hash(TxItem(txs[i]))
  {
    if txs != [] {
      var init := txs[..|txs| - 1];
      LeafDigestsAt(hash, init);
      forall i | 0 <= i < |txs|
        ensures LeafDigests(hash, txs)[i] == hash(TxItem(txs[i]))
      {
        if i < |init| {
          assert txs[i] == init[i];
        }
      }
    }
  }

  /** Duplicate the last digest when the count is odd; done once only. */
  function Pad(ds: seq<string>): (r: seq<string>)
    ensures |r| % 2 == 0
    ensures |r| == |ds| + |ds| % 2
    ensures r[..|ds|] == ds
    ensures |ds| % 2 == 1 ==> r[|ds|] == ds[|ds| - 1]
  {
    if |ds| % 2 == 1 then ds + [ds[|ds| - 1]] else ds
  }

  /** The digest of the concatenation of two digests, first operand first. */
  function Combine(hash: Hasher, a: string, b: string): string {
    hash(TextItem(a + b))
  }

  /** One iteration of the reduction loop. */
  function Step(hash: Hasher, q: seq<string>): (r: seq<string>)
    requires |q| >= 2
    ensures |r| == |q| - 1
  {
    q[2..] + [Combine(hash, q[0], q[1])]
  }

  /** The queue reduction, until exactly one digest is left. */
  function Reduce(hash: Hasher, q: seq<string>): string
    requires |q| >= 1
    decreases |q|
  {
    if |q| == 1 then q[0] else Reduce(hash, Step(hash, q))
  }

  /** The Merkle root of a non-empty transaction list. */
  function MerkleRoot(hash: Hasher, txs: seq<Transaction>): string
    requires |txs| >= 1
  {
    Reduce(hash, Pad(LeafDigests(hash, txs)))
  }

  /** `get_merkle`. An empty list makes the source panic on `unwrap`. */
  method GetMerkle(hash: Hasher, txs: seq<Transaction>) returns (root: string)
    requires |txs| >= 1
    ensures root == MerkleRoot(hash, txs)
  {
    var merkle: seq<string> := [];
    for i := 0 to |txs|
      invariant merkle == LeafDigests(hash, txs[..i])
    {
      var digest := hash(TxItem(txs[i]));
      assert txs[..i + 1][..i] == txs[..i];
      merkle := merkle + [digest];
    }
    assert txs[..|txs|] == txs;
    if |merkle| % 2 == 1 {
      var last := merkle[|merkle| - 1];
      merkle := merkle + [last];
    }
    ghost var padded := merkle;
    assert padded == Pad(LeafDigests(hash, txs));
    while |merkle| > 1
      invariant |merkle| >= 1
      invariant Reduce(hash, merkle) == Reduce(hash, padded)
      decreases |merkle|
    {
      ghost var before := merkle;
      var h1 := merkle[0];
      merkle := merkle[1..];
      var h2 := merkle[0];
      merkle := merkle[1..];
      h1 := h1 + h2;
      var nh := hash(TextItem(h1));
      merkle := merkle + [nh];
      assert merkle == Step(hash, before);
    }
    root := merkle[0];
  }

  /** One level of a pairwise tree: adjacent digests combined. */
  function Level(hash: Hasher, q: seq<string>): (r: seq<string>)
    requires |q| % 2 == 0
    ensures 2 * |r| == |q|
    decreases |q|
  {
    if q == [] then [] else [Combine(hash, q[0], q[1])] + Level(hash, q[2..])
  }

  /** The balanced binary tree over a list of digests: an independent
      reference definition of a Merkle root. */
  function Tree(hash: Hasher, q: seq<string>): string
    requires |q| >= 1
    decreases |q|
  {
    if |q| == 1 then q[0] else Combine(hash, Tree(hash, q[..|q| / 2]), Tree(hash, q[|q| / 2..]))
  }

  function Pow2(k: nat): (n: nat)
    ensures n >= 1
  {
    if k == 0 then 1 else 2 * Pow2(k - 1)
  }

  /** Draining an even-length front segment `q` of the queue leaves the
      queue as the rest `r` followed by `q`'s pairs, combined in order. */
  lemma {:induction false} DrainLevel(hash: Hasher, q: seq<string>, r: seq<string>)
    requires |q| % 2 == 0
    requires |q| + |r| >= 1
    ensures Reduce(hash, q + r) == Reduce(hash, r + Level(hash, q))
    decreases |q|
  {
    if q == [] {
      assert q + r == r && r + Level(hash, q) == r;
    } else {
      var c := Combine(hash, q[0], q[1]);
      var qr := q + r;
      assert qr[0] == q[0] && qr[1] == q[1];
      assert qr[2..] == q[2..] + r;
      assert Step(hash, qr) == q[2..] + (r + [c]);
      assert Reduce(hash, qr) == Reduce(hash, q[2..] + (r + [c]));
      DrainLevel(hash, q[2..], r + [c]);
      assert Level(hash, q) == [c] + Level(hash, q[2..]);
      assert (r + [c]) + Level(hash, q[2..]) == r + Level(hash, q);
    }
  }

  /** On an even queue of two or more digests, the queue reduction finishes
      a whole level before it starts the next one. */
  lemma {:induction false} LevelFirst(hash: Hasher, q: seq<string>)
    requires |q| % 2 == 0 && |q| >= 2
    ensures Reduce(hash, q) == Reduce(hash, Level(hash, q))
  {
    DrainLevel(hash, q, []);
    assert q + [] == q && [] + Level(hash, q) == Level(hash, q);
  }

  lemma {:induction false} LevelConcat(hash: Hasher, a: seq<string>, b: seq<string>)
    requires |a| % 2 == 0 && |b| % 2 == 0
    ensures Level(hash, a + b) == Level(hash, a) + Level(hash, b)
    decreases |a|
  {
    if a == [] {
      assert a + b == b;
    } else {
      assert (a + b)[2..] == a[2..] + b;
      LevelConcat(hash, a[2..], b);
    }
  }

  /** The tree over two halves of equal length combines their trees. */
  lemma {:induction false} TreeConcat(hash: Hasher, a: seq<string>, b: seq<string>)
    requires |a| == |b| >= 1
    ensures Tree(hash, a + b) == Combine(hash, Tree(hash, a), Tree(hash, b))
  {
    assert (a + b)[..|a|] == a && (a + b)[|a|..] == b;
  }

  /** The balanced tree over a list of 2^k digests (k >= 1) equals the one
      over its first level. */
  lemma {:induction false} TreeLevel(hash: Hasher, q: seq<string>, k: nat)
    requires k >= 1 && |q| == Pow2(k)
    ensures Tree(hash, Level(hash, q)) == Tree(hash, q)
  {
    if k == 1 {
      assert q[2..] == [];
      assert Level(hash, q) == [Combine(hash, q[0], q[1])];
      assert q[..1] == [q[0]] && q[1..] == [q[1]];
    } else {
      var h := Pow2(k - 1);
      assert |q| == 2 * h && h == 2 * Pow2(k - 2);
      var a, b := q[..h], q[h..];
      assert q == a + b;
      assert |a| == h && |b| == h && h % 2 == 0;
      TreeLevel(hash, a, k - 1);
      TreeLevel(hash, b, k - 1);
      TreeLevelConcat(hash, a, b);
    }
  }

  /** The inductive step of TreeLevel: from the two halves to the whole. */
  lemma {:induction false} TreeLevelConcat(hash: Hasher, a: seq<string>, b: seq<string>)
    requires |a| == |b| >= 2 && |a| % 2 == 0
    requires Tree(hash, Level(hash, a)) == Tree(hash, a)
    requires Tree(hash, Level(hash, b)) == Tree(hash, b)
    ensures Tree(hash, Level(hash, a + b)) == Tree(hash, a + b)
  {
    var la, lb := Level(hash, a), Level(hash, b);
    calc {
      Tree(hash, Level(hash, a + b));
      { LevelConcat(hash, a, b); }
      Tree(hash, la + lb);
      { TreeConcat(hash, la, lb); }
      Combine(hash, Tree(hash, la), Tree(hash, lb));
      Combine(hash, Tree(hash, a), Tree(hash, b));
      { TreeConcat(hash, a, b); }
      Tree(hash, a + b);
    }
  }

  /** On 2^k digests the queue reduction is the balanced binary tree. */
  lemma {:induction false} ReduceIsTree(hash: Hasher, q: seq<string>, k: nat)
    requires |q| == Pow2(k)
    ensures Reduce(hash, q) == Tree(hash, q)
    decreases k
  {
    if k > 0 {
      LevelFirst(hash, q);
      ReduceIsTree(hash, Level(hash, q), k - 1);
      TreeLevel(hash, q, k);
    }
  }

  /** So for 2^k transactions (k >= 1) the root is the balanced tree over
      the transaction digests. */
  lemma {:induction false} MerkleRootPow2(hash: Hasher, txs: seq<Transaction>, k: nat)
    requires k >= 1 && |txs| == Pow2(k)
    ensures MerkleRoot(hash, txs) == Tree(hash, LeafDigests(hash, txs))
  {
    assert Pad(LeafDigests(hash, txs)) == LeafDigests(hash, txs);
    ReduceIsTree(hash, LeafDigests(hash, txs), k);
  }

  /** A single transaction is paired with itself. */
  lemma {:induction false} MerkleSingle(hash: Hasher, t: Transaction)
    ensures MerkleRoot(hash, [t]) == Combine(hash, hash(TxItem(t)), hash(TxItem(t)))
  {
    var d := hash(TxItem(t));
    assert Pad(LeafDigests(hash, [t])) == [d, d];
    assert Step(hash, [d, d]) == [Combine(hash, d, d)];
    assert Reduce(hash, [d, d]) == Reduce(hash, [Combine(hash, d, d)]);
  }

  /** Two transactions: the earlier digest is the first operand, so the
      root depends on the order of the transactions. */
  lemma {:induction false} MerkleTwo(hash: Hasher, x: Transaction, y: Transaction)
    ensures MerkleRoot(hash, [x, y]) == Combine(hash, hash(TxItem(x)), hash(TxItem(y)))
  {
    var dx, dy := hash(TxItem(x)), hash(TxItem(y));
    assert Pad(LeafDigests(hash, [x, y])) == [dx, dy];
    assert Step(hash, [dx, dy]) == [Combine(hash, dx, dy)];
    assert Reduce(hash, [dx, dy]) == Reduce(hash, [Combine(hash, dx, dy)]);
  }

  /** Four digests pair front to back: (a,b), then (c,d), then the two results. */
  lemma {:induction false} ReduceFour(hash: Hasher, a: string, b: string, c: string, d: string)
    ensures Reduce(hash, [a, b, c, d])
         == Combine(hash, Combine(hash, a, b), Combine(hash, c, d))
  {
    var ab, cd := Combine(hash, a, b), Combine(hash, c, d);
    assert Step(hash, [a, b, c, d]) == [c, d, ab];
    assert Step(hash, [c, d, ab]) == [ab, cd];
    assert Step(hash, [ab, cd]) == [Combine(hash, ab, cd)];
    assert Reduce(hash, [a, b, c, d]) == Reduce(hash, [c, d, ab]);
    assert Reduce(hash, [c, d, ab]) == Reduce(hash, [ab, cd]);
    assert Reduce(hash, [ab, cd]) == Reduce(hash, [Combine(hash, ab, cd)]);
  }

  /** Three transactions: the third digest is duplicated once, then paired
      with itself. */
  lemma {:induction false} MerkleThree(hash: Hasher, txs: seq<Transaction>)
    requires |txs| == 3
    ensures var ds := LeafDigests(hash, txs);
      MerkleRoot(hash, txs)
        == Combine(hash, Combine(hash, ds[0], ds[1]), Combine(hash, ds[2], ds[2]))
  {
    var ds := LeafDigests(hash, txs);
    assert Pad(ds) == [ds[0], ds[1], ds[2], ds[2]];
    ReduceFour(hash, ds[0], ds[1], ds[2], ds[2]);
  }

  /** Padding happens only once: with six digests the second level has
      three elements, and the queue then pairs the first two of them and
      puts the last one first in the final concatenation. */
  lemma {:induction false} ReduceSix(hash: Hasher, q: seq<string>)
    requires |q| == 6
    ensures var ab, cd, ef := Combine(hash, q[0], q[1]), Combine(hash, q[2], q[3]), Combine(hash, q[4], q[5]);
      Reduce(hash, q) == Combine(hash, ef, Combine(hash, ab, cd))
  {
    var ab, cd, ef := Combine(hash, q[0], q[1]), Combine(hash, q[2], q[3]), Combine(hash, q[4], q[5]);
    LevelFirst(hash, q);
    assert q[2..][2..][2..] == [];
    assert Level(hash, q[4..]) == [ef];
    assert Level(hash, q[2..]) == [cd, ef];
    assert Level(hash, q) == [ab, cd, ef];
    var abcd := Combine(hash, ab, cd);
    assert Step(hash, [ab, cd, ef]) == [ef, abcd];
    assert Step(hash, [ef, abcd]) == [Combine(hash, ef, abcd)];
    assert Reduce(hash, [ab, cd, ef]) == Reduce(hash, [ef, abcd]);
    assert Reduce(hash, [ef, abcd]) == Reduce(hash, [Combine(hash, ef, abcd)]);
  }
}
