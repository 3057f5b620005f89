/** The blocks a Bitcoin node can report, as a tree linked by previous-block hashes.
    The node's active chain may be any branch of it and may change between two calls;
    a header or a block is always the one its hash names. */
module BlockTree {
  import opened Common

  type BlockHash = nat
  type Txid = nat

  datatype OutPoint = OutPoint(txid: Txid, vout: nat)
  datatype Tx = Tx(txid: Txid, inputs: seq<OutPoint>)

  /** `hash` stands for the hash computed from the header. */
  datatype Block = Block(hash: BlockHash, prev: BlockHash, txs: seq<Tx>)

  datatype Node = Node(block: Block, height: nat)

  type Tree = map<BlockHash, Node>

  /** Consensus: a block has no two equal transactions, a transaction no two equal inputs. */
  ghost predicate ConsensusTxs(txs: seq<Tx>) {
    && (forall i, j :: 0 <= i < j < |txs| ==> txs[i].txid != txs[j].txid)
    && (forall i :: 0 <= i < |txs| ==> Distinct(txs[i].inputs))
  }

  /** A block of height 0 has no known parent; any other sits one above its parent. */
  ghost predicate ValidNode(t: Tree, h: BlockHash)
    requires h in t
  {
    && t[h].block.hash == h
    && ConsensusTxs(t[h].block.txs)
    && (t[h].height == 0 ==> t[h].block.prev !in t)
    && (t[h].height > 0 ==> t[h].block.prev in t && t[t[h].block.prev].height + 1 == t[h].height)
  }

  ghost predicate ValidTree(t: Tree) {
    forall h {:trigger ValidNode(t, h)} :: h in t ==> ValidNode(t, h)
  }

  /** `s` is a run of blocks of the tree, each the parent of the next. */
  ghost predicate IsBranch(t: Tree, s: seq<BlockHash>) {
    && (forall i :: 0 <= i < |s| ==> s[i] in t)
    && (forall i :: 1 <= i < |s| ==> t[s[i]].block.prev == s[i - 1])
  }

  /** The last `n` blocks of the branch that ends in `tip`, oldest first. */
  ghost function Branch(t: Tree, tip: BlockHash, n: nat): (s: seq<BlockHash>)
    requires ValidTree(t) && tip in t && n <= t[tip].height + 1
    ensures |s| == n
    decreases n
  {
    if n == 0 then []
    else if n == 1 then [tip]
    else
      assert ValidNode(t, tip);
      Branch(t, t[tip].block.prev, n - 1) + [tip]
  }

  lemma {:induction false} BranchHeights(t: Tree, s: seq<BlockHash>, i: nat)
    requires ValidTree(t) && IsBranch(t, s) && i < |s|
    ensures t[s[i]].height == t[s[0]].height + i
  {
    if i > 0 {
      BranchHeights(t, s, i - 1);
      assert ValidNode(t, s[i]);
    }
  }

  /** A branch is determined by its last block and its length. */
  lemma {:induction false} BranchUnique(t: Tree, s: seq<BlockHash>)
    requires ValidTree(t) && IsBranch(t, s) && s != []
    ensures |s| <= t[s[|s| - 1]].height + 1
    ensures s == Branch(t, s[|s| - 1], |s|)
    decreases |s|
  {
    BranchHeights(t, s, |s| - 1);
    if |s| > 1 {
      var front := s[..|s| - 1];
      BranchUnique(t, front);
      assert s == front + [s[|s| - 1]];
    }
  }
}
