/**
 Why a coinbase of 64 bytes has to be excluded: the two nodes below the root of a mined
 block can themselves be read as a coinbase, with a commitment of somebody's choice, and
 the check accepts them for a transaction that is not in the block.
 */
module SpvTopPair {
  import opened Bytes
  import opened Clarity
  import opened BufferReversal
  import opened TxParser
  import opened TxWire
  import opened Merkle
  import opened Spv

  function Fill(b: Byte): (h: Hash)
    ensures forall k :: 0 <= k < 32 ==> h[k] == b
  {
    seq(32, _ => b)
  }

  function Commits(h: Hash): TxOut {
    var hash: Buff := h;
    TxOut(0, COMMITMENT_PREFIX + hash)
  }

  /** The false coinbase: a transaction without inputs, in the witness format. */
  const FALSE_COINBASE: Wtx := Wtx(12, 0, 1, [], [Commits(Fill(5))], [], 0)

  /** The true one. */
  const TRUE_COINBASE: Tx := Tx(1, [TxIn(Fill(0), 0, [], 0)], [Commits(Fill(10))], 0)

  /** Five bytes behind the false coinbase make it as long as two nodes. */
  function TwoNodes(): Buff {
    SerWtx(FALSE_COINBASE) + [0, 0, 0, 0, 0]
  }

  lemma OutputLength(h: Hash)
    ensures |Counted(SerTxOut, [Commits(h)])| == 48
  {
    hide LE;
    var out := Commits(h);
    assert [out][1..] == [];
    assert Concat(SerTxOut, [out]) == SerTxOut(out) + Concat(SerTxOut, []);
    assert |SerTxOut(out)| == 47;
  }

  lemma TwoNodesShape()
    ensures |TwoNodes()| == 64 && TwoNodes()[0] == 12
  {
    hide LE, SerTxOut, SerWitness, Counted;
    OutputLength(Fill(5));
    NoInputs();
    FirstByte(12);
    assert SerWtx(FALSE_COINBASE)[0] == LE(4, 12)[0];
  }

  lemma FirstByte(v: Byte)
    ensures LE(4, v)[0] == v
  {
  }

  lemma NoInputs()
    ensures |Counted(SerTxIn, [])| == 1
  {
  }

  lemma TrueCoinbaseShape()
    ensures |SerTx(TRUE_COINBASE)| == 98
  {
    hide LE, SerTxOut, Reversed;
    OutputLength(Fill(10));
    var input := TRUE_COINBASE.ins[0];
    assert [input][1..] == [];
    assert Concat(SerTxIn, [input]) == SerTxIn(input) + Concat(SerTxIn, []);
    assert |SerTxIn(input)| == 41;
  }

  function LeftNode(): Hash {
    TwoNodesShape();
    TwoNodes()[..32]
  }

  function RightNode(): Hash {
    TwoNodesShape();
    TwoNodes()[32..]
  }

  /** A hash function that is the identity on hashes, so that twice is once. Otherwise the
      length decides, and for two nodes the first byte. */
  function ToyHash(data: Buff): Hash {
    if |data| == 32 then data
    else if |data| == 64 then
      if data[0] == 1 then Fill(3)
      else if data[0] == 3 then Fill(5)
      else if data[0] == 7 then Fill(9)
      else if data[0] == 9 then Fill(10)
      else Fill(6)
    else if |data| == 1 then Fill(1)
    else if |data| == 80 then Fill(11)
    else LeftNode()
  }

  lemma PairHash(left: Hash, right: Hash)
    ensures var l: Buff := left;
            DSha(ToyHash, l + right) ==
            if left[0] == 1 then Fill(3) else if left[0] == 3 then Fill(5) else if left[0] == 7 then Fill(9)
            else if left[0] == 9 then Fill(10) else Fill(6)
  {
    hide LeftNode;
    var l: Buff := left;
    assert (l + right)[0] == left[0];
  }

  function ToyHeader(): Header {
    Header(0, Fill(0), ReversedHash(Fill(6)), 0, 0, 0)
  }

  function ToyBlock(): Block {
    Block(ToyHeader(), [LeftNode(), RightNode()], [Fill(7), Fill(8)], SerTx(TRUE_COINBASE), Fill(4))
  }

  function ToyProof(): SegwitProof {
    SegwitProof(0, 1, [Fill(2)], Fill(3), Fill(4), TwoNodes(), [])
  }

  const TOY_TX: Buff := [1]

  lemma TwoLeaves(leaves: seq<Hash>)
    requires |leaves| == 2
    ensures var l: Buff := leaves[0]; Pair(leaves, 0) == l + leaves[1]
    ensures Root(ToyHash, leaves) == DSha(ToyHash, Pair(leaves, 0)) && Depth(2) == 1
  {
    hide ToyHash, DSha;
    var next := NextLevel(ToyHash, leaves);
    assert next == [DSha(ToyHash, Pair(leaves, 0))];
    assert Root(ToyHash, leaves) == Root(ToyHash, next) == next[0];
    assert Depth(2) == 1 + Depth(1);
  }

  lemma Roots()
    ensures Root(ToyHash, ToyBlock().txids) == Fill(6) == DSha(ToyHash, TwoNodes())
    ensures Root(ToyHash, ToyBlock().wtxids) == Fill(9)
    ensures Pair(ToyBlock().txids, 0) == TwoNodes()
  {
    hide ToyHash, DSha, Root, Pair;
    TwoNodesShape();
    TwoLeaves(ToyBlock().txids);
    TwoLeaves(ToyBlock().wtxids);
    PairHash(LeftNode(), RightNode());
    PairHash(Fill(7), Fill(8));
    var l: Buff := LeftNode();
    assert l + RightNode() == TwoNodes();
  }

  lemma SingleOutput(h: Hash)
    ensures GetCommitmentScriptPubKey([Commits(h)]) == Commits(h).scriptPubKey
  {
    var out := Commits(h);
    assert out.scriptPubKey[0..6] == COMMITMENT_PREFIX;
    assert LastCommitmentAt([out], 0);
    CommitmentIsLast([out]);
  }

  lemma TrueCoinbaseParses()
    ensures CoinbaseOuts(SerTx(TRUE_COINBASE)) == Ok([Commits(Fill(10))])
  {
    hide SerTx, CoinbaseOuts;
    var c := Stripped(TRUE_COINBASE);
    assert c.Fits();
    CoinbaseParses(c, []);
    assert SerTx(TRUE_COINBASE) + [] == SerTx(TRUE_COINBASE);
  }

  lemma FalseCoinbaseParses()
    ensures CoinbaseOuts(TwoNodes()) == Ok([Commits(Fill(5))])
  {
    hide SerWtx, CoinbaseOuts;
    var c := Full(FALSE_COINBASE);
    assert c.Fits();
    CoinbaseParses(c, [0, 0, 0, 0, 0]);
  }

  lemma CoinbaseIsLeft()
    ensures DSha(ToyHash, SerTx(TRUE_COINBASE)) == LeftNode()
  {
    hide SerTx, LeftNode;
    TrueCoinbaseShape();
  }

  /** The block is a mined one. */
  lemma ToyBlockMined()
    ensures ToyBlock().Mined(ToyHash)
  {
    hide ToyHash, DSha, Root, SerTx, CoinbaseOuts, GetCommitmentScriptPubKey, LeftNode, RightNode;
    Roots();
    CoinbaseIsLeft();
    TrueCoinbaseParses();
    SingleOutput(Fill(10));
    PairHash(Fill(9), Fill(4));
  }

  lemma HeaderHash()
    ensures |SerHeader(ToyHeader())| == 80 && DSha(ToyHash, SerHeader(ToyHeader())) == Fill(11)
    ensures ParseBlockHeader(SerHeader(ToyHeader())) == Ok(ToyHeader())
  {
    hide SerHeader, ParseBlockHeader, LeftNode;
    HeaderReads(ToyHeader());
  }

  /** The false coinbase passes for the only transaction of the block. */
  lemma FalseCoinbaseMined(headers: map<nat, Hash>)
    requires headers == map[0 := ReversedHash(Fill(11))]
    ensures WasTxMinedCompact(ToyHash, headers, 0, TwoNodes(), SerHeader(ToyHeader()), Proof(0, [], 1)).Ok?
  {
    hide SerHeader, ParseBlockHeader, ToyHash, DSha, TwoNodes, Root;
    HeaderHash();
    Roots();
  }

  lemma WitnessClimbs()
    ensures DSha(ToyHash, TOY_TX) == Fill(1)
    ensures VerifyMerkleProof(ToyHash, Fill(1), Fill(3), Proof(0, [Fill(2)], 1)) == Ok(true)
  {
    hide FoldVerify, LeftNode, VerifyMerkleProof;
    var proof := Proof(0, [Fill(2)], 1);
    assert Pow2(1) == 2 * Pow2(0);
    VerifyIsClimb(ToyHash, Fill(1), Fill(3), proof);
    PairHash(Fill(1), Fill(2));
    assert proof.hashes[1..] == [];
    assert Joined(Fill(1), 0, Fill(2))[0] == 1;
    assert Climb(ToyHash, Fill(1), 0, [Fill(2)]) == Climb(ToyHash, Fill(3), 0, []);
  }

  /** Everything that is hashed for the block and for the proof. */
  function Hashed(): seq<Buff> {
    var b, p := ToyBlock(), ToyProof();
    [SerHeader(b.header), b.coinbase, p.ctx, Pair(b.wtxids, 0), WitnessPreimage(Fill(9), b.reserved),
     TOY_TX, Joined(Fill(1), 0, Fill(2)), WitnessPreimage(p.witnessRoot, p.reserved)]
  }

  const TAGS: seq<nat> := [11, 12, 6, 9, 10, 1, 3, 5]

  lemma PairTags()
    ensures DSha(ToyHash, Pair(ToyBlock().wtxids, 0)) == Fill(9)
    ensures DSha(ToyHash, WitnessPreimage(Fill(9), Fill(4))) == Fill(10)
    ensures DSha(ToyHash, Joined(Fill(1), 0, Fill(2))) == Fill(3)
    ensures DSha(ToyHash, WitnessPreimage(Fill(3), Fill(4))) == Fill(5)
  {
    hide ToyHash, DSha, LeftNode, RightNode;
    TwoLeaves(ToyBlock().wtxids);
    PairHash(Fill(7), Fill(8));
    PairHash(Fill(9), Fill(4));
    PairHash(Fill(1), Fill(2));
    PairHash(Fill(3), Fill(4));
  }

  lemma HashedTags(k: nat)
    requires k < 8
    ensures DSha(ToyHash, Hashed()[k])[0] == TAGS[k]
  {
    hide ToyHash, DSha, ToyHeader, SerHeader, SerTx, Pair, Joined, WitnessPreimage, Root, TwoNodes, LeftNode, RightNode;
    if k == 0 {
      HeaderHash();
    } else if k == 1 {
      CoinbaseIsLeft();
      LeftFirst();
    } else if k == 2 {
      Roots();
    } else if k == 5 {
      WitnessClimbs();
    } else {
      PairTags();
    }
  }

  lemma LeftFirst()
    ensures LeftNode()[0] == 12
  {
    hide TwoNodes;
    TwoNodesShape();
  }

  /** No two different inputs among them have one hash. */
  lemma NoCollision(i: nat, j: nat)
    requires i < 8 && j < 8 && DSha(ToyHash, Hashed()[i]) == DSha(ToyHash, Hashed()[j])
    ensures i == j
  {
    hide ToyHash, DSha, Hashed;
    HashedTags(i);
    HashedTags(j);
  }

  /** The exclusion is needed: with a coinbase that is the two nodes below the root of a
      mined block, a transaction that the block does not have is accepted, although no two
      of the inputs hashed collide. */
  lemma TopPairAccepted()
    ensures var b, p := ToyBlock(), ToyProof();
            var headers := map[0 := ReversedHash(Fill(11))];
            && b.Mined(ToyHash) && VerifyBlockHeader(ToyHash, headers, SerHeader(b.header), 0)
            && p.treeDepth == Depth(|b.txids|) && p.ctx == Pair(b.txids, 0) && |p.ctx| == 64
            && WasSegwitTxMinedCompact(ToyHash, headers, 0, TOY_TX, SerHeader(b.header), p).Ok?
            && DSha(ToyHash, TOY_TX) !in b.wtxids
  {
    hide ToyHash, DSha, ToyHeader, SerHeader, Root, Pair, TwoNodes, LeftNode, RightNode, WasTxMinedCompact, Block.Mined,
      WasSegwitTxMinedCompact, CommitmentScript, FALSE_COINBASE, TRUE_COINBASE;
    ToyBlockMined();
    HeaderHash();
    Roots();
    TwoNodesShape();
    TwoLeaves(ToyBlock().txids);
    FalseCoinbaseAccepted();
    WitnessClimbs();
    assert Fill(1)[0] != Fill(7)[0] && Fill(1)[0] != Fill(8)[0];
  }

  lemma FalseCoinbaseAccepted()
    ensures WasSegwitTxMinedCompact(ToyHash, map[0 := ReversedHash(Fill(11))], 0, TOY_TX, SerHeader(ToyHeader()), ToyProof()).Ok?
  {
    hide ToyHash, DSha, ToyHeader, SerHeader, TwoNodes, WasTxMinedCompact, CommitmentScript, VerifyMerkleProof, CoinbaseOuts,
      GetCommitmentScriptPubKey;
    FalseCoinbaseMined(map[0 := ReversedHash(Fill(11))]);
    FalseCoinbaseParses();
    SingleOutput(Fill(5));
    FalseCommitment();
    WitnessClimbs();
  }

  lemma FalseCommitment()
    ensures CommitmentScript(ToyHash, Fill(3), Fill(4)) == Commits(Fill(5)).scriptPubKey
  {
    hide ToyHash, DSha;
    PairHash(Fill(3), Fill(4));
  }
}
