/**
 The top-level checks of `clarity-bitcoin.clar`: that a transaction, or a transaction
 with witnesses, was mined in a recorded block. The hash function and the recorded
 header hashes are parameters.
 */
module Spv {
  import opened Bytes
  import opened Clarity
  import opened Options
  import opened BufferReversal
  import opened TxParser
  import opened TxWire
  import opened Merkle

  const ERR_BAD_HEADER: nat := 5
  const ERR_INVALID_COMMITMENT: nat := 8
  const ERR_WITNESS_TX_NOT_IN_COMMITMENT: nat := 9
  const ERR_HEADER_INVALID: nat := 1
  const ERR_PROOF_INVALID: nat := 2

  // --- The commitment (BIP-141, "Commitment structure") ---

  const COMMITMENT_PREFIX: Buff := [0x6a, 0x24, 0xaa, 0x21, 0xa9, 0xed]

  predicate IsCommitmentPattern(scriptPubKey: Buff) {
    6 <= |scriptPubKey| && scriptPubKey[0..6] == COMMITMENT_PREFIX
  }

  function FoldCommitment(outs: seq<TxOut>, result: Buff): Buff
    decreases |outs|
  {
    if outs == [] then result
    else
      var commitment := outs[0].scriptPubKey;
      FoldCommitment(outs[1..], if IsCommitmentPattern(commitment) then commitment else result)
  }

  function GetCommitmentScriptPubKey(outs: seq<TxOut>): Buff {
    FoldCommitment(outs, [])
  }

  /** Output `k` carries the last script with the commitment prefix. */
  predicate LastCommitmentAt(outs: seq<TxOut>, k: nat) {
    && k < |outs| && IsCommitmentPattern(outs[k].scriptPubKey)
    && forall j :: k < j < |outs| ==> !IsCommitmentPattern(outs[j].scriptPubKey)
  }

  predicate NoCommitment(outs: seq<TxOut>) {
    forall j :: 0 <= j < |outs| ==> !IsCommitmentPattern(outs[j].scriptPubKey)
  }

  lemma {:induction false} FoldKeeps(outs: seq<TxOut>, result: Buff)
    requires NoCommitment(outs)
    ensures FoldCommitment(outs, result) == result
    decreases |outs|
  {
    if outs != [] {
      FoldKeeps(outs[1..], result);
    }
  }

  lemma {:induction false} FoldFindsLast(outs: seq<TxOut>, k: nat, result: Buff)
    requires LastCommitmentAt(outs, k)
    ensures FoldCommitment(outs, result) == outs[k].scriptPubKey
    decreases |outs|
  {
    if k == 0 {
      FoldKeeps(outs[1..], outs[0].scriptPubKey);
    } else {
      FoldFindsLast(outs[1..], k - 1, if IsCommitmentPattern(outs[0].scriptPubKey) then outs[0].scriptPubKey else result);
    }
  }

  /** The script found is the last one with the prefix; the empty script says that no
      output has it. */
  lemma CommitmentIsLast(outs: seq<TxOut>)
    ensures NoCommitment(outs) ==> GetCommitmentScriptPubKey(outs) == []
    ensures forall k: nat :: LastCommitmentAt(outs, k) ==> GetCommitmentScriptPubKey(outs) == outs[k].scriptPubKey
  {
    if NoCommitment(outs) {
      FoldKeeps(outs, []);
    }
    forall k: nat | LastCommitmentAt(outs, k)
      ensures GetCommitmentScriptPubKey(outs) == outs[k].scriptPubKey
    {
      FoldFindsLast(outs, k, []);
    }
  }

  // --- The checks ---

  function ReversedHash(h: Hash): (r: Hash)
    ensures r == Reversed(h)
  {
    SwapsReverse(h);
    ReverseBuff32(h)
  }

  predicate VerifyBlockHeader(sha: Buff -> Hash, headers: map<nat, Hash>, header: Buff, height: nat) {
    height in headers && headers[height] == ReversedHash(DSha(sha, header))
  }

  function WasTxMinedInternal(sha: Buff -> Hash, headers: map<nat, Hash>, height: nat, tx: Buff, header: Buff,
                              merkleRoot: Hash, proof: Proof): Response<Hash>
  {
    if VerifyBlockHeader(sha, headers, header, height) then
      var reversedTxid := DSha(sha, tx);
      var txid := ReversedHash(reversedTxid);
      var proven :- if merkleRoot == txid then Ok(true)
                    else VerifyMerkleProof(sha, reversedTxid, ReversedHash(merkleRoot), proof);
      if proven then Ok(txid) else Err(ERR_PROOF_INVALID)
    else Err(ERR_HEADER_INVALID)
  }

  function WasTxMinedCompact(sha: Buff -> Hash, headers: map<nat, Hash>, height: nat, tx: Buff, header: Buff,
                             proof: Proof): Response<Hash>
  {
    match ParseBlockHeader(header)
    case Ok(block) => WasTxMinedInternal(sha, headers, height, tx, header, block.merkleRoot, proof)
    case Err(_) => Err(ERR_BAD_HEADER)
    case Panic => Panic
  }

  /** The outputs of the coinbase, parsed with witnesses when it has the marker and the
      flag of that format. */
  function CoinbaseOuts(ctx: Buff): Response<seq<TxOut>> {
    if 5 < |ctx| && ctx[4] == 0 && ctx[5] == 1 then
      var parsed :- ParseWtx(ctx);
      Ok(parsed.outs)
    else
      var parsed :- ParseTx(ctx);
      Ok(parsed.outs)
  }

  datatype SegwitProof = SegwitProof(txIndex: nat, treeDepth: nat, wproof: seq<Hash>, witnessRoot: Hash,
                                     reserved: Hash, ctx: Buff, cproof: seq<Hash>)

  function CommitmentScript(sha: Buff -> Hash, witnessRoot: Hash, reserved: Hash): Buff {
    var root: Buff := witnessRoot;
    var hash: Buff := DSha(sha, root + reserved);
    COMMITMENT_PREFIX + hash
  }

  function WasSegwitTxMinedCompact(sha: Buff -> Hash, headers: map<nat, Hash>, height: nat, tx: Buff, header: Buff,
                                   p: SegwitProof): Response<Hash>
  {
    var _ :- WasTxMinedCompact(sha, headers, height, p.ctx, header, Proof(0, p.cproof, p.treeDepth));
    var outs :- CoinbaseOuts(p.ctx);
    var reversedWtxid := DSha(sha, tx);
    if GetCommitmentScriptPubKey(outs) != CommitmentScript(sha, p.witnessRoot, p.reserved) then
      Err(ERR_INVALID_COMMITMENT)
    else
      var included :- VerifyMerkleProof(sha, reversedWtxid, p.witnessRoot, Proof(p.txIndex, p.wproof, p.treeDepth));
      if included then Ok(ReversedHash(reversedWtxid)) else Err(ERR_WITNESS_TX_NOT_IN_COMMITMENT)
  }

  /** The commitment: the six bytes of BIP-141 and the double hash of the witness root and,
      behind it, the reserved value. */
  lemma CommitmentIs(sha: Buff -> Hash, witnessRoot: Hash, reserved: Hash)
    ensures var root: Buff, value: Buff := witnessRoot, reserved;
            var hash: Buff := sha(sha(root + value));
            CommitmentScript(sha, witnessRoot, reserved) == [0x6a, 0x24, 0xaa, 0x21, 0xa9, 0xed] + hash
  {
  }

  /** A header is read as soon as it has 80 bytes, and its root stands at byte 36. */
  lemma HeaderRoot(header: Buff)
    ensures ParseBlockHeader(header).Ok? <==> 80 <= |header|
    ensures 80 <= |header| ==> Reversed(ParseBlockHeader(header).value.merkleRoot) == header[36..68]
    ensures |header| < 80 ==> ParseBlockHeader(header).Err?
  {
    hide FromLE, ReverseBuff32;
    if 80 <= |header| {
      SwapsReverse(header[4..36]);
      SwapsReverse(header[36..68]);
      ReversedTwice(header[36..68]);
    }
  }

  /** Whether a transaction id is the root or the proof leads from it to the root. */
  predicate Proven(sha: Buff -> Hash, reversedTxid: Hash, root: Buff, proof: Proof) {
    reversedTxid == root || VerifyMerkleProof(sha, reversedTxid, root, proof) == Ok(true)
  }

  lemma MinedIff(sha: Buff -> Hash, headers: map<nat, Hash>, height: nat, tx: Buff, header: Buff, proof: Proof)
    ensures WasTxMinedCompact(sha, headers, height, tx, header, proof).Ok? <==>
            && 80 <= |header| && height in headers && headers[height] == Reversed(sha(sha(header)))
            && Proven(sha, sha(sha(tx)), header[36..68], proof)
    ensures WasTxMinedCompact(sha, headers, height, tx, header, proof).Ok? ==>
              WasTxMinedCompact(sha, headers, height, tx, header, proof).value == Reversed(sha(sha(tx)))
  {
    hide ParseBlockHeader, VerifyMerkleProof, Reversed, ReversedHash;
    HeaderRoot(header);
    if 80 <= |header| {
      var root := ParseBlockHeader(header).value.merkleRoot;
      ReversedHashIs(root);
      ReversedHashIs(DSha(sha, tx));
      ReversedHashIs(DSha(sha, header));
      ReversedTwice(root);
      ReversedTwice(DSha(sha, tx));
    }
  }

  lemma ReversedHashIs(h: Hash)
    ensures ReversedHash(h) == Reversed(h)
  {
  }

  /** What `was-segwit-tx-mined-compact` accepts, and what it then returns: a header whose hash
      is recorded at the height, a coinbase that the proof leads to its root, with a last
      commitment to the witness root, and a proof from the transaction to that. */
  lemma SegwitMinedIff(sha: Buff -> Hash, headers: map<nat, Hash>, height: nat, tx: Buff, header: Buff, p: SegwitProof)
    ensures WasSegwitTxMinedCompact(sha, headers, height, tx, header, p).Ok? <==>
            && 80 <= |header| && height in headers && headers[height] == Reversed(sha(sha(header)))
            && Proven(sha, sha(sha(p.ctx)), header[36..68], Proof(0, p.cproof, p.treeDepth))
            && CoinbaseOuts(p.ctx).Ok?
            && GetCommitmentScriptPubKey(CoinbaseOuts(p.ctx).value) == CommitmentScript(sha, p.witnessRoot, p.reserved)
            && VerifyMerkleProof(sha, sha(sha(tx)), p.witnessRoot, Proof(p.txIndex, p.wproof, p.treeDepth)) == Ok(true)
    ensures WasSegwitTxMinedCompact(sha, headers, height, tx, header, p).Ok? ==>
              WasSegwitTxMinedCompact(sha, headers, height, tx, header, p).value == Reversed(sha(sha(tx)))
  {
    hide WasTxMinedCompact, CoinbaseOuts, GetCommitmentScriptPubKey, CommitmentScript, VerifyMerkleProof, Reversed,
      ReversedHash, Proven;
    MinedIff(sha, headers, height, p.ctx, header, Proof(0, p.cproof, p.treeDepth));
    ReversedHashIs(DSha(sha, tx));
  }

  // --- Completeness ---

  /** A coinbase transaction, without or with its witness. */
  datatype Coinbase = Stripped(tx: Tx) | Full(wtx: Wtx) {
    function Outs(): seq<TxOut> {
      if Stripped? then tx.outs else wtx.outs
    }
    /** A transaction has an input; the format with witnesses has marker 0 and flag 1. */
    predicate Fits() {
      if Stripped? then FitsTx(tx) && tx.ins != [] else FitsWtx(wtx) && wtx.marker == 0 && wtx.flag == 1
    }
    function Bytes(): Buff {
      if Stripped? then SerTx(tx) else SerWtx(wtx)
    }
  }

  lemma StrippedHasNoMarker(t: Tx, rest: Buff)
    requires FitsTx(t) && t.ins != []
    ensures var ctx := SerTx(t) + rest; 5 < |ctx| && ctx[4] == |t.ins|
  {
    hide Concat, LE, SerTxIn, SerTxOut;
    var ctx := SerTx(t) + rest;
    assert ctx[4] == Counted(SerTxIn, t.ins)[0] == Varint(|t.ins|)[0];
  }

  lemma FullHasMarker(t: Wtx, rest: Buff)
    requires FitsWtx(t)
    ensures var ctx := SerWtx(t) + rest; 5 < |ctx| && ctx[4] == t.marker && ctx[5] == t.flag
  {
    hide Concat, SerTxIn, SerTxOut, SerWitness, Counted;
    var ctx := SerWtx(t) + rest;
    assert LE(1, t.marker) == [t.marker] && LE(1, t.flag) == [t.flag];
    var head := LE(4, t.version) + LE(1, t.marker) + LE(1, t.flag);
    assert head[4] == t.marker && head[5] == t.flag;
    assert ctx[4] == head[4] && ctx[5] == head[5];
  }

  /** The outputs found are those of the coinbase, in either format and whatever bytes
      follow it. */
  lemma CoinbaseParses(c: Coinbase, rest: Buff)
    requires c.Fits()
    ensures CoinbaseOuts(c.Bytes() + rest) == Ok(c.Outs())
  {
    hide ReadTx, ReadWtx, SerTx, SerWtx, FitsTx, FitsWtx;
    match c
    case Stripped(t) =>
      StrippedHasNoMarker(t, rest);
      TxRoundTrip(t, rest);
    case Full(t) =>
      FullHasMarker(t, rest);
      WtxRoundTrip(t, rest);
  }

  lemma ReversedHashTwice(h: Hash)
    ensures ReversedHash(ReversedHash(h)) == h
  {
    ReversedTwice(h);
  }

  /** Any transaction of a recorded block with two to 2^14 transactions is accepted with
      its generated path. */
  lemma TxMinedComplete(sha: Buff -> Hash, headers: map<nat, Hash>, height: nat, tx: Buff, h: Header,
                        txids: seq<Hash>, index: nat)
    requires FitsHeader(h) && VerifyBlockHeader(sha, headers, SerHeader(h), height)
    requires 2 <= |txids| <= Pow2(MAX_PROOF) && h.merkleRoot == ReversedHash(Root(sha, txids))
    requires index < |txids| && txids[index] == DSha(sha, tx)
    ensures WasTxMinedCompact(sha, headers, height, tx, SerHeader(h),
                              Proof(index, ProofPath(index, Layers(sha, txids)), Depth(|txids|)))
         == Ok(ReversedHash(DSha(sha, tx)))
  {
    hide SerHeader, ParseBlockHeader, FitsHeader, VerifyMerkleProof, ProofPath, Root, Depth, VerifyBlockHeader, Layers;
    HeaderReads(h);
    ReversedHashTwice(Root(sha, txids));
    MerkleComplete(sha, txids, index);
  }

  /** End-to-end completeness: in every block of two to 2^14 transactions whose header
      hash is recorded and whose coinbase commits, in its last commitment output, to the
      root of the witness tree and the reserved value, every transaction is accepted and
      its witness transaction id is returned. */
  lemma SegwitMinedComplete(sha: Buff -> Hash, headers: map<nat, Hash>, height: nat, tx: Buff, h: Header,
                            txids: seq<Hash>, wtxids: seq<Hash>, index: nat,
                            c: Coinbase, rest: Buff, k: nat, reserved: Hash)
    requires FitsHeader(h) && VerifyBlockHeader(sha, headers, SerHeader(h), height)
    requires 2 <= |txids| == |wtxids| <= Pow2(MAX_PROOF) && h.merkleRoot == ReversedHash(Root(sha, txids))
    requires c.Fits() && txids[0] == DSha(sha, c.Bytes() + rest)
    requires LastCommitmentAt(c.Outs(), k)
    requires c.Outs()[k].scriptPubKey == CommitmentScript(sha, Root(sha, wtxids), reserved)
    requires index < |wtxids| && wtxids[index] == DSha(sha, tx)
    ensures WasSegwitTxMinedCompact(
              sha, headers, height, tx, SerHeader(h),
              SegwitProof(index, Depth(|wtxids|), ProofPath(index, Layers(sha, wtxids)), Root(sha, wtxids), reserved,
                          c.Bytes() + rest, ProofPath(0, Layers(sha, txids))))
         == Ok(ReversedHash(DSha(sha, tx)))
  {
    hide SerHeader, FitsHeader, VerifyMerkleProof, ProofPath, Root, Depth, VerifyBlockHeader, Layers,
      WasTxMinedCompact, CoinbaseOuts, LastCommitmentAt, CommitmentScript, GetCommitmentScriptPubKey;
    TxMinedComplete(sha, headers, height, c.Bytes() + rest, h, txids, 0);
    CoinbaseParses(c, rest);
    CommitmentIsLast(c.Outs());
    MerkleComplete(sha, wtxids, index);
  }

  // --- Soundness ---

  /** The two nodes whose hash is the root of a tree of more than one leaf. */
  function TopPair(sha: Buff -> Hash, leaves: seq<Hash>): (p: Buff)
    requires |leaves| > 1
    ensures |p| == 64 && DSha(sha, p) == Root(sha, leaves)
    decreases |leaves|
  {
    if |leaves| == 2 then Pair(leaves, 0) else TopPair(sha, NextLevel(sha, leaves))
  }

  lemma {:induction false} FirstLeafReached(n: nat)
    requires n > 0
    ensures LeafReached(n, 0) == 0
    decreases n
  {
    if n > 1 {
      FirstLeafReached((n + 1) / 2);
    }
  }

  /** A block as it was mined: its header, the ids and witness ids of its transactions
      and the bytes of its coinbase, which commits to the root of the witness ids. */
  datatype Block = Block(header: Header, txids: seq<Hash>, wtxids: seq<Hash>, coinbase: Buff, reserved: Hash) {
    predicate Mined(sha: Buff -> Hash) {
      && FitsHeader(header)
      && 0 < |txids| == |wtxids|
      && header.merkleRoot == ReversedHash(Root(sha, txids))
      && txids[0] == DSha(sha, coinbase)
      && CoinbaseOuts(coinbase).Ok?
      && GetCommitmentScriptPubKey(CoinbaseOuts(coinbase).value) == CommitmentScript(sha, Root(sha, wtxids), reserved)
    }
  }

  function WitnessPreimage(witnessRoot: Hash, reserved: Hash): (p: Buff)
    ensures |p| == 64
  {
    var root: Buff := witnessRoot;
    root + reserved
  }

  /** The two different inputs with one hash that an accepted proof of something else
      contains, found by following the proof beside the mined block. */
  function Forgery(sha: Buff -> Hash, b: Block, tx: Buff, header: Buff, p: SegwitProof): Option<(Buff, Buff)>
    requires b.Mined(sha) && |b.txids| > 1
  {
    if header != SerHeader(b.header) then Some((header, SerHeader(b.header)))
    else
      var coinbase := CoinbaseForgery(sha, b, p);
      var mined := WitnessPreimage(Root(sha, b.wtxids), b.reserved);
      if coinbase.Some? then coinbase
      else if WitnessPreimage(p.witnessRoot, p.reserved) != mined then
        Some((WitnessPreimage(p.witnessRoot, p.reserved), mined))
      else if |p.wproof| == Depth(|b.wtxids|) then DivergingPair(sha, b.wtxids, DSha(sha, tx), p.txIndex, p.wproof)
      else None
  }

  function CoinbaseForgery(sha: Buff -> Hash, b: Block, p: SegwitProof): Option<(Buff, Buff)>
    requires |b.txids| > 1
  {
    if DSha(sha, p.ctx) == Root(sha, b.txids) then Some((p.ctx, TopPair(sha, b.txids)))
    else
      var path := if |p.cproof| == Depth(|b.txids|) then DivergingPair(sha, b.txids, DSha(sha, p.ctx), 0, p.cproof)
                  else None;
      if path.Some? then path
      else if p.ctx != b.coinbase then Some((p.ctx, b.coinbase))
      else None
  }

  predicate IsForgery(sha: Buff -> Hash, found: Option<(Buff, Buff)>) {
    found.Some? && Collision(sha, found.value.0, found.value.1)
  }

  /** A coinbase accepted against the mined header is the mined coinbase, or the two
      nodes below the root, or comes with a collision. */
  lemma CoinbaseSound(sha: Buff -> Hash, headers: map<nat, Hash>, height: nat, b: Block, p: SegwitProof)
    requires b.Mined(sha) && |b.txids| > 1 && p.treeDepth == Depth(|b.txids|) && |p.cproof| <= MAX_PROOF
    requires WasTxMinedCompact(sha, headers, height, p.ctx, SerHeader(b.header),
                               Proof(0, p.cproof, p.treeDepth)).Ok?
    requires p.ctx != TopPair(sha, b.txids)
    ensures var found := CoinbaseForgery(sha, b, p);
            if found == None then p.ctx == b.coinbase else IsForgery(sha, found)
  {
    hide Root, TopPair, DivergingPair, VerifyMerkleProof, SerHeader, FitsHeader, ParseBlockHeader, CoinbaseOuts,
      GetCommitmentScriptPubKey, CommitmentScript, VerifyBlockHeader, LeafReached, Depth;
    HeaderReads(b.header);
    ReversedHashTwice(Root(sha, b.txids));
    ReversedHashTwice(DSha(sha, p.ctx));
    if DSha(sha, p.ctx) != Root(sha, b.txids) {
      MerkleSound(sha, b.txids, DSha(sha, p.ctx), Proof(0, p.cproof, p.treeDepth));
      FirstLeafReached(|b.txids|);
    }
  }

  lemma PreimageOfCommitment(sha: Buff -> Hash, rootA: Hash, reservedA: Hash, rootB: Hash, reservedB: Hash)
    requires CommitmentScript(sha, rootA, reservedA) == CommitmentScript(sha, rootB, reservedB)
    ensures DSha(sha, WitnessPreimage(rootA, reservedA)) == DSha(sha, WitnessPreimage(rootB, reservedB))
    ensures WitnessPreimage(rootA, reservedA) == WitnessPreimage(rootB, reservedB) ==> rootA == rootB
  {
    hide DSha;
    var hashA: Buff := DSha(sha, WitnessPreimage(rootA, reservedA));
    var hashB: Buff := DSha(sha, WitnessPreimage(rootB, reservedB));
    assert hashA == CommitmentScript(sha, rootA, reservedA)[6..];
    assert hashB == CommitmentScript(sha, rootB, reservedB)[6..];
    assert rootA == WitnessPreimage(rootA, reservedA)[..32];
    assert rootB == WitnessPreimage(rootB, reservedB)[..32];
  }

  /** The same with the exact exception: the coinbase handed in is the two nodes below the
      root. */
  lemma SoundButForTopPair(sha: Buff -> Hash, headers: map<nat, Hash>, height: nat, b: Block, tx: Buff, header: Buff,
                         p: SegwitProof)
    requires b.Mined(sha) && VerifyBlockHeader(sha, headers, SerHeader(b.header), height)
    requires p.treeDepth == Depth(|b.txids|) && |p.cproof| <= MAX_PROOF && |p.wproof| <= MAX_PROOF
    requires WasSegwitTxMinedCompact(sha, headers, height, tx, header, p).Ok?
    ensures |b.txids| > 1
    ensures WasSegwitTxMinedCompact(sha, headers, height, tx, header, p) == Ok(ReversedHash(DSha(sha, tx)))
    ensures p.ctx != TopPair(sha, b.txids) ==>
              var found := Forgery(sha, b, tx, header, p);
              if found == None then DSha(sha, tx) == b.wtxids[LeafReached(|b.wtxids|, p.txIndex)]
              else IsForgery(sha, found)
  {
    hide Root, TopPair, DivergingPair, VerifyMerkleProof, SerHeader, FitsHeader, ParseBlockHeader, CoinbaseOuts,
      GetCommitmentScriptPubKey, CommitmentScript, LeafReached, Depth, CoinbaseForgery, WitnessPreimage;
    MoreThanOne(sha, b, tx, p);
    SameHeader(sha, headers, height, b, header, p);
    if p.ctx != TopPair(sha, b.txids) && header == SerHeader(b.header) {
      CoinbaseSound(sha, headers, height, b, p);
      if CoinbaseForgery(sha, b, p) == None {
        PreimageOfCommitment(sha, p.witnessRoot, p.reserved, Root(sha, b.wtxids), b.reserved);
        if p.witnessRoot == Root(sha, b.wtxids) {
          MerkleSound(sha, b.wtxids, DSha(sha, tx), Proof(p.txIndex, p.wproof, p.treeDepth));
        }
      }
    }
  }

  /** End-to-end soundness: what is accepted against the recorded header of a mined
      block, at the depth of its tree and with a coinbase that is not 64 bytes long, is the
      witness id that the index leads to, or the arguments contain two different inputs
      with one hash, which `Forgery` finds. */
  lemma SegwitMinedSound(sha: Buff -> Hash, headers: map<nat, Hash>, height: nat, b: Block, tx: Buff, header: Buff,
                         p: SegwitProof)
    requires b.Mined(sha) && VerifyBlockHeader(sha, headers, SerHeader(b.header), height)
    requires p.treeDepth == Depth(|b.txids|) && |p.cproof| <= MAX_PROOF && |p.wproof| <= MAX_PROOF
    requires WasSegwitTxMinedCompact(sha, headers, height, tx, header, p).Ok?
    ensures |b.txids| > 1
    ensures WasSegwitTxMinedCompact(sha, headers, height, tx, header, p) == Ok(ReversedHash(DSha(sha, tx)))
    ensures |p.ctx| != 64 ==>
              var found := Forgery(sha, b, tx, header, p);
              if found == None then DSha(sha, tx) == b.wtxids[LeafReached(|b.wtxids|, p.txIndex)]
              else IsForgery(sha, found)
  {
    hide Block.Mined, VerifyBlockHeader, WasSegwitTxMinedCompact, Forgery, LeafReached, Depth, TopPair;
    SoundButForTopPair(sha, headers, height, b, tx, header, p);
  }

  lemma MoreThanOne(sha: Buff -> Hash, b: Block, tx: Buff, p: SegwitProof)
    requires 0 < |b.txids| && p.treeDepth == Depth(|b.txids|) && |p.wproof| <= MAX_PROOF
    requires VerifyMerkleProof(sha, DSha(sha, tx), p.witnessRoot, Proof(p.txIndex, p.wproof, p.treeDepth)) == Ok(true)
    ensures |b.txids| > 1
  {
    hide Climb, FoldVerify;
    VerifyIsClimb(sha, DSha(sha, tx), p.witnessRoot, Proof(p.txIndex, p.wproof, p.treeDepth));
  }

  lemma SameHeader(sha: Buff -> Hash, headers: map<nat, Hash>, height: nat, b: Block, header: Buff, p: SegwitProof)
    requires VerifyBlockHeader(sha, headers, SerHeader(b.header), height)
    requires WasTxMinedCompact(sha, headers, height, p.ctx, header, Proof(0, p.cproof, p.treeDepth)).Ok?
    ensures header != SerHeader(b.header) ==> Collision(sha, header, SerHeader(b.header))
  {
    hide ParseBlockHeader, VerifyMerkleProof, SerHeader;
    ReversedHashTwice(DSha(sha, header));
    ReversedHashTwice(DSha(sha, SerHeader(b.header)));
  }

  // --- The generated header ---

  /** `generateBlockHeader` writes the fields into a zeroed buffer; the parser finds the
      root at its place, reversed. */
  method GenerateBlockHeader(merkleRoot: Hash) returns (header: array<Byte>)
    ensures fresh(header)
    ensures header[..] == SerHeader(Header(0, Zeros(32), ReversedHash(merkleRoot), 0, 0, 0))
  {
    header := new Byte[80](_ => 0);
    for i := 0 to 32
      invariant forall k :: 0 <= k < 80 ==> header[k] == if 36 <= k < 36 + i then merkleRoot[k - 36] else 0
    {
      header[36 + i] := merkleRoot[i];
    }
    HeaderBytes(merkleRoot);
  }

  lemma ZerosAreZero(n: nat)
    ensures forall k :: 0 <= k < n ==> Zeros(n)[k] == 0
  {
  }

  lemma HeaderBytes(merkleRoot: Hash)
    ensures var s := SerHeader(Header(0, Zeros(32), ReversedHash(merkleRoot), 0, 0, 0));
            && |s| == 80
            && forall k :: 0 <= k < 80 ==> s[k] == if 36 <= k < 68 then merkleRoot[k - 36] else 0
  {
    hide Zeros, Reversed, ReverseBuff32;
    ReversedHashTwice(merkleRoot);
    ZerosAreZero(32);
    var zeros: Buff := [0, 0, 0, 0];
    assert LE(4, 0) == zeros by {
      assert LE(1, 0) == [0];
      assert LE(2, 0) == [0, 0];
    }
    var parent := Reversed(Zeros(32));
    assert forall k :: 0 <= k < 32 ==> parent[k] == 0;
    var root: Buff := merkleRoot;
    assert SerHeader(Header(0, Zeros(32), ReversedHash(merkleRoot), 0, 0, 0))
        == zeros + parent + root + zeros + zeros + zeros;
  }
}
