/**
 The bounded transaction and block-header parser of `clarity-bitcoin.clar`.
 Every reader takes the buffer and a position and returns what it read with the
 position just behind it.
 */
module TxParser {
  import opened Bytes
  import opened Clarity
  import opened BufferReversal

  const ERR_OUT_OF_BOUNDS: nat := 1
  const ERR_TOO_MANY_TXINS: nat := 2
  const ERR_TOO_MANY_TXOUTS: nat := 3
  const ERR_VARSLICE_TOO_LONG: nat := 4
  const ERR_TOO_MANY_WITNESSES: nat := 7

  /** The longest list a transaction's parts may have. */
  const MAX_LIST: nat := 8
  const MAX_SCRIPT_SIG: nat := 256
  const MAX_SCRIPT: nat := 128

  datatype Parsed<+T> = Parsed(value: T, index: nat)

  datatype TxIn = TxIn(hash: Buff, outIndex: nat, scriptSig: Buff, sequence: nat)
  datatype TxOut = TxOut(value: nat, scriptPubKey: Buff)
  type Witness = seq<Buff>
  datatype Tx = Tx(version: nat, ins: seq<TxIn>, outs: seq<TxOut>, locktime: nat)
  datatype Wtx = Wtx(version: nat, marker: nat, flag: nat, ins: seq<TxIn>, outs: seq<TxOut>,
                     witnesses: seq<Witness>, locktime: nat)
  datatype Header = Header(version: nat, parent: Buff, merkleRoot: Buff, timestamp: nat, nbits: nat, nonce: nat)

  function Slice(tx: Buff, from: nat, to: nat): (r: Response<Buff>)
    requires from <= to
  {
    if to <= |tx| then Ok(tx[from..to]) else Err(ERR_OUT_OF_BOUNDS)
  }

  /** `read-uint8`, `read-uint16`, `read-uint32` and `read-uint64`. */
  function ReadUint(n: nat, tx: Buff, index: nat): Response<Parsed<nat>> {
    var bytes :- Slice(tx, index, index + n);
    Ok(Parsed(FromLE(bytes), index + n))
  }

  function ReadVarint(tx: Buff, index: nat): Response<Parsed<nat>> {
    if |tx| <= index then Err(ERR_OUT_OF_BOUNDS)
    else if tx[index] <= 252 then Ok(Parsed(tx[index], index + 1))
    else if tx[index] == 253 then ReadUint(2, tx, index + 1)
    else if tx[index] == 254 then ReadUint(4, tx, index + 1)
    else ReadUint(8, tx, index + 1)
  }

  function ReadVarslice(tx: Buff, index: nat): Response<Parsed<Buff>> {
    var length :- ReadVarint(tx, index);
    var bytes :- Slice(tx, length.index, length.index + length.value);
    Ok(Parsed(bytes, length.index + length.value))
  }

  function ReadHashslice(tx: Buff, index: nat): (r: Response<Parsed<Buff>>)
    ensures r.Ok? ==> |r.value.value| == 32
  {
    var bytes :- Slice(tx, index, index + 32);
    Ok(Parsed(ReverseBuff32(bytes), index + 32))
  }

  function Within(limit: nat, bytes: Buff): Response<Buff> {
    if |bytes| <= limit then Ok(bytes) else Err(ERR_VARSLICE_TOO_LONG)
  }

  function ReadTxin(tx: Buff, index: nat): Response<Parsed<TxIn>> {
    var hash :- ReadHashslice(tx, index);
    var outIndex :- ReadUint(4, tx, hash.index);
    var script :- ReadVarslice(tx, outIndex.index);
    var sequence :- ReadUint(4, tx, script.index);
    var scriptSig :- Within(MAX_SCRIPT_SIG, script.value);
    Ok(Parsed(TxIn(hash.value, outIndex.value, scriptSig, sequence.value), sequence.index))
  }

  function ReadTxout(tx: Buff, index: nat): Response<Parsed<TxOut>> {
    var value :- ReadUint(8, tx, index);
    var script :- ReadVarslice(tx, value.index);
    var scriptPubKey :- Within(MAX_SCRIPT, script.value);
    Ok(Parsed(TxOut(value.value, scriptPubKey), script.index))
  }

  function ReadItem(tx: Buff, index: nat): Response<Parsed<Buff>> {
    var slice :- ReadVarslice(tx, index);
    var item :- Within(MAX_SCRIPT, slice.value);
    Ok(Parsed(item, slice.index))
  }

  /** The folds over a list of `n` booleans: `n` more elements are appended to `done`,
      which may not outgrow the list type. */
  function ReadMore<T>(read: (Buff, nat) -> Response<Parsed<T>>, tooMany: nat,
                       tx: Buff, index: nat, n: nat, done: seq<T>): Response<Parsed<seq<T>>>
    decreases n
  {
    if n == 0 then Ok(Parsed(done, index))
    else
      var next :- read(tx, index);
      if |done| >= MAX_LIST then Err(tooMany)
      else ReadMore(read, tooMany, tx, next.index, n - 1, done + [next.value])
  }

  /** `bool-list-of-len` aborts the call when asked for more than eight. */
  function ReadList<T>(read: (Buff, nat) -> Response<Parsed<T>>, tooMany: nat,
                       tx: Buff, index: nat, n: nat): Response<Parsed<seq<T>>>
  {
    if n > MAX_LIST then Panic else ReadMore(read, tooMany, tx, index, n, [])
  }

  function ReadTxins(tx: Buff, index: nat): Response<Parsed<seq<TxIn>>> {
    var count :- ReadVarint(tx, index);
    if count.value > MAX_LIST then Err(ERR_TOO_MANY_TXINS)
    else ReadList(ReadTxin, ERR_TOO_MANY_TXINS, tx, count.index, count.value)
  }

  function ReadTxouts(tx: Buff, index: nat): Response<Parsed<seq<TxOut>>> {
    var count :- ReadVarint(tx, index);
    if count.value > MAX_LIST then Err(ERR_TOO_MANY_TXOUTS)
    else ReadList(ReadTxout, ERR_TOO_MANY_TXOUTS, tx, count.index, count.value)
  }

  /** The number of stack items is not compared with the limit first. */
  function ReadWitness(tx: Buff, index: nat): Response<Parsed<Witness>> {
    var count :- ReadVarint(tx, index);
    if count.value > 0 then ReadList(ReadItem, ERR_TOO_MANY_WITNESSES, tx, count.index, count.value)
    else Ok(Parsed([], count.index))
  }

  /** No witness count is written: there is one witness for each input. */
  function ReadWitnesses(tx: Buff, index: nat, txins: nat): Response<Parsed<seq<Witness>>> {
    ReadList(ReadWitness, ERR_TOO_MANY_WITNESSES, tx, index, txins)
  }

  function ReadWtx(tx: Buff): Response<Parsed<Wtx>> {
    var version :- ReadUint(4, tx, 0);
    var marker :- ReadUint(1, tx, version.index);
    var flag :- ReadUint(1, tx, marker.index);
    var ins :- ReadTxins(tx, flag.index);
    var outs :- ReadTxouts(tx, ins.index);
    var witnesses :- ReadWitnesses(tx, outs.index, |ins.value|);
    var locktime :- ReadUint(4, tx, witnesses.index);
    Ok(Parsed(Wtx(version.value, marker.value, flag.value, ins.value, outs.value, witnesses.value, locktime.value),
              locktime.index))
  }

  function ReadTx(tx: Buff): Response<Parsed<Tx>> {
    var version :- ReadUint(4, tx, 0);
    var ins :- ReadTxins(tx, version.index);
    var outs :- ReadTxouts(tx, ins.index);
    var locktime :- ReadUint(4, tx, outs.index);
    Ok(Parsed(Tx(version.value, ins.value, outs.value, locktime.value), locktime.index))
  }

  /** `parse-wtx`: what follows the transaction is ignored, and so are the values of
      the marker and the flag. */
  function ParseWtx(tx: Buff): Response<Wtx> {
    var parsed :- ReadWtx(tx);
    Ok(parsed.value)
  }

  function ParseTx(tx: Buff): Response<Tx> {
    var parsed :- ReadTx(tx);
    Ok(parsed.value)
  }

  function ParseBlockHeader(header: Buff): (r: Response<Header>)
    ensures r.Ok? ==> |r.value.parent| == 32 && |r.value.merkleRoot| == 32
  {
    var version :- ReadUint(4, header, 0);
    var parent :- ReadHashslice(header, version.index);
    var merkleRoot :- ReadHashslice(header, parent.index);
    var timestamp :- ReadUint(4, header, merkleRoot.index);
    var nbits :- ReadUint(4, header, timestamp.index);
    var nonce :- ReadUint(4, header, nbits.index);
    Ok(Header(version.value, parent.value, merkleRoot.value, timestamp.value, nbits.value, nonce.value))
  }
}
