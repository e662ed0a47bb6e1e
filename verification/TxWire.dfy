/**
 The wire format of transactions (BIP-144, "Serialization") and the proof that the
 parser inverts it: it reads back every serialization of a transaction within its
 bounds, and what it accepts is never shorter than the serialization of the result,
 and is that serialization when it has the same length.
 */
module TxWire {
  import opened Bytes
  import opened Clarity
  import opened BufferReversal
  import opened TxParser

  const UINT32: nat := 0x1_0000_0000
  const UINT64: nat := 0x1_0000_0000_0000_0000

  // --- The format ---

  /** The shortest encoding of `v`. */
  function Varint(v: nat): (s: Buff)
    ensures 1 <= |s| <= 9
  {
    if v <= 252 then [v]
    else if v < 0x1_0000 then [253] + LE(2, v)
    else if v < UINT32 then [254] + LE(4, v)
    else [255] + LE(8, v)
  }

  function Varslice(s: Buff): Buff {
    Varint(|s|) + s
  }

  function Concat<T>(enc: T -> Buff, xs: seq<T>): Buff {
    if xs == [] then [] else enc(xs[0]) + Concat(enc, xs[1..])
  }

  function Counted<T>(enc: T -> Buff, xs: seq<T>): Buff {
    Varint(|xs|) + Concat(enc, xs)
  }

  function SerTxIn(t: TxIn): Buff {
    Reversed(t.hash) + LE(4, t.outIndex) + Varslice(t.scriptSig) + LE(4, t.sequence)
  }

  function SerTxOut(t: TxOut): Buff {
    LE(8, t.value) + Varslice(t.scriptPubKey)
  }

  function SerItem(s: Buff): Buff {
    Varslice(s)
  }

  function SerWitness(w: Witness): Buff {
    Counted(SerItem, w)
  }

  function SerTx(t: Tx): Buff {
    LE(4, t.version) + Counted(SerTxIn, t.ins) + Counted(SerTxOut, t.outs) + LE(4, t.locktime)
  }

  function SerWtx(t: Wtx): Buff {
    LE(4, t.version) + LE(1, t.marker) + LE(1, t.flag) + Counted(SerTxIn, t.ins) + Counted(SerTxOut, t.outs)
    + Concat(SerWitness, t.witnesses) + LE(4, t.locktime)
  }

  function SerHeader(h: Header): Buff {
    LE(4, h.version) + Reversed(h.parent) + Reversed(h.merkleRoot)
    + LE(4, h.timestamp) + LE(4, h.nbits) + LE(4, h.nonce)
  }

  // --- The bounds of the parser ---

  predicate FitsTxIn(t: TxIn) {
    |t.hash| == 32 && t.outIndex < UINT32 && |t.scriptSig| <= MAX_SCRIPT_SIG && t.sequence < UINT32
  }

  predicate FitsTxOut(t: TxOut) {
    t.value < UINT64 && |t.scriptPubKey| <= MAX_SCRIPT
  }

  predicate FitsItem(s: Buff) {
    |s| <= MAX_SCRIPT
  }

  predicate AllFit<T>(fits: T -> bool, xs: seq<T>) {
    |xs| <= MAX_LIST && forall k :: 0 <= k < |xs| ==> fits(xs[k])
  }

  predicate FitsWitness(w: Witness) {
    AllFit(FitsItem, w)
  }

  predicate FitsTx(t: Tx) {
    t.version < UINT32 && AllFit(FitsTxIn, t.ins) && AllFit(FitsTxOut, t.outs) && t.locktime < UINT32
  }

  predicate FitsWtx(t: Wtx) {
    t.version < UINT32 && t.marker < 256 && t.flag < 256 && AllFit(FitsTxIn, t.ins) && AllFit(FitsTxOut, t.outs)
    && AllFit(FitsWitness, t.witnesses) && |t.witnesses| == |t.ins| && t.locktime < UINT32
  }

  predicate FitsHeader(h: Header) {
    h.version < UINT32 && |h.parent| == 32 && |h.merkleRoot| == 32
    && h.timestamp < UINT32 && h.nbits < UINT32 && h.nonce < UINT32
  }

  /** The bounds in numbers. */
  lemma FitsMeans(t: Tx, w: Wtx)
    ensures FitsTx(t) <==>
            && t.version < 0x1_0000_0000 && t.locktime < 0x1_0000_0000 && |t.ins| <= 8 && |t.outs| <= 8
            && (forall k :: 0 <= k < |t.ins| ==>
                  |t.ins[k].hash| == 32 && t.ins[k].outIndex < 0x1_0000_0000 && |t.ins[k].scriptSig| <= 256
                  && t.ins[k].sequence < 0x1_0000_0000)
            && (forall k :: 0 <= k < |t.outs| ==> t.outs[k].value < 0x1_0000_0000_0000_0000 && |t.outs[k].scriptPubKey| <= 128)
    ensures FitsWtx(w) <==>
            && FitsTx(Tx(w.version, w.ins, w.outs, w.locktime)) && w.marker < 256 && w.flag < 256 && |w.witnesses| == |w.ins|
            && forall k :: 0 <= k < |w.witnesses| ==>
                 |w.witnesses[k]| <= 8 && forall j :: 0 <= j < |w.witnesses[k]| ==> |w.witnesses[k][j]| <= 128
  {
  }

  // --- Places in a buffer ---

  /** `s` is no longer than the stretch from `i` to `j`, and is that stretch when it is
      no shorter. */
  predicate Tight(tx: Buff, i: nat, j: nat, s: Buff) {
    i <= j <= |tx| && |s| <= j - i && (|s| == j - i ==> tx[i..j] == s)
  }

  /** `s` is as long as the stretch from `i` to `j`. */
  predicate Exact(i: nat, j: nat, s: Buff) {
    i <= j && |s| == j - i
  }

  /** Where no part is too long, the whole has the right length exactly when each part has. */
  lemma ExactConcat(tx: Buff, i: nat, m: nat, j: nat, a: Buff, b: Buff)
    requires Tight(tx, i, m, a) && Tight(tx, m, j, b)
    ensures Exact(i, j, a + b) <==> Exact(i, m, a) && Exact(m, j, b)
  {
  }

  lemma TightConcat(tx: Buff, i: nat, m: nat, j: nat, a: Buff, b: Buff)
    requires Tight(tx, i, m, a) && Tight(tx, m, j, b)
    ensures Tight(tx, i, j, a + b)
  {
    if |a + b| == j - i {
      assert tx[i..j] == tx[i..m] + tx[m..j];
    }
  }

  // --- Numbers, slices and hashes ---

  lemma UintReads(n: nat, tx: Buff, i: nat, v: nat)
    requires v < Pow256(n) && At(tx, i, LE(n, v))
    ensures ReadUint(n, tx, i) == Ok(Parsed(v, i + n))
  {
    FromLEOfLE(n, v);
  }

  lemma UintTight(n: nat, tx: Buff, i: nat)
    requires ReadUint(n, tx, i).Ok?
    ensures var p := ReadUint(n, tx, i).value;
            && p.value < Pow256(n) && p.index == i + n && Tight(tx, i, p.index, LE(n, p.value))
            && Exact(i, p.index, LE(n, p.value))
  {
    LEOfFromLE(tx[i..i + n]);
  }

  lemma Widths()
    ensures Pow256(1) == 256 && Pow256(2) == 0x1_0000 && Pow256(4) == UINT32 && Pow256(8) == UINT64
  {
    assert Pow256(2) == 256 * Pow256(1);
    assert Pow256(3) == 256 * Pow256(2);
    assert Pow256(4) == 256 * Pow256(3);
    assert Pow256(5) == 256 * Pow256(4);
    assert Pow256(6) == 256 * Pow256(5);
    assert Pow256(7) == 256 * Pow256(6);
    assert Pow256(8) == 256 * Pow256(7);
  }

  lemma VarintReads(tx: Buff, i: nat, v: nat)
    requires v < UINT64 && At(tx, i, Varint(v))
    ensures ReadVarint(tx, i) == Ok(Parsed(v, i + |Varint(v)|))
  {
    hide LE, FromLE, Pow256;
    Widths();
    assert tx[i] == tx[i..i + |Varint(v)|][0];
    if v > 252 {
      var n := if v < 0x1_0000 then 2 else if v < UINT32 then 4 else 8;
      AtConcat(tx, i, [Varint(v)[0]], LE(n, v));
      UintReads(n, tx, i + 1, v);
    }
  }

  /** Every varint is read that is there in full, minimal or not. */
  lemma VarintIff(tx: Buff, i: nat)
    ensures ReadVarint(tx, i).Ok? <==>
            i < |tx| && i + (if tx[i] <= 252 then 1 else if tx[i] == 253 then 3 else if tx[i] == 254 then 5 else 9) <= |tx|
    ensures !ReadVarint(tx, i).Ok? ==> ReadVarint(tx, i) == Err(ERR_OUT_OF_BOUNDS)
    ensures ReadVarint(tx, i).Ok? ==>
              ReadVarint(tx, i).value.value
              == if tx[i] <= 252 then tx[i] else FromLE(tx[i + 1..i + if tx[i] == 253 then 3 else if tx[i] == 254 then 5 else 9])
  {
  }

  /** How many bytes the first byte of a varint announces in all. */
  function VarintWidth(first: Byte): nat {
    if first <= 252 then 1 else if first == 253 then 3 else if first == 254 then 5 else 9
  }

  /** The varint at `i` does not fit a narrower form than the one its first byte chooses. */
  predicate MinimalVarint(tx: Buff, i: nat) {
    var r := ReadVarint(tx, i);
    r.Ok? && i < |tx|
    && (tx[i] <= 252 || (tx[i] == 253 && r.value.value > 252) || (tx[i] == 254 && r.value.value >= 0x1_0000)
        || (tx[i] == 255 && r.value.value >= UINT32))
  }

  /** A varint consumes what its first byte announces; its value has no longer encoding,
      and one of that length exactly when the varint is minimal. */
  lemma VarintTight(tx: Buff, i: nat)
    requires ReadVarint(tx, i).Ok?
    ensures i < |tx|
    ensures var p := ReadVarint(tx, i).value;
            && p.value < UINT64 && p.index == i + VarintWidth(tx[i])
            && Tight(tx, i, p.index, Varint(p.value))
            && (Exact(i, p.index, Varint(p.value)) <==> MinimalVarint(tx, i))
            && (tx[i..p.index] == Varint(p.value) <==> MinimalVarint(tx, i))
  {
    hide LE, FromLE, Pow256;
    Widths();
    var p := ReadVarint(tx, i).value;
    if tx[i] > 252 {
      var n := VarintWidth(tx[i]) - 1;
      UintTight(n, tx, i + 1);
      assert Tight(tx, i, i + 1, [tx[i]]);
      TightConcat(tx, i, i + 1, p.index, [tx[i]], LE(n, p.value));
    }
  }

  lemma VarsliceReads(tx: Buff, i: nat, s: Buff)
    requires |s| < UINT64 && At(tx, i, Varslice(s))
    ensures ReadVarslice(tx, i) == Ok(Parsed(s, i + |Varslice(s)|))
  {
    hide ReadVarint, Varint;
    AtConcat(tx, i, Varint(|s|), s);
    VarintReads(tx, i, |s|);
  }

  lemma VarsliceTight(tx: Buff, i: nat)
    requires ReadVarslice(tx, i).Ok?
    ensures var p := ReadVarslice(tx, i).value;
            && |p.value| < UINT64 && Tight(tx, i, p.index, Varslice(p.value))
            && (Exact(i, p.index, Varslice(p.value)) <==> MinimalVarint(tx, i))
  {
    hide ReadVarint, Varint, VarintWidth, MinimalVarint;
    VarintTight(tx, i);
    var length := ReadVarint(tx, i).value;
    var p := ReadVarslice(tx, i).value;
    TightConcat(tx, i, length.index, p.index, Varint(length.value), p.value);
    ExactConcat(tx, i, length.index, p.index, Varint(length.value), p.value);
  }

  lemma HashReads(tx: Buff, i: nat, h: Buff)
    requires |h| == 32 && At(tx, i, Reversed(h))
    ensures ReadHashslice(tx, i) == Ok(Parsed(h, i + 32))
  {
    hide ReverseBuff32, Reversed;
    SwapsReverse(Reversed(h));
    ReversedTwice(h);
  }

  lemma HashTight(tx: Buff, i: nat)
    requires ReadHashslice(tx, i).Ok?
    ensures var p := ReadHashslice(tx, i).value;
            && |p.value| == 32 && p.index == i + 32 && Tight(tx, i, p.index, Reversed(p.value))
            && Exact(i, p.index, Reversed(p.value))
  {
    hide ReverseBuff32, Reversed;
    SwapsReverse(tx[i..i + 32]);
    ReversedTwice(tx[i..i + 32]);
  }

  // --- Elements of lists ---

  /** Wherever the encoding of a value within bounds stands, the reader finds that value
      and stops just behind it. */
  ghost predicate Decodes<T(!new)>(read: (Buff, nat) -> Response<Parsed<T>>, enc: T -> Buff, fits: T -> bool) {
    forall tx: Buff, i: nat, v: T :: fits(v) && At(tx, i, enc(v)) ==> read(tx, i) == Ok(Parsed(v, i + |enc(v)|))
  }

  /** What the reader finds is within bounds, and its encoding no longer than what was
      consumed, and as long exactly when every varint in that was minimal. */
  predicate ReencodesAt<T>(read: (Buff, nat) -> Response<Parsed<T>>, enc: T -> Buff, fits: T -> bool,
                           minimal: (Buff, nat) -> bool, tx: Buff, i: nat)
  {
    read(tx, i).Ok? ==>
      var p := read(tx, i).value;
      && fits(p.value) && Tight(tx, i, p.index, enc(p.value))
      && (Exact(i, p.index, enc(p.value)) <==> minimal(tx, i))
  }

  ghost predicate Reencodes<T(!new)>(read: (Buff, nat) -> Response<Parsed<T>>, enc: T -> Buff, fits: T -> bool,
                                     minimal: (Buff, nat) -> bool)
  {
    forall tx: Buff, i: nat :: ReencodesAt(read, enc, fits, minimal, tx, i)
  }

  /** The varints of `n` elements read from `i` on are minimal. */
  predicate MinimalMore<T>(read: (Buff, nat) -> Response<Parsed<T>>, minimal: (Buff, nat) -> bool,
                           tx: Buff, i: nat, n: nat)
    decreases n
  {
    n == 0 || (minimal(tx, i) && read(tx, i).Ok? && MinimalMore(read, minimal, tx, read(tx, i).value.index, n - 1))
  }

  /** The same for a list preceded by its count. */
  predicate MinimalCounted<T>(read: (Buff, nat) -> Response<Parsed<T>>, minimal: (Buff, nat) -> bool, tx: Buff, i: nat) {
    && MinimalVarint(tx, i)
    && var count := ReadVarint(tx, i).value; MinimalMore(read, minimal, tx, count.index, count.value)
  }

  predicate MinimalTxin(tx: Buff, i: nat) {
    MinimalVarint(tx, i + 36)
  }

  predicate MinimalTxout(tx: Buff, i: nat) {
    MinimalVarint(tx, i + 8)
  }

  predicate MinimalWitness(tx: Buff, i: nat) {
    MinimalCounted(ReadItem, MinimalVarint, tx, i)
  }

  /** Every varint of a serialized transaction: the counts and the lengths of the scripts. */
  predicate MinimalTx(tx: Buff) {
    && MinimalCounted(ReadTxin, MinimalTxin, tx, 4)
    && ReadTxins(tx, 4).Ok? && MinimalCounted(ReadTxout, MinimalTxout, tx, ReadTxins(tx, 4).value.index)
  }

  /** The same in the witness format, with the counts and lengths of the witnesses. */
  predicate MinimalWtx(tx: Buff) {
    && MinimalCounted(ReadTxin, MinimalTxin, tx, 6)
    && ReadTxins(tx, 6).Ok? && var ins := ReadTxins(tx, 6).value;
    && MinimalCounted(ReadTxout, MinimalTxout, tx, ins.index)
    && ReadTxouts(tx, ins.index).Ok?
    && MinimalMore(ReadWitness, MinimalWitness, tx, ReadTxouts(tx, ins.index).value.index, |ins.value|)
  }

  lemma ElementReads<T(!new)>(read: (Buff, nat) -> Response<Parsed<T>>, enc: T -> Buff, fits: T -> bool,
                              tx: Buff, i: nat, v: T)
    requires Decodes(read, enc, fits) && fits(v) && At(tx, i, enc(v))
    ensures read(tx, i) == Ok(Parsed(v, i + |enc(v)|))
  {
  }

  lemma {:induction false} MoreReads<T(!new)>(read: (Buff, nat) -> Response<Parsed<T>>, enc: T -> Buff, fits: T -> bool,
                                              tooMany: nat, tx: Buff, i: nat, done: seq<T>, xs: seq<T>)
    requires Decodes(read, enc, fits) && |done| + |xs| <= MAX_LIST && AllFit(fits, xs)
    requires At(tx, i, Concat(enc, xs))
    ensures ReadMore(read, tooMany, tx, i, |xs|, done) == Ok(Parsed(done + xs, i + |Concat(enc, xs)|))
    decreases |xs|
  {
    hide At, Decodes;
    if xs == [] {
      assert done + xs == done;
    } else {
      AtConcat(tx, i, enc(xs[0]), Concat(enc, xs[1..]));
      ElementReads(read, enc, fits, tx, i, xs[0]);
      MoreReads(read, enc, fits, tooMany, tx, i + |enc(xs[0])|, done + [xs[0]], xs[1..]);
      assert done + [xs[0]] + xs[1..] == done + xs;
    }
  }

  lemma ElementTight<T(!new)>(read: (Buff, nat) -> Response<Parsed<T>>, enc: T -> Buff, fits: T -> bool,
                              minimal: (Buff, nat) -> bool, tx: Buff, i: nat)
    requires Reencodes(read, enc, fits, minimal) && read(tx, i).Ok?
    ensures var p := read(tx, i).value;
            && fits(p.value) && Tight(tx, i, p.index, enc(p.value))
            && (Exact(i, p.index, enc(p.value)) <==> minimal(tx, i))
  {
    assert ReencodesAt(read, enc, fits, minimal, tx, i);
  }

  lemma {:induction false} MoreTight<T(!new)>(read: (Buff, nat) -> Response<Parsed<T>>, enc: T -> Buff, fits: T -> bool,
                                              minimal: (Buff, nat) -> bool,
                                              tooMany: nat, tx: Buff, i: nat, n: nat, done: seq<T>)
    returns (xs: seq<T>)
    requires Reencodes(read, enc, fits, minimal) && i <= |tx|
    requires ReadMore(read, tooMany, tx, i, n, done).Ok?
    ensures var p := ReadMore(read, tooMany, tx, i, n, done).value;
            && p.value == done + xs && |xs| == n && (forall k :: 0 <= k < n ==> fits(xs[k]))
            && Tight(tx, i, p.index, Concat(enc, xs))
            && (Exact(i, p.index, Concat(enc, xs)) <==> MinimalMore(read, minimal, tx, i, n))
    decreases n
  {
    hide Reencodes;
    if n == 0 {
      xs := [];
      assert done + xs == done;
    } else {
      ElementTight(read, enc, fits, minimal, tx, i);
      var next := read(tx, i).value;
      var rest := MoreTight(read, enc, fits, minimal, tooMany, tx, next.index, n - 1, done + [next.value]);
      xs := [next.value] + rest;
      assert done + xs == done + [next.value] + rest;
      assert xs[1..] == rest;
      var p := ReadMore(read, tooMany, tx, i, n, done).value;
      TightConcat(tx, i, next.index, p.index, enc(next.value), Concat(enc, rest));
      ExactConcat(tx, i, next.index, p.index, enc(next.value), Concat(enc, rest));
    }
  }

  lemma ListReads<T(!new)>(read: (Buff, nat) -> Response<Parsed<T>>, enc: T -> Buff, fits: T -> bool,
                           tooMany: nat, tx: Buff, i: nat, xs: seq<T>)
    requires Decodes(read, enc, fits) && AllFit(fits, xs) && At(tx, i, Concat(enc, xs))
    ensures ReadList(read, tooMany, tx, i, |xs|) == Ok(Parsed(xs, i + |Concat(enc, xs)|))
  {
    MoreReads(read, enc, fits, tooMany, tx, i, [], xs);
    assert [] + xs == xs;
  }

  lemma ListTight<T(!new)>(read: (Buff, nat) -> Response<Parsed<T>>, enc: T -> Buff, fits: T -> bool,
                           minimal: (Buff, nat) -> bool, tooMany: nat, tx: Buff, i: nat, n: nat)
    requires Reencodes(read, enc, fits, minimal) && i <= |tx|
    requires ReadList(read, tooMany, tx, i, n).Ok?
    ensures var p := ReadList(read, tooMany, tx, i, n).value;
            && |p.value| == n && AllFit(fits, p.value) && Tight(tx, i, p.index, Concat(enc, p.value))
            && (Exact(i, p.index, Concat(enc, p.value)) <==> MinimalMore(read, minimal, tx, i, n))
  {
    var xs := MoreTight(read, enc, fits, minimal, tooMany, tx, i, n, []);
    assert [] + xs == xs;
  }

  lemma ItemCodec()
    ensures Decodes(ReadItem, SerItem, FitsItem) && Reencodes(ReadItem, SerItem, FitsItem, MinimalVarint)
  {
    hide ReadVarslice, Varslice, At, Tight, Exact, MinimalVarint;
    forall tx: Buff, i: nat, v: Buff | FitsItem(v) && At(tx, i, SerItem(v))
      ensures ReadItem(tx, i) == Ok(Parsed(v, i + |SerItem(v)|))
    {
      VarsliceReads(tx, i, v);
    }
    forall tx: Buff, i: nat
      ensures ReencodesAt(ReadItem, SerItem, FitsItem, MinimalVarint, tx, i)
    {
      if ReadItem(tx, i).Ok? {
        VarsliceTight(tx, i);
      }
    }
  }

  lemma TxOutReads(tx: Buff, i: nat, v: TxOut)
    requires FitsTxOut(v) && At(tx, i, SerTxOut(v))
    ensures ReadTxout(tx, i) == Ok(Parsed(v, i + |SerTxOut(v)|))
  {
    hide ReadVarslice, Varslice, At, ReadUint, LE, Pow256;
    Widths();
    AtConcat(tx, i, LE(8, v.value), Varslice(v.scriptPubKey));
    UintReads(8, tx, i, v.value);
    VarsliceReads(tx, i + 8, v.scriptPubKey);
  }

  lemma TxOutTight(tx: Buff, i: nat)
    requires ReadTxout(tx, i).Ok?
    ensures var p := ReadTxout(tx, i).value;
            && FitsTxOut(p.value) && Tight(tx, i, p.index, SerTxOut(p.value))
            && (Exact(i, p.index, SerTxOut(p.value)) <==> MinimalTxout(tx, i))
  {
    hide ReadVarslice, Varslice, Tight, Exact, MinimalVarint, ReadUint, LE, Pow256;
    Widths();
    UintTight(8, tx, i);
    VarsliceTight(tx, i + 8);
    var p := ReadTxout(tx, i).value;
    TightConcat(tx, i, i + 8, p.index, LE(8, p.value.value), Varslice(p.value.scriptPubKey));
    ExactConcat(tx, i, i + 8, p.index, LE(8, p.value.value), Varslice(p.value.scriptPubKey));
  }

  lemma TxInReads(tx: Buff, i: nat, v: TxIn)
    requires FitsTxIn(v) && At(tx, i, SerTxIn(v))
    ensures ReadTxin(tx, i) == Ok(Parsed(v, i + |SerTxIn(v)|))
  {
    hide ReadVarslice, Varslice, At, ReadUint, LE, Pow256, Reversed, ReadHashslice;
    Widths();
    var hash, outIndex, script, sequence :=
      Reversed(v.hash), LE(4, v.outIndex), Varslice(v.scriptSig), LE(4, v.sequence);
    AtConcat(tx, i, hash + outIndex + script, sequence);
    AtConcat(tx, i, hash + outIndex, script);
    AtConcat(tx, i, hash, outIndex);
    HashReads(tx, i, v.hash);
    UintReads(4, tx, i + 32, v.outIndex);
    VarsliceReads(tx, i + 36, v.scriptSig);
    UintReads(4, tx, i + 36 + |script|, v.sequence);
  }

  lemma TxInTight(tx: Buff, i: nat)
    requires ReadTxin(tx, i).Ok?
    ensures var p := ReadTxin(tx, i).value;
            && FitsTxIn(p.value) && Tight(tx, i, p.index, SerTxIn(p.value))
            && (Exact(i, p.index, SerTxIn(p.value)) <==> MinimalTxin(tx, i))
  {
    hide ReadVarslice, Varslice, Tight, Exact, MinimalVarint, ReadUint, LE, Pow256, Reversed, ReadHashslice;
    Widths();
    HashTight(tx, i);
    UintTight(4, tx, i + 32);
    VarsliceTight(tx, i + 36);
    var p := ReadTxin(tx, i).value;
    var behind := ReadVarslice(tx, i + 36).value.index;
    UintTight(4, tx, behind);
    var hash, outIndex, script, sequence :=
      Reversed(p.value.hash), LE(4, p.value.outIndex), Varslice(p.value.scriptSig), LE(4, p.value.sequence);
    TightConcat(tx, i, i + 32, i + 36, hash, outIndex);
    TightConcat(tx, i, i + 36, behind, hash + outIndex, script);
    TightConcat(tx, i, behind, p.index, hash + outIndex + script, sequence);
    ExactConcat(tx, i, i + 32, i + 36, hash, outIndex);
    ExactConcat(tx, i, i + 36, behind, hash + outIndex, script);
    ExactConcat(tx, i, behind, p.index, hash + outIndex + script, sequence);
  }

  lemma TxPartsCodec()
    ensures Decodes(ReadTxin, SerTxIn, FitsTxIn) && Reencodes(ReadTxin, SerTxIn, FitsTxIn, MinimalTxin)
    ensures Decodes(ReadTxout, SerTxOut, FitsTxOut) && Reencodes(ReadTxout, SerTxOut, FitsTxOut, MinimalTxout)
  {
    hide ReadTxin, ReadTxout, SerTxIn, SerTxOut, FitsTxIn, FitsTxOut, MinimalTxin, MinimalTxout, At, Tight, Exact;
    forall tx: Buff, i: nat, v: TxIn | FitsTxIn(v) && At(tx, i, SerTxIn(v))
      ensures ReadTxin(tx, i) == Ok(Parsed(v, i + |SerTxIn(v)|))
    {
      TxInReads(tx, i, v);
    }
    forall tx: Buff, i: nat
      ensures ReencodesAt(ReadTxin, SerTxIn, FitsTxIn, MinimalTxin, tx, i)
    {
      if ReadTxin(tx, i).Ok? {
        TxInTight(tx, i);
      }
    }
    forall tx: Buff, i: nat, v: TxOut | FitsTxOut(v) && At(tx, i, SerTxOut(v))
      ensures ReadTxout(tx, i) == Ok(Parsed(v, i + |SerTxOut(v)|))
    {
      TxOutReads(tx, i, v);
    }
    forall tx: Buff, i: nat
      ensures ReencodesAt(ReadTxout, SerTxOut, FitsTxOut, MinimalTxout, tx, i)
    {
      if ReadTxout(tx, i).Ok? {
        TxOutTight(tx, i);
      }
    }
  }

  lemma WitnessReads(tx: Buff, i: nat, v: Witness)
    requires FitsWitness(v) && At(tx, i, SerWitness(v))
    ensures ReadWitness(tx, i) == Ok(Parsed(v, i + |SerWitness(v)|))
  {
    hide ReadVarint, Varint, At, ReadItem, SerItem, FitsItem, ReadList;
    AtConcat(tx, i, Varint(|v|), Concat(SerItem, v));
    VarintReads(tx, i, |v|);
    ItemCodec();
    ListReads(ReadItem, SerItem, FitsItem, ERR_TOO_MANY_WITNESSES, tx, i + |Varint(|v|)|, v);
  }

  lemma WitnessTight(tx: Buff, i: nat)
    requires ReadWitness(tx, i).Ok?
    ensures var p := ReadWitness(tx, i).value;
            && FitsWitness(p.value) && Tight(tx, i, p.index, SerWitness(p.value))
            && (Exact(i, p.index, SerWitness(p.value)) <==> MinimalWitness(tx, i))
  {
    hide ReadVarint, Varint, ReadItem, SerItem, FitsItem, ReadList, VarintWidth, MinimalVarint;
    VarintTight(tx, i);
    var count := ReadVarint(tx, i).value;
    var p := ReadWitness(tx, i).value;
    if count.value > 0 {
      ItemCodec();
      ListTight(ReadItem, SerItem, FitsItem, MinimalVarint, ERR_TOO_MANY_WITNESSES, tx, count.index, count.value);
    }
    TightConcat(tx, i, count.index, p.index, Varint(count.value), Concat(SerItem, p.value));
    ExactConcat(tx, i, count.index, p.index, Varint(count.value), Concat(SerItem, p.value));
  }

  lemma WitnessCodec()
    ensures Decodes(ReadWitness, SerWitness, FitsWitness) && Reencodes(ReadWitness, SerWitness, FitsWitness, MinimalWitness)
  {
    hide ReadWitness, SerWitness, FitsWitness, MinimalWitness, At, Tight, Exact;
    forall tx: Buff, i: nat, v: Witness | FitsWitness(v) && At(tx, i, SerWitness(v))
      ensures ReadWitness(tx, i) == Ok(Parsed(v, i + |SerWitness(v)|))
    {
      WitnessReads(tx, i, v);
    }
    forall tx: Buff, i: nat
      ensures ReencodesAt(ReadWitness, SerWitness, FitsWitness, MinimalWitness, tx, i)
    {
      if ReadWitness(tx, i).Ok? {
        WitnessTight(tx, i);
      }
    }
  }

  lemma TxinsRead(tx: Buff, i: nat, xs: seq<TxIn>)
    requires AllFit(FitsTxIn, xs) && At(tx, i, Counted(SerTxIn, xs))
    ensures ReadTxins(tx, i) == Ok(Parsed(xs, i + |Counted(SerTxIn, xs)|))
  {
    hide ReadVarint, Varint, At, ReadTxin, SerTxIn, FitsTxIn, ReadList, Concat;
    AtConcat(tx, i, Varint(|xs|), Concat(SerTxIn, xs));
    VarintReads(tx, i, |xs|);
    TxPartsCodec();
    ListReads(ReadTxin, SerTxIn, FitsTxIn, ERR_TOO_MANY_TXINS, tx, i + |Varint(|xs|)|, xs);
  }

  lemma TxinsTight(tx: Buff, i: nat)
    requires ReadTxins(tx, i).Ok?
    ensures var p := ReadTxins(tx, i).value;
            && AllFit(FitsTxIn, p.value) && Tight(tx, i, p.index, Counted(SerTxIn, p.value))
            && (Exact(i, p.index, Counted(SerTxIn, p.value)) <==> MinimalCounted(ReadTxin, MinimalTxin, tx, i))
  {
    hide ReadVarint, Varint, ReadTxin, SerTxIn, FitsTxIn, MinimalTxin, ReadList, Concat, VarintWidth, MinimalVarint;
    VarintTight(tx, i);
    TxPartsCodec();
    var count := ReadVarint(tx, i).value;
    ListTight(ReadTxin, SerTxIn, FitsTxIn, MinimalTxin, ERR_TOO_MANY_TXINS, tx, count.index, count.value);
    var p := ReadTxins(tx, i).value;
    TightConcat(tx, i, count.index, p.index, Varint(count.value), Concat(SerTxIn, p.value));
    ExactConcat(tx, i, count.index, p.index, Varint(count.value), Concat(SerTxIn, p.value));
  }

  lemma TxoutsRead(tx: Buff, i: nat, xs: seq<TxOut>)
    requires AllFit(FitsTxOut, xs) && At(tx, i, Counted(SerTxOut, xs))
    ensures ReadTxouts(tx, i) == Ok(Parsed(xs, i + |Counted(SerTxOut, xs)|))
  {
    hide ReadVarint, Varint, At, ReadTxout, SerTxOut, FitsTxOut, ReadList, Concat;
    AtConcat(tx, i, Varint(|xs|), Concat(SerTxOut, xs));
    VarintReads(tx, i, |xs|);
    TxPartsCodec();
    ListReads(ReadTxout, SerTxOut, FitsTxOut, ERR_TOO_MANY_TXOUTS, tx, i + |Varint(|xs|)|, xs);
  }

  lemma TxoutsTight(tx: Buff, i: nat)
    requires ReadTxouts(tx, i).Ok?
    ensures var p := ReadTxouts(tx, i).value;
            && AllFit(FitsTxOut, p.value) && Tight(tx, i, p.index, Counted(SerTxOut, p.value))
            && (Exact(i, p.index, Counted(SerTxOut, p.value)) <==> MinimalCounted(ReadTxout, MinimalTxout, tx, i))
  {
    hide ReadVarint, Varint, ReadTxout, SerTxOut, FitsTxOut, MinimalTxout, ReadList, Concat, VarintWidth, MinimalVarint;
    VarintTight(tx, i);
    TxPartsCodec();
    var count := ReadVarint(tx, i).value;
    ListTight(ReadTxout, SerTxOut, FitsTxOut, MinimalTxout, ERR_TOO_MANY_TXOUTS, tx, count.index, count.value);
    var p := ReadTxouts(tx, i).value;
    TightConcat(tx, i, count.index, p.index, Varint(count.value), Concat(SerTxOut, p.value));
    ExactConcat(tx, i, count.index, p.index, Varint(count.value), Concat(SerTxOut, p.value));
  }

  // --- Whole transactions ---

  /** Reading a serialized transaction gives it back, whatever follows it, and stops
      exactly at its end. */
  lemma TxRoundTrip(t: Tx, rest: Buff)
    requires FitsTx(t)
    ensures ReadTx(SerTx(t) + rest) == Ok(Parsed(t, |SerTx(t)|))
    ensures ParseTx(SerTx(t) + rest) == Ok(t)
  {
    hide ReadUint, LE, At, Pow256, ReadTxins, ReadTxouts, Counted, AllFit;
    Widths();
    var tx := SerTx(t) + rest;
    var version, ins, outs, locktime :=
      LE(4, t.version), Counted(SerTxIn, t.ins), Counted(SerTxOut, t.outs), LE(4, t.locktime);
    AtStart(SerTx(t), rest);
    AtConcat(tx, 0, version + ins + outs, locktime);
    AtConcat(tx, 0, version + ins, outs);
    AtConcat(tx, 0, version, ins);
    UintReads(4, tx, 0, t.version);
    TxinsRead(tx, 4, t.ins);
    TxoutsRead(tx, 4 + |ins|, t.outs);
    UintReads(4, tx, 4 + |ins| + |outs|, t.locktime);
  }

  lemma WtxRoundTrip(t: Wtx, rest: Buff)
    requires FitsWtx(t)
    ensures ReadWtx(SerWtx(t) + rest) == Ok(Parsed(t, |SerWtx(t)|))
    ensures ParseWtx(SerWtx(t) + rest) == Ok(t)
  {
    hide ReadUint, LE, At, Pow256, ReadTxins, ReadTxouts, Counted, Concat, AllFit, ReadList, SerWitness;
    Widths();
    var tx := SerWtx(t) + rest;
    var version, marker, flag := LE(4, t.version), LE(1, t.marker), LE(1, t.flag);
    var ins, outs := Counted(SerTxIn, t.ins), Counted(SerTxOut, t.outs);
    var witnesses, locktime := Concat(SerWitness, t.witnesses), LE(4, t.locktime);
    AtStart(SerWtx(t), rest);
    AtConcat(tx, 0, version + marker + flag + ins + outs + witnesses, locktime);
    AtConcat(tx, 0, version + marker + flag + ins + outs, witnesses);
    AtConcat(tx, 0, version + marker + flag + ins, outs);
    AtConcat(tx, 0, version + marker + flag, ins);
    AtConcat(tx, 0, version + marker, flag);
    AtConcat(tx, 0, version, marker);
    UintReads(4, tx, 0, t.version);
    UintReads(1, tx, 4, t.marker);
    UintReads(1, tx, 5, t.flag);
    TxinsRead(tx, 6, t.ins);
    TxoutsRead(tx, 6 + |ins|, t.outs);
    WitnessCodec();
    ListReads(ReadWitness, SerWitness, FitsWitness, ERR_TOO_MANY_WITNESSES, tx, 6 + |ins| + |outs|, t.witnesses);
    UintReads(4, tx, 6 + |ins| + |outs| + |witnesses|, t.locktime);
  }

  /** What `parse-tx` accepts is within the bounds; the part it consumed is at least as
      long as the serialization of the result, and is that serialization exactly when
      every varint in it is minimal. */
  lemma TxReencodes(tx: Buff)
    requires ReadTx(tx).Ok?
    ensures var p := ReadTx(tx).value;
            && FitsTx(p.value) && |SerTx(p.value)| <= p.index <= |tx|
            && (tx[..p.index] == SerTx(p.value) <==> MinimalTx(tx))
  {
    hide ReadUint, LE, Tight, Exact, Pow256, ReadTxins, ReadTxouts, Counted, AllFit, MinimalCounted;
    Widths();
    var p := ReadTx(tx).value;
    var t := p.value;
    UintTight(4, tx, 0);
    TxinsTight(tx, 4);
    var insEnd := ReadTxins(tx, 4).value.index;
    TxoutsTight(tx, insEnd);
    var outsEnd := ReadTxouts(tx, insEnd).value.index;
    UintTight(4, tx, outsEnd);
    var version, ins, outs, locktime :=
      LE(4, t.version), Counted(SerTxIn, t.ins), Counted(SerTxOut, t.outs), LE(4, t.locktime);
    TightConcat(tx, 0, 4, insEnd, version, ins);
    TightConcat(tx, 0, insEnd, outsEnd, version + ins, outs);
    TightConcat(tx, 0, outsEnd, p.index, version + ins + outs, locktime);
    ExactConcat(tx, 0, 4, insEnd, version, ins);
    ExactConcat(tx, 0, insEnd, outsEnd, version + ins, outs);
    ExactConcat(tx, 0, outsEnd, p.index, version + ins + outs, locktime);
    TightFromStart(tx, p.index, SerTx(t));
  }

  lemma TightFromStart(tx: Buff, j: nat, s: Buff)
    requires Tight(tx, 0, j, s)
    ensures |s| <= j <= |tx| && (tx[..j] == s <==> Exact(0, j, s))
  {
    assert tx[0..j] == tx[..j];
  }

  lemma WtxReencodes(tx: Buff)
    requires ReadWtx(tx).Ok?
    ensures var p := ReadWtx(tx).value;
            && FitsWtx(p.value) && |SerWtx(p.value)| <= p.index <= |tx|
            && (tx[..p.index] == SerWtx(p.value) <==> MinimalWtx(tx))
  {
    hide ReadUint, LE, Tight, Exact, MinimalCounted, MinimalMore, Pow256, ReadTxins, ReadTxouts, Counted, Concat, AllFit, ReadList, SerWitness;
    Widths();
    var p := ReadWtx(tx).value;
    var t := p.value;
    UintTight(4, tx, 0);
    UintTight(1, tx, 4);
    UintTight(1, tx, 5);
    TxinsTight(tx, 6);
    var insEnd := ReadTxins(tx, 6).value.index;
    TxoutsTight(tx, insEnd);
    var outsEnd := ReadTxouts(tx, insEnd).value.index;
    WitnessCodec();
    TightBounds(tx, insEnd, outsEnd, Counted(SerTxOut, t.outs));
    ListTight(ReadWitness, SerWitness, FitsWitness, MinimalWitness, ERR_TOO_MANY_WITNESSES, tx, outsEnd, |t.ins|);
    var witnessesEnd := ReadWitnesses(tx, outsEnd, |t.ins|).value.index;
    UintTight(4, tx, witnessesEnd);
    var version, marker, flag := LE(4, t.version), LE(1, t.marker), LE(1, t.flag);
    var ins, outs := Counted(SerTxIn, t.ins), Counted(SerTxOut, t.outs);
    var witnesses, locktime := Concat(SerWitness, t.witnesses), LE(4, t.locktime);
    TightConcat(tx, 0, 4, 5, version, marker);
    TightConcat(tx, 0, 5, 6, version + marker, flag);
    TightConcat(tx, 0, 6, insEnd, version + marker + flag, ins);
    TightConcat(tx, 0, insEnd, outsEnd, version + marker + flag + ins, outs);
    TightConcat(tx, 0, outsEnd, witnessesEnd, version + marker + flag + ins + outs, witnesses);
    TightConcat(tx, 0, witnessesEnd, p.index, version + marker + flag + ins + outs + witnesses, locktime);
    ExactConcat(tx, 0, 4, 5, version, marker);
    ExactConcat(tx, 0, 5, 6, version + marker, flag);
    ExactConcat(tx, 0, 6, insEnd, version + marker + flag, ins);
    ExactConcat(tx, 0, insEnd, outsEnd, version + marker + flag + ins, outs);
    ExactConcat(tx, 0, outsEnd, witnessesEnd, version + marker + flag + ins + outs, witnesses);
    ExactConcat(tx, 0, witnessesEnd, p.index, version + marker + flag + ins + outs + witnesses, locktime);
    TightFromStart(tx, p.index, SerWtx(t));
  }

  lemma TightBounds(tx: Buff, i: nat, j: nat, s: Buff)
    requires Tight(tx, i, j, s)
    ensures i <= j <= |tx|
  {
  }

  /** No serialization is the beginning of another one. */
  lemma WtxPrefixFree(a: Wtx, b: Wtx, restA: Buff, restB: Buff)
    requires FitsWtx(a) && FitsWtx(b) && SerWtx(a) + restA == SerWtx(b) + restB
    ensures a == b && restA == restB
  {
    hide ReadWtx, FitsWtx, SerWtx;
    WtxRoundTrip(a, restA);
    WtxRoundTrip(b, restB);
    assert restA == (SerWtx(a) + restA)[|SerWtx(a)|..];
  }

  lemma HeaderReads(h: Header)
    requires FitsHeader(h)
    ensures |SerHeader(h)| == 80
    ensures ParseBlockHeader(SerHeader(h)) == Ok(h)
  {
    hide ReadUint, LE, At, Pow256, ReadHashslice, Reversed;
    Widths();
    var s := SerHeader(h);
    var version, parent, merkleRoot := LE(4, h.version), Reversed(h.parent), Reversed(h.merkleRoot);
    var timestamp, nbits, nonce := LE(4, h.timestamp), LE(4, h.nbits), LE(4, h.nonce);
    AtStart(s, []);
    assert s + [] == s;
    AtConcat(s, 0, version + parent + merkleRoot + timestamp + nbits, nonce);
    AtConcat(s, 0, version + parent + merkleRoot + timestamp, nbits);
    AtConcat(s, 0, version + parent + merkleRoot, timestamp);
    AtConcat(s, 0, version + parent, merkleRoot);
    AtConcat(s, 0, version, parent);
    UintReads(4, s, 0, h.version);
    HashReads(s, 4, h.parent);
    HashReads(s, 36, h.merkleRoot);
    UintReads(4, s, 68, h.timestamp);
    UintReads(4, s, 72, h.nbits);
    UintReads(4, s, 76, h.nonce);
  }

  // --- Aborts ---

  lemma {:induction false} MoreNeverAborts<T(!new)>(read: (Buff, nat) -> Response<Parsed<T>>, tooMany: nat,
                                                    tx: Buff, i: nat, n: nat, done: seq<T>)
    requires forall j: nat :: read(tx, j) != Panic
    ensures ReadMore(read, tooMany, tx, i, n, done) != Panic
    decreases n
  {
    if n > 0 && read(tx, i).Ok? && |done| < MAX_LIST {
      var next := read(tx, i).value;
      MoreNeverAborts(read, tooMany, tx, next.index, n - 1, done + [next.value]);
    }
  }

  lemma TxPartsNeverAbort(tx: Buff, i: nat)
    ensures ReadTxins(tx, i) != Panic && ReadTxouts(tx, i) != Panic
  {
    var count := ReadVarint(tx, i);
    if count.Ok? && count.value.value <= MAX_LIST {
      MoreNeverAborts(ReadTxin, ERR_TOO_MANY_TXINS, tx, count.value.index, count.value.value, []);
      MoreNeverAborts(ReadTxout, ERR_TOO_MANY_TXOUTS, tx, count.value.index, count.value.value, []);
    }
  }

  /** A single witness aborts the call exactly when it announces more than eight items;
      then no error code reaches the caller. */
  lemma WitnessAborts(tx: Buff, i: nat)
    ensures ReadWitness(tx, i) == Panic <==> ReadVarint(tx, i).Ok? && ReadVarint(tx, i).value.value > MAX_LIST
  {
    var count := ReadVarint(tx, i);
    if count.Ok? && 0 < count.value.value <= MAX_LIST {
      MoreNeverAborts(ReadItem, ERR_TOO_MANY_WITNESSES, tx, count.value.index, count.value.value, []);
    }
  }

  /** `parse-tx` answers every buffer; `parse-wtx` can abort only inside its witnesses. */
  lemma OnlyWitnessesAbort(tx: Buff)
    ensures ParseTx(tx) != Panic
    ensures ParseWtx(tx) == Panic <==>
            var ins := ReadTxins(tx, 6);
            && ins.Ok? && var outs := ReadTxouts(tx, ins.value.index);
            && outs.Ok? && ReadWitnesses(tx, outs.value.index, |ins.value.value|) == Panic
  {
    hide ReadTxins, ReadTxouts, ReadWitnesses, FromLE;
    TxPartsNeverAbort(tx, 4);
    TxPartsNeverAbort(tx, 6);
    if ReadTxins(tx, 4).Ok? {
      TxPartsNeverAbort(tx, ReadTxins(tx, 4).value.index);
    }
    if ReadTxins(tx, 6).Ok? {
      TxPartsNeverAbort(tx, ReadTxins(tx, 6).value.index);
      InputsEnd(tx);
    }
  }

  lemma InputsEnd(tx: Buff)
    requires ReadTxins(tx, 6).Ok?
    ensures |tx| > 6
  {
  }

  lemma {:induction false} MoreNeverTooMany<T(!new)>(read: (Buff, nat) -> Response<Parsed<T>>, tooMany: nat,
                                                     tx: Buff, i: nat, n: nat, done: seq<T>)
    requires forall j: nat :: read(tx, j) != Err(tooMany)
    requires |done| + n <= MAX_LIST
    ensures ReadMore(read, tooMany, tx, i, n, done) != Err(tooMany)
    decreases n
  {
    if n > 0 && read(tx, i).Ok? {
      var next := read(tx, i).value;
      MoreNeverTooMany(read, tooMany, tx, next.index, n - 1, done + [next.value]);
    }
  }

  /** The documented error for too many witnesses or stack items is never returned: the
      call aborts instead. */
  lemma TooManyWitnessesUnreachable(tx: Buff, i: nat, txins: nat)
    ensures ReadWitnesses(tx, i, txins) != Err(ERR_TOO_MANY_WITNESSES)
  {
    forall j: nat
      ensures ReadWitness(tx, j) != Err(ERR_TOO_MANY_WITNESSES)
    {
      var count := ReadVarint(tx, j);
      if count.Ok? && 0 < count.value.value <= MAX_LIST {
        MoreNeverTooMany(ReadItem, ERR_TOO_MANY_WITNESSES, tx, count.value.index, count.value.value, []);
      }
    }
    if txins <= MAX_LIST {
      MoreNeverTooMany(ReadWitness, ERR_TOO_MANY_WITNESSES, tx, i, txins, []);
    }
  }
}
