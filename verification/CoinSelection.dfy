/**
 `fulfill_peg_out`: choosing the unspent outputs that a peg-out fulfilment spends, and
 the transaction built from them. Decoding the hexadecimal text of an output and the
 wallet's own script are parameters.
 */
module CoinSelection {
  import opened Bytes
  import opened Options
  import opened Results

  datatype Utxo = Utxo(txid: string, vout: nat, amount: nat, scriptPubKey: string)
  datatype PegOut = PegOut(txid: string, amount: nat, fulfillmentFee: nat)

  datatype OutPoint = OutPoint(txid: Buff, vout: nat)
  datatype TxIn = TxIn(previous: OutPoint, sequence: nat)
  datatype TxOut = TxOut(value: nat, script: Buff)
  datatype Transaction = Transaction(version: nat, lockTime: nat, inputs: seq<TxIn>, outputs: seq<TxOut>)

  datatype Error =
    | InsufficientFunds
    | InvalidTransactionID(txid: string)
    | InvalidScriptPubKey(script: string)
    | MissingFulfillmentUTXO
    | MismatchedFulfillmentFee

  /** Replace-by-fee is allowed. */
  const SEQUENCE: nat := 0xFFFF_FFFD
  /** The output of a request that pays for its fulfilment. */
  const FULFILLMENT_VOUT: nat := 2

  /** The wallet's pay-to-taproot script and the smallest value worth sending to it. */
  datatype Wallet = Wallet(script: Buff, dust: nat,
                           decodeTxid: string -> Option<Buff>, decodeScript: string -> Option<Buff>)

  function OpReturnData(): Buff {
    ['T' as int, '2' as int, '!' as int] + seq(32, _ => '.' as int)
  }

  const OP_RETURN: Byte := 0x6a

  function WithdrawalDataOutput(): TxOut {
    TxOut(0, [OP_RETURN, |OpReturnData()|] + OpReturnData())
  }

  predicate IsFulfillment(op: PegOut, u: Utxo) {
    u.txid == op.txid && u.vout == FULFILLMENT_VOUT
  }

  function UtxoToInput(w: Wallet, u: Utxo): Result<TxIn, Error> {
    match w.decodeTxid(u.txid)
    case None => Err(InvalidTransactionID(u.txid))
    case Some(txid) => Ok(TxIn(OutPoint(txid, u.vout), SEQUENCE))
  }

  function UtxoToOutput(w: Wallet, u: Utxo): Result<TxOut, Error> {
    match w.decodeScript(u.scriptPubKey)
    case None => Err(InvalidScriptPubKey(u.scriptPubKey))
    case Some(script) => Ok(TxOut(u.amount, script))
  }

  // --- The outputs spent ---

  /** The outputs the loop spends once it has consumed `consumed` and has found the
      fulfilment output or not. */
  function Chosen(op: PegOut, utxos: seq<Utxo>, consumed: nat, found: bool): seq<Utxo>
    decreases |utxos|
  {
    if utxos == [] then []
    else
      var u, rest := utxos[0], utxos[1..];
      if IsFulfillment(op, u) then [u] + Chosen(op, rest, consumed, true)
      else if consumed < op.amount then [u] + Chosen(op, rest, consumed + u.amount, found)
      else if found then []
      else Chosen(op, rest, consumed, found)
  }

  /** Why an output cannot be spent. */
  function Obstacle(w: Wallet, op: PegOut, u: Utxo): Option<Error> {
    if IsFulfillment(op, u) && u.amount != op.fulfillmentFee then Some(MismatchedFulfillmentFee)
    else
      match UtxoToInput(w, u)
      case Err(e) => Some(e)
      case Ok(_) =>
        match UtxoToOutput(w, u)
        case Err(e) => Some(e)
        case Ok(_) => None
  }

  function FirstObstacle(w: Wallet, op: PegOut, us: seq<Utxo>): Option<Error>
    decreases |us|
  {
    if us == [] then None
    else if Obstacle(w, op, us[0]).Some? then Obstacle(w, op, us[0])
    else FirstObstacle(w, op, us[1..])
  }

  /** The outputs that are not, and those that are, the fulfilment output. */
  function Others(op: PegOut, us: seq<Utxo>): (r: seq<Utxo>)
    ensures forall k :: 0 <= k < |r| ==> !IsFulfillment(op, r[k])
    decreases |us|
  {
    if us == [] then [] else (if IsFulfillment(op, us[0]) then [] else [us[0]]) + Others(op, us[1..])
  }

  function Fulfillments(op: PegOut, us: seq<Utxo>): (r: seq<Utxo>)
    ensures forall k :: 0 <= k < |r| ==> IsFulfillment(op, r[k])
    decreases |us|
  {
    if us == [] then [] else (if IsFulfillment(op, us[0]) then [us[0]] else []) + Fulfillments(op, us[1..])
  }

  function Sum(us: seq<Utxo>): nat
    decreases |us|
  {
    if us == [] then 0 else us[0].amount + Sum(us[1..])
  }

  function OutSum(outs: seq<TxOut>): nat
    decreases |outs|
  {
    if outs == [] then 0 else outs[0].value + OutSum(outs[1..])
  }

  predicate Spendable(w: Wallet, us: seq<Utxo>) {
    forall k :: 0 <= k < |us| ==> UtxoToInput(w, us[k]).Ok? && UtxoToOutput(w, us[k]).Ok?
  }

  function Inputs(w: Wallet, us: seq<Utxo>): (ins: seq<TxIn>)
    requires Spendable(w, us)
    ensures |ins| == |us| && forall k :: 0 <= k < |us| ==> ins[k] == UtxoToInput(w, us[k]).value
  {
    seq(|us|, k requires 0 <= k < |us| => UtxoToInput(w, us[k]).value)
  }

  function Prevouts(w: Wallet, us: seq<Utxo>): (outs: seq<TxOut>)
    requires Spendable(w, us)
    ensures |outs| == |us| && forall k :: 0 <= k < |us| ==> outs[k] == UtxoToOutput(w, us[k]).value
  {
    seq(|us|, k requires 0 <= k < |us| => UtxoToOutput(w, us[k]).value)
  }

  function Outputs(w: Wallet, amount: nat, change: nat): seq<TxOut> {
    [WithdrawalDataOutput(), TxOut(amount, w.script)] + (if change >= w.dust then [TxOut(change, w.script)] else [])
  }

  lemma {:induction false} NoObstacle(w: Wallet, op: PegOut, us: seq<Utxo>)
    ensures FirstObstacle(w, op, us) == None <==> forall k :: 0 <= k < |us| ==> Obstacle(w, op, us[k]) == None
    ensures FirstObstacle(w, op, us) == None ==> Spendable(w, us)
    decreases |us|
  {
    if us != [] {
      NoObstacle(w, op, us[1..]);
      assert us == [us[0]] + us[1..];
    }
  }

  lemma {:induction false} SpendableSnoc(w: Wallet, op: PegOut, us: seq<Utxo>, u: Utxo, more: seq<Utxo>)
    requires FirstObstacle(w, op, us) == None
    ensures FirstObstacle(w, op, us + [u] + more)
         == if Obstacle(w, op, u).Some? then Obstacle(w, op, u) else FirstObstacle(w, op, more)
    ensures Obstacle(w, op, u) == None ==> FirstObstacle(w, op, us + [u]) == None
    decreases |us|
  {
    if us == [] {
      assert us + [u] + more == [u] + more && us + [u] == [u];
      assert [u][1..] == [];
    } else {
      assert (us + [u] + more)[1..] == us[1..] + [u] + more;
      assert (us + [u])[1..] == us[1..] + [u];
      SpendableSnoc(w, op, us[1..], u, more);
    }
  }

  lemma {:induction false} SortsSnoc(op: PegOut, us: seq<Utxo>, u: Utxo)
    ensures Others(op, us + [u]) == Others(op, us) + if IsFulfillment(op, u) then [] else [u]
    ensures Fulfillments(op, us + [u]) == Fulfillments(op, us) + if IsFulfillment(op, u) then [u] else []
    decreases |us|
  {
    if us == [] {
      assert us + [u] == [u] && [u][1..] == [];
    } else {
      assert (us + [u])[1..] == us[1..] + [u];
      SortsSnoc(op, us[1..], u);
    }
  }

  lemma {:induction false} SumConcat(a: seq<Utxo>, b: seq<Utxo>)
    ensures Sum(a + b) == Sum(a) + Sum(b)
    decreases |a|
  {
    if a == [] {
      assert a + b == b;
    } else {
      assert (a + b)[1..] == a[1..] + b;
      SumConcat(a[1..], b);
    }
  }

  /** What the loop carries: the outputs taken so far, and their inputs and previous
      outputs in step. */
  ghost predicate Taken(w: Wallet, op: PegOut, taken: seq<Utxo>, consumed: nat, found: bool,
                        inputs: seq<TxIn>, prevouts: seq<TxOut>)
  {
    && FirstObstacle(w, op, taken) == None && Spendable(w, taken)
    && inputs == Inputs(w, taken) && prevouts == Prevouts(w, taken)
    && consumed == Sum(Others(op, taken)) && (found <==> Fulfillments(op, taken) != [])
  }

  lemma TakeOne(w: Wallet, op: PegOut, taken: seq<Utxo>, consumed: nat, found: bool, inputs: seq<TxIn>,
                prevouts: seq<TxOut>, u: Utxo)
    requires Taken(w, op, taken, consumed, found, inputs, prevouts) && Obstacle(w, op, u) == None
    ensures var match_ := IsFulfillment(op, u);
            Taken(w, op, taken + [u], if match_ then consumed else consumed + u.amount, found || match_,
                  inputs + [UtxoToInput(w, u).value], prevouts + [UtxoToOutput(w, u).value])
  {
    hide FirstObstacle, Others, Fulfillments;
    SpendableSnoc(w, op, taken, u, []);
    NoObstacle(w, op, taken + [u]);
    SortsSnoc(op, taken, u);
    SumConcat(Others(op, taken), [u]);
    assert Sum([u]) == u.amount by { assert [u][1..] == []; }
    assert Others(op, taken) + [] == Others(op, taken);
  }

  lemma TakenNone(w: Wallet, op: PegOut)
    ensures Taken(w, op, [], 0, false, [], [])
  {
  }

  /** The result: the first obstacle among the chosen outputs, a missing fulfilment output,
      too little value, or the transaction over the chosen outputs. */
  function Fulfillment(w: Wallet, op: PegOut, utxos: seq<Utxo>): Result<(Transaction, seq<TxOut>), Error> {
    var chosen := Chosen(op, utxos, 0, false);
    var obstacle := FirstObstacle(w, op, chosen);
    NoObstacle(w, op, chosen);
    if obstacle.Some? then Err(obstacle.value)
    else if Fulfillments(op, chosen) == [] then Err(MissingFulfillmentUTXO)
    else if Sum(Others(op, chosen)) < op.amount then Err(InsufficientFunds)
    else
      Ok((Transaction(2, 0, Inputs(w, chosen), Outputs(w, op.amount, Sum(Others(op, chosen)) - op.amount)),
          Prevouts(w, chosen)))
  }

  lemma FulfillmentIff(w: Wallet, op: PegOut, utxos: seq<Utxo>)
    requires OneFulfillment(op, utxos)
    ensures Fulfillment(w, op, utxos).Ok? <==> CanFulfill(w, op, utxos)
  {
    hide Chosen, FirstObstacle, Others, Fulfillments, Sum, CanFulfill, Inputs, Prevouts, Outputs;
    SucceedsIff(w, op, utxos);
  }

  // --- What a result says of the listed outputs ---

  /** Listed output `i` is the one of the request that pays for the fulfilment. */
  predicate PaysFee(op: PegOut, us: seq<Utxo>, i: nat)
    requires i < |us|
  {
    us[i].txid == op.txid && us[i].vout == 2
  }

  /** What the others of the first `n` listed outputs are worth. */
  function Covered(op: PegOut, us: seq<Utxo>, n: nat): nat
    requires n <= |us|
  {
    if n == 0 then 0 else Covered(op, us, n - 1) + if PaysFee(op, us, n - 1) then 0 else us[n - 1].amount
  }

  predicate FeeFound(op: PegOut, us: seq<Utxo>, n: nat)
    requires n <= |us|
  {
    exists f :: 0 <= f < n && PaysFee(op, us, f)
  }

  /** Before output `i` an output was met that nobody needed. */
  predicate EndsBefore(op: PegOut, us: seq<Utxo>, i: nat)
    requires i <= |us|
  {
    exists j :: 0 <= j < i && !PaysFee(op, us, j) && Covered(op, us, j) >= op.amount && FeeFound(op, us, j)
  }

  /** Output `i` is spent: it is still needed for the amount, or pays for the fulfilment. */
  predicate Spent(op: PegOut, us: seq<Utxo>, i: nat)
    requires i < |us|
  {
    Covered(op, us, i) < op.amount || (PaysFee(op, us, i) && !EndsBefore(op, us, i))
  }

  predicate Within(picked: seq<nat>, us: seq<Utxo>) {
    forall k :: 0 <= k < |picked| ==> picked[k] < |us|
  }

  /** `picked` lists, in order, the outputs from `from` on that are spent. */
  predicate Picks(op: PegOut, us: seq<Utxo>, from: nat, picked: seq<nat>) {
    && Within(picked, us)
    && (forall j, k :: 0 <= j < k < |picked| ==> picked[j] < picked[k])
    && (forall i :: 0 <= i < |us| ==> (i in picked <==> from <= i && Spent(op, us, i)))
  }

  /** The inputs spend exactly those outputs, and `prevouts` describes them. */
  predicate SpendsAt(w: Wallet, us: seq<Utxo>, picked: seq<nat>, ins: seq<TxIn>, prevouts: seq<TxOut>)
    requires Within(picked, us)
  {
    && |ins| == |picked| == |prevouts|
    && forall k :: 0 <= k < |picked| ==>
         var u := us[picked[k]];
         && w.decodeTxid(u.txid) == Some(ins[k].previous.txid) && ins[k].previous.vout == u.vout
         && ins[k].sequence == 0xFFFF_FFFD
         && prevouts[k].value == u.amount && w.decodeScript(u.scriptPubKey) == Some(prevouts[k].script)
  }

  /** The amount is covered by `n` listed outputs and no fewer. */
  predicate CoveredBy(op: PegOut, us: seq<Utxo>, n: nat) {
    n <= |us| && Covered(op, us, n) >= op.amount && (n > 0 ==> Covered(op, us, n - 1) < op.amount)
  }

  /** The withdrawal data, the amount and, when it is worth it, the change. */
  predicate PaysOut(w: Wallet, op: PegOut, outs: seq<TxOut>, change: nat) {
    && |outs| == (if change >= w.dust then 3 else 2)
    && outs[0].value == 0 && |outs[0].script| == 37
    && outs[0].script[..5] == [0x6a, 35, 'T' as int, '2' as int, '!' as int]
    && (forall k :: 5 <= k < 37 ==> outs[0].script[k] == '.' as int)
    && outs[1] == TxOut(op.amount, w.script)
    && (change >= w.dust ==> outs[2] == TxOut(change, w.script))
  }

  /** What is wrong with a listed output, if anything. */
  predicate Blocks(w: Wallet, op: PegOut, us: seq<Utxo>, i: nat, e: Error)
    requires i < |us|
  {
    if PaysFee(op, us, i) && us[i].amount != op.fulfillmentFee then e == MismatchedFulfillmentFee
    else if w.decodeTxid(us[i].txid) == None then e == InvalidTransactionID(us[i].txid)
    else w.decodeScript(us[i].scriptPubKey) == None && e == InvalidScriptPubKey(us[i].scriptPubKey)
  }

  ghost predicate ClearBefore(w: Wallet, op: PegOut, us: seq<Utxo>, n: nat)
    requires n <= |us|
  {
    forall i :: 0 <= i < n && Spent(op, us, i) ==> forall e :: !Blocks(w, op, us, i, e)
  }

  ghost predicate FirstBlocked(w: Wallet, op: PegOut, us: seq<Utxo>, i: nat, e: Error) {
    i < |us| && Spent(op, us, i) && Blocks(w, op, us, i, e) && ClearBefore(w, op, us, i)
  }

  /** A result read off the listed outputs: the transaction spends the needed ones and
      pays the amount and the change; an error is that of the first needed output that
      cannot be spent, or says what is missing. */
  ghost predicate Means(w: Wallet, op: PegOut, us: seq<Utxo>, r: Result<(Transaction, seq<TxOut>), Error>) {
    match r
    case Ok((t, prevouts)) =>
      && t.version == 2 && t.lockTime == 0 && ClearBefore(w, op, us, |us|) && FeeFound(op, us, |us|)
      && (exists picked :: Picks(op, us, 0, picked) && SpendsAt(w, us, picked, t.inputs, prevouts))
      && (exists n :: CoveredBy(op, us, n) && PaysOut(w, op, t.outputs, Covered(op, us, n) - op.amount))
    case Err(MissingFulfillmentUTXO) => ClearBefore(w, op, us, |us|) && !FeeFound(op, us, |us|)
    case Err(InsufficientFunds) =>
      ClearBefore(w, op, us, |us|) && FeeFound(op, us, |us|) && Covered(op, us, |us|) < op.amount
    case Err(e) => exists i :: FirstBlocked(w, op, us, i, e)
  }

  lemma {:induction false} CoveredGrows(op: PegOut, us: seq<Utxo>, m: nat, n: nat)
    requires m <= n <= |us|
    ensures Covered(op, us, m) <= Covered(op, us, n)
  {
    if m < n {
      CoveredGrows(op, us, m, n - 1);
    }
  }

  lemma FoundNext(op: PegOut, us: seq<Utxo>, i: nat)
    requires i < |us|
    ensures FeeFound(op, us, i + 1) <==> FeeFound(op, us, i) || PaysFee(op, us, i)
  {
  }

  lemma EndsNext(op: PegOut, us: seq<Utxo>, i: nat)
    requires i < |us| && !EndsBefore(op, us, i)
    requires PaysFee(op, us, i) || Covered(op, us, i) < op.amount || !FeeFound(op, us, i)
    ensures !EndsBefore(op, us, i + 1)
  {
    hide Covered, FeeFound;
  }

  lemma NothingPicked(op: PegOut, us: seq<Utxo>)
    ensures Picks(op, us, |us|, [])
  {
  }

  lemma PicksCons(op: PegOut, us: seq<Utxo>, i: nat, picked: seq<nat>)
    requires i < |us| && Picks(op, us, i + 1, picked) && Spent(op, us, i)
    ensures Picks(op, us, i, [i] + picked)
  {
    assert forall k :: 0 <= k < |picked| ==> picked[k] in picked;
  }

  lemma NotPicked(op: PegOut, us: seq<Utxo>, i: nat, picked: seq<nat>)
    requires i < |us| && Picks(op, us, i + 1, picked) && !PaysFee(op, us, i) && Covered(op, us, i) >= op.amount
    ensures Picks(op, us, i, picked)
  {
  }

  /** Behind an output that nobody needed nothing is spent. */
  lemma NothingMore(op: PegOut, us: seq<Utxo>, i: nat)
    requires i < |us| && !PaysFee(op, us, i) && Covered(op, us, i) >= op.amount && FeeFound(op, us, i)
    ensures Picks(op, us, i, [])
  {
    hide Covered, FeeFound;
    forall j | i <= j < |us|
      ensures !Spent(op, us, j)
    {
      CoveredGrows(op, us, i, j);
      assert j > i ==> EndsBefore(op, us, j);
    }
  }

  predicate Aligned(us: seq<Utxo>, picked: seq<nat>, chosen: seq<Utxo>) {
    Within(picked, us) && |chosen| == |picked| && forall k :: 0 <= k < |picked| ==> chosen[k] == us[picked[k]]
  }

  function ChosenFrom(op: PegOut, us: seq<Utxo>, i: nat): seq<Utxo>
    requires i <= |us|
  {
    Chosen(op, us[i..], Covered(op, us, i), FeeFound(op, us, i))
  }

  /** From output `i` on the amount needs the outputs before `n`. */
  predicate Needs(op: PegOut, us: seq<Utxo>, i: nat, n: nat)
    requires i <= |us|
  {
    && i <= n <= |us| && Covered(op, us, n) == Covered(op, us, i) + Sum(Others(op, ChosenFrom(op, us, i)))
    && (Covered(op, us, n) < op.amount ==> n == |us|)
    && (n > i ==> Covered(op, us, n - 1) < op.amount)
  }

  /** The loop from output `i` on: which outputs it picks, and how many it needs. */
  lemma {:induction false} ChosenPicks(op: PegOut, us: seq<Utxo>, i: nat) returns (picked: seq<nat>, n: nat)
    requires i <= |us| && !EndsBefore(op, us, i)
    ensures Picks(op, us, i, picked) && Aligned(us, picked, ChosenFrom(op, us, i)) && Needs(op, us, i, n)
    decreases |us| - i
  {
    hide Others, Spent, EndsBefore, Picks, Needs, Aligned, ChosenFrom, Covered, FeeFound, PaysFee;
    if i == |us| {
      picked, n := [], i;
      NothingPicked(op, us);
      NoneLeft(op, us);
    } else if PaysFee(op, us, i) || Covered(op, us, i) < op.amount {
      EndsNext(op, us, i);
      var more, m := ChosenPicks(op, us, i + 1);
      PicksCons(op, us, i, more);
      TakeNext(op, us, i, more);
      picked, n := [i] + more, if Covered(op, us, i) >= op.amount then i else m;
      NeedsTaken(op, us, i, m);
    } else if FeeFound(op, us, i) {
      picked, n := [], i;
      NothingMore(op, us, i);
      Stops(op, us, i);
    } else {
      EndsNext(op, us, i);
      var m: nat;
      picked, m := ChosenPicks(op, us, i + 1);
      n := i;
      NotPicked(op, us, i, picked);
      NeedsSkipped(op, us, i, m);
    }
  }

  lemma NoneLeft(op: PegOut, us: seq<Utxo>)
    ensures ChosenFrom(op, us, |us|) == [] && Aligned(us, [], []) && Needs(op, us, |us|, |us|)
  {
  }

  lemma Takes(op: PegOut, us: seq<Utxo>, i: nat)
    requires i < |us| && (PaysFee(op, us, i) || Covered(op, us, i) < op.amount)
    ensures ChosenFrom(op, us, i) == [us[i]] + ChosenFrom(op, us, i + 1)
  {
    hide Chosen;
    ChosenAt(op, us, i, Covered(op, us, i), FeeFound(op, us, i));
    FoundNext(op, us, i);
  }

  lemma TakeNext(op: PegOut, us: seq<Utxo>, i: nat, more: seq<nat>)
    requires i < |us| && (PaysFee(op, us, i) || Covered(op, us, i) < op.amount)
    requires Aligned(us, more, ChosenFrom(op, us, i + 1))
    ensures Aligned(us, [i] + more, ChosenFrom(op, us, i))
  {
    hide ChosenFrom;
    Takes(op, us, i);
  }

  lemma NeedsTaken(op: PegOut, us: seq<Utxo>, i: nat, m: nat)
    requires i < |us| && (PaysFee(op, us, i) || Covered(op, us, i) < op.amount) && Needs(op, us, i + 1, m)
    ensures Needs(op, us, i, if Covered(op, us, i) >= op.amount then i else m)
  {
    hide ChosenFrom, Others;
    Takes(op, us, i);
    var u, rest := us[i], ChosenFrom(op, us, i + 1);
    SortsCons(op, u, rest);
    SumConcat([u], Others(op, rest));
    assert Sum([u]) == u.amount by { assert [u][1..] == []; }
    if Covered(op, us, i) >= op.amount {
      CoveredGrows(op, us, i + 1, if m > i + 1 then m - 1 else m);
    }
  }

  lemma Stops(op: PegOut, us: seq<Utxo>, i: nat)
    requires i < |us| && !PaysFee(op, us, i) && Covered(op, us, i) >= op.amount && FeeFound(op, us, i)
    ensures ChosenFrom(op, us, i) == [] && Aligned(us, [], []) && Needs(op, us, i, i)
  {
    hide Chosen, Covered, FeeFound;
    ChosenAt(op, us, i, Covered(op, us, i), true);
    NothingSorted(op);
  }

  /** Once the amount is covered it does not matter by how much. */
  lemma {:induction false} MoreThanEnough(op: PegOut, us: seq<Utxo>, a: nat, b: nat, found: bool)
    requires op.amount <= a && op.amount <= b
    ensures Chosen(op, us, a, found) == Chosen(op, us, b, found)
    decreases |us|
  {
    if us != [] {
      MoreThanEnough(op, us[1..], a, b, found || IsFulfillment(op, us[0]));
    }
  }

  lemma NeedsSkipped(op: PegOut, us: seq<Utxo>, i: nat, m: nat)
    requires i < |us| && !PaysFee(op, us, i) && Covered(op, us, i) >= op.amount && !FeeFound(op, us, i)
    requires Needs(op, us, i + 1, m)
    ensures ChosenFrom(op, us, i) == ChosenFrom(op, us, i + 1) && Needs(op, us, i, i)
  {
    hide Chosen;
    ChosenAt(op, us, i, Covered(op, us, i), false);
    FoundNext(op, us, i);
    CoveredGrows(op, us, i, i + 1);
    MoreThanEnough(op, us[i + 1..], Covered(op, us, i), Covered(op, us, i + 1), false);
    CoveredGrows(op, us, i + 1, if m > i + 1 then m - 1 else m);
  }

  lemma {:induction false} FoundSorts(op: PegOut, us: seq<Utxo>)
    ensures Fulfillments(op, us) != [] <==> exists k :: 0 <= k < |us| && IsFulfillment(op, us[k])
    decreases |us|
  {
    if us != [] {
      FoundSorts(op, us[1..]);
    }
  }

  /** An obstacle among the chosen outputs in terms of the listed ones. */
  lemma BlockedIff(w: Wallet, op: PegOut, us: seq<Utxo>, i: nat, e: Error)
    requires i < |us|
    ensures Obstacle(w, op, us[i]) == Some(e) <==> Blocks(w, op, us, i, e)
  {
  }

  lemma {:induction false} FirstIs(w: Wallet, op: PegOut, us: seq<Utxo>) returns (k: nat)
    requires FirstObstacle(w, op, us).Some?
    ensures k < |us| && FirstObstacle(w, op, us) == Obstacle(w, op, us[k])
    ensures forall j :: 0 <= j < k ==> Obstacle(w, op, us[j]) == None
    decreases |us|
  {
    if Obstacle(w, op, us[0]).Some? {
      k := 0;
    } else {
      k := FirstIs(w, op, us[1..]);
      k := k + 1;
    }
  }

  /** Where the first `k` chosen outputs are clear, so are the listed ones before the next. */
  lemma ClearFrom(w: Wallet, op: PegOut, us: seq<Utxo>, picked: seq<nat>, chosen: seq<Utxo>, k: nat)
    requires Picks(op, us, 0, picked) && Aligned(us, picked, chosen) && k <= |picked|
    requires forall j :: 0 <= j < k ==> Obstacle(w, op, chosen[j]) == None
    ensures ClearBefore(w, op, us, if k < |picked| then picked[k] else |us|)
  {
    hide Obstacle, Blocks, Spent;
    forall i, e | 0 <= i < (if k < |picked| then picked[k] else |us|) && Spent(op, us, i)
      ensures !Blocks(w, op, us, i, e)
    {
      assert i in picked;
      var j :| 0 <= j < |picked| && picked[j] == i;
      BlockedIff(w, op, us, i, e);
    }
  }

  /** The output that pays for the fulfilment is chosen when it is listed. */
  lemma FeeChosen(op: PegOut, us: seq<Utxo>, picked: seq<nat>, chosen: seq<Utxo>)
    requires Picks(op, us, 0, picked) && Aligned(us, picked, chosen)
    ensures FeeFound(op, us, |us|) <==> Fulfillments(op, chosen) != []
  {
    FoundSorts(op, chosen);
    if FeeFound(op, us, |us|) {
      var f := FirstFee(op, us, |us|);
      assert f in picked;
      var k :| 0 <= k < |picked| && picked[k] == f;
      assert IsFulfillment(op, chosen[k]);
    }
    if k: nat :| k < |chosen| && IsFulfillment(op, chosen[k]) {
      assert PaysFee(op, us, picked[k]);
    }
  }

  lemma {:induction false} FirstFee(op: PegOut, us: seq<Utxo>, n: nat) returns (f: nat)
    requires n <= |us| && FeeFound(op, us, n)
    ensures f < n && PaysFee(op, us, f) && !FeeFound(op, us, f)
  {
    if FeeFound(op, us, n - 1) {
      f := FirstFee(op, us, n - 1);
    } else {
      f := n - 1;
    }
  }

  lemma InputsSpend(w: Wallet, us: seq<Utxo>, picked: seq<nat>, chosen: seq<Utxo>)
    requires Aligned(us, picked, chosen) && Spendable(w, chosen)
    ensures SpendsAt(w, us, picked, Inputs(w, chosen), Prevouts(w, chosen))
  {
    forall k | 0 <= k < |picked|
      ensures UtxoToInput(w, chosen[k]).Ok? && UtxoToOutput(w, chosen[k]).Ok? && chosen[k] == us[picked[k]]
    {
    }
  }

  lemma OutputsPay(w: Wallet, op: PegOut, change: nat)
    ensures PaysOut(w, op, Outputs(w, op.amount, change), change)
  {
  }

  lemma FulfillmentMeans(w: Wallet, op: PegOut, us: seq<Utxo>)
    ensures Means(w, op, us, Fulfillment(w, op, us))
  {
    hide Chosen, FirstObstacle, Others, Fulfillments, Sum, Inputs, Prevouts, Outputs, Picks, Spent, Blocks, PaysOut, SpendsAt,
      ClearBefore, Obstacle, PaysFee;
    assert us[0..] == us;
    var chosen := Chosen(op, us, 0, false);
    var picked, n := ChosenPicks(op, us, 0);
    PicksWithin(op, us, 0, picked);
    NoObstacle(w, op, chosen);
    FeeChosen(op, us, picked, chosen);
    if FirstObstacle(w, op, chosen).Some? {
      var k := FirstIs(w, op, chosen);
      ClearFrom(w, op, us, picked, chosen, k);
      BlockedAt(w, op, us, picked, k);
    } else {
      ClearFrom(w, op, us, picked, chosen, |picked|);
      CoveredGrows(op, us, n, |us|);
      if Sum(Others(op, chosen)) >= op.amount {
        InputsSpend(w, us, picked, chosen);
        OutputsPay(w, op, Sum(Others(op, chosen)) - op.amount);
        assert CoveredBy(op, us, n);
      }
    }
  }

  lemma PicksWithin(op: PegOut, us: seq<Utxo>, from: nat, picked: seq<nat>)
    requires Picks(op, us, from, picked)
    ensures Within(picked, us)
  {
  }

  lemma BlockedAt(w: Wallet, op: PegOut, us: seq<Utxo>, picked: seq<nat>, k: nat)
    requires Picks(op, us, 0, picked) && k < |picked|
    requires Obstacle(w, op, us[picked[k]]).Some? && ClearBefore(w, op, us, picked[k])
    ensures var e := Obstacle(w, op, us[picked[k]]).value;
            FirstBlocked(w, op, us, picked[k], e) && e != MissingFulfillmentUTXO && e != InsufficientFunds
  {
    BlockedIff(w, op, us, picked[k], Obstacle(w, op, us[picked[k]]).value);
    assert picked[k] in picked;
  }

  /** The loop stops early at an obstacle. */
  lemma Blocked(w: Wallet, op: PegOut, utxos: seq<Utxo>, taken: seq<Utxo>, u: Utxo)
    requires FirstObstacle(w, op, taken) == None && Obstacle(w, op, u).Some?
    requires var chosen := Chosen(op, utxos, 0, false);
             |taken| < |chosen| && chosen[..|taken|] == taken && chosen[|taken|] == u
    ensures Fulfillment(w, op, utxos) == Err(Obstacle(w, op, u).value)
  {
    hide FirstObstacle, Obstacle, Chosen;
    var chosen := Chosen(op, utxos, 0, false);
    var more := chosen[|taken| + 1..];
    assert chosen == taken + [u] + more;
    SpendableSnoc(w, op, taken, u, more);
  }

  /** Behind the loop. */
  lemma Finished(w: Wallet, op: PegOut, utxos: seq<Utxo>, consumed: nat, found: bool, inputs: seq<TxIn>,
                 prevouts: seq<TxOut>)
    requires Taken(w, op, Chosen(op, utxos, 0, false), consumed, found, inputs, prevouts)
    ensures Fulfillment(w, op, utxos) ==
            if !found then Err(MissingFulfillmentUTXO)
            else if consumed < op.amount then Err(InsufficientFunds)
            else Ok((Transaction(2, 0, inputs, Outputs(w, op.amount, consumed - op.amount)), prevouts))
  {
    hide Chosen, FirstObstacle, Others, Fulfillments, Sum, Inputs, Prevouts, Outputs;
  }

  /** It succeeds exactly when the listed outputs allow it, provided that at most one of
      them is the fulfilment output. */
  method FulfillPegOut(w: Wallet, op: PegOut, utxos: seq<Utxo>)
    returns (r: Result<(Transaction, seq<TxOut>), Error>)
    ensures r == Fulfillment(w, op, utxos)
    ensures Means(w, op, utxos, r)
    ensures OneFulfillment(op, utxos) ==> (r.Ok? <==> CanFulfill(w, op, utxos))
  {
    hide Others, Fulfillments, FirstObstacle, Taken, Sum, Inputs, Prevouts, Chosen, IsFulfillment, UtxoToInput,
      UtxoToOutput, Spendable, WithdrawalDataOutput, Fulfillment, OneFulfillment, CanFulfill, Means;
    FulfillmentMeans(w, op, utxos);
    if OneFulfillment(op, utxos) {
      FulfillmentIff(w, op, utxos);
    }
    var inputs: seq<TxIn>, prevouts: seq<TxOut> := [], [];
    var totalConsumed: nat := 0;
    var found := false;
    ghost var taken: seq<Utxo> := [];
    ghost var chosen := Chosen(op, utxos, 0, false);
    TakenNone(w, op);
    var i := 0;
    while i < |utxos|
      invariant i <= |utxos|
      invariant Taken(w, op, taken, totalConsumed, found, inputs, prevouts)
      invariant chosen == taken + Chosen(op, utxos[i..], totalConsumed, found)
    {
      var utxo := utxos[i];
      ChosenAt(op, utxos, i, totalConsumed, found);
      TakenIsClear(w, op, taken, totalConsumed, found, inputs, prevouts);
      if IsFulfillment(op, utxo) {
        NextTaken(chosen, taken, utxo, Chosen(op, utxos[i + 1..], totalConsumed, true));
        if utxo.amount != op.fulfillmentFee {
          Blocked(w, op, utxos, taken, utxo);
          return Err(MismatchedFulfillmentFee);
        }
        var input, output := UtxoToInput(w, utxo), UtxoToOutput(w, utxo);
        if input.Err? {
          Blocked(w, op, utxos, taken, utxo);
          return Err(input.error);
        }
        if output.Err? {
          Blocked(w, op, utxos, taken, utxo);
          return Err(output.error);
        }
        TakeOne(w, op, taken, totalConsumed, found, inputs, prevouts, utxo);
        taken := taken + [utxo];
        inputs := inputs + [input.value];
        prevouts := prevouts + [output.value];
        found := true;
      } else if totalConsumed < op.amount {
        NextTaken(chosen, taken, utxo, Chosen(op, utxos[i + 1..], totalConsumed + utxo.amount, found));
        var input, output := UtxoToInput(w, utxo), UtxoToOutput(w, utxo);
        if input.Err? {
          Blocked(w, op, utxos, taken, utxo);
          return Err(input.error);
        }
        if output.Err? {
          Blocked(w, op, utxos, taken, utxo);
          return Err(output.error);
        }
        TakeOne(w, op, taken, totalConsumed, found, inputs, prevouts, utxo);
        taken := taken + [utxo];
        totalConsumed := totalConsumed + utxo.amount;
        inputs := inputs + [input.value];
        prevouts := prevouts + [output.value];
      } else if found {
        break;
      }
      i := i + 1;
    }
    if i == |utxos| {
      ChosenEnd(op, utxos, totalConsumed, found);
    }
    assert chosen == taken;
    Finished(w, op, utxos, totalConsumed, found, inputs, prevouts);
    if !found {
      return Err(MissingFulfillmentUTXO);
    }
    if totalConsumed < op.amount {
      return Err(InsufficientFunds);
    }
    var changeAmount := totalConsumed - op.amount;
    var outputs := [WithdrawalDataOutput(), TxOut(op.amount, w.script)];
    if changeAmount >= w.dust {
      outputs := outputs + [TxOut(changeAmount, w.script)];
    }
    assert outputs == Outputs(w, op.amount, changeAmount);
    return Ok((Transaction(2, 0, inputs, outputs), prevouts));
  }

  lemma NextTaken(chosen: seq<Utxo>, taken: seq<Utxo>, u: Utxo, rest: seq<Utxo>)
    requires chosen == taken + ([u] + rest)
    ensures |taken| < |chosen| && chosen[..|taken|] == taken && chosen[|taken|] == u
    ensures chosen == taken + [u] + rest
  {
  }

  lemma TakenIsClear(w: Wallet, op: PegOut, taken: seq<Utxo>, consumed: nat, found: bool, inputs: seq<TxIn>,
                     prevouts: seq<TxOut>)
    requires Taken(w, op, taken, consumed, found, inputs, prevouts)
    ensures FirstObstacle(w, op, taken) == None
  {
  }

  lemma ChosenAt(op: PegOut, utxos: seq<Utxo>, i: nat, consumed: nat, found: bool)
    requires i < |utxos|
    ensures var u := utxos[i];
            Chosen(op, utxos[i..], consumed, found) ==
            if IsFulfillment(op, u) then [u] + Chosen(op, utxos[i + 1..], consumed, true)
            else if consumed < op.amount then [u] + Chosen(op, utxos[i + 1..], consumed + u.amount, found)
            else if found then []
            else Chosen(op, utxos[i + 1..], consumed, found)
  {
    assert utxos[i..][0] == utxos[i] && utxos[i..][1..] == utxos[i + 1..];
  }

  lemma ChosenEnd(op: PegOut, utxos: seq<Utxo>, consumed: nat, found: bool)
    ensures Chosen(op, utxos[|utxos|..], consumed, found) == []
  {
  }

  // --- What is spent ---

  /** How many of the outputs it takes to reach the amount: all of them when even all are
      not enough. */
  function Enough(us: seq<Utxo>, amount: nat): (n: nat)
    ensures n <= |us|
    decreases |us|
  {
    if amount == 0 || us == [] then 0
    else 1 + Enough(us[1..], if us[0].amount < amount then amount - us[0].amount else 0)
  }

  /** `Enough` is the shortest sufficient prefix. */
  lemma {:induction false} EnoughIsShortest(us: seq<Utxo>, amount: nat)
    ensures Sum(us[..Enough(us, amount)]) >= amount <==> Sum(us) >= amount
    ensures forall n :: 0 <= n < Enough(us, amount) ==> Sum(us[..n]) < amount
    decreases |us|
  {
    var e := Enough(us, amount);
    if amount > 0 && us != [] {
      var rest := if us[0].amount < amount then amount - us[0].amount else 0;
      EnoughIsShortest(us[1..], rest);
      assert us[..e][1..] == us[1..][..e - 1];
      forall n | 0 <= n < e
        ensures Sum(us[..n]) < amount
      {
        if n > 0 {
          assert us[..n][1..] == us[1..][..n - 1];
          assert Sum(us[1..][..n - 1]) < rest;
        }
      }
    }
  }

  /** At most one available output is the fulfilment output, as when no outpoint is listed
      twice. */
  predicate OneFulfillment(op: PegOut, us: seq<Utxo>) {
    |Fulfillments(op, us)| <= 1
  }

  function Short(op: PegOut, consumed: nat): nat {
    if consumed < op.amount then op.amount - consumed else 0
  }

  lemma EnoughStep(op: PegOut, us: seq<Utxo>, consumed: nat)
    requires us != [] && consumed < op.amount
    ensures var e := Enough(us, Short(op, consumed));
            e == 1 + Enough(us[1..], Short(op, consumed + us[0].amount)) && us[..e] == [us[0]] + us[1..][..e - 1]
  {
    hide Enough;
    EnoughCons(us, Short(op, consumed));
    TakeCons(us, Enough(us, Short(op, consumed)));
  }

  lemma EnoughCons(us: seq<Utxo>, amount: nat)
    requires us != [] && amount > 0
    ensures Enough(us, amount) == 1 + Enough(us[1..], if us[0].amount < amount then amount - us[0].amount else 0)
  {
  }

  lemma TakeCons(us: seq<Utxo>, n: nat)
    requires 0 < n <= |us|
    ensures us[..n] == [us[0]] + us[1..][..n - 1]
  {
  }

  lemma SortsCons(op: PegOut, u: Utxo, rest: seq<Utxo>)
    ensures Others(op, [u] + rest) == if IsFulfillment(op, u) then Others(op, rest) else [u] + Others(op, rest)
    ensures Fulfillments(op, [u] + rest) == if IsFulfillment(op, u) then [u] + Fulfillments(op, rest) else Fulfillments(op, rest)
  {
    assert ([u] + rest)[1..] == rest;
  }

  /** Of the other outputs the shortest sufficient prefix is chosen, and the fulfilment
      output wherever it stands. */
  lemma {:induction false} ChosenIs(op: PegOut, us: seq<Utxo>, consumed: nat, found: bool)
    requires if found then Fulfillments(op, us) == [] else OneFulfillment(op, us)
    ensures var chosen := Chosen(op, us, consumed, found);
            && Fulfillments(op, chosen) == Fulfillments(op, us)
            && Others(op, chosen) == Others(op, us)[..Enough(Others(op, us), Short(op, consumed))]
    decreases |us|
  {
    hide Enough, Others, Fulfillments, IsFulfillment;
    if us == [] {
      NothingSorted(op);
    } else {
      var u, rest := us[0], us[1..];
      assert us == [u] + rest;
      SortsCons(op, u, rest);
      if IsFulfillment(op, u) {
        ChosenIs(op, rest, consumed, true);
        SortsCons(op, u, Chosen(op, rest, consumed, true));
      } else if consumed < op.amount {
        ChosenIs(op, rest, consumed + u.amount, found);
        SortsCons(op, u, Chosen(op, rest, consumed + u.amount, found));
        EnoughStep(op, Others(op, us), consumed);
      } else {
        NothingSorted(op);
        NothingNeeded(Others(op, us));
        NothingNeeded(Others(op, rest));
        if !found {
          ChosenIs(op, rest, consumed, found);
        }
      }
    }
  }

  lemma NothingSorted(op: PegOut)
    ensures Others(op, []) == [] && Fulfillments(op, []) == []
  {
  }

  lemma NothingNeeded(us: seq<Utxo>)
    ensures Enough(us, 0) == 0
  {
  }

  /** The chosen outputs keep their order. */
  predicate IsSubsequence(a: seq<Utxo>, b: seq<Utxo>)
    decreases |b|
  {
    a == [] || (b != [] && ((a[0] == b[0] && IsSubsequence(a[1..], b[1..])) || IsSubsequence(a, b[1..])))
  }

  lemma {:induction false} ChosenInOrder(op: PegOut, us: seq<Utxo>, consumed: nat, found: bool)
    ensures IsSubsequence(Chosen(op, us, consumed, found), us)
    decreases |us|
  {
    if us != [] {
      var u, rest := us[0], us[1..];
      var chosen := Chosen(op, us, consumed, found);
      if IsFulfillment(op, u) {
        ChosenInOrder(op, rest, consumed, true);
        assert chosen[1..] == Chosen(op, rest, consumed, true);
      } else if consumed < op.amount {
        ChosenInOrder(op, rest, consumed + u.amount, found);
        assert chosen[1..] == Chosen(op, rest, consumed + u.amount, found);
      } else if !found {
        ChosenInOrder(op, rest, consumed, found);
      }
    }
  }

  /** The outputs a caller can tell beforehand will be spent. */
  function Needed(op: PegOut, us: seq<Utxo>): seq<Utxo> {
    Fulfillments(op, us) + Others(op, us)[..Enough(Others(op, us), op.amount)]
  }

  /** A usable selection exists: the fulfilment output is there with the right amount, the
      other outputs cover the amount, and what is needed of them can be decoded. */
  predicate CanFulfill(w: Wallet, op: PegOut, us: seq<Utxo>) {
    && |Fulfillments(op, us)| == 1 && Fulfillments(op, us)[0].amount == op.fulfillmentFee
    && Sum(Others(op, us)) >= op.amount
    && Spendable(w, Needed(op, us))
  }

  predicate Clear(w: Wallet, op: PegOut, us: seq<Utxo>) {
    forall k :: 0 <= k < |us| ==> Obstacle(w, op, us[k]) == None
  }

  lemma ClearCons(w: Wallet, op: PegOut, u: Utxo, rest: seq<Utxo>)
    ensures Clear(w, op, [u] + rest) <==> Obstacle(w, op, u) == None && Clear(w, op, rest)
  {
    if Clear(w, op, [u] + rest) {
      assert ([u] + rest)[0] == u;
      assert forall k :: 0 <= k < |rest| ==> rest[k] == ([u] + rest)[k + 1];
    }
  }

  lemma {:induction false} ClearSorts(w: Wallet, op: PegOut, us: seq<Utxo>)
    ensures Clear(w, op, us) <==> Clear(w, op, Others(op, us)) && Clear(w, op, Fulfillments(op, us))
    decreases |us|
  {
    hide Clear, Obstacle, IsFulfillment, Others, Fulfillments;
    if us == [] {
      NothingSorted(op);
      NothingClear(w, op);
    } else {
      var u, rest := us[0], us[1..];
      assert us == [u] + rest;
      ClearSorts(w, op, rest);
      SortsCons(op, u, rest);
      ClearCons(w, op, u, rest);
      ClearCons(w, op, u, Others(op, rest));
      ClearCons(w, op, u, Fulfillments(op, rest));
    }
  }

  lemma NothingClear(w: Wallet, op: PegOut)
    ensures Clear(w, op, [])
  {
  }

  lemma ClearMeans(w: Wallet, op: PegOut, us: seq<Utxo>)
    requires forall k :: 0 <= k < |us| ==> IsFulfillment(op, us[k]) ==> us[k].amount == op.fulfillmentFee
    ensures Clear(w, op, us) <==> Spendable(w, us)
  {
    if Clear(w, op, us) {
      assert forall k :: 0 <= k < |us| ==> Obstacle(w, op, us[k]) == None;
    }
  }

  lemma SpendableConcat(w: Wallet, a: seq<Utxo>, b: seq<Utxo>)
    ensures Spendable(w, a + b) <==> Spendable(w, a) && Spendable(w, b)
  {
    if Spendable(w, a + b) {
      assert forall k :: 0 <= k < |a| ==> a[k] == (a + b)[k];
      assert forall k :: 0 <= k < |b| ==> b[k] == (a + b)[|a| + k];
    }
  }

  /** `fulfill_peg_out` succeeds exactly when the outputs allow it. */
  lemma SucceedsIff(w: Wallet, op: PegOut, us: seq<Utxo>)
    requires OneFulfillment(op, us)
    ensures var chosen := Chosen(op, us, 0, false);
            (FirstObstacle(w, op, chosen) == None && Fulfillments(op, chosen) != []
             && Sum(Others(op, chosen)) >= op.amount)
            <==> CanFulfill(w, op, us)
  {
    hide Chosen, Others, Fulfillments, FirstObstacle, Enough, Sum, Obstacle, Spendable, Clear;
    var chosen := Chosen(op, us, 0, false);
    ChosenIs(op, us, 0, false);
    ClearIff(w, op, chosen);
    ClearSorts(w, op, chosen);
    ClearMeans(w, op, Others(op, chosen));
    EnoughIsShortest(Others(op, us), op.amount);
    SpendableConcat(w, Fulfillments(op, us), Others(op, us)[..Enough(Others(op, us), op.amount)]);
    if Fulfillments(op, us) != [] {
      if Fulfillments(op, us)[0].amount == op.fulfillmentFee {
        ClearMeans(w, op, Fulfillments(op, us));
      } else {
        Mismatched(w, op, Fulfillments(op, us));
      }
    }
  }

  lemma ClearIff(w: Wallet, op: PegOut, us: seq<Utxo>)
    ensures FirstObstacle(w, op, us) == None <==> Clear(w, op, us)
  {
    NoObstacle(w, op, us);
  }

  lemma Mismatched(w: Wallet, op: PegOut, us: seq<Utxo>)
    requires us != [] && IsFulfillment(op, us[0]) && us[0].amount != op.fulfillmentFee
    ensures !Clear(w, op, us)
  {
    assert Obstacle(w, op, us[0]) == Some(MismatchedFulfillmentFee);
  }

  lemma {:induction false} PrevoutsSum(w: Wallet, us: seq<Utxo>)
    requires Spendable(w, us)
    ensures OutSum(Prevouts(w, us)) == Sum(us)
    decreases |us|
  {
    if us != [] {
      assert Prevouts(w, us)[1..] == Prevouts(w, us[1..]);
      PrevoutsSum(w, us[1..]);
    }
  }

  lemma {:induction false} SumSorts(op: PegOut, us: seq<Utxo>)
    ensures Sum(us) == Sum(Fulfillments(op, us)) + Sum(Others(op, us))
    decreases |us|
  {
    if us != [] {
      SumSorts(op, us[1..]);
      SumConcat([us[0]], Fulfillments(op, us[1..]));
      SumConcat([us[0]], Others(op, us[1..]));
      assert Sum([us[0]]) == us[0].amount by { assert [us[0]][1..] == []; }
      assert [] + Fulfillments(op, us[1..]) == Fulfillments(op, us[1..]);
      assert [] + Others(op, us[1..]) == Others(op, us[1..]);
    }
  }

  lemma OutputsSum(w: Wallet, amount: nat, change: nat)
    ensures OutSum(Outputs(w, amount, change)) == amount + if change >= w.dust then change else 0
  {
    hide WithdrawalDataOutput;
    assert WithdrawalDataOutput().value == 0 by { WithdrawalDataIsFree(); }
    var data, paid, change_ := WithdrawalDataOutput(), TxOut(amount, w.script), TxOut(change, w.script);
    assert [data, paid, change_][1..] == [paid, change_] && [paid, change_][1..] == [change_];
    assert [change_][1..] == [];
    assert [data, paid][1..] == [paid] && [paid][1..] == [];
    if change >= w.dust {
      assert Outputs(w, amount, change) == [data, paid, change_];
      assert OutSum([change_]) == change;
    } else {
      assert Outputs(w, amount, change) == [data, paid];
      assert OutSum([paid]) == amount;
    }
  }

  lemma WithdrawalDataIsFree()
    ensures WithdrawalDataOutput().value == 0
  {
  }

  /** Accounting of a success: inputs and previous outputs are aligned, what goes in is
      what comes out plus the fulfilment fee and a remainder below dust, and one output
      fewer would not have covered the amount. */
  lemma ValueIsAccountedFor(w: Wallet, op: PegOut, us: seq<Utxo>)
    requires OneFulfillment(op, us) && CanFulfill(w, op, us)
    ensures var chosen := Chosen(op, us, 0, false);
            var change := Sum(Others(op, chosen)) - op.amount;
            && Spendable(w, chosen) && IsSubsequence(chosen, us)
            && |Inputs(w, chosen)| == |Prevouts(w, chosen)|
            && change >= 0
            && var remainder := if change < w.dust then change else 0;
               OutSum(Prevouts(w, chosen)) == OutSum(Outputs(w, op.amount, change)) + op.fulfillmentFee + remainder
    ensures var spent := Others(op, Chosen(op, us, 0, false));
            && spent <= Others(op, us)
            && Sum(spent) >= op.amount
            && (spent != [] ==> Sum(spent[..|spent| - 1]) < op.amount)
  {
    hide Chosen, Others, Fulfillments, FirstObstacle, Enough, Sum, OutSum, Outputs, Prevouts, Obstacle;
    var chosen := Chosen(op, us, 0, false);
    SucceedsIff(w, op, us);
    NoObstacle(w, op, chosen);
    ChosenIs(op, us, 0, false);
    ChosenInOrder(op, us, 0, false);
    EnoughIsShortest(Others(op, us), op.amount);
    PrevoutsSum(w, chosen);
    SumSorts(op, chosen);
    SumOfOne(Fulfillments(op, chosen));
    OutputsSum(w, op.amount, Sum(Others(op, chosen)) - op.amount);
    var spent := Others(op, chosen);
    if spent != [] {
      assert spent[..|spent| - 1] == Others(op, us)[..|spent| - 1];
    }
  }

  lemma SumOfOne(us: seq<Utxo>)
    requires |us| == 1
    ensures Sum(us) == us[0].amount
  {
    assert us[1..] == [];
  }
}
