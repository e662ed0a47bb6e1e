/**
 What the contracts do with tokens, burnchain transactions and allowances: who is paid,
 which transaction fulfils a request and how much an operator can ask for.
 */
module RegistryLaws {
  import opened Bytes
  import opened Clarity
  import opened Options
  import opened Registry
  import opened RegistryInvariant
  import opened Merkle
  import Spv
  import TxParser
  import TxWire

  // --- Who is paid ---

  /** A reclaim gives its sender exactly the value of the request, and nobody else anything. */
  lemma ReclaimPays(sys: System, c: Call, id: nat)
    requires Next(sys, c, ReclaimCall(id)).1.Ok?
    ensures id in sys.state.registry.requests
    ensures var q, s, t := sys.state.registry.requests[id], sys.state, Next(sys, c, ReclaimCall(id)).0.state;
            && Moves(s.token.liquid, t.token.liquid, q.sender, q.value)
            && Moves(s.token.locked, t.token.locked, q.sender, -(q.value as int))
            && StateOf(s.registry, id) == REQUESTED && StateOf(t.registry, id) == RECLAIMED
  {
    hide WtxidAsserted;
  }

  /** A fulfilment burns its value among the sender's locked tokens and leaves every liquid
      balance. */
  lemma FulfilBurns(sys: System, c: Call, f: Fulfilment)
    requires Next(sys, c, FulfilCall(f)).1.Ok?
    ensures f.id in sys.state.registry.requests
    ensures var q, s, t := sys.state.registry.requests[f.id], sys.state, Next(sys, c, FulfilCall(f)).0.state;
            && t.token.liquid == s.token.liquid
            && Moves(s.token.locked, t.token.locked, q.sender, -(q.value as int))
            && StateOf(s.registry, f.id) == REQUESTED && StateOf(t.registry, f.id) == FULFILLED
  {
    hide Mined, PaidTo, ScriptPubKey, WtxidAsserted;
    if Mined(c, f).Ok? {
      AssertedHas(Settled(sys.state.registry, c, f.id, FULFILLED).0, c, Mined(c, f).value.1, f.burnHeight);
    }
  }

  /** A new request: its amount is taken from the sender's tokens and locked, and it can be
      reclaimed from `expiry` on. */
  ghost predicate Opens(s: State, t: State, c: Call, amount: nat, sender: Principal, destination: Wallet, expiry: nat,
                        extraData: Buff)
  {
    && Moves(s.token.liquid, t.token.liquid, sender, -(amount as int))
    && Moves(s.token.locked, t.token.locked, sender, amount)
    && t.registry.nonce == s.registry.nonce + 1 && t.registry.states == s.registry.states
    && t.registry.requests
       == s.registry.requests[s.registry.nonce := Request(amount, sender, destination, extraData, c.burnHeight, expiry)]
  }

  /** Whether a withdrawal is accepted, and with which error not. */
  lemma RequestSucceedsIff(sys: System, c: Call, w: Withdrawal)
    ensures var (next, r) := Next(sys, c, RequestCall(w));
            r == if w.sender != w.operator && Allowance(sys.state.allowances, w.sender, w.operator) < w.amount
                 then Err(ERR_OPERATOR_NOT_ALLOWED)
                 else if !HasScript(w.destination) then Err(ERR_REQUEST_DESTINATION)
                 else if !c.enabled || w.amount == 0 || w.amount > Balance(sys.state.token.liquid, w.sender)
                 then Err(ERR_TOKEN_LOCK_FAILED)
                 else if c.burnHeight + 2100 >= UINT_LIMIT then Panic
                 else Ok(true)
    ensures var (next, r) := Next(sys, c, RequestCall(w));
            r.Ok? ==> Opens(sys.state, next.state, c, w.amount, w.sender, w.destination, c.burnHeight + 2100, [])
  {
    ScriptIs(w.destination);
  }

  lemma RegisterSucceedsIff(sys: System, c: Call, q: BtcRequest)
    ensures var (next, r) := Next(sys, c, RegisterCall(q));
            var s := sys.state.registry;
            r.Ok? <==>
            && q.mined.Ok? && c.enabled && |q.mined.value| == 32 && q.mined.value !in s.processed
            && q.burnHeight + s.confirmations < UINT_LIMIT && q.burnHeight + s.confirmations <= c.burnHeight
            && c.burnHeight + 2100 < UINT_LIMIT && c.burnHeight + 2100 <= q.expiry
            && 0 < q.amount <= Balance(sys.state.token.liquid, q.sender)
    ensures var (next, r) := Next(sys, c, RegisterCall(q));
            r.Ok? ==>
              && Opens(sys.state, next.state, c, q.amount, q.sender, q.destination, q.expiry, q.script)
              && next.state.registry.processed == sys.state.registry.processed + {q.mined.value}
  {
  }

  // --- Nothing is lost ---

  /** What an owner had fulfilled. */
  function FulfilledValue(s: RegistryState, n: nat, owner: Principal): nat {
    if n == 0 then 0
    else
      var id := n - 1;
      FulfilledValue(s, id, owner)
      + if id in s.requests && s.requests[id].sender == owner && StateOf(s, id) == FULFILLED then s.requests[id].value else 0
  }

  /** An owner's tokens, locked tokens and what was paid out in bitcoin. */
  function Wealth(s: State, owner: Principal): nat {
    Balance(s.token.liquid, owner) + Balance(s.token.locked, owner) + FulfilledValue(s.registry, s.registry.nonce, owner)
  }

  lemma {:induction false} FulfilledAgrees(s: RegistryState, t: RegistryState, n: nat, owner: Principal)
    requires forall id :: 0 <= id < n && id in s.requests && StateOf(s, id) == FULFILLED ==>
                            id in t.requests && t.requests[id] == s.requests[id] && StateOf(t, id) == FULFILLED
    requires forall id :: 0 <= id < n && id in t.requests && StateOf(t, id) == FULFILLED ==>
                            id in s.requests && StateOf(s, id) == FULFILLED
    ensures FulfilledValue(s, n, owner) == FulfilledValue(t, n, owner)
  {
    if n > 0 {
      FulfilledAgrees(s, t, n - 1, owner);
    }
  }

  lemma {:induction false} FulfilledGrows(s: RegistryState, t: RegistryState, n: nat, id: nat, owner: Principal)
    requires Settles(s, t, id, FULFILLED) && id < n
    ensures FulfilledValue(t, n, owner)
         == FulfilledValue(s, n, owner) + if s.requests[id].sender == owner then s.requests[id].value else 0
  {
    if id == n - 1 {
      FulfilledAgrees(s, t, n - 1, owner);
    } else {
      FulfilledGrows(s, t, n - 1, id, owner);
    }
  }

  lemma FulfilledAdds(s: RegistryState, t: RegistryState, q: Request, owner: Principal)
    requires IdsInv(s) && Adds(s, t, q)
    ensures FulfilledValue(t, t.nonce, owner) == FulfilledValue(s, s.nonce, owner)
  {
    FulfilledAgrees(s, t, s.nonce, owner);
  }

  /** What a step does to the fulfilled value. */
  lemma FulfilledSteps(s: RegistryState, t: RegistryState, e: Effect, owner: Principal)
    requires IdsInv(s) && Has(s, t, e)
    ensures FulfilledValue(t, t.nonce, owner)
         == FulfilledValue(s, s.nonce, owner)
            + if e.Settling? && e.settledState == FULFILLED && s.requests[e.id].sender == owner then s.requests[e.id].value else 0
  {
    hide FulfilledValue;
    match e
    case Nothing => FulfilledAgrees(s, t, s.nonce, owner);
    case Added(q) => FulfilledAdds(s, t, q, owner);
    case Settling(id, settledState) =>
      if settledState == FULFILLED {
        FulfilledGrows(s, t, s.nonce, id, owner);
      } else {
        FulfilledAgrees(s, t, s.nonce, owner);
      }
  }

  lemma StepKeepsWealth(sys: System, c: Call, ev: Event, owner: Principal)
    requires Inv(sys) && ThroughContracts(ev) && !ev.LiquidChange?
    ensures Wealth(Next(sys, c, ev).0.state, owner) == Wealth(sys.state, owner)
  {
    hide Next, Inv, FulfilledValue, Has, IdsInv;
    EveryStepHas(sys, c, ev);
    if Next(sys, c, ev).1.Ok? {
      var next := Next(sys, c, ev).0.state;
      IdsOf(sys);
      FulfilledSteps(sys.state.registry, next.registry, EffectOf(sys, c, ev), owner);
      match ev
      case RequestCall(w) => RequestSucceedsIff(sys, c, w);
      case RegisterCall(q) => RegisterSucceedsIff(sys, c, q);
      case ReclaimCall(id) => ReclaimPays(sys, c, id);
      case FulfilCall(f) => FulfilBurns(sys, c, f);
      case _ => OthersKeepTokens(sys, c, ev);
    }
  }

  lemma IdsOf(sys: System)
    requires Inv(sys)
    ensures IdsInv(sys.state.registry)
  {
  }

  lemma OthersKeepTokens(sys: System, c: Call, ev: Event)
    requires !ev.RequestCall? && !ev.RegisterCall? && !ev.ReclaimCall? && !ev.FulfilCall? && !ev.LiquidChange?
    ensures Next(sys, c, ev).0.state.token == sys.state.token
  {
  }

  /** While nobody transfers, mints or burns and requests go through the contracts, an
      owner's tokens, its locked tokens and what was fulfilled of its requests add up to
      what it had at the start. */
  lemma {:induction false} RunKeepsWealth(sys: System, events: seq<(Call, Event)>, owner: Principal)
    requires Inv(sys) && forall k :: 0 <= k < |events| ==> ThroughContracts(events[k].1) && !events[k].1.LiquidChange?
    ensures Wealth(Run(sys, events).state, owner) == Wealth(sys.state, owner)
    decreases |events|
  {
    hide Inv, Next, ThroughContracts, Wealth;
    if events != [] {
      StepKeepsInv(sys, events[0].0, events[0].1);
      StepKeepsWealth(sys, events[0].0, events[0].1, owner);
      RunKeepsWealth(Next(sys, events[0].0, events[0].1).0, events[1..], owner);
    }
  }

  lemma WealthConserved(liquid: map<Principal, nat>, events: seq<(Call, Event)>, owner: Principal)
    requires forall k :: 0 <= k < |events| ==> ThroughContracts(events[k].1) && !events[k].1.LiquidChange?
    ensures var s := Run(Start(liquid), events).state;
            Balance(s.token.liquid, owner) + Balance(s.token.locked, owner)
            + FulfilledValue(s.registry, s.registry.nonce, owner)
            == Balance(liquid, owner)
  {
    hide Run, ThroughContracts, Inv;
    StartInv(liquid);
    RunKeepsWealth(Start(liquid), events, owner);
    NothingFulfilled(liquid, owner);
  }

  lemma NothingFulfilled(liquid: map<Principal, nat>, owner: Principal)
    ensures Wealth(Start(liquid).state, owner) == Balance(liquid, owner)
  {
  }

  // --- What is paid ---

  /** The destinations with a script: pay to a witness key hash, to a witness script hash
      and to taproot. */
  predicate HasScript(w: Wallet) {
    w.version == [0x04] || w.version == [0x05] || w.version == [0x06]
  }

  /** The script of a destination, byte by byte. */
  predicate IsScriptOf(script: Buff, w: Wallet) {
    && HasScript(w) && |script| == |w.hashbytes| + 2
    && script[0] == (if w.version == [0x06] then 0x51 else 0x00)
    && script[1] == |w.hashbytes| % 256
    && forall k :: 0 <= k < |w.hashbytes| ==> script[k + 2] == w.hashbytes[k]
  }

  lemma ScriptIs(w: Wallet)
    ensures ScriptPubKey(w).Some? <==> HasScript(w)
    ensures forall script: Buff :: ScriptPubKey(w) == Some(script) <==> IsScriptOf(script, w)
  {
    forall script: Buff | IsScriptOf(script, w)
      ensures ScriptPubKey(w) == Some(script)
    {
      assert script == [script[0], script[1]] + w.hashbytes;
    }
  }

  /** `picked` lists, in order, the outputs from `from` on that have the script. */
  ghost predicate Lists(outs: seq<TxParser.TxOut>, script: Buff, from: nat, picked: seq<nat>) {
    && (forall k :: 0 <= k < |picked| ==> from <= picked[k] < |outs|)
    && (forall j, k :: 0 <= j < k < |picked| ==> picked[j] < picked[k])
    && (forall i: nat :: i in picked <==> from <= i < |outs| && outs[i].scriptPubKey == script)
  }

  function SumAt(outs: seq<TxParser.TxOut>, picked: seq<nat>): nat
    requires forall k :: 0 <= k < |picked| ==> picked[k] < |outs|
  {
    if picked == [] then 0 else outs[picked[0]].value + SumAt(outs, picked[1..])
  }

  /** The outputs with the script, each counted once, are worth at least `value`. */
  ghost predicate Pays(outs: seq<TxParser.TxOut>, script: Buff, value: nat) {
    exists picked :: Lists(outs, script, 0, picked) && SumAt(outs, picked) >= value
  }

  lemma {:induction false} ListedSum(outs: seq<TxParser.TxOut>, script: Buff, from: nat, picked: seq<nat>)
    requires from <= |outs| && Lists(outs, script, from, picked)
    ensures SumAt(outs, picked) == PaidTo(outs[from..], script)
    decreases |outs| - from
  {
    if from == |outs| {
      assert picked == [];
    } else {
      assert outs[from..][1..] == outs[from + 1..];
      if outs[from].scriptPubKey == script {
        assert from in picked;
        assert picked[0] in picked;
        assert picked[0] == from;
        RestLists(outs, script, from, picked);
        ListedSum(outs, script, from + 1, picked[1..]);
      } else {
        ListedSum(outs, script, from + 1, picked);
      }
    }
  }

  lemma RestLists(outs: seq<TxParser.TxOut>, script: Buff, from: nat, picked: seq<nat>)
    requires from < |outs| && Lists(outs, script, from, picked) && picked != [] && picked[0] == from
    ensures Lists(outs, script, from + 1, picked[1..])
  {
    forall i: nat
      ensures i in picked[1..] <==> from + 1 <= i < |outs| && outs[i].scriptPubKey == script
    {
      if i in picked[1..] {
        var k :| 0 <= k < |picked| - 1 && picked[1..][k] == i;
        assert picked[k + 1] == i && picked[k + 1] in picked;
      }
      if i in picked && i != from {
        var k :| 0 <= k < |picked| && picked[k] == i;
        assert picked[1..][k - 1] == i;
      }
    }
  }

  lemma {:induction false} ListExists(outs: seq<TxParser.TxOut>, script: Buff, from: nat) returns (picked: seq<nat>)
    requires from <= |outs|
    ensures Lists(outs, script, from, picked)
    decreases |outs| - from
  {
    if from == |outs| {
      picked := [];
    } else {
      picked := ListExists(outs, script, from + 1);
      if outs[from].scriptPubKey == script {
        assert forall k :: 0 <= k < |picked| ==> picked[k] in picked;
        picked := [from] + picked;
      }
    }
  }

  lemma PaysIff(outs: seq<TxParser.TxOut>, script: Buff, value: nat)
    ensures Pays(outs, script, value) <==> PaidTo(outs, script) >= value
  {
    assert outs[0..] == outs;
    var picked := ListExists(outs, script, 0);
    ListedSum(outs, script, 0, picked);
    if other :| Lists(outs, script, 0, other) && SumAt(outs, other) >= value {
      ListedSum(outs, script, 0, other);
    }
  }

  /** The outputs pay the destination of a request at least its value. */
  ghost predicate PaysDestination(outs: seq<TxParser.TxOut>, q: Request) {
    exists script :: IsScriptOf(script, q.destination) && Pays(outs, script, q.value)
  }

  // --- The transaction was mined ---

  /** Soundness: what fulfils a request against the recorded header of a mined block, at the
      depth of its tree and with a coinbase that is not 64 bytes long, is the transaction of
      that block that the index leads to, or the call contains two inputs with one hash. */
  lemma FulfilledIsMined(sys: System, c: Call, f: Fulfilment, b: Spv.Block)
    requires b.Mined(c.chain.sha)
    requires Spv.VerifyBlockHeader(c.chain.sha, c.chain.headers, TxWire.SerHeader(b.header), f.burnHeight)
    requires f.proof.treeDepth == Depth(|b.txids|) && |f.proof.cproof| <= MAX_PROOF && |f.proof.wproof| <= MAX_PROOF
    requires |f.proof.ctx| != 64 && Next(sys, c, FulfilCall(f)).1.Ok?
    ensures |b.txids| > 1
    ensures var found := Spv.Forgery(c.chain.sha, b, f.tx, f.header, f.proof);
            if found == None then DSha(c.chain.sha, f.tx) == b.wtxids[LeafReached(|b.wtxids|, f.proof.txIndex)]
            else Spv.IsForgery(c.chain.sha, found)
  {
    hide Spv.WasSegwitTxMinedCompact, TxParser.ParseWtx, PaidTo, ScriptPubKey, Spv.Forgery, LeafReached, Depth, DSha, Pays,
      IsScriptOf, Next, Mined, Spv.IsForgery, Spv.VerifyBlockHeader, Spv.Block.Mined;
    FulfilledPays(sys, c, f);
    MinedMeans(c, f);
    Spv.SegwitMinedSound(c.chain.sha, c.chain.headers, f.burnHeight, b, f.tx, f.header, f.proof);
  }

  lemma MinedMeans(c: Call, f: Fulfilment)
    requires Mined(c, f).Ok?
    ensures Spv.WasSegwitTxMinedCompact(c.chain.sha, c.chain.headers, f.burnHeight, f.tx, f.header, f.proof).Ok?
    ensures TxParser.ParseWtx(f.tx).Ok? && Mined(c, f).value.0 == TxParser.ParseWtx(f.tx).value.outs
  {
    hide Spv.WasSegwitTxMinedCompact, TxParser.ParseWtx;
  }

  /** And the outputs of that transaction with the script of the destination are worth enough. */
  lemma FulfilledPays(sys: System, c: Call, f: Fulfilment)
    requires Next(sys, c, FulfilCall(f)).1.Ok?
    ensures Mined(c, f).Ok? && TxParser.ParseWtx(f.tx).Ok? && f.id in sys.state.registry.requests
    ensures PaysDestination(TxParser.ParseWtx(f.tx).value.outs, sys.state.registry.requests[f.id])
  {
    hide TxParser.ParseWtx, Mined, PaidTo, ScriptPubKey, WtxidAsserted, Pays, IsScriptOf;
    MinedMeans(c, f);
    var q := sys.state.registry.requests[f.id];
    ScriptIs(q.destination);
    PaysIff(Mined(c, f).value.0, ScriptPubKey(q.destination).value, q.value);
    assert IsScriptOf(ScriptPubKey(q.destination).value, q.destination);
  }

  /** The conditions on the state under which a mined transaction with that id fulfils. */
  predicate CanSettle(s: RegistryState, c: Call, f: Fulfilment, id: Buff) {
    && c.enabled && f.id in s.requests && StateOf(s, f.id) == REQUESTED && id !in s.processed
    && f.burnHeight + s.confirmations < UINT_LIMIT && f.burnHeight + s.confirmations <= c.burnHeight
    && f.burnHeight < s.requests[f.id].burnHeight
  }

  /** Completeness: every transaction of a recorded block, with its generated proofs, fulfils
      a request exactly when it is new and confirmed, the request is pending and younger, and
      the outputs with the script of its destination are worth enough. */
  lemma MinedFulfilsIff(sys: System, c: Call, f: Fulfilment, t: TxParser.Wtx, rest: Buff, h: TxParser.Header,
                        txids: seq<Hash>, wtxids: seq<Hash>, index: nat,
                        coinbase: Spv.Coinbase, more: Buff, k: nat, reserved: Hash)
    requires Inv(sys) && TokenInv(sys)
    requires TxWire.FitsWtx(t) && f.tx == TxWire.SerWtx(t) + rest
    requires TxWire.FitsHeader(h) && f.header == TxWire.SerHeader(h)
    requires Spv.VerifyBlockHeader(c.chain.sha, c.chain.headers, f.header, f.burnHeight)
    requires 2 <= |txids| == |wtxids| <= Pow2(MAX_PROOF) && h.merkleRoot == Spv.ReversedHash(Root(c.chain.sha, txids))
    requires coinbase.Fits() && txids[0] == DSha(c.chain.sha, coinbase.Bytes() + more)
    requires Spv.LastCommitmentAt(coinbase.Outs(), k)
    requires coinbase.Outs()[k].scriptPubKey == Spv.CommitmentScript(c.chain.sha, Root(c.chain.sha, wtxids), reserved)
    requires index < |wtxids| && wtxids[index] == DSha(c.chain.sha, f.tx)
    requires f.proof == Spv.SegwitProof(index, Depth(|wtxids|), ProofPath(index, Layers(c.chain.sha, wtxids)),
                                        Root(c.chain.sha, wtxids), reserved, coinbase.Bytes() + more,
                                        ProofPath(0, Layers(c.chain.sha, txids)))
    ensures Next(sys, c, FulfilCall(f)).1.Ok? <==>
            && CanSettle(sys.state.registry, c, f, Reversed(wtxids[index]))
            && PaysDestination(t.outs, sys.state.registry.requests[f.id])
  {
    hide Spv.WasSegwitTxMinedCompact, TxParser.ParseWtx, PaidTo, ScriptPubKey, Depth, DSha, Pays, IsScriptOf, WtxidAsserted,
      Settled, ProtocolBurned, Spv.VerifyBlockHeader, Inv, TokenInv, Next, Root, ProofPath, Layers, TxWire.FitsWtx,
      TxWire.SerWtx, TxWire.SerHeader, TxWire.FitsHeader, Spv.LastCommitmentAt, Spv.CommitmentScript;
    Spv.SegwitMinedComplete(c.chain.sha, c.chain.headers, f.burnHeight, f.tx, h, txids, wtxids, index, coinbase, more, k, reserved);
    TxWire.WtxRoundTrip(t, rest);
    FulfilOkIff(sys, c, f);
    assert Mined(c, f) == Ok((t.outs, Spv.ReversedHash(wtxids[index])));
    if f.id in sys.state.registry.requests {
      PaysScript(t.outs, sys.state.registry.requests[f.id]);
    }
  }

  lemma PaysScript(outs: seq<TxParser.TxOut>, q: Request)
    ensures (ScriptPubKey(q.destination).Some? && PaidTo(outs, ScriptPubKey(q.destination).value) >= q.value)
            <==> PaysDestination(outs, q)
  {
    hide PaidTo, ScriptPubKey, Pays, IsScriptOf;
    ScriptIs(q.destination);
    if ScriptPubKey(q.destination).Some? {
      PaysIff(outs, ScriptPubKey(q.destination).value, q.value);
      assert IsScriptOf(ScriptPubKey(q.destination).value, q.destination);
    }
  }

  /** The answer to every fulfilment, with the errors in the order of the checks. Burning
      never fails. */
  lemma FulfilAnswers(sys: System, c: Call, f: Fulfilment)
    requires Inv(sys) && TokenInv(sys)
    ensures var s, id := sys.state.registry, Reversed(DSha(c.chain.sha, f.tx));
            var mined := Spv.WasSegwitTxMinedCompact(c.chain.sha, c.chain.headers, f.burnHeight, f.tx, f.header, f.proof);
            var parsed := TxParser.ParseWtx(f.tx);
            Next(sys, c, FulfilCall(f)).1 ==
            if !mined.Ok? then mined.PropagateFailure()
            else if !parsed.Ok? then parsed.PropagateFailure()
            else if f.id !in s.requests then Err(ERR_UNKNOWN_REQUEST)
            else if !c.enabled then Err(ERR_UNAUTHORISED)
            else if StateOf(s, f.id) != REQUESTED then Err(ERR_NOT_PENDING)
            else if !HasScript(s.requests[f.id].destination) then Err(ERR_INVALID_DESTINATION)
            else if id in s.processed then Err(ERR_BURN_TX_ALREADY_PROCESSED)
            else if f.burnHeight + s.confirmations >= UINT_LIMIT then Panic
            else if f.burnHeight + s.confirmations > c.burnHeight then Err(ERR_MINIMUM_CONFIRMATIONS)
            else if s.requests[f.id].burnHeight <= f.burnHeight then Err(ERR_OLD_BURNCHAIN_TRANSACTION)
            else if !PaysDestination(parsed.value.outs, s.requests[f.id]) then Err(ERR_WRONG_VALUE)
            else Ok(true)
  {
    hide Spv.WasSegwitTxMinedCompact, TxParser.ParseWtx, PaidTo, ScriptPubKey, Pays, IsScriptOf, TokenInv, IdsInv, WalletsInv,
      PendingInv, AcceptedInv, DSha;
    if f.id in sys.state.registry.requests {
      ScriptIs(sys.state.registry.requests[f.id].destination);
      if StateOf(sys.state.registry, f.id) == REQUESTED {
        UnsettledIsLocked(sys, f.id);
      }
      if TxParser.ParseWtx(f.tx).Ok? {
        PaysScript(TxParser.ParseWtx(f.tx).value.outs, sys.state.registry.requests[f.id]);
      }
    }
  }

  // --- Allowances ---

  /** What an operator asked for in the name of a sender, in the calls that succeeded. */
  function Asked(sys: System, events: seq<(Call, Event)>, sender: Principal, operator: Principal): nat
    decreases |events|
  {
    if events == [] then 0
    else
      var (c, ev) := events[0];
      var (next, r) := Next(sys, c, ev);
      (if ev.RequestCall? && ev.w.sender == sender && ev.w.operator == operator && r.Ok? then ev.w.amount else 0)
      + Asked(next, events[1..], sender, operator)
  }

  predicate SetsAllowance(ev: Event, sender: Principal, operator: Principal) {
    ev.AllowanceCall? && ev.owner == sender && ev.operator == operator
  }

  lemma StepAllowance(sys: System, c: Call, ev: Event, sender: Principal, operator: Principal)
    requires sender != operator && !SetsAllowance(ev, sender, operator)
    ensures var (next, r) := Next(sys, c, ev);
            var before, after := Allowance(sys.state.allowances, sender, operator), Allowance(next.state.allowances, sender, operator);
            if ev.RequestCall? && ev.w.sender == sender && ev.w.operator == operator && r.Ok? && before < MAX_UINT
            then after + ev.w.amount == before else after == before
  {
    hide Settled, WtxidAsserted, WalletInserted, ProtocolLocked, ProtocolUnlocked, ProtocolBurned, Mined, ScriptPubKey, PaidTo;
  }

  /** Between two settings of an allowance an operator gets at most that allowance, and what
      is left of it is the rest; the largest one is never used up. */
  lemma {:induction false} AllowanceBounds(sys: System, events: seq<(Call, Event)>, sender: Principal, operator: Principal)
    requires sender != operator && forall k :: 0 <= k < |events| ==> !SetsAllowance(events[k].1, sender, operator)
    ensures var before := Allowance(sys.state.allowances, sender, operator);
            var after := Allowance(Run(sys, events).state.allowances, sender, operator);
            if before < MAX_UINT then Asked(sys, events, sender, operator) + after == before else after == before
    decreases |events|
  {
    hide Next, Allowance, SetsAllowance;
    if events != [] {
      StepAllowance(sys, events[0].0, events[0].1, sender, operator);
      AllowanceBounds(Next(sys, events[0].0, events[0].1).0, events[1..], sender, operator);
    }
  }
}
