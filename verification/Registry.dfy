/**
 The sBTC registry with the contracts that settle its withdrawal requests and the token
 they lock, unlock and burn. A public function that does not return `ok` leaves no trace:
 the runtime puts back the state it started from.
 */
module Registry {
  import opened Bytes
  import opened Clarity
  import opened Options
  import Merkle
  import Spv
  import TxParser

  type Principal = nat
  datatype Wallet = Wallet(version: Buff, hashbytes: Buff)

  datatype Request = Request(value: nat, sender: Principal, destination: Wallet, extraData: Buff,
                             burnHeight: nat, expiryBurnHeight: nat)

  const REQUESTED: Buff := [0]
  const FULFILLED: Buff := [1]
  const RECLAIMED: Buff := [2]

  const ERR_UNAUTHORISED: nat := 1000
  const ERR_BURN_TX_ALREADY_PROCESSED: nat := 2000
  const ERR_SBTC_WALLET_ALREADY_SET: nat := 2001
  const ERR_MINIMUM_CONFIRMATIONS: nat := 2002
  const ERR_NOT_SETTLED_STATE: nat := 2003
  const ERR_INVALID_TXID_LENGTH: nat := 2004
  const ERR_UNKNOWN_REQUEST: nat := 2005
  const ERR_NOT_PENDING: nat := 2006
  const ERR_BTC_LOCK_FAILED: nat := 5000
  const ERR_UNACCEPTABLE_EXPIRY: nat := 5001
  const ERR_TOKEN_LOCK_FAILED: nat := 5100
  const ERR_ALLOWANCE_FOR_SELF: nat := 5101
  const ERR_OPERATOR_NOT_ALLOWED: nat := 5102
  const ERR_WRONG_VALUE: nat := 5200
  const ERR_INVALID_DESTINATION: nat := 5201
  const ERR_OLD_BURNCHAIN_TRANSACTION: nat := 5202
  const ERR_REQUEST_DESTINATION: nat := 5203
  const ERR_NOT_EXPIRED: nat := 5300
  /** What the built-in token functions return for a missing balance or a zero amount. */
  const ERR_FT: nat := 1

  /** The variables and maps of `sbtc-registry`. */
  datatype RegistryState = RegistryState(
    nonce: nat, pending: nat, requests: map<nat, Request>, states: map<nat, Buff>,
    confirmations: nat, processed: set<Buff>,
    wallets: map<nat, Wallet>, walletsCycle: map<Wallet, nat>, pegState: bool)

  const EMPTY_REGISTRY: RegistryState := RegistryState(0, 0, map[], map[], 4, {}, map[], map[], true)

  /** The balances of the token and of its locked counterpart. */
  datatype TokenState = TokenState(liquid: map<Principal, nat>, locked: map<Principal, nat>)

  /** The recorded burnchain headers, and the hash function of the chain. */
  datatype Chain = Chain(sha: Buff -> Merkle.Hash, headers: map<nat, Merkle.Hash>)

  /** Whether the calling contract belongs to the protocol, the burnchain height, and the
      chain. */
  datatype Call = Call(enabled: bool, burnHeight: nat, chain: Chain)

  // --- The token ---

  function Balance(m: map<Principal, nat>, who: Principal): nat {
    if who in m then m[who] else 0
  }

  function Credit(m: map<Principal, nat>, who: Principal, amount: nat): map<Principal, nat> {
    m[who := Balance(m, who) + amount]
  }

  function Debit(m: map<Principal, nat>, who: Principal, amount: nat): map<Principal, nat>
    requires amount <= Balance(m, who)
  {
    m[who := Balance(m, who) - amount]
  }

  /** `ft-burn?` accepts positive amounts that the owner has. */
  predicate CanBurn(m: map<Principal, nat>, who: Principal, amount: nat) {
    0 < amount <= Balance(m, who)
  }

  function ProtocolLocked(t: TokenState, c: Call, amount: nat, owner: Principal): (TokenState, Response<bool>) {
    if !c.enabled then (t, Err(ERR_UNAUTHORISED))
    else if !CanBurn(t.liquid, owner, amount) then (t, Err(ERR_FT))
    else (TokenState(Debit(t.liquid, owner, amount), Credit(t.locked, owner, amount)), Ok(true))
  }

  function ProtocolUnlocked(t: TokenState, c: Call, amount: nat, owner: Principal): (TokenState, Response<bool>) {
    if !c.enabled then (t, Err(ERR_UNAUTHORISED))
    else if !CanBurn(t.locked, owner, amount) then (t, Err(ERR_FT))
    else (TokenState(Credit(t.liquid, owner, amount), Debit(t.locked, owner, amount)), Ok(true))
  }

  function ProtocolBurned(t: TokenState, c: Call, amount: nat, owner: Principal): (TokenState, Response<bool>) {
    if !c.enabled then (t, Err(ERR_UNAUTHORISED))
    else if !CanBurn(t.locked, owner, amount) then (t, Err(ERR_FT))
    else (t.(locked := Debit(t.locked, owner, amount)), Ok(true))
  }

  /** `owner`'s balance, and nobody else's, changes by `delta`. */
  ghost predicate Moves(before: map<Principal, nat>, after: map<Principal, nat>, owner: Principal, delta: int) {
    forall who: Principal :: Balance(after, who) == Balance(before, who) + if who == owner then delta else 0
  }

  class SbtcToken {
    var liquid: map<Principal, nat>
    var locked: map<Principal, nat>

    function Value(): TokenState
      reads this
    {
      TokenState(liquid, locked)
    }

    constructor (liquid: map<Principal, nat>)
      ensures Value() == TokenState(liquid, map[])
    {
      this.liquid, locked := liquid, map[];
    }

    method Restore(t: TokenState)
      modifies this
      ensures Value() == t
    {
      liquid, locked := t.liquid, t.locked;
    }

    method ProtocolLock(c: Call, amount: nat, owner: Principal) returns (r: Response<bool>)
      modifies this
      ensures (Value(), r) == ProtocolLocked(old(Value()), c, amount, owner)
      ensures r.Ok? <==> c.enabled && 0 < amount <= old(Balance(liquid, owner))
      ensures r.Ok? ==> Moves(old(liquid), liquid, owner, -(amount as int)) && Moves(old(locked), locked, owner, amount)
      ensures !r.Ok? ==> Value() == old(Value())
    {
      if !c.enabled {
        return Err(ERR_UNAUTHORISED);
      }
      if !CanBurn(liquid, owner, amount) {
        return Err(ERR_FT);
      }
      liquid := Debit(liquid, owner, amount);
      locked := Credit(locked, owner, amount);
      return Ok(true);
    }

    method ProtocolUnlock(c: Call, amount: nat, owner: Principal) returns (r: Response<bool>)
      modifies this
      ensures (Value(), r) == ProtocolUnlocked(old(Value()), c, amount, owner)
      ensures r.Ok? <==> c.enabled && 0 < amount <= old(Balance(locked, owner))
      ensures r.Ok? ==> Moves(old(liquid), liquid, owner, amount) && Moves(old(locked), locked, owner, -(amount as int))
      ensures !r.Ok? ==> Value() == old(Value())
    {
      if !c.enabled {
        return Err(ERR_UNAUTHORISED);
      }
      if !CanBurn(locked, owner, amount) {
        return Err(ERR_FT);
      }
      locked := Debit(locked, owner, amount);
      liquid := Credit(liquid, owner, amount);
      return Ok(true);
    }

    method ProtocolBurnLocked(c: Call, amount: nat, owner: Principal) returns (r: Response<bool>)
      modifies this
      ensures (Value(), r) == ProtocolBurned(old(Value()), c, amount, owner)
      ensures r.Ok? <==> c.enabled && 0 < amount <= old(Balance(locked, owner))
      ensures r.Ok? ==> liquid == old(liquid) && Moves(old(locked), locked, owner, -(amount as int))
      ensures !r.Ok? ==> Value() == old(Value())
    {
      if !c.enabled {
        return Err(ERR_UNAUTHORISED);
      }
      if !CanBurn(locked, owner, amount) {
        return Err(ERR_FT);
      }
      locked := Debit(locked, owner, amount);
      return Ok(true);
    }
  }

  // --- The registry ---

  function StateOf(s: RegistryState, id: nat): Buff {
    if id in s.states then s.states[id] else REQUESTED
  }

  function Inserted(s: RegistryState, c: Call, value: nat, sender: Principal, expiry: nat, destination: Wallet,
                    extraData: Buff): (RegistryState, Response<nat>)
  {
    if !c.enabled then (s, Err(ERR_UNAUTHORISED))
    else
      (s.(requests := s.requests[s.nonce := Request(value, sender, destination, extraData, c.burnHeight, expiry)],
          nonce := s.nonce + 1, pending := s.pending + 1), Ok(s.nonce))
  }

  /** The counter is unsigned: counting down from zero aborts the call. */
  function Settled(s: RegistryState, c: Call, id: nat, settledState: Buff): (RegistryState, Response<Request>) {
    if id !in s.requests then (s, Err(ERR_UNKNOWN_REQUEST))
    else if !c.enabled then (s, Err(ERR_UNAUTHORISED))
    else if StateOf(s, id) != REQUESTED then (s, Err(ERR_NOT_PENDING))
    else if settledState != FULFILLED && settledState != RECLAIMED then (s, Err(ERR_NOT_SETTLED_STATE))
    else if s.pending == 0 then (s, Panic)
    else (s.(pending := s.pending - 1, states := s.states[id := settledState]), Ok(s.requests[id]))
  }

  function WalletInserted(s: RegistryState, c: Call, cycle: nat, wallet: Wallet): (RegistryState, Response<bool>) {
    if !c.enabled then (s, Err(ERR_UNAUTHORISED))
    else if wallet in s.walletsCycle || cycle in s.wallets then (s, Err(ERR_SBTC_WALLET_ALREADY_SET))
    else (s.(wallets := s.wallets[cycle := wallet], walletsCycle := s.walletsCycle[wallet := cycle]), Ok(true))
  }

  function WtxidAsserted(s: RegistryState, c: Call, txid: Buff, burnHeight: nat): (RegistryState, Response<bool>) {
    if !c.enabled then (s, Err(ERR_UNAUTHORISED))
    else if |txid| != 32 then (s, Err(ERR_INVALID_TXID_LENGTH))
    else if txid in s.processed then (s, Err(ERR_BURN_TX_ALREADY_PROCESSED))
    else if burnHeight + s.confirmations >= UINT_LIMIT then (s, Panic)
    else if burnHeight + s.confirmations > c.burnHeight then (s, Err(ERR_MINIMUM_CONFIRMATIONS))
    else (s.(processed := s.processed + {txid}), Ok(true))
  }

  function ConfirmationsSet(s: RegistryState, c: Call, minimum: nat): (RegistryState, Response<bool>) {
    if !c.enabled then (s, Err(ERR_UNAUTHORISED))
    else (s.(confirmations := if minimum > 0 then minimum else 1), Ok(true))
  }

  function PegStateSet(s: RegistryState, c: Call, pegState: bool): (RegistryState, Response<bool>) {
    if !c.enabled then (s, Err(ERR_UNAUTHORISED)) else (s.(pegState := pegState), Ok(pegState))
  }

  class SbtcRegistry {
    var nonce: nat
    var pending: nat
    var requests: map<nat, Request>
    var states: map<nat, Buff>
    var confirmations: nat
    var processed: set<Buff>
    var wallets: map<nat, Wallet>
    var walletsCycle: map<Wallet, nat>
    var pegState: bool

    function Value(): RegistryState
      reads this
    {
      RegistryState(nonce, pending, requests, states, confirmations, processed, wallets, walletsCycle, pegState)
    }

    constructor ()
      ensures Value() == EMPTY_REGISTRY
      ensures nonce == 0 && pending == 0 && requests == map[] && states == map[]
      ensures confirmations == 4 && processed == {} && wallets == map[] && walletsCycle == map[] && pegState
    {
      nonce, pending, requests, states := 0, 0, map[], map[];
      confirmations, processed, wallets, walletsCycle, pegState := 4, {}, map[], map[], true;
    }

    method Restore(s: RegistryState)
      modifies this
      ensures Value() == s
    {
      nonce, pending, requests, states := s.nonce, s.pending, s.requests, s.states;
      confirmations, processed, wallets, walletsCycle, pegState :=
        s.confirmations, s.processed, s.wallets, s.walletsCycle, s.pegState;
    }

    method InsertWithdrawalRequest(c: Call, value: nat, sender: Principal, expiry: nat, destination: Wallet,
                                   extraData: Buff) returns (r: Response<nat>)
      modifies this
      ensures (Value(), r) == Inserted(old(Value()), c, value, sender, expiry, destination, extraData)
      ensures r == if c.enabled then Ok(old(nonce)) else Err(ERR_UNAUTHORISED)
      ensures r.Ok? ==>
                && nonce == old(nonce) + 1 && pending == old(pending) + 1
                && requests == old(requests)[old(nonce) := Request(value, sender, destination, extraData, c.burnHeight, expiry)]
      ensures !r.Ok? ==> Value() == old(Value())
    {
      var id := nonce;
      if !c.enabled {
        return Err(ERR_UNAUTHORISED);
      }
      requests := requests[id := Request(value, sender, destination, extraData, c.burnHeight, expiry)];
      nonce := id + 1;
      pending := pending + 1;
      return Ok(id);
    }

    method GetAndSettlePendingWithdrawalRequest(c: Call, id: nat, settledState: Buff) returns (r: Response<Request>)
      modifies this
      ensures (Value(), r) == Settled(old(Value()), c, id, settledState)
      ensures r.Ok? ==>
                && c.enabled && id in requests && r.value == requests[id] && requests == old(requests)
                && (id in old(states) ==> old(states)[id] == REQUESTED)
                && states == old(states)[id := settledState] && pending == old(pending) - 1
      ensures !r.Ok? ==> Value() == old(Value())
    {
      if id !in requests {
        return Err(ERR_UNKNOWN_REQUEST);
      }
      var request := requests[id];
      if !c.enabled {
        return Err(ERR_UNAUTHORISED);
      }
      if StateOf(Value(), id) != REQUESTED {
        return Err(ERR_NOT_PENDING);
      }
      if !(settledState == FULFILLED || settledState == RECLAIMED) {
        return Err(ERR_NOT_SETTLED_STATE);
      }
      if pending == 0 {
        return Panic;
      }
      pending := pending - 1;
      states := states[id := settledState];
      return Ok(request);
    }

    /** The first map is written before the second is looked at. */
    method InsertCycleSbtcWallet(c: Call, cycle: nat, wallet: Wallet) returns (r: Response<bool>)
      modifies this
      ensures (Value(), r) == WalletInserted(old(Value()), c, cycle, wallet)
      ensures r.Ok? <==> c.enabled && cycle !in old(wallets) && wallet !in old(walletsCycle)
      ensures r.Ok? ==> wallets == old(wallets)[cycle := wallet] && walletsCycle == old(walletsCycle)[wallet := cycle]
      ensures !r.Ok? ==> Value() == old(Value())
    {
      var start := Value();
      if !c.enabled {
        return Err(ERR_UNAUTHORISED);
      }
      if wallet in walletsCycle {
        return Err(ERR_SBTC_WALLET_ALREADY_SET);
      }
      walletsCycle := walletsCycle[wallet := cycle];
      if cycle in wallets {
        Restore(start);
        return Err(ERR_SBTC_WALLET_ALREADY_SET);
      }
      wallets := wallets[cycle := wallet];
      return Ok(true);
    }

    /** The id is marked as processed before the height is looked at. */
    method AssertNewBurnWtxidAndHeight(c: Call, txid: Buff, burnHeight: nat) returns (r: Response<bool>)
      modifies this
      ensures (Value(), r) == WtxidAsserted(old(Value()), c, txid, burnHeight)
      ensures r.Ok? <==>
                && c.enabled && |txid| == 32 && txid !in old(processed)
                && burnHeight + confirmations < UINT_LIMIT && burnHeight + confirmations <= c.burnHeight
      ensures processed == if r.Ok? then old(processed) + {txid} else old(processed)
      ensures Value().(processed := old(processed)) == old(Value())
    {
      var start := Value();
      if !c.enabled {
        return Err(ERR_UNAUTHORISED);
      }
      if |txid| != 32 {
        return Err(ERR_INVALID_TXID_LENGTH);
      }
      if txid in processed {
        return Err(ERR_BURN_TX_ALREADY_PROCESSED);
      }
      processed := processed + {txid};
      if burnHeight + confirmations >= UINT_LIMIT {
        Restore(start);
        return Panic;
      }
      if burnHeight + confirmations > c.burnHeight {
        Restore(start);
        return Err(ERR_MINIMUM_CONFIRMATIONS);
      }
      return Ok(true);
    }

    method SetBurnchainConfirmationsRequired(c: Call, minimum: nat) returns (r: Response<bool>)
      modifies this
      ensures (Value(), r) == ConfirmationsSet(old(Value()), c, minimum)
      ensures r.Ok? <==> c.enabled
      ensures r.Ok? ==> minimum <= confirmations && 0 < confirmations && (0 < minimum ==> confirmations == minimum)
    {
      if !c.enabled {
        return Err(ERR_UNAUTHORISED);
      }
      confirmations := if minimum > 0 then minimum else 1;
      return Ok(true);
    }

    method SetPegState(c: Call, newState: bool) returns (r: Response<bool>)
      modifies this
      ensures (Value(), r) == PegStateSet(old(Value()), c, newState)
      ensures r == if c.enabled then Ok(newState) else Err(ERR_UNAUTHORISED)
      ensures pegState == if c.enabled then newState else old(pegState)
    {
      if !c.enabled {
        return Err(ERR_UNAUTHORISED);
      }
      pegState := newState;
      return Ok(newState);
    }
  }

  // --- Helpers ---

  const OP_0: Byte := 0x00
  const OP_1: Byte := 0x51
  const VERSION_P2WPKH: Buff := [4]
  const VERSION_P2WSH: Buff := [5]
  const VERSION_P2TR: Buff := [6]

  /** `hashbytes-to-scriptpubkey`: the version opcode, the length byte and the bytes. */
  function ScriptPubKey(wallet: Wallet): Option<Buff> {
    if wallet.version !in {VERSION_P2WPKH, VERSION_P2WSH, VERSION_P2TR} then None
    else Some([if wallet.version == VERSION_P2TR then OP_1 else OP_0, |wallet.hashbytes| % 256] + wallet.hashbytes)
  }

  /** What the outputs with a given script are worth. */
  function PaidTo(outs: seq<TxParser.TxOut>, script: Buff): nat {
    if outs == [] then 0
    else (if outs[0].scriptPubKey == script then outs[0].value else 0) + PaidTo(outs[1..], script)
  }

  /** `was-segwit-tx-mined`: the proof is checked, then the transaction is parsed. */
  function MinedTx(chain: Chain, burnHeight: nat, tx: Buff, header: Buff, p: Spv.SegwitProof)
    : Response<(seq<TxParser.TxOut>, Merkle.Hash)>
  {
    var _ :- Spv.WasSegwitTxMinedCompact(chain.sha, chain.headers, burnHeight, tx, header, p);
    var parsed :- TxParser.ParseWtx(tx);
    Ok((parsed.outs, Spv.ReversedHash(Merkle.DSha(chain.sha, tx))))
  }

  lemma MinedFirst(chain: Chain, burnHeight: nat, tx: Buff, header: Buff, p: Spv.SegwitProof)
    ensures MinedTx(chain, burnHeight, tx, header, p).Ok? ==>
              Spv.WasSegwitTxMinedCompact(chain.sha, chain.headers, burnHeight, tx, header, p).Ok?
  {
    hide Spv.WasSegwitTxMinedCompact, TxParser.ParseWtx;
  }

  // --- The contracts around it ---

  /** `allowances` says how much an operator may ask for in the name of a sender. */
  datatype State = State(registry: RegistryState, token: TokenState, allowances: map<(Principal, Principal), nat>)

  const MAX_UINT: nat := UINT_LIMIT - 1
  const LOCK_TIME: nat := 2100

  datatype Withdrawal = Withdrawal(operator: Principal, amount: nat, sender: Principal, destination: Wallet)

  function Allowance(allowances: map<(Principal, Principal), nat>, sender: Principal, operator: Principal): nat {
    if (sender, operator) in allowances then allowances[(sender, operator)] else 0
  }

  /** What `is-allowed-operator-and-deduct` leaves: the largest allowance is unlimited. */
  function Deducted(allowances: map<(Principal, Principal), nat>, w: Withdrawal): Option<map<(Principal, Principal), nat>> {
    var allowance := Allowance(allowances, w.sender, w.operator);
    if w.sender == w.operator then Some(allowances)
    else if allowance < w.amount then None
    else if allowance < MAX_UINT then Some(allowances[(w.sender, w.operator) := allowance - w.amount])
    else Some(allowances)
  }

  function AllowanceSet(s: State, owner: Principal, operator: Principal, allowance: nat): (State, Response<bool>) {
    if owner == operator then (s, Err(ERR_ALLOWANCE_FOR_SELF))
    else (s.(allowances := s.allowances[(owner, operator) := allowance]), Ok(true))
  }

  /** `request-withdrawal`. The insertion cannot fail: the token has just accepted the same
      calling contract. */
  function Requested(s: State, c: Call, w: Withdrawal): (State, Response<nat>) {
    var deducted := Deducted(s.allowances, w);
    if deducted == None then (s, Err(ERR_OPERATOR_NOT_ALLOWED))
    else if ScriptPubKey(w.destination) == None then (s, Err(ERR_REQUEST_DESTINATION))
    else
      var (token, locked) := ProtocolLocked(s.token, c, w.amount, w.sender);
      if !locked.Ok? then (s, Err(ERR_TOKEN_LOCK_FAILED))
      else if c.burnHeight + LOCK_TIME >= UINT_LIMIT then (s, Panic)
      else
        var (registry, r) := Inserted(s.registry, c, w.amount, w.sender, c.burnHeight + LOCK_TIME, w.destination, []);
        if r.Ok? then (State(registry, token, deducted.value), r) else (s, r)
  }

  class SbtcWithdrawalRequestStx {
    const registry: SbtcRegistry
    const token: SbtcToken
    var allowances: map<(Principal, Principal), nat>

    constructor (registry: SbtcRegistry, token: SbtcToken)
      ensures this.registry == registry && this.token == token && allowances == map[]
    {
      this.registry, this.token, allowances := registry, token, map[];
    }

    ghost function Value(): State
      reads this, registry, token
    {
      State(registry.Value(), token.Value(), allowances)
    }

    method SetAllowance(owner: Principal, operator: Principal, allowance: nat) returns (r: Response<bool>)
      modifies this
      ensures (Value(), r) == AllowanceSet(old(Value()), owner, operator, allowance)
      ensures r.Ok? <==> owner != operator
      ensures r.Ok? ==> allowances == old(allowances)[(owner, operator) := allowance]
    {
      if owner == operator {
        return Err(ERR_ALLOWANCE_FOR_SELF);
      }
      allowances := allowances[(owner, operator) := allowance];
      return Ok(true);
    }

    method IsAllowedOperatorAndDeduct(w: Withdrawal) returns (allowed: bool)
      modifies `allowances
      ensures match Deducted(old(allowances), w)
              case None => !allowed && allowances == old(allowances)
              case Some(deducted) => allowed && allowances == deducted
    {
      if w.sender == w.operator {
        return true;
      }
      var allowance := Allowance(allowances, w.sender, w.operator);
      if allowance < w.amount {
        return false;
      }
      if allowance < MAX_UINT {
        allowances := allowances[(w.sender, w.operator) := allowance - w.amount];
      }
      return true;
    }

    method RequestWithdrawal(c: Call, w: Withdrawal) returns (r: Response<nat>)
      modifies this, registry, token
      ensures (Value(), r) == Requested(old(Value()), c, w)
      ensures r.Ok? ==>
                && Moves(old(token.liquid), token.liquid, w.sender, -(w.amount as int))
                && Moves(old(token.locked), token.locked, w.sender, w.amount)
    {
      var startAllowances, startToken := allowances, token.Value();
      var allowed := IsAllowedOperatorAndDeduct(w);
      if !allowed {
        return Err(ERR_OPERATOR_NOT_ALLOWED);
      }
      if ScriptPubKey(w.destination) == None {
        allowances := startAllowances;
        return Err(ERR_REQUEST_DESTINATION);
      }
      var locked := token.ProtocolLock(c, w.amount, w.sender);
      if !locked.Ok? {
        allowances := startAllowances;
        return Err(ERR_TOKEN_LOCK_FAILED);
      }
      if c.burnHeight + LOCK_TIME >= UINT_LIMIT {
        allowances := startAllowances;
        token.Restore(startToken);
        return Panic;
      }
      r := registry.InsertWithdrawalRequest(c, w.amount, w.sender, c.burnHeight + LOCK_TIME, w.destination, []);
    }
  }

  /** A request made on the burnchain: the witness id of its transaction if that was mined,
      and what its unlock script says. */
  datatype BtcRequest = BtcRequest(mined: Response<Buff>, burnHeight: nat, amount: nat, sender: Principal,
                                   destination: Wallet, expiry: nat, script: Buff)

  /** `register-withdrawal-request`. */
  function Registered(s: State, c: Call, q: BtcRequest): (State, Response<nat>) {
    if !q.mined.Ok? then (s, q.mined.PropagateFailure())
    else
      var (marked, fresh_) := WtxidAsserted(s.registry, c, q.mined.value, q.burnHeight);
      if !fresh_.Ok? then (s, fresh_.PropagateFailure())
      else if c.burnHeight + LOCK_TIME >= UINT_LIMIT then (s, Panic)
      else if q.expiry < c.burnHeight + LOCK_TIME then (s, Err(ERR_UNACCEPTABLE_EXPIRY))
      else
        var (token, locked) := ProtocolLocked(s.token, c, q.amount, q.sender);
        if !locked.Ok? then (s, Err(ERR_BTC_LOCK_FAILED))
        else
          var (registry, r) := Inserted(marked, c, q.amount, q.sender, q.expiry, q.destination, q.script);
          if r.Ok? then (s.(registry := registry, token := token), r) else (s, r)
  }

  method RegisterWithdrawalRequest(registry: SbtcRegistry, token: SbtcToken,
                                   ghost allowances: map<(Principal, Principal), nat>, c: Call, q: BtcRequest)
    returns (r: Response<nat>)
    modifies registry, token
    ensures (State(registry.Value(), token.Value(), allowances), r)
         == Registered(old(State(registry.Value(), token.Value(), allowances)), c, q)
    ensures r.Ok? ==>
              && Moves(old(token.liquid), token.liquid, q.sender, -(q.amount as int))
              && Moves(old(token.locked), token.locked, q.sender, q.amount)
  {
    var start := registry.Value();
    if !q.mined.Ok? {
      return q.mined.PropagateFailure();
    }
    var marked := registry.AssertNewBurnWtxidAndHeight(c, q.mined.value, q.burnHeight);
    if !marked.Ok? {
      return marked.PropagateFailure();
    }
    if c.burnHeight + LOCK_TIME >= UINT_LIMIT {
      registry.Restore(start);
      return Panic;
    }
    if q.expiry < c.burnHeight + LOCK_TIME {
      registry.Restore(start);
      return Err(ERR_UNACCEPTABLE_EXPIRY);
    }
    var locked := token.ProtocolLock(c, q.amount, q.sender);
    if !locked.Ok? {
      registry.Restore(start);
      return Err(ERR_BTC_LOCK_FAILED);
    }
    r := registry.InsertWithdrawalRequest(c, q.amount, q.sender, q.expiry, q.destination, q.script);
  }

  function Reclaimed(s: State, c: Call, id: nat): (State, Response<bool>) {
    var (registry, request) := Settled(s.registry, c, id, RECLAIMED);
    match request
    case Err(e) => (s, Err(e))
    case Panic => (s, Panic)
    case Ok(q) =>
      if q.expiryBurnHeight > c.burnHeight then (s, Err(ERR_NOT_EXPIRED))
      else
        var (token, r) := ProtocolUnlocked(s.token, c, q.value, q.sender);
        if r.Ok? then (s.(registry := registry, token := token), r) else (s, r)
  }

  /** `reclaim-locked-tokens` settles first and checks the expiry afterwards. */
  method ReclaimLockedTokens(registry: SbtcRegistry, token: SbtcToken,
                             ghost allowances: map<(Principal, Principal), nat>, c: Call, id: nat)
    returns (r: Response<bool>)
    modifies registry, token
    ensures (State(registry.Value(), token.Value(), allowances), r)
         == Reclaimed(old(State(registry.Value(), token.Value(), allowances)), c, id)
    ensures r.Ok? ==>
              && id in registry.requests
              && var q := registry.requests[id];
                 && q.expiryBurnHeight <= c.burnHeight
                 && Moves(old(token.liquid), token.liquid, q.sender, q.value)
                 && Moves(old(token.locked), token.locked, q.sender, -(q.value as int))
  {
    var start, startToken := registry.Value(), token.Value();
    var request := registry.GetAndSettlePendingWithdrawalRequest(c, id, RECLAIMED);
    if !request.Ok? {
      return request.PropagateFailure();
    }
    if request.value.expiryBurnHeight > c.burnHeight {
      registry.Restore(start);
      return Err(ERR_NOT_EXPIRED);
    }
    r := token.ProtocolUnlock(c, request.value.value, request.value.sender);
    if !r.Ok? {
      registry.Restore(start);
      token.Restore(startToken);
    }
  }

  datatype Fulfilment = Fulfilment(id: nat, burnHeight: nat, tx: Buff, header: Buff, proof: Spv.SegwitProof)

  function Mined(c: Call, f: Fulfilment): Response<(seq<TxParser.TxOut>, Merkle.Hash)> {
    MinedTx(c.chain, f.burnHeight, f.tx, f.header, f.proof)
  }

  function Fulfilled(s: State, c: Call, f: Fulfilment): (State, Response<bool>) {
    var mined := Mined(c, f);
    if !mined.Ok? then (s, mined.PropagateFailure())
    else
      var (settled, request) := Settled(s.registry, c, f.id, FULFILLED);
      match request
      case Err(e) => (s, Err(e))
      case Panic => (s, Panic)
      case Ok(q) =>
        var script := ScriptPubKey(q.destination);
        if script == None then (s, Err(ERR_INVALID_DESTINATION))
        else
          var (registry, fresh_) := WtxidAsserted(settled, c, mined.value.1, f.burnHeight);
          if !fresh_.Ok? then (s, fresh_)
          else if q.burnHeight <= f.burnHeight then (s, Err(ERR_OLD_BURNCHAIN_TRANSACTION))
          else if PaidTo(mined.value.0, script.value) < q.value then (s, Err(ERR_WRONG_VALUE))
          else
            var (token, r) := ProtocolBurned(s.token, c, q.value, q.sender);
            if r.Ok? then (s.(registry := registry, token := token), r) else (s, r)
  }

  method RelayWithdrawalFulfilment(registry: SbtcRegistry, token: SbtcToken,
                                   ghost allowances: map<(Principal, Principal), nat>, c: Call, f: Fulfilment)
    returns (r: Response<bool>)
    modifies registry, token
    ensures (State(registry.Value(), token.Value(), allowances), r)
         == Fulfilled(old(State(registry.Value(), token.Value(), allowances)), c, f)
    ensures r.Ok? ==>
              Spv.WasSegwitTxMinedCompact(c.chain.sha, c.chain.headers, f.burnHeight, f.tx, f.header, f.proof).Ok?
    ensures r.Ok? ==>
              && f.id in registry.requests && token.liquid == old(token.liquid)
              && var q := registry.requests[f.id];
                 && f.burnHeight < q.burnHeight && Moves(old(token.locked), token.locked, q.sender, -(q.value as int))
  {
    hide MinedTx, PaidTo, Spv.WasSegwitTxMinedCompact;
    MinedFirst(c.chain, f.burnHeight, f.tx, f.header, f.proof);
    var start, startToken := registry.Value(), token.Value();
    var mined := Mined(c, f);
    if !mined.Ok? {
      return mined.PropagateFailure();
    }
    var (outs, wtxid) := mined.value;
    var request := registry.GetAndSettlePendingWithdrawalRequest(c, f.id, FULFILLED);
    if !request.Ok? {
      return request.PropagateFailure();
    }
    var script := ScriptPubKey(request.value.destination);
    if script == None {
      registry.Restore(start);
      return Err(ERR_INVALID_DESTINATION);
    }
    r := registry.AssertNewBurnWtxidAndHeight(c, wtxid, f.burnHeight);
    if !r.Ok? {
      registry.Restore(start);
      return;
    }
    if request.value.burnHeight <= f.burnHeight {
      registry.Restore(start);
      return Err(ERR_OLD_BURNCHAIN_TRANSACTION);
    }
    if PaidTo(outs, script.value) < request.value.value {
      registry.Restore(start);
      return Err(ERR_WRONG_VALUE);
    }
    r := token.ProtocolBurnLocked(c, request.value.value, request.value.sender);
    if !r.Ok? {
      registry.Restore(start);
      token.Restore(startToken);
    }
  }

  // --- Runs ---

  /** Calls to the contracts; direct calls to the registry; and anything that changes the
      balances of the liquid token. */
  datatype Event =
    | RequestCall(w: Withdrawal)
    | RegisterCall(q: BtcRequest)
    | ReclaimCall(id: nat)
    | FulfilCall(f: Fulfilment)
    | AllowanceCall(owner: Principal, operator: Principal, allowance: nat)
    | InsertCall(value: nat, sender: Principal, expiry: nat, destination: Wallet, extraData: Buff)
    | SettleCall(id: nat, settledState: Buff)
    | WalletCall(cycle: nat, wallet: Wallet)
    | WtxidCall(txid: Buff, burnHeight: nat)
    | ConfirmationsCall(minimum: nat)
    | PegStateCall(pegState: bool)
    | LiquidChange(liquid: map<Principal, nat>)

  /** The contracts' state with the record of what was reclaimed and fulfilled and of which
      burnchain transactions were accepted. */
  datatype System = System(state: State, unlocked: nat, burned: nat, accepted: seq<Buff>)

  function Start(liquid: map<Principal, nat>): System {
    System(State(EMPTY_REGISTRY, TokenState(liquid, map[]), map[]), 0, 0, [])
  }

  function ValueOf(s: RegistryState, id: nat): nat {
    if id in s.requests then s.requests[id].value else 0
  }

  /** Whether a call succeeded, without what it returned. */
  function Outcome<T>(r: Response<T>): Response<bool> {
    if r.Ok? then Ok(true) else r.PropagateFailure()
  }

  function Next(sys: System, c: Call, ev: Event): (System, Response<bool>) {
    var s := sys.state;
    match ev
    case RequestCall(w) =>
      var (next, r) := Requested(s, c, w);
      (sys.(state := next), Outcome(r))
    case RegisterCall(q) =>
      var (next, r) := Registered(s, c, q);
      (sys.(state := next, accepted := if r.Ok? then sys.accepted + [q.mined.value] else sys.accepted), Outcome(r))
    case ReclaimCall(id) =>
      var (next, r) := Reclaimed(s, c, id);
      (sys.(state := next, unlocked := sys.unlocked + if r.Ok? then ValueOf(s.registry, id) else 0), r)
    case FulfilCall(f) =>
      var (next, r) := Fulfilled(s, c, f);
      (sys.(state := next,
            burned := sys.burned + (if r.Ok? then ValueOf(s.registry, f.id) else 0),
            accepted := if r.Ok? then sys.accepted + [Mined(c, f).value.1] else sys.accepted), r)
    case AllowanceCall(owner, operator, allowance) =>
      var (next, r) := AllowanceSet(s, owner, operator, allowance);
      (sys.(state := next), r)
    case InsertCall(value, sender, expiry, destination, extraData) =>
      var (next, r) := Inserted(s.registry, c, value, sender, expiry, destination, extraData);
      (sys.(state := s.(registry := next)), Outcome(r))
    case SettleCall(id, settledState) =>
      var (next, r) := Settled(s.registry, c, id, settledState);
      (sys.(state := s.(registry := next)), Outcome(r))
    case WalletCall(cycle, wallet) =>
      var (next, r) := WalletInserted(s.registry, c, cycle, wallet);
      (sys.(state := s.(registry := next)), r)
    case WtxidCall(txid, burnHeight) =>
      var (next, r) := WtxidAsserted(s.registry, c, txid, burnHeight);
      (sys.(state := s.(registry := next), accepted := if r.Ok? then sys.accepted + [txid] else sys.accepted), r)
    case ConfirmationsCall(minimum) =>
      var (next, r) := ConfirmationsSet(s.registry, c, minimum);
      (sys.(state := s.(registry := next)), r)
    case PegStateCall(pegState) =>
      var (next, r) := PegStateSet(s.registry, c, pegState);
      (sys.(state := s.(registry := next)), r)
    case LiquidChange(liquid) =>
      (sys.(state := s.(token := s.token.(liquid := liquid))), Ok(true))
  }

  function Run(sys: System, events: seq<(Call, Event)>): System
    decreases |events|
  {
    if events == [] then sys else Run(Next(sys, events[0].0, events[0].1).0, events[1..])
  }
}
