/**
 What holds of the registry in every reachable state, whoever calls it, and of the token
 as long as requests are made and settled through the contracts.
 */
module RegistryInvariant {
  import opened Bytes
  import opened Clarity
  import opened Options
  import opened Registry

  // --- Sums over the requests ---

  /** What is summed: the unsettled requests, the value locked for an owner, the value of
      the requests in a given state. */
  datatype Tally = Unsettled | LockedFor(owner: Principal) | InState(state: Buff)

  function Weight(s: RegistryState, id: nat, what: Tally): nat {
    if id !in s.requests then 0
    else
      match what
      case Unsettled => if StateOf(s, id) == REQUESTED then 1 else 0
      case LockedFor(owner) =>
        if StateOf(s, id) == REQUESTED && s.requests[id].sender == owner then s.requests[id].value else 0
      case InState(state) => if StateOf(s, id) == state then s.requests[id].value else 0
  }

  function Total(s: RegistryState, n: nat, what: Tally): nat {
    if n == 0 then 0 else Total(s, n - 1, what) + Weight(s, n - 1, what)
  }

  lemma {:induction false} TotalAgrees(a: RegistryState, b: RegistryState, n: nat, what: Tally)
    requires forall id :: 0 <= id < n ==> Weight(a, id, what) == Weight(b, id, what)
    ensures Total(a, n, what) == Total(b, n, what)
  {
    if n > 0 {
      TotalAgrees(a, b, n - 1, what);
    }
  }

  /** When one request changes, the sum changes by the difference. */
  lemma {:induction false} TotalChanges(a: RegistryState, b: RegistryState, n: nat, id: nat, what: Tally)
    requires id < n && forall j :: 0 <= j < n && j != id ==> Weight(a, j, what) == Weight(b, j, what)
    ensures Total(b, n, what) + Weight(a, id, what) == Total(a, n, what) + Weight(b, id, what)
  {
    if id == n - 1 {
      TotalAgrees(a, b, n - 1, what);
    } else {
      TotalChanges(a, b, n - 1, id, what);
    }
  }

  lemma {:induction false} WeightWithin(s: RegistryState, n: nat, id: nat, what: Tally)
    requires id < n
    ensures Weight(s, id, what) <= Total(s, n, what)
  {
    if id < n - 1 {
      WeightWithin(s, n - 1, id, what);
    }
  }

  // --- The registry ---

  /** The ids in use are those below the nonce, and only requests have a settled state. */
  ghost predicate IdsInv(s: RegistryState) {
    && (forall id: nat :: id in s.requests <==> id < s.nonce)
    && (forall id: nat :: id in s.states ==> id in s.requests && s.states[id] in {FULFILLED, RECLAIMED})
  }

  /** The two wallet maps are inverses of each other. */
  ghost predicate WalletsInv(s: RegistryState) {
    forall cycle: nat, wallet: Wallet ::
      (cycle in s.wallets && s.wallets[cycle] == wallet)
      <==> (wallet in s.walletsCycle && s.walletsCycle[wallet] == cycle)
  }

  ghost predicate AcceptedInv(sys: System) {
    && (forall id: Buff :: id in sys.accepted <==> id in sys.state.registry.processed)
    && (forall i, j :: 0 <= i < j < |sys.accepted| ==> sys.accepted[i] != sys.accepted[j])
  }

  predicate PendingInv(s: RegistryState) {
    s.pending == Total(s, s.nonce, Unsettled)
  }

  ghost predicate Inv(sys: System) {
    && IdsInv(sys.state.registry) && WalletsInv(sys.state.registry) && sys.state.registry.confirmations > 0
    && PendingInv(sys.state.registry) && AcceptedInv(sys)
  }

  lemma LastOf(s: RegistryState, what: Tally)
    requires s.nonce > 0
    ensures Total(s, s.nonce, what) == Total(s, s.nonce - 1, what) + Weight(s, s.nonce - 1, what)
  {
  }

  /** `t` is `s` with one more request. */
  ghost predicate Adds(s: RegistryState, t: RegistryState, q: Request) {
    && t.nonce == s.nonce + 1 && t.states == s.states && t.pending == s.pending + 1
    && t.requests == s.requests[s.nonce := q]
  }

  lemma AddTotals(s: RegistryState, t: RegistryState, q: Request, what: Tally)
    requires IdsInv(s) && Adds(s, t, q)
    ensures StateOf(t, s.nonce) == REQUESTED && t.requests[s.nonce] == q
    ensures Total(t, t.nonce, what) == Total(s, s.nonce, what) + Weight(t, s.nonce, what)
  {
    hide Total;
    TotalAgrees(s, t, s.nonce, what);
    LastOf(t, what);
  }

  lemma AddKeepsInv(s: RegistryState, t: RegistryState, q: Request)
    requires IdsInv(s) && PendingInv(s) && Adds(s, t, q)
    ensures IdsInv(t) && PendingInv(t)
  {
    hide Total;
    AddTotals(s, t, q, Unsettled);
  }

  /** `t` is `s` with one pending request settled. */
  ghost predicate Settles(s: RegistryState, t: RegistryState, id: nat, settledState: Buff) {
    && settledState in {FULFILLED, RECLAIMED}
    && id in s.requests && StateOf(s, id) == REQUESTED
    && t.nonce == s.nonce && t.requests == s.requests && t.states == s.states[id := settledState]
    && t.pending == s.pending - 1
  }

  lemma SettleTotals(s: RegistryState, t: RegistryState, id: nat, settledState: Buff, what: Tally)
    requires IdsInv(s) && Settles(s, t, id, settledState)
    ensures Total(t, t.nonce, what) + Weight(s, id, what) == Total(s, s.nonce, what) + Weight(t, id, what)
  {
    TotalChanges(s, t, s.nonce, id, what);
  }

  lemma SettleKeepsInv(s: RegistryState, t: RegistryState, id: nat, settledState: Buff)
    requires IdsInv(s) && PendingInv(s) && Settles(s, t, id, settledState)
    ensures IdsInv(t) && PendingInv(t)
  {
    hide Total;
    SettleTotals(s, t, id, settledState, Unsettled);
  }

  /** Where the requests stay, so do their sums. */
  ghost predicate SameRequests(s: RegistryState, t: RegistryState) {
    t.nonce == s.nonce && t.requests == s.requests && t.states == s.states && t.pending == s.pending
  }

  lemma SameTotals(s: RegistryState, t: RegistryState, what: Tally)
    requires SameRequests(s, t)
    ensures Total(t, t.nonce, what) == Total(s, s.nonce, what)
  {
    TotalAgrees(s, t, s.nonce, what);
  }

  lemma SameKeepsInv(s: RegistryState, t: RegistryState)
    requires IdsInv(s) && PendingInv(s) && SameRequests(s, t)
    ensures IdsInv(t) && PendingInv(t)
  {
    hide Total;
    SameTotals(s, t, Unsettled);
  }

  lemma PendingPositive(s: RegistryState, id: nat)
    requires IdsInv(s) && PendingInv(s) && id in s.requests && StateOf(s, id) == REQUESTED
    ensures s.pending > 0
  {
    hide Total;
    WeightWithin(s, s.nonce, id, Unsettled);
  }

  /** No call in a reachable state makes the counter underflow. */
  lemma NeverUnderflows(sys: System, c: Call, id: nat, settledState: Buff)
    requires Inv(sys)
    ensures Settled(sys.state.registry, c, id, settledState).1 != Panic
  {
    hide Total;
    if id in sys.state.registry.requests && StateOf(sys.state.registry, id) == REQUESTED {
      PendingPositive(sys.state.registry, id);
    }
  }

  // --- What each call does to the requests ---

  datatype Effect = Nothing | Added(request: Request) | Settling(id: nat, settledState: Buff)

  ghost predicate Has(s: RegistryState, t: RegistryState, e: Effect) {
    match e
    case Nothing => SameRequests(s, t)
    case Added(q) => Adds(s, t, q)
    case Settling(id, settledState) => Settles(s, t, id, settledState)
  }

  /** What a successful call does to the requests, and to the accepted transactions. */
  function EffectOf(sys: System, c: Call, ev: Event): Effect {
    match ev
    case RequestCall(w) => Added(Request(w.amount, w.sender, w.destination, [], c.burnHeight, c.burnHeight + LOCK_TIME))
    case RegisterCall(q) => Added(Request(q.amount, q.sender, q.destination, q.script, c.burnHeight, q.expiry))
    case ReclaimCall(id) => Settling(id, RECLAIMED)
    case FulfilCall(f) => Settling(f.id, FULFILLED)
    case InsertCall(value, sender, expiry, destination, extraData) =>
      Added(Request(value, sender, destination, extraData, c.burnHeight, expiry))
    case SettleCall(id, settledState) => Settling(id, settledState)
    case _ => Nothing
  }

  function AcceptedBy(c: Call, ev: Event): Option<Buff> {
    match ev
    case RegisterCall(q) => if q.mined.Ok? then Some(q.mined.value) else None
    case FulfilCall(f) => if Mined(c, f).Ok? then var id: Buff := Mined(c, f).value.1; Some(id) else None
    case WtxidCall(txid, _) => Some(txid)
    case _ => None
  }

  lemma SettledHas(s: RegistryState, c: Call, id: nat, settledState: Buff)
    ensures var (t, r) := Settled(s, c, id, settledState);
            if r.Ok? then Settles(s, t, id, settledState) && t.processed == s.processed else t == s
    ensures var (t, r) := Settled(s, c, id, settledState);
            t.wallets == s.wallets && t.walletsCycle == s.walletsCycle && t.confirmations == s.confirmations
  {
  }

  lemma AssertedHas(s: RegistryState, c: Call, txid: Buff, burnHeight: nat)
    ensures var (t, r) := WtxidAsserted(s, c, txid, burnHeight);
            && t == s.(processed := t.processed)
            && (if r.Ok? then t.processed == s.processed + {txid} && txid !in s.processed else t == s)
  {
  }

  lemma WalletHas(s: RegistryState, c: Call, cycle: nat, wallet: Wallet)
    requires WalletsInv(s)
    ensures var (t, r) := WalletInserted(s, c, cycle, wallet);
            WalletsInv(t) && t == s.(wallets := t.wallets, walletsCycle := t.walletsCycle) && (!r.Ok? ==> t == s)
  {
  }

  /** Everything a call does to the registry besides the wallets and the settings. */
  ghost predicate StepHas(sys: System, c: Call, ev: Event) {
    var (next, r) := Next(sys, c, ev);
    var s, t := sys.state.registry, next.state.registry;
    if !r.Ok? then next == sys
    else
      && Has(s, t, EffectOf(sys, c, ev))
      && match AcceptedBy(c, ev)
         case None => t.processed == s.processed && next.accepted == sys.accepted
         case Some(id) => id !in s.processed && t.processed == s.processed + {id} && next.accepted == sys.accepted + [id]
  }

  lemma FulfilHas(sys: System, c: Call, f: Fulfilment)
    ensures StepHas(sys, c, FulfilCall(f))
    ensures Next(sys, c, FulfilCall(f)).0.state.registry.(requests := map[], states := map[], pending := 0, processed := {})
         == sys.state.registry.(requests := map[], states := map[], pending := 0, processed := {})
  {
    hide Settled, WtxidAsserted, Mined, ProtocolBurned, PaidTo, ScriptPubKey;
    if Mined(c, f).Ok? {
      var s := sys.state.registry;
      SettledHas(s, c, f.id, FULFILLED);
      var settled := Settled(s, c, f.id, FULFILLED).0;
      AssertedHas(settled, c, Mined(c, f).value.1, f.burnHeight);
      SettledRest(s, c, f.id, FULFILLED);
    }
  }

  lemma SettledRest(s: RegistryState, c: Call, id: nat, settledState: Buff)
    ensures var t := Settled(s, c, id, settledState).0; t == s.(pending := t.pending, states := t.states)
  {
  }

  lemma RegisterHas(sys: System, c: Call, q: BtcRequest)
    ensures StepHas(sys, c, RegisterCall(q))
  {
    hide WtxidAsserted, ProtocolLocked;
    if q.mined.Ok? {
      AssertedHas(sys.state.registry, c, q.mined.value, q.burnHeight);
    }
  }

  lemma EveryStepHas(sys: System, c: Call, ev: Event)
    ensures StepHas(sys, c, ev)
  {
    hide Settled, WtxidAsserted, WalletInserted, Fulfilled, Registered, ProtocolLocked, ProtocolUnlocked;
    var s := sys.state.registry;
    match ev
    case FulfilCall(f) => FulfilHas(sys, c, f);
    case RegisterCall(q) => RegisterHas(sys, c, q);
    case ReclaimCall(id) => SettledHas(s, c, id, RECLAIMED);
    case SettleCall(id, settledState) => SettledHas(s, c, id, settledState);
    case WtxidCall(txid, burnHeight) => AssertedHas(s, c, txid, burnHeight);
    case WalletCall(cycle, wallet) => WalletSame(s, c, cycle, wallet);
    case _ =>
  }

  lemma WalletSame(s: RegistryState, c: Call, cycle: nat, wallet: Wallet)
    ensures var (t, r) := WalletInserted(s, c, cycle, wallet);
            SameRequests(s, t) && t.processed == s.processed && (!r.Ok? ==> t == s)
  {
  }

  lemma StepWallets(sys: System, c: Call, ev: Event)
    requires WalletsInv(sys.state.registry) && sys.state.registry.confirmations > 0
    ensures WalletsInv(Next(sys, c, ev).0.state.registry) && Next(sys, c, ev).0.state.registry.confirmations > 0
  {
    hide Settled, WtxidAsserted, WalletInserted, WalletsInv, Fulfilled, Registered, ProtocolLocked, ProtocolUnlocked;
    var s := sys.state.registry;
    match ev
    case WalletCall(cycle, wallet) => WalletHas(s, c, cycle, wallet);
    case FulfilCall(f) =>
      FulfilHas(sys, c, f);
      SameWallets(s, Next(sys, c, ev).0.state.registry);
    case RegisterCall(q) =>
      RegisterWallets(sys, c, q);
      SameWallets(s, Next(sys, c, ev).0.state.registry);
    case ReclaimCall(id) =>
      SettledHas(s, c, id, RECLAIMED);
      SameWallets(s, Next(sys, c, ev).0.state.registry);
    case SettleCall(id, settledState) =>
      SettledHas(s, c, id, settledState);
      SameWallets(s, Next(sys, c, ev).0.state.registry);
    case WtxidCall(txid, burnHeight) =>
      AssertedHas(s, c, txid, burnHeight);
      SameWallets(s, Next(sys, c, ev).0.state.registry);
    case _ => SameWallets(s, Next(sys, c, ev).0.state.registry);
  }

  lemma RegisterWallets(sys: System, c: Call, q: BtcRequest)
    ensures var s, t := sys.state.registry, Next(sys, c, RegisterCall(q)).0.state.registry;
            t.wallets == s.wallets && t.walletsCycle == s.walletsCycle && t.confirmations == s.confirmations
  {
    hide WtxidAsserted, ProtocolLocked;
    if q.mined.Ok? {
      AssertedHas(sys.state.registry, c, q.mined.value, q.burnHeight);
    }
  }

  lemma SameWallets(s: RegistryState, t: RegistryState)
    requires WalletsInv(s) && t.wallets == s.wallets && t.walletsCycle == s.walletsCycle
    ensures WalletsInv(t)
  {
  }

  lemma HasKeepsInv(s: RegistryState, t: RegistryState, e: Effect)
    requires IdsInv(s) && PendingInv(s) && Has(s, t, e)
    ensures IdsInv(t) && PendingInv(t)
  {
    hide IdsInv, PendingInv, SameRequests, Adds, Settles;
    match e
    case Nothing => SameKeepsInv(s, t);
    case Added(q) => AddKeepsInv(s, t, q);
    case Settling(id, settledState) => SettleKeepsInv(s, t, id, settledState);
  }

  /** Every call by anybody keeps the registry's invariant. */
  lemma StepKeepsInv(sys: System, c: Call, ev: Event)
    requires Inv(sys)
    ensures Inv(Next(sys, c, ev).0)
  {
    hide Next, EffectOf, AcceptedBy, Has, IdsInv, WalletsInv, PendingInv;
    var next := Next(sys, c, ev).0;
    EveryStepHas(sys, c, ev);
    StepWallets(sys, c, ev);
    if Next(sys, c, ev).1.Ok? {
      HasKeepsInv(sys.state.registry, next.state.registry, EffectOf(sys, c, ev));
    }
  }

  lemma StartInv(liquid: map<Principal, nat>)
    ensures Inv(Start(liquid))
  {
  }

  lemma {:induction false} RunKeepsInv(sys: System, events: seq<(Call, Event)>)
    requires Inv(sys)
    ensures Inv(Run(sys, events))
    decreases |events|
  {
    hide Inv, Next;
    if events != [] {
      StepKeepsInv(sys, events[0].0, events[0].1);
      RunKeepsInv(Next(sys, events[0].0, events[0].1).0, events[1..]);
    }
  }

  /** In every reachable state, whoever called what: the ids are those below the nonce, the
      counter is the number of unsettled requests, the wallet maps are inverses, and every
      accepted burnchain transaction was accepted once. */
  lemma EveryRun(liquid: map<Principal, nat>, events: seq<(Call, Event)>)
    ensures var sys := Run(Start(liquid), events);
            var s := sys.state.registry;
            && (forall id: nat :: id in s.requests <==> id < s.nonce)
            && s.pending == Total(s, s.nonce, Unsettled)
            && (forall cycle :: cycle in s.wallets ==>
                  s.wallets[cycle] in s.walletsCycle && s.walletsCycle[s.wallets[cycle]] == cycle)
            && (forall wallet :: wallet in s.walletsCycle ==>
                  s.walletsCycle[wallet] in s.wallets && s.wallets[s.walletsCycle[wallet]] == wallet)
            && (forall i, j :: 0 <= i < j < |sys.accepted| ==> sys.accepted[i] != sys.accepted[j])
            && (forall id: Buff :: id in sys.accepted <==> id in s.processed)
  {
    hide Total, Run;
    StartInv(liquid);
    RunKeepsInv(Start(liquid), events);
    WalletsAreInverse(Run(Start(liquid), events).state.registry);
  }

  lemma WalletsAreInverse(s: RegistryState)
    requires WalletsInv(s)
    ensures forall cycle :: cycle in s.wallets ==>
              s.wallets[cycle] in s.walletsCycle && s.walletsCycle[s.wallets[cycle]] == cycle
    ensures forall wallet :: wallet in s.walletsCycle ==>
              s.walletsCycle[wallet] in s.wallets && s.wallets[s.walletsCycle[wallet]] == wallet
  {
    forall cycle | cycle in s.wallets
      ensures s.wallets[cycle] in s.walletsCycle && s.walletsCycle[s.wallets[cycle]] == cycle
    {
      assert s.wallets[cycle] == s.wallets[cycle];
    }
    forall wallet | wallet in s.walletsCycle
      ensures s.walletsCycle[wallet] in s.wallets && s.wallets[s.walletsCycle[wallet]] == wallet
    {
      assert s.walletsCycle[wallet] == s.walletsCycle[wallet];
    }
  }

  // --- Settled once ---

  /** Once a request is settled no call changes its state, and no call settles it again. */
  lemma {:induction false} SettledOnce(sys: System, events: seq<(Call, Event)>, id: nat)
    requires Inv(sys) && id in sys.state.registry.requests && StateOf(sys.state.registry, id) != REQUESTED
    ensures var end := Run(sys, events).state.registry;
            && id in end.requests && end.requests[id] == sys.state.registry.requests[id]
            && StateOf(end, id) == StateOf(sys.state.registry, id)
    ensures forall c: Call, settledState: Buff ::
              !Settled(Run(sys, events).state.registry, c, id, settledState).1.Ok?
    decreases |events|
  {
    hide Next, Inv, EffectOf, Has;
    if events != [] {
      var (c, ev) := events[0];
      StepKeepsInv(sys, c, ev);
      StepKeepsSettled(sys, c, ev, id);
      SettledOnce(Next(sys, c, ev).0, events[1..], id);
    }
  }

  lemma StepKeepsSettled(sys: System, c: Call, ev: Event, id: nat)
    requires Inv(sys) && id in sys.state.registry.requests && StateOf(sys.state.registry, id) != REQUESTED
    ensures var next := Next(sys, c, ev).0.state.registry;
            && id in next.requests && next.requests[id] == sys.state.registry.requests[id]
            && StateOf(next, id) == StateOf(sys.state.registry, id)
  {
    hide Next, EffectOf, AcceptedBy, PendingInv, WalletsInv, AcceptedInv;
    EveryStepHas(sys, c, ev);
  }

  /** A call that does not return `ok` leaves no trace. */
  lemma FailureLeavesNoTrace(sys: System, c: Call, ev: Event)
    ensures !Next(sys, c, ev).1.Ok? ==> Next(sys, c, ev).0 == sys
  {
    hide Next, EffectOf, AcceptedBy, Has;
    EveryStepHas(sys, c, ev);
  }

  // --- The token ---

  /** Requests are made and settled through the contracts only. */
  predicate ThroughContracts(ev: Event) {
    !ev.InsertCall? && !ev.SettleCall?
  }

  /** Every owner's locked balance is the value of its unsettled requests; what was unlocked
      and burned is the value of what was reclaimed and fulfilled. */
  ghost predicate TokenInv(sys: System) {
    var s := sys.state.registry;
    && (forall id: nat :: id in s.requests ==> s.requests[id].value > 0)
    && (forall owner: Principal :: Balance(sys.state.token.locked, owner) == Total(s, s.nonce, LockedFor(owner)))
    && sys.unlocked == Total(s, s.nonce, InState(RECLAIMED))
    && sys.burned == Total(s, s.nonce, InState(FULFILLED))
  }

  lemma AddKeepsToken(a: System, b: System, q: Request)
    requires IdsInv(a.state.registry) && TokenInv(a) && Adds(a.state.registry, b.state.registry, q) && q.value > 0
    requires b.state.token.locked == Credit(a.state.token.locked, q.sender, q.value)
    requires b.unlocked == a.unlocked && b.burned == a.burned
    ensures TokenInv(b)
  {
    hide Total;
    var s, t := a.state.registry, b.state.registry;
    forall o: Principal
      ensures Balance(b.state.token.locked, o) == Total(t, t.nonce, LockedFor(o))
    {
      AddTotals(s, t, q, LockedFor(o));
      assert Balance(a.state.token.locked, o) == Total(s, s.nonce, LockedFor(o));
      assert Weight(t, s.nonce, LockedFor(o)) == if o == q.sender then q.value else 0;
    }
    AddTotals(s, t, q, InState(RECLAIMED));
    AddTotals(s, t, q, InState(FULFILLED));
  }

  /** Settling moves the value out of the locked balance and into the sum of its state. */
  lemma SettleKeepsToken(a: System, b: System, id: nat, settledState: Buff)
    requires IdsInv(a.state.registry) && TokenInv(a) && Settles(a.state.registry, b.state.registry, id, settledState)
    requires var q := a.state.registry.requests[id];
             && CanBurn(a.state.token.locked, q.sender, q.value)
             && b.state.token.locked == Debit(a.state.token.locked, q.sender, q.value)
             && b.unlocked == a.unlocked + (if settledState == RECLAIMED then q.value else 0)
             && b.burned == a.burned + (if settledState == FULFILLED then q.value else 0)
    ensures TokenInv(b)
  {
    hide Total;
    var s, t := a.state.registry, b.state.registry;
    var q := s.requests[id];
    forall o: Principal
      ensures Balance(b.state.token.locked, o) == Total(t, t.nonce, LockedFor(o))
    {
      SettleTotals(s, t, id, settledState, LockedFor(o));
      assert Balance(a.state.token.locked, o) == Total(s, s.nonce, LockedFor(o));
      assert Weight(s, id, LockedFor(o)) == if o == q.sender then q.value else 0;
      assert Weight(t, id, LockedFor(o)) == 0;
    }
    SettleTotals(s, t, id, settledState, InState(RECLAIMED));
    SettleTotals(s, t, id, settledState, InState(FULFILLED));
    assert Weight(s, id, InState(RECLAIMED)) == 0 && Weight(s, id, InState(FULFILLED)) == 0;
    assert Weight(t, id, InState(RECLAIMED)) == if settledState == RECLAIMED then q.value else 0;
    assert Weight(t, id, InState(FULFILLED)) == if settledState == FULFILLED then q.value else 0;
  }

  lemma SameKeepsToken(a: System, b: System)
    requires TokenInv(a) && SameRequests(a.state.registry, b.state.registry)
    requires b.state.token.locked == a.state.token.locked && b.unlocked == a.unlocked && b.burned == a.burned
    ensures TokenInv(b)
  {
    hide Total;
    var s, t := a.state.registry, b.state.registry;
    forall o: Principal
      ensures Balance(b.state.token.locked, o) == Total(t, t.nonce, LockedFor(o))
    {
      SameTotals(s, t, LockedFor(o));
      assert Balance(a.state.token.locked, o) == Total(s, s.nonce, LockedFor(o));
    }
    SameTotals(s, t, InState(RECLAIMED));
    SameTotals(s, t, InState(FULFILLED));
  }

  /** What an unsettled request needs is there: the counter is positive and its value is
      locked. */
  lemma UnsettledIsLocked(sys: System, id: nat)
    requires IdsInv(sys.state.registry) && PendingInv(sys.state.registry) && TokenInv(sys)
    requires id in sys.state.registry.requests && StateOf(sys.state.registry, id) == REQUESTED
    ensures sys.state.registry.pending > 0
    ensures var q := sys.state.registry.requests[id]; CanBurn(sys.state.token.locked, q.sender, q.value)
  {
    hide Total;
    var s := sys.state.registry;
    PendingPositive(s, id);
    WeightWithin(s, s.nonce, id, LockedFor(s.requests[id].sender));
  }

  /** A reclaim succeeds exactly for an unsettled request that has expired, and never for
      want of locked tokens. */
  lemma ReclaimSucceedsIff(sys: System, c: Call, id: nat)
    requires Inv(sys) && TokenInv(sys)
    ensures var s := sys.state.registry;
            Next(sys, c, ReclaimCall(id)).1 ==
            if id !in s.requests then Err(ERR_UNKNOWN_REQUEST)
            else if !c.enabled then Err(ERR_UNAUTHORISED)
            else if StateOf(s, id) != REQUESTED then Err(ERR_NOT_PENDING)
            else if s.requests[id].expiryBurnHeight > c.burnHeight then Err(ERR_NOT_EXPIRED)
            else Ok(true)
  {
    hide Total;
    if id in sys.state.registry.requests && StateOf(sys.state.registry, id) == REQUESTED {
      UnsettledIsLocked(sys, id);
    }
  }

  /** A fulfilment succeeds exactly for an unsettled request with a mined transaction that is
      new, confirmed, below the height at which the request was made, and pays enough to the
      destination; burning never fails. */
  lemma FulfilOkIff(sys: System, c: Call, f: Fulfilment)
    requires Inv(sys) && TokenInv(sys)
    ensures var s := sys.state.registry;
            Next(sys, c, FulfilCall(f)).1.Ok? <==>
            && Mined(c, f).Ok? && c.enabled
            && f.id in s.requests && StateOf(s, f.id) == REQUESTED
            && Mined(c, f).value.1 !in s.processed
            && f.burnHeight + s.confirmations < UINT_LIMIT && f.burnHeight + s.confirmations <= c.burnHeight
            && f.burnHeight < s.requests[f.id].burnHeight
            && ScriptPubKey(s.requests[f.id].destination).Some?
            && PaidTo(Mined(c, f).value.0, ScriptPubKey(s.requests[f.id].destination).value) >= s.requests[f.id].value
  {
    hide Total, Mined, PaidTo, ScriptPubKey;
    if f.id in sys.state.registry.requests && StateOf(sys.state.registry, f.id) == REQUESTED {
      UnsettledIsLocked(sys, f.id);
    }
  }

  lemma RequestKeepsToken(sys: System, c: Call, w: Withdrawal)
    requires Inv(sys) && TokenInv(sys) && Next(sys, c, RequestCall(w)).1.Ok?
    ensures TokenInv(Next(sys, c, RequestCall(w)).0)
  {
    hide Total, TokenInv, IdsInv, WalletsInv, AcceptedInv, PendingInv, Deducted, ScriptPubKey;
    var next := Next(sys, c, RequestCall(w)).0;
    AddKeepsToken(sys, next, Request(w.amount, w.sender, w.destination, [], c.burnHeight, c.burnHeight + LOCK_TIME));
  }

  lemma RegisterKeepsToken(sys: System, c: Call, q: BtcRequest)
    requires Inv(sys) && TokenInv(sys) && Next(sys, c, RegisterCall(q)).1.Ok?
    ensures TokenInv(Next(sys, c, RegisterCall(q)).0)
  {
    hide Total, TokenInv, IdsInv, WalletsInv, AcceptedInv, PendingInv, WtxidAsserted;
    var next := Next(sys, c, RegisterCall(q)).0;
    AssertedHas(sys.state.registry, c, q.mined.value, q.burnHeight);
    AddKeepsToken(sys, next, Request(q.amount, q.sender, q.destination, q.script, c.burnHeight, q.expiry));
  }

  lemma ReclaimKeepsToken(sys: System, c: Call, id: nat)
    requires Inv(sys) && TokenInv(sys) && Next(sys, c, ReclaimCall(id)).1.Ok?
    ensures TokenInv(Next(sys, c, ReclaimCall(id)).0)
  {
    hide Total, TokenInv, IdsInv, WalletsInv, AcceptedInv, PendingInv;
    UnsettledIsLocked(sys, id);
    SettleKeepsToken(sys, Next(sys, c, ReclaimCall(id)).0, id, RECLAIMED);
  }

  lemma FulfilKeepsToken(sys: System, c: Call, f: Fulfilment)
    requires Inv(sys) && TokenInv(sys) && Next(sys, c, FulfilCall(f)).1.Ok?
    ensures TokenInv(Next(sys, c, FulfilCall(f)).0)
  {
    hide Total, TokenInv, IdsInv, WalletsInv, AcceptedInv, PendingInv, Mined, PaidTo, ScriptPubKey, WtxidAsserted, Settled;
    SettledHas(sys.state.registry, c, f.id, FULFILLED);
    UnsettledIsLocked(sys, f.id);
    AssertedHas(Settled(sys.state.registry, c, f.id, FULFILLED).0, c, Mined(c, f).value.1, f.burnHeight);
    SettledReturns(sys.state.registry, c, f.id, FULFILLED);
    SettleKeepsToken(sys, Next(sys, c, FulfilCall(f)).0, f.id, FULFILLED);
  }

  lemma SettledReturns(s: RegistryState, c: Call, id: nat, settledState: Buff)
    ensures var r := Settled(s, c, id, settledState).1; r.Ok? ==> id in s.requests && r.value == s.requests[id]
  {
  }

  lemma OtherKeepsToken(sys: System, c: Call, ev: Event)
    requires TokenInv(sys) && ThroughContracts(ev)
    requires !ev.RequestCall? && !ev.RegisterCall? && !ev.ReclaimCall? && !ev.FulfilCall?
    ensures TokenInv(Next(sys, c, ev).0)
  {
    hide Total, TokenInv, WtxidAsserted, WalletInserted;
    if ev.WtxidCall? {
      AssertedHas(sys.state.registry, c, ev.txid, ev.burnHeight);
    } else if ev.WalletCall? {
      WalletSame(sys.state.registry, c, ev.cycle, ev.wallet);
    }
    SameKeepsToken(sys, Next(sys, c, ev).0);
  }

  lemma StepKeepsToken(sys: System, c: Call, ev: Event)
    requires Inv(sys) && TokenInv(sys) && ThroughContracts(ev)
    ensures TokenInv(Next(sys, c, ev).0)
  {
    hide Next, Inv, TokenInv;
    FailureLeavesNoTrace(sys, c, ev);
    if Next(sys, c, ev).1.Ok? {
      match ev
      case RequestCall(w) => RequestKeepsToken(sys, c, w);
      case RegisterCall(q) => RegisterKeepsToken(sys, c, q);
      case ReclaimCall(id) => ReclaimKeepsToken(sys, c, id);
      case FulfilCall(f) => FulfilKeepsToken(sys, c, f);
      case _ => OtherKeepsToken(sys, c, ev);
    }
  }

  lemma {:induction false} RunKeepsToken(sys: System, events: seq<(Call, Event)>)
    requires Inv(sys) && TokenInv(sys) && forall k :: 0 <= k < |events| ==> ThroughContracts(events[k].1)
    ensures TokenInv(Run(sys, events))
    decreases |events|
  {
    hide Inv, TokenInv, Next, ThroughContracts;
    if events != [] {
      StepKeepsInv(sys, events[0].0, events[0].1);
      StepKeepsToken(sys, events[0].0, events[0].1);
      RunKeepsToken(Next(sys, events[0].0, events[0].1).0, events[1..]);
    }
  }

  lemma StartToken(liquid: map<Principal, nat>)
    ensures TokenInv(Start(liquid))
  {
  }

  /** While requests are made and settled through the contracts, every owner's locked balance
      is the value of its unsettled requests, and what was unlocked and burned in all is the
      value of what was reclaimed and fulfilled. */
  lemma LockedIsOwed(liquid: map<Principal, nat>, events: seq<(Call, Event)>)
    requires forall k :: 0 <= k < |events| ==> ThroughContracts(events[k].1)
    ensures var sys := Run(Start(liquid), events);
            var s := sys.state.registry;
            && (forall owner: Principal ::
                  Balance(sys.state.token.locked, owner) == Total(s, s.nonce, LockedFor(owner)))
            && sys.unlocked == Total(s, s.nonce, InState(RECLAIMED))
            && sys.burned == Total(s, s.nonce, InState(FULFILLED))
  {
    hide Total, Run, ThroughContracts;
    StartInv(liquid);
    StartToken(liquid);
    RunKeepsToken(Start(liquid), events);
  }

  // --- Rollback ---

  /** The state that `reclaim-locked-tokens` would leave behind for a request that has not
      expired, were its writes not taken back. */
  function SettledWithoutRollback(sys: System, c: Call, id: nat): System {
    sys.(state := sys.state.(registry := Settled(sys.state.registry, c, id, RECLAIMED).0))
  }

  /** Then the request would be settled while its value stays locked for good: the
      invariant rests on the rollback. */
  lemma RollbackNeeded(sys: System, c: Call, id: nat)
    requires Inv(sys) && TokenInv(sys) && c.enabled && id in sys.state.registry.requests
    requires StateOf(sys.state.registry, id) == REQUESTED
    requires sys.state.registry.requests[id].expiryBurnHeight > c.burnHeight
    ensures Next(sys, c, ReclaimCall(id)) == (sys, Err(ERR_NOT_EXPIRED))
    ensures !TokenInv(SettledWithoutRollback(sys, c, id))
  {
    hide Total, WalletsInv, AcceptedInv;
    ReclaimSucceedsIff(sys, c, id);
    UnsettledIsLocked(sys, id);
    var without := SettledWithoutRollback(sys, c, id);
    var s, t := sys.state.registry, without.state.registry;
    SettleTotals(s, t, id, RECLAIMED, InState(RECLAIMED));
    assert Weight(t, id, InState(RECLAIMED)) == s.requests[id].value > 0;
    assert Weight(s, id, InState(RECLAIMED)) == 0;
  }
}
