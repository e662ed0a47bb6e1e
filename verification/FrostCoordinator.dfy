/**
 The coordinator. `Coord` is its state as a value, driven one received message
 at a time by `OnMessage`; `Coordinator` is the object with the blocking wait
 loops, each proved to do what feeding the received messages to `OnMessage` does.
 */
module FrostCoordinators {
  import opened Options
  import opened Results
  import opened FrostMessages
  import opened SigningRounds

  datatype Phase =
    | Ready
    | AwaitPublicEnds(ids: set<nat>)
    | AwaitDkgEnds(ids: set<nat>)
    | AwaitNonces(message: seq<nat>)
    | AwaitShares(ids: set<nat>, message: seq<nat>)

  /** `aggregateKey` is the set of commitments the key was summed from. */
  datatype Coord = Coord(
    totalSigners: nat,
    dkgId: nat,
    publicShares: map<nat, Commitment>,
    publicNonces: map<nat, NonceResponse>,
    signatureShares: map<nat, SignatureShares>,
    aggregateKey: Option<map<nat, Commitment>>,
    phase: Phase)

  /** Whether a summed key, or an aggregate nonce, has an even y coordinate. */
  datatype Parity = Parity(
    key: map<nat, Commitment> -> bool,
    nonce: (seq<nat>, seq<PublicNonce>, seq<nat>) -> bool)

  const TWO_TO_THE_64: nat := 0x1_0000_0000_0000_0000

  // The two ids a signing request carries never change.
  const SIGN_ID: nat := 1
  const SIGN_NONCE_ID: nat := 1

  predicate IsLeast(s: set<nat>, m: nat) {
    m in s && forall k :: k in s ==> m <= k
  }

  lemma LeastExists(s: set<nat>)
    requires s != {}
    ensures exists m :: m in s && IsLeast(s, m)
  {
    var x :| x in s;
    var rest := s - {x};
    assert forall k :: k in s ==> k == x || k in rest;
    if rest == {} {
      assert IsLeast(s, x);
    } else {
      LeastExists(rest);
      var m :| m in rest && IsLeast(rest, m);
      assert IsLeast(s, if m <= x then m else x);
    }
  }

  function SortedKeys(s: set<nat>): (keys: seq<nat>)
    ensures forall k :: k in keys <==> k in s
    ensures forall i, j :: 0 <= i < j < |keys| ==> keys[i] < keys[j]
  {
    if s == {} then [] else
      LeastExists(s);
      var m :| m in s && IsLeast(s, m);
      var rest := SortedKeys(s - {m});
      LeastFirst(s, m, rest);
      [m] + rest
  }

  lemma LeastFirst(s: set<nat>, m: nat, rest: seq<nat>)
    requires IsLeast(s, m) && forall k :: k in rest <==> k in s - {m}
    requires forall i, j :: 0 <= i < j < |rest| ==> rest[i] < rest[j]
    ensures forall k :: k in [m] + rest <==> k in s
    ensures forall i, j :: 0 <= i < j < |[m] + rest| ==> ([m] + rest)[i] < ([m] + rest)[j]
  {
    forall j | 0 <= j < |rest|
      ensures m < rest[j]
    {
      assert rest[j] in rest;
    }
  }

  function Ordered(responses: map<nat, NonceResponse>): (values: seq<NonceResponse>)
    ensures |values| == |SortedKeys(responses.Keys)|
    ensures forall k :: 0 <= k < |values| ==>
              SortedKeys(responses.Keys)[k] in responses && values[k] == responses[SortedKeys(responses.Keys)[k]]
  {
    var keys := SortedKeys(responses.Keys);
    assert forall k :: 0 <= k < |keys| ==> keys[k] in keys;
    seq(|keys|, k requires 0 <= k < |keys| => responses[keys[k]])
  }

  function NonceQuery(c: Coord): Message {
    NonceRequest(c.dkgId, SIGN_ID, SIGN_NONCE_ID)
  }

  function ShareQuery(c: Coord, message: seq<nat>): SignatureShareRequest {
    SignatureShareRequest(c.dkgId, SIGN_ID, 0, Ordered(c.publicNonces), message)
  }

  function StartDkg(c: Coord): (Coord, seq<Message>) {
    var c1 := c.(dkgId := (c.dkgId + 1) % TWO_TO_THE_64, publicShares := map[],
                 phase := AwaitPublicEnds(Signers(c.totalSigners)));
    (c1, [DkgBegin(c1.dkgId)])
  }

  function StartSign(c: Coord, message: seq<nat>): (Coord, seq<Message>) {
    if c.aggregateKey.None? then (c, [])
    else (c.(publicNonces := map[], phase := AwaitNonces(message)), [NonceQuery(c)])
  }

  /** What a waiting coordinator keeps of a message. */
  function Absorb(c: Coord, m: Message): Coord {
    match c.phase
    case AwaitPublicEnds(ids) =>
      if m.DkgPublicEnd? then c.(phase := AwaitPublicEnds(ids - {m.signerId}))
      else if m.DkgPublicShare? then c.(publicShares := c.publicShares[m.partyId := m.publicShare])
      else c
    case AwaitDkgEnds(ids) =>
      if m.DkgEnd? then c.(phase := AwaitDkgEnds(ids - {m.signerId})) else c
    case AwaitNonces(_) =>
      if m.NonceReply? then c.(publicNonces := c.publicNonces[m.response.signerId := m.response]) else c
    case AwaitShares(ids, message) =>
      if m.SignShareResponse? && m.signerId in ids
      then c.(phase := AwaitShares(ids - {m.signerId}, message),
              signatureShares := c.signatureShares[m.signerId := m.signatureShares])
      else c
    case Ready => c
  }

  /** Leaving a wait whose condition is met: the next phase, or another attempt
      when the key or nonce is odd. */
  function Settle(c: Coord, even: bool): (Coord, seq<Message>) {
    match c.phase
    case AwaitPublicEnds(ids) =>
      if ids != {} then (c, [])
      else
        var keyed := c.(aggregateKey := Some(c.publicShares));
        if even then (keyed.(phase := AwaitDkgEnds(Signers(c.totalSigners))), [DkgPrivateBegin(c.dkgId)])
        else (keyed.(publicShares := map[], phase := AwaitPublicEnds(Signers(c.totalSigners))), [DkgBegin(c.dkgId)])
    case AwaitDkgEnds(ids) =>
      if ids != {} then (c, []) else (c.(phase := Ready), [])
    case AwaitNonces(message) =>
      if |c.publicNonces| != c.totalSigners then (c, [])
      else if even then (c.(phase := AwaitShares(c.publicNonces.Keys, message)), [SignShareRequest(ShareQuery(c, message))])
      else (c.(publicNonces := map[]), [NonceQuery(c)])
    case AwaitShares(ids, _) =>
      if ids != {} then (c, []) else (c.(phase := Ready), [])
    case Ready => (c, [])
  }

  function OnMessage(c: Coord, m: Message, even: bool): (Coord, seq<Message>) {
    Settle(Absorb(c, m), even)
  }

  function IsEven(parity: Parity, c: Coord): bool {
    match c.phase
    case AwaitPublicEnds(_) => parity.key(c.publicShares)
    case AwaitNonces(message) => parity.nonce(FlatKeyIds(Ordered(c.publicNonces)), FlatNonces(Ordered(c.publicNonces)), message)
    case _ => true
  }

  function Posted(sent: seq<Message>, posts: seq<Message>): (all: seq<Message>)
    ensures posts == [] ==> all == sent
  {
    sent + posts
  }

  /** What is left when a coordinator in state `c` has handled what it receives,
      up to the end of its command or the end of `inbox`: the state, everything
      posted, and the messages not received. */
  function Outcome(parity: Parity, c: Coord, inbox: seq<Message>, sent: seq<Message>): (Coord, seq<Message>, seq<Message>)
    decreases |inbox|
  {
    if c.phase == Ready || inbox == [] then (c, sent, inbox)
    else
      var c1 := Absorb(c, inbox[0]);
      var (c2, posts) := Settle(c1, IsEven(parity, c1));
      Outcome(parity, c2, inbox[1..], Posted(sent, posts))
  }

  /** Receiving one message: it is absorbed, then settled. */
  lemma OutcomeReceives(parity: Parity, c: Coord, inbox: seq<Message>, sent: seq<Message>)
    requires c.phase != Ready && inbox != []
    ensures var c1 := Absorb(c, inbox[0]);
            var (c2, posts) := Settle(c1, IsEven(parity, c1));
            Outcome(parity, c, inbox, sent) == Outcome(parity, c2, inbox[1..], Posted(sent, posts))
  {
  }

  lemma OutcomeRests(parity: Parity, c: Coord, inbox: seq<Message>, sent: seq<Message>)
    requires c.phase == Ready
    ensures Outcome(parity, c, inbox, sent) == (c, sent, inbox)
  {
  }

  lemma OutcomeTimesOut(parity: Parity, c: Coord, sent: seq<Message>)
    ensures Outcome(parity, c, [], sent) == (c, sent, [])
  {
  }

  lemma SettlePublic(parity: Parity, c: Coord)
    requires c.phase.AwaitPublicEnds?
    ensures var keyed := c.(aggregateKey := Some(c.publicShares));
            var all := Signers(c.totalSigners);
            Settle(c, IsEven(parity, c)) ==
            if c.phase.ids != {} then (c, [])
            else if parity.key(c.publicShares) then (keyed.(phase := AwaitDkgEnds(all)), [DkgPrivateBegin(c.dkgId)])
            else (keyed.(publicShares := map[], phase := AwaitPublicEnds(all)), [DkgBegin(c.dkgId)])
  {
  }

  lemma AbsorbNonces(parity: Parity, c: Coord, m: Message)
    requires c.phase.AwaitNonces?
    ensures Absorb(c, m) == if m.NonceReply? then c.(publicNonces := c.publicNonces[m.response.signerId := m.response]) else c
    ensures |c.publicNonces| != c.totalSigners ==> Settle(c, IsEven(parity, c)) == (c, [])
  {
  }

  lemma AbsorbShares(parity: Parity, c: Coord, m: Message)
    requires c.phase.AwaitShares?
    ensures Absorb(c, m) ==
            if m.SignShareResponse? && m.signerId in c.phase.ids
            then c.(phase := AwaitShares(c.phase.ids - {m.signerId}, c.phase.message),
                    signatureShares := c.signatureShares[m.signerId := m.signatureShares])
            else c
    ensures Settle(c, IsEven(parity, c)) == (if c.phase.ids != {} then c else c.(phase := Ready), [])
  {
  }

  lemma SettleNonces(parity: Parity, c: Coord)
    requires c.phase.AwaitNonces? && |c.publicNonces| == c.totalSigners
    ensures var responses := Ordered(c.publicNonces);
            Settle(c, IsEven(parity, c)) ==
            if parity.nonce(FlatKeyIds(responses), FlatNonces(responses), c.phase.message)
            then (c.(phase := AwaitShares(c.publicNonces.Keys, c.phase.message)),
                  [SignShareRequest(ShareQuery(c, c.phase.message))])
            else (c.(publicNonces := map[]), [NonceQuery(c)])
  {
  }

  lemma AbsorbPublic(c: Coord, m: Message)
    requires c.phase.AwaitPublicEnds?
    ensures Absorb(c, m) ==
            if m.DkgPublicEnd? then c.(phase := AwaitPublicEnds(c.phase.ids - {m.signerId}))
            else if m.DkgPublicShare? then c.(publicShares := c.publicShares[m.partyId := m.publicShare])
            else c
  {
  }

  /** Only copies of `m` were posted. */
  predicate AllNew(before: seq<Message>, after: seq<Message>, m: Message) {
    before <= after && forall k :: |before| <= k < |after| ==> after[k] == m
  }

  /** What a command posts: `first` once or more, and behind it, if it gets so far, `last`. */
  predicate PostedSince(before: seq<Message>, after: seq<Message>, first: Message, last: Message, complete: bool) {
    || (!complete && |before| < |after| && AllNew(before, after, first))
    || (&& |before| + 1 < |after| && AllNew(before, after[..|after| - 1], first)
        && after[|after| - 1] == last)
  }

  lemma NoneNew(sent: seq<Message>, m: Message)
    ensures AllNew(sent, sent, m)
  {
  }

  lemma AllNewSnoc(before: seq<Message>, after: seq<Message>, m: Message)
    requires AllNew(before, after, m)
    ensures AllNew(before, after + [m], m) && |before| < |after + [m]|
  {
  }

  lemma PostsLast(before: seq<Message>, after: seq<Message>, first: Message, last: Message, complete: bool)
    requires AllNew(before, after, first) && |before| < |after|
    ensures PostedSince(before, after + [last], first, last, complete)
    ensures PostedSince(before, after, first, last, false)
  {
    assert (after + [last])[..|after|] == after;
  }

  /** The first signature shares of a signer. */
  function FirstShares(inbox: seq<Message>, i: nat): Option<SignatureShares>
    decreases |inbox|
  {
    if inbox == [] then None
    else if inbox[0].SignShareResponse? && inbox[0].signerId == i then Some(inbox[0].signatureShares)
    else FirstShares(inbox[1..], i)
  }

  /** The last nonces of a signer. */
  function LastNonces(inbox: seq<Message>, i: nat): Option<NonceResponse> {
    if inbox == [] then None
    else
      var m := inbox[|inbox| - 1];
      if m.NonceReply? && m.response.signerId == i then Some(m.response) else LastNonces(inbox[..|inbox| - 1], i)
  }

  /** `kept` holds what was received last of everybody. */
  ghost predicate KeepsLast(kept: map<nat, NonceResponse>, received: seq<Message>) {
    forall i: nat :: if i in kept then LastNonces(received, i) == Some(kept[i]) else LastNonces(received, i) == None
  }

  lemma KeepsNone()
    ensures KeepsLast(map[], [])
  {
  }

  lemma KeepsNext(kept: map<nat, NonceResponse>, received: seq<Message>, m: Message)
    requires KeepsLast(kept, received)
    ensures KeepsLast(if m.NonceReply? then kept[m.response.signerId := m.response] else kept, received + [m])
  {
    assert (received + [m])[..|received|] == received;
  }

  datatype CoordinatorError = NoAggregatePublicKey | Timeout

  /** The network as one party sees it: messages still to be received, and posted. */
  class Network {
    var inbox: seq<Message>
    var sent: seq<Message>

    constructor (inbox: seq<Message>)
      ensures this.inbox == inbox && sent == []
    {
      this.inbox := inbox;
      sent := [];
    }

    method SendMessage(m: Message)
      modifies `sent
      ensures sent == old(sent) + [m]
    {
      sent := sent + [m];
    }

    method WaitForNextMessage() returns (m: Option<Message>)
      modifies `inbox
      ensures old(inbox) == [] ==> m == None && inbox == []
      ensures old(inbox) != [] ==> m == Some(old(inbox)[0]) && inbox == old(inbox)[1..]
    {
      if inbox == [] {
        return None;
      }
      m := Some(inbox[0]);
      inbox := inbox[1..];
    }
  }

  class Coordinator {
    const totalSigners: nat
    const parity: Parity
    const network: Network
    var dkgId: nat
    var publicShares: map<nat, Commitment>
    var publicNonces: map<nat, NonceResponse>
    var signatureShares: map<nat, SignatureShares>
    var aggregateKey: Option<map<nat, Commitment>>
    /** Where control is: which loop, with which ids still awaited. */
    ghost var phase: Phase

    constructor (c: Config, parity: Parity, network: Network)
      ensures Value() == InitialCoord(c) && this.parity == parity && this.network == network
      ensures totalSigners == c.totalSigners && dkgId == 0 && aggregateKey == None
      ensures publicShares == map[] && publicNonces == map[] && signatureShares == map[]
    {
      this.totalSigners := c.totalSigners;
      this.parity := parity;
      this.network := network;
      dkgId := 0;
      publicShares, publicNonces, signatureShares := map[], map[], map[];
      aggregateKey := None;
      phase := Ready;
    }

    ghost function Value(): Coord
      reads this
    {
      Coord(totalSigners, dkgId, publicShares, publicNonces, signatureShares, aggregateKey, phase)
    }

    ghost function Now(): (Coord, seq<Message>, seq<Message>)
      reads this, network
    {
      (Value(), network.sent, network.inbox)
    }

    /** What this command still leads to. */
    ghost function Goal(): (Coord, seq<Message>, seq<Message>)
      reads this, network
    {
      Outcome(parity, Value(), network.inbox, network.sent)
    }

    /** The same when the last message is not settled yet. */
    ghost function GoalOnceSettled(): (Coord, seq<Message>, seq<Message>)
      reads this, network
    {
      var (c, posts) := Settle(Value(), IsEven(parity, Value()));
      Outcome(parity, c, network.inbox, Posted(network.sent, posts))
    }

    method StartPublicShares()
      modifies this`publicShares, this`phase, network`sent
      ensures publicShares == map[] && phase == AwaitPublicEnds(Signers(totalSigners))
      ensures network.sent == old(network.sent) + [DkgBegin(dkgId)]
    {
      publicShares := map[];
      phase := AwaitPublicEnds(Signers(totalSigners));
      network.SendMessage(DkgBegin(dkgId));
    }

    /** Waits for every signer's public end, starting over while the summed key is
        odd. On success only the post of the private begin is still to be made. */
    method WaitForPublicShares() returns (r: Result<map<nat, Commitment>, CoordinatorError>)
      requires totalSigners >= 1 && phase == AwaitPublicEnds(Signers(totalSigners))
      modifies this, network
      ensures r.Ok? ==>
                && Outcome(parity, Value(), network.inbox, network.sent + [DkgPrivateBegin(dkgId)]) == old(Goal())
                && phase == AwaitDkgEnds(Signers(totalSigners))
                && aggregateKey == Some(r.value) && parity.key(r.value)
      ensures r.Err? ==> r.error == Timeout && Now() == old(Goal()) && network.inbox == [] && phase != Ready
      ensures dkgId == old(dkgId) && AllNew(old(network.sent), network.sent, DkgBegin(dkgId))
    {
      hide Outcome, Absorb, Settle, IsEven, AllNew, Signers;
      NoneNew(network.sent, DkgBegin(dkgId));
      SettlePublic(parity, Value());
      var idsToAwait := Signers(totalSigners);
      assert 1 in idsToAwait;
      assert Posted(network.sent, []) == network.sent;
      while true
        invariant phase == AwaitPublicEnds(idsToAwait)
        invariant GoalOnceSettled() == old(Goal())
        invariant dkgId == old(dkgId) && AllNew(old(network.sent), network.sent, DkgBegin(dkgId))
        decreases |network.inbox|
      {
        SettlePublic(parity, Value());
        if idsToAwait == {} {
          aggregateKey := Some(publicShares);
          if parity.key(publicShares) {
            phase := AwaitDkgEnds(Signers(totalSigners));
            return Ok(publicShares);
          }
          idsToAwait := Signers(totalSigners);
          AllNewSnoc(old(network.sent), network.sent, DkgBegin(dkgId));
          StartPublicShares();
        }
        assert Goal() == old(Goal());
        if network.inbox == [] {
          OutcomeTimesOut(parity, Value(), network.sent);
        } else {
          OutcomeReceives(parity, Value(), network.inbox, network.sent);
          AbsorbPublic(Value(), network.inbox[0]);
        }
        var m := network.WaitForNextMessage();
        if m.None? {
          return Err(Timeout);
        }
        match m.value {
          case DkgPublicEnd(_, signerId, _) => idsToAwait := idsToAwait - {signerId};
          case DkgPublicShare(_, _, partyId, share) => publicShares := publicShares[partyId := share];
          case _ =>
        }
        phase := AwaitPublicEnds(idsToAwait);
      }
    }

    /** Waits for every signer's end of the private phase, whatever its status. */
    method WaitForDkgEnd() returns (r: Result<(), CoordinatorError>)
      requires totalSigners >= 1 && phase == AwaitDkgEnds(Signers(totalSigners))
      modifies this`phase, network
      ensures Now() == old(Goal())
      ensures network.sent == old(network.sent)
      ensures if r.Ok? then phase == Ready else r.error == Timeout && phase != Ready && network.inbox == []
    {
      var idsToAwait := Signers(totalSigners);
      assert 1 in idsToAwait;
      while idsToAwait != {}
        invariant phase == if idsToAwait == {} then Ready else AwaitDkgEnds(idsToAwait)
        invariant Goal() == old(Goal())
        invariant network.sent == old(network.sent)
        decreases |network.inbox|
      {
        var m := network.WaitForNextMessage();
        if m.None? {
          return Err(Timeout);
        }
        if m.value.DkgEnd? {
          idsToAwait := idsToAwait - {m.value.signerId};
        }
        phase := if idsToAwait == {} then Ready else AwaitDkgEnds(idsToAwait);
      }
      return Ok(());
    }

    /** One whole key generation: what `StartDkg` posts and what handling the
        received messages one by one then leads to, up to its end or a timeout. */
    method RunDistributedKeyGeneration() returns (r: Result<map<nat, Commitment>, CoordinatorError>)
      requires totalSigners >= 1 && phase == Ready
      modifies this, network
      ensures var (c, first) := StartDkg(old(Value()));
              Now() == Outcome(parity, c, old(network.inbox), Posted(old(network.sent), first))
      ensures if r.Ok? then phase == Ready && aggregateKey == Some(r.value) && parity.key(r.value)
              else r.error == Timeout && phase != Ready && network.inbox == []
      ensures dkgId == (old(dkgId) + 1) % 0x1_0000_0000_0000_0000
      ensures PostedSince(old(network.sent), network.sent, DkgBegin(dkgId), DkgPrivateBegin(dkgId), r.Ok?)
    {
      hide Outcome, Absorb, Settle, IsEven, PostedSince;
      dkgId := (dkgId + 1) % TWO_TO_THE_64;
      StartPublicShares();
      r := WaitForPublicShares();
      PostsLast(old(network.sent), network.sent, DkgBegin(dkgId), DkgPrivateBegin(dkgId), r.Ok?);
      PostsLast(old(network.sent), network.sent, DkgBegin(dkgId), DkgPrivateBegin(dkgId), false);
      if r.Err? {
        return;
      }
      network.SendMessage(DkgPrivateBegin(dkgId));
      var ended := WaitForDkgEnd();
      if ended.Err? {
        return Err(ended.error);
      }
    }

    /** Asks every signer for nonces and waits until each id has answered; the
        last answer is not settled yet. */
    method CollectNonces() returns (r: Result<(), CoordinatorError>)
      requires totalSigners >= 1 && phase.AwaitNonces?
      modifies this`publicNonces, network
      ensures network.sent == old(network.sent) + [NonceRequest(dkgId, 1, 1)]
      ensures |network.inbox| <= |old(network.inbox)|
      ensures KeepsLast(publicNonces, old(network.inbox)[..|old(network.inbox)| - |network.inbox|])
      ensures r.Ok? ==>
                && |publicNonces| == totalSigners && |network.inbox| < |old(network.inbox)|
                && GoalOnceSettled() == Outcome(parity, old(Value()).(publicNonces := map[]), old(network.inbox),
                                                old(network.sent) + [NonceQuery(old(Value()))])
      ensures r.Err? ==>
                && r.error == Timeout && network.inbox == []
                && Now() == Outcome(parity, old(Value()).(publicNonces := map[]), old(network.inbox),
                                    old(network.sent) + [NonceQuery(old(Value()))])
    {
      hide Outcome, Absorb, Settle, IsEven, KeepsLast;
      publicNonces := map[];
      KeepsNone();
      network.SendMessage(NonceRequest(dkgId, SIGN_ID, SIGN_NONCE_ID));
      ghost var goal := Goal();
      ghost var received := network.inbox;
      while true
        invariant Goal() == goal && |publicNonces| != totalSigners
        invariant network.sent == old(network.sent) + [NonceRequest(dkgId, 1, 1)]
        invariant |network.inbox| <= |received| && received[|received| - |network.inbox|..] == network.inbox
        invariant KeepsLast(publicNonces, received[..|received| - |network.inbox|])
        invariant |network.inbox| <= |old(network.inbox)|
        decreases |network.inbox|
      {
        ghost var c := Value();
        if network.inbox == [] {
          OutcomeTimesOut(parity, c, network.sent);
        } else {
          OutcomeReceives(parity, c, network.inbox, network.sent);
          AbsorbNonces(parity, c, network.inbox[0]);
        }
        ghost var n := |received| - |network.inbox|;
        var m := network.WaitForNextMessage();
        if m.None? {
          return Err(Timeout);
        }
        KeepsNext(publicNonces, received[..n], m.value);
        assert received[..n + 1] == received[..n] + [m.value];
        if m.value.NonceReply? {
          publicNonces := publicNonces[m.value.response.signerId := m.value.response];
        }
        assert GoalOnceSettled() == goal;
        AbsorbNonces(parity, Value(), m.value);
        if |publicNonces| == totalSigners {
          return Ok(());
        }
      }
    }

    /** Waits for the signature shares of every id whose nonces were collected. */
    method CollectSignatureShares(ghost message: seq<nat>) returns (r: Result<(), CoordinatorError>)
      requires phase == AwaitShares(publicNonces.Keys, message) && publicNonces != map[]
      modifies this`signatureShares, this`phase, network
      ensures Now() == old(Goal())
      ensures network.sent == old(network.sent)
      ensures r.Ok? ==> publicNonces.Keys <= signatureShares.Keys
      ensures r.Ok? ==> forall i | i in publicNonces :: FirstShares(old(network.inbox), i) == Some(signatureShares[i])
      ensures forall i | i !in publicNonces && i in old(signatureShares) ::
                i in signatureShares && signatureShares[i] == old(signatureShares)[i]
      ensures if r.Ok? then phase == Ready else r.error == Timeout && phase != Ready && network.inbox == []
    {
      hide Outcome, Absorb, Settle, IsEven;
      var signers := publicNonces.Keys;
      while signers != {}
        invariant phase == if signers == {} then Ready else AwaitShares(signers, message)
        invariant Goal() == old(Goal())
        invariant network.sent == old(network.sent) && publicNonces.Keys - signers <= signatureShares.Keys
        invariant signers <= publicNonces.Keys
        invariant forall i | i in publicNonces ::
                    FirstShares(old(network.inbox), i) == if i in signers then FirstShares(network.inbox, i) else Some(signatureShares[i])
        invariant forall i | i !in publicNonces && i in old(signatureShares) ::
                    i in signatureShares && signatureShares[i] == old(signatureShares)[i]
        decreases |network.inbox|
      {
        ghost var c := Value();
        if network.inbox == [] {
          OutcomeTimesOut(parity, c, network.sent);
        } else {
          OutcomeReceives(parity, c, network.inbox, network.sent);
          AbsorbShares(parity, c, network.inbox[0]);
          AbsorbShares(parity, Absorb(c, network.inbox[0]), network.inbox[0]);
        }
        var m := network.WaitForNextMessage();
        if m.None? {
          return Err(Timeout);
        }
        if m.value.SignShareResponse? && m.value.signerId in signers {
          signers := signers - {m.value.signerId};
          signatureShares := signatureShares[m.value.signerId := m.value.signatureShares];
        }
        phase := if signers == {} then Ready else AwaitShares(signers, message);
      }
      OutcomeRests(parity, Value(), network.inbox, network.sent);
      return Ok(());
    }

    /** One whole signing: nonces until their aggregate is even, then shares. */
    method SignMessage(message: seq<nat>) returns (r: Result<(), CoordinatorError>)
      requires totalSigners >= 1 && phase == Ready
      modifies this, network
      ensures var (c, first) := StartSign(old(Value()), message);
              Now() == Outcome(parity, c, old(network.inbox), Posted(old(network.sent), first))
      ensures r == Err(NoAggregatePublicKey) <==> old(aggregateKey).None?
      ensures r == Err(NoAggregatePublicKey) ==> Now() == old(Now())
      ensures r.Ok? ==> phase == Ready
      ensures r == Err(Timeout) ==> phase != Ready && network.inbox == []
      ensures dkgId == old(dkgId)
      ensures r != Err(NoAggregatePublicKey) ==>
                PostedSince(old(network.sent), network.sent, NonceRequest(dkgId, 1, 1),
                            SignShareRequest(SignatureShareRequest(dkgId, 1, 0, Ordered(publicNonces), message)), r.Ok?)
      ensures r.Ok? ==>
                && |publicNonces| == totalSigners && publicNonces.Keys <= signatureShares.Keys
                && parity.nonce(FlatKeyIds(Ordered(publicNonces)), FlatNonces(Ordered(publicNonces)), message)
    {
      hide Outcome, Absorb, Settle, IsEven, AllNew, PostedSince, Ordered, FlatKeyIds, FlatNonces;
      NoneNew(network.sent, NonceRequest(dkgId, 1, 1));
      if aggregateKey.None? {
        OutcomeRests(parity, Value(), network.inbox, network.sent);
        return Err(NoAggregatePublicKey);
      }
      phase := AwaitNonces(message);
      ghost var goal := Outcome(parity, Value().(publicNonces := map[]), network.inbox, network.sent + [NonceQuery(Value())]);
      while true
        invariant phase == AwaitNonces(message) && dkgId == old(dkgId)
        invariant AllNew(old(network.sent), network.sent, NonceRequest(dkgId, 1, 1))
        invariant goal == Outcome(parity, Value().(publicNonces := map[]), network.inbox, network.sent + [NonceQuery(Value())])
        decreases |network.inbox|
      {
        ghost var before := network.sent;
        var nonces := CollectNonces();
        AllNewSnoc(old(network.sent), before, NonceRequest(dkgId, 1, 1));
        if nonces.Err? {
          ghost var never := SignatureShareRequest(dkgId, 1, 0, Ordered(publicNonces), message);
          PostsLast(old(network.sent), network.sent, NonceRequest(dkgId, 1, 1), SignShareRequest(never), false);
          return Err(nonces.error);
        }
        SettleNonces(parity, Value());
        var responses := Ordered(publicNonces);
        if parity.nonce(FlatKeyIds(responses), FlatNonces(responses), message) {
          break;
        }
      }
      ghost var request := SignatureShareRequest(dkgId, 1, 0, Ordered(publicNonces), message);
      PostsLast(old(network.sent), network.sent, NonceRequest(dkgId, 1, 1), SignShareRequest(request), true);
      PostsLast(old(network.sent), network.sent, NonceRequest(dkgId, 1, 1), SignShareRequest(request), false);
      network.SendMessage(SignShareRequest(SignatureShareRequest(dkgId, SIGN_ID, 0, Ordered(publicNonces), message)));
      phase := AwaitShares(publicNonces.Keys, message);
      r := CollectSignatureShares(message);
    }
  }

  function InitialCoord(c: Config): Coord {
    Coord(c.totalSigners, 0, map[], map[], map[], None, Ready)
  }
}
