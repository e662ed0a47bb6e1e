/**
 The distributed protocol: one coordinator and n honest signers that communicate
 only through the relay's single log. Each party reads the log in order at its
 own pace, a signer posts its outbound messages one by one before it reads on,
 and steps of different parties interleave freely. Receivers check no attempt id.
 */
module FrostProtocol {
  import opened Options
  import opened Results
  import opened FrostMessages
  import opened SigningRounds
  import opened FrostCoordinators

  /** A signer: its round, how much of the log it has processed, what it still
      has to post, and whether a message made it stop with an error. */
  datatype Node = Node(round: Round, read: nat, outbox: seq<Message>, failed: bool)

  /** What the coordinator's latest message asked for. */
  datatype Kind =
    | Boot
    | Public
    | Private
    | Nonce(dkgId: nat)
    | Sign(request: SignatureShareRequest)

  /** History only, no step depends on it: what the coordinator last asked for,
      the log position after that message, and how many `DkgBegin`s and
      `NonceRequest`s it has posted so far. */
  datatype Epoch = Epoch(kind: Kind, start: nat, polys: nat, nonces: nat)

  datatype System = System(log: seq<Packet>, nodes: map<nat, Node>, coord: Coord, read: nat, epoch: Epoch)

  datatype Step =
    | SignerReceives(signer: nat, order: seq<nat>, outcome: DkgStatus)
    | SignerPosts(signer: nat)
    | CoordinatorReceives(even: bool)
    | DkgCommand
    | SignCommand(message: seq<nat>)

  // ---------- The transition system ----------

  ghost predicate IsInitial(c: Config, s: System)
    requires c.Valid()
  {
    && (forall i :: i in s.nodes <==> c.IsSigner(i))
    && (forall i :: i in s.nodes ==> s.nodes[i] == Node(InitialRound(c, i), 0, [], false))
    && s.log == [] && s.coord == InitialCoord(c) && s.read == 0 && s.epoch == Epoch(Boot, 0, 0, 0)
  }

  lemma InitialExists(c: Config) returns (s: System)
    requires c.Valid()
    ensures IsInitial(c, s)
  {
    s := System([], map i | i in Signers(c.totalSigners) :: Node(InitialRound(c, i), 0, [], false),
                InitialCoord(c), 0, Epoch(Boot, 0, 0, 0));
  }

  ghost predicate Enabled(c: Config, s: System, step: Step) {
    match step
    case SignerReceives(i, order, _) =>
      && i in s.nodes && !s.nodes[i].failed && s.nodes[i].outbox == [] && s.nodes[i].read < |s.log|
      && IsEnumeration(order, s.nodes[i].round.keyIds)
    case SignerPosts(i) => i in s.nodes && !s.nodes[i].failed && s.nodes[i].outbox != []
    case CoordinatorReceives(_) => s.coord.phase != Ready && s.read < |s.log|
    case DkgCommand => s.coord.phase == Ready
    case SignCommand(_) => s.coord.phase == Ready
  }

  function Receive(c: Config, node: Node, p: Packet, order: seq<nat>, outcome: DkgStatus): Node {
    if !VerifyMsg(c, p) then node.(read := node.read + 1)
    else
      var (round, out) := Process(node.round, p.msg, order, outcome);
      if out.Err? then node.(round := round, read := node.read + 1, failed := true)
      else Node(round, node.read + 1, out.value, false)
  }

  function EpochAfter(e: Epoch, m: Message, start: nat): Epoch {
    match m
    case DkgBegin(_) => Epoch(Public, start, e.polys + 1, e.nonces)
    case DkgPrivateBegin(_) => Epoch(Private, start, e.polys, e.nonces)
    case NonceRequest(dkgId, _, _) => Epoch(Nonce(dkgId), start, e.polys, e.nonces + 1)
    case SignShareRequest(request) => Epoch(Sign(request), start, e.polys, e.nonces)
    case _ => e
  }

  /** The coordinator's state becomes `coord`, and it posts its at most one message. */
  function Advance(s: System, coord: Coord, posts: seq<Message>): System {
    if posts == [] then s.(coord := coord)
    else s.(coord := coord, log := s.log + [Packet(posts[0], COORDINATOR)],
            epoch := EpochAfter(s.epoch, posts[0], |s.log| + 1))
  }

  ghost function Take(c: Config, s: System, step: Step): System
    requires Enabled(c, s, step)
  {
    match step
    case SignerReceives(i, order, outcome) =>
      s.(nodes := s.nodes[i := Receive(c, s.nodes[i], s.log[s.nodes[i].read], order, outcome)])
    case SignerPosts(i) =>
      s.(log := s.log + [Packet(s.nodes[i].outbox[0], i)],
         nodes := s.nodes[i := s.nodes[i].(outbox := s.nodes[i].outbox[1..])])
    case CoordinatorReceives(even) =>
      var (coord, posts) := OnMessage(s.coord, s.log[s.read].msg, even);
      Advance(s.(read := s.read + 1), coord, posts)
    case DkgCommand =>
      var (coord, posts) := StartDkg(s.coord);
      Advance(s, coord, posts)
    case SignCommand(message) =>
      var (coord, posts) := StartSign(s.coord, message);
      Advance(s, coord, posts)
  }

  ghost predicate IsStep(c: Config, s: System, step: Step, s': System) {
    Enabled(c, s, step) && s' == Take(c, s, step)
  }

  /** A run: states and the steps between them. */
  ghost predicate IsRun(c: Config, states: seq<System>, steps: seq<Step>)
    requires c.Valid()
  {
    && |states| == |steps| + 1
    && IsInitial(c, states[0])
    && forall k :: 0 <= k < |steps| ==> IsStep(c, states[k], steps[k], states[k + 1])
  }

  // ---------- What a stretch of the log says ----------

  /** The messages signer `i` contributed, in order. */
  function From(s: seq<Packet>, i: nat): seq<Message> {
    if s == [] then []
    else From(s[..|s| - 1], i) + (if s[|s| - 1].signedBy == i then [s[|s| - 1].msg] else [])
  }

  function CommitmentsIn(s: seq<Packet>): map<nat, Commitment> {
    if s == [] then map[]
    else
      var m := s[|s| - 1].msg;
      var before := CommitmentsIn(s[..|s| - 1]);
      if m.DkgPublicShare? then before[m.partyId := m.publicShare] else before
  }

  function SharesIn(s: seq<Packet>): map<nat, EncryptedShares> {
    if s == [] then map[]
    else
      var m := s[|s| - 1].msg;
      var before := SharesIn(s[..|s| - 1]);
      if m.DkgPrivateShares? then before[m.keyId := m.privateShares] else before
  }

  /** The message with which a signer completes its part of an epoch. */
  predicate IsEnd(kind: Kind, m: Message) {
    match kind
    case Boot => false
    case Public => m.DkgPublicEnd?
    case Private => m.DkgEnd?
    case Nonce(_) => m.NonceReply?
    case Sign(_) => m.SignShareResponse?
  }

  function EndersIn(kind: Kind, s: seq<Packet>): set<nat> {
    if s == [] then {}
    else EndersIn(kind, s[..|s| - 1]) + (if IsEnd(kind, s[|s| - 1].msg) then {s[|s| - 1].signedBy} else {})
  }

  lemma Snoc(s: seq<Packet>, p: Packet)
    ensures (s + [p])[..|s|] == s
    ensures forall i :: From(s + [p], i) == From(s, i) + (if p.signedBy == i then [p.msg] else [])
    ensures CommitmentsIn(s + [p]) == if p.msg.DkgPublicShare? then CommitmentsIn(s)[p.msg.partyId := p.msg.publicShare] else CommitmentsIn(s)
    ensures SharesIn(s + [p]) == if p.msg.DkgPrivateShares? then SharesIn(s)[p.msg.keyId := p.msg.privateShares] else SharesIn(s)
    ensures forall k :: EndersIn(k, s + [p]) == EndersIn(k, s) + (if IsEnd(k, p.msg) then {p.signedBy} else {})
  {
    assert (s + [p])[..|s|] == s;
    assert (s + [p])[|s|] == p;
  }

  // ---------- The values every party should end up with ----------

  function AllCommitments(c: Config, generation: nat): map<nat, Commitment> {
    map p | p in c.keyOwner :: Commitment(p, generation)
  }

  function ZeroBasedKeys(c: Config): set<nat>
    requires 0 !in c.keyOwner
  {
    set p | p in c.keyOwner :: (p - 1) as nat
  }

  function AllShares(c: Config, generation: nat): map<nat, EncryptedShares>
    requires 0 !in c.keyOwner
  {
    map k | k in ZeroBasedKeys(c) :: EncryptedShares(k, generation)
  }

  function ResponseOf(c: Config, i: nat, dkgId: nat, generation: nat): NonceResponse
    requires c.Valid() && c.IsSigner(i)
  {
    NonceResponse(dkgId, SIGN_ID, SIGN_NONCE_ID, i, ZeroBased(c, i), PublicNonces(ZeroBased(c, i), generation))
  }

  function AllResponses(c: Config, dkgId: nat, generation: nat): map<nat, NonceResponse>
    requires c.Valid()
  {
    ResponsesOf(c, Signers(c.totalSigners), dkgId, generation)
  }

  function SharesOf(i: nat, request: SignatureShareRequest, generation: nat): SignatureShares {
    SignatureShares(i, generation, request.message, SignerIds(request.nonceResponses),
                    FlatKeyIds(request.nonceResponses), FlatNonces(request.nonceResponses))
  }

  function ShareReplyOf(i: nat, request: SignatureShareRequest, generation: nat): Message {
    SignShareResponse(request.dkgId, request.signId, request.correlationId, i, SharesOf(i, request, generation))
  }

  // ---------- The invariant ----------

  /** A packet a signer may contribute to the epoch. */
  ghost predicate EpochPacket(c: Config, e: Epoch, p: Packet)
    requires c.Valid()
  {
    && c.IsSigner(p.signedBy)
    && match e.kind
       case Boot => false
       case Public =>
         || (p.msg.DkgPublicEnd? && p.msg.signerId == p.signedBy)
         || (&& p.msg.DkgPublicShare? && p.msg.partyId in c.keyOwner && c.keyOwner[p.msg.partyId] == p.signedBy
             && p.msg.publicShare == Commitment(p.msg.partyId, e.polys))
       case Private =>
         || (p.msg.DkgEnd? && p.msg.signerId == p.signedBy)
         || (&& p.msg.DkgPrivateShares? && p.msg.keyId + 1 in c.keyOwner && c.keyOwner[p.msg.keyId + 1] == p.signedBy
             && p.msg.privateShares == EncryptedShares(p.msg.keyId, e.polys))
       case Nonce(dkgId) => p.msg == NonceReply(ResponseOf(c, p.signedBy, dkgId, e.nonces))
       case Sign(request) => p.msg == ShareReplyOf(p.signedBy, request, e.nonces)
  }

  predicate FromCoordinator(m: Message) {
    m.DkgBegin? || m.DkgPrivateBegin? || m.NonceRequest? || m.SignShareRequest?
  }

  /** A packet of the previous epoch that a signer may still have to read. */
  ghost predicate Leftover(c: Config, e: Epoch, p: Packet)
    requires c.Valid()
  {
    && !FromCoordinator(p.msg)
    && (e.kind == Private ==> EpochPacket(c, e.(kind := Public), p))
    && (e.kind.Nonce? || e.kind.Sign? ==> !p.msg.DkgPublicShare?)
  }

  ghost predicate EndsOnlyLast(kind: Kind, sent: seq<Message>) {
    forall k :: 0 <= k < |sent| && IsEnd(kind, sent[k]) ==> k == |sent| - 1
  }

  predicate Ended(kind: Kind, sent: seq<Message>) {
    kind == Boot || (sent != [] && IsEnd(kind, sent[|sent| - 1]))
  }

  /** `sent` holds a share message for every key of signer `i`. */
  ghost predicate Covers(c: Config, kind: Kind, i: nat, sent: seq<Message>)
    requires i in c.signerKeyIds
  {
    forall p | p in c.signerKeyIds[i] ::
      if kind == Public then exists m :: m in sent && m.DkgPublicShare? && m.partyId == p
      else exists m :: m in sent && m.DkgPrivateShares? && m.keyId + 1 == p
  }

  /** Signer `i`'s identity never changes. */
  ghost predicate Identity(c: Config, i: nat, r: Round)
    requires c.Valid() && c.IsSigner(i)
  {
    r.signerId == i && r.totalKeys == c.totalKeys && r.keyIds == ZeroBased(c, i)
  }

  /** A signer that has not processed the coordinator's latest message: it rests
      in the state its part of the previous epoch left it in. */
  ghost predicate Behind(c: Config, log: seq<Packet>, e: Epoch, i: nat, node: Node)
    requires c.Valid() && c.IsSigner(i) && e.start <= |log| && node.read < e.start
  {
    var r := node.round;
    && From(log[e.start..], i) == [] && node.outbox == []
    && (forall k :: node.read <= k < e.start - 1 ==> Leftover(c, e, log[k]))
    && r.polys == (if e.kind == Public then e.polys - 1 else e.polys)
    && r.nonceDraws == (if e.kind.Nonce? then e.nonces - 1 else e.nonces)
    && match e.kind
       case Boot => false
       case Public => r.state == Idle || r.state == DkgPrivateDistribute
       case Private => r.state == DkgPrivateDistribute && r.commitments == AllCommitments(c, e.polys) && r.shares == map[]
       case Nonce(_) => r.state == Idle && r.commitments == AllCommitments(c, e.polys)
       case Sign(_) => r.state == Idle && r.commitments == AllCommitments(c, e.polys)
  }

  /** A signer that has: `sent` is its whole contribution so far, posted or not,
      and `seen` what it has read of the epoch. */
  ghost predicate Caught(c: Config, e: Epoch, i: nat, r: Round, seen: seq<Packet>, sent: seq<Message>)
    requires c.Valid() && c.IsSigner(i)
  {
    && r.polys == e.polys && r.nonceDraws == e.nonces
    && EndsOnlyLast(e.kind, sent)
    && |sent| <= |r.keyIds| + (if Ended(e.kind, sent) then 1 else 0)
    && match e.kind
       case Boot => sent == [] && r.state == Idle
       case Public =>
         && r.shares == map[] && Covers(c, e.kind, i, sent)
         && (if Ended(e.kind, sent)
             then r.state == DkgPrivateDistribute && r.commitments == AllCommitments(c, e.polys)
             else r.state == DkgPublicGather && r.commitments == CommitmentsIn(seen) && |r.commitments| != c.totalKeys)
       case Private =>
         && r.commitments == AllCommitments(c, e.polys) && Covers(c, e.kind, i, sent)
         && (if Ended(e.kind, sent)
             then r.state == Idle && r.shares == AllShares(c, e.polys)
             else r.state == DkgPrivateGather && r.shares == SharesIn(seen) && |r.shares| != c.totalKeys)
       case Nonce(_) => r.state == Idle && r.commitments == AllCommitments(c, e.polys) && |sent| == 1 && IsEnd(e.kind, sent[0])
       case Sign(_) => r.state == Idle && r.commitments == AllCommitments(c, e.polys) && |sent| == 1 && IsEnd(e.kind, sent[0])
  }

  ghost predicate NodeOk(c: Config, log: seq<Packet>, e: Epoch, i: nat, node: Node)
    requires c.Valid() && c.IsSigner(i) && e.start <= |log|
  {
    && !node.failed && node.read <= |log| && Identity(c, i, node.round)
    && (forall m | m in node.outbox :: EpochPacket(c, e, Packet(m, i)))
    && if node.read < e.start then Behind(c, log, e, i, node)
       else Caught(c, e, i, node.round, log[e.start..node.read], From(log[e.start..], i) + node.outbox)
  }

  /** Signer `i` has done and posted all its part of the epoch. */
  ghost predicate Finished(log: seq<Packet>, e: Epoch, i: nat, node: Node)
    requires e.start <= |log|
  {
    node.read >= e.start && node.outbox == [] && Ended(e.kind, From(log[e.start..], i))
  }

  /** The message that opened the epoch. */
  ghost predicate OpeningOk(c: Config, log: seq<Packet>, e: Epoch)
    requires c.Valid() && e.start <= |log|
  {
    match e.kind
    case Boot => log == [] && e == Epoch(Boot, 0, 0, 0)
    case Public => e.start > 0 && e.polys > 0 && log[e.start - 1].signedBy == COORDINATOR && log[e.start - 1].msg.DkgBegin?
    case Private => e.start > 0 && e.polys > 0 && log[e.start - 1].signedBy == COORDINATOR && log[e.start - 1].msg.DkgPrivateBegin?
    case Nonce(dkgId) =>
      && e.start > 0 && e.polys > 0 && e.nonces > 0
      && log[e.start - 1] == Packet(NonceRequest(dkgId, SIGN_ID, SIGN_NONCE_ID), COORDINATOR)
    case Sign(request) =>
      && e.start > 0 && e.polys > 0 && e.nonces > 0
      && log[e.start - 1] == Packet(SignShareRequest(request), COORDINATOR)
      && request.nonceResponses == Ordered(AllResponses(c, request.dkgId, e.nonces))
  }

  ghost predicate LogOk(c: Config, log: seq<Packet>, e: Epoch)
    requires c.Valid()
  {
    && e.start <= |log|
    && (forall k :: e.start <= k < |log| ==> EpochPacket(c, e, log[k]))
    && OpeningOk(c, log, e)
  }

  /** The part of the epoch the coordinator has received. */
  function Heard(s: System): seq<Packet>
    requires s.read <= |s.log|
  {
    if s.read < s.epoch.start then [] else s.log[s.epoch.start..s.read]
  }

  /** What the coordinator holds is what it has heard in this epoch. */
  ghost predicate CoordHeard(c: Config, s: System)
    requires c.Valid() && s.epoch.start <= |s.log|
    requires SignersKnown(c, s)
  {
    var e, k := s.epoch, s.coord;
    && s.read <= |s.log| && s.read + 1 >= e.start && k.totalSigners == c.totalSigners
    && (e.kind == Boot ==> k.phase == Ready && k.aggregateKey == None)
    && (e.kind in {Boot, Public} || HoldsKey(c, k, e))
    && match k.phase
       case Ready => s.read == |s.log| && AllFinished(s.log, e, s.nodes) && RoundDone(c, k, e)
       case AwaitPublicEnds(ids) => PublicHeard(c, k, e, ids, Heard(s))
       case AwaitDkgEnds(ids) => PrivateHeard(c, e, ids, Heard(s))
       case AwaitNonces(_) => NoncesHeard(c, k, e, Heard(s))
       case AwaitShares(ids, message) => SharesHeard(c, k, e, ids, message, Heard(s))
  }

  ghost predicate HoldsKey(c: Config, k: Coord, e: Epoch) {
    k.publicShares == AllCommitments(c, e.polys) && k.aggregateKey == Some(k.publicShares)
  }

  ghost predicate RoundDone(c: Config, k: Coord, e: Epoch)
    requires c.Valid()
  {
    && !e.kind.Public? && !e.kind.Nonce?
    && (e.kind.Sign? ==>
          && k.publicNonces == AllResponses(c, e.kind.request.dkgId, e.nonces)
          && SharesCollected(k, Signers(c.totalSigners), e))
  }

  ghost predicate PublicHeard(c: Config, k: Coord, e: Epoch, ids: set<nat>, heard: seq<Packet>) {
    e.kind == Public && ids == Signers(c.totalSigners) - EndersIn(Public, heard) && k.publicShares == CommitmentsIn(heard)
  }

  ghost predicate PrivateHeard(c: Config, e: Epoch, ids: set<nat>, heard: seq<Packet>) {
    e.kind == Private && ids == Signers(c.totalSigners) - EndersIn(Private, heard)
  }

  ghost predicate NoncesHeard(c: Config, k: Coord, e: Epoch, heard: seq<Packet>)
    requires c.Valid()
  {
    e.kind == Nonce(k.dkgId) && k.publicNonces == ResponsesOf(c, EndersIn(e.kind, heard), k.dkgId, e.nonces)
  }

  ghost predicate SharesHeard(c: Config, k: Coord, e: Epoch, ids: set<nat>, message: seq<nat>, heard: seq<Packet>)
    requires c.Valid()
  {
    && e.kind == Sign(SignatureShareRequest(k.dkgId, SIGN_ID, 0, Ordered(AllResponses(c, k.dkgId, e.nonces)), message))
    && ids == Signers(c.totalSigners) - EndersIn(e.kind, heard)
    && k.publicNonces == AllResponses(c, k.dkgId, e.nonces)
    && SharesCollected(k, EndersIn(e.kind, heard), e)
  }

  function ResponsesOf(c: Config, signers: set<nat>, dkgId: nat, generation: nat): map<nat, NonceResponse>
    requires c.Valid()
  {
    map i | i in signers && c.IsSigner(i) :: ResponseOf(c, i, dkgId, generation)
  }

  /** The coordinator holds the shares of `signers` for the epoch's request. */
  ghost predicate SharesCollected(k: Coord, signers: set<nat>, e: Epoch)
    requires e.kind.Sign?
  {
    forall i | i in signers :: i in k.signatureShares && k.signatureShares[i] == SharesOf(i, e.kind.request, e.nonces)
  }

  /** The condition the coordinator waits for does not hold yet. */
  ghost predicate StillWaiting(c: Config, s: System)
    requires s.read <= |s.log|
  {
    match s.coord.phase
    case Ready => true
    case AwaitPublicEnds(ids) => ids != {}
    case AwaitDkgEnds(ids) => ids != {}
    case AwaitNonces(_) => EndersIn(s.epoch.kind, Heard(s)) != Signers(c.totalSigners)
    case AwaitShares(ids, _) => ids != {}
  }

  ghost predicate CoordOk(c: Config, s: System)
    requires c.Valid() && s.epoch.start <= |s.log|
    requires SignersKnown(c, s)
  {
    CoordHeard(c, s) && StillWaiting(c, s)
  }

  ghost predicate SignersKnown(c: Config, s: System) {
    forall i {:trigger i in s.nodes} {:trigger c.IsSigner(i)} :: i in s.nodes <==> c.IsSigner(i)
  }

  ghost predicate NodesOk(c: Config, log: seq<Packet>, e: Epoch, nodes: map<nat, Node>)
    requires c.Valid() && e.start <= |log| && forall i :: i in nodes ==> c.IsSigner(i)
  {
    forall i | i in nodes :: NodeOk(c, log, e, i, nodes[i])
  }

  ghost predicate AllFinished(log: seq<Packet>, e: Epoch, nodes: map<nat, Node>)
    requires e.start <= |log|
  {
    forall i | i in nodes :: Finished(log, e, i, nodes[i])
  }

  ghost predicate Inv(c: Config, s: System) {
    && c.Valid() && SignersKnown(c, s)
    && LogOk(c, s.log, s.epoch)
    && NodesOk(c, s.log, s.epoch, s.nodes)
    && CoordOk(c, s)
  }
}
