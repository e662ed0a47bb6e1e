/**
 A signer's state machine. `Round` is the state as a value and `Process` the
 specification of one message; `SigningRound` is the object whose handlers
 update their fields in place and are proved to do exactly that.
 */
module SigningRounds {
  import opened Options
  import opened Results
  import opened FrostMessages

  datatype States =
    | Idle
    | DkgPublicDistribute
    | DkgPublicGather
    | DkgPrivateDistribute
    | DkgPrivateGather
    | SignGather
    | Signed

  datatype Error = BadStateChange(from: States, to: States)

  /** `keyIds` are the signer's 0-based key ids; `polys` and `nonceDraws` count
      how often its polynomials were reset and its nonces drawn. */
  datatype Round = Round(
    signerId: nat,
    totalKeys: nat,
    keyIds: seq<nat>,
    polys: nat,
    nonceDraws: nat,
    dkgId: nat,
    dkgPublicId: nat,
    state: States,
    commitments: map<nat, Commitment>,
    shares: map<nat, EncryptedShares>)
  {
    predicate PublicSharesDone() {
      state == DkgPublicGather && |commitments| == totalKeys
    }

    predicate CanDkgEnd() {
      state == DkgPrivateGather && |commitments| == totalKeys && |shares| == totalKeys
    }
  }

  predicate CanMove(prev: States, next: States) {
    match next
    case Idle => true
    case DkgPublicDistribute => prev in {Idle, DkgPublicGather, DkgPrivateDistribute}
    case DkgPublicGather => prev == DkgPublicDistribute
    case DkgPrivateDistribute => prev == DkgPublicGather
    case DkgPrivateGather => prev == DkgPrivateDistribute
    case SignGather => prev == Idle
    case Signed => prev == SignGather
  }

  function PublicShares(dkgId: nat, dkgPublicId: nat, polys: nat, keyIds: seq<nat>): (out: seq<Message>)
    ensures |out| == |keyIds|
    ensures forall k :: 0 <= k < |out| ==>
              out[k] == DkgPublicShare(dkgId, dkgPublicId, keyIds[k] + 1, Commitment(keyIds[k] + 1, polys))
  {
    seq(|keyIds|, k requires 0 <= k < |keyIds| =>
      DkgPublicShare(dkgId, dkgPublicId, keyIds[k] + 1, Commitment(keyIds[k] + 1, polys)))
  }

  function PrivateShares(dkgId: nat, polys: nat, keyIds: seq<nat>): (out: seq<Message>)
    ensures |out| == |keyIds|
    ensures forall k :: 0 <= k < |out| ==> out[k] == DkgPrivateShares(dkgId, keyIds[k], EncryptedShares(keyIds[k], polys))
  {
    seq(|keyIds|, k requires 0 <= k < |keyIds| => DkgPrivateShares(dkgId, keyIds[k], EncryptedShares(keyIds[k], polys)))
  }

  function PublicNonces(keyIds: seq<nat>, generation: nat): (out: seq<PublicNonce>)
    ensures |out| == |keyIds|
    ensures forall k :: 0 <= k < |out| ==> out[k] == PublicNonce(keyIds[k], generation)
  {
    seq(|keyIds|, k requires 0 <= k < |keyIds| => PublicNonce(keyIds[k], generation))
  }

  function FlatKeyIds(responses: seq<NonceResponse>): seq<nat> {
    if responses == [] then [] else responses[0].keyIds + FlatKeyIds(responses[1..])
  }

  function FlatNonces(responses: seq<NonceResponse>): seq<PublicNonce> {
    if responses == [] then [] else responses[0].nonces + FlatNonces(responses[1..])
  }

  function SignerIds(responses: seq<NonceResponse>): (ids: seq<nat>)
    ensures |ids| == |responses|
    ensures forall k :: 0 <= k < |ids| ==> ids[k] == responses[k].signerId
  {
    seq(|responses|, k requires 0 <= k < |responses| => responses[k].signerId)
  }

  function SignatureSharesFor(r: Round, request: SignatureShareRequest): SignatureShares {
    SignatureShares(r.signerId, r.nonceDraws, request.message,
                    SignerIds(request.nonceResponses), FlatKeyIds(request.nonceResponses), FlatNonces(request.nonceResponses))
  }

  function ShareResponse(r: Round, request: SignatureShareRequest): Message {
    SignShareResponse(request.dkgId, request.signId, request.correlationId, r.signerId, SignatureSharesFor(r, request))
  }

  /** One response for each occurrence of the signer among `ids`. */
  function ShareResponses(r: Round, request: SignatureShareRequest, ids: seq<nat>): seq<Message> {
    if ids == [] then []
    else ShareResponses(r, request, ids[..|ids| - 1])
         + (if ids[|ids| - 1] == r.signerId then [ShareResponse(r, request)] else [])
  }

  function Reset(r: Round, dkgId: nat): Round {
    r.(dkgId := dkgId, dkgPublicId := 0, commitments := map[], shares := map[], polys := r.polys + 1)
  }

  /** A handler's effect: the new state, and the messages to post or the error.
      `order` is the order in which the private shares are enumerated. */
  function Handle(r: Round, m: Message, order: seq<nat>): (Round, Result<seq<Message>, Error>) {
    match m
    case DkgBegin(dkgId) =>
      var r1 := Reset(r, dkgId);
      if !CanMove(r1.state, DkgPublicDistribute) then (r1, Err(BadStateChange(r1.state, DkgPublicDistribute)))
      else (r1.(state := DkgPublicGather), Ok(PublicShares(r1.dkgId, r1.dkgPublicId, r1.polys, r1.keyIds)))
    case DkgPrivateBegin(_) =>
      if !CanMove(r.state, DkgPrivateGather) then (r, Err(BadStateChange(r.state, DkgPrivateGather)))
      else (r.(state := DkgPrivateGather), Ok(PrivateShares(r.dkgId, r.polys, order)))
    case DkgPublicShare(_, _, partyId, share) =>
      (r.(commitments := r.commitments[partyId := share]), Ok([]))
    case DkgPrivateShares(_, keyId, shares) =>
      (r.(shares := r.shares[keyId := shares]), Ok([]))
    case NonceRequest(dkgId, signId, signNonceId) =>
      var r1 := r.(nonceDraws := r.nonceDraws + 1);
      (r1, Ok([NonceReply(NonceResponse(dkgId, signId, signNonceId, r.signerId, r.keyIds, PublicNonces(r.keyIds, r1.nonceDraws)))]))
    case SignShareRequest(request) =>
      (r, Ok(ShareResponses(r, request, SignerIds(request.nonceResponses))))
    case _ => (r, Ok([]))
  }

  /** Processing one message: the handler, then at most one end-of-phase message.
      `outcome` is the status the secret computation reports. */
  function Process(r: Round, m: Message, order: seq<nat>, outcome: DkgStatus): (Round, Result<seq<Message>, Error>) {
    var (r1, out) := Handle(r, m, order);
    if out.Err? then (r1, out)
    else if r1.PublicSharesDone() then
      (r1.(state := DkgPrivateDistribute), Ok(out.value + [DkgPublicEnd(r1.dkgId, r1.signerId, Success)]))
    else if r1.CanDkgEnd() then
      (r1.(state := Idle), Ok(out.value + [DkgEnd(r1.dkgId, r1.signerId, outcome)]))
    else (r1, out)
  }

  ghost predicate IsEnumeration(order: seq<nat>, keyIds: seq<nat>) {
    && (forall k :: k in order <==> k in keyIds)
    && (forall i, j :: 0 <= i < j < |order| ==> order[i] != order[j])
  }

  /** The signer object. `order` stands for the iteration order of the library's
      table of shares, and `outcome` for what its secret computation reports. */
  class SigningRound {
    const signerId: nat
    const totalKeys: nat
    const keyIds: seq<nat>
    var dkgId: nat
    var dkgPublicId: nat
    var state: States
    var commitments: map<nat, Commitment>
    var shares: map<nat, EncryptedShares>
    var polys: nat
    var nonceDraws: nat

    constructor (c: Config, signerId: nat)
      requires c.Valid() && c.IsSigner(signerId)
      ensures Value() == InitialRound(c, signerId)
      ensures state == Idle && dkgId == 1 && dkgPublicId == 1 && commitments == map[] && shares == map[]
      ensures this.signerId == signerId && totalKeys == |c.keyOwner| && signerId in c.signerKeyIds
      ensures |keyIds| == |c.signerKeyIds[signerId]| && forall k :: 0 <= k < |keyIds| ==> keyIds[k] + 1 == c.signerKeyIds[signerId][k]
    {
      this.signerId := signerId;
      this.totalKeys := c.totalKeys;
      this.keyIds := ZeroBased(c, signerId);
      dkgId, dkgPublicId := 1, 1;
      state := Idle;
      commitments, shares := map[], map[];
      polys, nonceDraws := 0, 0;
    }

    ghost function Value(): Round
      reads this
    {
      Round(signerId, totalKeys, keyIds, polys, nonceDraws, dkgId, dkgPublicId, state, commitments, shares)
    }

    method MoveTo(next: States) returns (r: Result<(), Error>)
      modifies `state
      ensures r == if CanMove(old(state), next) then Ok(()) else Err(BadStateChange(old(state), next))
      ensures state == if r.Ok? then next else old(state)
      ensures r.Ok? <==>
                || next == Idle || (old(state) == Idle && next == SignGather)
                || (next == DkgPublicDistribute && old(state) in {Idle, DkgPublicGather, DkgPrivateDistribute})
                || (old(state), next) in {(DkgPublicDistribute, DkgPublicGather), (DkgPublicGather, DkgPrivateDistribute),
                                          (DkgPrivateDistribute, DkgPrivateGather), (SignGather, Signed)}
    {
      if !CanMove(state, next) {
        return Err(BadStateChange(state, next));
      }
      state := next;
      return Ok(());
    }

    method ResetTo(newDkgId: nat)
      modifies this
      ensures Value() == Reset(old(Value()), newDkgId)
    {
      dkgId := newDkgId;
      dkgPublicId := 0;
      commitments := map[];
      shares := map[];
      polys := polys + 1;
    }

    method OnDkgBegin(newDkgId: nat) returns (r: Result<seq<Message>, Error>)
      modifies this
      ensures (Value(), r) == Handle(old(Value()), DkgBegin(newDkgId), keyIds)
    {
      ResetTo(newDkgId);
      var moved := MoveTo(DkgPublicDistribute);
      if moved.Err? {
        return Err(moved.error);
      }
      r := PublicBegin();
    }

    method PublicBegin() returns (r: Result<seq<Message>, Error>)
      requires state == DkgPublicDistribute
      modifies `state
      ensures state == DkgPublicGather
      ensures r == Ok(PublicShares(dkgId, dkgPublicId, polys, keyIds))
    {
      var msgs := [];
      for k := 0 to |keyIds|
        invariant msgs == PublicShares(dkgId, dkgPublicId, polys, keyIds)[..k]
        invariant Value() == old(Value())
      {
        msgs := msgs + [DkgPublicShare(dkgId, dkgPublicId, keyIds[k] + 1, Commitment(keyIds[k] + 1, polys))];
      }
      assert msgs == PublicShares(dkgId, dkgPublicId, polys, keyIds);
      var moved := MoveTo(DkgPublicGather);
      return Ok(msgs);
    }

    method OnDkgPrivateBegin(m: Message, order: seq<nat>) returns (r: Result<seq<Message>, Error>)
      requires m.DkgPrivateBegin?
      modifies `state
      ensures (Value(), r) == Handle(old(Value()), m, order)
    {
      var msgs := [];
      for k := 0 to |order|
        invariant msgs == PrivateShares(dkgId, polys, order)[..k]
        invariant Value() == old(Value())
      {
        msgs := msgs + [DkgPrivateShares(dkgId, order[k], EncryptedShares(order[k], polys))];
      }
      assert msgs == PrivateShares(dkgId, polys, order);
      var moved := MoveTo(DkgPrivateGather);
      if moved.Err? {
        return Err(moved.error);
      }
      return Ok(msgs);
    }

    method OnSignShareRequest(request: SignatureShareRequest) returns (r: Result<seq<Message>, Error>)
      ensures (Value(), r) == Handle(Value(), SignShareRequest(request), keyIds)
    {
      var ids := SignerIds(request.nonceResponses);
      var msgs := [];
      for k := 0 to |ids|
        invariant msgs == ShareResponses(Value(), request, ids[..k])
      {
        assert ids[..k + 1][..k] == ids[..k];
        if ids[k] == signerId {
          var signed := SignatureShares(signerId, nonceDraws, request.message, ids,
                                        FlatKeyIds(request.nonceResponses), FlatNonces(request.nonceResponses));
          msgs := msgs + [SignShareResponse(request.dkgId, request.signId, request.correlationId, signerId, signed)];
        }
      }
      assert ids[..|ids|] == ids;
      return Ok(msgs);
    }

    method OnNonceRequest(request: Message) returns (r: Result<seq<Message>, Error>)
      requires request.NonceRequest?
      modifies `nonceDraws
      ensures (Value(), r) == Handle(old(Value()), request, keyIds)
    {
      nonceDraws := nonceDraws + 1;
      var response := NonceResponse(request.dkgId, request.signId, request.signNonceId, signerId, keyIds,
                                    PublicNonces(keyIds, nonceDraws));
      return Ok([NonceReply(response)]);
    }

    method ProcessMessage(m: Message, order: seq<nat>, outcome: DkgStatus) returns (r: Result<seq<Message>, Error>)
      modifies this
      ensures (Value(), r) == Process(old(Value()), m, order, outcome)
    {
      match m {
        case DkgBegin(newDkgId) => r := OnDkgBegin(newDkgId);
        case DkgPrivateBegin(_) => r := OnDkgPrivateBegin(m, order);
        case DkgPublicShare(_, _, partyId, share) =>
          commitments := commitments[partyId := share];
          r := Ok([]);
        case DkgPrivateShares(_, keyId, privateShares) =>
          shares := shares[keyId := privateShares];
          r := Ok([]);
        case SignShareRequest(request) => r := OnSignShareRequest(request);
        case NonceRequest(_, _, _) => r := OnNonceRequest(m);
        case _ => r := Ok([]);
      }
      if r.Ok? {
        if state == DkgPublicGather && |commitments| == totalKeys {
          r := Ok(r.value + [DkgPublicEnd(dkgId, signerId, Success)]);
          var moved := MoveTo(DkgPrivateDistribute);
        } else if state == DkgPrivateGather && |commitments| == totalKeys && |shares| == totalKeys {
          r := Ok(r.value + [DkgEnd(dkgId, signerId, outcome)]);
          var moved := MoveTo(Idle);
        }
      }
    }
  }

  function ZeroBased(c: Config, i: nat): (keyIds: seq<nat>)
    requires c.Valid() && c.IsSigner(i)
    ensures |keyIds| == |c.signerKeyIds[i]|
    ensures forall k :: 0 <= k < |keyIds| ==> keyIds[k] + 1 == c.signerKeyIds[i][k]
  {
    assert i in c.signerKeyIds;
    assert forall k :: 0 <= k < |c.signerKeyIds[i]| ==> c.signerKeyIds[i][k] in c.signerKeyIds[i];
    seq(|c.signerKeyIds[i]|, k requires 0 <= k < |c.signerKeyIds[i]| => (c.signerKeyIds[i][k] - 1) as nat)
  }

  function InitialRound(c: Config, i: nat): Round
    requires c.Valid() && c.IsSigner(i)
  {
    Round(i, c.totalKeys, ZeroBased(c, i), 0, 0, 1, 1, Idle, map[], map[])
  }
}
