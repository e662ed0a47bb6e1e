/**
 What one honest signer guarantees however its peers behave: against any sequence
 of packets that pass its signature check, until its first error.
 */
module SignerSafety {
  import opened Options
  import opened Results
  import opened FrostMessages
  import opened SigningRounds
  import opened FrostProtocol
  import opened FrostInvariant

  /** A received packet, with the order in which shares would be enumerated and
      the status the secret computation would report. */
  datatype Input = Input(packet: Packet, order: seq<nat>, outcome: DkgStatus)

  /** The signer's state and everything it has emitted after `inputs`; `None` once
      a message made it stop. */
  function Run(c: Config, r: Round, inputs: seq<Input>): Option<(Round, seq<Message>)> {
    if inputs == [] then Some((r, []))
    else
      var last := inputs[|inputs| - 1];
      match Run(c, r, inputs[..|inputs| - 1])
      case None => None
      case Some((r0, out)) =>
        if !VerifyMsg(c, last.packet) then Some((r0, out))
        else
          var (r1, more) := Process(r0, last.packet.msg, last.order, last.outcome);
          if more.Err? then None else Some((r1, out + more.value))
  }

  datatype EndKind = PublicEnd | PrivateEnd

  /** The end-of-phase announcements among `out`, in order. */
  function Ends(out: seq<Message>): seq<EndKind> {
    if out == [] then []
    else
      var last := out[|out| - 1];
      Ends(out[..|out| - 1]) + (if last.DkgPublicEnd? then [PublicEnd] else if last.DkgEnd? then [PrivateEnd] else [])
  }

  lemma {:induction false} EndsConcat(a: seq<Message>, b: seq<Message>)
    ensures Ends(a + b) == Ends(a) + Ends(b)
  {
    if b == [] {
      assert a + b == a;
    } else {
      EndsConcat(a, b[..|b| - 1]);
      assert (a + b)[..|a + b| - 1] == a + b[..|b| - 1];
    }
  }

  lemma {:induction false} NoEnds(out: seq<Message>)
    requires forall k :: 0 <= k < |out| ==> !out[k].DkgPublicEnd? && !out[k].DkgEnd?
    ensures Ends(out) == []
  {
    if out != [] {
      NoEnds(out[..|out| - 1]);
    }
  }

  /** Between messages a signer is in one of four states, holds only known keys'
      values, and never rests with a phase completed. */
  ghost predicate Resting(c: Config, r: Round) {
    && (r.state == Idle || r.state == DkgPublicGather || r.state == DkgPrivateDistribute || r.state == DkgPrivateGather)
    && r.totalKeys == c.totalKeys
    && !r.PublicSharesDone() && !r.CanDkgEnd()
    && r.commitments.Keys <= c.keyOwner.Keys && (forall k | k in r.shares :: k + 1 in c.keyOwner)
    && (r.state == DkgPrivateDistribute || r.state == DkgPrivateGather ==> |r.commitments| == c.totalKeys)
  }

  /** The announcements an attempt has produced, by the state it has reached. */
  function EndsBy(state: States): seq<EndKind> {
    match state
    case DkgPrivateDistribute => [PublicEnd]
    case DkgPrivateGather => [PublicEnd]
    case Idle => [PublicEnd, PrivateEnd]
    case _ => []
  }

  lemma HandlerEndsNothing(r: Round, m: Message, order: seq<nat>)
    ensures Handle(r, m, order).1.Ok? ==> Ends(Handle(r, m, order).1.value) == []
  {
    var out := Handle(r, m, order).1;
    if out.Ok? {
      if m.SignShareRequest? {
        NoEndsInResponses(r, m.request, SignerIds(m.request.nonceResponses));
      }
      NoEnds(out.value);
    }
  }

  lemma {:induction false} NoEndsInResponses(r: Round, request: SignatureShareRequest, ids: seq<nat>)
    ensures forall k :: 0 <= k < |ShareResponses(r, request, ids)| ==> ShareResponses(r, request, ids)[k].SignShareResponse?
  {
    if ids != [] {
      NoEndsInResponses(r, request, ids[..|ids| - 1]);
    }
  }

  lemma GrowsWithin(c: Config, r: Round, p: nat, share: Commitment)
    requires c.Valid() && r.commitments.Keys <= c.keyOwner.Keys && p in c.keyOwner
    ensures |r.commitments[p := share]| <= c.totalKeys
    ensures |r.commitments| == c.totalKeys ==> |r.commitments[p := share]| == c.totalKeys
  {
    var m := r.commitments[p := share];
    KeyCount(c);
    SubsetSize(m.Keys, c.keyOwner.Keys);
    assert |m| == |m.Keys| && |r.commitments| == |r.commitments.Keys|;
    SubsetSize(r.commitments.Keys, m.Keys);
  }

  /** One accepted message: the signer rests again, and its announcements fit. */
  lemma ProcessRests(c: Config, r: Round, p: Packet, order: seq<nat>, outcome: DkgStatus)
    requires c.Valid() && Resting(c, r) && VerifyMsg(c, p) && Process(r, p.msg, order, outcome).1.Ok?
    ensures var (r1, out) := Process(r, p.msg, order, outcome);
            && Resting(c, r1)
            && Ends(out.value) == (if p.msg.DkgBegin? then EndsBy(r1.state)
                                   else if r1.state == r.state || (r.state == DkgPrivateDistribute && r1.state == DkgPrivateGather) then []
                                   else if r.state == DkgPublicGather then [PublicEnd]
                                   else [PrivateEnd])
            && (!p.msg.DkgBegin? && r1.state != r.state ==>
                  || (r.state == DkgPublicGather && r1.state == DkgPrivateDistribute)
                  || (r.state == DkgPrivateDistribute && r1.state == DkgPrivateGather)
                  || (r.state == DkgPrivateDistribute && r1.state == Idle)
                  || (r.state == DkgPrivateGather && r1.state == Idle))
  {
    hide Config.Valid, Handle, Ends;
    HandlerEndsNothing(r, p.msg, order);
    HandlerSteps(c, r, p, order);
    var (h, out) := Handle(r, p.msg, order);
    var publicEnd, privateEnd := DkgPublicEnd(h.dkgId, h.signerId, Success), DkgEnd(h.dkgId, h.signerId, outcome);
    EndsConcat(out.value, [publicEnd]);
    EndsConcat(out.value, [privateEnd]);
    OneEnd(publicEnd);
    OneEnd(privateEnd);
  }

  /** What an accepted message's handler leaves, before the check for full maps. */
  lemma HandlerSteps(c: Config, r: Round, p: Packet, order: seq<nat>)
    requires c.Valid() && Resting(c, r) && VerifyMsg(c, p) && Handle(r, p.msg, order).1.Ok?
    ensures var h := Handle(r, p.msg, order).0;
            && h.totalKeys == c.totalKeys
            && h.commitments.Keys <= c.keyOwner.Keys && (forall k | k in h.shares :: k + 1 in c.keyOwner)
            && (if p.msg.DkgBegin? then h.state == DkgPublicGather
                else if p.msg.DkgPrivateBegin? then r.state == DkgPrivateDistribute && h.state == DkgPrivateGather
                else h.state == r.state)
            && (h.state == DkgPrivateDistribute || h.state == DkgPrivateGather ==> |h.commitments| == c.totalKeys)
  {
    if p.msg.DkgPublicShare? {
      GrowsWithin(c, r, p.msg.partyId, p.msg.publicShare);
    }
    hide Config.Valid;
  }

  lemma OneEnd(m: Message)
    ensures Ends([m]) == if m.DkgPublicEnd? then [PublicEnd] else if m.DkgEnd? then [PrivateEnd] else []
  {
    assert [m][..0] == [];
  }

  lemma {:induction false} RunRests(c: Config, i: nat, inputs: seq<Input>)
    requires c.Valid() && c.IsSigner(i) && Run(c, InitialRound(c, i), inputs).Some?
    ensures Resting(c, Run(c, InitialRound(c, i), inputs).value.0)
  {
    hide Config.Valid, Resting, Process;
    if inputs == [] {
      InitialRests(c, i);
    } else {
      var last := inputs[|inputs| - 1];
      RunRests(c, i, inputs[..|inputs| - 1]);
      var r0 := Run(c, InitialRound(c, i), inputs[..|inputs| - 1]).value.0;
      if VerifyMsg(c, last.packet) {
        ProcessRests(c, r0, last.packet, last.order, last.outcome);
      }
    }
  }

  lemma InitialRests(c: Config, i: nat)
    requires c.Valid() && c.IsSigner(i)
    ensures Resting(c, InitialRound(c, i))
  {
  }

  /** From one accepted `DkgBegin` to before the next, whatever else arrives, the
      announcements are exactly those of the state reached: none while gathering
      public shares, then one public end, and after that one private end. */
  lemma {:induction false} EndsOncePerAttempt(c: Config, i: nat, before: seq<Input>, begin: Input, after: seq<Input>)
    requires c.Valid() && c.IsSigner(i) && begin.packet.msg.DkgBegin? && VerifyMsg(c, begin.packet)
    requires forall k :: 0 <= k < |after| ==> !after[k].packet.msg.DkgBegin?
    requires Run(c, InitialRound(c, i), before).Some?
    requires Run(c, Run(c, InitialRound(c, i), before).value.0, [begin] + after).Some?
    ensures var (r, out) := Run(c, Run(c, InitialRound(c, i), before).value.0, [begin] + after).value;
            Resting(c, r) && Ends(out) == EndsBy(r.state)
  {
    hide Config.Valid, Resting, Process, Ends, EndsBy;
    RunRests(c, i, before);
    AttemptEnds(c, Run(c, InitialRound(c, i), before).value.0, begin, after);
  }

  lemma {:induction false} AttemptEnds(c: Config, r: Round, begin: Input, after: seq<Input>)
    requires c.Valid() && Resting(c, r) && begin.packet.msg.DkgBegin? && VerifyMsg(c, begin.packet)
    requires forall k :: 0 <= k < |after| ==> !after[k].packet.msg.DkgBegin?
    requires Run(c, r, [begin] + after).Some?
    ensures var (r1, out) := Run(c, r, [begin] + after).value;
            Resting(c, r1) && Ends(out) == EndsBy(r1.state)
  {
    hide Config.Valid, Resting, Process;
    var all := [begin] + after;
    if after == [] {
      assert all == [begin] && all[..0] == [];
      ProcessRests(c, r, begin.packet, begin.order, begin.outcome);
      assert Run(c, r, all).value.1 == [] + Process(r, begin.packet.msg, begin.order, begin.outcome).1.value;
      assert [] + Process(r, begin.packet.msg, begin.order, begin.outcome).1.value == Process(r, begin.packet.msg, begin.order, begin.outcome).1.value;
    } else {
      var last := after[|after| - 1];
      assert all[..|all| - 1] == [begin] + after[..|after| - 1];
      AttemptEnds(c, r, begin, after[..|after| - 1]);
      var (r0, out) := Run(c, r, all[..|all| - 1]).value;
      if VerifyMsg(c, last.packet) {
        ProcessRests(c, r0, last.packet, last.order, last.outcome);
        EndsConcat(out, Process(r0, last.packet.msg, last.order, last.outcome).1.value);
      }
    }
  }

  /** An announcement is only made with a commitment of every key, and the private
      one only with a share set of every key too. */
  lemma EndsOnlyWhenFull(c: Config, i: nat, inputs: seq<Input>, last: Input)
    requires c.Valid() && c.IsSigner(i) && VerifyMsg(c, last.packet)
    requires Run(c, InitialRound(c, i), inputs).Some?
    requires Process(Run(c, InitialRound(c, i), inputs).value.0, last.packet.msg, last.order, last.outcome).1.Ok?
    ensures var (r, out) := Process(Run(c, InitialRound(c, i), inputs).value.0, last.packet.msg, last.order, last.outcome);
            && (PublicEnd in Ends(out.value) ==> r.commitments.Keys == c.keyOwner.Keys)
            && (PrivateEnd in Ends(out.value) ==>
                  r.commitments.Keys == c.keyOwner.Keys && forall k :: k in r.shares <==> k + 1 in c.keyOwner)
  {
    RunRests(c, i, inputs);
    var r0 := Run(c, InitialRound(c, i), inputs).value.0;
    FullWhenEnding(c, r0, last.packet, last.order, last.outcome);
  }

  lemma FullWhenEnding(c: Config, r0: Round, p: Packet, order: seq<nat>, outcome: DkgStatus)
    requires c.Valid() && Resting(c, r0) && VerifyMsg(c, p) && Process(r0, p.msg, order, outcome).1.Ok?
    ensures var (r, out) := Process(r0, p.msg, order, outcome);
            && (PublicEnd in Ends(out.value) ==> r.commitments.Keys == c.keyOwner.Keys)
            && (PrivateEnd in Ends(out.value) ==>
                  r.commitments.Keys == c.keyOwner.Keys && forall k :: k in r.shares <==> k + 1 in c.keyOwner)
  {
    hide Handle, EndsBy, Config.Valid, VerifyMsg, Ends;
    HandlerEndsNothing(r0, p.msg, order);
    ProcessRests(c, r0, p, order, outcome);
    var (h, handled) := Handle(r0, p.msg, order);
    var (r, out) := Process(r0, p.msg, order, outcome);
    assert r.commitments == h.commitments && r.shares == h.shares;
    if h.PublicSharesDone() || h.CanDkgEnd() {
      FullCommitmentKeys(c, r);
      if h.CanDkgEnd() {
        FullShareKeys(c, r);
        EndsConcat(handled.value, [DkgEnd(h.dkgId, h.signerId, outcome)]);
        OneEnd(DkgEnd(h.dkgId, h.signerId, outcome));
      } else {
        EndsConcat(handled.value, [DkgPublicEnd(h.dkgId, h.signerId, Success)]);
        OneEnd(DkgPublicEnd(h.dkgId, h.signerId, Success));
      }
    } else {
      assert out == handled;
    }
  }

  lemma FullCommitmentKeys(c: Config, r: Round)
    requires c.Valid() && r.commitments.Keys <= c.keyOwner.Keys && |r.commitments| == c.totalKeys
    ensures r.commitments.Keys == c.keyOwner.Keys
  {
    KeyCount(c);
    assert |r.commitments| == |r.commitments.Keys|;
    SubsetOfSameSize(r.commitments.Keys, c.keyOwner.Keys);
  }

  lemma FullShareKeys(c: Config, r: Round)
    requires c.Valid() && (forall k | k in r.shares :: k + 1 in c.keyOwner) && |r.shares| == c.totalKeys
    ensures forall k :: k in r.shares <==> k + 1 in c.keyOwner
  {
    KeyCount(c);
    forall k | k in r.shares.Keys
      ensures k in ZeroBasedKeys(c)
    {
      assert k == (k + 1) - 1;
    }
    assert |r.shares| == |r.shares.Keys|;
    SubsetOfSameSize(r.shares.Keys, ZeroBasedKeys(c));
    forall k: nat | k + 1 in c.keyOwner
      ensures k in r.shares
    {
      assert (k + 1) - 1 in ZeroBasedKeys(c);
    }
  }

  // ---------- Whose messages count ----------

  /** The packet was signed by the party whose message it is: the coordinator for its four
      commands, the signer that is named, or the signer that holds the key. */
  ghost predicate IsItsParty(c: Config, p: Packet) {
    match p.msg
    case DkgEnd(_, signerId, _) => c.IsSigner(signerId) && p.signedBy == signerId
    case DkgPublicEnd(_, signerId, _) => c.IsSigner(signerId) && p.signedBy == signerId
    case SignShareResponse(_, _, _, signerId, _) => c.IsSigner(signerId) && p.signedBy == signerId
    case NonceReply(response) => c.IsSigner(response.signerId) && p.signedBy == response.signerId
    case DkgPublicShare(_, _, partyId, _) => p.signedBy in c.signerKeyIds && partyId in c.signerKeyIds[p.signedBy]
    case DkgPrivateShares(_, keyId, _) => p.signedBy in c.signerKeyIds && keyId + 1 in c.signerKeyIds[p.signedBy]
    case _ => p.signedBy == 0
  }

  /** A packet signed by anybody else is read and changes nothing. */
  lemma OthersAreIgnored(c: Config, node: Node, p: Packet, order: seq<nat>, outcome: DkgStatus)
    requires c.Valid()
    ensures VerifyMsg(c, p) <==> IsItsParty(c, p)
    ensures !IsItsParty(c, p) ==> Receive(c, node, p, order, outcome) == node.(read := node.read + 1)
  {
    match p.msg
    case DkgPublicShare(_, _, partyId, _) => HoldsItsKeys(c, p.signedBy, partyId);
    case DkgPrivateShares(_, keyId, _) => HoldsItsKeys(c, p.signedBy, keyId + 1);
    case _ =>
  }

  lemma HoldsItsKeys(c: Config, i: nat, key: nat)
    requires c.Valid()
    ensures i in c.signerKeyIds && key in c.signerKeyIds[i] <==> key in c.keyOwner && c.keyOwner[key] == i
  {
    if key in c.keyOwner && c.keyOwner[key] == i {
      assert c.IsSigner(i);
    }
  }

  // ---------- What is answered ----------

  /** A signer stops at a message exactly when a begin finds it in the wrong state. A refused
      public begin has thrown away its maps all the same. */
  lemma RefusesIff(r: Round, m: Message, order: seq<nat>, outcome: DkgStatus)
    ensures var (r1, out) := Process(r, m, order, outcome);
            && (out.Err? <==>
                  || (m.DkgBegin? && r.state != Idle && r.state != DkgPublicGather && r.state != DkgPrivateDistribute)
                  || (m.DkgPrivateBegin? && r.state != DkgPrivateDistribute))
            && (out.Err? ==> r1.state == r.state)
            && (m.DkgBegin? ==> r1.dkgId == m.dkgId && r1.commitments == map[] && r1.shares == map[] && r1.polys == r.polys + 1)
  {
  }

  /** Behind the handler's messages there is at most one end of a phase, under the current id. */
  ghost predicate OnlyEnds(r: Round, out: seq<Message>, from: nat) {
    && from <= |out| <= from + 1
    && (from < |out| ==>
          || out[from] == DkgPublicEnd(r.dkgId, r.signerId, Success)
          || (out[from].DkgEnd? && out[from].dkgId == r.dkgId && out[from].signerId == r.signerId))
  }

  /** What is posted in answer to a message, and under which ids: one commitment of the new
      polynomials for each own key under the id of the begin; one share set for each key
      enumerated, of the current polynomials; fresh nonces of all own keys, and nothing else
      than a response for each listing, under the ids of the request. */
  lemma AnswersCarryIds(r: Round, m: Message, order: seq<nat>, outcome: DkgStatus)
    requires Process(r, m, order, outcome).1.Ok?
    ensures var (r1, answer) := Process(r, m, order, outcome);
            var out := answer.value;
            && r1.signerId == r.signerId && r1.totalKeys == r.totalKeys && r1.keyIds == r.keyIds
            && match m
               case DkgBegin(id) =>
                 && r1.dkgId == id && OnlyEnds(r1, out, |r.keyIds|)
                 && forall k :: 0 <= k < |r.keyIds| ==>
                      out[k] == DkgPublicShare(id, 0, r.keyIds[k] + 1, Commitment(r.keyIds[k] + 1, r.polys + 1))
               case DkgPrivateBegin(_) =>
                 && r1.dkgId == r.dkgId && OnlyEnds(r1, out, |order|)
                 && forall k :: 0 <= k < |order| ==>
                      out[k] == DkgPrivateShares(r.dkgId, order[k], EncryptedShares(order[k], r.polys))
               case NonceRequest(dkgId, signId, signNonceId) =>
                 && out != [] && out[0].NonceReply? && OnlyEnds(r1, out, 1)
                 && var reply := out[0].response;
                    && reply.dkgId == dkgId && reply.signId == signId && reply.signNonceId == signNonceId
                    && reply.signerId == r.signerId && reply.keyIds == r.keyIds && |reply.nonces| == |r.keyIds|
                    && forall k :: 0 <= k < |r.keyIds| ==> reply.nonces[k] == PublicNonce(r.keyIds[k], r.nonceDraws + 1)
               case SignShareRequest(_) => true
               case DkgPublicShare(_, _, partyId, share) =>
                 OnlyEnds(r1, out, 0) && r1.commitments == r.commitments[partyId := share] && r1.shares == r.shares
               case DkgPrivateShares(_, keyId, sealed) =>
                 OnlyEnds(r1, out, 0) && r1.shares == r.shares[keyId := sealed] && r1.commitments == r.commitments
               case _ => OnlyEnds(r1, out, 0) && r1.commitments == r.commitments && r1.shares == r.shares
  {
  }

  /** How often a signer is listed. */
  function Listings(responses: seq<NonceResponse>, i: nat): nat {
    if responses == [] then 0
    else Listings(responses[..|responses| - 1], i) + if responses[|responses| - 1].signerId == i then 1 else 0
  }

  function Count(ids: seq<nat>, i: nat): nat {
    if ids == [] then 0 else Count(ids[..|ids| - 1], i) + if ids[|ids| - 1] == i then 1 else 0
  }

  lemma {:induction false} ListingsCount(responses: seq<NonceResponse>, i: nat)
    ensures Count(SignerIds(responses), i) == Listings(responses, i)
  {
    if responses != [] {
      var n := |responses| - 1;
      assert SignerIds(responses)[..n] == SignerIds(responses[..n]);
      ListingsCount(responses[..n], i);
    }
  }

  lemma {:induction false} ResponsesMatch(r: Round, request: SignatureShareRequest, ids: seq<nat>)
    ensures |ShareResponses(r, request, ids)| == Count(ids, r.signerId)
    ensures forall x | x in ShareResponses(r, request, ids) :: x == ShareResponse(r, request)
  {
    if ids != [] {
      ResponsesMatch(r, request, ids[..|ids| - 1]);
    }
  }

  /** A request is answered once for each listing of the signer, under the ids of the request
      and over its message. */
  lemma ResponsesCarryIds(r: Round, request: SignatureShareRequest, order: seq<nat>, outcome: DkgStatus)
    ensures var (r1, answer) := Process(r, SignShareRequest(request), order, outcome);
            var n := Listings(request.nonceResponses, r.signerId);
            && answer.Ok? && OnlyEnds(r1, answer.value, n)
            && forall k :: 0 <= k < n ==>
                 var x := answer.value[k];
                 && x.SignShareResponse? && x.dkgId == request.dkgId && x.signId == request.signId
                 && x.correlationId == request.correlationId && x.signerId == r.signerId
                 && x.signatureShares.generation == r.nonceDraws && x.signatureShares.message == request.message
  {
    hide ShareResponses, Count, Listings;
    var ids := SignerIds(request.nonceResponses);
    ResponsesMatch(r, request, ids);
    ListingsCount(request.nonceResponses, r.signerId);
    var out := ShareResponses(r, request, ids);
    assert forall k :: 0 <= k < |out| ==> out[k] in out;
  }
}
