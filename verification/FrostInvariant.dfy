/**
 Every step of the protocol keeps its invariant.
 */
module FrostInvariant {
  import opened Options
  import opened Results
  import opened FrostMessages
  import opened SigningRounds
  import opened FrostCoordinators
  import opened FrostProtocol

  // ---------- Counting ----------

  lemma SubsetOfSameSize<T>(a: set<T>, b: set<T>)
    requires a <= b && |a| == |b|
    ensures a == b
  {
    assert b == a + (b - a);
    assert |b| == |a| + |b - a|;
  }

  lemma SubsetSize<T>(a: set<T>, b: set<T>)
    requires a <= b
    ensures |a| <= |b|
  {
    assert b == a + (b - a);
  }

  lemma {:induction false} ShiftedSize(keys: set<nat>, shifted: set<nat>)
    requires 0 !in keys && shifted == set p | p in keys :: (p - 1) as nat
    ensures |shifted| == |keys|
  {
    if keys != {} {
      var x :| x in keys;
      var rest := set p | p in keys - {x} :: (p - 1) as nat;
      ShiftedSize(keys - {x}, rest);
      var top: nat := x - 1;
      assert top !in rest;
      forall k | k in shifted
        ensures k in rest + {top}
      {
        var p :| p in keys && k == p - 1;
        if p != x {
          assert p in keys - {x};
        }
      }
      assert shifted == rest + {top};
    }
  }

  lemma KeyCount(c: Config)
    requires c.Valid()
    ensures |c.keyOwner.Keys| == c.totalKeys && |ZeroBasedKeys(c)| == c.totalKeys
  {
    ShiftedSize(c.keyOwner.Keys, ZeroBasedKeys(c));
    assert |c.keyOwner| == |c.keyOwner.Keys|;
  }

  function Elements(s: seq<nat>): set<nat> {
    set x | x in s
  }

  lemma {:induction false} ElementCount(s: seq<nat>)
    ensures |Elements(s)| <= |s|
    ensures (forall i, j :: 0 <= i < j < |s| ==> s[i] != s[j]) ==> |Elements(s)| == |s|
  {
    if s != [] {
      var init, last := s[..|s| - 1], s[|s| - 1];
      ElementCount(init);
      assert s == init + [last];
      assert Elements(s) == Elements(init) + {last};
    }
  }

  lemma EnumerationSize(order: seq<nat>, keyIds: seq<nat>)
    requires IsEnumeration(order, keyIds)
    ensures |order| <= |keyIds|
  {
    ElementCount(order);
    ElementCount(keyIds);
    assert Elements(order) == Elements(keyIds);
  }

  // ---------- What a signer has gathered ----------

  ghost predicate AllOf(c: Config, e: Epoch, s: seq<Packet>)
    requires c.Valid()
  {
    forall k :: 0 <= k < |s| ==> EpochPacket(c, e, s[k])
  }

  /** Gathered commitments are of this attempt only, and full means all of them. */
  lemma {:induction false} CommitmentsGathered(c: Config, e: Epoch, s: seq<Packet>)
    requires c.Valid() && e.kind == Public && AllOf(c, e, s)
    ensures CommitmentsIn(s).Keys <= c.keyOwner.Keys
    ensures forall p | p in CommitmentsIn(s) :: CommitmentsIn(s)[p] == Commitment(p, e.polys)
    ensures |CommitmentsIn(s)| == c.totalKeys <==> CommitmentsIn(s) == AllCommitments(c, e.polys)
  {
    if s != [] {
      CommitmentsGathered(c, e, s[..|s| - 1]);
      assert EpochPacket(c, e, s[|s| - 1]);
    }
    KeyCount(c);
    var m, all := CommitmentsIn(s), AllCommitments(c, e.polys);
    assert all.Keys == c.keyOwner.Keys;
    assert |m| == |m.Keys| && |all| == |all.Keys|;
    if |m| == c.totalKeys {
      SubsetOfSameSize(m.Keys, all.Keys);
    }
  }

  lemma {:induction false} SharesGathered(c: Config, e: Epoch, s: seq<Packet>)
    requires c.Valid() && e.kind == Private && AllOf(c, e, s)
    ensures SharesIn(s).Keys <= ZeroBasedKeys(c)
    ensures forall k | k in SharesIn(s) :: SharesIn(s)[k] == EncryptedShares(k, e.polys)
    ensures |SharesIn(s)| == c.totalKeys <==> SharesIn(s) == AllShares(c, e.polys)
  {
    if s != [] {
      SharesGathered(c, e, s[..|s| - 1]);
      var p := s[|s| - 1];
      assert EpochPacket(c, e, p);
      if p.msg.DkgPrivateShares? {
        assert p.msg.keyId == (p.msg.keyId + 1) - 1;
        assert p.msg.keyId in ZeroBasedKeys(c);
      }
    }
    KeyCount(c);
    var m, all := SharesIn(s), AllShares(c, e.polys);
    assert all.Keys == ZeroBasedKeys(c);
    assert |m| == |m.Keys| && |all| == |all.Keys|;
    if |m| == c.totalKeys {
      SubsetOfSameSize(m.Keys, all.Keys);
    }
  }

  // ---------- A signer processes a message ----------

  function Stored(r: Round, m: Message): Round {
    if m.DkgPublicShare? then r.(commitments := r.commitments[m.partyId := m.publicShare])
    else if m.DkgPrivateShares? then r.(shares := r.shares[m.keyId := m.privateShares])
    else r
  }

  /** Another signer's message is only stored, unless it completes a phase. */
  lemma StoresOnly(r: Round, m: Message, order: seq<nat>, outcome: DkgStatus)
    requires !FromCoordinator(m)
    ensures !Stored(r, m).PublicSharesDone() && !Stored(r, m).CanDkgEnd() ==>
              Process(r, m, order, outcome) == (Stored(r, m), Ok([]))
    ensures Stored(r, m).PublicSharesDone() ==>
              Process(r, m, order, outcome) == (Stored(r, m).(state := DkgPrivateDistribute), Ok([DkgPublicEnd(r.dkgId, r.signerId, Success)]))
    ensures Stored(r, m).CanDkgEnd() ==>
              Process(r, m, order, outcome) == (Stored(r, m).(state := Idle), Ok([DkgEnd(r.dkgId, r.signerId, outcome)]))
  {
    assert Handle(r, m, order) == (Stored(r, m), Ok([]));
    assert forall x: Message :: [] + [x] == [x];
  }

  /** A signer's contribution passes every receiver's check. */
  lemma EpochPacketVerifies(c: Config, e: Epoch, p: Packet)
    requires c.Valid() && EpochPacket(c, e, p)
    ensures VerifyMsg(c, p) && !FromCoordinator(p.msg)
  {
  }

  lemma OpenPublic(c: Config, e: Epoch, i: nat, r: Round, m: Message, order: seq<nat>, outcome: DkgStatus)
    returns (r1: Round, out: seq<Message>)
    requires c.Valid() && c.IsSigner(i) && e.kind == Public && m.DkgBegin?
    requires Identity(c, i, r) && (r.state == Idle || r.state == DkgPrivateDistribute)
    requires r.polys == e.polys - 1 && r.nonceDraws == e.nonces
    ensures Process(r, m, order, outcome) == (r1, Ok(out)) && Identity(c, i, r1)
    ensures Caught(c, e, i, r1, [], out)
    ensures forall x | x in out :: EpochPacket(c, e, Packet(x, i))
  {
    var r0 := Reset(r, m.dkgId).(state := DkgPublicGather);
    var shares := PublicShares(r0.dkgId, r0.dkgPublicId, r0.polys, r0.keyIds);
    KeyCount(c);
    if c.totalKeys == 0 {
      assert AllCommitments(c, e.polys) == map[];
      r1, out := r0.(state := DkgPrivateDistribute), shares + [DkgPublicEnd(r0.dkgId, i, Success)];
    } else {
      r1, out := r0, shares;
    }
    assert i in c.signerKeyIds;
    forall q | q in c.signerKeyIds[i]
      ensures exists x :: x in out && x.DkgPublicShare? && x.partyId == q
    {
      var k :| 0 <= k < |c.signerKeyIds[i]| && c.signerKeyIds[i][k] == q;
      assert out[k] in out && out[k].partyId == q;
    }
    forall k | 0 <= k < |shares|
      ensures EpochPacket(c, e, Packet(shares[k], i))
    {
      assert c.signerKeyIds[i][k] in c.signerKeyIds[i];
    }
  }

  lemma OpenPrivate(c: Config, e: Epoch, i: nat, r: Round, m: Message, order: seq<nat>, outcome: DkgStatus)
    returns (r1: Round, out: seq<Message>)
    requires c.Valid() && c.IsSigner(i) && e.kind == Private && m.DkgPrivateBegin?
    requires Identity(c, i, r) && r.state == DkgPrivateDistribute && IsEnumeration(order, r.keyIds)
    requires r.polys == e.polys && r.nonceDraws == e.nonces
    requires r.commitments == AllCommitments(c, e.polys) && r.shares == map[]
    ensures Process(r, m, order, outcome) == (r1, Ok(out)) && Identity(c, i, r1)
    ensures Caught(c, e, i, r1, [], out)
    ensures forall x | x in out :: EpochPacket(c, e, Packet(x, i))
  {
    EnumerationSize(order, r.keyIds);
    var r0 := r.(state := DkgPrivateGather);
    var shares := PrivateShares(r.dkgId, r.polys, order);
    FullCommitments(c, e.polys);
    KeyCount(c);
    if c.totalKeys == 0 {
      assert ZeroBasedKeys(c) == {};
      r1, out := r0.(state := Idle), shares + [DkgEnd(r.dkgId, i, outcome)];
    } else {
      r1, out := r0, shares;
    }
    assert i in c.signerKeyIds;
    forall q | q in c.signerKeyIds[i]
      ensures exists x :: x in out && x.DkgPrivateShares? && x.keyId + 1 == q
    {
      var k :| 0 <= k < |c.signerKeyIds[i]| && c.signerKeyIds[i][k] == q;
      assert r.keyIds[k] in r.keyIds;
      var j :| 0 <= j < |order| && order[j] == r.keyIds[k];
      assert out[j] in out && out[j].keyId + 1 == q;
    }
    forall j | 0 <= j < |shares|
      ensures EpochPacket(c, e, Packet(shares[j], i))
    {
      assert order[j] in order;
      var k :| 0 <= k < |r.keyIds| && r.keyIds[k] == order[j];
      assert c.signerKeyIds[i][k] in c.signerKeyIds[i];
    }
  }

  lemma FullCommitments(c: Config, generation: nat)
    requires c.Valid()
    ensures |AllCommitments(c, generation)| == c.totalKeys
  {
    KeyCount(c);
    assert AllCommitments(c, generation).Keys == c.keyOwner.Keys;
    assert |AllCommitments(c, generation)| == |AllCommitments(c, generation).Keys|;
  }

  /** A signer listed once answers a share request once. */
  lemma {:induction false} RespondsOnce(r: Round, request: SignatureShareRequest, ids: seq<nat>)
    requires forall j, k :: 0 <= j < k < |ids| ==> ids[j] != ids[k]
    ensures ShareResponses(r, request, ids) == if r.signerId in ids then [ShareResponse(r, request)] else []
  {
    if ids != [] {
      RespondsOnce(r, request, ids[..|ids| - 1]);
      assert ids == ids[..|ids| - 1] + [ids[|ids| - 1]];
    }
  }

  /** All signers' responses, listed in key order, name each signer exactly once. */
  lemma ListsEverySigner(c: Config, dkgId: nat, generation: nat)
    requires c.Valid()
    ensures forall i :: i in SignerIds(Ordered(AllResponses(c, dkgId, generation))) <==> c.IsSigner(i)
    ensures var ids := SignerIds(Ordered(AllResponses(c, dkgId, generation)));
            forall j, k :: 0 <= j < k < |ids| ==> ids[j] < ids[k]
  {
    var m := AllResponses(c, dkgId, generation);
    var keys, ids := SortedKeys(m.Keys), SignerIds(Ordered(m));
    assert forall k :: 0 <= k < |keys| ==> ids[k] == keys[k];
    assert ids == keys;
  }

  lemma OpenSign(c: Config, e: Epoch, i: nat, r: Round, order: seq<nat>, outcome: DkgStatus)
    requires c.Valid() && c.IsSigner(i) && Identity(c, i, r) && r.state == Idle && r.nonceDraws == e.nonces
    requires e.kind.Sign? && e.kind.request.nonceResponses == Ordered(AllResponses(c, e.kind.request.dkgId, e.nonces))
    ensures Process(r, SignShareRequest(e.kind.request), order, outcome) == (r, Ok([ShareReplyOf(i, e.kind.request, e.nonces)]))
  {
    var request := e.kind.request;
    assert ShareResponses(r, request, SignerIds(request.nonceResponses)) == [ShareResponse(r, request)] by {
      ListsEverySigner(c, request.dkgId, e.nonces);
      RespondsOnce(r, request, SignerIds(request.nonceResponses));
    }
    RequestHandled(r, request, order, outcome);
  }

  lemma RequestHandled(r: Round, request: SignatureShareRequest, order: seq<nat>, outcome: DkgStatus)
    requires r.state == Idle
    ensures Process(r, SignShareRequest(request), order, outcome) == (r, Ok(ShareResponses(r, request, SignerIds(request.nonceResponses))))
  {
  }

  lemma SignerListed(c: Config, i: nat)
    requires c.Valid() && c.IsSigner(i)
    ensures i in c.signerKeyIds
  {
  }

  lemma ReceivePublic(c: Config, e: Epoch, i: nat, r: Round, p: Packet, seen: seq<Packet>, sent: seq<Message>,
                      order: seq<nat>, outcome: DkgStatus)
    returns (r1: Round, out: seq<Message>)
    requires c.Valid() && c.IsSigner(i) && Identity(c, i, r) && e.kind == Public
    requires AllOf(c, e, seen) && EpochPacket(c, e, p) && Caught(c, e, i, r, seen, sent)
    ensures Process(r, p.msg, order, outcome) == (r1, Ok(out)) && Identity(c, i, r1)
    ensures Caught(c, e, i, r1, seen + [p], sent + out)
    ensures forall x | x in out :: EpochPacket(c, e, Packet(x, i))
  {
    hide Config.Valid, Process;
    EpochPacketVerifies(c, e, p);
    StoresOnly(r, p.msg, order, outcome);
    r1, out := Stored(r, p.msg), [];
    assert sent + [] == sent;
    if Ended(e.kind, sent) {
      assert r1.commitments == AllCommitments(c, e.polys);
    } else {
      Snoc(seen, p);
      CommitmentsGathered(c, e, seen + [p]);
      if r1.PublicSharesDone() {
        r1, out := r1.(state := DkgPrivateDistribute), [DkgPublicEnd(r.dkgId, i, Success)];
        SignerListed(c, i);
        CoversMore(c, e.kind, i, sent, out);
      }
    }
  }

  lemma ReceivePrivate(c: Config, e: Epoch, i: nat, r: Round, p: Packet, seen: seq<Packet>, sent: seq<Message>,
                       order: seq<nat>, outcome: DkgStatus)
    returns (r1: Round, out: seq<Message>)
    requires c.Valid() && c.IsSigner(i) && Identity(c, i, r) && e.kind == Private
    requires AllOf(c, e, seen) && EpochPacket(c, e, p) && Caught(c, e, i, r, seen, sent)
    ensures Process(r, p.msg, order, outcome) == (r1, Ok(out)) && Identity(c, i, r1)
    ensures Caught(c, e, i, r1, seen + [p], sent + out)
    ensures forall x | x in out :: EpochPacket(c, e, Packet(x, i))
  {
    hide Config.Valid, Process;
    SignerListed(c, i);
    EpochPacketVerifies(c, e, p);
    StoresOnly(r, p.msg, order, outcome);
    r1, out := Stored(r, p.msg), [];
    assert sent + [] == sent;
    if Ended(e.kind, sent) {
      StoresAgain(c, e, r, p);
    } else {
      Snoc(seen, p);
      SharesGathered(c, e, seen + [p]);
      FullCommitments(c, e.polys);
      if r1.CanDkgEnd() {
        r1, out := r1.(state := Idle), [DkgEnd(r.dkgId, i, outcome)];
        CoversMore(c, e.kind, i, sent, out);
      }
    }
  }

  lemma StoresAgain(c: Config, e: Epoch, r: Round, p: Packet)
    requires c.Valid() && e.kind == Private && EpochPacket(c, e, p) && r.shares == AllShares(c, e.polys)
    ensures Stored(r, p.msg) == r
  {
    if p.msg.DkgPrivateShares? {
      assert p.msg.keyId == (p.msg.keyId + 1) - 1;
      assert p.msg.keyId in ZeroBasedKeys(c);
    }
  }

  lemma CoversMore(c: Config, kind: Kind, i: nat, sent: seq<Message>, more: seq<Message>)
    requires i in c.signerKeyIds && Covers(c, kind, i, sent)
    ensures Covers(c, kind, i, sent + more)
  {
    assert forall m :: m in sent ==> m in sent + more;
  }

  /** Whatever a signer reads next, it processes it without error and stays within
      the invariant. */
  lemma ReceiveKeepsNode(c: Config, log: seq<Packet>, e: Epoch, i: nat, node: Node, order: seq<nat>, outcome: DkgStatus)
    requires c.Valid() && c.IsSigner(i) && LogOk(c, log, e) && NodeOk(c, log, e, i, node)
    requires node.outbox == [] && node.read < |log| && IsEnumeration(order, node.round.keyIds)
    ensures NodeOk(c, log, e, i, Receive(c, node, log[node.read], order, outcome))
  {
    if node.read < e.start - 1 {
      ReceiveLeftover(c, log, e, i, node, order, outcome);
    } else if node.read < e.start {
      ReceiveOpening(c, log, e, i, node, order, outcome);
    } else {
      ReceiveCurrent(c, log, e, i, node, order, outcome);
    }
  }

  lemma ReceiveLeftover(c: Config, log: seq<Packet>, e: Epoch, i: nat, node: Node, order: seq<nat>, outcome: DkgStatus)
    requires c.Valid() && c.IsSigner(i) && e.start <= |log| && NodeOk(c, log, e, i, node)
    requires node.outbox == [] && node.read < e.start - 1
    ensures NodeOk(c, log, e, i, Receive(c, node, log[node.read], order, outcome))
  {
    var p, r := log[node.read], node.round;
    assert Leftover(c, e, p);
    StoresOnly(r, p.msg, order, outcome);
    if e.kind == Private && p.msg.DkgPublicShare? {
      assert Stored(r, p.msg).commitments == AllCommitments(c, e.polys);
    }
  }

  lemma OpenNonce(c: Config, e: Epoch, i: nat, r: Round, order: seq<nat>, outcome: DkgStatus)
    requires c.Valid() && c.IsSigner(i) && Identity(c, i, r) && r.state == Idle && r.nonceDraws + 1 == e.nonces
    requires e.kind.Nonce?
    ensures Process(r, NonceRequest(e.kind.dkgId, SIGN_ID, SIGN_NONCE_ID), order, outcome)
         == (r.(nonceDraws := e.nonces), Ok([NonceReply(ResponseOf(c, i, e.kind.dkgId, e.nonces))]))
  {
  }

  lemma ReceiveOpening(c: Config, log: seq<Packet>, e: Epoch, i: nat, node: Node, order: seq<nat>, outcome: DkgStatus)
    requires c.Valid() && c.IsSigner(i) && LogOk(c, log, e) && NodeOk(c, log, e, i, node)
    requires node.outbox == [] && node.read == e.start - 1 && IsEnumeration(order, node.round.keyIds)
    ensures NodeOk(c, log, e, i, Receive(c, node, log[node.read], order, outcome))
  {
    var r, p := node.round, log[node.read];
    var r1, out := OpeningHandled(c, log, e, i, node, order, outcome);
    Opened(c, log, e, i, node, r1, out);
  }

  lemma OpeningHandled(c: Config, log: seq<Packet>, e: Epoch, i: nat, node: Node, order: seq<nat>, outcome: DkgStatus)
    returns (r1: Round, out: seq<Message>)
    requires c.Valid() && c.IsSigner(i) && LogOk(c, log, e) && NodeOk(c, log, e, i, node)
    requires node.outbox == [] && node.read == e.start - 1 && IsEnumeration(order, node.round.keyIds)
    ensures Receive(c, node, log[node.read], order, outcome) == Node(r1, node.read + 1, out, false)
    ensures Identity(c, i, r1) && Caught(c, e, i, r1, [], out)
    ensures forall x | x in out :: EpochPacket(c, e, Packet(x, i))
  {
    var r, p := node.round, log[node.read];
    if e.kind == Public {
      r1, out := OpenPublic(c, e, i, r, p.msg, order, outcome);
    } else if e.kind == Private {
      r1, out := OpenPrivate(c, e, i, r, p.msg, order, outcome);
    } else if e.kind.Nonce? {
      OpenNonce(c, e, i, r, order, outcome);
      r1, out := r.(nonceDraws := e.nonces), [NonceReply(ResponseOf(c, i, e.kind.dkgId, e.nonces))];
    } else {
      OpenSign(c, e, i, r, order, outcome);
      r1, out := r, [ShareReplyOf(i, e.kind.request, e.nonces)];
    }
    Delivered(c, node, p, order, outcome, r1, out);
  }

  lemma Delivered(c: Config, node: Node, p: Packet, order: seq<nat>, outcome: DkgStatus, r1: Round, out: seq<Message>)
    requires VerifyMsg(c, p) && Process(node.round, p.msg, order, outcome) == (r1, Ok(out))
    ensures Receive(c, node, p, order, outcome) == Node(r1, node.read + 1, out, false)
  {
  }

  lemma Opened(c: Config, log: seq<Packet>, e: Epoch, i: nat, node: Node, r: Round, out: seq<Message>)
    requires c.Valid() && c.IsSigner(i) && 0 < e.start <= |log| && node.read == e.start - 1
    requires From(log[e.start..], i) == []
    requires Identity(c, i, r) && Caught(c, e, i, r, [], out)
    requires forall x | x in out :: EpochPacket(c, e, Packet(x, i))
    ensures NodeOk(c, log, e, i, Node(r, node.read + 1, out, false))
  {
    assert log[e.start..node.read + 1] == [];
    assert [] + out == out;
  }

  lemma ReceiveCurrent(c: Config, log: seq<Packet>, e: Epoch, i: nat, node: Node, order: seq<nat>, outcome: DkgStatus)
    requires c.Valid() && c.IsSigner(i) && LogOk(c, log, e) && NodeOk(c, log, e, i, node)
    requires node.outbox == [] && e.start <= node.read < |log|
    ensures NodeOk(c, log, e, i, Receive(c, node, log[node.read], order, outcome))
  {
    var seen, sent := log[e.start..node.read], From(log[e.start..], i);
    assert sent + [] == sent;
    assert AllOf(c, e, seen);
    var r1, out := CurrentHandled(c, e, i, node, log[node.read], seen, sent, order, outcome);
    Continued(c, log, e, i, node, r1, out);
  }

  lemma CurrentHandled(c: Config, e: Epoch, i: nat, node: Node, p: Packet, seen: seq<Packet>, sent: seq<Message>,
                       order: seq<nat>, outcome: DkgStatus)
    returns (r1: Round, out: seq<Message>)
    requires c.Valid() && c.IsSigner(i) && Identity(c, i, node.round)
    requires AllOf(c, e, seen) && EpochPacket(c, e, p) && Caught(c, e, i, node.round, seen, sent)
    ensures Receive(c, node, p, order, outcome) == Node(r1, node.read + 1, out, false)
    ensures Identity(c, i, r1) && Caught(c, e, i, r1, seen + [p], sent + out)
    ensures forall x | x in out :: EpochPacket(c, e, Packet(x, i))
  {
    EpochPacketVerifies(c, e, p);
    if e.kind == Public {
      r1, out := ReceivePublic(c, e, i, node.round, p, seen, sent, order, outcome);
    } else if e.kind == Private {
      r1, out := ReceivePrivate(c, e, i, node.round, p, seen, sent, order, outcome);
    } else {
      assert sent + [] == sent;
      StoresOnly(node.round, p.msg, order, outcome);
      r1, out := node.round, [];
    }
    Delivered(c, node, p, order, outcome, r1, out);
  }

  lemma Continued(c: Config, log: seq<Packet>, e: Epoch, i: nat, node: Node, r: Round, out: seq<Message>)
    requires c.Valid() && c.IsSigner(i) && e.start <= node.read < |log|
    requires Identity(c, i, r)
    requires Caught(c, e, i, r, log[e.start..node.read] + [log[node.read]], From(log[e.start..], i) + out)
    requires forall x | x in out :: EpochPacket(c, e, Packet(x, i))
    ensures NodeOk(c, log, e, i, Node(r, node.read + 1, out, false))
  {
    assert log[e.start..node.read + 1] == log[e.start..node.read] + [log[node.read]];
  }
}
