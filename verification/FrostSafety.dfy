/**
 The protocol's guarantees over every run: no signer ever stops on a bad state
 change, all parties hold the same attempt's values, signers sign with the nonces
 they published, and no reachable state is stuck.
 */
module FrostSafety {
  import opened Options
  import opened Results
  import opened FrostMessages
  import opened SigningRounds
  import opened FrostCoordinators
  import opened FrostProtocol
  import opened FrostInvariant

  // ---------- Stretches of the log ----------

  lemma {:induction false} FromConcat(a: seq<Packet>, b: seq<Packet>, i: nat)
    ensures From(a + b, i) == From(a, i) + From(b, i)
  {
    if b == [] {
      assert a + b == a;
    } else {
      FromConcat(a, b[..|b| - 1], i);
      assert a + b == (a + b[..|b| - 1]) + [b[|b| - 1]];
      Snoc(a + b[..|b| - 1], b[|b| - 1]);
    }
  }

  lemma {:induction false} EnderSent(kind: Kind, s: seq<Packet>, i: nat) returns (k: nat)
    requires i in EndersIn(kind, s)
    ensures k < |From(s, i)| && IsEnd(kind, From(s, i)[k])
  {
    var last := s[|s| - 1];
    if IsEnd(kind, last.msg) && last.signedBy == i {
      k := |From(s, i)| - 1;
    } else {
      k := EnderSent(kind, s[..|s| - 1], i);
    }
  }

  lemma {:induction false} SentMessage(s: seq<Packet>, i: nat, m: Message)
    requires m in From(s, i)
    ensures Packet(m, i) in s
    ensures m.DkgPublicShare? ==> m.partyId in CommitmentsIn(s)
    ensures m.DkgPrivateShares? ==> m.keyId in SharesIn(s)
    ensures forall kind :: IsEnd(kind, m) ==> i in EndersIn(kind, s)
  {
    var last := s[|s| - 1];
    if last != Packet(m, i) {
      SentMessage(s[..|s| - 1], i, m);
    }
  }

  /** Once a signer's end is among `a`, it posted nothing after `a`, and is done. */
  lemma HeardOne(c: Config, e: Epoch, i: nat, log: seq<Packet>, node: Node, a: seq<Packet>, b: seq<Packet>)
    requires c.Valid() && c.IsSigner(i) && e.kind != Boot && e.start <= |log| && log[e.start..] == a + b
    requires NodeOk(c, log, e, i, node) && i in EndersIn(e.kind, a)
    ensures Finished(log, e, i, node) && From(b, i) == []
  {
    FromConcat(a, b, i);
    var k := EnderSent(e.kind, a, i);
    var sent := From(log[e.start..], i) + node.outbox;
    assert sent[k] == From(a, i)[k];
  }

  /** Once every signer's end is in, the log holds nothing more, and every signer
      has posted all its part. */
  lemma HeardAll(c: Config, log: seq<Packet>, e: Epoch, nodes: map<nat, Node>, read: nat)
    requires c.Valid() && (forall i :: i in nodes <==> c.IsSigner(i)) && LogOk(c, log, e) && NodesOk(c, log, e, nodes)
    requires e.kind != Boot && e.start <= read <= |log|
    requires EndersIn(e.kind, log[e.start..read]) == Signers(c.totalSigners)
    ensures read == |log| && AllFinished(log, e, nodes)
  {
    hide NodeOk, OpeningOk, Config.Valid, EpochPacket;
    var a, b := log[e.start..read], log[read..];
    assert log[e.start..] == a + b;
    forall i | i in nodes
      ensures Finished(log, e, i, nodes[i]) && From(b, i) == []
    {
      HeardOne(c, e, i, log, nodes[i], a, b);
    }
    if b != [] {
      var i := b[0].signedBy;
      PacketSigner(c, e, log[read]);
      FirstSent(b);
    }
  }

  lemma PacketSigner(c: Config, e: Epoch, p: Packet)
    requires c.Valid() && EpochPacket(c, e, p)
    ensures c.IsSigner(p.signedBy)
  {
  }

  lemma FirstSent(b: seq<Packet>)
    requires b != []
    ensures From(b, b[0].signedBy) != []
  {
    if |b| > 1 {
      FirstSent(b[..|b| - 1]);
    }
  }

  // ---------- Steps that only change a signer ----------

  lemma ReceiveKeepsFinished(c: Config, log: seq<Packet>, e: Epoch, i: nat, node: Node, after: Node)
    requires c.Valid() && c.IsSigner(i) && e.start <= |log| && Finished(log, e, i, node)
    requires NodeOk(c, log, e, i, after) && after.read == node.read + 1
    ensures Finished(log, e, i, after)
  {
    var from := From(log[e.start..], i);
    if e.kind != Boot {
      assert (from + after.outbox)[|from| - 1] == from[|from| - 1];
    }
  }

  lemma ReceiveAdvances(c: Config, node: Node, p: Packet, order: seq<nat>, outcome: DkgStatus)
    ensures Receive(c, node, p, order, outcome).read == node.read + 1
  {
  }

  lemma ReceiverIdentity(c: Config, s: System, i: nat)
    requires Inv(c, s) && i in s.nodes
    ensures c.IsSigner(i) && s.epoch.start <= |s.log| && s.read <= |s.log| && NodeOk(c, s.log, s.epoch, i, s.nodes[i])
    ensures s.coord.phase == Ready ==> AllFinished(s.log, s.epoch, s.nodes)
  {
    hide Config.Valid, OpeningOk, NodeOk, EpochPacket, Ordered, AllResponses;
  }

  lemma SignerReceivesKeeps(c: Config, s: System, i: nat, order: seq<nat>, outcome: DkgStatus)
    requires Inv(c, s) && Enabled(c, s, SignerReceives(i, order, outcome))
    ensures Inv(c, Take(c, s, SignerReceives(i, order, outcome)))
  {
    hide Config.Valid, LogOk, NodeOk, CoordOk, Receive, Finished, Heard;
    var node := s.nodes[i];
    ReceiverIdentity(c, s, i);
    ReceiveKeepsNode(c, s.log, s.epoch, i, node, order, outcome);
    ReceiveAdvances(c, node, s.log[node.read], order, outcome);
    var after := Receive(c, node, s.log[node.read], order, outcome);
    var s' := s.(nodes := s.nodes[i := after]);
    if s.coord.phase == Ready {
      ReceiveKeepsFinished(c, s.log, s.epoch, i, node, after);
    }
    SameHeard(s, s');
    CoordUnaffected(c, s, s');
  }

  lemma SameHeard(s: System, s': System)
    requires s.read <= |s.log| && s'.read == s.read && s'.log == s.log && s'.epoch == s.epoch
    ensures Heard(s') == Heard(s)
  {
  }

  /** The coordinator's view depends on what it has heard, and, when it is ready,
      on every signer having finished. */
  lemma CoordUnaffected(c: Config, s: System, s': System)
    requires c.Valid() && SignersKnown(c, s) && SignersKnown(c, s') && s.epoch.start <= |s.log| && CoordOk(c, s)
    requires s'.coord == s.coord && s'.read == s.read <= |s.log| <= |s'.log| && s'.epoch == s.epoch && Heard(s') == Heard(s)
    requires s.coord.phase == Ready ==> s'.log == s.log && AllFinished(s'.log, s'.epoch, s'.nodes)
    ensures CoordOk(c, s')
  {
  }

  lemma PostedStretch(log: seq<Packet>, p: Packet, lo: nat)
    requires lo <= |log|
    ensures (log + [p])[lo..] == log[lo..] + [p]
    ensures forall hi | lo <= hi <= |log| :: (log + [p])[lo..hi] == log[lo..hi]
  {
  }

  lemma PostKeepsNode(c: Config, log: seq<Packet>, e: Epoch, i: nat, node: Node, p: Packet, after: Node)
    requires c.Valid() && c.IsSigner(i) && e.start <= |log| && NodeOk(c, log, e, i, node)
    requires if p.signedBy == i then node.outbox != [] && p.msg == node.outbox[0] && after == node.(outbox := node.outbox[1..])
             else after == node
    ensures NodeOk(c, log + [p], e, i, after)
  {
    PostedStretch(log, p, e.start);
    Snoc(log[e.start..], p);
    if p.signedBy == i {
      assert From(log[e.start..], i) + node.outbox == (From(log[e.start..], i) + [p.msg]) + node.outbox[1..];
    } else {
      assert From((log + [p])[e.start..], i) == From(log[e.start..], i);
    }
  }

  lemma SignerPostsKeeps(c: Config, s: System, i: nat)
    requires Inv(c, s) && Enabled(c, s, SignerPosts(i))
    ensures Inv(c, Take(c, s, SignerPosts(i)))
  {
    var p := Packet(s.nodes[i].outbox[0], i);
    var s' := Take(c, s, SignerPosts(i));
    ReceiverIdentity(c, s, i);
    OutboxPacket(c, s.log, s.epoch, i, s.nodes[i]);
    ReadyMeansQuiet(c, s, i);
    hide Config.Valid, LogOk, NodeOk, CoordOk, EpochPacket, Heard;
    PostKeepsNodes(c, s.log, s.epoch, s.nodes, p, s'.nodes);
    PostKeepsLog(c, s.log, s.epoch, p);
    PostSameHeard(s, s', p);
    CoordUnaffected(c, s, s');
  }

  lemma PostSameHeard(s: System, s': System, p: Packet)
    requires s.epoch.start <= |s.log| && s.read <= |s.log| && s'.read == s.read && s'.log == s.log + [p] && s'.epoch == s.epoch
    ensures Heard(s') == Heard(s)
  {
    PostedStretch(s.log, p, s.epoch.start);
  }

  lemma ReadyMeansQuiet(c: Config, s: System, i: nat)
    requires Inv(c, s) && i in s.nodes && s.nodes[i].outbox != []
    ensures s.coord.phase != Ready
  {
    hide Config.Valid, OpeningOk, NodeOk, EpochPacket;
  }

  lemma OutboxPacket(c: Config, log: seq<Packet>, e: Epoch, i: nat, node: Node)
    requires c.Valid() && c.IsSigner(i) && e.start <= |log| && NodeOk(c, log, e, i, node) && node.outbox != []
    ensures EpochPacket(c, e, Packet(node.outbox[0], i))
  {
  }

  lemma PostKeepsNodes(c: Config, log: seq<Packet>, e: Epoch, nodes: map<nat, Node>, p: Packet, after: map<nat, Node>)
    requires c.Valid() && e.start <= |log| && (forall i :: i in nodes ==> c.IsSigner(i)) && NodesOk(c, log, e, nodes)
    requires p.signedBy in nodes && nodes[p.signedBy].outbox != [] && p.msg == nodes[p.signedBy].outbox[0]
    requires after == nodes[p.signedBy := nodes[p.signedBy].(outbox := nodes[p.signedBy].outbox[1..])]
    ensures NodesOk(c, log + [p], e, after)
  {
    forall j | j in after
      ensures NodeOk(c, log + [p], e, j, after[j])
    {
      PostKeepsNode(c, log, e, j, nodes[j], p, after[j]);
    }
  }

  lemma PostKeepsLog(c: Config, log: seq<Packet>, e: Epoch, p: Packet)
    requires c.Valid() && LogOk(c, log, e) && EpochPacket(c, e, p)
    ensures LogOk(c, log + [p], e)
  {
  }

  // ---------- The coordinator posts a message ----------

  predicate MayFollow(before: Kind, after: Kind) {
    match after
    case Boot => false
    case Public => !before.Nonce?
    case Private => before == Public
    case Nonce(_) => before == Private || before.Nonce? || before.Sign?
    case Sign(_) => before.Nonce?
  }

  lemma NextEpochNode(c: Config, log: seq<Packet>, e: Epoch, i: nat, node: Node, m: Message)
    requires c.Valid() && c.IsSigner(i) && LogOk(c, log, e) && NodeOk(c, log, e, i, node) && Finished(log, e, i, node)
    requires FromCoordinator(m) && MayFollow(e.kind, EpochAfter(e, m, |log| + 1).kind)
    ensures NodeOk(c, log + [Packet(m, COORDINATOR)], EpochAfter(e, m, |log| + 1), i, node)
  {
    var log', e' := log + [Packet(m, COORDINATOR)], EpochAfter(e, m, |log| + 1);
    assert log'[e'.start..] == [];
    var from := From(log[e.start..], i);
    assert from + node.outbox == from;
    forall k | node.read <= k < e'.start - 1
      ensures Leftover(c, e', log'[k])
    {
      assert log'[k] == log[k] && EpochPacket(c, e, log[k]);
    }
  }

  lemma NextEpochNodes(c: Config, log: seq<Packet>, e: Epoch, nodes: map<nat, Node>, m: Message)
    requires c.Valid() && LogOk(c, log, e) && (forall i :: i in nodes ==> c.IsSigner(i)) && NodesOk(c, log, e, nodes)
    requires AllFinished(log, e, nodes) && FromCoordinator(m) && MayFollow(e.kind, EpochAfter(e, m, |log| + 1).kind)
    ensures NodesOk(c, log + [Packet(m, COORDINATOR)], EpochAfter(e, m, |log| + 1), nodes)
  {
    forall i | i in nodes
      ensures NodeOk(c, log + [Packet(m, COORDINATOR)], EpochAfter(e, m, |log| + 1), i, nodes[i])
    {
      NextEpochNode(c, log, e, i, nodes[i], m);
    }
  }

  lemma SomeSigner(c: Config)
    requires c.Valid()
    ensures Signers(c.totalSigners) != {} && {} < Signers(c.totalSigners)
  {
    assert 1 in Signers(c.totalSigners);
  }

  lemma NextLog(c: Config, log: seq<Packet>, e: Epoch, m: Message)
    requires c.Valid() && FromCoordinator(m)
    requires e.kind == Boot || m.DkgBegin? || e.polys > 0
    requires m.NonceRequest? ==> m.signId == SIGN_ID && m.signNonceId == SIGN_NONCE_ID
    requires m.SignShareRequest? ==> e.nonces > 0 && m.request.nonceResponses == Ordered(AllResponses(c, m.request.dkgId, e.nonces))
    requires e.kind == Boot ==> m.DkgBegin?
    ensures LogOk(c, log + [Packet(m, COORDINATOR)], EpochAfter(e, m, |log| + 1))
  {
  }

  lemma PolysDrawn(c: Config, log: seq<Packet>, e: Epoch)
    requires c.Valid() && LogOk(c, log, e)
    ensures e.kind != Boot ==> e.polys > 0
    ensures e.kind.Nonce? ==> e.nonces > 0
  {
  }

  lemma DkgCommandKeeps(c: Config, s: System)
    requires Inv(c, s) && Enabled(c, s, DkgCommand)
    ensures Inv(c, Take(c, s, DkgCommand))
  {
    hide Config.Valid, OpeningOk, NodeOk, NodesOk, AllFinished, EpochPacket, Ordered, AllResponses;
    var (coord, posts) := StartDkg(s.coord);
    var s' := Take(c, s, DkgCommand);
    NextEpochNodes(c, s.log, s.epoch, s.nodes, posts[0]);
    PolysDrawn(c, s.log, s.epoch);
    NextLog(c, s.log, s.epoch, posts[0]);
    SomeSigner(c);
    assert Heard(s') == [];
  }

  lemma SignCommandKeeps(c: Config, s: System, message: seq<nat>)
    requires Inv(c, s) && Enabled(c, s, SignCommand(message))
    ensures Inv(c, Take(c, s, SignCommand(message)))
  {
    hide Config.Valid, OpeningOk, NodeOk, NodesOk, AllFinished, EpochPacket, Ordered, AllResponses;
    var s' := Take(c, s, SignCommand(message));
    if s.coord.aggregateKey.Some? {
      var (coord, posts) := StartSign(s.coord, message);
      NextEpochNodes(c, s.log, s.epoch, s.nodes, posts[0]);
      PolysDrawn(c, s.log, s.epoch);
      NextLog(c, s.log, s.epoch, posts[0]);
      SomeSigner(c);
      assert Heard(s') == [];
    } else {
      assert s' == s;
    }
  }

  // ---------- The coordinator receives a message ----------

  lemma OpenedByCoordinator(c: Config, log: seq<Packet>, e: Epoch)
    requires c.Valid() && LogOk(c, log, e) && e.kind != Boot
    ensures e.start > 0 && FromCoordinator(log[e.start - 1].msg)
  {
    hide EpochPacket, Config.Valid;
  }

  /** What the coordinator reads next: its own opening message, or a signer's
      contribution that extends what it has heard. */
  lemma HeardNext(c: Config, s: System)
    requires c.Valid() && LogOk(c, s.log, s.epoch) && s.epoch.start <= s.read + 1 && s.read < |s.log| && s.epoch.kind != Boot
    ensures var p, s1 := s.log[s.read], s.(read := s.read + 1);
            if s.read < s.epoch.start then FromCoordinator(p.msg) && Heard(s) == Heard(s1) == []
            else EpochPacket(c, s.epoch, p) && Heard(s1) == Heard(s) + [p]
  {
    hide EpochPacket, Config.Valid, LogOk, FromCoordinator;
    OpenedByCoordinator(c, s.log, s.epoch);
    if s.read >= s.epoch.start {
      InEpoch(c, s.log, s.epoch, s.read);
      StretchGrows(s.log, s.epoch.start, s.read);
    }
  }

  lemma InEpoch(c: Config, log: seq<Packet>, e: Epoch, k: nat)
    requires c.Valid() && LogOk(c, log, e) && e.start <= k < |log|
    ensures EpochPacket(c, e, log[k])
  {
    hide EpochPacket, Config.Valid, OpeningOk;
  }

  lemma StretchGrows(log: seq<Packet>, from: nat, k: nat)
    requires from <= k < |log|
    ensures log[from..k + 1] == log[from..k] + [log[k]]
  {
  }

  lemma AbsorbOwn(k: Coord, m: Message)
    requires FromCoordinator(m)
    ensures Absorb(k, m) == k
  {
  }

  lemma NotBoot(c: Config, s: System)
    requires Inv(c, s) && s.coord.phase != Ready
    ensures s.epoch.kind != Boot && s.epoch.start <= s.read + 1 && s.read <= |s.log|
  {
    hide Config.Valid, LogOk, NodeOk, EpochPacket, Heard, PublicHeard, PrivateHeard, NoncesHeard, SharesHeard, RoundDone, HoldsKey;
  }

  lemma SignerKnown(c: Config, e: Epoch, p: Packet)
    requires c.Valid() && EpochPacket(c, e, p)
    ensures p.signedBy in Signers(c.totalSigners)
  {
  }

  lemma PublicAbsorbs(c: Config, k: Coord, e: Epoch, heard: seq<Packet>, p: Packet)
    returns (ids: set<nat>)
    requires c.Valid() && EpochPacket(c, e, p) && k.phase.AwaitPublicEnds? && PublicHeard(c, k, e, k.phase.ids, heard)
    ensures var k' := Absorb(k, p.msg);
            k' == k.(publicShares := k'.publicShares, phase := AwaitPublicEnds(ids)) && PublicHeard(c, k', e, ids, heard + [p])
  {
    Snoc(heard, p);
    ids := Absorb(k, p.msg).phase.ids;
  }

  lemma PrivateAbsorbs(c: Config, k: Coord, e: Epoch, heard: seq<Packet>, p: Packet)
    returns (ids: set<nat>)
    requires c.Valid() && EpochPacket(c, e, p) && k.phase.AwaitDkgEnds? && PrivateHeard(c, e, k.phase.ids, heard)
    ensures Absorb(k, p.msg) == k.(phase := AwaitDkgEnds(ids)) && PrivateHeard(c, e, ids, heard + [p])
  {
    Snoc(heard, p);
    ids := Absorb(k, p.msg).phase.ids;
  }

  lemma NoncesAbsorb(c: Config, k: Coord, e: Epoch, heard: seq<Packet>, p: Packet)
    requires c.Valid() && EpochPacket(c, e, p) && k.phase.AwaitNonces? && NoncesHeard(c, k, e, heard)
    ensures var k' := Absorb(k, p.msg);
            k' == k.(publicNonces := k'.publicNonces) && NoncesHeard(c, k', e, heard + [p])
  {
    hide Config.Valid, ResponsesOf, ResponseOf, EndersIn;
    Snoc(heard, p);
    NonceContribution(c, e, p);
    OneMoreResponse(c, EndersIn(e.kind, heard), p.signedBy, k.dkgId, e.nonces);
    ResponseSigner(c, p.signedBy, k.dkgId, e.nonces);
  }

  lemma NonceContribution(c: Config, e: Epoch, p: Packet)
    requires c.Valid() && EpochPacket(c, e, p) && e.kind.Nonce?
    ensures c.IsSigner(p.signedBy) && IsEnd(e.kind, p.msg)
    ensures p.msg == NonceReply(ResponseOf(c, p.signedBy, e.kind.dkgId, e.nonces))
  {
    hide Config.Valid;
  }

  lemma ResponseSigner(c: Config, i: nat, dkgId: nat, generation: nat)
    requires c.Valid() && c.IsSigner(i)
    ensures ResponseOf(c, i, dkgId, generation).signerId == i
  {
    hide Config.Valid;
  }

  lemma OneMoreResponse(c: Config, signers: set<nat>, i: nat, dkgId: nat, generation: nat)
    requires c.Valid() && c.IsSigner(i)
    ensures ResponsesOf(c, signers + {i}, dkgId, generation)
         == ResponsesOf(c, signers, dkgId, generation)[i := ResponseOf(c, i, dkgId, generation)]
  {
    hide Config.Valid, ResponseOf;
  }

  lemma SharesAbsorb(c: Config, k: Coord, e: Epoch, heard: seq<Packet>, p: Packet)
    returns (ids: set<nat>)
    requires c.Valid() && EpochPacket(c, e, p) && k.phase.AwaitShares? && SharesHeard(c, k, e, k.phase.ids, k.phase.message, heard)
    ensures var k' := Absorb(k, p.msg);
            && k' == k.(signatureShares := k'.signatureShares, phase := AwaitShares(ids, k.phase.message))
            && SharesHeard(c, k', e, ids, k.phase.message, heard + [p])
  {
    SignerKnown(c, e, p);
    Snoc(heard, p);
    ids := Signers(c.totalSigners) - EndersIn(e.kind, heard + [p]);
    ShareStored(Signers(c.totalSigners), k, p.signedBy, EndersIn(e.kind, heard), e);
  }

  lemma ShareStored(all: set<nat>, k: Coord, i: nat, enders: set<nat>, e: Epoch)
    requires e.kind.Sign? && k.phase.AwaitShares? && k.phase.ids == all - enders && i in all && SharesCollected(k, enders, e)
    ensures var k' := Absorb(k, ShareReplyOf(i, e.kind.request, e.nonces));
            && SharesCollected(k', enders + {i}, e)
            && k' == k.(phase := AwaitShares(all - (enders + {i}), k.phase.message), signatureShares := k'.signatureShares)
  {
    hide SharesOf;
    var k' := Absorb(k, ShareReplyOf(i, e.kind.request, e.nonces));
    if i in k.phase.ids {
      assert k.phase.ids - {i} == all - (enders + {i});
      assert k'.signatureShares == k.signatureShares[i := SharesOf(i, e.kind.request, e.nonces)];
    } else {
      assert enders + {i} == enders;
    }
  }

  lemma AbsorbKeeps(c: Config, s: System)
    requires Inv(c, s) && s.coord.phase != Ready && s.read < |s.log|
    ensures CoordHeard(c, s.(read := s.read + 1, coord := Absorb(s.coord, s.log[s.read].msg)))
  {
    var p, e, k := s.log[s.read], s.epoch, s.coord;
    NotBoot(c, s);
    HeardNext(c, s);
    HeardIgnoresCoord(s.(read := s.read + 1), Absorb(k, p.msg));
    hide Config.Valid, LogOk, NodeOk, EpochPacket, Heard, PublicHeard, PrivateHeard, NoncesHeard, SharesHeard, RoundDone, HoldsKey, Absorb, NodesOk;
    if s.read < e.start {
      AbsorbOwn(k, p.msg);
    } else {
      match k.phase
      case AwaitPublicEnds(_) => var ids := PublicAbsorbs(c, k, e, Heard(s), p);
      case AwaitDkgEnds(_) => var ids := PrivateAbsorbs(c, k, e, Heard(s), p); SameKey(c, k, Absorb(k, p.msg), e);
      case AwaitNonces(_) => NoncesAbsorb(c, k, e, Heard(s), p); SameKey(c, k, Absorb(k, p.msg), e);
      case AwaitShares(_, _) => var ids := SharesAbsorb(c, k, e, Heard(s), p); SameKey(c, k, Absorb(k, p.msg), e);
    }
  }

  lemma SameKey(c: Config, k: Coord, k': Coord, e: Epoch)
    requires k'.publicShares == k.publicShares && k'.aggregateKey == k.aggregateKey
    ensures HoldsKey(c, k, e) ==> HoldsKey(c, k', e)
  {
  }

  lemma HeardIgnoresCoord(s: System, coord: Coord)
    requires s.read <= |s.log|
    ensures Heard(s.(coord := coord)) == Heard(s)
  {
  }

  // ---------- The coordinator leaves a wait ----------

  lemma {:induction false} EndersKnown(c: Config, e: Epoch, s: seq<Packet>)
    requires c.Valid() && AllOf(c, e, s)
    ensures EndersIn(e.kind, s) <= Signers(c.totalSigners)
  {
    if s != [] {
      EndersKnown(c, e, s[..|s| - 1]);
      SignerKnown(c, e, s[|s| - 1]);
    }
  }

  lemma ResponseCount(c: Config, enders: set<nat>, dkgId: nat, generation: nat)
    requires c.Valid() && enders <= Signers(c.totalSigners)
    ensures ResponsesOf(c, enders, dkgId, generation).Keys == enders
    ensures |ResponsesOf(c, enders, dkgId, generation)| == c.totalSigners <==> enders == Signers(c.totalSigners)
  {
    hide Config.Valid, ResponseOf;
    var m := ResponsesOf(c, enders, dkgId, generation);
    assert m.Keys == enders;
    assert |m| == |m.Keys|;
    if |m| == c.totalSigners {
      SubsetOfSameSize(enders, Signers(c.totalSigners));
    }
  }

  /** When all signers have posted all their public part, the log holds exactly
      this attempt's commitments of every key. */
  lemma PublicComplete(c: Config, log: seq<Packet>, e: Epoch, nodes: map<nat, Node>)
    requires c.Valid() && (forall i :: i in nodes <==> c.IsSigner(i)) && LogOk(c, log, e) && NodesOk(c, log, e, nodes)
    requires e.kind == Public && AllFinished(log, e, nodes)
    ensures CommitmentsIn(log[e.start..]) == AllCommitments(c, e.polys)
  {
    hide NodeOk, Finished, EpochPacket, OpeningOk, AllOf;
    var cur := log[e.start..];
    CurrentContributed(c, log, e);
    CommitmentsGathered(c, e, cur);
    forall p | p in c.keyOwner
      ensures p in CommitmentsIn(cur)
    {
      OwnCommitmentPosted(c, log, e, c.keyOwner[p], nodes[c.keyOwner[p]], p);
    }
    assert CommitmentsIn(cur).Keys == c.keyOwner.Keys;
  }

  lemma CurrentContributed(c: Config, log: seq<Packet>, e: Epoch)
    requires c.Valid() && LogOk(c, log, e)
    ensures AllOf(c, e, log[e.start..])
  {
    hide EpochPacket, Config.Valid, OpeningOk;
  }

  lemma OwnCommitmentPosted(c: Config, log: seq<Packet>, e: Epoch, i: nat, node: Node, p: nat)
    requires c.Valid() && c.IsSigner(i) && e.start <= |log| && NodeOk(c, log, e, i, node) && Finished(log, e, i, node)
    requires e.kind == Public && i in c.signerKeyIds && p in c.signerKeyIds[i]
    ensures p in CommitmentsIn(log[e.start..])
  {
    var from := From(log[e.start..], i);
    assert from + node.outbox == from;
    var m :| m in from && m.DkgPublicShare? && m.partyId == p;
    SentMessage(log[e.start..], i, m);
  }

  ghost predicate Complete(c: Config, s: System)
    requires s.read <= |s.log|
  {
    s.epoch.start <= s.read && EndersIn(s.epoch.kind, Heard(s)) == Signers(c.totalSigners)
  }

  lemma CompleteMeansAllFinished(c: Config, s: System)
    requires c.Valid() && SignersKnown(c, s) && LogOk(c, s.log, s.epoch) && NodesOk(c, s.log, s.epoch, s.nodes)
    requires s.read <= |s.log| && s.epoch.kind != Boot && Complete(c, s)
    ensures s.read == |s.log| && AllFinished(s.log, s.epoch, s.nodes) && Heard(s) == s.log[s.epoch.start..]
  {
    hide Config.Valid, LogOk, NodeOk, NodesOk, EpochPacket;
    HeardAll(c, s.log, s.epoch, s.nodes, s.read);
  }

  lemma NoEnders(kind: Kind)
    ensures EndersIn(kind, []) == {}
  {
  }

  lemma HeardContributed(c: Config, s: System)
    requires c.Valid() && LogOk(c, s.log, s.epoch) && s.read <= |s.log|
    ensures AllOf(c, s.epoch, Heard(s))
  {
    hide EpochPacket, Config.Valid, OpeningOk;
  }

  /** `ids` still awaited: none of them when, and only when, all have been heard. */
  lemma AwaitedOrComplete(c: Config, s: System)
    requires c.Valid() && LogOk(c, s.log, s.epoch) && s.read <= |s.log|
    ensures Signers(c.totalSigners) - EndersIn(s.epoch.kind, Heard(s)) == {} <==> Complete(c, s)
    ensures EndersIn(s.epoch.kind, Heard(s)) == Signers(c.totalSigners) <==> Complete(c, s)
    ensures EndersIn(s.epoch.kind, Heard(s)) <= Signers(c.totalSigners)
  {
    hide Config.Valid, LogOk, AllOf, Signers, EndersIn;
    SomeSigner(c);
    NoEnders(s.epoch.kind);
    HeardContributed(c, s);
    EndersKnown(c, s.epoch, Heard(s));
    var all, enders := Signers(c.totalSigners), EndersIn(s.epoch.kind, Heard(s));
    assert all == (all - enders) + enders;
  }

  /** The parts of the invariant that do not concern the coordinator. */
  ghost predicate Rest(c: Config, s: System) {
    && c.Valid() && SignersKnown(c, s)
    && LogOk(c, s.log, s.epoch) && NodesOk(c, s.log, s.epoch, s.nodes)
    && s.epoch.kind != Boot
  }

  lemma PostOpens(c: Config, s: System, coord: Coord, m: Message)
    requires Rest(c, s) && s.read == |s.log| && AllFinished(s.log, s.epoch, s.nodes)
    requires FromCoordinator(m) && MayFollow(s.epoch.kind, EpochAfter(s.epoch, m, |s.log| + 1).kind)
    requires m.NonceRequest? ==> m.signId == SIGN_ID && m.signNonceId == SIGN_NONCE_ID
    requires m.SignShareRequest? ==> m.request.nonceResponses == Ordered(AllResponses(c, m.request.dkgId, s.epoch.nonces))
    ensures var s' := Advance(s, coord, [m]);
            && Rest(c, s') && s' == System(s'.log, s.nodes, coord, s.read, EpochAfter(s.epoch, m, |s.log| + 1))
            && Heard(s') == [] && EndersIn(s'.epoch.kind, []) == {} && |s'.log| == |s.log| + 1
  {
    hide Config.Valid, OpeningOk, NodeOk, NodesOk, EpochPacket, Ordered, AllResponses, AllFinished, Finished;
    NextEpochNodes(c, s.log, s.epoch, s.nodes, m);
    PolysDrawn(c, s.log, s.epoch);
    NextLog(c, s.log, s.epoch, m);
  }

  lemma KeyAgreed(c: Config, k: Coord, e: Epoch, heard: seq<Packet>)
    requires PublicHeard(c, k, e, {}, heard) && k.phase == AwaitPublicEnds({}) && CommitmentsIn(heard) == AllCommitments(c, e.polys)
    requires k.totalSigners == c.totalSigners
    ensures var (k', posts) := Settle(k, true);
            && posts == [DkgPrivateBegin(k.dkgId)] && k'.phase == AwaitDkgEnds(Signers(c.totalSigners))
            && k'.totalSigners == c.totalSigners && HoldsKey(c, k', e)
    ensures var (k', posts) := Settle(k, false);
            && posts == [DkgBegin(k.dkgId)] && k'.phase == AwaitPublicEnds(Signers(c.totalSigners))
            && k'.totalSigners == c.totalSigners && k'.publicShares == map[]
  {
  }

  lemma SettlePublic(c: Config, s: System, even: bool)
    requires Rest(c, s) && CoordHeard(c, s) && s.coord.phase.AwaitPublicEnds? && Complete(c, s)
    ensures var (coord, posts) := Settle(s.coord, even);
            Inv(c, Advance(s, coord, posts))
  {
    hide Config.Valid, LogOk, NodeOk, NodesOk, EpochPacket, AllFinished, Heard, CommitmentsIn, Settle, Advance, AllCommitments, Signers, EndersIn, Complete;
    var (coord, posts) := Settle(s.coord, even);
    CompleteMeansAllFinished(c, s);
    AwaitedOrComplete(c, s);
    PublicComplete(c, s.log, s.epoch, s.nodes);
    KeyAgreed(c, s.coord, s.epoch, Heard(s));
    SomeSigner(c);
    NoCommitments();
    if even {
      PostOpens(c, s, coord, posts[0]);
      KeyCarried(c, coord, s.epoch, Epoch(Private, |s.log| + 1, s.epoch.polys, s.epoch.nonces));
    } else {
      PostOpens(c, s, coord, posts[0]);
    }
  }

  lemma NoCommitments()
    ensures CommitmentsIn([]) == map[]
  {
  }

  lemma KeyCarried(c: Config, k: Coord, e: Epoch, e': Epoch)
    requires e'.polys == e.polys
    ensures HoldsKey(c, k, e) ==> HoldsKey(c, k, e')
  {
  }

  lemma NoncesAgreed(c: Config, k: Coord, e: Epoch, heard: seq<Packet>)
    requires c.Valid() && NoncesHeard(c, k, e, heard) && EndersIn(e.kind, heard) == Signers(c.totalSigners) && k.phase.AwaitNonces?
    requires k.totalSigners == c.totalSigners
    ensures k.publicNonces == AllResponses(c, k.dkgId, e.nonces) && k.publicNonces.Keys == Signers(c.totalSigners)
    ensures var (k', posts) := Settle(k, true);
            && posts == [SignShareRequest(ShareQuery(k, k.phase.message))]
            && k' == k.(phase := AwaitShares(Signers(c.totalSigners), k.phase.message))
    ensures var (k', posts) := Settle(k, false);
            posts == [NonceQuery(k)] && k' == k.(publicNonces := map[])
  {
    hide Config.Valid, ResponsesOf, Ordered, Signers, EndersIn;
    ResponseCount(c, Signers(c.totalSigners), k.dkgId, e.nonces);
  }

  lemma SettleNonces(c: Config, s: System, even: bool)
    requires Rest(c, s) && CoordHeard(c, s) && s.coord.phase.AwaitNonces? && Complete(c, s)
    ensures var (coord, posts) := Settle(s.coord, even);
            Inv(c, Advance(s, coord, posts))
  {
    hide Config.Valid, LogOk, NodeOk, NodesOk, EpochPacket, AllFinished, Heard, Ordered, ResponsesOf, Settle, Advance, HoldsKey, Signers, EndersIn, SharesCollected;
    var (coord, posts) := Settle(s.coord, even);
    CompleteMeansAllFinished(c, s);
    NoncesAgreed(c, s.coord, s.epoch, Heard(s));
    SomeSigner(c);
    PostOpens(c, s, coord, posts[0]);
    SameKey(c, s.coord, coord, s.epoch);
    KeyCarried(c, coord, s.epoch, EpochAfter(s.epoch, posts[0], |s.log| + 1));
    NoneHeard(c, coord, EpochAfter(s.epoch, posts[0], |s.log| + 1), {});
  }

  lemma NoneHeard(c: Config, k: Coord, e: Epoch, enders: set<nat>)
    requires c.Valid()
    ensures ResponsesOf(c, {}, k.dkgId, e.nonces) == map[]
    ensures e.kind.Sign? ==> SharesCollected(k, {}, e)
  {
  }

  lemma SettleLast(c: Config, s: System, even: bool)
    requires Rest(c, s) && CoordHeard(c, s) && (s.coord.phase.AwaitDkgEnds? || s.coord.phase.AwaitShares?) && Complete(c, s)
    ensures var (coord, posts) := Settle(s.coord, even);
            Inv(c, Advance(s, coord, posts))
  {
    hide Config.Valid, LogOk, NodeOk, NodesOk, EpochPacket, AllFinished, Heard, Ordered, ResponsesOf, AllCommitments, SharesOf, Signers, EndersIn, Complete;
    var (coord, posts) := Settle(s.coord, even);
    CompleteMeansAllFinished(c, s);
    AwaitedOrComplete(c, s);
    assert coord == s.coord.(phase := Ready) && posts == [];
    assert Advance(s, coord, posts) == s.(coord := coord);
  }

  lemma SettleNot(c: Config, s: System, even: bool)
    requires Rest(c, s) && CoordHeard(c, s) && s.coord.phase != Ready && !Complete(c, s)
    ensures var (coord, posts) := Settle(s.coord, even);
            Inv(c, Advance(s, coord, posts))
  {
    AwaitedOrComplete(c, s);
    if s.coord.phase.AwaitNonces? {
      ResponseCount(c, EndersIn(s.epoch.kind, Heard(s)), s.coord.dkgId, s.epoch.nonces);
    }
    hide Config.Valid, LogOk, NodeOk, NodesOk, EpochPacket, AllFinished, Heard, Ordered, ResponsesOf, AllCommitments;
    var (coord, posts) := Settle(s.coord, even);
    assert coord == s.coord && posts == [];
    assert Advance(s, coord, posts) == s;
  }

  lemma CoordinatorReceivesKeeps(c: Config, s: System, even: bool)
    requires Inv(c, s) && Enabled(c, s, CoordinatorReceives(even))
    ensures Inv(c, Take(c, s, CoordinatorReceives(even)))
  {
    hide Config.Valid, LogOk, NodeOk, NodesOk, EpochPacket, CoordHeard, Heard, StillWaiting, Absorb, Settle, Advance, Complete;
    var p := s.log[s.read];
    var s1 := s.(read := s.read + 1, coord := Absorb(s.coord, p.msg));
    NotBoot(c, s);
    AbsorbKeeps(c, s);
    AbsorbStaysWaiting(s.coord, p.msg);
    AdvanceIgnoresCoord(s.(read := s.read + 1), s1.coord, Settle(s1.coord, even).0, Settle(s1.coord, even).1);
    if !Complete(c, s1) {
      SettleNot(c, s1, even);
    } else {
      match s1.coord.phase
      case AwaitPublicEnds(_) => SettlePublic(c, s1, even);
      case AwaitNonces(_) => SettleNonces(c, s1, even);
      case _ => SettleLast(c, s1, even);
    }
  }

  lemma AbsorbStaysWaiting(k: Coord, m: Message)
    requires k.phase != Ready
    ensures Absorb(k, m).phase != Ready
  {
  }

  lemma AdvanceIgnoresCoord(s: System, coord: Coord, next: Coord, posts: seq<Message>)
    ensures Advance(s.(coord := coord), next, posts) == Advance(s, next, posts)
  {
  }

  // ---------- Every reachable state ----------

  lemma InitialInv(c: Config, s: System)
    requires c.Valid() && IsInitial(c, s)
    ensures Inv(c, s)
  {
  }

  lemma StepKeepsInv(c: Config, s: System, step: Step)
    requires Inv(c, s) && Enabled(c, s, step)
    ensures Inv(c, Take(c, s, step))
  {
    match step
    case SignerReceives(i, order, outcome) => SignerReceivesKeeps(c, s, i, order, outcome);
    case SignerPosts(i) => SignerPostsKeeps(c, s, i);
    case CoordinatorReceives(even) => CoordinatorReceivesKeeps(c, s, even);
    case DkgCommand => DkgCommandKeeps(c, s);
    case SignCommand(message) => SignCommandKeeps(c, s, message);
  }
}
