/**
 The protocol's guarantees, for every run of the coordinator, the log and n honest
 signers over any sequence of commands, any interleaving and any number of
 retries for an odd key or nonce.
 */
module FrostTheorems {
  import opened Options
  import opened Results
  import opened FrostMessages
  import opened SigningRounds
  import opened FrostCoordinators
  import opened FrostProtocol
  import opened FrostInvariant
  import opened FrostSafety

  // ---------- History of the log ----------

  function DkgBegins(log: seq<Packet>): nat {
    if log == [] then 0 else DkgBegins(log[..|log| - 1]) + (if log[|log| - 1].msg.DkgBegin? then 1 else 0)
  }

  function NonceRequests(log: seq<Packet>): nat {
    if log == [] then 0 else NonceRequests(log[..|log| - 1]) + (if log[|log| - 1].msg.NonceRequest? then 1 else 0)
  }

  lemma CountsSnoc(log: seq<Packet>, p: Packet)
    ensures DkgBegins(log + [p]) == DkgBegins(log) + (if p.msg.DkgBegin? then 1 else 0)
    ensures NonceRequests(log + [p]) == NonceRequests(log) + (if p.msg.NonceRequest? then 1 else 0)
  {
    assert (log + [p])[..|log|] == log;
  }

  /** The request at `k` lists every signer's nonces of the round just collected. */
  ghost predicate RequestOk(c: Config, log: seq<Packet>, k: nat)
    requires c.Valid() && k < |log|
  {
    log[k].msg.SignShareRequest? ==>
      log[k].msg.request.nonceResponses
        == Ordered(AllResponses(c, log[k].msg.request.dkgId, NonceRequests(log[..k])))
  }

  /** The response at `k` answers the request at `j`, signed with the generation of
      nonces that request lists. */
  ghost predicate Answers(log: seq<Packet>, j: nat, k: nat)
    requires j < k < |log|
  {
    && log[j].msg.SignShareRequest?
    && log[k].msg == ShareReplyOf(log[k].signedBy, log[j].msg.request, NonceRequests(log[..j]))
  }

  ghost predicate ResponseOk(log: seq<Packet>, k: nat)
    requires k < |log|
  {
    log[k].msg.SignShareResponse? ==> exists j: nat | j < k :: Answers(log, j, k)
  }

  ghost predicate History(c: Config, log: seq<Packet>, e: Epoch)
    requires c.Valid()
  {
    && e.polys == DkgBegins(log) && e.nonces == NonceRequests(log)
    && (forall k: nat | k < |log| :: RequestOk(c, log, k))
    && (forall k: nat | k < |log| :: ResponseOk(log, k))
    && (forall k: nat | k < |log| && log[k].msg.SignShareRequest? ::
          if e.kind.Nonce? then NonceRequests(log[..k]) < e.nonces else NonceRequests(log[..k]) <= e.nonces)
    && (forall j: nat, k: nat | j < k < |log| && log[j].msg.SignShareRequest? && log[k].msg.SignShareRequest? ::
          NonceRequests(log[..j]) < NonceRequests(log[..k]))
  }

  lemma RequestOkSnoc(c: Config, log: seq<Packet>, p: Packet)
    requires c.Valid() && forall k: nat | k < |log| :: RequestOk(c, log, k)
    requires p.msg.SignShareRequest? ==>
               p.msg.request.nonceResponses == Ordered(AllResponses(c, p.msg.request.dkgId, NonceRequests(log)))
    ensures forall k: nat | k < |log| + 1 :: RequestOk(c, log + [p], k)
  {
    hide Config.Valid, Ordered, AllResponses;
    assert (log + [p])[..|log|] == log;
    forall k: nat | k < |log| + 1
      ensures RequestOk(c, log + [p], k)
    {
      if k < |log| {
        assert RequestOk(c, log, k);
        assert (log + [p])[..k] == log[..k];
      }
    }
  }

  lemma ResponseOkSnoc(log: seq<Packet>, p: Packet, j: nat)
    requires forall k: nat | k < |log| :: ResponseOk(log, k)
    requires p.msg.SignShareResponse? ==>
               j < |log| && log[j].msg.SignShareRequest?
               && p.msg == ShareReplyOf(p.signedBy, log[j].msg.request, NonceRequests(log[..j]))
    ensures forall k: nat | k < |log| + 1 :: ResponseOk(log + [p], k)
  {
    hide ShareReplyOf;
    var log' := log + [p];
    forall k: nat | k < |log'| && log'[k].msg.SignShareResponse?
      ensures exists i: nat | i < k :: Answers(log', i, k)
    {
      if k < |log| {
        assert ResponseOk(log, k);
        var i: nat :| i < k && Answers(log, i, k);
        assert log'[..i] == log[..i];
        assert Answers(log', i, k);
      } else {
        assert log'[..j] == log[..j];
        assert Answers(log', j, k);
      }
    }
  }

  lemma OrderSnoc(c: Config, log: seq<Packet>, e: Epoch, p: Packet, e': Epoch)
    requires c.Valid() && History(c, log, e) && e'.nonces == NonceRequests(log + [p])
    requires p.msg.SignShareRequest? ==> e.kind.Nonce?
    requires e'.kind.Nonce? ==> p.msg.NonceRequest? || (e.kind.Nonce? && !p.msg.SignShareRequest?)
    ensures var log' := log + [p];
            && (forall k: nat | k < |log'| && log'[k].msg.SignShareRequest? ::
                  if e'.kind.Nonce? then NonceRequests(log'[..k]) < e'.nonces else NonceRequests(log'[..k]) <= e'.nonces)
            && (forall j: nat, k: nat | j < k < |log'| && log'[j].msg.SignShareRequest? && log'[k].msg.SignShareRequest? ::
                  NonceRequests(log'[..j]) < NonceRequests(log'[..k]))
  {
    hide Config.Valid, RequestOk, ResponseOk;
    CountsSnoc(log, p);
    assert forall k: nat | k <= |log| :: (log + [p])[..k] == log[..k];
    assert log[..|log|] == log;
  }

  lemma ContributionIsNoCommand(c: Config, e: Epoch, p: Packet)
    requires c.Valid() && EpochPacket(c, e, p)
    ensures !FromCoordinator(p.msg)
  {
    hide Config.Valid;
  }

  lemma RequestOpening(c: Config, log: seq<Packet>, e: Epoch, request: SignatureShareRequest)
    requires c.Valid() && LogOk(c, log, e) && e.kind == Sign(request)
    ensures request.nonceResponses == Ordered(AllResponses(c, request.dkgId, e.nonces))
  {
    hide Config.Valid, EpochPacket, Ordered, AllResponses;
  }

  /** How the epoch's counts follow the log when one packet is added. */
  lemma EpochSnoc(c: Config, log: seq<Packet>, e: Epoch, p: Packet, e': Epoch)
    requires c.Valid() && LogOk(c, log + [p], e')
    requires e.polys == DkgBegins(log) && e.nonces == NonceRequests(log)
    requires (EpochPacket(c, e, p) && e' == e) || (p.signedBy == COORDINATOR && FromCoordinator(p.msg) && e' == EpochAfter(e, p.msg, |log| + 1))
    ensures e'.polys == DkgBegins(log + [p]) && e'.nonces == NonceRequests(log + [p])
    ensures e'.kind.Nonce? ==> p.msg.NonceRequest? || (e.kind.Nonce? && !p.msg.SignShareRequest?)
    ensures p.msg.SignShareResponse? ==> EpochPacket(c, e, p)
    ensures p.msg.SignShareRequest? ==>
              p.msg.request.nonceResponses == Ordered(AllResponses(c, p.msg.request.dkgId, NonceRequests(log)))
  {
    hide Config.Valid, LogOk, EpochPacket, Ordered, AllResponses, DkgBegins, NonceRequests;
    CountsSnoc(log, p);
    if EpochPacket(c, e, p) {
      ContributionIsNoCommand(c, e, p);
    } else if p.msg.SignShareRequest? {
      RequestOpening(c, log + [p], e', p.msg.request);
    }
  }

  lemma HistorySnoc(c: Config, log: seq<Packet>, e: Epoch, p: Packet, e': Epoch)
    requires c.Valid() && LogOk(c, log, e) && LogOk(c, log + [p], e') && History(c, log, e)
    requires (EpochPacket(c, e, p) && e' == e) || (p.signedBy == COORDINATOR && FromCoordinator(p.msg) && e' == EpochAfter(e, p.msg, |log| + 1))
    requires p.msg.SignShareRequest? ==> e.kind.Nonce?
    ensures History(c, log + [p], e')
  {
    hide Config.Valid, LogOk, EpochPacket, EpochAfter, RequestOk, ResponseOk, ShareReplyOf, Answers, Ordered, AllResponses,
      DkgBegins, NonceRequests;
    EpochSnoc(c, log, e, p, e');
    OrderSnoc(c, log, e, p, e');
    var j: nat := 0;
    if p.msg.SignShareResponse? {
      j := RequestOfResponse(c, log, e, p);
    }
    ResponseOkSnoc(log, p, j);
    RequestOkSnoc(c, log, p);
  }

  lemma RequestOfResponse(c: Config, log: seq<Packet>, e: Epoch, p: Packet) returns (j: nat)
    requires c.Valid() && LogOk(c, log, e) && EpochPacket(c, e, p) && p.msg.SignShareResponse? && e.nonces == NonceRequests(log)
    ensures j < |log| && log[j].msg.SignShareRequest? && p.msg == ShareReplyOf(p.signedBy, log[j].msg.request, NonceRequests(log[..j]))
  {
    hide Config.Valid, LogOk, EpochPacket, ShareReplyOf, NonceRequests, DkgBegins;
    SignOpening(c, log, e, p);
    j := e.start - 1;
    NoRequestsSince(c, log, e, |log|);
    assert log[..|log|] == log;
    CountsSnoc(log[..j], log[j]);
    assert log[..e.start] == log[..j] + [log[j]];
  }

  lemma SignOpening(c: Config, log: seq<Packet>, e: Epoch, p: Packet)
    requires c.Valid() && LogOk(c, log, e) && EpochPacket(c, e, p) && p.msg.SignShareResponse?
    ensures e.kind.Sign? && 0 < e.start <= |log| && log[e.start - 1].msg == SignShareRequest(e.kind.request)
    ensures p.msg == ShareReplyOf(p.signedBy, e.kind.request, e.nonces)
  {
    hide Config.Valid, ShareReplyOf, Ordered, ResponseOf;
  }

  lemma {:induction false} NoRequestsSince(c: Config, log: seq<Packet>, e: Epoch, k: nat)
    requires c.Valid() && LogOk(c, log, e) && e.start <= k <= |log|
    ensures e.start <= |log|
    ensures NonceRequests(log[..k]) == NonceRequests(log[..e.start])
  {
    hide Config.Valid, LogOk, EpochPacket, NonceRequests, DkgBegins;
    if k > e.start {
      NoRequestsSince(c, log, e, k - 1);
      CountsSnoc(log[..k - 1], log[k - 1]);
      assert log[..k] == log[..k - 1] + [log[k - 1]];
      InEpoch(c, log, e, k - 1);
      ContributionIsNoCommand(c, e, log[k - 1]);
    } else {
      EpochInLog(c, log, e);
    }
  }

  lemma PostKeepsHistory(c: Config, s: System, i: nat)
    requires Inv(c, s) && Enabled(c, s, SignerPosts(i)) && Inv(c, Take(c, s, SignerPosts(i))) && History(c, s.log, s.epoch)
    ensures History(c, s.log + [Packet(s.nodes[i].outbox[0], i)], s.epoch)
  {
    var p := Packet(s.nodes[i].outbox[0], i);
    ReceiverIdentity(c, s, i);
    OutboxPacket(c, s.log, s.epoch, i, s.nodes[i]);
    EpochPacketVerifies(c, s.epoch, p);
    hide Config.Valid, LogOk, NodeOk, NodesOk, CoordOk, History, EpochPacket;
    HistorySnoc(c, s.log, s.epoch, p, s.epoch);
  }

  lemma StepKeepsHistory(c: Config, s: System, step: Step)
    requires Inv(c, s) && Enabled(c, s, step) && Inv(c, Take(c, s, step)) && History(c, s.log, s.epoch)
    ensures History(c, Take(c, s, step).log, Take(c, s, step).epoch)
  {
    hide Config.Valid, LogOk, NodeOk, NodesOk, CoordOk, History, EpochPacket, Receive, Advance, OnMessage, StartDkg, StartSign;
    var s' := Take(c, s, step);
    if step.SignerPosts? {
      PostKeepsHistory(c, s, step.signer);
    } else if !step.SignerReceives? {
      var m := CoordinatorPosts(c, s, step);
      if m.Some? {
        HistorySnoc(c, s.log, s.epoch, Packet(m.value, COORDINATOR), s'.epoch);
      }
    }
  }

  /** At most one command is posted, and a share request only while nonces are collected. */
  predicate PostsOk(k: Coord, posts: seq<Message>) {
    |posts| <= 1
    && (posts != [] ==> FromCoordinator(posts[0]) && (posts[0].SignShareRequest? ==> k.phase.AwaitNonces?))
  }

  lemma SettlePosts(k: Coord, even: bool)
    ensures PostsOk(k, Settle(k, even).1)
  {
    hide Ordered, SortedKeys;
  }

  lemma AbsorbKeepsPhase(k: Coord, m: Message)
    ensures Absorb(k, m).phase.AwaitNonces? <==> k.phase.AwaitNonces?
  {
  }

  lemma ReceivedPosts(k: Coord, m: Message, even: bool)
    ensures PostsOk(k, OnMessage(k, m, even).1)
  {
    hide Settle, Absorb;
    AbsorbKeepsPhase(k, m);
    SettlePosts(Absorb(k, m), even);
  }

  lemma CommandPosts(k: Coord, message: seq<nat>)
    ensures PostsOk(k, StartDkg(k).1) && PostsOk(k, StartSign(k, message).1)
  {
  }

  lemma CoordinatorPosts(c: Config, s: System, step: Step) returns (m: Option<Message>)
    requires Inv(c, s) && Enabled(c, s, step) && !step.SignerReceives? && !step.SignerPosts?
    ensures var s' := Take(c, s, step);
            match m
            case None => s'.log == s.log && s'.epoch == s.epoch
            case Some(x) =>
              && s'.log == s.log + [Packet(x, COORDINATOR)] && FromCoordinator(x)
              && s'.epoch == EpochAfter(s.epoch, x, |s.log| + 1)
              && (x.SignShareRequest? ==> s.epoch.kind.Nonce?)
  {
    hide Config.Valid, Inv, OnMessage, StartDkg, StartSign, EpochAfter, FromCoordinator;
    PhaseKind(c, s);
    var received := if step.CoordinatorReceives? then s.log[s.read].msg else DkgBegin(0);
    var even := step.CoordinatorReceives? && step.even;
    var message := if step.SignCommand? then step.message else [];
    ReceivedPosts(s.coord, received, even);
    CommandPosts(s.coord, message);
    var posts := match step
      case CoordinatorReceives(even) => OnMessage(s.coord, received, even).1
      case DkgCommand => StartDkg(s.coord).1
      case _ => StartSign(s.coord, message).1;
    m := if posts == [] then None else Some(posts[0]);
  }

  lemma PhaseKind(c: Config, s: System)
    requires Inv(c, s)
    ensures s.coord.phase.AwaitNonces? ==> s.epoch.kind.Nonce?
  {
    hide Config.Valid, LogOk, NodeOk, EpochPacket, Ordered, PublicHeard, PrivateHeard, SharesHeard, RoundDone, HoldsKey;
  }

  // ---------- Every state of every run ----------

  lemma NoHistory(c: Config, s: System)
    requires c.Valid() && IsInitial(c, s)
    ensures History(c, s.log, s.epoch)
  {
    hide Config.Valid, RequestOk, ResponseOk;
  }

  lemma {:induction false} RunKeepsInv(c: Config, states: seq<System>, steps: seq<Step>, k: nat)
    requires c.Valid() && IsRun(c, states, steps) && k < |states|
    ensures Inv(c, states[k]) && History(c, states[k].log, states[k].epoch)
  {
    hide Config.Valid, Inv, History, Take, Enabled, IsInitial;
    if k == 0 {
      InitialInv(c, states[0]);
      NoHistory(c, states[0]);
    } else {
      RunKeepsInv(c, states, steps, k - 1);
      assert IsStep(c, states[k - 1], steps[k - 1], states[k]);
      StepKeepsInv(c, states[k - 1], steps[k - 1]);
      StepKeepsHistory(c, states[k - 1], steps[k - 1]);
    }
  }

  /** No signer ever stops: every message it is ever given is one its state machine
      accepts, so no `move_to` fails. */
  lemma NoBadStateChange(c: Config, states: seq<System>, steps: seq<Step>, k: nat, i: nat)
    requires c.Valid() && IsRun(c, states, steps) && k < |states| && c.IsSigner(i)
    ensures i in states[k].nodes && !states[k].nodes[i].failed
  {
    RunKeepsInv(c, states, steps, k);
    ReceiverIdentity(c, states[k], i);
  }

  /** The key that is kept. Whenever the coordinator has a key and is not collecting
      public shares, that key was summed from exactly the commitments drawn for the
      latest `DkgBegin` in the log, one of every key, and every signer holds the same. */
  lemma KeptKeyAgreed(c: Config, states: seq<System>, steps: seq<Step>, k: nat)
    requires c.Valid() && IsRun(c, states, steps) && k < |states|
    requires states[k].coord.aggregateKey.Some? && !states[k].coord.phase.AwaitPublicEnds?
    ensures var s := states[k];
            var all := AllCommitments(c, DkgBegins(s.log));
            && s.coord.aggregateKey == Some(all) && s.coord.publicShares == all && |all| == c.totalKeys
            && forall i | i in s.nodes :: s.nodes[i].round.commitments == all
  {
    var s := states[k];
    RunKeepsInv(c, states, steps, k);
    FullCommitments(c, s.epoch.polys);
    AgreedKind(c, s);
    forall i | i in s.nodes
      ensures s.nodes[i].round.commitments == AllCommitments(c, s.epoch.polys)
    {
      ReceiverIdentity(c, s, i);
      if s.nodes[i].read >= s.epoch.start && s.epoch.kind == Public {
        assert false;
      }
      NodeCommitments(c, s.log, s.epoch, i, s.nodes[i]);
    }
  }

  lemma AgreedKind(c: Config, s: System)
    requires Inv(c, s) && s.coord.aggregateKey.Some? && !s.coord.phase.AwaitPublicEnds?
    ensures !s.epoch.kind.Boot? && !s.epoch.kind.Public? && HoldsKey(c, s.coord, s.epoch)
  {
    hide Config.Valid, LogOk, NodeOk, EpochPacket, Ordered, AllCommitments, Heard;
  }

  lemma NodeCommitments(c: Config, log: seq<Packet>, e: Epoch, i: nat, node: Node)
    requires c.Valid() && c.IsSigner(i) && e.start <= |log| && NodeOk(c, log, e, i, node)
    requires !e.kind.Boot? && !e.kind.Public?
    ensures node.round.commitments == AllCommitments(c, e.polys)
  {
    hide Config.Valid, AllCommitments, EpochPacket;
  }

  /** The coordinator's step sums a key, which may turn out even or odd: it receives the
      last public end it waits for. */
  predicate SumsKey(s: System, step: Step) {
    step.CoordinatorReceives? && s.read < |s.log|
    && Absorb(s.coord, s.log[s.read].msg).phase == AwaitPublicEnds({})
  }

  /** Attempt agreement: whenever the coordinator sums a key, kept or not, it sums
      exactly the commitments drawn for the latest `DkgBegin` in the log, one of every key,
      and every signer holds the same ones. */
  lemma AttemptAgreement(c: Config, states: seq<System>, steps: seq<Step>, n: nat)
    requires c.Valid() && IsRun(c, states, steps) && n < |steps| && SumsKey(states[n], steps[n])
    ensures var s, s' := states[n], states[n + 1];
            var all := AllCommitments(c, DkgBegins(s.log));
            && s'.coord.aggregateKey == Some(all) && |all| == c.totalKeys
            && s'.nodes == s.nodes && forall i | i in s.nodes :: s.nodes[i].round.commitments == all
  {
    hide Inv, History, Config.Valid, Take, Enabled, IsInitial, AllCommitments, SumsKey;
    RunKeepsInv(c, states, steps, n);
    assert IsStep(c, states[n], steps[n], states[n + 1]);
    RunCounts(c, states[n].log, states[n].epoch);
    FullCommitments(c, states[n].epoch.polys);
    KeySummed(c, states[n], steps[n]);
  }

  lemma KeySummed(c: Config, s: System, step: Step)
    requires Inv(c, s) && Enabled(c, s, step) && SumsKey(s, step)
    ensures var s', all := Take(c, s, step), AllCommitments(c, s.epoch.polys);
            && s'.coord.aggregateKey == Some(all)
            && s'.nodes == s.nodes && forall i | i in s.nodes :: s.nodes[i].round.commitments == all
  {
    hide Config.Valid, LogOk, NodeOk, NodesOk, EpochPacket, CoordHeard, Heard, StillWaiting, AllCommitments, Absorb, Settle,
      Complete, AllFinished, CommitmentsIn, Signers, EndersIn, Advance;
    var k := Absorb(s.coord, s.log[s.read].msg);
    var s1 := s.(read := s.read + 1, coord := k);
    NotBoot(c, s);
    AbsorbKeeps(c, s);
    HeardPublic(c, s1);
    AwaitedOrComplete(c, s1);
    CompleteMeansAllFinished(c, s1);
    PublicComplete(c, s1.log, s1.epoch, s1.nodes);
    SettledKey(s, k, step.even);
    forall i | i in s.nodes
      ensures s.nodes[i].round.commitments == AllCommitments(c, s.epoch.polys)
    {
      ReceiverIdentity(c, s, i);
      FinishedHoldsAll(c, s.log, s.epoch, s.nodes, i);
    }
  }

  lemma HeardPublic(c: Config, s: System)
    requires c.Valid() && SignersKnown(c, s) && s.epoch.start <= |s.log| && CoordHeard(c, s) && s.coord.phase == AwaitPublicEnds({})
    ensures s.epoch.kind == Public && Signers(c.totalSigners) - EndersIn(Public, Heard(s)) == {}
    ensures s.read <= |s.log| && s.coord.publicShares == CommitmentsIn(Heard(s))
  {
    hide Config.Valid, Heard, EndersIn, Signers, CommitmentsIn, HoldsKey;
  }

  lemma SettledKey(s: System, k: Coord, even: bool)
    requires k.phase == AwaitPublicEnds({})
    ensures var (coord, posts) := Settle(k, even);
            coord.aggregateKey == Some(k.publicShares)
            && Advance(s.(read := s.read + 1), coord, posts).coord == coord
            && Advance(s.(read := s.read + 1), coord, posts).nodes == s.nodes
  {
    hide Signers;
  }

  lemma FinishedHoldsAll(c: Config, log: seq<Packet>, e: Epoch, nodes: map<nat, Node>, i: nat)
    requires c.Valid() && c.IsSigner(i) && i in nodes && e.start <= |log| && NodeOk(c, log, e, i, nodes[i])
    requires e.kind == Public && AllFinished(log, e, nodes)
    ensures nodes[i].round.commitments == AllCommitments(c, e.polys)
  {
    hide Config.Valid, EpochPacket, AllCommitments, Ended, CommitmentsIn;
    assert Finished(log, e, i, nodes[i]);
    var from := From(log[e.start..], i);
    assert from + [] == from;
  }

  /** A signer announces the end of its public part only while it holds exactly the
      latest attempt's commitments of all keys, and of its private part only while
      it also holds exactly that attempt's share sets of all keys. */
  lemma EndsAreComplete(c: Config, states: seq<System>, steps: seq<Step>, k: nat, i: nat)
    requires c.Valid() && IsRun(c, states, steps) && k < |states| && i in states[k].nodes
    ensures forall m | m in states[k].nodes[i].outbox :: m.DkgPublicEnd? ==>
              states[k].nodes[i].round.commitments == AllCommitments(c, DkgBegins(states[k].log))
    ensures forall m | m in states[k].nodes[i].outbox :: m.DkgEnd? ==>
              && states[k].nodes[i].round.commitments == AllCommitments(c, DkgBegins(states[k].log))
              && states[k].nodes[i].round.shares == AllShares(c, DkgBegins(states[k].log))
  {
    var s := states[k];
    RunKeepsInv(c, states, steps, k);
    ReceiverIdentity(c, s, i);
    forall m | m in s.nodes[i].outbox && (m.DkgPublicEnd? || m.DkgEnd?)
      ensures s.nodes[i].round.commitments == AllCommitments(c, s.epoch.polys)
      ensures m.DkgEnd? ==> s.nodes[i].round.shares == AllShares(c, s.epoch.polys)
    {
      EndPosted(c, s.log, s.epoch, i, s.nodes[i], m);
    }
  }

  lemma EndPosted(c: Config, log: seq<Packet>, e: Epoch, i: nat, node: Node, m: Message)
    requires c.Valid() && c.IsSigner(i) && e.start <= |log| && NodeOk(c, log, e, i, node)
    requires m in node.outbox && (m.DkgPublicEnd? || m.DkgEnd?)
    ensures node.round.commitments == AllCommitments(c, e.polys)
    ensures m.DkgEnd? ==> node.round.shares == AllShares(c, e.polys)
  {
    assert EpochPacket(c, e, Packet(m, i));
    hide Config.Valid, AllCommitments, AllShares, EpochPacket;
    var from := From(log[e.start..], i);
    var sent := from + node.outbox;
    var j :| 0 <= j < |node.outbox| && node.outbox[j] == m;
    assert sent[|from| + j] == m;
    assert IsEnd(e.kind, m);
  }

  // ---------- Deadlock freedom ----------

  /** The coordinator is waiting and nothing in the system can move. */
  ghost predicate Stuck(s: System) {
    && s.coord.phase != Ready
    && s.read == |s.log|
    && forall i | i in s.nodes :: s.nodes[i].read == |s.log| && s.nodes[i].outbox == []
  }

  /** No reachable state is stuck: as long as the coordinator waits in any of its
      four loops, some party still has a message to post or to read. */
  lemma DeadlockFreedom(c: Config, states: seq<System>, steps: seq<Step>, k: nat)
    requires c.Valid() && IsRun(c, states, steps) && k < |states|
    ensures !Stuck(states[k])
  {
    hide Inv, Take, Enabled, History, Stuck;
    RunKeepsInv(c, states, steps, k);
    NeverStuck(c, states[k]);
  }

  lemma NeverStuck(c: Config, s: System)
    requires Inv(c, s)
    ensures !Stuck(s)
  {
    if Stuck(s) {
      hide Config.Valid, LogOk, NodeOk, CoordHeard, StillWaiting, Complete, EndersIn;
      NotBoot(c, s);
      AllCaughtUpAllEnded(c, s.log, s.epoch, s.nodes);
      StillIncomplete(c, s);
      AllEndedMeansComplete(c, s);
    }
  }

  lemma AllEndedMeansComplete(c: Config, s: System)
    requires c.Valid() && SignersKnown(c, s) && LogOk(c, s.log, s.epoch) && s.epoch.kind != Boot && s.read == |s.log|
    requires forall i | i in s.nodes :: Ended(s.epoch.kind, From(s.log[s.epoch.start..], i))
    ensures Complete(c, s)
  {
    hide LogOk;
    EpochInLog(c, s.log, s.epoch);
    var cur := s.log[s.epoch.start..];
    assert Heard(s) == cur;
    forall i | i in Signers(c.totalSigners)
      ensures i in EndersIn(s.epoch.kind, cur)
    {
      assert c.IsSigner(i) && i in s.nodes;
      EndedIsEnder(s.epoch.kind, cur, i);
    }
    AwaitedOrComplete(c, s);
  }

  lemma EpochInLog(c: Config, log: seq<Packet>, e: Epoch)
    requires c.Valid() && LogOk(c, log, e)
    ensures e.start <= |log|
  {
  }

  lemma EndedIsEnder(kind: Kind, s: seq<Packet>, i: nat)
    requires kind != Boot && Ended(kind, From(s, i))
    ensures i in EndersIn(kind, s)
  {
    var from := From(s, i);
    SentMessage(s, i, from[|from| - 1]);
  }

  lemma StillIncomplete(c: Config, s: System)
    requires Inv(c, s) && s.coord.phase != Ready
    ensures !Complete(c, s)
  {
    AwaitedOrComplete(c, s);
    hide Config.Valid, LogOk, NodeOk, NodesOk, EpochPacket, Ordered, AllCommitments, Heard, EndersIn, Signers;
  }

  lemma AllCaughtUpAllEnded(c: Config, log: seq<Packet>, e: Epoch, nodes: map<nat, Node>)
    requires c.Valid() && (forall i :: i in nodes <==> c.IsSigner(i)) && LogOk(c, log, e) && NodesOk(c, log, e, nodes)
    requires forall i | i in nodes :: nodes[i].read == |log| && nodes[i].outbox == []
    ensures forall i | i in nodes :: Ended(e.kind, From(log[e.start..], i))
  {
    if e.kind == Public {
      AllCommitmentsPosted(c, log, e, nodes);
    } else if e.kind == Private {
      AllSharesPosted(c, log, e, nodes);
    }
    hide Config.Valid, LogOk, NodeOk, Ended;
    forall i | i in nodes
      ensures Ended(e.kind, From(log[e.start..], i))
    {
      CaughtUpEnded(c, log, e, i, nodes[i]);
    }
  }

  lemma AllCommitmentsPosted(c: Config, log: seq<Packet>, e: Epoch, nodes: map<nat, Node>)
    requires c.Valid() && (forall i :: i in nodes <==> c.IsSigner(i)) && LogOk(c, log, e) && NodesOk(c, log, e, nodes)
    requires e.kind == Public && forall i | i in nodes :: nodes[i].read == |log| && nodes[i].outbox == []
    ensures |CommitmentsIn(log[e.start..])| == c.totalKeys
  {
    hide NodeOk, EpochPacket, OpeningOk, AllOf;
    var cur := log[e.start..];
    CurrentContributed(c, log, e);
    CommitmentsGathered(c, e, cur);
    forall p | p in c.keyOwner
      ensures p in CommitmentsIn(cur)
    {
      KeyPosted(c, log, e, c.keyOwner[p], nodes[c.keyOwner[p]], p);
    }
    assert CommitmentsIn(cur).Keys == c.keyOwner.Keys;
  }

  lemma AllSharesPosted(c: Config, log: seq<Packet>, e: Epoch, nodes: map<nat, Node>)
    requires c.Valid() && (forall i :: i in nodes <==> c.IsSigner(i)) && LogOk(c, log, e) && NodesOk(c, log, e, nodes)
    requires e.kind == Private && forall i | i in nodes :: nodes[i].read == |log| && nodes[i].outbox == []
    ensures |SharesIn(log[e.start..])| == c.totalKeys
  {
    hide NodeOk, EpochPacket, OpeningOk, AllOf;
    var cur := log[e.start..];
    CurrentContributed(c, log, e);
    SharesGathered(c, e, cur);
    forall q | q in ZeroBasedKeys(c)
      ensures q in SharesIn(cur)
    {
      assert q + 1 in c.keyOwner;
      KeyPosted(c, log, e, c.keyOwner[q + 1], nodes[c.keyOwner[q + 1]], q + 1);
    }
    assert SharesIn(cur).Keys == ZeroBasedKeys(c);
  }

  lemma KeyPosted(c: Config, log: seq<Packet>, e: Epoch, i: nat, node: Node, p: nat)
    requires c.Valid() && c.IsSigner(i) && LogOk(c, log, e) && NodeOk(c, log, e, i, node)
    requires node.read == |log| && node.outbox == []
    requires (e.kind == Public || e.kind == Private) && i in c.signerKeyIds && p in c.signerKeyIds[i]
    ensures if e.kind == Public then p in CommitmentsIn(log[e.start..]) else p > 0 && p - 1 in SharesIn(log[e.start..])
  {
    var from := From(log[e.start..], i);
    assert from + node.outbox == from;
    if e.kind == Public {
      var m :| m in from && m.DkgPublicShare? && m.partyId == p;
      SentMessage(log[e.start..], i, m);
    } else {
      var m :| m in from && m.DkgPrivateShares? && m.keyId + 1 == p;
      SentMessage(log[e.start..], i, m);
    }
  }

  lemma CaughtUpEnded(c: Config, log: seq<Packet>, e: Epoch, i: nat, node: Node)
    requires c.Valid() && c.IsSigner(i) && LogOk(c, log, e) && NodeOk(c, log, e, i, node)
    requires node.read == |log| && node.outbox == []
    requires e.kind == Public ==> |CommitmentsIn(log[e.start..])| == c.totalKeys
    requires e.kind == Private ==> |SharesIn(log[e.start..])| == c.totalKeys
    ensures Ended(e.kind, From(log[e.start..], i))
  {
    hide Config.Valid, EpochPacket, OpeningOk, AllCommitments, AllShares, CommitmentsIn, SharesIn;
    var from := From(log[e.start..], i);
    assert from + node.outbox == from;
    assert log[e.start..node.read] == log[e.start..];
  }

  // ---------- Signing ----------

  /** Signature shares in the log are computed over exactly the lists of the request
      they answer, with the very nonces that request lists for their signer. */
  lemma SigningConsistency(c: Config, states: seq<System>, steps: seq<Step>, n: nat, k: nat) returns (j: nat)
    requires c.Valid() && IsRun(c, states, steps) && n < |states| && k < |states[n].log|
    requires states[n].log[k].msg.SignShareResponse?
    ensures j < k && states[n].log[j].msg.SignShareRequest?
    ensures var request := states[n].log[j].msg.request;
            var shares, i := states[n].log[k].msg.signatureShares, states[n].log[k].signedBy;
            && c.IsSigner(i) && shares.signerId == i && shares.message == request.message
            && shares.signerIds == SignerIds(request.nonceResponses)
            && shares.keyIds == FlatKeyIds(request.nonceResponses) && shares.nonces == FlatNonces(request.nonceResponses)
            && exists r | r in request.nonceResponses ::
                 && r.signerId == i && r.keyIds == ZeroBased(c, i)
                 && r.nonces == PublicNonces(ZeroBased(c, i), shares.generation)
  {
    hide Inv, Take, Enabled, IsRun;
    RunKeepsInv(c, states, steps, n);
    ResponderKnown(c, states, steps, n, k);
    j := ResponseInHistory(c, states[n].log, states[n].epoch, k);
  }

  lemma ResponseInHistory(c: Config, log: seq<Packet>, e: Epoch, k: nat) returns (j: nat)
    requires c.Valid() && History(c, log, e) && k < |log| && log[k].msg.SignShareResponse? && SenderKnown(c, log[k])
    ensures j < k && log[j].msg.SignShareRequest?
    ensures var request := log[j].msg.request;
            var shares, i := log[k].msg.signatureShares, log[k].signedBy;
            && c.IsSigner(i) && shares.signerId == i && shares.message == request.message
            && shares.signerIds == SignerIds(request.nonceResponses)
            && shares.keyIds == FlatKeyIds(request.nonceResponses) && shares.nonces == FlatNonces(request.nonceResponses)
            && exists r | r in request.nonceResponses ::
                 && r.signerId == i && r.keyIds == ZeroBased(c, i)
                 && r.nonces == PublicNonces(ZeroBased(c, i), shares.generation)
  {
    hide Config.Valid, Ordered, AllResponses, SignerIds, FlatKeyIds, FlatNonces;
    assert ResponseOk(log, k);
    j :| j < k && Answers(log, j, k);
    assert RequestOk(c, log, j);
    var generation := NonceRequests(log[..j]);
    ListedResponse(c, log[j].msg.request.dkgId, generation, log[k].signedBy);
    assert ResponseOf(c, log[k].signedBy, log[j].msg.request.dkgId, generation) in log[j].msg.request.nonceResponses;
  }

  lemma ListedResponse(c: Config, dkgId: nat, generation: nat, i: nat)
    requires c.Valid() && c.IsSigner(i)
    ensures ResponseOf(c, i, dkgId, generation) in Ordered(AllResponses(c, dkgId, generation))
  {
    var m := AllResponses(c, dkgId, generation);
    var keys := SortedKeys(m.Keys);
    assert i in m.Keys;
    assert i in keys;
    var k :| 0 <= k < |keys| && keys[k] == i;
    assert Ordered(m)[k] == m[i];
  }

  ghost predicate SenderKnown(c: Config, p: Packet) {
    FromCoordinator(p.msg) || c.IsSigner(p.signedBy)
  }

  lemma StepSenderKnown(c: Config, s: System, step: Step)
    requires Inv(c, s) && Enabled(c, s, step)
    ensures var log' := Take(c, s, step).log;
            && s.log <= log'
            && forall k | |s.log| <= k < |log'| :: SenderKnown(c, log'[k])
  {
    hide Config.Valid, LogOk, NodeOk, NodesOk, CoordOk, EpochPacket, Receive, Advance, OnMessage, StartDkg, StartSign;
    if step.SignerPosts? {
      ReceiverIdentity(c, s, step.signer);
    } else if !step.SignerReceives? {
      var m := CoordinatorPosts(c, s, step);
    }
  }

  /** Whoever contributes to the log as anyone but the coordinator is a signer. */
  lemma {:induction false} ResponderKnown(c: Config, states: seq<System>, steps: seq<Step>, n: nat, k: nat)
    requires c.Valid() && IsRun(c, states, steps) && n < |states| && k < |states[n].log|
    ensures SenderKnown(c, states[n].log[k])
  {
    hide Config.Valid, Inv, Enabled, Take, History, SenderKnown;
    if n > 0 {
      RunKeepsInv(c, states, steps, n - 1);
      assert IsStep(c, states[n - 1], steps[n - 1], states[n]);
      StepSenderKnown(c, states[n - 1], steps[n - 1]);
      if k < |states[n - 1].log| {
        ResponderKnown(c, states, steps, n - 1, k);
      }
    }
  }

  lemma {:induction false} NoncesOfGeneration(c: Config, responses: seq<NonceResponse>, generation: nat)
    requires forall r | r in responses :: forall x | x in r.nonces :: x.generation == generation
    ensures forall x | x in FlatNonces(responses) :: x.generation == generation
  {
    if responses != [] {
      NoncesOfGeneration(c, responses[1..], generation);
    }
  }

  lemma RequestNonces(c: Config, dkgId: nat, generation: nat)
    requires c.Valid()
    ensures forall x | x in FlatNonces(Ordered(AllResponses(c, dkgId, generation))) :: x.generation == generation
  {
    var m := AllResponses(c, dkgId, generation);
    var responses := Ordered(m);
    forall r | r in responses
      ensures forall x | x in r.nonces :: x.generation == generation
    {
      var k :| 0 <= k < |responses| && responses[k] == r;
      assert r == m[SortedKeys(m.Keys)[k]];
    }
    NoncesOfGeneration(c, responses, generation);
  }

  /** No nonce is ever listed in two signature-share requests of a run. */
  lemma NoNonceReuse(c: Config, states: seq<System>, steps: seq<Step>, n: nat, j: nat, k: nat, x: PublicNonce)
    requires c.Valid() && IsRun(c, states, steps) && n < |states| && j < k < |states[n].log|
    requires states[n].log[j].msg.SignShareRequest? && states[n].log[k].msg.SignShareRequest?
    requires x in FlatNonces(states[n].log[j].msg.request.nonceResponses)
    ensures x !in FlatNonces(states[n].log[k].msg.request.nonceResponses)
  {
    RunKeepsInv(c, states, steps, n);
    var log := states[n].log;
    assert RequestOk(c, log, j) && RequestOk(c, log, k);
    RequestNonces(c, log[j].msg.request.dkgId, NonceRequests(log[..j]));
    RequestNonces(c, log[k].msg.request.dkgId, NonceRequests(log[..k]));
  }

  /** When a signing is over, the coordinator holds every signer's shares for its
      last request, whose lists are those of the nonces it collected itself. */
  lemma SharesCollectedForRequest(c: Config, states: seq<System>, steps: seq<Step>, n: nat)
    requires c.Valid() && IsRun(c, states, steps) && n < |states|
    requires states[n].coord.phase == Ready && states[n].epoch.kind.Sign?
    ensures var s := states[n];
            var request := s.epoch.kind.request;
            && Packet(SignShareRequest(request), COORDINATOR) in s.log
            && request.nonceResponses == Ordered(s.coord.publicNonces)
            && forall i | c.IsSigner(i) ::
                 && i in s.coord.signatureShares
                 && s.coord.signatureShares[i] == SharesOf(i, request, NonceRequests(s.log))
  {
    hide Inv, IsRun, Ordered, SharesOf, Config.Valid, History;
    RunKeepsInv(c, states, steps, n);
    SigningOver(c, states[n]);
    RunCounts(c, states[n].log, states[n].epoch);
  }

  lemma RunCounts(c: Config, log: seq<Packet>, e: Epoch)
    requires c.Valid() && History(c, log, e)
    ensures e.polys == DkgBegins(log) && e.nonces == NonceRequests(log)
  {
    hide RequestOk, ResponseOk, Config.Valid;
  }

  lemma SigningOver(c: Config, s: System)
    requires Inv(c, s) && s.coord.phase == Ready && s.epoch.kind.Sign?
    ensures var request := s.epoch.kind.request;
            && Packet(SignShareRequest(request), COORDINATOR) in s.log
            && request.nonceResponses == Ordered(s.coord.publicNonces)
            && forall i | c.IsSigner(i) ::
                 && i in s.coord.signatureShares
                 && s.coord.signatureShares[i] == SharesOf(i, request, s.epoch.nonces)
  {
    hide NodeOk, NodesOk, EpochPacket, Ordered, SharesOf, Config.Valid, PublicHeard, PrivateHeard, NoncesHeard;
    assert s.log[s.epoch.start - 1] in s.log;
    assert RoundDone(c, s.coord, s.epoch);
    assert forall i | c.IsSigner(i) :: i in Signers(c.totalSigners);
  }
}
