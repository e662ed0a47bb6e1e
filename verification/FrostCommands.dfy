/**
 What a command leads to, over every run: the message that was asked for is the one that is
 signed, and everything a key generation posts carries its new id.
 */
module FrostCommands {
  import opened Options
  import opened Results
  import opened FrostMessages
  import opened SigningRounds
  import opened FrostCoordinators
  import opened FrostProtocol
  import opened FrostInvariant
  import opened FrostSafety
  import opened FrostTheorems

  /** The steps behind `n` and before `k` belong to the command taken at `n`. */
  ghost predicate Running(states: seq<System>, n: nat, k: nat)
    requires n < k < |states|
  {
    forall j | n < j < k :: states[j].coord.phase != Ready
  }

  /** Where the coordinator is while it serves a command, and behind it. */
  ghost predicate Serving(s: System, command: Step) {
    match command
    case SignCommand(message) =>
      (match s.coord.phase
       case AwaitNonces(m) => m == message
       case AwaitShares(_, m) => m == message
       case Ready => s.epoch.kind.Sign? && s.epoch.kind.request.message == message
       case _ => false)
    case DkgCommand => s.coord.phase.AwaitPublicEnds? || s.coord.phase.AwaitDkgEnds? || s.coord.phase.Ready?
    case _ => false
  }

  /** What the coordinator posts for a command with a key generation's id. */
  predicate Serves(m: Message, command: Step, dkgId: nat) {
    match m
    case SignShareRequest(request) =>
      command.SignCommand? && request.message == command.message && request.dkgId == dkgId
    case NonceRequest(id, _, _) => command.SignCommand? && id == dkgId
    case DkgBegin(id) => command.DkgCommand? && id == dkgId
    case DkgPrivateBegin(id) => command.DkgCommand? && id == dkgId
    case _ => true
  }

  ghost predicate AllServe(log: seq<Packet>, from: nat, command: Step, dkgId: nat) {
    forall p :: from <= p < |log| ==> Serves(log[p].msg, command, dkgId)
  }

  lemma ServingStep(k: Coord, m: Message, even: bool, command: Step)
    requires k.phase != Ready && !command.SignerReceives? && !command.SignerPosts? && !command.CoordinatorReceives?
    requires match command
             case SignCommand(message) =>
               (k.phase.AwaitNonces? && k.phase.message == message) || (k.phase.AwaitShares? && k.phase.message == message)
             case _ => k.phase.AwaitPublicEnds? || k.phase.AwaitDkgEnds?
    ensures var (next, posts) := OnMessage(k, m, even);
            && next.dkgId == k.dkgId && |posts| <= 1 && (posts != [] ==> Serves(posts[0], command, k.dkgId))
            && match command
               case SignCommand(message) =>
                 || (next.phase.AwaitNonces? && next.phase.message == message)
                 || (next.phase.AwaitShares? && next.phase.message == message)
                 || (next.phase == Ready && k.phase.AwaitShares? && posts == [])
               case _ => next.phase.AwaitPublicEnds? || next.phase.AwaitDkgEnds? || next.phase == Ready
  {
    hide Ordered, Signers;
  }

  lemma SharesEpoch(c: Config, s: System)
    requires Inv(c, s) && s.coord.phase.AwaitShares?
    ensures s.epoch.kind.Sign? && s.epoch.kind.request.message == s.coord.phase.message
  {
    hide Config.Valid, LogOk, NodeOk, NodesOk, EpochPacket, Ordered, AllResponses, HoldsKey, StillWaiting, Heard, EndersIn,
      SharesCollected, Signers;
  }

  lemma PostedServes(c: Config, s: System, i: nat, command: Step, dkgId: nat)
    requires Inv(c, s) && Enabled(c, s, SignerPosts(i))
    ensures Serves(s.nodes[i].outbox[0], command, dkgId)
  {
    ReceiverIdentity(c, s, i);
    OutboxPacket(c, s.log, s.epoch, i, s.nodes[i]);
    ContributionIsNoCommand(c, s.epoch, Packet(s.nodes[i].outbox[0], i));
  }

  /** Any step of any party while a command is served. */
  lemma StepServes(c: Config, s: System, step: Step, command: Step)
    requires Inv(c, s) && Enabled(c, s, step) && Serving(s, command) && s.coord.phase != Ready
    ensures var next := Take(c, s, step);
            && Serving(next, command) && next.coord.dkgId == s.coord.dkgId
            && s.log <= next.log && AllServe(next.log, |s.log|, command, s.coord.dkgId)
  {
    hide Config.Valid, Inv, OnMessage, Receive, StartDkg, StartSign;
    if s.coord.phase.AwaitShares? {
      SharesEpoch(c, s);
    }
    match step
    case SignerPosts(i) => PostedServes(c, s, i, command, s.coord.dkgId);
    case CoordinatorReceives(even) => ServingStep(s.coord, s.log[s.read].msg, even, command);
    case _ =>
  }

  lemma CommandServes(c: Config, s: System, command: Step)
    requires Enabled(c, s, command) && (command.DkgCommand? || (command.SignCommand? && s.coord.aggregateKey.Some?))
    ensures var next := Take(c, s, command);
            && Serving(next, command) && next.coord.phase != Ready
            && next.coord.dkgId == (if command.DkgCommand? then (s.coord.dkgId + 1) % 0x1_0000_0000_0000_0000 else s.coord.dkgId)
            && s.log <= next.log && AllServe(next.log, |s.log|, command, next.coord.dkgId)
  {
    hide Signers, Ordered;
  }

  /** From a command until the coordinator is ready again, whoever moves in between and
      however often an odd key or nonce makes it start over: a signing posts requests for
      the message that was asked for only, under the id of the key; a key generation posts
      under the id that follows the one before. */
  lemma {:induction false} CommandsAreServed(c: Config, states: seq<System>, steps: seq<Step>, n: nat, k: nat)
    requires c.Valid() && IsRun(c, states, steps) && n < k < |states| && Running(states, n, k)
    requires steps[n].DkgCommand? || (steps[n].SignCommand? && states[n].coord.aggregateKey.Some?)
    ensures Serving(states[k], steps[n]) && states[n].log <= states[k].log
    ensures var id := states[n].coord.dkgId;
            states[k].coord.dkgId == if steps[n].DkgCommand? then (id + 1) % 0x1_0000_0000_0000_0000 else id
    ensures AllServe(states[k].log, |states[n].log|, steps[n], states[k].coord.dkgId)
  {
    hide Inv, History, Take, Enabled, Serving, Serves, IsInitial;
    assert IsStep(c, states[k - 1], steps[k - 1], states[k]);
    if k == n + 1 {
      CommandServes(c, states[n], steps[n]);
    } else {
      CommandsAreServed(c, states, steps, n, k - 1);
      RunKeepsInv(c, states, steps, k - 1);
      StepServes(c, states[k - 1], steps[k - 1], steps[n]);
      ServedOn(states[k - 1].log, states[k].log, |states[n].log|, steps[n], states[k].coord.dkgId);
    }
  }

  lemma ServedOn(before: seq<Packet>, after: seq<Packet>, from: nat, command: Step, dkgId: nat)
    requires before <= after && AllServe(before, from, command, dkgId) && AllServe(after, |before|, command, dkgId)
    ensures AllServe(after, from, command, dkgId)
  {
    hide Serves;
    forall p | from <= p < |after|
      ensures Serves(after[p].msg, command, dkgId)
    {
      if p < |before| {
        assert after[p] == before[p];
      }
    }
  }

  /** What is signed is what was asked for: when the coordinator is ready again it holds a
      share of every signer over that message, for one request and the nonces it lists. */
  lemma SignedIsAsked(c: Config, states: seq<System>, steps: seq<Step>, n: nat, k: nat)
    requires c.Valid() && IsRun(c, states, steps) && n < k < |states| && Running(states, n, k)
    requires steps[n].SignCommand? && states[n].coord.aggregateKey.Some? && states[k].coord.phase == Ready
    ensures var s := states[k];
            && s.epoch.kind.Sign? && s.epoch.kind.request.message == steps[n].message
            && s.epoch.kind.request.nonceResponses == Ordered(s.coord.publicNonces)
            && forall i | c.IsSigner(i) ::
                 && i in s.coord.signatureShares
                 && s.coord.signatureShares[i].message == steps[n].message
                 && s.coord.signatureShares[i] == SharesOf(i, s.epoch.kind.request, NonceRequests(s.log))
  {
    hide Inv, History, Take, Enabled, IsRun, Ordered, Config.Valid, Running;
    CommandsAreServed(c, states, steps, n, k);
    SharesCollectedForRequest(c, states, steps, k);
  }

  // ---------- The lists that are signed over ----------

  /** The lists of a request are those of its responses, one behind the other. */
  lemma {:induction false} FlatConcat(a: seq<NonceResponse>, b: seq<NonceResponse>)
    ensures FlatKeyIds(a + b) == FlatKeyIds(a) + FlatKeyIds(b) && FlatNonces(a + b) == FlatNonces(a) + FlatNonces(b)
    ensures |a| == 1 ==> FlatKeyIds(a) == a[0].keyIds && FlatNonces(a) == a[0].nonces
  {
    if a == [] {
      assert a + b == b;
    } else {
      assert (a + b)[1..] == a[1..] + b;
      FlatConcat(a[1..], b);
    }
  }

  /** Each entry of a response's nonces is that of the key listed in its place. */
  predicate Aligned(keyIds: seq<nat>, nonces: seq<PublicNonce>) {
    |keyIds| == |nonces| && forall j :: 0 <= j < |nonces| ==> nonces[j].keyId == keyIds[j]
  }

  lemma {:induction false} FlatAligned(responses: seq<NonceResponse>)
    requires forall j :: 0 <= j < |responses| ==> Aligned(responses[j].keyIds, responses[j].nonces)
    ensures Aligned(FlatKeyIds(responses), FlatNonces(responses))
  {
    if responses != [] {
      FlatAligned(responses[1..]);
      assert Aligned(responses[0].keyIds, responses[0].nonces);
    }
  }

  lemma ResponseAt(c: Config, dkgId: nat, generation: nat, j: nat)
    requires c.Valid() && j < |Ordered(AllResponses(c, dkgId, generation))|
    ensures var m := AllResponses(c, dkgId, generation);
            var i := SortedKeys(m.Keys)[j];
            c.IsSigner(i) && Ordered(m)[j] == ResponseOf(c, i, dkgId, generation)
  {
    hide Config.Valid, Ordered, SortedKeys, ResponseOf, Signers;
  }

  lemma ResponsesAligned(c: Config, dkgId: nat, generation: nat)
    requires c.Valid()
    ensures forall j :: 0 <= j < |Ordered(AllResponses(c, dkgId, generation))| ==>
              var r := Ordered(AllResponses(c, dkgId, generation))[j]; Aligned(r.keyIds, r.nonces)
  {
    hide Config.Valid, Ordered, AllResponses, SortedKeys;
    forall j | 0 <= j < |Ordered(AllResponses(c, dkgId, generation))|
      ensures var r := Ordered(AllResponses(c, dkgId, generation))[j]; Aligned(r.keyIds, r.nonces)
    {
      ResponseAt(c, dkgId, generation, j);
    }
  }

  lemma SignersListed(c: Config, dkgId: nat, generation: nat)
    requires c.Valid()
    ensures SignerIds(Ordered(AllResponses(c, dkgId, generation))) == SortedKeys(AllResponses(c, dkgId, generation).Keys)
    ensures forall i :: c.IsSigner(i) <==> i in AllResponses(c, dkgId, generation)
  {
    hide Config.Valid, Ordered, SortedKeys;
    var responses := Ordered(AllResponses(c, dkgId, generation));
    forall j | 0 <= j < |responses|
      ensures SignerIds(responses)[j] == SortedKeys(AllResponses(c, dkgId, generation).Keys)[j]
    {
      ResponseAt(c, dkgId, generation, j);
    }
  }

  /** In every request of a run the signers are listed once each and ascending, and each nonce
      stands in the place of its key. */
  lemma RequestListsMatch(c: Config, states: seq<System>, steps: seq<Step>, n: nat, k: nat)
    requires c.Valid() && IsRun(c, states, steps) && n < |states| && k < |states[n].log|
    requires states[n].log[k].msg.SignShareRequest?
    ensures var responses := states[n].log[k].msg.request.nonceResponses;
            && Aligned(FlatKeyIds(responses), FlatNonces(responses))
            && (forall i, j :: 0 <= i < j < |responses| ==> SignerIds(responses)[i] < SignerIds(responses)[j])
            && forall i :: c.IsSigner(i) <==> i in SignerIds(responses)
  {
    hide Inv, IsRun, Ordered, AllResponses, FlatKeyIds, FlatNonces, Config.Valid, Aligned;
    RunKeepsInv(c, states, steps, n);
    var log := states[n].log;
    assert RequestOk(c, log, k);
    ResponsesAligned(c, log[k].msg.request.dkgId, NonceRequests(log[..k]));
    SignersListed(c, log[k].msg.request.dkgId, NonceRequests(log[..k]));
    FlatAligned(log[k].msg.request.nonceResponses);
  }
}
