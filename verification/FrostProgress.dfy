/**
 Every wait of the coordinator ends. Between two messages of the coordinator each
 step lowers a measure, and no reachable state is stuck, so however steps are
 scheduled, a wait is left after at most that many of them.
 */
module FrostProgress {
  import opened Options
  import opened Results
  import opened FrostMessages
  import opened SigningRounds
  import opened FrostCoordinators
  import opened FrostProtocol
  import opened FrostInvariant
  import opened FrostSafety
  import opened FrostTheorems

  /** How many messages a signer may still post in this epoch. */
  function ToPost(e: Epoch, log: seq<Packet>, i: nat, node: Node): int
    requires e.start <= |log|
  {
    (match e.kind
     case Boot => 0
     case Public => |node.round.keyIds| + 1
     case Private => |node.round.keyIds| + 1
     case _ => 1) - |From(log[e.start..], i)|
  }

  /** A signer's share of the measure: each message still to post costs one more
      than the number of parties that will have to read it. */
  function NodeWork(n: nat, e: Epoch, log: seq<Packet>, i: nat, node: Node): int
    requires e.start <= |log|
  {
    (n + 2) * ToPost(e, log, i, node) + |log| - node.read
  }

  function NodesWork(n: nat, e: Epoch, log: seq<Packet>, nodes: map<nat, Node>, k: nat): int
    requires e.start <= |log| && forall i | 1 <= i <= k :: i in nodes
  {
    if k == 0 then 0 else NodesWork(n, e, log, nodes, k - 1) + NodeWork(n, e, log, k, nodes[k])
  }

  function Work(c: Config, s: System): int
    requires s.epoch.start <= |s.log| && forall i | 1 <= i <= c.totalSigners :: i in s.nodes
  {
    NodesWork(c.totalSigners, s.epoch, s.log, s.nodes, c.totalSigners) + |s.log| - s.read
  }

  lemma PostsBounded(c: Config, log: seq<Packet>, e: Epoch, i: nat, node: Node)
    requires c.Valid() && c.IsSigner(i) && e.start <= |log| && NodeOk(c, log, e, i, node)
    ensures ToPost(e, log, i, node) >= |node.outbox| && node.read <= |log|
  {
    hide Config.Valid, EpochPacket, AllCommitments, AllShares;
    var sent := From(log[e.start..], i) + node.outbox;
    if node.read >= e.start && (e.kind.Nonce? || e.kind.Sign?) {
      assert |sent| == 1;
    }
  }

  lemma {:induction false} NodesWorkPositive(c: Config, s: System, k: nat)
    requires Inv(c, s) && k <= c.totalSigners
    ensures s.epoch.start <= |s.log| && forall i | 1 <= i <= k :: i in s.nodes
    ensures NodesWork(c.totalSigners, s.epoch, s.log, s.nodes, k) >= 0
  {
    hide Inv;
    Known(c, s, k);
    if k > 0 {
      NodesWorkPositive(c, s, k - 1);
      NodeWorkPositive(c, s, k);
    }
  }

  lemma NodeWorkPositive(c: Config, s: System, i: nat)
    requires Inv(c, s) && i in s.nodes
    ensures s.epoch.start <= |s.log| && NodeWork(c.totalSigners, s.epoch, s.log, i, s.nodes[i]) >= 0
  {
    hide Inv, NodeOk, ToPost;
    ReceiverIdentity(c, s, i);
    Bounded(c, s, i);
    Product(c.totalSigners + 2, ToPost(s.epoch, s.log, i, s.nodes[i]));
  }

  lemma Bounded(c: Config, s: System, i: nat)
    requires Inv(c, s) && i in s.nodes && s.epoch.start <= |s.log|
    ensures ToPost(s.epoch, s.log, i, s.nodes[i]) >= 0 && s.nodes[i].read <= |s.log|
  {
    ReceiverIdentity(c, s, i);
    hide NodeOk, Config.Valid, CoordOk, LogOk;
    PostsBounded(c, s.log, s.epoch, i, s.nodes[i]);
  }

  lemma Product(a: int, b: int)
    requires a >= 0 && b >= 0
    ensures a * b >= 0
  {
  }

  lemma Known(c: Config, s: System, k: nat)
    requires Inv(c, s) && k <= c.totalSigners
    ensures s.epoch.start <= |s.log| && s.read <= |s.log| && forall i | 1 <= i <= k :: i in s.nodes
  {
    hide Config.Valid, OpeningOk, NodeOk, EpochPacket, Ordered, AllResponses;
    assert forall i | 1 <= i <= k :: c.IsSigner(i);
  }

  /** What one signer's reading does to the sum. */
  lemma {:induction false} ReceiveWork(n: nat, e: Epoch, log: seq<Packet>, nodes: map<nat, Node>, i: nat, after: Node, k: nat)
    requires e.start <= |log| && (forall j | 1 <= j <= k :: j in nodes) && i in nodes && i > 0
    requires after.read == nodes[i].read + 1 && after.round.keyIds == nodes[i].round.keyIds
    ensures NodesWork(n, e, log, nodes[i := after], k) == NodesWork(n, e, log, nodes, k) - (if i <= k then 1 else 0)
  {
    if k > 0 {
      ReceiveWork(n, e, log, nodes, i, after, k - 1);
    }
  }

  /** What a post does to the part of the measure of signer `k`: its author has one message
      less to post, and everybody has one more to read. */
  lemma NodePostWork(n: nat, e: Epoch, log: seq<Packet>, p: Packet, k: nat, before: Node, after: Node)
    requires e.start <= |log| && after.read == before.read && after.round == before.round
    ensures NodeWork(n, e, log + [p], k, after)
         == NodeWork(n, e, log, k, before) + 1 - (if p.signedBy == k then n + 2 else 0)
  {
    PostedStretch(log, p, e.start);
    Snoc(log[e.start..], p);
    var posted := if p.signedBy == k then 1 else 0;
    assert ToPost(e, log + [p], k, after) == ToPost(e, log, k, before) - posted;
    hide ToPost;
    Distribute(n + 2, ToPost(e, log, k, before), posted);
  }

  lemma Distribute(a: int, b: int, c: int)
    ensures a * (b - c) == a * b - a * c
  {
  }

  /** What one signer's post does to the sum. */
  lemma {:induction false} PostWork(n: nat, e: Epoch, log: seq<Packet>, nodes: map<nat, Node>, p: Packet, after: Node, k: nat)
    requires e.start <= |log| && (forall j | 1 <= j <= k :: j in nodes) && p.signedBy in nodes && p.signedBy > 0
    requires after.read == nodes[p.signedBy].read && after.round == nodes[p.signedBy].round
    ensures NodesWork(n, e, log + [p], nodes[p.signedBy := after], k)
         == NodesWork(n, e, log, nodes, k) + k - (if p.signedBy <= k then n + 2 else 0)
  {
    hide NodeWork;
    if k > 0 {
      PostWork(n, e, log, nodes, p, after, k - 1);
      NodePostWork(n, e, log, p, k, nodes[k], nodes[p.signedBy := after][k]);
    }
  }

  /** A step that the coordinator neither starts nor answers with a message. */
  predicate Internal(s: System, step: Step, s': System) {
    step.SignerReceives? || step.SignerPosts? || (step.CoordinatorReceives? && s'.epoch == s.epoch)
  }

  lemma ReceiveKeepsKeys(c: Config, node: Node, p: Packet, order: seq<nat>, outcome: DkgStatus)
    ensures Receive(c, node, p, order, outcome).round.keyIds == node.round.keyIds
  {
  }

  /** The measure is bounded below by zero and every internal step lowers it. */
  lemma InternalStepsProgress(c: Config, states: seq<System>, steps: seq<Step>, k: nat)
    requires c.Valid() && IsRun(c, states, steps) && k < |steps| && Internal(states[k], steps[k], states[k + 1])
    ensures forall i | 1 <= i <= c.totalSigners :: i in states[k].nodes && i in states[k + 1].nodes
    ensures states[k].epoch.start <= |states[k].log| && states[k + 1].epoch.start <= |states[k + 1].log|
    ensures 0 <= Work(c, states[k + 1]) < Work(c, states[k])
  {
    hide Inv, History, NodesWork, Receive, OnMessage, Config.Valid, Take, Enabled;
    var s, step, s' := states[k], steps[k], states[k + 1];
    assert IsStep(c, s, step, s');
    RunKeepsInv(c, states, steps, k);
    StepKeepsInv(c, s, step);
    InternalStepProgress(c, s, step);
  }

  lemma InternalStepProgress(c: Config, s: System, step: Step)
    requires Inv(c, s) && Enabled(c, s, step) && Inv(c, Take(c, s, step)) && Internal(s, step, Take(c, s, step))
    ensures forall i | 1 <= i <= c.totalSigners :: i in s.nodes && i in Take(c, s, step).nodes
    ensures s.epoch.start <= |s.log| && Take(c, s, step).epoch.start <= |Take(c, s, step).log|
    ensures 0 <= Work(c, Take(c, s, step)) < Work(c, s)
  {
    hide Inv, NodesWork, Receive, OnMessage, Config.Valid;
    var n, s' := c.totalSigners, Take(c, s, step);
    Known(c, s, n);
    Known(c, s', n);
    NodesWorkPositive(c, s', n);
    match step
    case SignerReceives(i, order, outcome) =>
      var node := s.nodes[i];
      ReceiverIdentity(c, s, i);
      ReceiveAdvances(c, node, s.log[node.read], order, outcome);
      ReceiveKeepsKeys(c, node, s.log[node.read], order, outcome);
      ReceiveWork(n, s.epoch, s.log, s.nodes, i, s'.nodes[i], n);
    case SignerPosts(i) =>
      ReceiverIdentity(c, s, i);
      PostWork(n, s.epoch, s.log, s.nodes, Packet(s.nodes[i].outbox[0], i), s'.nodes[i], n);
    case _ =>
      QuietReceive(c, s, step);
  }

  lemma QuietReceive(c: Config, s: System, step: Step)
    requires Inv(c, s) && Enabled(c, s, step) && step.CoordinatorReceives? && Take(c, s, step).epoch == s.epoch
    ensures Take(c, s, step).log == s.log && Take(c, s, step).nodes == s.nodes && Take(c, s, step).read == s.read + 1
  {
    hide Inv, OnMessage;
    var m := CoordinatorPosts(c, s, step);
    StartInLog(c, s);
  }

  lemma StartInLog(c: Config, s: System)
    requires Inv(c, s)
    ensures s.epoch.start <= |s.log|
  {
    hide Config.Valid, OpeningOk, NodeOk, EpochPacket;
  }

  /** As long as the coordinator waits, some internal step or an answer of the
      coordinator is possible. */
  lemma WaitingCanMove(c: Config, states: seq<System>, steps: seq<Step>, k: nat) returns (step: Step)
    requires c.Valid() && IsRun(c, states, steps) && k < |states| && states[k].coord.phase != Ready
    ensures Enabled(c, states[k], step) && !step.DkgCommand? && !step.SignCommand?
  {
    hide Inv, History, Take, Enabled, IsRun;
    RunKeepsInv(c, states, steps, k);
    step := SomeoneCanMove(c, states[k]);
  }

  lemma SomeoneCanMove(c: Config, s: System) returns (step: Step)
    requires Inv(c, s) && s.coord.phase != Ready
    ensures Enabled(c, s, step) && !step.DkgCommand? && !step.SignCommand?
  {
    hide Inv, Take, Config.Valid, IsEnumeration;
    NeverStuck(c, s);
    AtMostLog(c, s);
    if s.read < |s.log| {
      step := CoordinatorReceives(true);
    } else {
      var i :| i in s.nodes && !(s.nodes[i].read == |s.log| && s.nodes[i].outbox == []);
      ReadWithin(c, s, i);
      if s.nodes[i].outbox != [] {
        step := SignerPosts(i);
      } else {
        var order := AnEnumeration(s.nodes[i].round.keyIds);
        step := SignerReceives(i, order, Success);
      }
    }
  }

  lemma AtMostLog(c: Config, s: System)
    requires Inv(c, s)
    ensures s.read <= |s.log|
  {
    hide Config.Valid, OpeningOk, NodeOk, EpochPacket;
  }

  lemma ReadWithin(c: Config, s: System, i: nat)
    requires Inv(c, s) && i in s.nodes
    ensures s.nodes[i].read <= |s.log| && !s.nodes[i].failed
  {
    ReceiverIdentity(c, s, i);
  }

  lemma {:induction false} AnEnumeration(keyIds: seq<nat>) returns (order: seq<nat>)
    ensures IsEnumeration(order, keyIds)
  {
    if keyIds == [] {
      order := [];
    } else {
      var init, last := keyIds[..|keyIds| - 1], keyIds[|keyIds| - 1];
      order := AnEnumeration(init);
      assert keyIds == init + [last];
      if last !in order {
        order := order + [last];
      }
    }
  }

  // ---------- Every wait ends ----------

  predicate IsCommand(step: Step) {
    step.DkgCommand? || step.SignCommand?
  }

  /** The measure, in every state of a run. */
  function WorkLeft(c: Config, s: System): int {
    if s.epoch.start <= |s.log| && forall i | 1 <= i <= c.totalSigners :: i in s.nodes then Work(c, s) else 0
  }

  lemma {:induction false} WorkFalls(c: Config, states: seq<System>, steps: seq<Step>, k: nat, n: nat)
    requires c.Valid() && IsRun(c, states, steps) && k <= n <= |steps|
    requires forall j | k <= j < n :: Internal(states[j], steps[j], states[j + 1])
    ensures 0 <= WorkLeft(c, states[n]) <= WorkLeft(c, states[k]) - (n - k)
    decreases n
  {
    hide Config.Valid, Work, Inv, History, IsInitial, IsStep;
    if n == k {
      RunKeepsInv(c, states, steps, k);
      WorkIsNatural(c, states[k]);
    } else {
      WorkFalls(c, states, steps, k, n - 1);
      InternalStepsProgress(c, states, steps, n - 1);
    }
  }

  lemma WorkIsNatural(c: Config, s: System)
    requires Inv(c, s)
    ensures 0 <= WorkLeft(c, s)
  {
    hide Inv, NodesWork;
    Known(c, s, c.totalSigners);
    NodesWorkPositive(c, s, c.totalSigners);
  }

  /** Every wait of the coordinator ends: from a waiting state, a run without commands that
      has more steps than the measure, or that cannot be continued without a command, has
      left the phase: the coordinator became ready or posted its next message. */
  lemma EveryWaitEnds(c: Config, states: seq<System>, steps: seq<Step>, k: nat) returns (j: nat)
    requires c.Valid() && IsRun(c, states, steps) && k < |states| && states[k].coord.phase != Ready
    requires forall i | k <= i < |steps| :: !IsCommand(steps[i])
    requires |steps| - k > WorkLeft(c, states[k]) || forall step :: Enabled(c, states[|steps|], step) ==> IsCommand(step)
    ensures k < j < |states| && (states[j].coord.phase == Ready || states[j].epoch != states[k].epoch)
  {
    hide Config.Valid, WorkLeft, Take, Enabled, IsInitial;
    var n := |steps|;
    if i :| k <= i < n && states[i].epoch == states[k].epoch && states[i + 1].epoch != states[k].epoch {
      j := i + 1;
    } else {
      SameEpoch(states, k, n);
      WorkFalls(c, states, steps, k, n);
      j := n;
      if states[n].coord.phase != Ready {
        var step := WaitingCanMove(c, states, steps, n);
        assert false;
      }
    }
  }

  lemma {:induction false} SameEpoch(states: seq<System>, k: nat, n: nat)
    requires k <= n < |states|
    requires forall i | k <= i < n && states[i].epoch == states[k].epoch :: states[i + 1].epoch == states[k].epoch
    ensures forall i | k <= i <= n :: states[i].epoch == states[k].epoch
    decreases n
  {
    if k < n {
      SameEpoch(states, k, n - 1);
      assert states[n - 1].epoch == states[k].epoch;
      assert states[n - 1 + 1].epoch == states[k].epoch;
    }
  }
}
