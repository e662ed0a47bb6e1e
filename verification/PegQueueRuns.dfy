/**
 The peg queue over whole runs: crashes at any statement, restarts with or without an
 explicit start height, and nodes whose tip may go down. When an operation can be handed
 out twice, and when it cannot.
 */
module PegQueueRuns {
  import opened Options
  import opened PegQueue
  import opened Results

  // --- Runs ---

  /** What a run did so far: the database, whether a poll has succeeded since the program
      was started, the tip last shown by the node and the operations handed out. */
  datatype System = System(db: Db, running: bool, tip: nat, handed: seq<SbtcOp>)

  const FRESH: System := System(Db(map[], None), false, 0, [])

  datatype Event =
    | Start(start: Option<nat>, current: nat)
    /** A poll of which the first `cut` statements were executed. */
    | Poll(node: StacksNode, cut: nat)
    /** The next operation is handed out; or it is only marked and the program dies. */
    | Hand(key: Key)
    | Mark(key: Key)
    | Ack(key: Key)

  /** The whole poll was executed and it was successful. */
  predicate Complete(sys: System, node: StacksNode, cut: nat) {
    var s := PollScript(sys.db, node); s.ok && cut == |s.writes|
  }

  /** When the coordinator can take the step: it hands out operations only behind a
      successful poll. */
  predicate Enabled(sys: System, ev: Event) {
    match ev
    case Start(_, _) => true
    case Poll(node, cut) => cut <= |PollScript(sys.db, node).writes|
    case Hand(key) => sys.running && IsFirstNew(sys.db, key)
    case Mark(key) => sys.running && IsFirstNew(sys.db, key)
    case Ack(key) => sys.running && key in sys.db.table
  }

  function Next(sys: System, ev: Event): System
    requires Enabled(sys, ev)
  {
    match ev
    case Start(start, current) => sys.(db := Open(sys.db, start, current), running := false)
    case Poll(node, cut) =>
      sys.(db := ApplyAll(sys.db, PollScript(sys.db, node).writes[..cut]), running := Complete(sys, node, cut),
           tip := if node.tip.Some? then node.tip.value else sys.tip)
    case Hand(key) => sys.(db := SetStatus(sys.db, key, Pending), handed := sys.handed + [sys.db.table[key].op])
    case Mark(key) => sys.(db := SetStatus(sys.db, key, Pending), running := false)
    case Ack(key) => sys.(db := SetStatus(sys.db, key, Acknowledged))
  }

  /** A node reports at a height the operations of that height; `heightOf` says at which
      height an operation with a given key can be. */
  ghost predicate Truthful(node: StacksNode, heightOf: Key -> nat) {
    forall h: nat, op: SbtcOp ::
      (node.pegIns(h).Ops? && op in node.pegIns(h).ops) || (node.pegOuts(h).Ops? && op in node.pegOuts(h).ops)
      ==> op.height == h == heightOf(op.key)
  }

  function Last(db: Db): int {
    if db.last.Some? then db.last.value else -1
  }

  /** What can be checked before a step: an explicit start lies above everything handed out,
      and an operation is handed out only at or below the recorded height. */
  predicate Careful(sys: System, ev: Event) {
    match ev
    case Start(Some(start), _) => forall i :: 0 <= i < |sys.handed| ==> sys.handed[i].height <= SaturatingPred(start)
    case Hand(key) => key in sys.db.table ==> sys.db.table[key].op.height <= Last(sys.db)
    case _ => true
  }

  /** A step the program and an honest node can take. */
  ghost predicate Possible(sys: System, ev: Event, heightOf: Key -> nat) {
    Enabled(sys, ev) && (ev.Poll? ==> Truthful(ev.node, heightOf))
  }

  ghost predicate IsCarefulRun(sys: System, events: seq<Event>, heightOf: Key -> nat)
    decreases |events|
  {
    events == [] ||
    (Possible(sys, events[0], heightOf) && Careful(sys, events[0])
     && IsCarefulRun(Next(sys, events[0]), events[1..], heightOf))
  }

  /** Neither an explicit height on a restart nor a tip below the one shown before. */
  predicate Steady(sys: System, ev: Event) {
    match ev
    case Start(start, _) => start == None || sys.db.last == None
    case Poll(node, _) => node.tip.Some? ==> sys.tip <= node.tip.value
    case _ => true
  }

  ghost predicate IsSteadyRun(sys: System, events: seq<Event>, heightOf: Key -> nat)
    decreases |events|
  {
    events == [] ||
    (Possible(sys, events[0], heightOf) && Steady(sys, events[0])
     && IsSteadyRun(Next(sys, events[0]), events[1..], heightOf))
  }

  function Run(sys: System, events: seq<Event>): System
    decreases |events|
  {
    if events == [] || !Enabled(sys, events[0]) then sys else Run(Next(sys, events[0]), events[1..])
  }

  // --- The invariant of careful runs ---

  ghost predicate TableInv(db: Db, heightOf: Key -> nat) {
    forall k :: k in db.table ==> db.table[k].op.key == k && db.table[k].op.height == heightOf(k)
  }

  predicate HandedInv(db: Db, heightOf: Key -> nat, op: SbtcOp) {
    && op.key in db.table && db.table[op.key].status != New
    && op.height == heightOf(op.key) && op.height <= Last(db)
  }

  predicate NewBehind(handed: seq<SbtcOp>, e: Entry) {
    e.status == New && handed != [] ==> handed[|handed| - 1].height <= e.op.height
  }

  /** What was handed out is marked and at or below the recorded height; what is new is
      not below it. */
  ghost predicate Inv(sys: System, heightOf: Key -> nat) {
    && TableInv(sys.db, heightOf)
    && (forall i :: 0 <= i < |sys.handed| ==> HandedInv(sys.db, heightOf, sys.handed[i]))
    && (forall k :: k in sys.db.table ==> NewBehind(sys.handed, sys.db.table[k]))
    && AtMostOnce(sys.handed) && InOrder(sys.handed)
    && (sys.running ==> sys.db.last.Some?)
  }

  /** In one poll every statement concerns a height above the one recorded before it: an
      operation of the next height, or that height itself. */
  ghost predicate Ascending(ws: seq<Write>, last: nat, heightOf: Key -> nat)
    decreases |ws|
  {
    ws == [] ||
    match ws[0]
    case Put(op) => op.height == last + 1 == heightOf(op.key) && Ascending(ws[1..], last, heightOf)
    case SetLast(h) => h == last + 1 && Ascending(ws[1..], h, heightOf)
  }

  lemma {:induction false} AscendingConcat(a: seq<Write>, b: seq<Write>, last: nat, heightOf: Key -> nat)
    requires Ascending(a, last, heightOf) && Ascending(b, EndOf(a, last), heightOf)
    ensures Ascending(a + b, last, heightOf) && EndOf(a + b, last) == EndOf(b, EndOf(a, last))
    decreases |a|
  {
    if a == [] {
      assert a + b == b;
    } else {
      assert (a + b)[1..] == a[1..] + b;
      AscendingConcat(a[1..], b, if a[0].SetLast? then a[0].height else last, heightOf);
    }
  }

  lemma {:induction false} PutsAscend(ws: seq<Write>, last: nat, heightOf: Key -> nat)
    requires forall k :: 0 <= k < |ws| ==> ws[k].Put? && ws[k].op.height == last + 1 == heightOf(ws[k].op.key)
    ensures Ascending(ws, last, heightOf) && EndOf(ws, last) == last
    decreases |ws|
  {
    if ws != [] {
      PutsAscend(ws[1..], last, heightOf);
    }
  }

  lemma HeightAscends(node: StacksNode, last: nat, heightOf: Key -> nat)
    requires Truthful(node, heightOf)
    ensures var s := HeightScript(node, last + 1);
            Ascending(s.writes, last, heightOf) && (s.ok ==> EndOf(s.writes, last) == last + 1)
  {
    hide Ascending, EndOf;
    var ins, outs := OpsScript(node.pegIns(last + 1)), OpsScript(node.pegOuts(last + 1));
    PutsAscend(ins.writes, last, heightOf);
    PutsAscend(outs.writes, last, heightOf);
    AscendingConcat(ins.writes, outs.writes, last, heightOf);
    SetLastAscends(last, heightOf);
    AscendingConcat(ins.writes + outs.writes, [SetLast(last + 1)], last, heightOf);
  }

  lemma SetLastAscends(last: nat, heightOf: Key -> nat)
    ensures Ascending([SetLast(last + 1)], last, heightOf) && EndOf([SetLast(last + 1)], last) == last + 1
  {
    assert [SetLast(last + 1)][1..] == [];
  }

  lemma {:induction false} HeightsAscend(node: StacksNode, last: nat, upTo: nat, heightOf: Key -> nat)
    requires Truthful(node, heightOf)
    ensures var s := HeightsScript(node, last + 1, upTo);
            Ascending(s.writes, last, heightOf)
            && (s.ok ==> EndOf(s.writes, last) == if last < upTo then upTo else last)
    decreases upTo + 1 - last
  {
    hide Ascending, EndOf, HeightScript;
    if last + 1 > upTo {
      EmptyAscends(last, heightOf);
    } else {
      var here := HeightScript(node, last + 1);
      HeightAscends(node, last, heightOf);
      HeightsAscend(node, last + 1, upTo, heightOf);
      if here.ok {
        AscendingConcat(here.writes, HeightsScript(node, last + 2, upTo).writes, last, heightOf);
      }
    }
  }

  lemma EmptyAscends(last: nat, heightOf: Key -> nat)
    ensures Ascending([], last, heightOf) && EndOf([], last) == last
  {
  }

  lemma {:induction false} AscendingPrefix(ws: seq<Write>, k: nat, last: nat, heightOf: Key -> nat)
    requires Ascending(ws, last, heightOf) && k <= |ws|
    ensures Ascending(ws[..k], last, heightOf)
    decreases |ws|
  {
    if k > 0 {
      assert ws[..k][1..] == ws[1..][..k - 1];
      AscendingPrefix(ws[1..], k - 1, if ws[0].SetLast? then ws[0].height else last, heightOf);
    }
  }

  lemma {:induction false} AscendingGrows(ws: seq<Write>, last: nat, heightOf: Key -> nat)
    requires Ascending(ws, last, heightOf)
    ensures last <= EndOf(ws, last)
    decreases |ws|
  {
    if ws != [] {
      AscendingGrows(ws[1..], if ws[0].SetLast? then ws[0].height else last, heightOf);
    }
  }

  /** One statement of a poll: an operation above the recorded height cannot stand under
      the key of one that was handed out. */
  lemma WriteKeepsInv(sys: System, w: Write, heightOf: Key -> nat)
    requires Inv(sys, heightOf) && sys.db.last.Some?
    requires match w
             case Put(op) => op.height == Last(sys.db) + 1 == heightOf(op.key)
             case SetLast(h) => h == Last(sys.db) + 1
    ensures Inv(sys.(db := Apply(sys.db, w)), heightOf)
  {
    var next := sys.(db := Apply(sys.db, w));
    forall i | 0 <= i < |sys.handed|
      ensures HandedInv(next.db, heightOf, sys.handed[i])
    {
      assert HandedInv(sys.db, heightOf, sys.handed[i]);
    }
    forall k | k in next.db.table
      ensures NewBehind(sys.handed, next.db.table[k])
    {
      if sys.handed != [] {
        assert HandedInv(sys.db, heightOf, sys.handed[|sys.handed| - 1]);
      }
      assert k in sys.db.table ==> NewBehind(sys.handed, sys.db.table[k]);
    }
  }

  lemma {:induction false} WritesKeepInv(sys: System, ws: seq<Write>, heightOf: Key -> nat)
    requires Inv(sys, heightOf) && sys.db.last.Some?
    requires Ascending(ws, sys.db.last.value, heightOf)
    ensures var after := sys.(db := ApplyAll(sys.db, ws));
            Inv(after, heightOf) && after.db.last == Some(EndOf(ws, sys.db.last.value))
    decreases |ws|
  {
    hide Inv;
    if ws != [] {
      WriteKeepsInv(sys, ws[0], heightOf);
      WritesKeepInv(sys.(db := Apply(sys.db, ws[0])), ws[1..], heightOf);
    }
  }

  /** The statements of a poll that are executed, and where they leave the height. */
  lemma PollAscends(db: Db, node: StacksNode, cut: nat, heightOf: Key -> nat)
    requires Truthful(node, heightOf) && node.tip.Some? && db.last.Some? && cut <= |PollScript(db, node).writes|
    ensures var s := PollScript(db, node);
            && Ascending(s.writes[..cut], db.last.value, heightOf)
            && (s.ok && cut == |s.writes| ==>
                  EndOf(s.writes[..cut], db.last.value) == if db.last.value < node.tip.value then node.tip.value else db.last.value)
  {
    hide Truthful, HeightsScript, Ascending, EndOf;
    var s := PollScript(db, node);
    HeightsAscend(node, db.last.value, node.tip.value, heightOf);
    AscendingPrefix(s.writes, cut, db.last.value, heightOf);
    if cut == |s.writes| {
      assert s.writes[..cut] == s.writes;
    }
  }

  lemma SetRunning(sys: System, running: bool, tip: nat, heightOf: Key -> nat)
    requires Inv(sys, heightOf) && (running ==> sys.db.last.Some?)
    ensures Inv(sys.(running := running, tip := tip), heightOf)
  {
  }

  lemma PollKeepsInv(sys: System, node: StacksNode, cut: nat, heightOf: Key -> nat)
    requires Inv(sys, heightOf) && Possible(sys, Poll(node, cut), heightOf)
    ensures Inv(Next(sys, Poll(node, cut)), heightOf)
  {
    hide Inv, Truthful, HeightsScript, Ascending, EndOf, ApplyAll;
    var ws := PollScript(sys.db, node).writes[..cut];
    var tip := if node.tip.Some? then node.tip.value else sys.tip;
    NoWrites(sys.db);
    if node.tip.Some? && sys.db.last.Some? {
      PollAscends(sys.db, node, cut, heightOf);
      WritesKeepInv(sys, ws, heightOf);
    } else {
      assert ws == [];
    }
    SetRunning(sys.(db := ApplyAll(sys.db, ws)), Complete(sys, node, cut), tip, heightOf);
  }

  lemma StatusKeepsInv(sys: System, key: Key, status: Status, heightOf: Key -> nat)
    requires Inv(sys, heightOf) && key in sys.db.table && status != New
    ensures Inv(sys.(db := SetStatus(sys.db, key, status)), heightOf)
  {
    var next := sys.(db := SetStatus(sys.db, key, status));
    forall i | 0 <= i < |sys.handed|
      ensures HandedInv(next.db, heightOf, sys.handed[i])
    {
      assert HandedInv(sys.db, heightOf, sys.handed[i]);
    }
    forall k | k in next.db.table
      ensures NewBehind(sys.handed, next.db.table[k])
    {
      assert NewBehind(sys.handed, sys.db.table[k]);
    }
  }

  /** Handing out the first new entry at or below the recorded height. */
  lemma HandKeepsInv(sys: System, key: Key, heightOf: Key -> nat)
    requires Inv(sys, heightOf) && Enabled(sys, Hand(key)) && Careful(sys, Hand(key))
    ensures Inv(Next(sys, Hand(key)), heightOf)
  {
    var op := sys.db.table[key].op;
    var next := Next(sys, Hand(key));
    assert NewBehind(sys.handed, sys.db.table[key]);
    forall i | 0 <= i < |sys.handed|
      ensures HandedInv(next.db, heightOf, sys.handed[i])
      ensures sys.handed[i].key != op.key && sys.handed[i].height <= op.height
    {
      assert HandedInv(sys.db, heightOf, sys.handed[i]);
      assert sys.handed[i].height <= sys.handed[|sys.handed| - 1].height;
    }
    forall k | k in next.db.table
      ensures NewBehind(next.handed, next.db.table[k])
    {
    }
  }

  lemma StartKeepsInv(sys: System, start: Option<nat>, current: nat, heightOf: Key -> nat)
    requires Inv(sys, heightOf) && Careful(sys, Start(start, current))
    ensures Inv(Next(sys, Start(start, current)), heightOf)
  {
    var next := Next(sys, Start(start, current));
    forall i | 0 <= i < |sys.handed|
      ensures HandedInv(next.db, heightOf, sys.handed[i])
    {
      assert HandedInv(sys.db, heightOf, sys.handed[i]);
    }
  }

  lemma StepKeepsInv(sys: System, ev: Event, heightOf: Key -> nat)
    requires Inv(sys, heightOf) && Possible(sys, ev, heightOf) && Careful(sys, ev)
    ensures Inv(Next(sys, ev), heightOf)
  {
    hide Inv, Truthful, PollScript, ApplyAll, Careful;
    match ev
    case Start(start, current) => StartKeepsInv(sys, start, current, heightOf);
    case Poll(node, cut) => PollKeepsInv(sys, node, cut, heightOf);
    case Hand(key) => HandKeepsInv(sys, key, heightOf);
    case Mark(key) =>
      StatusKeepsInv(sys, key, Pending, heightOf);
      SetRunning(sys.(db := SetStatus(sys.db, key, Pending)), false, sys.tip, heightOf);
    case Ack(key) => StatusKeepsInv(sys, key, Acknowledged, heightOf);
  }

  lemma {:induction false} RunKeepsInv(sys: System, events: seq<Event>, heightOf: Key -> nat)
    requires Inv(sys, heightOf) && IsCarefulRun(sys, events, heightOf)
    ensures Inv(Run(sys, events), heightOf)
    decreases |events|
  {
    hide Inv, Possible, Careful, Next;
    if events != [] {
      PossibleIsEnabled(sys, events[0], heightOf);
      StepKeepsInv(sys, events[0], heightOf);
      RunKeepsInv(Next(sys, events[0]), events[1..], heightOf);
    }
  }

  lemma PossibleIsEnabled(sys: System, ev: Event, heightOf: Key -> nat)
    requires Possible(sys, ev, heightOf)
    ensures Enabled(sys, ev)
  {
  }

  /** With any crashes, restarts, cut polls and tips: as long as explicit starts lie above
      what was handed out and nothing is handed out above the recorded height, every
      operation is handed out at most once and heights never decrease. */
  lemma CarefulRunsHandOutOnce(events: seq<Event>, heightOf: Key -> nat)
    requires IsCarefulRun(FRESH, events, heightOf)
    ensures var sys := Run(FRESH, events);
            && Inv(sys, heightOf) && AtMostOnce(sys.handed) && InOrder(sys.handed)
            && forall i :: 0 <= i < |sys.handed| ==> HandedInv(sys.db, heightOf, sys.handed[i])
  {
    RunKeepsInv(FRESH, events, heightOf);
  }

  // --- The condition is exact ---

  /** However the run goes on, with careful steps only, no operation is handed out twice. */
  ghost predicate NeverRepeats(sys: System, heightOf: Key -> nat) {
    forall events :: IsCarefulRun(sys, events, heightOf) ==> AtMostOnce(Run(sys, events).handed)
  }

  /** A node that reports one operation. */
  function OneOp(op: SbtcOp): StacksNode {
    StacksNode(Some(op.height), h => if h == op.height then Ops([op]) else Ops([]), _ => Ops([]))
  }

  lemma OneOpHere(op: SbtcOp)
    ensures HeightScript(OneOp(op), op.height) == Script([Put(op), SetLast(op.height)], true)
  {
    assert OpsScript(OneOp(op).pegIns(op.height)).writes == [Put(op)];
    assert OpsScript(OneOp(op).pegOuts(op.height)).writes == [];
  }

  lemma OneOpElsewhere(op: SbtcOp, height: nat)
    requires height != op.height
    ensures HeightScript(OneOp(op), height) == Script([SetLast(height)], true)
  {
    assert OpsScript(OneOp(op).pegIns(height)).writes == [];
    assert OpsScript(OneOp(op).pegOuts(height)).writes == [];
  }

  lemma TwoWrites(db: Db, a: Write, b: Write)
    ensures ApplyAll(db, [a, b]) == Apply(Apply(db, a), b)
    ensures ApplyAll(db, [a]) == Apply(db, a)
  {
    assert [a, b][1..] == [b] && [b][1..] == [] && [a][1..] == [];
    assert ApplyAll(Apply(db, a), [b]) == Apply(Apply(db, a), b);
  }

  lemma {:induction false} OneOpPolled(db: Db, op: SbtcOp, from: nat)
    requires from <= op.height
    ensures var s := HeightsScript(OneOp(op), from, op.height);
            s.ok && ApplyAll(db, s.writes) == Db(db.table[op.key := Entry(op, New)], Some(op.height))
    decreases op.height - from
  {
    hide HeightScript;
    var here := HeightScript(OneOp(op), from);
    var rest := HeightsScript(OneOp(op), from + 1, op.height);
    if from == op.height {
      OneOpHere(op);
      assert rest == Script([], true);
      assert here.writes + [] == here.writes;
      TwoWrites(db, Put(op), SetLast(op.height));
    } else {
      OneOpElsewhere(op, from);
      OneOpPolled(Apply(db, SetLast(from)), op, from + 1);
      ApplyConcat(db, here.writes, rest.writes);
      TwoWrites(db, SetLast(from), SetLast(from));
    }
  }

  function NewKeys(db: Db): set<Key> {
    set k | k in db.table && db.table[k].status == New
  }

  lemma {:induction false} EarliestExists(db: Db, keys: set<Key>) returns (first: Key)
    requires keys != {} && forall k :: k in keys ==> k in db.table
    ensures first in keys && forall k :: k in keys ==> Before(db.table[first].op, db.table[k].op)
    decreases keys
  {
    var k :| k in keys;
    var rest := keys - {k};
    if rest == {} {
      first := k;
      assert forall j :: j in keys ==> j == k || j in rest;
    } else {
      first := EarliestExists(db, rest);
      if !Before(db.table[first].op, db.table[k].op) {
        first := k;
      }
      assert forall j :: j in keys ==> j == k || j in rest;
    }
  }

  lemma FirstNew(db: Db, key: Key) returns (first: Key)
    requires key in db.table && db.table[key].status == New
    ensures IsFirstNew(db, first) && Before(db.table[first].op, db.table[key].op)
  {
    assert key in NewKeys(db);
    first := EarliestExists(db, NewKeys(db));
    forall k | k in db.table && db.table[k].status == New
      ensures Before(db.table[first].op, db.table[k].op)
    {
      assert k in NewKeys(db);
    }
  }

  /** Behind a successful poll a new entry at or below the recorded height gets its turn. */
  lemma {:induction false} GetsItsTurn(sys: System, key: Key, heightOf: Key -> nat) returns (events: seq<Event>)
    requires sys.running && key in sys.db.table && sys.db.table[key].status == New
    requires sys.db.table[key].op.height <= Last(sys.db)
    ensures IsCarefulRun(sys, events, heightOf)
    ensures var handed := Run(sys, events).handed;
            |sys.handed| < |handed| && sys.handed <= handed && handed[|handed| - 1] == sys.db.table[key].op
    decreases |NewKeys(sys.db)|
  {
    var first := FirstNew(sys.db, key);
    var next := Next(sys, Hand(first));
    assert NewKeys(next.db) == NewKeys(sys.db) - {first};
    assert first in NewKeys(sys.db);
    if first == key {
      events := [Hand(key)];
      assert events[1..] == [];
      assert Run(next, []) == next;
    } else {
      var more := GetsItsTurn(next, key, heightOf);
      events := [Hand(first)] + more;
      assert events[1..] == more;
    }
  }

  /** An operation that was handed out and lies above the recorded height: one restart and
      one poll later it is handed out again. */
  lemma CanRepeat(sys: System, i: nat, heightOf: Key -> nat) returns (events: seq<Event>)
    requires i < |sys.handed| && sys.handed[i].height == heightOf(sys.handed[i].key)
    requires sys.db.last.Some? && sys.handed[i].height > sys.db.last.value
    ensures IsCarefulRun(sys, events, heightOf) && !AtMostOnce(Run(sys, events).handed)
  {
    hide HeightsScript, ApplyAll, HeightScript;
    var op := sys.handed[i];
    var node := OneOp(op);
    OneOpPolled(sys.db, op, sys.db.last.value + 1);
    var writes := PollScript(sys.db, node).writes;
    assert writes[..|writes|] == writes;
    var restart, poll := Start(None, 0), Poll(node, |writes|);
    var restarted := Next(sys, restart);
    var polled := Next(restarted, poll);
    assert Possible(restarted, poll, heightOf);
    var turn := GetsItsTurn(polled, op.key, heightOf);
    events := [restart, poll] + turn;
    assert events[1..] == [poll] + turn && ([poll] + turn)[1..] == turn;
    assert Run(sys, events) == Run(restarted, [poll] + turn) == Run(polled, turn);
    assert IsCarefulRun(restarted, [poll] + turn, heightOf);
    var handed := Run(sys, events).handed;
    assert handed[i] == sys.handed[i] && handed[|handed| - 1] == op;
  }

  /** The exact condition, for any step of a run that has been careful so far: no
      continuation hands an operation out twice if and only if the step is careful. */
  lemma NeverRepeatsIff(sys: System, ev: Event, heightOf: Key -> nat)
    requires Inv(sys, heightOf) && Possible(sys, ev, heightOf)
    ensures NeverRepeats(Next(sys, ev), heightOf) <==> Careful(sys, ev)
  {
    hide Truthful, PollScript, IsFirstNew;
    var next := Next(sys, ev);
    if Careful(sys, ev) {
      StepKeepsInv(sys, ev, heightOf);
      forall events | IsCarefulRun(next, events, heightOf)
        ensures AtMostOnce(Run(next, events).handed)
      {
        RunKeepsInv(next, events, heightOf);
      }
    } else {
      var i: nat;
      if ev.Start? {
        i :| 0 <= i < |sys.handed| && sys.handed[i].height > SaturatingPred(ev.start.value);
        assert HandedInv(sys.db, heightOf, sys.handed[i]);
      } else {
        i := |sys.handed|;
      }
      var events := CanRepeat(next, i, heightOf);
    }
  }

  /** The same for a start at a given height: it is safe if and only if everything handed
      out lies below that height. */
  lemma ExplicitStartSafeIff(events: seq<Event>, start: nat, current: nat, heightOf: Key -> nat)
    requires IsCarefulRun(FRESH, events, heightOf)
    ensures var sys := Run(FRESH, events);
            NeverRepeats(Next(sys, Start(Some(start), current)), heightOf) <==>
            forall i :: 0 <= i < |sys.handed| ==> sys.handed[i].height <= SaturatingPred(start)
  {
    hide NeverRepeats;
    RunKeepsInv(FRESH, events, heightOf);
    NeverRepeatsIff(Run(FRESH, events), Start(Some(start), current), heightOf);
  }

  // --- Failing runs ---

  /** A database that knows one operation, and one that is about to poll its height. */
  function Knowing(op: SbtcOp, status: Status, last: nat): Db {
    Db(map[op.key := Entry(op, status)], Some(last))
  }

  /** Polling the height of an operation, whole or cut behind the first statement. */
  lemma PollsOne(sys: System, op: SbtcOp)
    requires op.height > 0 && sys.db.last == Some(op.height - 1)
    requires sys.db.table.Keys <= {op.key}
    ensures Enabled(sys, Poll(OneOp(op), 1)) && Enabled(sys, Poll(OneOp(op), 2))
    ensures Next(sys, Poll(OneOp(op), 2))
         == sys.(db := Knowing(op, New, op.height), running := true, tip := op.height)
    ensures Next(sys, Poll(OneOp(op), 1))
         == sys.(db := Knowing(op, New, op.height - 1), running := false, tip := op.height)
  {
    hide ApplyAll, HeightScript;
    var writes := [Put(op), SetLast(op.height)];
    OneOpHere(op);
    assert HeightsScript(OneOp(op), op.height + 1, op.height) == Script([], true);
    assert writes + [] == writes && writes[..2] == writes && writes[..1] == [Put(op)];
    assert PollScript(sys.db, OneOp(op)) == Script(writes, true);
    TwoWrites(sys.db, Put(op), SetLast(op.height));
    assert sys.db.table[op.key := Entry(op, New)] == map[op.key := Entry(op, New)];
  }

  lemma HandsOne(sys: System, op: SbtcOp, last: nat)
    requires sys.running && sys.db == Knowing(op, New, last)
    ensures Enabled(sys, Hand(op.key))
    ensures Next(sys, Hand(op.key)) == sys.(db := Knowing(op, Pending, last), handed := sys.handed + [op])
  {
    assert sys.db.table[op.key := Entry(op, Pending)] == map[op.key := Entry(op, Pending)];
  }

  lemma RunOf(sys: System, ev: Event, events: seq<Event>)
    requires Enabled(sys, ev)
    ensures Run(sys, [ev] + events) == Run(Next(sys, ev), events)
  {
    assert ([ev] + events)[1..] == events;
  }

  /** A run that hands an operation out twice: it is started again at the height of an
      operation it has handed out. */
  lemma ExplicitStartRepeats(op: SbtcOp) returns (events: seq<Event>)
    requires op.height > 0
    ensures events == [Start(None, op.height), Poll(OneOp(op), 2), Hand(op.key),
                       Start(Some(op.height), op.height), Poll(OneOp(op), 2), Hand(op.key)]
    ensures Run(FRESH, events).handed == [op, op]
  {
    hide PollScript, ApplyAll, IsFirstNew, Run;
    var first, poll, hand, again :=
      Start(None, op.height), Poll(OneOp(op), 2), Hand(op.key), Start(Some(op.height), op.height);
    events := [first, poll, hand, again, poll, hand];
    var s1 := Next(FRESH, first);
    PollsOne(s1, op);
    var s2 := Next(s1, poll);
    HandsOne(s2, op, op.height);
    var s3 := Next(s2, hand);
    var s4 := Next(s3, again);
    assert s4.db == Knowing(op, Pending, op.height - 1);
    PollsOne(s4, op);
    var s5 := Next(s4, poll);
    HandsOne(s5, op, op.height);
    TwoSteps(FRESH, first, poll, [hand, again, poll, hand]);
    TwoSteps(s2, hand, again, [poll, hand]);
    TwoSteps(s4, poll, hand, []);
    assert events == [first, poll] + [hand, again, poll, hand];
    assert [hand, again, poll, hand] == [hand, again] + [poll, hand] && [poll, hand] == [poll, hand] + [];
    RunEnds(Next(s5, hand));
    assert [] + [op] + [op] == [op, op];
  }

  lemma TwoSteps(sys: System, a: Event, b: Event, events: seq<Event>)
    requires Enabled(sys, a) && Enabled(Next(sys, a), b)
    ensures Run(sys, [a, b] + events) == Run(Next(Next(sys, a), b), events)
  {
    hide Enabled, Next;
    assert [a, b] + events == [a] + ([b] + events);
    RunOf(sys, a, [b] + events);
    RunOf(Next(sys, a), b, events);
  }

  lemma RunEnds(sys: System)
    ensures Run(sys, []) == sys
  {
  }

  /** A node whose tip is one below the operation. */
  function Behind(op: SbtcOp): StacksNode {
    OneOp(op).(tip := Some(SaturatingPred(op.height)))
  }

  lemma NothingToPoll(sys: System, op: SbtcOp)
    requires sys.db.last == Some(SaturatingPred(op.height))
    ensures Enabled(sys, Poll(Behind(op), 0))
    ensures Next(sys, Poll(Behind(op), 0)) == sys.(running := true, tip := SaturatingPred(op.height))
  {
    assert PollScript(sys.db, Behind(op)) == Script([], true);
    NoWrites(sys.db);
  }

  /** Another one, without any explicit start: a poll is cut behind its first statement,
      the next one sees a lower tip and succeeds with nothing to do, and the operation is
      handed out above the recorded height; once the tip is back it is taken in again. */
  lemma LowerTipRepeats(op: SbtcOp) returns (events: seq<Event>)
    requires op.height > 0
    ensures events == [Start(None, op.height), Poll(OneOp(op), 1), Start(None, op.height), Poll(Behind(op), 0),
                       Hand(op.key), Poll(OneOp(op), 2), Hand(op.key)]
    ensures Run(FRESH, events).handed == [op, op]
  {
    hide PollScript, ApplyAll, IsFirstNew, Run;
    var start, cut, low, hand, poll :=
      Start(None, op.height), Poll(OneOp(op), 1), Poll(Behind(op), 0), Hand(op.key), Poll(OneOp(op), 2);
    events := [start, cut, start, low, hand, poll, hand];
    var s1 := Next(FRESH, start);
    PollsOne(s1, op);
    var s2 := Next(s1, cut);
    var s3 := Next(s2, start);
    NothingToPoll(s3, op);
    var s4 := Next(s3, low);
    HandsOne(s4, op, op.height - 1);
    var s5 := Next(s4, hand);
    PollsOne(s5, op);
    var s6 := Next(s5, poll);
    HandsOne(s6, op, op.height);
    TwoSteps(FRESH, start, cut, [start, low, hand, poll, hand]);
    TwoSteps(s2, start, low, [hand, poll, hand]);
    TwoSteps(s4, hand, poll, [hand]);
    RunOf(s6, hand, []);
    assert events == [start, cut] + [start, low, hand, poll, hand];
    assert [start, low, hand, poll, hand] == [start, low] + [hand, poll, hand];
    assert [hand, poll, hand] == [hand, poll] + [hand] && [hand] == [hand] + [];
    RunEnds(Next(s6, hand));
    assert [] + [op] + [op] == [op, op];
  }

  /** Both nodes are honest. */
  lemma NodesAreTruthful(op: SbtcOp, heightOf: Key -> nat)
    requires heightOf(op.key) == op.height
    ensures Truthful(OneOp(op), heightOf) && Truthful(Behind(op), heightOf)
  {
  }

  // --- Marks stay ---

  /** Whatever happens, an entry that is no longer new and lies at or below the recorded
      height does not become new, although inserting replaces. */
  lemma PendingStays(sys: System, ev: Event, k: Key, heightOf: Key -> nat)
    requires TableInv(sys.db, heightOf) && Possible(sys, ev, heightOf)
    requires k in sys.db.table && sys.db.table[k].status != New && heightOf(k) <= Last(sys.db)
    ensures var next := Next(sys, ev); k in next.db.table && next.db.table[k].status != New
  {
    hide Truthful, HeightsScript, Ascending, ApplyAll, EndOf;
    if ev.Poll? {
      NoWrites(sys.db);
      var ws := PollScript(sys.db, ev.node).writes[..ev.cut];
      if ev.node.tip.Some? && sys.db.last.Some? {
        PollAscends(sys.db, ev.node, ev.cut, heightOf);
        WritesAbove(sys.db, ws, k, heightOf);
      } else {
        assert ws == [];
      }
    }
  }

  lemma {:induction false} WritesAbove(db: Db, ws: seq<Write>, k: Key, heightOf: Key -> nat)
    requires db.last.Some? && Ascending(ws, db.last.value, heightOf)
    requires k in db.table && heightOf(k) <= db.last.value
    ensures var next := ApplyAll(db, ws); k in next.table && next.table[k] == db.table[k]
    decreases |ws|
  {
    if ws != [] {
      WritesAbove(Apply(db, ws[0]), ws[1..], k, heightOf);
    }
  }

  // --- Runs with steady nodes ---

  predicate EntryWithin(sys: System, e: Entry) {
    && e.op.height <= sys.tip
    && (sys.running || e.status != New ==> e.op.height <= Last(sys.db))
  }

  /** No entry lies above the tip; behind a successful poll, and once it is no longer new,
      it is not above the recorded height either. */
  ghost predicate Within(sys: System) {
    forall k :: k in sys.db.table ==> EntryWithin(sys, sys.db.table[k])
  }

  predicate PutAtMost(w: Write, height: nat) {
    w.Put? ==> w.op.height <= height
  }

  predicate PutsAtMost(ws: seq<Write>, height: nat) {
    forall k :: 0 <= k < |ws| ==> PutAtMost(ws[k], height)
  }

  lemma PutsAtMostConcat(a: seq<Write>, b: seq<Write>, height: nat)
    requires PutsAtMost(a, height) && PutsAtMost(b, height)
    ensures PutsAtMost(a + b, height)
  {
  }

  lemma {:induction false} PutsBelowTip(node: StacksNode, from: nat, upTo: nat, heightOf: Key -> nat)
    requires Truthful(node, heightOf)
    ensures PutsAtMost(HeightsScript(node, from, upTo).writes, upTo)
    decreases upTo - from + 1
  {
    hide PutsAtMost, HeightScript, Truthful;
    if from <= upTo {
      PutsBelowTip(node, from + 1, upTo, heightOf);
      HeightPuts(node, from, upTo, heightOf);
      PutsAtMostConcat(HeightScript(node, from).writes, HeightsScript(node, from + 1, upTo).writes, upTo);
    } else {
      NoPuts(upTo);
    }
  }

  lemma NoPuts(height: nat)
    ensures PutsAtMost([], height)
  {
  }

  lemma HeightPuts(node: StacksNode, height: nat, upTo: nat, heightOf: Key -> nat)
    requires Truthful(node, heightOf) && height <= upTo
    ensures PutsAtMost(HeightScript(node, height).writes, upTo)
  {
  }

  lemma {:induction false} WritesWithin(sys: System, ws: seq<Write>, heightOf: Key -> nat)
    requires Within(sys) && !sys.running && sys.db.last.Some?
    requires Ascending(ws, sys.db.last.value, heightOf) && PutsAtMost(ws, sys.tip)
    ensures Within(sys.(db := ApplyAll(sys.db, ws)))
    decreases |ws|
  {
    if ws != [] {
      var next := sys.(db := Apply(sys.db, ws[0]));
      assert PutAtMost(ws[0], sys.tip);
      forall k | k in next.db.table
        ensures EntryWithin(next, next.db.table[k])
      {
        assert k in sys.db.table ==> EntryWithin(sys, sys.db.table[k]);
      }
      WritesWithin(next, ws[1..], heightOf);
    }
  }

  lemma RelaxWithin(sys: System, tip: nat)
    requires Within(sys) && sys.tip <= tip
    ensures Within(sys.(running := false, tip := tip))
  {
    forall k | k in sys.db.table
      ensures EntryWithin(sys.(running := false, tip := tip), sys.db.table[k])
    {
      assert EntryWithin(sys, sys.db.table[k]);
    }
  }

  lemma CompleteWithin(sys: System)
    requires Within(sys) && sys.tip <= Last(sys.db)
    ensures Within(sys.(running := true))
  {
    forall k | k in sys.db.table
      ensures EntryWithin(sys.(running := true), sys.db.table[k])
    {
      assert EntryWithin(sys, sys.db.table[k]);
    }
  }

  lemma PollWithin(sys: System, node: StacksNode, cut: nat, heightOf: Key -> nat)
    requires Within(sys) && Possible(sys, Poll(node, cut), heightOf) && Steady(sys, Poll(node, cut))
    requires Inv(sys, heightOf)
    ensures Within(Next(sys, Poll(node, cut)))
  {
    hide Within, Inv, Truthful, HeightsScript, Ascending, EndOf, ApplyAll, PutsAtMost;
    var s := PollScript(sys.db, node);
    var ws := s.writes[..cut];
    var tip := if node.tip.Some? then node.tip.value else sys.tip;
    var started := sys.(running := false, tip := tip);
    RelaxWithin(sys, tip);
    NoWrites(sys.db);
    if node.tip.Some? && sys.db.last.Some? {
      PollAscends(sys.db, node, cut, heightOf);
      PutsBelowTip(node, sys.db.last.value + 1, tip, heightOf);
      PutsPrefix(s.writes, cut, tip);
      WritesWithin(started, ws, heightOf);
      WritesKeepInv(sys, ws, heightOf);
      if Complete(sys, node, cut) {
        CompleteWithin(started.(db := ApplyAll(sys.db, ws)));
      }
    } else {
      assert ws == [];
    }
  }

  lemma PutsPrefix(ws: seq<Write>, k: nat, height: nat)
    requires PutsAtMost(ws, height) && k <= |ws|
    ensures PutsAtMost(ws[..k], height)
  {
  }

  lemma StatusWithin(sys: System, key: Key, status: Status, running: bool, handed: seq<SbtcOp>)
    requires Within(sys) && sys.running && key in sys.db.table
    ensures Within(sys.(db := SetStatus(sys.db, key, status), running := running, handed := handed))
  {
    var next := sys.(db := SetStatus(sys.db, key, status), running := running, handed := handed);
    forall k | k in next.db.table
      ensures EntryWithin(next, next.db.table[k])
    {
      assert EntryWithin(sys, sys.db.table[k]);
    }
  }

  lemma StartWithin(sys: System, start: Option<nat>, current: nat)
    requires Within(sys) && Steady(sys, Start(start, current))
    ensures Within(Next(sys, Start(start, current)))
  {
    var next := Next(sys, Start(start, current));
    forall k | k in next.db.table
      ensures EntryWithin(next, next.db.table[k])
    {
      assert EntryWithin(sys, sys.db.table[k]);
    }
  }

  lemma StartedBefore(sys: System, heightOf: Key -> nat)
    requires Inv(sys, heightOf) && sys.handed != []
    ensures sys.db.last.Some?
  {
    assert HandedInv(sys.db, heightOf, sys.handed[0]);
  }

  /** Without explicit restarts and lower tips every step is careful. */
  lemma SteadyIsCareful(sys: System, ev: Event, heightOf: Key -> nat)
    requires Inv(sys, heightOf) && Within(sys) && Possible(sys, ev, heightOf) && Steady(sys, ev)
    ensures Careful(sys, ev) && Within(Next(sys, ev))
  {
    hide Inv, Truthful, PollScript, ApplyAll;
    match ev
    case Start(start, current) =>
      StartWithin(sys, start, current);
      if sys.handed != [] {
        StartedBefore(sys, heightOf);
      }
    case Poll(node, cut) => PollWithin(sys, node, cut, heightOf);
    case Hand(key) =>
      assert EntryWithin(sys, sys.db.table[key]);
      StatusWithin(sys, key, Pending, true, sys.handed + [sys.db.table[key].op]);
    case Mark(key) => StatusWithin(sys, key, Pending, false, sys.handed);
    case Ack(key) => StatusWithin(sys, key, Acknowledged, true, sys.handed);
  }

  lemma {:induction false} SteadyRuns(sys: System, events: seq<Event>, heightOf: Key -> nat)
    requires Inv(sys, heightOf) && Within(sys) && IsSteadyRun(sys, events, heightOf)
    ensures IsCarefulRun(sys, events, heightOf) && Within(Run(sys, events))
    decreases |events|
  {
    hide Inv, Within, Possible, Careful, Steady, Next;
    if events != [] {
      PossibleIsEnabled(sys, events[0], heightOf);
      SteadyIsCareful(sys, events[0], heightOf);
      StepKeepsInv(sys, events[0], heightOf);
      SteadyRuns(Next(sys, events[0]), events[1..], heightOf);
    }
  }

  /** So in every run without explicit heights on restarts and with tips that never decrease, whatever
      crashes: no operation is handed out twice, heights never decrease, and every entry
      that is no longer new is at or below the recorded height. */
  lemma HandedOutOnceInOrder(events: seq<Event>, heightOf: Key -> nat)
    requires IsSteadyRun(FRESH, events, heightOf)
    ensures var sys := Run(FRESH, events);
            && AtMostOnce(sys.handed) && InOrder(sys.handed)
            && forall k :: k in sys.db.table && sys.db.table[k].status != New ==>
                 sys.db.last.Some? && sys.db.table[k].op.height <= sys.db.last.value
  {
    SteadyRuns(FRESH, events, heightOf);
    RunKeepsInv(FRESH, events, heightOf);
    var sys := Run(FRESH, events);
    forall k | k in sys.db.table && sys.db.table[k].status != New
      ensures sys.db.last.Some? && sys.db.table[k].op.height <= sys.db.last.value
    {
      assert EntryWithin(sys, sys.db.table[k]);
    }
  }

  /** And once pending, an entry stays so to the end of the run. */
  lemma {:induction false} PendingStaysForever(sys: System, events: seq<Event>, k: Key, heightOf: Key -> nat)
    requires Inv(sys, heightOf) && Within(sys) && IsSteadyRun(sys, events, heightOf)
    requires k in sys.db.table && sys.db.table[k].status != New
    ensures var end := Run(sys, events); k in end.db.table && end.db.table[k].status != New
    decreases |events|
  {
    hide Possible, Careful, Steady, Next, Truthful;
    if events != [] {
      PossibleIsEnabled(sys, events[0], heightOf);
      assert EntryWithin(sys, sys.db.table[k]);
      PendingStays(sys, events[0], k, heightOf);
      SteadyIsCareful(sys, events[0], heightOf);
      StepKeepsInv(sys, events[0], heightOf);
      PendingStaysForever(Next(sys, events[0]), events[1..], k, heightOf);
    }
  }

  // --- Nothing reported is lost ---

  /** No step removes an entry. */
  lemma StepKeepsEntry(sys: System, ev: Event, k: Key)
    requires Enabled(sys, ev) && k in sys.db.table
    ensures k in Next(sys, ev).db.table
  {
    hide PollScript, ApplyAll, IsFirstNew;
    if ev.Poll? {
      AppliedMeans(sys.db, PollScript(sys.db, ev.node).writes[..ev.cut]);
    }
  }

  /** An entry stays new until it is handed out, marked or acknowledged itself. */
  lemma StepKeepsNew(sys: System, ev: Event, k: Key)
    requires Enabled(sys, ev) && k in sys.db.table && sys.db.table[k].status == New
    requires ev != Hand(k) && ev != Mark(k) && ev != Ack(k)
    ensures k in Next(sys, ev).db.table && Next(sys, ev).db.table[k].status == New
  {
    hide PollScript, ApplyAll, IsFirstNew;
    if ev.Poll? {
      AppliedMeans(sys.db, PollScript(sys.db, ev.node).writes[..ev.cut]);
      assert SameEntry(sys.db, Next(sys, ev).db, k) || Next(sys, ev).db.table[k].status == New;
    }
  }

  lemma {:induction false} EntryStays(sys: System, events: seq<Event>, k: Key)
    requires k in sys.db.table
    ensures k in Run(sys, events).db.table
    ensures sys.db.table[k].status == New && Hand(k) !in events && Mark(k) !in events && Ack(k) !in events ==>
              Run(sys, events).db.table[k].status == New
    decreases |events|
  {
    hide Enabled, Next;
    if events != [] && Enabled(sys, events[0]) {
      StepKeepsEntry(sys, events[0], k);
      if sys.db.table[k].status == New && Hand(k) !in events && Mark(k) !in events && Ack(k) !in events {
        assert events[0] in events;
        StepKeepsNew(sys, events[0], k);
      }
      EntryStays(Next(sys, events[0]), events[1..], k);
    }
  }

  /** What a successful poll does. */
  lemma CompletePoll(sys: System, node: StacksNode, cut: nat)
    requires Enabled(sys, Poll(node, cut)) && Complete(sys, node, cut)
    ensures Next(sys, Poll(node, cut)).running
    ensures PollMeans(sys.db, Next(sys, Poll(node, cut)).db, node, Ok(()))
  {
    hide ApplyAll, HeightsScript, PollMeans;
    var ws := PollScript(sys.db, node).writes;
    assert ws[..cut] == ws;
    ScriptMeans(sys.db, node);
  }

  /** An operation that a node reports at a height covered by a successful poll has an entry
      from then on, whatever happens; it stays new until it is handed out or marked itself;
      and behind the poll its turn comes. */
  lemma NothingIsLost(before: seq<Event>, node: StacksNode, cut: nat, op: SbtcOp, heightOf: Key -> nat)
    returns (turn: seq<Event>)
    requires IsCarefulRun(FRESH, before, heightOf)
    requires var sys := Run(FRESH, before);
             && Possible(sys, Poll(node, cut), heightOf) && Complete(sys, node, cut)
             && node.tip.Some? && sys.db.last.Some? && Reported(node, sys.db.last.value, node.tip.value, op)
    ensures var polled := Next(Run(FRESH, before), Poll(node, cut));
            && (forall later :: op.key in Run(polled, later).db.table)
            && (forall later :: Hand(op.key) !in later && Mark(op.key) !in later && Ack(op.key) !in later ==>
                  Run(polled, later).db.table[op.key].status == New)
            && IsCarefulRun(polled, turn, heightOf)
            && var handed := Run(polled, turn).handed;
               |handed| > |polled.handed| && handed[|handed| - 1].key == op.key
  {
    hide Inv, Run, IsCarefulRun, PollScript, Enabled, IsFirstNew, NeverRepeats;
    var sys := Run(FRESH, before);
    var polled := Next(sys, Poll(node, cut));
    CarefulRunsHandOutOnce(before, heightOf);
    PossibleIsEnabled(sys, Poll(node, cut), heightOf);
    CompletePoll(sys, node, cut);
    PollKeepsInv(sys, node, cut, heightOf);
    assert op.key in polled.db.table && polled.db.table[op.key].status == New;
    forall later: seq<Event>
      ensures op.key in Run(polled, later).db.table
      ensures Hand(op.key) !in later && Mark(op.key) !in later && Ack(op.key) !in later ==>
                Run(polled, later).db.table[op.key].status == New
    {
      EntryStays(polled, later, op.key);
    }
    AtHeight(polled, op.key, heightOf);
    var h: nat :| sys.db.last.value < h <= node.tip.value && ReportedAt(node, h, op);
    turn := GetsItsTurn(polled, op.key, heightOf);
  }

  lemma AtHeight(sys: System, k: Key, heightOf: Key -> nat)
    requires Inv(sys, heightOf) && k in sys.db.table
    ensures sys.db.table[k].op.key == k && sys.db.table[k].op.height == heightOf(k)
  {
  }
}
