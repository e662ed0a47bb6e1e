/**
 The persistent peg queue: polling block heights into a table and handing out one
 operation at a time. The database is a map and a number; every statement on it is atomic.
 */
module PegQueue {
  import opened Options
  import opened Results

  datatype Key = Key(txid: nat, burnHeaderHash: nat)

  /** `text` is the rank of the serialized operation, by which the table is ordered within
      a height. */
  datatype SbtcOp = SbtcOp(key: Key, height: nat, text: nat)

  datatype Status = New | Pending | Acknowledged
  datatype Entry = Entry(op: SbtcOp, status: Status)

  datatype Db = Db(table: map<Key, Entry>, last: Option<nat>)

  /** What a Stacks node says of one height; an unknown height counts as one without
      operations. */
  datatype Answer = UnknownBlockHeight | Failure | Ops(ops: seq<SbtcOp>)

  datatype StacksNode = StacksNode(tip: Option<nat>, pegIns: nat -> Answer, pegOuts: nat -> Answer)

  datatype Error = NodeError | NoHeight | NoEntry

  // --- Statements on the database ---

  datatype Write = Put(op: SbtcOp) | SetLast(height: nat)

  /** An operation of a node replaces whatever stands under its key and is new. */
  function Apply(db: Db, w: Write): Db {
    match w
    case Put(op) => db.(table := db.table[op.key := Entry(op, New)])
    case SetLast(height) => db.(last := Some(height))
  }

  function ApplyAll(db: Db, ws: seq<Write>): Db
    decreases |ws|
  {
    if ws == [] then db else ApplyAll(Apply(db, ws[0]), ws[1..])
  }

  function SetStatus(db: Db, key: Key, status: Status): Db
    requires key in db.table
  {
    db.(table := db.table[key := db.table[key].(status := status)])
  }

  function SaturatingPred(n: nat): nat {
    if n == 0 then 0 else n - 1
  }

  function Open(db: Db, start: Option<nat>, current: nat): Db {
    if start.Some? then db.(last := Some(SaturatingPred(start.value)))
    else if db.last == None then db.(last := Some(SaturatingPred(current)))
    else db
  }

  /** A list of statements, and whether the operation that issues them succeeds. */
  datatype Script = Script(writes: seq<Write>, ok: bool) {
    function Then(next: Script): Script {
      if ok then Script(writes + next.writes, next.ok) else this
    }
  }

  function Puts(ops: seq<SbtcOp>): (ws: seq<Write>)
    ensures |ws| == |ops| && forall k :: 0 <= k < |ops| ==> ws[k] == Put(ops[k])
  {
    seq(|ops|, k requires 0 <= k < |ops| => Put(ops[k]))
  }

  function OpsScript(answer: Answer): Script {
    match answer
    case UnknownBlockHeight => Script([], true)
    case Failure => Script([], false)
    case Ops(ops) => Script(Puts(ops), true)
  }

  function HeightScript(node: StacksNode, height: nat): Script {
    OpsScript(node.pegIns(height)).Then(OpsScript(node.pegOuts(height))).Then(Script([SetLast(height)], true))
  }

  function HeightsScript(node: StacksNode, from: nat, upTo: nat): Script
    decreases upTo - from + 1
  {
    if from > upTo then Script([], true) else HeightScript(node, from).Then(HeightsScript(node, from + 1, upTo))
  }

  function PollScript(db: Db, node: StacksNode): Script {
    if node.tip == None || db.last == None then Script([], false)
    else HeightsScript(node, db.last.value + 1, node.tip.value)
  }

  /** The first new entry in the order of height and text. */
  predicate IsFirstNew(db: Db, key: Key) {
    && key in db.table && db.table[key].status == New
    && forall k :: k in db.table && db.table[k].status == New ==>
         Before(db.table[key].op, db.table[k].op)
  }

  predicate Before(a: SbtcOp, b: SbtcOp) {
    a.height < b.height || (a.height == b.height && a.text <= b.text)
  }

  ghost predicate AnyNew(db: Db) {
    exists k :: k in db.table && db.table[k].status == New
  }

  // --- The queue ---

  lemma {:induction false} ApplyConcat(db: Db, a: seq<Write>, b: seq<Write>)
    ensures ApplyAll(db, a + b) == ApplyAll(ApplyAll(db, a), b)
    decreases |a|
  {
    if a == [] {
      assert a + b == b;
    } else {
      assert (a + b)[1..] == a[1..] + b;
      ApplyConcat(Apply(db, a[0]), a[1..], b);
    }
  }

  // --- What a poll takes in ---

  predicate ReportedAt(node: StacksNode, height: nat, op: SbtcOp) {
    || (node.pegIns(height).Ops? && op in node.pegIns(height).ops)
    || (node.pegOuts(height).Ops? && op in node.pegOuts(height).ops)
  }

  /** The node reports the operation at some height above `last` and up to `upTo`. */
  ghost predicate Reported(node: StacksNode, last: nat, upTo: nat, op: SbtcOp) {
    exists height: nat :: last < height <= upTo && ReportedAt(node, height, op)
  }

  predicate Fails(node: StacksNode, height: nat) {
    node.pegIns(height).Failure? || node.pegOuts(height).Failure?
  }

  /** Everything reported is in the table and new. */
  ghost predicate HasAll(db: Db, node: StacksNode, last: nat, upTo: nat) {
    forall op :: Reported(node, last, upTo, op) ==> op.key in db.table && db.table[op.key].status == New
  }

  predicate SameEntry(before: Db, after: Db, k: Key) {
    k in before.table && k in after.table && after.table[k] == before.table[k]
  }

  /** Every entry is that of a reported operation and new, or was there before. */
  ghost predicate OnlyAdds(before: Db, after: Db, node: StacksNode, last: nat, upTo: nat) {
    && before.table.Keys <= after.table.Keys
    && forall k :: k in after.table ==>
         || SameEntry(before, after, k)
         || (after.table[k].status == New && after.table[k].op.key == k && Reported(node, last, upTo, after.table[k].op))
  }

  /** `height` is the first above `last` for which the node fails. */
  ghost predicate FirstFailure(node: StacksNode, last: nat, height: nat) {
    last < height && Fails(node, height) && forall h: nat :: last < h < height ==> !Fails(node, h)
  }

  /** Behind a successful poll everything reported above the recorded height and up to the
      tip is in the table and new, every other entry is as it was, and the tip is recorded.
      A poll that fails has done the same up to the height before the first failure. */
  ghost predicate PollMeans(before: Db, after: Db, node: StacksNode, r: Result<(), Error>) {
    if node.tip == None then r == Err(NodeError) && after == before
    else if before.last == None then r == Err(NoHeight) && after == before
    else
      var last, tip := before.last.value, node.tip.value;
      match r
      case Ok(_) =>
        && (forall h: nat :: last < h <= tip ==> !Fails(node, h))
        && HasAll(after, node, last, tip) && OnlyAdds(before, after, node, last, tip)
        && after.last == Some(if last < tip then tip else last)
      case Err(e) =>
        && e == NodeError
        && exists h: nat ::
             && FirstFailure(node, last, h) && h <= tip
             && HasAll(after, node, last, h - 1) && OnlyAdds(before, after, node, last, h)
             && after.last == Some((h - 1) as nat)
  }

  /** The height recorded behind some statements. */
  function EndOf(ws: seq<Write>, last: nat): nat
    decreases |ws|
  {
    if ws == [] then last else EndOf(ws[1..], if ws[0].SetLast? then ws[0].height else last)
  }

  predicate Has(ws: seq<Write>, op: SbtcOp) {
    Put(op) in ws
  }

  lemma {:induction false} AppliedMeans(db: Db, ws: seq<Write>)
    ensures var after := ApplyAll(db, ws);
            && db.table.Keys <= after.table.Keys
            && (forall op :: Has(ws, op) ==> op.key in after.table && after.table[op.key].status == New)
            && (forall k :: k in after.table ==>
                  || SameEntry(db, after, k)
                  || (after.table[k].status == New && after.table[k].op.key == k && Has(ws, after.table[k].op)))
    decreases |ws|
  {
    if ws != [] {
      var next, after := Apply(db, ws[0]), ApplyAll(db, ws);
      AppliedMeans(next, ws[1..]);
      assert ws == [ws[0]] + ws[1..];
      forall k | k in after.table
        ensures SameEntry(db, after, k)
                || (after.table[k].status == New && after.table[k].op.key == k && Has(ws, after.table[k].op))
      {
        assert Has(ws[1..], after.table[k].op) ==> Has(ws, after.table[k].op);
        if SameEntry(next, after, k) && !SameEntry(db, after, k) {
          assert ws[0] == Put(after.table[k].op);
        }
      }
      forall op | Has(ws, op)
        ensures op.key in after.table && after.table[op.key].status == New
      {
        if ws[0] == Put(op) {
          assert op.key in next.table && next.table[op.key].status == New;
        } else {
          assert Has(ws[1..], op);
        }
      }
    }
  }

  lemma {:induction false} AppliedLast(db: Db, ws: seq<Write>)
    requires db.last.Some?
    ensures ApplyAll(db, ws).last == Some(EndOf(ws, db.last.value))
    decreases |ws|
  {
    if ws != [] {
      AppliedLast(Apply(db, ws[0]), ws[1..]);
    }
  }

  lemma {:induction false} EndOfConcat(a: seq<Write>, b: seq<Write>, last: nat)
    ensures EndOf(a + b, last) == EndOf(b, EndOf(a, last))
    decreases |a|
  {
    if a == [] {
      assert a + b == b;
    } else {
      assert (a + b)[1..] == a[1..] + b;
      EndOfConcat(a[1..], b, if a[0].SetLast? then a[0].height else last);
    }
  }

  lemma {:induction false} EndOfPuts(ws: seq<Write>, last: nat)
    requires forall k :: 0 <= k < |ws| ==> ws[k].Put?
    ensures EndOf(ws, last) == last
    decreases |ws|
  {
    if ws != [] {
      EndOfPuts(ws[1..], last);
    }
  }

  lemma OpsPut(answer: Answer)
    ensures var s := OpsScript(answer);
            && (s.ok <==> !answer.Failure?)
            && (forall k :: 0 <= k < |s.writes| ==> s.writes[k].Put?)
            && forall op :: Has(s.writes, op) <==> answer.Ops? && op in answer.ops
  {
    var s := OpsScript(answer);
    forall op | answer.Ops? && op in answer.ops
      ensures Has(s.writes, op)
    {
      var k :| 0 <= k < |answer.ops| && answer.ops[k] == op;
      assert s.writes[k] == Put(op);
    }
  }

  /** One height: all that is reported there, unless the node fails. */
  lemma HeightPut(node: StacksNode, height: nat, last: nat)
    ensures var s := HeightScript(node, height);
            && (s.ok <==> !Fails(node, height))
            && (forall op :: Has(s.writes, op) ==> ReportedAt(node, height, op))
            && (s.ok ==> forall op :: ReportedAt(node, height, op) ==> Has(s.writes, op))
            && EndOf(s.writes, last) == if s.ok then height else last
  {
    hide OpsScript, EndOf;
    var ins, outs, done := OpsScript(node.pegIns(height)), OpsScript(node.pegOuts(height)), [SetLast(height)];
    OpsPut(node.pegIns(height));
    OpsPut(node.pegOuts(height));
    EndOfPuts(ins.writes, last);
    EndOfPuts(ins.writes + outs.writes, last);
    EndOfConcat(ins.writes + outs.writes, done, last);
    assert EndOf(done, last) == height by { RecordsHeight(height, last); }
    forall op
      ensures Has(ins.writes + outs.writes, op) <==> Has(ins.writes, op) || Has(outs.writes, op)
      ensures Has(ins.writes + outs.writes + done, op) <==> Has(ins.writes, op) || Has(outs.writes, op)
    {
      HasConcat(ins.writes, outs.writes, op);
      HasConcat(ins.writes + outs.writes, done, op);
    }
  }

  lemma OpsApplied(db: Db, answer: Answer)
    ensures var after := ApplyAll(db, OpsScript(answer).writes);
            && after.last == db.last && db.table.Keys <= after.table.Keys
            && (forall op :: answer.Ops? && op in answer.ops ==> op.key in after.table && after.table[op.key].status == New)
            && (forall k :: k in after.table ==>
                  || SameEntry(db, after, k)
                  || (after.table[k].status == New && after.table[k].op.key == k && answer.Ops? && after.table[k].op in answer.ops))
  {
    hide OpsScript, ApplyAll, Has;
    OpsPut(answer);
    AppliedMeans(db, OpsScript(answer).writes);
    PutsKeepLast(db, OpsScript(answer).writes);
  }

  lemma {:induction false} PutsKeepLast(db: Db, ws: seq<Write>)
    requires forall k :: 0 <= k < |ws| ==> ws[k].Put?
    ensures ApplyAll(db, ws).last == db.last
    decreases |ws|
  {
    if ws != [] {
      PutsKeepLast(Apply(db, ws[0]), ws[1..]);
    }
  }

  lemma HeightApplied(db: Db, node: StacksNode, height: nat)
    ensures var s := HeightScript(node, height);
            var after := ApplyAll(db, s.writes);
            && (s.ok <==> !Fails(node, height)) && db.table.Keys <= after.table.Keys
            && (s.ok ==> forall op :: ReportedAt(node, height, op) ==> op.key in after.table && after.table[op.key].status == New)
            && (forall k :: k in after.table ==>
                  || SameEntry(db, after, k)
                  || (after.table[k].status == New && after.table[k].op.key == k && ReportedAt(node, height, after.table[k].op)))
            && after.last == if s.ok then Some(height) else db.last
  {
    hide ApplyAll, Has, EndOf, ReportedAt, Fails, SameEntry;
    HeightPut(node, height, height);
    AppliedMeans(db, HeightScript(node, height).writes);
    HeightLast(db, node, height);
  }

  lemma HeightLast(db: Db, node: StacksNode, height: nat)
    ensures var s := HeightScript(node, height); ApplyAll(db, s.writes).last == if s.ok then Some(height) else db.last
  {
    hide OpsScript, ApplyAll, Has;
    var ins, outs, done := OpsScript(node.pegIns(height)), OpsScript(node.pegOuts(height)), [SetLast(height)];
    OpsPut(node.pegIns(height));
    OpsPut(node.pegOuts(height));
    PutsKeepLast(db, ins.writes);
    PutsKeepLast(db, ins.writes + outs.writes);
    ApplyConcat(db, ins.writes + outs.writes, done);
    RecordsLast(ApplyAll(db, ins.writes + outs.writes), height);
  }

  lemma RecordsLast(db: Db, height: nat)
    ensures ApplyAll(db, [SetLast(height)]) == db.(last := Some(height))
  {
    assert [SetLast(height)][1..] == [];
  }

  lemma RecordsHeight(height: nat, last: nat)
    ensures EndOf([SetLast(height)], last) == height
  {
    assert [SetLast(height)][1..] == [];
  }

  lemma HasConcat(a: seq<Write>, b: seq<Write>, op: SbtcOp)
    ensures Has(a + b, op) <==> Has(a, op) || Has(b, op)
  {
  }

  /** All heights above `last`: every height before `stop` is done, and `stop` is where the
      node fails or lies behind the last height. */
  lemma {:induction false} HeightsPut(node: StacksNode, last: nat, upTo: nat) returns (stop: nat)
    ensures var s := HeightsScript(node, last + 1, upTo);
            && last < stop && (forall h: nat :: last < h < stop ==> !Fails(node, h))
            && (if s.ok then stop == (if last < upTo then upTo else last) + 1 else stop <= upTo && Fails(node, stop))
            && EndOf(s.writes, last) == stop - 1
            && (forall op :: Reported(node, last, stop - 1, op) ==> Has(s.writes, op))
            && (forall op :: Has(s.writes, op) ==> Reported(node, last, if s.ok then upTo else stop, op))
    decreases upTo + 1 - last
  {
    hide HeightScript, EndOf, ReportedAt, Fails, Has;
    if last + 1 > upTo {
      stop := last + 1;
      NothingEnds(last);
    } else {
      var here := HeightScript(node, last + 1);
      HeightPut(node, last + 1, last);
      if here.ok {
        stop := HeightsPut(node, last + 1, upTo);
        var rest := HeightsScript(node, last + 2, upTo);
        EndOfConcat(here.writes, rest.writes, last);
        var end := if rest.ok then upTo else stop;
        forall op
          ensures Reported(node, last, stop - 1, op) ==> Has(here.writes + rest.writes, op)
          ensures Has(here.writes + rest.writes, op) ==> Reported(node, last, end, op)
        {
          HasConcat(here.writes, rest.writes, op);
          ReportedNext(node, last, stop - 1, op);
          ReportedNext(node, last, end, op);
        }
      } else {
        stop := last + 1;
      }
    }
  }

  lemma NothingEnds(last: nat)
    ensures EndOf([], last) == last && forall op :: !Has([], op)
  {
  }

  lemma ReportedNext(node: StacksNode, last: nat, upTo: nat, op: SbtcOp)
    requires last < upTo
    ensures Reported(node, last, upTo, op) <==> ReportedAt(node, last + 1, op) || Reported(node, last + 1, upTo, op)
  {
    if Reported(node, last, upTo, op) && !ReportedAt(node, last + 1, op) {
      var h: nat :| last < h <= upTo && ReportedAt(node, h, op);
      assert last + 1 < h;
    }
  }

  /** The result of a poll. */
  function OutcomeOf(db: Db, node: StacksNode): Result<(), Error> {
    if PollScript(db, node).ok then Ok(())
    else if node.tip.Some? && db.last == None then Err(NoHeight)
    else Err(NodeError)
  }

  lemma ScriptMeans(db: Db, node: StacksNode)
    ensures PollMeans(db, ApplyAll(db, PollScript(db, node).writes), node, OutcomeOf(db, node))
  {
    hide HeightsScript, ApplyAll, EndOf, Reported, Fails, Has;
    var ws := PollScript(db, node).writes;
    var after := ApplyAll(db, ws);
    NoWrites(db);
    if node.tip.Some? && db.last.Some? {
      var last := db.last.value;
      var stop := HeightsPut(node, last, node.tip.value);
      AppliedMeans(db, ws);
      AppliedLast(db, ws);
      if OutcomeOf(db, node).Ok? {
        assert forall op :: Reported(node, last, node.tip.value, op) ==> Reported(node, last, stop - 1, op) by {
          ReportedWithin(node, last, node.tip.value, stop - 1);
        }
      } else {
        assert FirstFailure(node, last, stop);
      }
    }
  }

  lemma ReportedWithin(node: StacksNode, last: nat, a: nat, b: nat)
    requires a <= b
    ensures forall op :: Reported(node, last, a, op) ==> Reported(node, last, b, op)
  {
  }

  class SqlitePegQueue {
    var table: map<Key, Entry>
    var last: Option<nat>

    ghost function Value(): Db
      reads this
    {
      Db(table, last)
    }

    /** A new database file. */
    constructor ()
      ensures Value() == Db(map[], None)
    {
      table := map[];
      last := None;
    }

    /** `from_connection` opens a database that may have been in use before. */
    method FromConnection(startBlockHeight: Option<nat>, currentBlockHeight: nat)
      modifies this
      ensures Value() == Open(old(Value()), startBlockHeight, currentBlockHeight)
      ensures table == old(table) && last.Some?
      ensures startBlockHeight.Some? && startBlockHeight.value > 0 ==> last.value + 1 == startBlockHeight.value
      ensures startBlockHeight == None && old(last) == None && currentBlockHeight > 0 ==> last.value + 1 == currentBlockHeight
      ensures startBlockHeight == None && old(last).Some? ==> last == old(last)
      ensures startBlockHeight == Some(0) || (startBlockHeight == None && old(last) == None && currentBlockHeight == 0) ==>
                last == Some(0)
    {
      if startBlockHeight.Some? {
        last := Some(SaturatingPred(startBlockHeight.value));
      } else if last == None {
        last := Some(SaturatingPred(currentBlockHeight));
      }
    }

    method InsertOps(answer: Answer) returns (ok: bool)
      modifies this
      ensures var s := OpsScript(answer); ok == s.ok && Value() == ApplyAll(old(Value()), s.writes)
      ensures ok <==> !answer.Failure?
      ensures forall op :: answer.Ops? && op in answer.ops ==> op.key in table && table[op.key].status == New
      ensures forall k :: k in table ==>
                || SameEntry(old(Value()), Value(), k)
                || (table[k].status == New && table[k].op.key == k && answer.Ops? && table[k].op in answer.ops)
      ensures last == old(last) && old(table).Keys <= table.Keys
    {
      OpsApplied(Value(), answer);
      match answer
      case UnknownBlockHeight => return true;
      case Failure => return false;
      case Ops(ops) =>
        ghost var start := Value();
        ghost var ws := Puts(ops);
        for i := 0 to |ops|
          invariant ApplyAll(Value(), ws[i..]) == ApplyAll(start, ws)
        {
          table := table[ops[i].key := Entry(ops[i], New)];
          assert ws[i..][0] == Put(ops[i]) && ws[i..][1..] == ws[i + 1..];
        }
        return true;
    }

    method PollHeight(node: StacksNode, height: nat) returns (ok: bool)
      modifies this
      ensures var s := HeightScript(node, height); ok == s.ok && Value() == ApplyAll(old(Value()), s.writes)
      ensures ok <==> !Fails(node, height)
      ensures ok ==> forall op :: ReportedAt(node, height, op) ==> op.key in table && table[op.key].status == New
      ensures forall k :: k in table ==>
                || SameEntry(old(Value()), Value(), k)
                || (table[k].status == New && table[k].op.key == k && ReportedAt(node, height, table[k].op))
      ensures last == (if ok then Some(height) else old(last)) && old(table).Keys <= table.Keys
    {
      hide OpsScript, ApplyAll, ReportedAt, Fails, Has, SameEntry;
      HeightApplied(Value(), node, height);
      var ins, outs := OpsScript(node.pegIns(height)), OpsScript(node.pegOuts(height));
      ok := InsertOps(node.pegIns(height));
      if !ok {
        return;
      }
      ok := InsertOps(node.pegOuts(height));
      ApplyConcat(old(Value()), ins.writes, outs.writes);
      if !ok {
        return;
      }
      RecordsLast(Value(), height);
      last := Some(height);
      ApplyConcat(old(Value()), ins.writes + outs.writes, [SetLast(height)]);
    }

    method Poll(node: StacksNode) returns (r: Result<(), Error>)
      modifies this
      ensures var s := PollScript(old(Value()), node);
              r.Ok? == s.ok && Value() == ApplyAll(old(Value()), s.writes)
      ensures PollMeans(old(Value()), Value(), node, r)
    {
      hide HeightScript, ApplyAll, PollMeans;
      NoWrites(Value());
      ScriptMeans(Value(), node);
      if node.tip == None {
        return Err(NodeError);
      }
      if last == None {
        return Err(NoHeight);
      }
      var start := last.value + 1;
      if start > node.tip.value {
        return Ok(());
      }
      ghost var before := Value();
      ghost var all := HeightsScript(node, start, node.tip.value);
      ghost var done: seq<Write> := [];
      for height := start to node.tip.value + 1
        invariant Value() == ApplyAll(before, done)
        invariant var rest := HeightsScript(node, height, node.tip.value);
                  all == Script(done + rest.writes, rest.ok)
      {
        ghost var here := HeightScript(node, height);
        var ok := PollHeight(node, height);
        ApplyConcat(before, done, here.writes);
        if !ok {
          return Err(NodeError);
        }
        ghost var rest := HeightsScript(node, height + 1, node.tip.value);
        assert done + (here.writes + rest.writes) == done + here.writes + rest.writes;
        done := done + here.writes;
      }
      assert done + [] == done;
      return Ok(());
    }

    /** `sbtc_op`: the first new entry becomes pending and is handed out. */
    method NextOp() returns (r: Option<SbtcOp>)
      modifies this
      ensures match r
              case None => !AnyNew(old(Value())) && Value() == old(Value())
              case Some(op) =>
                && IsFirstNew(old(Value()), op.key) && op == old(Value()).table[op.key].op
                && Value() == SetStatus(old(Value()), op.key, Pending)
                && table == old(table)[op.key := Entry(op, Pending)] && last == old(last)
                && forall k :: k in old(table) && old(table)[k].status == New ==>
                     || op.height < old(table)[k].op.height
                     || (op.height == old(table)[k].op.height && op.text <= old(table)[k].op.text)
      requires KeysMatch(Value())
    {
      var rest := set k | k in table && table[k].status == New;
      if rest == {} {
        assert !AnyNew(Value()) by { NoneNew(Value(), rest); }
        return None;
      }
      var first :| first in rest;
      ghost var all := rest;
      rest := rest - {first};
      while rest != {}
        invariant first in all && rest <= all && first !in rest
        invariant forall k :: k in all - rest ==> Before(table[first].op, table[k].op)
        decreases |rest|
      {
        var k :| k in rest;
        if !Before(table[first].op, table[k].op) {
          first := k;
        }
        rest := rest - {k};
      }
      var entry := table[first];
      table := table[first := entry.(status := Pending)];
      return Some(entry.op);
    }

    method Acknowledge(key: Key) returns (r: Result<(), Error>)
      modifies this
      ensures r.Ok? <==> key in old(table)
      ensures Value() == if r.Ok? then SetStatus(old(Value()), key, Acknowledged) else old(Value())
      ensures r.Ok? ==> table == old(table)[key := Entry(old(table)[key].op, Acknowledged)] && last == old(last)
    {
      if key !in table {
        return Err(NoEntry);
      }
      table := table[key := table[key].(status := Acknowledged)];
      return Ok(());
    }
  }

  lemma NoneNew(db: Db, new_: set<Key>)
    requires forall k :: k in db.table && db.table[k].status == New ==> k in new_
    requires new_ == {}
    ensures !AnyNew(db)
  {
  }

  lemma NoWrites(db: Db)
    ensures ApplyAll(db, []) == db
  {
  }

  /** Every entry stands under the key of its operation. */
  ghost predicate KeysMatch(db: Db) {
    forall k :: k in db.table ==> db.table[k].op.key == k
  }

  // --- Processing the queue ---

  ghost predicate AtMostOnce(handed: seq<SbtcOp>) {
    forall i, j :: 0 <= i < j < |handed| ==> handed[i].key != handed[j].key
  }

  ghost predicate InOrder(handed: seq<SbtcOp>) {
    forall i, j :: 0 <= i < j < |handed| ==> handed[i].height <= handed[j].height
  }

  /** `process_queue` with a handler that fails behind `failAt` operations: it hands out
      new entries in order, each once, until none is left or the handler fails. */
  method ProcessQueue(queue: SqlitePegQueue, failAt: nat) returns (handled: seq<SbtcOp>, ok: bool)
    requires KeysMatch(queue.Value())
    modifies queue
    ensures KeysMatch(queue.Value())
    ensures queue.last == old(queue.last) && queue.table.Keys == old(queue.table).Keys
    ensures AtMostOnce(handled) && InOrder(handled)
    ensures forall k :: k in queue.table ==>
              queue.table[k] == if Handled(handled, k) then old(queue.table)[k].(status := Pending)
                                else old(queue.table)[k]
    ensures forall i :: 0 <= i < |handled| ==>
              handled[i].key in old(queue.table) && old(queue.table)[handled[i].key] == Entry(handled[i], New)
    ensures ok ==> !AnyNew(queue.Value())
    ensures !ok ==> |handled| == failAt + 1
  {
    hide HandledFrom, IsFirstNew, AnyNew, KeysMatch;
    handled := [];
    ghost var before := queue.Value();
    NoneHandled(before);
    while true
      invariant KeysMatch(queue.Value())
      invariant |handled| <= failAt
      invariant HandledFrom(before, queue.Value(), handled)
      decreases failAt - |handled|
    {
      ghost var now := queue.Value();
      var next := queue.NextOp();
      match next
      case None =>
        HandledMeans(before, now, handled);
        return handled, true;
      case Some(op) =>
        HandleOne(before, now, handled, op);
        handled := handled + [op];
        if |handled| == failAt + 1 {
          HandledMeans(before, queue.Value(), handled);
          return handled, false;
        }
    }
  }

  ghost predicate Handled(handled: seq<SbtcOp>, k: Key) {
    exists i :: 0 <= i < |handled| && handled[i].key == k
  }

  ghost predicate HandledFrom(before: Db, now: Db, handled: seq<SbtcOp>) {
    && now.last == before.last && now.table.Keys == before.table.Keys
    && AtMostOnce(handled) && InOrder(handled)
    && (forall k :: k in now.table ==>
          now.table[k] == if Handled(handled, k) then before.table[k].(status := Pending) else before.table[k])
    && (forall i :: 0 <= i < |handled| ==>
          handled[i].key in before.table && before.table[handled[i].key] == Entry(handled[i], New))
    && (forall k :: k in now.table && now.table[k].status == New && handled != [] ==>
          handled[|handled| - 1].height <= now.table[k].op.height)
  }

  lemma NoneHandled(db: Db)
    ensures HandledFrom(db, db, [])
  {
  }

  lemma HandledMeans(before: Db, now: Db, handled: seq<SbtcOp>)
    requires HandledFrom(before, now, handled)
    ensures now.last == before.last && now.table.Keys == before.table.Keys
    ensures AtMostOnce(handled) && InOrder(handled)
    ensures forall k :: k in now.table ==>
              now.table[k] == if Handled(handled, k) then before.table[k].(status := Pending) else before.table[k]
    ensures forall i :: 0 <= i < |handled| ==>
              handled[i].key in before.table && before.table[handled[i].key] == Entry(handled[i], New)
  {
  }

  lemma HandledSnoc(handled: seq<SbtcOp>, op: SbtcOp, k: Key)
    ensures Handled(handled + [op], k) <==> Handled(handled, k) || op.key == k
  {
    if Handled(handled, k) {
      var i :| 0 <= i < |handled| && handled[i].key == k;
      assert (handled + [op])[i].key == k;
    }
    if op.key == k {
      assert (handled + [op])[|handled|].key == k;
    }
  }

  /** Handing out the first new entry: it is new to the list and not below its last. */
  lemma HandleOne(before: Db, now: Db, handled: seq<SbtcOp>, op: SbtcOp)
    requires HandledFrom(before, now, handled) && KeysMatch(now)
    requires IsFirstNew(now, op.key) && op == now.table[op.key].op
    ensures HandledFrom(before, SetStatus(now, op.key, Pending), handled + [op])
    ensures KeysMatch(SetStatus(now, op.key, Pending))
  {
    var next, more := SetStatus(now, op.key, Pending), handled + [op];
    assert !Handled(handled, op.key);
    assert before.table[op.key] == Entry(op, New);
    forall i | 0 <= i < |handled|
      ensures handled[i].key != op.key && handled[i].height <= op.height
    {
      assert Handled(handled, handled[i].key);
      assert handled[i].height <= handled[|handled| - 1].height;
    }
    forall k | k in next.table
      ensures next.table[k] == if Handled(more, k) then before.table[k].(status := Pending) else before.table[k]
    {
      HandledSnoc(handled, op, k);
    }
  }
}
