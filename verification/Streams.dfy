/** Row streams: what they yield, when a response left half-read is marked, and
    which requests are sent on one all the same. */
module Streams {
  import opened Common
  import opened MarkerProperties
  import opened TdsServer
  import opened Connection

  // ----- What a stream yields

  function RowItems(rows: seq<Row>): seq<Item> {
    if rows == [] then [] else [RowItem(rows[0])] + RowItems(rows[1..])
  }

  function SetItems(resultSet: ResultSet): seq<Item> {
    match resultSet
    case Rows(rows) => RowItems(rows) + [Count(0)]
    case NoRows(None) => [Count(0)]
    case NoRows(Some(n)) => [Count(n)]
  }

  /** Everything a response holds for the caller: the rows of each result set,
      closed by a zero count, and the affected-row counts between them. */
  function Items(sets: seq<ResultSet>): seq<Item> {
    if sets == [] then [] else SetItems(sets[0]) + Items(sets[1..])
  }

  /** The client calls needed to read a response to its end. */
  function Calls(sets: seq<ResultSet>): nat {
    if sets == [] then 0
    else (match sets[0] case Rows(rows) => |rows| + 2 case NoRows(_) => 1) + Calls(sets[1..])
  }

  /** What `Pull` must give for a response whose items are `all`. */
  predicate PulledRight(p: Pulled, all: seq<Item>, calls: nat, polls: nat, answered: nat) {
    && p.items <= all
    && |p.items| <= polls
    && (p.ending == Ended ==> p.unread == [] && p.items == all && |all| < polls && calls <= answered)
    && (p.ending == Dropped ==> |p.items| == polls)
    && (calls <= answered ==> p.ending == if |all| < polls then Ended else Dropped)
  }

  lemma {:induction false} YieldedRight(item: Item, p: Pulled, all: seq<Item>, calls: nat, polls: nat, answered: nat)
    requires PulledRight(p, all, calls, polls, answered)
    ensures PulledRight(Yielded(item, p), [item] + all, calls, polls + 1, answered)
  {}

  /** A row taken off the first result set. */
  lemma {:induction false} RowTaken(rows: seq<Row>, rest: seq<ResultSet>)
    requires rows != []
    ensures var sets, later := [Rows(rows)] + rest, [Rows(rows[1..])] + rest;
            Items(sets) == [RowItem(rows[0])] + Items(later) && Calls(sets) == Calls(later) + 1
            && Size(later) < Size(sets)
  {}

  /** However a stream comes to rest, the caller has been given a prefix of the
      response's items, in order and with none left out. The stream ends exactly
      when the caller polls once more than there are items and no client call
      fails, and then all were given; otherwise it was dropped after as many items
      as the caller polled for, or failed. */
  lemma {:induction false} PullYieldsPrefix(sets: seq<ResultSet>, polls: nat, answered: nat)
    ensures PulledRight(Pull(sets, polls, answered), Items(sets), Calls(sets), polls, answered)
    decreases Size(sets), 1
  {
    if polls > 0 && sets != [] {
      match sets[0]
      case NoRows(affected) =>
        AdvanceYieldsPrefix(sets, polls - 1, answered);
        YieldedRight(Count(AffectedBy(affected)), Advance(sets, polls - 1, answered), Items(sets[1..]),
                     1 + Calls(sets[1..]), polls - 1, answered);
      case Rows(rows) =>
        if answered > 0 {
          if rows == [] {
            AdvanceYieldsPrefix(sets, polls - 1, answered - 1);
            YieldedRight(Count(0), Advance(sets, polls - 1, answered - 1), Items(sets[1..]),
                         1 + Calls(sets[1..]), polls - 1, answered - 1);
            assert SetItems(sets[0]) == [Count(0)];
          } else {
            var later := [Rows(rows[1..])] + sets[1..];
            assert sets == [Rows(rows)] + sets[1..];
            RowTaken(rows, sets[1..]);
            PullYieldsPrefix(later, polls - 1, answered - 1);
            YieldedRight(RowItem(rows[0]), Pull(later, polls - 1, answered - 1), Items(later), Calls(later),
                         polls - 1, answered - 1);
          }
        }
    }
  }

  lemma {:induction false} AdvanceYieldsPrefix(sets: seq<ResultSet>, polls: nat, answered: nat)
    requires sets != []
    ensures PulledRight(Advance(sets, polls, answered), Items(sets[1..]), 1 + Calls(sets[1..]), polls, answered)
    decreases Size(sets), 0
  {
    if polls > 0 && answered > 0 {
      PullYieldsPrefix(sets[1..], polls, answered - 1);
    }
  }

  // ----- Half-read responses

  /** A response that is not read to its end is marked for the next drain. */
  predicate Clean(c: Conn) {
    c.server.unread != [] ==> c.needsReset
  }

  /** Once the statement was sent, the stream has read the response to its end
      or the connection is marked, however much the caller consumed. */
  lemma {:induction false} FetchMarks(
    c: Conn, sql: string, arguments: seq<int>, polls: nat, net: FetchNet)
    requires Clean(c) && polls > 0
    requires Drain(c, net.drain).1 && BuildRequest(sql, arguments).Ok? && net.executed
    ensures var (c2, items, ending) := FetchMany(c, sql, arguments, polls, net);
            && Clean(c2)
            && (c2.needsReset <==> ending != Ended)
            && (ending == Ended <==> Calls(net.sets) <= net.answered && |Items(net.sets)| < polls)
            && items <= Items(net.sets)
  {
    PullYieldsPrefix(net.sets, polls, net.answered);
  }

  /** The two ways to lose the mark: a drain clears it before a close that fails,
      and `exec_sql` sets none when reading off its response fails. */
  predicate LosesMark(c: Conn, op: Op) {
    match op
    case BeginOp(net) => FailsToClose(c, net.drain)
    case ExecOp(sql, net) =>
      FailsToClose(c, net.drain) || (Drain(c, net.drain).1 && net.executed && net.answered < |net.sets|)
    case FetchOp(sql, arguments, polls, net) => polls > 0 && FailsToClose(c, net.drain)
    case _ => false
  }

  predicate FailsToClose(c: Conn, net: DrainNet) {
    c.needsReset && c.server.unread != [] && !net.closed
  }

  /** Every operation, whatever the network answers, leaves a half-read response
      marked exactly unless it loses the mark in one of those two ways. */
  lemma {:induction false} StepKeepsMark(c: Conn, op: Op)
    requires Clean(c)
    ensures Clean(Step(c, op)) <==> !LosesMark(c, op)
  {
    match op
    case BeginOp(net) => BeginKeepsMark(c, net);
    case ExecOp(sql, net) => ExecKeepsMark(c, sql, net);
    case FetchOp(sql, arguments, polls, net) => FetchKeepsMark(c, sql, arguments, polls, net);
    case _ =>
  }

  lemma {:induction false} DrainKeepsMark(c: Conn, net: DrainNet)
    requires Clean(c)
    ensures Clean(Drain(c, net).0) <==> !FailsToClose(c, net)
    ensures Drain(c, net).1 ==> Drain(c, net).0.server.unread == []
  {}

  lemma {:induction false} BeginKeepsMark(c: Conn, net: BeginNet)
    requires Clean(c)
    ensures Clean(BeginTransaction(c, net).0) <==> !FailsToClose(c, net.drain)
  {
    DrainKeepsMark(c, net.drain);
  }

  lemma {:induction false} ExecKeepsMark(c: Conn, sql: string, net: ExecNet)
    requires Clean(c)
    ensures Clean(ExecSql(c, sql, net).0) <==> !LosesMark(c, ExecOp(sql, net))
  {
    DrainKeepsMark(c, net.drain);
  }

  lemma {:induction false} FetchKeepsMark(c: Conn, sql: string, arguments: seq<int>, polls: nat, net: FetchNet)
    requires Clean(c)
    ensures Clean(FetchMany(c, sql, arguments, polls, net).0) <==> !(polls > 0 && FailsToClose(c, net.drain))
  {
    DrainKeepsMark(c, net.drain);
    if polls > 0 && Drain(c, net.drain).1 && BuildRequest(sql, arguments).Ok? && net.executed {
      FetchMarks(c, sql, arguments, polls, net);
    }
  }

  // ----- Requests sent on a half-read response

  /** Ending a level that has a request of its own. It never drains. */
  predicate SendsEnding(c: Conn, op: Op) {
    (op.CommitOp? && c.depth == 1) || (op.RollbackOp? && c.depth >= 1)
  }

  /** A request goes out that no close precedes. */
  predicate SendsUndrained(c: Conn, op: Op) {
    match op
    case BeginOp(_) => !c.needsReset
    case ExecOp(_, _) => !c.needsReset
    case FetchOp(sql, arguments, polls, _) =>
      polls > 0 && !c.needsReset && (c.pendingRollback || BuildRequest(sql, arguments).Ok?)
    case _ => SendsEnding(c, op)
  }

  /** In any state and whatever the network answers, an operation sends a request
      on a half-read response exactly when one is half-read and the operation
      does not begin with a close. */
  lemma {:induction false} StepOverlaps(c: Conn, op: Op)
    ensures Step(c, op).server.overlaps >= c.server.overlaps
    ensures Step(c, op).server.overlaps > c.server.overlaps <==> c.server.unread != [] && SendsUndrained(c, op)
  {
    match op
    case FetchOp(sql, arguments, polls, net) => FetchOverlaps(c, sql, arguments, polls, net);
    case _ =>
  }

  lemma {:induction false} FetchOverlaps(c: Conn, sql: string, arguments: seq<int>, polls: nat, net: FetchNet)
    ensures var c2 := FetchMany(c, sql, arguments, polls, net).0;
            && c2.server.overlaps >= c.server.overlaps
            && (c2.server.overlaps > c.server.overlaps <==>
                c.server.unread != [] && SendsUndrained(c, FetchOp(sql, arguments, polls, net)))
  {}

  predicate RunSendsUndrained(c: Conn, ops: seq<Op>)
    decreases |ops|
  {
    ops != [] && ((c.server.unread != [] && SendsUndrained(c, ops[0])) || RunSendsUndrained(Step(c, ops[0]), ops[1..]))
  }

  lemma {:induction false} RunOverlaps(c: Conn, ops: seq<Op>)
    ensures Run(c, ops).server.overlaps >= c.server.overlaps
    ensures Run(c, ops).server.overlaps > c.server.overlaps <==> RunSendsUndrained(c, ops)
    decreases |ops|
  {
    if ops != [] {
      StepOverlaps(c, ops[0]);
      RunOverlaps(Step(c, ops[0]), ops[1..]);
    }
  }

  /** While every half-read response is marked, the only requests sent on one
      are those of the outermost commit and of a rollback at any depth. */
  lemma {:induction false} StepOverlapsOnlyEnding(c: Conn, op: Op)
    requires Clean(c)
    ensures Step(c, op).server.overlaps ==
            c.server.overlaps + (if c.server.unread != [] && SendsEnding(c, op) then 1 else 0)
  {
    StepOverlaps(c, op);
  }

  predicate RunLosesMark(c: Conn, ops: seq<Op>)
    decreases |ops|
  {
    ops != [] && (LosesMark(c, ops[0]) || RunLosesMark(Step(c, ops[0]), ops[1..]))
  }

  /** The commits and rollbacks of a run that are sent on a half-read response. */
  function HalfReadEndings(c: Conn, ops: seq<Op>): nat
    decreases |ops|
  {
    if ops == [] then 0
    else
      (if c.server.unread != [] && SendsEnding(c, ops[0]) then 1 else 0)
      + HalfReadEndings(Step(c, ops[0]), ops[1..])
  }

  /** Over every run that loses no mark, no statement, begin, savepoint or queued
      rollback is sent on a half-read response; commits and rollbacks are, and
      exactly those sent while one is half-read. */
  lemma {:induction false} RunNeverOverlaps(c: Conn, ops: seq<Op>)
    requires Clean(c) && !RunLosesMark(c, ops)
    ensures Clean(Run(c, ops))
    ensures Run(c, ops).server.overlaps == c.server.overlaps + HalfReadEndings(c, ops)
    decreases |ops|
  {
    if ops != [] {
      StepKeepsMark(c, ops[0]);
      StepOverlapsOnlyEnding(c, ops[0]);
      RunNeverOverlaps(Step(c, ops[0]), ops[1..]);
    }
  }

  // ----- Runs that do overlap

  lemma {:induction false} RunTwo(c: Conn, a: Op, b: Op)
    ensures Run(c, [a, b]) == Step(Step(c, a), b)
  {
    assert [a, b][1..] == [b] && [b][1..] == [];
    assert Run(Step(c, a), [b]) == Run(Step(Step(c, a), b), []);
  }

  lemma {:induction false} RunThree(c: Conn, a: Op, b: Op, d: Op)
    ensures Run(c, [a, b, d]) == Step(Step(Step(c, a), b), d)
  {
    assert [a, b, d][1..] == [b, d];
    RunTwo(Step(c, a), b, d);
  }

  /** A stream that is polled once on two rows. */
  function HalfRead(net: DrainNet, first: Row, second: Row): Op {
    FetchOp("", [], 1, FetchNet(net, true, [Rows([first, second])], 1))
  }

  lemma {:induction false} HalfReadLeaves(c: Conn, net: DrainNet, first: Row, second: Row)
    requires Drain(c, net) == (c, true)
    ensures var c2 := Step(c, HalfRead(net, first, second));
            && c2.server.unread == [Rows([second])] && c2.needsReset
            && c2.depth == c.depth && c2.server.open == c.server.open && c2.pendingRollback == c.pendingRollback
            && c2.server.overlaps == Sent(c.server).overlaps
  {
    var unread := [Rows([first, second])];
    assert [first, second][1..] == [second] && [Rows([second])] + unread[1..] == [Rows([second])];
    assert Pull(unread, 1, 1) == Yielded(RowItem(first), Pull([Rows([second])], 0, 0));
  }

  /** With no failure at all: a transaction commits, or is rolled back, after a
      stream of it was dropped half-read, and the request is sent on the rest. */
  lemma {:induction false} EndingOverlaps(data: Data, net: DrainNet, first: Row, second: Row, end: Op)
    requires end == CommitOp(true) || end == RollbackOp(true)
    ensures var begin := BeginOp(BeginNet(net, true));
            var c := Run(Connected(data), [begin, HalfRead(net, first, second), end]);
            c.server.overlaps == 1 && c.depth == 0 && c.server.unread == [Rows([second])]
  {
    var begin := BeginOp(BeginNet(net, true));
    var c1 := Step(Connected(data), begin);
    HalfReadLeaves(c1, net, first, second);
    RunThree(Connected(data), begin, HalfRead(net, first, second), end);
  }

  /** A close that fails loses the mark, and the next begin is sent on the rest. */
  lemma {:induction false} FailedCloseOverlaps(data: Data, first: Row, second: Row)
    ensures var good, bad := DrainNet(true, true), DrainNet(false, true);
            Run(Connected(data), [HalfRead(good, first, second), BeginOp(BeginNet(bad, true)),
                                  BeginOp(BeginNet(good, true))]).server.overlaps == 1
  {
    var good, bad := DrainNet(true, true), DrainNet(false, true);
    HalfReadLeaves(Connected(data), good, first, second);
    var begin, again := BeginOp(BeginNet(bad, true)), BeginOp(BeginNet(good, true));
    RunThree(Connected(data), HalfRead(good, first, second), begin, again);
  }

  /** `exec_sql` leaves a half-read response unmarked exactly when a close fails
      before it or reading off its own response fails. */
  lemma {:induction false} ExecMarksNothing(c: Conn, sql: string, net: ExecNet)
    requires Clean(c)
    ensures var c2 := ExecSql(c, sql, net).0;
            c2.server.unread != [] && !c2.needsReset <==>
            (c.needsReset && c.server.unread != [] && !net.drain.closed)
            || (Drain(c, net.drain).1 && net.executed && net.answered < |net.sets|)
  {
    ExecKeepsMark(c, sql, net);
  }

  /** Then the next begin is sent over the half-read response. */
  lemma {:induction false} UnmarkedOverlaps(data: Data, net: DrainNet)
    ensures var exec := ExecOp("", ExecNet(net, true, [NoRows(None)], 0, true));
            Run(Connected(data), [exec, BeginOp(BeginNet(net, true))]).server.overlaps == 1
  {
    RunTwo(Connected(data), ExecOp("", ExecNet(net, true, [NoRows(None)], 0, true)), BeginOp(BeginNet(net, true)));
  }

  /** Commit and rollback leave a half-read response and its mark as they are;
      the request itself is sent on it exactly at the depths that have one. */
  lemma {:induction false} EndingDoesNotDrain(c: Conn, reply: bool)
    ensures var c2 := CommitTransaction(c, reply).0;
            && c2.server.unread == c.server.unread && c2.needsReset == c.needsReset
            && (c2.server.overlaps == c.server.overlaps + 1 <==> c.server.unread != [] && c.depth == 1)
    ensures var c2 := RollbackTransaction(c, reply).0;
            && c2.server.unread == c.server.unread && c2.needsReset == c.needsReset
            && (c2.server.overlaps == c.server.overlaps + 1 <==> c.server.unread != [] && c.depth >= 1)
  {}
}
