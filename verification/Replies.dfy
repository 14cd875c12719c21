/** What each operation answers and leaves behind, from the state before it and
    the network's replies alone. */
module Replies {
  import opened Common
  import opened Decimals
  import opened SqlLexer
  import opened MarkerProperties
  import opened TdsServer
  import opened Connection
  import opened Transactions
  import opened Streams
  import opened MigrationPair

  // ----- Pending work

  /** Every request of the drain is answered: the close, if one is pending, and
      the rollback, if one is. */
  predicate DrainAnswered(c: Conn, net: DrainNet) {
    (c.needsReset ==> net.closed) && (c.pendingRollback ==> c.server.open.Some? && net.rolledBack)
  }

  /** The data once pending work is done. */
  function DrainedData(c: Conn): Data {
    if c.pendingRollback && c.server.open.Some? then c.server.open.value.base else c.server.data
  }

  /** A drain succeeds exactly when its requests do, and then both flags are down,
      nothing is unread that was marked, and a queued rollback is done. */
  lemma {:induction false} DrainReplies(c: Conn, net: DrainNet)
    ensures Drain(c, net).1 <==> DrainAnswered(c, net)
    ensures var c2 := Drain(c, net).0;
            && c2.depth == c.depth
            && (DrainAnswered(c, net) ==>
                  && !c2.needsReset && !c2.pendingRollback
                  && c2.server.data == DrainedData(c)
                  && c2.server.open == (if c.pendingRollback then None else c.server.open)
                  && c2.server.unread == (if c.needsReset then [] else c.server.unread))
            && (!DrainAnswered(c, net) ==> c2.server.data == c.server.data && c2.server.open == c.server.open)
            && (c.needsReset && !net.closed ==> !c2.needsReset && c2.pendingRollback == c.pendingRollback)
            && ((c.needsReset ==> net.closed) ==> !c2.pendingRollback)
  {}

  // ----- Transactions

  lemma {:induction false} BeginReplies(c: Conn, net: BeginNet)
    requires Valid(c)
    ensures BeginTransaction(c, net).1 <==> DrainAnswered(c, net.drain) && net.begun
    ensures var c2 := BeginTransaction(c, net).0;
            && c2.depth == (if BeginTransaction(c, net).1 then c.depth + 1 else c.depth)
            && (BeginTransaction(c, net).1 ==>
                  && c2.server.data == DrainedData(c)
                  && c2.server.open ==
                     if c.depth == 0 then Some(Transaction(DrainedData(c), 0, []))
                     else
                       var t := c.server.open.value;
                       var name := "sqlx_sp_" + Decimal(c.depth);
                       Some(t.(savepoints := t.savepoints + [Savepoint(name, c.server.data)])))
  {
    DrainReplies(c, net.drain);
  }

  /** Only the outermost commit can fail, and only it ends the transaction. */
  lemma {:induction false} CommitReplies(c: Conn, reply: bool)
    requires Valid(c)
    ensures CommitTransaction(c, reply).1 <==> c.depth != 1 || reply
    ensures var c2 := CommitTransaction(c, reply).0;
            && c2.depth == (if c.depth == 0 || (c.depth == 1 && !reply) then c.depth else c.depth - 1)
            && c2.server.data == c.server.data
            && c2.server.open == (if c.depth == 1 && reply then None else c.server.open)
  {}

  lemma {:induction false} RollbackReplies(c: Conn, reply: bool)
    requires Valid(c)
    ensures RollbackTransaction(c, reply).1 <==> c.depth == 0 || reply
    ensures var c2 := RollbackTransaction(c, reply).0;
            && c2.depth == (if c.depth == 0 || !reply then c.depth else c.depth - 1)
            && (c.depth == 1 && reply ==> c2.server.data == c.server.open.value.base && c2.server.open.None?)
            && (!reply ==> c2.server.data == c.server.data && c2.server.open == c.server.open)
  {
    RollbackRefines(c, reply);
  }

  // ----- Statements

  /** The statement is executed, read off to its end, and closed. */
  predicate Answered(net: ExecNet) {
    net.executed && |net.sets| <= net.answered && net.closed
  }

  lemma {:induction false} ExecReplies(c: Conn, sql: string, net: ExecNet)
    ensures ExecSql(c, sql, net).1 <==> DrainAnswered(c, net.drain) && Answered(net)
    ensures var c2 := ExecSql(c, sql, net).0;
            && c2.depth == c.depth
            && (DrainAnswered(c, net.drain) ==>
                  && !c2.needsReset && !c2.pendingRollback
                  && c2.server.data == if net.executed then DrainedData(c) + [Statement(sql, [])] else DrainedData(c))
            && (!DrainAnswered(c, net.drain) ==> c2.server.data == c.server.data)
            && (DrainAnswered(c, net.drain) && net.executed ==>
                  c2.server.unread == if net.answered < |net.sets| then net.sets[net.answered..] else [])
  {
    DrainReplies(c, net.drain);
  }

  // ----- Migrations

  /** With a transaction the pair succeeds exactly when the drain, the begin, both
      statements and, outside any other transaction, the commit are answered. */
  lemma {:induction false} PairReplies(c: Conn, first: string, second: string, net: PairNet)
    requires Valid(c)
    ensures RunMigrationPair(c, first, second, false, net).1 <==>
            && DrainAnswered(c, net.begin.drain) && net.begin.begun
            && Answered(net.first) && Answered(net.second)
            && (c.depth > 0 || net.ended)
  {
    BeginReplies(c, net.begin);
    var (c1, ok1) := BeginTransaction(c, net.begin);
    if ok1 {
      BeginLeaves(c, net.begin);
      BothReplies(c1, first, second, net);
      BothLeave(c1, first, second, net);
      var (c2, ok2) := ExecBoth(c1, first, second, net);
      CommitReplies(c2, net.ended);
    }
  }

  lemma {:induction false} BeginLeaves(c: Conn, net: BeginNet)
    requires Valid(c) && BeginTransaction(c, net).1
    ensures var c1 := BeginTransaction(c, net).0;
            Valid(c1) && c1.depth == c.depth + 1 && !c1.needsReset && !c1.pendingRollback
  {
    DrainReplies(c, net.drain);
    BeginReplies(c, net);
    BeginRefines(c, net);
  }

  lemma {:induction false} BothReplies(c: Conn, first: string, second: string, net: PairNet)
    requires !c.needsReset && !c.pendingRollback
    ensures ExecBoth(c, first, second, net).1 <==> Answered(net.first) && Answered(net.second)
  {
    ExecReplies(c, first, net.first);
    ExecReplies(ExecSql(c, first, net.first).0, second, net.second);
  }

  lemma {:induction false} BothLeave(c: Conn, first: string, second: string, net: PairNet)
    requires Valid(c) && !c.needsReset && !c.pendingRollback
    ensures var c2 := ExecBoth(c, first, second, net).0; Valid(c2) && c2.depth == c.depth && !c2.pendingRollback
  {
    ExecBothInside(c, first, second, net);
  }

  /** What a pair that succeeds has done, and that without a transaction it
      succeeds exactly when the first drain and both statements do. */
  lemma {:induction false} PairApplies(c: Conn, first: string, second: string, net: PairNet)
    requires Valid(c)
    ensures RunMigrationPair(c, first, second, false, net).1 ==>
              RunMigrationPair(c, first, second, false, net).0.server.data ==
              DrainedData(c) + [Statement(first, []), Statement(second, [])]
    ensures RunMigrationPair(c, first, second, true, net).1 <==>
            DrainAnswered(c, net.first.drain) && Answered(net.first) && Answered(net.second)
  {
    PairReplies(c, first, second, net);
    if RunMigrationPair(c, first, second, false, net).1 {
      BeginReplies(c, net.begin);
      BeginLeaves(c, net.begin);
      BothApply(BeginTransaction(c, net.begin).0, first, second, net);
    }
    ExecReplies(c, first, net.first);
    ExecReplies(ExecSql(c, first, net.first).0, second, net.second);
  }

  lemma {:induction false} BothApply(c: Conn, first: string, second: string, net: PairNet)
    requires !c.needsReset && !c.pendingRollback && ExecBoth(c, first, second, net).1
    ensures ExecBoth(c, first, second, net).0.server.data ==
            c.server.data + [Statement(first, []), Statement(second, [])]
  {
    var c1 := ExecSql(c, first, net.first).0;
    ExecReplies(c, first, net.first);
    ExecReplies(c1, second, net.second);
    Regroup(c.server.data, [Statement(first, [])], [Statement(second, [])]);
  }

  // ----- Row streams

  /** A request can be built: without arguments always, and with some when the
      statement has as many code-mode markers. */
  predicate CanBuild(sql: string, arguments: seq<int>) {
    arguments == [] || MarkerCount(sql, Code) == |arguments|
  }

  lemma {:induction false} BuildReplies(sql: string, arguments: seq<int>)
    ensures BuildRequest(sql, arguments).Ok? <==> CanBuild(sql, arguments)
    ensures arguments == [] ==> BuildRequest(sql, arguments) == Ok((sql, []))
  {
    RewriteCounts(sql, Code, 0);
  }

  /** A stream that cannot be started: it yields nothing, and fails unless the
      caller never polls it; only a drain that succeeds has changed the data. */
  lemma {:induction false} FetchRefused(c: Conn, sql: string, arguments: seq<int>, polls: nat, net: FetchNet)
    requires !(DrainAnswered(c, net.drain) && CanBuild(sql, arguments) && net.executed) || polls == 0
    ensures var (c2, items, ending) := FetchMany(c, sql, arguments, polls, net);
            && items == [] && ending == (if polls == 0 then Dropped else Failed)
            && (polls == 0 ==> c2 == c)
            && (polls > 0 ==>
                  c2.server.data == if DrainAnswered(c, net.drain) then DrainedData(c) else c.server.data)
  {
    DrainReplies(c, net.drain);
    BuildReplies(sql, arguments);
  }

  /** The client calls that a caller needs to be given the first `m` items. */
  function CallsUpTo(sets: seq<ResultSet>, m: nat): nat {
    if m == 0 || sets == [] then 0
    else
      match sets[0]
      case NoRows(_) => if m == 1 then 0 else 1 + CallsUpTo(sets[1..], m - 1)
      case Rows(rows) =>
        if m <= |rows| then m
        else if m == |rows| + 1 then |rows| + 1
        else |rows| + 2 + CallsUpTo(sets[1..], m - |rows| - 1)
  }

  lemma {:induction false} RowCalls(rows: seq<Row>, rest: seq<ResultSet>, m: nat)
    requires rows != [] && m > 0
    ensures CallsUpTo([Rows(rows)] + rest, m) == 1 + CallsUpTo([Rows(rows[1..])] + rest, m - 1)
  {
    assert ([Rows(rows)] + rest)[1..] == rest && ([Rows(rows[1..])] + rest)[1..] == rest;
  }

  /** How a stream on a response ends: dropped exactly when the caller polls no
      more than there are items and the calls for those succeed. */
  lemma {:induction false} PullEnding(sets: seq<ResultSet>, polls: nat, answered: nat)
    ensures Pull(sets, polls, answered).ending == Dropped <==>
            polls <= |Items(sets)| && CallsUpTo(sets, polls) <= answered
    decreases Size(sets), 1
  {
    if polls > 0 && sets != [] {
      match sets[0]
      case NoRows(_) => AdvanceEnding(sets, polls - 1, answered);
      case Rows(rows) =>
        if rows == [] {
          assert SetItems(sets[0]) == [Count(0)];
          if answered > 0 { AdvanceEnding(sets, polls - 1, answered - 1); }
        } else {
          var later := [Rows(rows[1..])] + sets[1..];
          assert sets == [Rows(rows)] + sets[1..];
          RowTaken(rows, sets[1..]);
          RowCalls(rows, sets[1..], polls);
          if answered > 0 { PullEnding(later, polls - 1, answered - 1); }
        }
    }
  }

  lemma {:induction false} AdvanceEnding(sets: seq<ResultSet>, polls: nat, answered: nat)
    requires sets != []
    ensures Advance(sets, polls, answered).ending == Dropped <==>
            polls == 0
            || (polls <= |Items(sets[1..])| && 1 + CallsUpTo(sets[1..], polls) <= answered)
    decreases Size(sets), 0
  {
    if polls > 0 && answered > 0 {
      PullEnding(sets[1..], polls, answered - 1);
    }
  }

  /** Something is left unread exactly when a stream comes to rest before its end. */
  lemma {:induction false} PullLeaves(sets: seq<ResultSet>, polls: nat, answered: nat)
    requires polls > 0 || sets != []
    ensures Pull(sets, polls, answered).unread == [] <==> Pull(sets, polls, answered).ending == Ended
    decreases Size(sets), 1
  {
    if polls > 0 && sets != [] {
      match sets[0]
      case NoRows(_) => AdvanceLeaves(sets, polls - 1, answered);
      case Rows(rows) =>
        if answered > 0 {
          if rows == [] {
            AdvanceLeaves(sets, polls - 1, answered - 1);
          } else {
            assert sets == [Rows(rows)] + sets[1..];
            RowTaken(rows, sets[1..]);
            PullLeaves([Rows(rows[1..])] + sets[1..], polls - 1, answered - 1);
          }
        }
    }
  }

  lemma {:induction false} AdvanceLeaves(sets: seq<ResultSet>, polls: nat, answered: nat)
    requires sets != []
    ensures Advance(sets, polls, answered).unread == [] <==> Advance(sets, polls, answered).ending == Ended
    decreases Size(sets), 0
  {
    if polls > 0 && answered > 0 {
      PullLeaves(sets[1..], polls, answered - 1);
    }
  }

  /** A stream that is started: how it ends, what it has yielded, what is left for
      the next drain, and what was sent. Without arguments it is the statement as
      it is. */
  lemma {:induction false} FetchReplies(c: Conn, sql: string, arguments: seq<int>, polls: nat, net: FetchNet)
    requires polls > 0 && DrainAnswered(c, net.drain) && CanBuild(sql, arguments) && net.executed
    ensures var (c2, items, ending) := FetchMany(c, sql, arguments, polls, net);
            var all := Items(net.sets);
            && items <= all
            && (ending == Ended <==> |all| < polls && Calls(net.sets) <= net.answered)
            && (ending == Dropped <==> polls <= |all| && CallsUpTo(net.sets, polls) <= net.answered)
            && (ending == Ended ==> items == all)
            && (ending == Ended <==> c2.server.unread == [])
            && (ending == Dropped ==> |items| == polls)
            && c2.needsReset == (ending != Ended) && !c2.pendingRollback && c2.depth == c.depth
    ensures var c2 := FetchMany(c, sql, arguments, polls, net).0;
            && (arguments == [] ==> c2.server.data == DrainedData(c) + [Statement(sql, [])])
            && exists text, params :: BuildRequest(sql, arguments) == Ok((text, params))
                                      && c2.server.data == DrainedData(c) + [Statement(text, params)]
  {
    DrainReplies(c, net.drain);
    BuildReplies(sql, arguments);
    PullYieldsPrefix(net.sets, polls, net.answered);
    PullEnding(net.sets, polls, net.answered);
    PullLeaves(net.sets, polls, net.answered);
    var (text, params) := BuildRequest(sql, arguments).value;
    assert BuildRequest(sql, arguments) == Ok((text, params));
  }
}
