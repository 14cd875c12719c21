/** The client and the connection as objects whose methods update their fields. */
module Driver {
  import opened Common
  import opened MarkerProperties
  import opened TdsServer
  import opened Connection

  /** Where a response stands after `execute` or `advance`. */
  datatype StatementResult = RowsResult | NoRowsResult(affected: Option<nat>) | EndResult

  function ResultOf(unread: seq<ResultSet>): StatementResult {
    if unread == [] then EndResult
    else match unread[0] case Rows(_) => RowsResult case NoRows(affected) => NoRowsResult(affected)
  }

  /** The TDS client. `reply` is what the network answers to a request. */
  class TdsClient {
    var server: Server

    constructor (server: Server)
      ensures this.server == server
    {
      this.server := server;
    }

    method BeginTransaction(reply: bool) returns (ok: bool)
      modifies this
      ensures (server, ok) == Begin(old(server), reply)
    {
      var outcome := Begin(server, reply);
      server, ok := outcome.0, outcome.1;
    }

    method SaveTransaction(name: string, reply: bool) returns (ok: bool)
      modifies this
      ensures (server, ok) == Save(old(server), name, reply)
    {
      var outcome := Save(server, name, reply);
      server, ok := outcome.0, outcome.1;
    }

    method CommitTransaction(reply: bool) returns (ok: bool)
      modifies this
      ensures (server, ok) == Commit(old(server), reply)
    {
      var outcome := Commit(server, reply);
      server, ok := outcome.0, outcome.1;
    }

    method RollbackTransaction(name: Option<string>, reply: bool) returns (ok: bool)
      modifies this
      ensures (server, ok) ==
              if name.None? then Rollback(old(server), reply) else RollbackTo(old(server), name.value, reply)
    {
      var outcome := if name.None? then Rollback(server, reply) else RollbackTo(server, name.value, reply);
      server, ok := outcome.0, outcome.1;
    }

    method ExecuteStatement(statement: Statement, sets: seq<ResultSet>, reply: bool)
      returns (ok: bool, result: StatementResult)
      modifies this
      ensures (server, ok) == Execute(old(server), statement, sets, reply)
      ensures result == ResultOf(server.unread)
    {
      var outcome := Execute(server, statement, sets, reply);
      server, ok := outcome.0, outcome.1;
      result := ResultOf(server.unread);
    }

    /** Moves past the current result set. */
    method Advance(reply: bool) returns (ok: bool, result: StatementResult)
      requires server.unread != []
      modifies this
      ensures ok == reply
      ensures server == if reply then old(server).(unread := old(server).unread[1..]) else old(server)
      ensures result == ResultOf(server.unread)
    {
      ok := reply;
      if reply {
        server := server.(unread := server.unread[1..]);
      }
      result := ResultOf(server.unread);
    }

    /** The next row of the current result set, or none at its end. */
    method NextRow(reply: bool) returns (ok: bool, row: Option<Row>)
      requires server.unread != [] && server.unread[0].Rows?
      modifies this
      ensures ok == reply
      ensures var rows := old(server).unread[0].rows;
              if reply && rows != [] then
                && row == Some(rows[0])
                && server == old(server).(unread := [Rows(rows[1..])] + old(server).unread[1..])
              else row == None && server == old(server)
    {
      ok, row := reply, None;
      var rows := server.unread[0].rows;
      if reply && rows != [] {
        row := Some(rows[0]);
        server := server.(unread := [Rows(rows[1..])] + server.unread[1..]);
      }
    }

    method Close(reply: bool) returns (ok: bool)
      modifies this
      ensures (server, ok) == CloseQuery(old(server), reply)
    {
      var outcome := CloseQuery(server, reply);
      server, ok := outcome.0, outcome.1;
    }
  }

  class MssqlConnection {
    const client: TdsClient
    var transactionDepth: nat
    var needsReset: bool
    var pendingRollback: bool

    constructor (client: TdsClient)
      ensures this.client == client
      ensures State() == Conn(0, false, false, client.server)
    {
      this.client := client;
      transactionDepth, needsReset, pendingRollback := 0, false, false;
    }

    ghost function State(): Conn
      reads this, client
    {
      Conn(transactionDepth, needsReset, pendingRollback, client.server)
    }

    method QueueRollback()
      modifies this
      ensures State() == Connection.QueueRollback(old(State()))
    {
      pendingRollback := true;
      transactionDepth := 0;
    }

    method DrainPending(net: DrainNet) returns (ok: bool)
      modifies this, client
      ensures (State(), ok) == Drain(old(State()), net)
    {
      if needsReset {
        needsReset := false;
        ok := client.Close(net.closed);
        if !ok {
          return;
        }
      }
      if pendingRollback {
        pendingRollback := false;
        ok := client.RollbackTransaction(None, net.rolledBack);
        return;
      }
      ok := true;
    }

    method BeginTransaction(net: BeginNet) returns (ok: bool)
      modifies this, client
      ensures (State(), ok) == Connection.BeginTransaction(old(State()), net)
    {
      ok := DrainPending(net.drain);
      if !ok {
        return;
      }
      if transactionDepth == 0 {
        ok := client.BeginTransaction(net.begun);
      } else {
        ok := client.SaveTransaction(SavepointName(transactionDepth), net.begun);
      }
      if !ok {
        return;
      }
      transactionDepth := transactionDepth + 1;
    }

    method CommitTransaction(reply: bool) returns (ok: bool)
      modifies this, client
      ensures (State(), ok) == Connection.CommitTransaction(old(State()), reply)
    {
      if transactionDepth == 0 {
        return true;
      }
      if transactionDepth == 1 {
        ok := client.CommitTransaction(reply);
        if !ok {
          return;
        }
      }
      transactionDepth := transactionDepth - 1;
      ok := true;
    }

    method RollbackTransaction(reply: bool) returns (ok: bool)
      modifies this, client
      ensures (State(), ok) == Connection.RollbackTransaction(old(State()), reply)
    {
      if transactionDepth == 0 {
        return true;
      }
      if transactionDepth == 1 {
        ok := client.RollbackTransaction(None, reply);
      } else {
        ok := client.RollbackTransaction(Some(SavepointName(transactionDepth - 1)), reply);
      }
      if !ok {
        return;
      }
      transactionDepth := transactionDepth - 1;
    }

    /** Runs a statement, discarding its results. */
    method ExecSql(sql: string, net: ExecNet) returns (ok: bool)
      modifies this, client
      ensures (State(), ok) == Connection.ExecSql(old(State()), sql, net)
    {
      ok := DrainPending(net.drain);
      if !ok {
        return;
      }
      ghost var drained := State();
      var result;
      ok, result := client.ExecuteStatement(Statement(sql, []), net.sets, net.executed);
      if !ok {
        return;
      }
      ghost var executed := client.server;
      var answered := 0;
      while result != EndResult
        invariant answered <= |net.sets| && answered <= net.answered
        invariant client.server == executed.(unread := net.sets[answered..])
        invariant result == ResultOf(client.server.unread)
        invariant State() == drained.(server := client.server)
        decreases |net.sets| - answered
      {
        ok, result := client.Advance(answered < net.answered);
        if !ok {
          return;
        }
        answered := answered + 1;
      }
      assert net.sets[answered..] == [];
      ok := client.Close(net.closed);
    }

    /** Streams the rows and counts of a statement to a caller that polls `polls`
        times. The guard stays armed unless the response is read to its end. */
    method FetchMany(sql: string, arguments: seq<int>, polls: nat, net: FetchNet)
      returns (items: seq<Item>, ending: Ending)
      modifies this, client
      ensures (State(), items, ending) == Connection.FetchMany(old(State()), sql, arguments, polls, net)
    {
      items := [];
      if polls == 0 {
        return [], Dropped;
      }
      var ok := DrainPending(net.drain);
      if !ok {
        return [], Failed;
      }
      var request := BuildRequest(sql, arguments);
      if request.Err? {
        return [], Failed;
      }
      var result;
      ok, result := client.ExecuteStatement(Statement(request.value.0, request.value.1), net.sets, net.executed);
      if !ok {
        return [], Failed;
      }
      needsReset := true;  // what dropping the armed guard leaves behind
      items, ending := ReadResponse(polls, net.answered, result);
      if ending == Ended {
        needsReset := false;  // the guard was disarmed
      }
    }

    /** The rows of the current result set. `more` says that the set was read to
        its end; otherwise the stream came to rest. */
    method ReadRows(given: seq<Item>, polls: nat, answered: nat)
      returns (items: seq<Item>, left: nat, replies: nat, ending: Option<Ending>)
      requires polls > 0 && client.server.unread != [] && client.server.unread[0].Rows?
      modifies client
      ensures client.server == old(client.server).(unread := client.server.unread)
      ensures var whole := Resumed(given, Pull(old(client.server.unread), polls, answered));
              if ending.Some? then whole == Pulled(items, client.server.unread, ending.value)
              else
                && client.server.unread != [] && left > 0
                && Size(client.server.unread) <= Size(old(client.server.unread))
                && whole == Resumed(items + [Count(0)], Connection.Advance(client.server.unread, left - 1, replies))
    {
      items, left, replies, ending := given, polls, answered, None;
      ghost var whole := Resumed(given, Pull(client.server.unread, polls, answered));
      while true
        invariant left > 0 && client.server.unread != [] && client.server.unread[0].Rows?
        invariant Resumed(items, Pull(client.server.unread, left, replies)) == whole
        invariant client.server == old(client.server).(unread := client.server.unread)
        invariant Size(client.server.unread) <= Size(old(client.server.unread))
        decreases Size(client.server.unread)
      {
        var ok, row := client.NextRow(replies > 0);
        if !ok {
          ending := Some(Failed);
          return;
        }
        replies := replies - 1;
        if row.None? {
          return;
        }
        items := items + [RowItem(row.value)];
        left := left - 1;
        if left == 0 {
          AfterNothing(items, client.server.unread, Dropped);
          ending := Some(Dropped);
          return;
        }
      }
    }

    /** The loop of `fetch_many`, from the first result of a response. */
    method ReadResponse(polls: nat, answered: nat, first: StatementResult) returns (items: seq<Item>, ending: Ending)
      requires polls > 0 && first == ResultOf(client.server.unread)
      modifies client
      ensures Pulled(items, client.server.unread, ending) == Pull(old(client.server.unread), polls, answered)
      ensures client.server == old(client.server).(unread := client.server.unread)
    {
      items := [];
      var result, left, replies := first, polls, answered;
      ghost var whole := Pull(client.server.unread, polls, answered);
      while true
        invariant left > 0 && result == ResultOf(client.server.unread)
        invariant Resumed(items, Pull(client.server.unread, left, replies)) == whole
        invariant client.server == old(client.server).(unread := client.server.unread)
        decreases Size(client.server.unread)
      {
        match result {
          case RowsResult =>
            var rest: Option<Ending>;
            items, left, replies, rest := ReadRows(items, left, replies);
            if rest.Some? {
              ending := rest.value;
              return;
            }
            items := items + [Count(0)];
            left := left - 1;
          case NoRowsResult(affected) =>
            CountStep(items, client.server.unread, left, replies);
            items := items + [Count(AffectedBy(affected))];
            left := left - 1;
          case EndResult =>
            AfterNothing(items, [], Ended);
            return items, Ended;
        }
        AfterNothing(items, client.server.unread, if left == 0 then Dropped else Failed);
        if left == 0 {
          return items, Dropped;
        }
        var ok;
        ok, result := client.Advance(replies > 0);
        if !ok {
          return items, Failed;
        }
        replies := replies - 1;
      }
    }

    /** Runs a migration and its bookkeeping statement. */
    method RunMigrationPair(first: string, second: string, noTx: bool, net: PairNet) returns (ok: bool)
      modifies this, client
      ensures (State(), ok) == Connection.RunMigrationPair(old(State()), first, second, noTx, net)
    {
      if noTx {
        ok := ExecSql(first, net.first);
        if ok {
          ok := ExecSql(second, net.second);
        }
        return;
      }
      ok := BeginTransaction(net.begin);
      if !ok {
        return;
      }
      ok := ExecSql(first, net.first);
      if ok {
        ok := ExecSql(second, net.second);
      }
      if ok {
        ok := CommitTransaction(net.ended);
      } else {
        var _ := RollbackTransaction(net.ended);
      }
    }
  }

  /** The items given so far, in front of what the rest of the stream gives. */
  function Resumed(items: seq<Item>, p: Pulled): Pulled {
    p.(items := items + p.items)
  }

  lemma {:induction false} AfterNothing(items: seq<Item>, unread: seq<ResultSet>, ending: Ending)
    ensures Resumed(items, Pulled([], unread, ending)) == Pulled(items, unread, ending)
  {}

  lemma {:induction false} CountStep(items: seq<Item>, unread: seq<ResultSet>, left: nat, replies: nat)
    requires left > 0 && unread != [] && unread[0].NoRows?
    ensures var item := Count(AffectedBy(unread[0].affected));
            Resumed(items, Pull(unread, left, replies)) ==
            Resumed(items + [item], Connection.Advance(unread, left - 1, replies))
  {}
}
