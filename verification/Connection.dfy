/** What each operation of a connection does to its three fields and to the
    server. What the network answers is an input. */
module Connection {
  import opened Common
  import opened Decimals
  import opened MarkerProperties
  import opened TdsServer

  datatype Conn = Conn(depth: nat, needsReset: bool, pendingRollback: bool, server: Server)

  /** The connection after an operation, and whether it returned `Ok`. */
  type Outcome = (Conn, bool)

  function SavepointName(level: nat): string {
    "sqlx_sp_" + Decimal(level)
  }

  // ----- Pending work

  datatype DrainNet = DrainNet(closed: bool, rolledBack: bool)

  /** `drain_pending`. Each flag is cleared before its request is sent. */
  function Drain(c: Conn, net: DrainNet): Outcome {
    var (c1, ok1) := DrainReset(c, net.closed);
    if !ok1 then (c1, false) else DrainRollback(c1, net.rolledBack)
  }

  function DrainReset(c: Conn, closed: bool): Outcome {
    if !c.needsReset then (c, true)
    else
      var (server, ok) := CloseQuery(c.server, closed);
      (c.(needsReset := false, server := server), ok)
  }

  function DrainRollback(c: Conn, rolledBack: bool): Outcome {
    if !c.pendingRollback then (c, true)
    else
      var (server, ok) := Rollback(c.server, rolledBack);
      (c.(pendingRollback := false, server := server), ok)
  }

  // ----- Transactions

  datatype BeginNet = BeginNet(drain: DrainNet, begun: bool)

  function BeginTransaction(c: Conn, net: BeginNet): Outcome {
    var (c1, ok1) := Drain(c, net.drain);
    if !ok1 then (c1, false)
    else OpenLevel(c1, net.begun)
  }

  /** Begins, or sets the savepoint of the level outside. */
  function OpenLevel(c: Conn, reply: bool): Outcome {
    var (server, ok) := if c.depth == 0 then Begin(c.server, reply)
                        else Save(c.server, SavepointName(c.depth), reply);
    (c.(server := server, depth := if ok then c.depth + 1 else c.depth), ok)
  }

  /** Commits without draining; only the outermost commit sends a request. */
  function CommitTransaction(c: Conn, reply: bool): Outcome {
    if c.depth == 0 then (c, true)
    else
      var (server, ok) := if c.depth == 1 then Commit(c.server, reply) else (c.server, true);
      (c.(server := server, depth := if ok then c.depth - 1 else c.depth), ok)
  }

  /** Rolls back without draining. */
  function RollbackTransaction(c: Conn, reply: bool): Outcome {
    if c.depth == 0 then (c, true)
    else
      var (server, ok) := if c.depth == 1 then Rollback(c.server, reply)
                          else RollbackTo(c.server, SavepointName(c.depth - 1), reply);
      (c.(server := server, depth := if ok then c.depth - 1 else c.depth), ok)
  }

  function QueueRollback(c: Conn): Conn {
    c.(pendingRollback := true, depth := 0)
  }

  // ----- Statements

  /** The replies that `exec_sql` meets: `answered` calls of `advance` succeed
      before one fails. */
  datatype ExecNet = ExecNet(drain: DrainNet, executed: bool, sets: seq<ResultSet>, answered: nat, closed: bool)

  function ExecSql(c: Conn, sql: string, net: ExecNet): Outcome {
    var (c1, ok1) := Drain(c, net.drain);
    if !ok1 then (c1, false)
    else
      var (server, ok2) := Execute(c1.server, Statement(sql, []), net.sets, net.executed);
      if !ok2 then (c1.(server := server), false)
      else if net.answered < |net.sets| then (c1.(server := server.(unread := net.sets[net.answered..])), false)
      else
        var (closed, ok3) := CloseQuery(server.(unread := []), net.closed);
        (c1.(server := closed), ok3)
  }

  // ----- Row streams

  datatype Item = RowItem(row: Row) | Count(affected: nat)

  /** How a stream came to rest: read to its end, dropped by the caller, or
      ended by an error. */
  datatype Ending = Ended | Dropped | Failed

  datatype Pulled = Pulled(items: seq<Item>, unread: seq<ResultSet>, ending: Ending)

  function Yielded(item: Item, p: Pulled): Pulled {
    p.(items := [item] + p.items)
  }

  function AffectedBy(affected: Option<nat>): nat {
    if affected.Some? then affected.value else 0
  }

  function Size(sets: seq<ResultSet>): nat {
    if sets == [] then 0
    else (match sets[0] case Rows(rows) => |rows| + 1 case NoRows(_) => 1) + Size(sets[1..])
  }

  /** The `fetch_many` loop on what is left of a response, for a caller that
      polls `polls` times, when `answered` client calls succeed before one fails. */
  function Pull(unread: seq<ResultSet>, polls: nat, answered: nat): Pulled
    decreases Size(unread), 1
  {
    if polls == 0 then Pulled([], unread, Dropped)
    else if unread == [] then Pulled([], [], Ended)
    else
      match unread[0]
      case NoRows(affected) => Yielded(Count(AffectedBy(affected)), Advance(unread, polls - 1, answered))
      case Rows(rows) =>
        if answered == 0 then Pulled([], unread, Failed)
        else if rows == [] then Yielded(Count(0), Advance(unread, polls - 1, answered - 1))
        else
          assert Size([Rows(rows[1..])] + unread[1..]) < Size(unread) by {
            assert ([Rows(rows[1..])] + unread[1..])[1..] == unread[1..];
          }
          Yielded(RowItem(rows[0]), Pull([Rows(rows[1..])] + unread[1..], polls - 1, answered - 1))
  }

  /** After a statement's last item: the caller polls again, or drops the stream. */
  function Advance(unread: seq<ResultSet>, polls: nat, answered: nat): Pulled
    requires unread != []
    decreases Size(unread), 0
  {
    if polls == 0 then Pulled([], unread, Dropped)
    else if answered == 0 then Pulled([], unread, Failed)
    else Pull(unread[1..], polls, answered - 1)
  }

  datatype FetchNet = FetchNet(drain: DrainNet, executed: bool, sets: seq<ResultSet>, answered: nat)

  /** `fetch_many`, from its creation to the end of the stream. */
  function FetchMany(c: Conn, sql: string, arguments: seq<int>, polls: nat, net: FetchNet): (Conn, seq<Item>, Ending) {
    if polls == 0 then (c, [], Dropped)
    else
      var (c1, ok1) := Drain(c, net.drain);
      if !ok1 then (c1, [], Failed)
      else
        var request := BuildRequest(sql, arguments);
        if request.Err? then (c1, [], Failed)
        else
          var statement := Statement(request.value.0, request.value.1);
          var (server, ok2) := Execute(c1.server, statement, net.sets, net.executed);
          if !ok2 then (c1.(server := server), [], Failed)
          else
            var p := Pull(net.sets, polls, net.answered);
            (c1.(server := server.(unread := p.unread), needsReset := p.ending != Ended), p.items, p.ending)
  }

  // ----- Migrations

  datatype PairNet = PairNet(begin: BeginNet, first: ExecNet, second: ExecNet, ended: bool)

  /** The two statements of a migration, one after the other. */
  function ExecBoth(c: Conn, first: string, second: string, net: PairNet): Outcome {
    var (c1, ok1) := ExecSql(c, first, net.first);
    if !ok1 then (c1, false) else ExecSql(c1, second, net.second)
  }

  /** `run_migration_pair`. */
  function RunMigrationPair(c: Conn, first: string, second: string, noTx: bool, net: PairNet): Outcome {
    if noTx then ExecBoth(c, first, second, net)
    else
      var (c1, ok1) := BeginTransaction(c, net.begin);
      if !ok1 then (c1, false)
      else
        var (c2, ok2) := ExecBoth(c1, first, second, net);
        if ok2 then CommitTransaction(c2, net.ended)
        else (RollbackTransaction(c2, net.ended).0, false)
  }

  // ----- Runs

  datatype Op =
    | BeginOp(beginNet: BeginNet)
    | CommitOp(commitReply: bool)
    | RollbackOp(rollbackReply: bool)
    | AbandonOp
    | ExecOp(execSql: string, execNet: ExecNet)
    | FetchOp(fetchSql: string, arguments: seq<int>, polls: nat, fetchNet: FetchNet)

  function Step(c: Conn, op: Op): Conn {
    match op
    case BeginOp(net) => BeginTransaction(c, net).0
    case CommitOp(reply) => CommitTransaction(c, reply).0
    case RollbackOp(reply) => RollbackTransaction(c, reply).0
    case AbandonOp => QueueRollback(c)
    case ExecOp(sql, net) => ExecSql(c, sql, net).0
    case FetchOp(sql, arguments, polls, net) => FetchMany(c, sql, arguments, polls, net).0
  }

  function Run(c: Conn, ops: seq<Op>): Conn
    decreases |ops|
  {
    if ops == [] then c else Run(Step(c, ops[0]), ops[1..])
  }

  /** A new connection to a server with some data. */
  function Connected(data: Data): Conn {
    Conn(0, false, false, Server(data, None, [], 0))
  }
}
