/** The other side of a connection: the server's data, its open transaction with
    the savepoints set in it, and the result sets not yet read. */
module TdsServer {
  import opened Common
  import opened MarkerProperties

  datatype Statement = Statement(text: string, params: seq<Param<int>>)

  /** The data of a database, as the statements in effect on it, oldest first. */
  type Data = seq<Statement>

  type Row = seq<string>

  datatype ResultSet = Rows(rows: seq<Row>) | NoRows(affected: Option<nat>)

  datatype Savepoint = Savepoint(name: string, data: Data)

  /** An open transaction: the data to go back to, how many more `begin`s than
      `commit`s it has seen after the first, and its savepoints in order. A name
      may be set more than once. */
  datatype Transaction = Transaction(base: Data, nested: nat, savepoints: seq<Savepoint>)

  /** `unread` lists what is left of a response, the current result set first;
      `overlaps` counts the requests, other than closing a response, that were
      sent before one had been read to its end. */
  datatype Server = Server(data: Data, open: Option<Transaction>, unread: seq<ResultSet>, overlaps: nat)

  /** The server after a request, and whether the client saw it succeed. */
  type Reply = (Server, bool)

  function Sent(s: Server): Server {
    if s.unread == [] then s else s.(overlaps := s.overlaps + 1)
  }

  /** The most recent savepoint called `name` among the first `n`. */
  function LastIndex(savepoints: seq<Savepoint>, name: string, n: nat): (at: Option<nat>)
    requires n <= |savepoints|
    ensures at.Some? ==> at.value < n && savepoints[at.value].name == name
  {
    if n == 0 then None
    else if savepoints[n - 1].name == name then Some(n - 1)
    else LastIndex(savepoints, name, n - 1)
  }

  function Find(savepoints: seq<Savepoint>, name: string): (at: Option<nat>)
    ensures at.Some? ==> at.value < |savepoints| && savepoints[at.value].name == name
  {
    LastIndex(savepoints, name, |savepoints|)
  }

  // Every request succeeds only if `reply` says so; a request that fails has no
  // effect on the data or on the transaction.

  function Begin(s: Server, reply: bool): Reply {
    var sent := Sent(s);
    if !reply then (sent, false)
    else if s.open.None? then (sent.(open := Some(Transaction(s.data, 0, []))), true)
    else (sent.(open := Some(s.open.value.(nested := s.open.value.nested + 1))), true)
  }

  function Save(s: Server, name: string, reply: bool): Reply {
    var sent := Sent(s);
    if !reply || s.open.None? then (sent, false)
    else
      var t := s.open.value;
      (sent.(open := Some(t.(savepoints := t.savepoints + [Savepoint(name, s.data)]))), true)
  }

  function Commit(s: Server, reply: bool): Reply {
    var sent := Sent(s);
    if !reply || s.open.None? then (sent, false)
    else if s.open.value.nested == 0 then (sent.(open := None), true)
    else (sent.(open := Some(s.open.value.(nested := s.open.value.nested - 1))), true)
  }

  function Rollback(s: Server, reply: bool): Reply {
    var sent := Sent(s);
    if !reply || s.open.None? then (sent, false)
    else (sent.(data := s.open.value.base, open := None), true)
  }

  /** Rolling back to a name uses its most recent savepoint, which stays set;
      later ones are gone. */
  function RollbackTo(s: Server, name: string, reply: bool): Reply {
    var sent := Sent(s);
    if !reply || s.open.None? then (sent, false)
    else
      var t := s.open.value;
      var at := Find(t.savepoints, name);
      if at.None? then (sent, false)
      else
        var kept := t.savepoints[..at.value + 1];
        (sent.(data := t.savepoints[at.value].data, open := Some(t.(savepoints := kept))), true)
  }

  function Execute(s: Server, statement: Statement, sets: seq<ResultSet>, reply: bool): Reply {
    var sent := Sent(s);
    if !reply then (sent, false) else (sent.(data := s.data + [statement], unread := sets), true)
  }

  function CloseQuery(s: Server, reply: bool): Reply {
    if !reply then (s, false) else (s.(unread := []), true)
  }
}
