/** `run_migration_pair`: all or nothing, at any depth. */
module MigrationPair {
  import opened Common
  import opened MarkerProperties
  import opened TdsServer
  import opened Connection
  import opened Transactions

  /** Both statements, in order. */
  function Both(a: Nest, first: string, second: string): Nest {
    a.(data := a.data + [Statement(first, []), Statement(second, [])])
  }

  /** The statements that took effect, of two run one after the other. */
  function Done(c: Conn, first: string, second: string, net: PairNet): seq<Statement> {
    var (c1, ok1) := ExecSql(c, first, net.first);
    var done1 := if Drain(c, net.first.drain).1 && net.first.executed then [Statement(first, [])] else [];
    if !ok1 then done1
    else if Drain(c1, net.second.drain).1 && net.second.executed then done1 + [Statement(second, [])]
    else done1
  }

  /** Inside a transaction the two statements need no drain, change only the
      data, and take effect one after the other. */
  lemma {:induction false} ExecBothInside(c: Conn, first: string, second: string, net: PairNet)
    requires Valid(c) && !c.pendingRollback && !c.needsReset
    ensures var (c2, ok) := ExecBoth(c, first, second, net);
            && Valid(c2) && c2.depth == c.depth && !c2.pendingRollback
            && c2.server.open == c.server.open
            && Abs(c2) == Nest(Abs(c).data + Done(c, first, second, net), Abs(c).stack)
            && (ok ==> Done(c, first, second, net) == [Statement(first, []), Statement(second, [])])
  {}

  /** The one case in which the pair is not all or nothing: the request that
      should end the transaction is sent and fails. */
  predicate EndFails(c: Conn, first: string, second: string, net: PairNet) {
    var (c1, ok1) := BeginTransaction(c, net.begin);
    && ok1 && !net.ended
    && (c.depth == 0 || !ExecBoth(c1, first, second, net).1)
  }

  /** Committing the level opened over `before` keeps the data. */
  lemma {:induction false} CommitCloses(c: Conn, before: seq<Data>, at: Data, reply: bool)
    requires Valid(c) && !c.pendingRollback && Abs(c).stack == before + [at]
    ensures var (c2, ok) := CommitTransaction(c, reply);
            && (ok <==> |before| > 0 || reply)
            && (ok ==> Valid(c2) && c2.depth == |before| && Abs(c2) == Nest(Abs(c).data, before))
            && (!ok ==> c2.depth == |before| + 1)
  {
    AbsDepth(c);
    CommitRefines(c, reply);
    assert (before + [at])[..|before|] == before;
  }

  /** Rolling it back restores the data. */
  lemma {:induction false} RollbackCloses(c: Conn, before: seq<Data>, at: Data, reply: bool)
    requires Valid(c) && !c.pendingRollback && Abs(c).stack == before + [at]
    ensures var (c2, ok) := RollbackTransaction(c, reply);
            && (ok <==> reply)
            && (ok ==> Valid(c2) && c2.depth == |before| && Abs(c2) == Nest(at, before))
            && (!ok ==> c2.depth == |before| + 1)
  {
    AbsDepth(c);
    RollbackRefines(c, reply);
    assert (before + [at])[..|before|] == before;
  }

  /** With a transaction, `Ok` means that both statements took effect in the
      enclosing scope, and an error that neither did; either way the depth and
      the enclosing levels are as before. That is so exactly unless a rollback
      queued earlier is sent first and fails, or the commit or the rollback that
      ends the pair is sent and fails. */
  lemma {:induction false} AllOrNothing(c: Conn, first: string, second: string, net: PairNet)
    requires Valid(c)
    ensures var (c2, ok) := RunMigrationPair(c, first, second, false, net);
            (&& Valid(c2) && c2.depth == c.depth
             && Abs(c2) == if ok then Both(Abs(c), first, second) else Abs(c))
            <==> !DrainBreaks(c, net.begin.drain) && !EndFails(c, first, second, net)
  {
    var (c1, ok1) := BeginTransaction(c, net.begin);
    BeginRefines(c, net.begin);
    DrainKeeps(c, net.begin.drain);
    AbsDepth(c);
    if ok1 {
      var (c2, ok2) := ExecBoth(c1, first, second, net);
      assert c1.depth == c.depth + 1 && !c1.needsReset && !c1.pendingRollback;
      ExecBothInside(c1, first, second, net);
      assert Abs(c1) == Nest(Abs(c).data, Abs(c).stack + [Abs(c).data]);
      if ok2 {
        CommitCloses(c2, Abs(c).stack, Abs(c).data, net.ended);
      } else {
        RollbackCloses(c2, Abs(c).stack, Abs(c).data, net.ended);
      }
    }
  }

  /** A rollback that fails after a failed statement is not queued, so the next
      drain does not recover it: the connection stays one level deeper, and a
      statement of the failed migration that took effect stays in effect. */
  lemma {:induction false} FailedRollbackIsNotQueued(c: Conn, first: string, second: string, net: PairNet)
    requires Valid(c) && BeginTransaction(c, net.begin).1 && !net.ended
    requires !ExecBoth(BeginTransaction(c, net.begin).0, first, second, net).1
    ensures var (c2, ok) := RunMigrationPair(c, first, second, false, net);
            && !ok
            && !c2.pendingRollback
            && c2.depth == c.depth + 1
            && Abs(c2).data == Abs(c).data + Done(BeginTransaction(c, net.begin).0, first, second, net)
  {
    DrainKeeps(c, net.begin.drain);
    BeginRefines(c, net.begin);
    ExecBothInside(BeginTransaction(c, net.begin).0, first, second, net);
  }

  /** Without a transaction the statements take effect one after the other, and
      an error can leave the first in effect. Driver and server stay in agreement
      exactly unless a rollback queued earlier is sent first and fails. */
  lemma {:induction false} WithoutTransaction(c: Conn, first: string, second: string, net: PairNet)
    requires Valid(c)
    ensures var (c2, ok) := RunMigrationPair(c, first, second, true, net);
            && (Valid(c2) <==> !DrainBreaks(c, net.first.drain))
            && (!DrainBreaks(c, net.first.drain) ==>
                  Abs(c2) == Nest(Abs(c).data + Done(c, first, second, net), Abs(c).stack))
            && Done(c, first, second, net) <= [Statement(first, []), Statement(second, [])]
            && (ok ==> |Done(c, first, second, net)| == 2)
  {
    var (c1, ok1) := ExecSql(c, first, net.first);
    ExecRefines(c, first, net.first);
    DoneFirst(c, first, second, net);
    if ok1 {
      ExecDrains(c, first, net.first);
      ExecRefines(c1, second, net.second);
      AppendBoth(Abs(c), Statement(first, []), ExecEffect(c1, second, net.second));
    }
  }

  /** A statement that succeeds leaves nothing to drain. */
  lemma {:induction false} ExecDrains(c: Conn, sql: string, net: ExecNet)
    requires ExecSql(c, sql, net).1
    ensures var c1 := ExecSql(c, sql, net).0;
            && !c1.pendingRollback && !c1.needsReset && (Valid(c) ==> !DrainBreaks(c, net.drain))
            && ExecEffect(c, sql, net) == Did(Statement(sql, []))
  {}

  /** What took effect, by the effects of the two statements. */
  lemma {:induction false} DoneFirst(c: Conn, first: string, second: string, net: PairNet)
    ensures var (c1, ok1) := ExecSql(c, first, net.first);
            var done := Done(c, first, second, net);
            if !ok1 then
              done == if ExecEffect(c, first, net.first).Did? then [Statement(first, [])] else []
            else
              && done == [Statement(first, [])]
                         + (if ExecEffect(c1, second, net.second).Did? then [Statement(second, [])] else [])
              && (ExecSql(c1, second, net.second).1 ==> |done| == 2)
  {}

  lemma {:induction false} AppendBoth(a: Nest, statement: Statement, effect: Effect)
    requires effect == Nothing || effect.Did?
    ensures Apply(Apply(a, Did(statement)), effect) ==
            Nest(a.data + ([statement] + (if effect.Did? then [effect.statement] else [])), a.stack)
  {
    if effect.Did? {
      assert a.data + [statement] + [effect.statement] == a.data + [statement, effect.statement];
    }
  }
}
