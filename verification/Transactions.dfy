/** Nested transactions by depth-named savepoints refine a stack of snapshots. */
module Transactions {
  import opened Common
  import opened Decimals
  import opened MarkerProperties
  import opened TdsServer
  import opened Connection

  // ----- The abstract machine

  /** The data, and the data as it was at each open `begin`, outermost first. */
  datatype Nest = Nest(data: Data, stack: seq<Data>)

  /** What an operation does to the nest. */
  datatype Effect =
    | Nothing
    | Begun
    | Committed
    | RolledBack
    | Abandoned
    | Did(statement: Statement)

  function Apply(a: Nest, effect: Effect): Nest {
    var n := |a.stack|;
    match effect
    case Nothing => a
    case Begun => Nest(a.data, a.stack + [a.data])
    case Committed => if n == 0 then a else Nest(a.data, a.stack[..n - 1])
    case RolledBack => if n == 0 then a else Nest(a.stack[n - 1], a.stack[..n - 1])
    case Abandoned => if n == 0 then a else Nest(a.stack[0], [])
    case Did(statement) => Nest(a.data + [statement], a.stack)
  }

  function Replay(a: Nest, effects: seq<Effect>): Nest
    decreases |effects|
  {
    if effects == [] then a else Replay(Apply(a, effects[0]), effects[1..])
  }

  // ----- What a connection stands for

  function SavedData(savepoints: seq<Savepoint>, level: nat): Data {
    var at := Find(savepoints, SavepointName(level));
    if at.Some? then savepoints[at.value].data else []
  }

  /** The snapshots of the levels below `depth`. */
  function Snapshots(base: Data, savepoints: seq<Savepoint>, depth: nat): seq<Data> {
    if depth == 0 then []
    else if depth == 1 then [base]
    else Snapshots(base, savepoints, depth - 1) + [SavedData(savepoints, depth - 1)]
  }

  function Abs(c: Conn): Nest {
    if c.server.open.None? then Nest(c.server.data, [])
    else
      var t := c.server.open.value;
      if c.pendingRollback then Nest(t.base, []) else Nest(c.server.data, Snapshots(t.base, t.savepoints, c.depth))
  }

  /** The savepoint of every open level is set, each after that of the level
      outside it. Stale duplicates may lie anywhere before. */
  predicate Levels(savepoints: seq<Savepoint>, depth: nat) {
    && (forall k :: 1 <= k < depth ==> Find(savepoints, SavepointName(k)).Some?)
    && (forall j, k :: 1 <= j < k < depth ==>
          Find(savepoints, SavepointName(j)).value < Find(savepoints, SavepointName(k)).value)
  }

  /** The driver's depth and the server's transaction agree. */
  predicate Valid(c: Conn) {
    if c.pendingRollback then c.depth == 0
    else
      && (c.depth == 0 <==> c.server.open.None?)
      && (c.depth > 0 ==> c.server.open.value.nested == 0 && Levels(c.server.open.value.savepoints, c.depth))
  }

  // ----- Savepoint names

  lemma {:induction false} SavepointNamesDiffer(j: nat, k: nat)
    requires SavepointName(j) == SavepointName(k)
    ensures j == k
  {
    assert SavepointName(j)[8..] == Decimal(j) && SavepointName(k)[8..] == Decimal(k);
    DecimalInjective(j, k);
  }

  lemma {:induction false} LastIndexPrefix(s: seq<Savepoint>, s2: seq<Savepoint>, name: string, n: nat)
    requires s <= s2 && n <= |s|
    ensures LastIndex(s2, name, n) == LastIndex(s, name, n)
  {
    if n > 0 {
      assert s2[n - 1] == s[n - 1];
      LastIndexPrefix(s, s2, name, n - 1);
    }
  }

  /** A new savepoint hides no other name, and is found under its own. */
  lemma {:induction false} FindAppended(s: seq<Savepoint>, sp: Savepoint, name: string)
    ensures Find(s + [sp], name) == if sp.name == name then Some(|s|) else Find(s, name)
  {
    LastIndexPrefix(s, s + [sp], name, |s|);
  }

  lemma {:induction false} LastIndexCut(s: seq<Savepoint>, name: string, n: nat, at: nat)
    requires n <= |s| && LastIndex(s, name, n) == Some(at)
    ensures forall m :: at < m <= n ==> LastIndex(s, name, m) == Some(at)
  {
    if n > 0 && at < n - 1 {
      LastIndexCut(s, name, n - 1, at);
    }
  }

  /** Cutting the log after a savepoint keeps every savepoint up to there. */
  lemma {:induction false} FindCut(s: seq<Savepoint>, name: string, cut: nat)
    requires cut <= |s| && Find(s, name).Some? && Find(s, name).value < cut
    ensures Find(s[..cut], name) == Find(s, name)
  {
    LastIndexCut(s, name, |s|, Find(s, name).value);
    LastIndexPrefix(s[..cut], s, name, cut);
  }

  // ----- Snapshots through each request

  lemma {:induction false} SnapshotsLength(base: Data, s: seq<Savepoint>, depth: nat)
    ensures |Snapshots(base, s, depth)| == depth
    ensures depth > 0 ==> Snapshots(base, s, depth)[0] == base
  {
    if depth > 1 {
      SnapshotsLength(base, s, depth - 1);
    }
  }

  /** Snapshots depend only on what is found under each name. */
  lemma {:induction false} SnapshotsSame(base: Data, s: seq<Savepoint>, s2: seq<Savepoint>, depth: nat)
    requires forall k :: 1 <= k < depth ==> SavedData(s2, k) == SavedData(s, k)
    ensures Snapshots(base, s2, depth) == Snapshots(base, s, depth)
  {
    if depth > 1 {
      SnapshotsSame(base, s, s2, depth - 1);
      assert SavedData(s2, depth - 1) == SavedData(s, depth - 1);
    }
  }

  lemma {:induction false} SaveKeepsLevels(base: Data, s: seq<Savepoint>, data: Data, depth: nat)
    requires depth >= 1 && Levels(s, depth)
    ensures var s2 := s + [Savepoint(SavepointName(depth), data)];
            && Levels(s2, depth + 1)
            && Snapshots(base, s2, depth + 1) == Snapshots(base, s, depth) + [data]
  {
    var sp := Savepoint(SavepointName(depth), data);
    var s2 := s + [sp];
    FindAppended(s, sp, SavepointName(depth));
    forall k | 1 <= k < depth
      ensures Find(s2, SavepointName(k)) == Find(s, SavepointName(k)) && SavedData(s2, k) == SavedData(s, k)
    {
      FindAppended(s, sp, SavepointName(k));
      if SavepointName(k) == SavepointName(depth) {
        SavepointNamesDiffer(k, depth);
      }
    }
    SnapshotsSame(base, s, s2, depth);
  }

  lemma {:induction false} CutKeepsLevels(base: Data, s: seq<Savepoint>, depth: nat)
    requires depth >= 2 && Levels(s, depth)
    ensures var s2 := CutLog(s, depth);
            && Levels(s2, depth - 1)
            && Snapshots(base, s2, depth - 1) == Snapshots(base, s, depth - 1)
  {
    var s2 := CutLog(s, depth);
    forall k | 1 <= k < depth - 1
      ensures Find(s2, SavepointName(k)) == Find(s, SavepointName(k)) && SavedData(s2, k) == SavedData(s, k)
    {
      CutKeepsLevel(s, depth, k);
    }
    SnapshotsSame(base, s, s2, depth - 1);
  }

  lemma {:induction false} CutKeepsLevel(s: seq<Savepoint>, depth: nat, k: nat)
    requires depth >= 2 && Levels(s, depth) && 1 <= k < depth - 1
    ensures var s2 := CutLog(s, depth);
            Find(s2, SavepointName(k)) == Find(s, SavepointName(k)) && SavedData(s2, k) == SavedData(s, k)
  {
    FindCut(s, SavepointName(k), Find(s, SavepointName(depth - 1)).value + 1);
  }

  // ----- Each operation

  /** The one way to lose track of the server: the queued rollback of an open
      transaction is sent and fails. */
  predicate DrainBreaks(c: Conn, net: DrainNet) {
    c.pendingRollback && c.server.open.Some? && (c.needsReset ==> net.closed) && !net.rolledBack
  }

  lemma {:induction false} DrainKeeps(c: Conn, net: DrainNet)
    requires Valid(c)
    ensures Valid(Drain(c, net).0) <==> !DrainBreaks(c, net)
    ensures !DrainBreaks(c, net) ==> Abs(Drain(c, net).0) == Abs(c)
    ensures Drain(c, net).1 ==> !DrainBreaks(c, net)
    ensures Drain(c, net).1 ==> !Drain(c, net).0.pendingRollback && Drain(c, net).0.server.data == Abs(c).data
    ensures Drain(c, net).1 ==> !Drain(c, net).0.needsReset
    ensures Drain(c, net).0.depth == c.depth
  {}

  function BeginEffect(c: Conn, net: BeginNet): Effect {
    if BeginTransaction(c, net).1 then Begun else Nothing
  }

  lemma {:induction false} BeginRefines(c: Conn, net: BeginNet)
    requires Valid(c)
    ensures Valid(BeginTransaction(c, net).0) <==> !DrainBreaks(c, net.drain)
    ensures !DrainBreaks(c, net.drain) ==>
              Abs(BeginTransaction(c, net).0) == Apply(Abs(c), BeginEffect(c, net))
  {
    DrainKeeps(c, net.drain);
    if Drain(c, net.drain).1 {
      OpenRefines(Drain(c, net.drain).0, net.begun);
    }
  }

  lemma {:induction false} OpenRefines(c: Conn, reply: bool)
    requires Valid(c) && !c.pendingRollback
    ensures var (c2, ok) := OpenLevel(c, reply);
            Valid(c2) && Abs(c2) == if ok then Apply(Abs(c), Begun) else Abs(c)
  {
    if c.depth > 0 {
      var t := c.server.open.value;
      SaveKeepsLevels(t.base, t.savepoints, c.server.data, c.depth);
    }
  }

  function CommitEffect(c: Conn, reply: bool): Effect {
    if CommitTransaction(c, reply).1 then Committed else Nothing
  }

  lemma {:induction false} CommitRefines(c: Conn, reply: bool)
    requires Valid(c)
    ensures Valid(CommitTransaction(c, reply).0)
    ensures Abs(CommitTransaction(c, reply).0) == Apply(Abs(c), CommitEffect(c, reply))
  {
    if c.depth > 0 {
      var t := c.server.open.value;
      SnapshotsLength(t.base, t.savepoints, c.depth);
      if c.depth > 1 {
        SnapshotsLength(t.base, t.savepoints, c.depth - 1);
      }
    }
  }

  function RollbackEffect(c: Conn, reply: bool): Effect {
    if RollbackTransaction(c, reply).1 then RolledBack else Nothing
  }

  lemma {:induction false} RollbackRefines(c: Conn, reply: bool)
    requires Valid(c)
    ensures Valid(RollbackTransaction(c, reply).0)
    ensures Abs(RollbackTransaction(c, reply).0) == Apply(Abs(c), RollbackEffect(c, reply))
    ensures RollbackTransaction(c, reply).1 <==> c.depth == 0 || reply
  {
    if c.depth == 1 {
      var t := c.server.open.value;
      SnapshotsLength(t.base, t.savepoints, 1);
    } else if c.depth > 1 {
      InnerRollbackRefines(c, reply);
    }
  }

  /** The log of savepoints once the innermost level has been rolled back to. */
  function CutLog(savepoints: seq<Savepoint>, depth: nat): seq<Savepoint>
    requires depth >= 2 && Levels(savepoints, depth)
  {
    savepoints[..Find(savepoints, SavepointName(depth - 1)).value + 1]
  }

  lemma {:induction false} RollbackToLevel(c: Conn)
    requires Valid(c) && c.depth > 1
    ensures var t := c.server.open.value;
            var open := Some(t.(savepoints := CutLog(t.savepoints, c.depth)));
            var server := Sent(c.server).(data := SavedData(t.savepoints, c.depth - 1), open := open);
            RollbackTransaction(c, true) == (c.(server := server, depth := c.depth - 1), true)
  {}

  lemma {:induction false} InnerRollbackRefines(c: Conn, reply: bool)
    requires Valid(c) && c.depth > 1
    ensures Valid(RollbackTransaction(c, reply).0)
    ensures Abs(RollbackTransaction(c, reply).0) == Apply(Abs(c), RollbackEffect(c, reply))
    ensures RollbackTransaction(c, reply).1 <==> reply
  {
    if reply {
      var t := c.server.open.value;
      RollbackToLevel(c);
      CutKeepsLevels(t.base, t.savepoints, c.depth);
    }
  }

  lemma {:induction false} AbandonRefines(c: Conn)
    requires Valid(c)
    ensures Valid(QueueRollback(c))
    ensures Abs(QueueRollback(c)) == Apply(Abs(c), Abandoned)
  {
    if c.server.open.Some? && !c.pendingRollback {
      var t := c.server.open.value;
      SnapshotsLength(t.base, t.savepoints, c.depth);
    }
  }

  function ExecEffect(c: Conn, sql: string, net: ExecNet): Effect {
    if Drain(c, net.drain).1 && net.executed then Did(Statement(sql, [])) else Nothing
  }

  lemma {:induction false} ExecRefines(c: Conn, sql: string, net: ExecNet)
    requires Valid(c)
    ensures Valid(ExecSql(c, sql, net).0) <==> !DrainBreaks(c, net.drain)
    ensures !DrainBreaks(c, net.drain) ==> Abs(ExecSql(c, sql, net).0) == Apply(Abs(c), ExecEffect(c, sql, net))
  {
    DrainKeeps(c, net.drain);
  }

  function FetchEffect(c: Conn, sql: string, arguments: seq<int>, polls: nat, net: FetchNet): Effect {
    var request := BuildRequest(sql, arguments);
    if polls > 0 && Drain(c, net.drain).1 && request.Ok? && net.executed
    then Did(Statement(request.value.0, request.value.1)) else Nothing
  }

  lemma {:induction false} FetchRefines(c: Conn, sql: string, arguments: seq<int>, polls: nat, net: FetchNet)
    requires Valid(c)
    ensures Valid(FetchMany(c, sql, arguments, polls, net).0) <==> polls == 0 || !DrainBreaks(c, net.drain)
    ensures polls == 0 || !DrainBreaks(c, net.drain) ==>
              Abs(FetchMany(c, sql, arguments, polls, net).0) ==
              Apply(Abs(c), FetchEffect(c, sql, arguments, polls, net))
  {
    DrainKeeps(c, net.drain);
  }

  // ----- Every run

  function EffectOf(c: Conn, op: Op): Effect {
    match op
    case BeginOp(net) => BeginEffect(c, net)
    case CommitOp(reply) => CommitEffect(c, reply)
    case RollbackOp(reply) => RollbackEffect(c, reply)
    case AbandonOp => Abandoned
    case ExecOp(sql, net) => ExecEffect(c, sql, net)
    case FetchOp(sql, arguments, polls, net) => FetchEffect(c, sql, arguments, polls, net)
  }

  predicate Breaks(c: Conn, op: Op) {
    match op
    case BeginOp(net) => DrainBreaks(c, net.drain)
    case ExecOp(sql, net) => DrainBreaks(c, net.drain)
    case FetchOp(sql, arguments, polls, net) => polls > 0 && DrainBreaks(c, net.drain)
    case _ => false
  }

  /** One operation, whatever the network answers, keeps the driver and the
      server in agreement unless a queued rollback fails, and then not. */
  lemma {:induction false} StepRefines(c: Conn, op: Op)
    requires Valid(c)
    ensures Valid(Step(c, op)) <==> !Breaks(c, op)
    ensures !Breaks(c, op) ==> Abs(Step(c, op)) == Apply(Abs(c), EffectOf(c, op))
  {
    match op
    case BeginOp(net) => BeginRefines(c, net);
    case CommitOp(reply) => CommitRefines(c, reply);
    case RollbackOp(reply) => RollbackRefines(c, reply);
    case AbandonOp => AbandonRefines(c);
    case ExecOp(sql, net) => ExecRefines(c, sql, net);
    case FetchOp(sql, arguments, polls, net) => FetchRefines(c, sql, arguments, polls, net);
  }

  predicate RunBreaks(c: Conn, ops: seq<Op>)
    decreases |ops|
  {
    ops != [] && (Breaks(c, ops[0]) || RunBreaks(Step(c, ops[0]), ops[1..]))
  }

  function Effects(c: Conn, ops: seq<Op>): seq<Effect>
    decreases |ops|
  {
    if ops == [] then [] else [EffectOf(c, ops[0])] + Effects(Step(c, ops[0]), ops[1..])
  }

  /** Every run refines the snapshot stack: whatever mix of operations and of
      failures, the connection stands for what the effects of its operations
      make of the nest. */
  lemma {:induction false} RunRefines(c: Conn, ops: seq<Op>)
    requires Valid(c) && !RunBreaks(c, ops)
    ensures Valid(Run(c, ops))
    ensures Abs(Run(c, ops)) == Replay(Abs(c), Effects(c, ops))
    decreases |ops|
  {
    if ops != [] {
      StepRefines(c, ops[0]);
      RunRefines(Step(c, ops[0]), ops[1..]);
      var effects := Effects(c, ops);
      assert effects[0] == EffectOf(c, ops[0]) && effects[1..] == Effects(Step(c, ops[0]), ops[1..]);
    }
  }

  // ----- Inner rollback

  /** The nest never comes out of its first `depth` levels. */
  predicate StaysInside(a: Nest, effects: seq<Effect>, depth: nat)
    decreases |effects|
  {
    depth <= |a.stack| && (effects != [] ==> StaysInside(Apply(a, effects[0]), effects[1..], depth))
  }

  lemma {:induction false} OuterLevelsKept(a: Nest, effects: seq<Effect>, depth: nat)
    requires StaysInside(a, effects, depth)
    ensures depth <= |Replay(a, effects).stack|
    ensures Replay(a, effects).stack[..depth] == a.stack[..depth]
    decreases |effects|
  {
    if effects != [] {
      var b := Apply(a, effects[0]);
      OuterLevelsKept(b, effects[1..], depth);
      assert b.stack[..depth] == a.stack[..depth];
    }
  }

  /** On the abstract machine a rollback undoes its begin. */
  lemma {:induction false} NestUndone(a: Nest, effects: seq<Effect>)
    requires var n := |a.stack| + 1;
             StaysInside(Apply(a, Begun), effects, n) && |Replay(Apply(a, Begun), effects).stack| == n
    ensures Apply(Replay(Apply(a, Begun), effects), RolledBack) == a
  {
    var n, b := |a.stack| + 1, Apply(a, Begun);
    OuterLevelsKept(b, effects, n);
    var stack := Replay(b, effects).stack;
    assert stack == stack[..n] && b.stack == b.stack[..n];
    assert b.stack[..n - 1] == a.stack;
  }

  /** A rollback undoes exactly the work since its matching begin. After a begin
      that succeeds at any depth, and any run that stays inside it and closes
      what it opens, by commits or by rollbacks, a rollback that succeeds leaves
      the data and all outer levels as they were before the begin. */
  lemma {:induction false} RollbackUndoesToBegin(c: Conn, net: BeginNet, ops: seq<Op>, reply: bool)
    requires Valid(c) && BeginTransaction(c, net).1
    requires var c1 := BeginTransaction(c, net).0;
             && !RunBreaks(c1, ops)
             && StaysInside(Abs(c1), Effects(c1, ops), c.depth + 1)
             && Run(c1, ops).depth == c.depth + 1
             && RollbackTransaction(Run(c1, ops), reply).1
    ensures var c3 := RollbackTransaction(Run(BeginTransaction(c, net).0, ops), reply).0;
            && Valid(c3)
            && Abs(c3) == Abs(c)
            && c3.server.data == Abs(c).data
            && c3.depth == c.depth
  {
    var c1 := BeginTransaction(c, net).0;
    var c2 := Run(c1, ops);
    var c3 := RollbackTransaction(c2, reply).0;
    AbsDepth(c);
    assert Valid(c1) && Abs(c1) == Apply(Abs(c), Begun) by {
      DrainKeeps(c, net.drain);
      BeginRefines(c, net);
    }
    RunRefines(c1, ops);
    AbsDepth(c2);
    NestUndone(Abs(c), Effects(c1, ops));
    RollbackRefines(c2, reply);
    AbsDepth(c3);
    assert !c3.pendingRollback;
  }

  /** The number of open levels is the driver's depth. */
  lemma {:induction false} AbsDepth(c: Conn)
    requires Valid(c)
    ensures |Abs(c).stack| == c.depth
    ensures !c.pendingRollback ==> Abs(c).data == c.server.data
  {
    if c.server.open.Some? {
      SnapshotsLength(c.server.open.value.base, c.server.open.value.savepoints, c.depth);
    }
  }

  // ----- Abandoned transactions

  /** Whatever fails, a queued rollback means depth zero. */
  predicate PendingAtZero(c: Conn) {
    c.pendingRollback ==> c.depth == 0
  }

  lemma {:induction false} RunPending(c: Conn, ops: seq<Op>)
    requires PendingAtZero(c)
    ensures PendingAtZero(Run(c, ops))
    decreases |ops|
  {
    if ops != [] {
      RunPending(Step(c, ops[0]), ops[1..]);
    }
  }

  /** In every reachable state with a queued rollback, a commit or a rollback
      reports success and sends nothing, so nothing can make the abandoned work
      permanent before the drain. */
  lemma {:induction false} NothingEndsWhilePending(data: Data, ops: seq<Op>, reply: bool)
    requires Run(Connected(data), ops).pendingRollback
    ensures var c := Run(Connected(data), ops);
            CommitTransaction(c, reply) == (c, true) && RollbackTransaction(c, reply) == (c, true)
  {
    RunPending(Connected(data), ops);
  }

  /** The flag stays set through a run: its commits and rollbacks are silent,
      and every drain it starts ends at a close that fails. */
  predicate StaysPending(c: Conn, ops: seq<Op>)
    decreases |ops|
  {
    c.pendingRollback && (ops != [] ==> StaysPending(Step(c, ops[0]), ops[1..]))
  }

  /** An operation that leaves the flag set has changed neither the data nor the
      transaction. */
  lemma {:induction false} StepWhilePending(c: Conn, op: Op)
    requires Valid(c) && c.pendingRollback && Step(c, op).pendingRollback
    ensures var c2 := Step(c, op); Valid(c2) && c2.server.data == c.server.data && c2.server.open == c.server.open
  {}

  lemma {:induction false} RunWhilePending(c: Conn, ops: seq<Op>)
    requires Valid(c) && StaysPending(c, ops)
    ensures var c2 := Run(c, ops);
            Valid(c2) && c2.pendingRollback && c2.server.data == c.server.data && c2.server.open == c.server.open
    decreases |ops|
  {
    if ops != [] {
      assert Step(c, ops[0]).pendingRollback;
      StepWhilePending(c, ops[0]);
      RunWhilePending(Step(c, ops[0]), ops[1..]);
    }
  }

  /** Abandoning undoes everything since the outermost begin. Whatever happened
      inside, and whatever is called afterwards while the rollback stays queued,
      the drain that succeeds brings the server's data back to what it was then,
      before any later statement or begin takes effect. */
  lemma {:induction false} AbandonUndoesEverything(
    c: Conn, net: BeginNet, ops: seq<Op>, later: seq<Op>, drain: DrainNet)
    requires Valid(c) && c.depth == 0 && BeginTransaction(c, net).1
    requires var c1 := BeginTransaction(c, net).0;
             !RunBreaks(c1, ops) && StaysInside(Abs(c1), Effects(c1, ops), 1)
    requires var c2 := QueueRollback(Run(BeginTransaction(c, net).0, ops));
             StaysPending(c2, later) && Drain(Run(c2, later), drain).1
    ensures var c2 := QueueRollback(Run(BeginTransaction(c, net).0, ops));
            var c3 := Drain(Run(c2, later), drain).0;
            c3.server.data == Abs(c).data && c3.server.open.None? && Valid(c3)
  {
    var c2 := QueueRollback(Run(BeginTransaction(c, net).0, ops));
    AbandonedBase(c, net, ops);
    RunWhilePending(c2, later);
    DrainKeeps(Run(c2, later), drain);
  }

  /** An abandoned connection stands for the data before its outermost begin. */
  lemma {:induction false} AbandonedBase(c: Conn, net: BeginNet, ops: seq<Op>)
    requires Valid(c) && c.depth == 0 && BeginTransaction(c, net).1
    requires var c1 := BeginTransaction(c, net).0;
             !RunBreaks(c1, ops) && StaysInside(Abs(c1), Effects(c1, ops), 1)
    ensures var c2 := QueueRollback(Run(BeginTransaction(c, net).0, ops));
            Valid(c2) && Abs(c2) == Nest(Abs(c).data, [])
  {
    var c1 := BeginTransaction(c, net).0;
    var c2 := Run(c1, ops);
    DrainKeeps(c, net.drain);
    BeginRefines(c, net);
    RunRefines(c1, ops);
    AbsDepth(c);
    NestAbandoned(Abs(c), Effects(c1, ops));
    AbandonRefines(c2);
  }

  /** On the abstract machine an abandonment undoes the outermost begin. */
  lemma {:induction false} NestAbandoned(a: Nest, effects: seq<Effect>)
    requires a.stack == [] && StaysInside(Apply(a, Begun), effects, 1)
    ensures Apply(Replay(Apply(a, Begun), effects), Abandoned) == a
  {
    var b := Apply(a, Begun);
    OuterLevelsKept(b, effects, 1);
    assert b.stack[..1][0] == a.data;
    assert Replay(b, effects).stack[..1][0] == Replay(b, effects).stack[0];
  }

  /** A queued rollback that fails is forgotten: the transaction stays open at
      depth zero, and the next begin nests inside it, so that its commit ends
      nothing on the server. */
  lemma {:induction false} FailedDrainNestsNextBegin(data: Data)
    ensures var good, bad := DrainNet(true, true), DrainNet(true, false);
            var ops := [BeginOp(BeginNet(good, true)), AbandonOp, BeginOp(BeginNet(bad, true)),
                        BeginOp(BeginNet(good, true)), CommitOp(true)];
            var c := Run(Connected(data), ops);
            c.depth == 0 && !c.pendingRollback && c.server.open.Some? && !Valid(c)
  {
    var good, bad := DrainNet(true, true), DrainNet(true, false);
    var begin := BeginOp(BeginNet(good, true));
    var c1 := Step(Connected(data), begin);
    var c2 := Step(c1, AbandonOp);
    var c3 := Step(c2, BeginOp(BeginNet(bad, true)));
    var c4 := Step(c3, begin);
    var c5 := Step(c4, CommitOp(true));
    assert c4.server.open == Some(Transaction(data, 1, []));
    assert Run(c5, []) == c5;
    assert Run(c4, [CommitOp(true)]) == c5;
    assert Run(c3, [begin, CommitOp(true)]) == c5;
    assert Run(c2, [BeginOp(BeginNet(bad, true)), begin, CommitOp(true)]) == c5;
    assert Run(c1, [AbandonOp, BeginOp(BeginNet(bad, true)), begin, CommitOp(true)]) == c5;
  }
}
