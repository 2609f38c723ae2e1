/** conn.go and tx.go: what the autoCommit flag means for committed data, over all runs. */
module Transactions {
  import opened Wire
  import opened Requests
  import opened Session

  // ----- the flag on the wire

  predicate Executes(r: Request) { r.Prepare? || r.PrepareAndExecute? || r.Execute? }

  /** Statements travel with the connection's flag, version requests always with 1. */
  predicate Flagged(r: Request, autoCommit: bool) {
    (Executes(r) ==> r.autoCommit == autoCommit) && (r.DbVersion? ==> r.autoCommit)
  }

  predicate AllFlagged(xs: seq<Exchange>, autoCommit: bool) {
    xs == [] || (Flagged(xs[0].request, autoCommit) && AllFlagged(xs[1..], autoCommit))
  }

  lemma {:induction false} FlaggedConcat(xs: seq<Exchange>, ys: seq<Exchange>, ac: bool)
    ensures AllFlagged(xs + ys, ac) <==> AllFlagged(xs, ac) && AllFlagged(ys, ac)
  {
    hide Flagged;
    if xs == [] {
      assert xs + ys == ys;
    } else {
      assert (xs + ys)[1..] == xs[1..] + ys;
      FlaggedConcat(xs[1..], ys, ac);
    }
  }

  lemma FlaggedOne(x: Exchange, h: int, ac: bool)
    ensures AllFlagged([x], ac) <==> Flagged(x.request, ac)
    ensures AllFlagged([], ac) && AllFlagged(Released(h), ac)
  {
    assert [x][1..] == [];
    if h > 0 {
      assert Released(h)[1..] == [];
    }
  }

  lemma LastIdFlagged(ac: bool, b: Answer)
    ensures AllFlagged(LastIdScript(ac, b), ac)
  {
    hide AllFlagged, Released;
    var x := Exchange(PrepareAndExecute(LAST_ID_SQL, ac), b);
    var rest := if b.Granted? then Released(b.handle) else [];
    FlaggedOne(x, if b.Granted? then b.handle else 0, ac);
    FlaggedConcat([x], rest, ac);
  }

  /** Every statement of every call carries the connection's flag, nested queries included. */
  lemma ScriptFlagged(st: State, op: Op)
    requires Applies(st, op)
    ensures AllFlagged(Script(st, op), st.autoCommit)
  {
    hide AllFlagged, Released, LastIdScript;
    FlaggedOne(Exchange(ConClose, ACK), 0, st.autoCommit);
    if Script(st, op) != [] {
      var x := Script(st, op)[0];
      FlaggedOne(x, 0, st.autoCommit);
      if op.StmtExec? && op.a.Granted? {
        var rest := if op.args.Text? then Released(op.a.handle) else [];
        var lastId := if st.stmts[op.k].Inserts() then LastIdScript(st.autoCommit, op.b) else [];
        FlaggedOne(x, op.a.handle, st.autoCommit);
        LastIdFlagged(st.autoCommit, op.b);
        FlaggedConcat([x], rest + lastId, st.autoCommit);
        FlaggedConcat(rest, lastId, st.autoCommit);
      } else if op.ExecContext? && op.a.Granted? && op.ctx.Live? {
        var lastId := if op.a.Inserts() then LastIdScript(st.autoCommit, op.b) else [];
        FlaggedOne(x, op.a.handle, st.autoCommit);
        LastIdFlagged(st.autoCommit, op.b);
        FlaggedConcat([x], lastId + Released(op.a.handle), st.autoCommit);
        FlaggedConcat(lastId, Released(op.a.handle), st.autoCommit);
      } else if op.StmtClose? {
        FlaggedOne(x, st.stmts[op.k].handle, st.autoCommit);
      } else if op.RowsClose? {
        FlaggedOne(x, st.rows[op.k].handle, st.autoCommit);
      } else {
        assert [x] + [] == [x];
        assert Script(st, op) == [x];
      }
    }
  }

  /** From request `from` on, every statement received carries this flag. */
  predicate FlaggedSince(log: seq<Request>, from: nat, autoCommit: bool) {
    forall i | from <= i < |log| :: Flagged(log[i], autoCommit)
  }

  lemma {:induction false} ServeAllLog(s: Server, xs: seq<Exchange>, ac: bool)
    requires AllFlagged(xs, ac)
    ensures s.log <= ServeAll(s, xs).log && FlaggedSince(ServeAll(s, xs).log, |s.log|, ac)
    decreases |xs|
  {
    hide Flagged, Effect;
    if xs != [] {
      ServeAllLog(Serve(s, xs[0]), xs[1..], ac);
    }
  }

  /** The flag as the latest of Begin and successful ends set it. */
  function Latest(autoCommit: bool, ops: seq<Op>): bool
    decreases |ops|
  {
    if ops == [] then autoCommit
    else
      var earlier := Latest(autoCommit, ops[..|ops| - 1]);
      match ops[|ops| - 1]
      case Begin => false
      case BeginTx(expired) => earlier && expired
      case Commit(a) => earlier || a.Granted?
      case Rollback(a) => earlier || a.Granted?
      case _ => earlier
  }

  lemma {:induction false} LatestFirst(ac: bool, ops: seq<Op>)
    requires ops != []
    ensures Latest(ac, ops) == Latest(Latest(ac, ops[..1]), ops[1..])
    decreases |ops|
  {
    if |ops| > 1 {
      var init := ops[..|ops| - 1];
      LatestFirst(ac, init);
      assert init[..1] == ops[..1] && init[1..] == ops[1..][..|ops| - 2];
      assert ops[1..][|ops| - 2] == ops[|ops| - 1];
    } else {
      assert ops[..1] == ops;
    }
  }

  lemma StepFlag(st: State, op: Op)
    requires Applies(st, op) && !st.closed
    ensures Step(st, op).autoCommit == Latest(st.autoCommit, [op])
    ensures Step(st, op).closed <==> op.Close?
  {
    hide Script, ServeAll;
    assert [op][..0] == [];
  }

  lemma {:induction false} ClosedStays(st: State, ops: seq<Op>)
    requires EnabledAll(st, ops) && st.closed
    ensures Run(st, ops).closed
    decreases |ops|
  {
    hide Script, ServeAll, Admissible;
    if ops != [] {
      ClosedStays(Step(st, ops[0]), ops[1..]);
    }
  }

  /** In every run on an open connection, autoCommit is what the latest of open, Begin and successful ends made it. */
  lemma {:induction false} FlagIsLatest(st: State, ops: seq<Op>)
    requires EnabledAll(st, ops) && !Run(st, ops).closed
    ensures Run(st, ops).autoCommit == Latest(st.autoCommit, ops)
    decreases |ops|
  {
    hide Step, Admissible, Applies;
    if ops != [] {
      var next := Step(st, ops[0]);
      if st.closed {
        ClosedStays(st, ops);
      }
      StepFlag(st, ops[0]);
      FlagIsLatest(next, ops[1..]);
      LatestFirst(st.autoCommit, ops);
      assert ops[..1] == [ops[0]];
    }
  }

  /** So every statement of a call in any run carries that flag. */
  lemma StatementsCarryLatest(st: State, before: seq<Op>, op: Op)
    requires EnabledAll(st, before) && !Run(st, before).closed && Enabled(Run(st, before), op)
    ensures var t := Run(st, before);
      FlaggedSince(Step(t, op).server.log, |t.server.log|, Latest(st.autoCommit, before))
  {
    hide Run, EnabledAll, Latest, Script, AllFlagged, FlaggedSince, Client, Admissible;
    var t := Run(st, before);
    FlagIsLatest(st, before);
    ScriptFlagged(t, op);
    ServeAllLog(t.server, Script(t, op), t.autoCommit);
  }

  // ----- a transaction

  /** Calls after which the transaction is over. */
  predicate Ends(op: Op) {
    (op.Commit? && op.a.Granted?) || (op.Rollback? && op.a.Granted?) || op.Close?
  }

  predicate NoEnd(ops: seq<Op>) {
    ops == [] || (!Ends(ops[0]) && NoEnd(ops[1..]))
  }

  /** The statements the server performs, in order. */
  function PerformedBy(s: Server, x: Exchange): seq<Bytes> {
    if x.answer.Refused? then []
    else if x.request.PrepareAndExecute? then [x.request.sql]
    else if x.request.Execute? && x.request.handle in s.open then [s.open[x.request.handle]]
    else []
  }

  function PerformedAll(s: Server, xs: seq<Exchange>): seq<Bytes>
    decreases |xs|
  {
    if xs == [] then [] else PerformedBy(s, xs[0]) + PerformedAll(Serve(s, xs[0]), xs[1..])
  }

  /** A version request that commits while something is pending. */
  predicate Disturbs(s: Server, x: Exchange) {
    x.answer.Granted? && x.request.DbVersion? && x.request.autoCommit && s.versionCommits && s.pending != []
  }

  predicate DisturbsAny(s: Server, xs: seq<Exchange>)
    decreases |xs|
  {
    xs != [] && (Disturbs(s, xs[0]) || DisturbsAny(Serve(s, xs[0]), xs[1..]))
  }

  predicate EndsExchange(x: Exchange) {
    x.answer.Granted? && (x.request.EndTran? || x.request.ConClose?)
  }

  predicate NoneEnds(xs: seq<Exchange>) {
    xs == [] || (!EndsExchange(xs[0]) && NoneEnds(xs[1..]))
  }

  /** Committed and pending statements together, in order. */
  function All(s: Server): seq<Bytes> { s.committed + s.pending }

  lemma ServeData(s: Server, x: Exchange)
    requires Flagged(x.request, false) && !EndsExchange(x)
    ensures All(Serve(s, x)) == All(s) + PerformedBy(s, x)
    ensures s.committed <= Serve(s, x).committed
    ensures Serve(s, x).committed == s.committed <==> !Disturbs(s, x)
  {
    if x.answer.Granted? {
      if x.request.DbVersion? {
        assert s.committed + s.pending + [] == s.committed + s.pending;
      } else if PerformedBy(s, x) != [] {
        assert s.committed + (s.pending + PerformedBy(s, x)) == s.committed + s.pending + PerformedBy(s, x);
      } else {
        assert All(s) + [] == All(s);
      }
    } else {
      assert All(s) + [] == All(s);
    }
  }

  lemma {:induction false} ServeAllData(s: Server, xs: seq<Exchange>)
    requires AllFlagged(xs, false) && NoneEnds(xs)
    ensures All(ServeAll(s, xs)) == All(s) + PerformedAll(s, xs)
    ensures s.committed <= ServeAll(s, xs).committed
    ensures ServeAll(s, xs).committed == s.committed <==> !DisturbsAny(s, xs)
    decreases |xs|
  {
    hide Serve, Flagged, EndsExchange, PerformedBy, Disturbs, All;
    if xs == [] {
      assert All(s) + [] == All(s);
    } else {
      ServeData(s, xs[0]);
      ServeAllData(Serve(s, xs[0]), xs[1..]);
      Join(All(s), PerformedBy(s, xs[0]), PerformedAll(Serve(s, xs[0]), xs[1..]));
    }
  }

  lemma Join(a: seq<Bytes>, b: seq<Bytes>, c: seq<Bytes>)
    ensures a + b + c == a + (b + c)
  {
  }

  lemma {:induction false} NoneEndsConcat(xs: seq<Exchange>, ys: seq<Exchange>)
    ensures NoneEnds(xs + ys) <==> NoneEnds(xs) && NoneEnds(ys)
  {
    hide EndsExchange;
    if xs == [] {
      assert xs + ys == ys;
    } else {
      assert (xs + ys)[1..] == xs[1..] + ys;
      NoneEndsConcat(xs[1..], ys);
    }
  }

  lemma NoneEndsOne(x: Exchange, h: int)
    ensures NoneEnds([x]) <==> !EndsExchange(x)
    ensures NoneEnds([]) && NoneEnds(Released(h))
  {
    assert [x][1..] == [];
    if h > 0 {
      assert Released(h)[1..] == [];
    }
  }

  lemma LastIdNoEnd(ac: bool, b: Answer)
    ensures NoneEnds(LastIdScript(ac, b))
  {
    hide NoneEnds, Released;
    var x := Exchange(PrepareAndExecute(LAST_ID_SQL, ac), b);
    NoneEndsOne(x, if b.Granted? then b.handle else 0);
    NoneEndsConcat([x], if b.Granted? then Released(b.handle) else []);
  }

  lemma ScriptNoEnd(st: State, op: Op)
    requires Applies(st, op) && !Ends(op)
    ensures NoneEnds(Script(st, op))
  {
    hide NoneEnds, Released, LastIdScript;
    NoneEndsOne(Exchange(ConClose, ACK), 0);
    if Script(st, op) != [] {
      var x := Script(st, op)[0];
      NoneEndsOne(x, 0);
      if op.StmtExec? && op.a.Granted? {
        var rest := if op.args.Text? then Released(op.a.handle) else [];
        var lastId := if st.stmts[op.k].Inserts() then LastIdScript(st.autoCommit, op.b) else [];
        NoneEndsOne(x, op.a.handle);
        LastIdNoEnd(st.autoCommit, op.b);
        NoneEndsConcat([x], rest + lastId);
        NoneEndsConcat(rest, lastId);
      } else if op.ExecContext? && op.a.Granted? && op.ctx.Live? {
        var lastId := if op.a.Inserts() then LastIdScript(st.autoCommit, op.b) else [];
        NoneEndsOne(x, op.a.handle);
        LastIdNoEnd(st.autoCommit, op.b);
        NoneEndsConcat([x], lastId + Released(op.a.handle));
        NoneEndsConcat(lastId, Released(op.a.handle));
      } else if op.StmtClose? {
        NoneEndsOne(x, st.stmts[op.k].handle);
      } else if op.RowsClose? {
        NoneEndsOne(x, st.rows[op.k].handle);
      } else {
        assert [x] + [] == [x];
        assert Script(st, op) == [x];
      }
    }
  }

  // ----- over runs

  ghost function Statements(st: State, ops: seq<Op>): seq<Bytes>
    requires EnabledAll(st, ops)
    decreases |ops|
  {
    if ops == [] then []
    else PerformedAll(st.server, Script(st, ops[0])) + Statements(Step(st, ops[0]), ops[1..])
  }

  ghost predicate Disturbed(st: State, ops: seq<Op>)
    requires EnabledAll(st, ops)
    decreases |ops|
  {
    ops != [] && (DisturbsAny(st.server, Script(st, ops[0])) || Disturbed(Step(st, ops[0]), ops[1..]))
  }

  lemma StepStaysIn(st: State, op: Op)
    requires Applies(st, op) && !st.autoCommit && !st.closed && !Ends(op)
    ensures !Step(st, op).autoCommit && !Step(st, op).closed
  {
    hide Script, ServeAll;
  }

  lemma StepData(st: State, op: Op)
    requires Applies(st, op) && !st.autoCommit && !Ends(op)
    ensures All(Step(st, op).server) == All(st.server) + PerformedAll(st.server, Script(st, op))
    ensures st.server.committed <= Step(st, op).server.committed
    ensures Step(st, op).server.committed == st.server.committed <==> !DisturbsAny(st.server, Script(st, op))
  {
    hide Script, ServeAll, PerformedAll, DisturbsAny, All, NoneEnds, AllFlagged;
    ScriptFlagged(st, op);
    ScriptNoEnd(st, op);
    ServeAllData(st.server, Script(st, op));
  }

  lemma StepLog(st: State, op: Op)
    requires Applies(st, op)
    ensures st.server.log <= Step(st, op).server.log
    ensures FlaggedSince(Step(st, op).server.log, |st.server.log|, st.autoCommit)
  {
    hide Script, ServeAll, AllFlagged, FlaggedSince;
    ScriptFlagged(st, op);
    ServeAllLog(st.server, Script(st, op), st.autoCommit);
  }

  lemma SinceJoin(a: seq<Request>, b: seq<Request>, c: seq<Request>, ac: bool)
    requires a <= b <= c && FlaggedSince(b, |a|, ac) && FlaggedSince(c, |b|, ac)
    ensures a <= c && FlaggedSince(c, |a|, ac)
  {
    hide Flagged;
    assert forall i | |a| <= i < |b| :: c[i] == b[i];
  }

  /** Until an end succeeds, every statement the server receives carries flag 0. */
  lemma {:induction false} FlagOffInside(st: State, ops: seq<Op>)
    requires EnabledAll(st, ops) && NoEnd(ops) && !st.autoCommit && !st.closed
    ensures st.server.log <= Run(st, ops).server.log
    ensures FlaggedSince(Run(st, ops).server.log, |st.server.log|, false)
    decreases |ops|
  {
    hide Step, Script, Applies, Admissible, Ends, Flagged;
    if ops != [] {
      var next := Step(st, ops[0]);
      StepStaysIn(st, ops[0]);
      StepLog(st, ops[0]);
      FlagOffInside(next, ops[1..]);
      SinceJoin(st.server.log, next.server.log, Run(st, ops).server.log, false);
    }
  }

  /**
    From the moment autoCommit is off until an end succeeds: it stays off, nothing is lost or
    reordered, and the committed statements stay as they were exactly when no version
    request commits in between.
   */
  lemma {:induction false} InsideTransaction(st: State, ops: seq<Op>)
    requires EnabledAll(st, ops) && NoEnd(ops) && !st.autoCommit && !st.closed
    ensures var t := Run(st, ops);
      && !t.autoCommit && !t.closed
      && All(t.server) == All(st.server) + Statements(st, ops)
      && st.server.committed <= t.server.committed
      && (t.server.committed == st.server.committed <==> !Disturbed(st, ops))
    decreases |ops|
  {
    hide Step, Script, Applies, Admissible, PerformedAll, DisturbsAny, All, Ends;
    if ops == [] {
      assert All(st.server) + [] == All(st.server);
    } else {
      StepStaysIn(st, ops[0]);
      StepData(st, ops[0]);
      var next := Step(st, ops[0]);
      InsideTransaction(next, ops[1..]);
      Join(All(st.server), PerformedAll(st.server, Script(st, ops[0])), Statements(next, ops[1..]));
    }
  }

  lemma EndEffect(st: State, op: Op)
    requires !st.closed && (op.Commit? || op.Rollback?) && op.a.Granted?
    ensures Step(st, op).autoCommit && Step(st, op).server.pending == []
    ensures op.Commit? ==> Step(st, op).server.committed == All(st.server)
    ensures op.Rollback? ==> Step(st, op).server.committed == st.server.committed
  {
    var x := Script(st, op)[0];
    assert Script(st, op) == [x] && [x][1..] == [];
    assert ServeAll(st.server, [x]) == Serve(st.server, x);
  }

  /** Rollback restores the data of Begin exactly when no version request committed in between. */
  lemma RollbackRestores(st: State, ops: seq<Op>, a: Answer)
    requires EnabledAll(st, ops) && NoEnd(ops) && !st.autoCommit && !st.closed && a.Granted?
    ensures var t := Step(Run(st, ops), Rollback(a));
      && (t.server.committed == st.server.committed <==> !Disturbed(st, ops))
      && t.server.pending == [] && t.autoCommit
  {
    hide Step, Run, EnabledAll, Disturbed, Statements, NoEnd;
    InsideTransaction(st, ops);
    EndEffect(Run(st, ops), Rollback(a));
  }

  /**
    The other side is reached from every new connection whose server lets the flag of a
    version request commit: Begin, one statement, Ping, and Rollback leaves it committed.
   */
  lemma PingCommits(st: State, sql: Bytes, stmtType: int, a: Answer)
    requires Initial(st) && st.server.versionCommits && a.Granted?
    ensures var u := Step(st, Begin);
      var ops := [StatementCall(sql, stmtType), Ping(ACK)];
      && EnabledAll(u, ops) && NoEnd(ops) && Disturbed(u, ops)
      && Step(Run(u, ops), Rollback(a)).server.committed == st.server.committed + [sql]
  {
    hide Script, DisturbsAny, Admissible, Serve, ServeAll, Client, All;
    var u := Step(st, Begin);
    var first, ping := StatementCall(sql, stmtType), Ping(ACK);
    var v := Step(u, first);
    Began(st);
    StatementEffect(u, sql, stmtType);
    PingEffect(v);
    TwoCalls(u, first, ping);
    EndEffect(Step(v, ping), Rollback(a));
  }

  lemma Began(st: State)
    requires !st.closed
    ensures Step(st, Begin) == st.(autoCommit := false)
  {
  }

  lemma OneCall(st: State, op: Op)
    requires Enabled(st, op)
    ensures EnabledAll(st, [op]) && Run(st, [op]) == Step(st, op)
    ensures NoEnd([op]) <==> !Ends(op)
    ensures Disturbed(st, [op]) <==> DisturbsAny(st.server, Script(st, op))
  {
    hide Step, Script, DisturbsAny, Admissible, Applies, Ends;
    assert [op][1..] == [] && EnabledAll(st, [op]);
    assert Run(st, [op]) == Run(Step(st, op), []);
  }

  lemma TwoCalls(st: State, first: Op, second: Op)
    requires Enabled(st, first) && Enabled(Step(st, first), second)
    ensures EnabledAll(st, [first, second])
    ensures Run(st, [first, second]) == Step(Step(st, first), second)
    ensures NoEnd([first, second]) <==> !Ends(first) && !Ends(second)
    ensures Disturbed(st, [first, second])
       <==> DisturbsAny(st.server, Script(st, first))
            || DisturbsAny(Step(st, first).server, Script(Step(st, first), second))
  {
    hide Step, Script, DisturbsAny, Admissible, Applies, Ends;
    var next := Step(st, first);
    OneCall(next, second);
    assert [first, second][1..] == [second];
    assert EnabledAll(st, [first, second]);
    assert Run(st, [first, second]) == Run(next, [second]);
  }

  /** A query that opens no handle. */
  function StatementCall(sql: Bytes, stmtType: int): Op {
    QueryContext(Live, Text(sql), Granted(0, stmtType))
  }

  lemma StatementEffect(st: State, sql: Bytes, stmtType: int)
    requires !st.autoCommit && !st.closed && 0 !in st.server.open
    ensures var op := StatementCall(sql, stmtType);
      && Enabled(st, op) && !Ends(op) && !Step(st, op).closed && !Step(st, op).autoCommit
      && Step(st, op).server.pending == st.server.pending + [sql]
      && Step(st, op).server.committed == st.server.committed
      && Step(st, op).server.versionCommits == st.server.versionCommits
  {
    var op := StatementCall(sql, stmtType);
    var x := Exchange(PrepareAndExecute(sql, false), Granted(0, stmtType));
    assert Script(st, op) == [x] && [x][1..] == [];
    assert ServeAll(st.server, [x]) == Serve(st.server, x);
  }

  lemma PingEffect(st: State)
    requires !st.closed && st.server.versionCommits
    ensures Enabled(st, Ping(ACK)) && !Step(st, Ping(ACK)).closed
    ensures DisturbsAny(st.server, Script(st, Ping(ACK))) <==> st.server.pending != []
    ensures Step(st, Ping(ACK)).server.committed == st.server.committed + st.server.pending
  {
    var x := Exchange(DbVersion(true), ACK);
    assert Script(st, Ping(ACK)) == [x] && [x][1..] == [];
    assert ServeAll(st.server, [x]) == Serve(st.server, x);
  }

  /**
    Commit applies what was pending and then all statements of the transaction, in order,
    whatever version requests did.
   */
  lemma CommitApplies(st: State, ops: seq<Op>, a: Answer)
    requires EnabledAll(st, ops) && NoEnd(ops) && !st.autoCommit && !st.closed && a.Granted?
    ensures var t := Step(Run(st, ops), Commit(a));
      t.server.committed == All(st.server) + Statements(st, ops) && t.server.pending == [] && t.autoCommit
  {
    hide Step, Run, EnabledAll, Disturbed, Statements, NoEnd;
    InsideTransaction(st, ops);
    EndEffect(Run(st, ops), Commit(a));
  }

  // ----- nothing is pending outside a transaction

  predicate NothingLoose(st: State) { st.autoCommit ==> st.server.pending == [] }

  lemma ServeFlushed(s: Server, x: Exchange)
    requires Flagged(x.request, true) && s.pending == []
    ensures Serve(s, x).pending == []
  {
  }

  lemma {:induction false} ServeAllFlushed(s: Server, xs: seq<Exchange>)
    requires AllFlagged(xs, true) && s.pending == []
    ensures ServeAll(s, xs).pending == []
    decreases |xs|
  {
    hide Serve, Flagged;
    if xs != [] {
      ServeFlushed(s, xs[0]);
      ServeAllFlushed(Serve(s, xs[0]), xs[1..]);
    }
  }

  lemma StepNothingLoose(st: State, op: Op)
    requires Applies(st, op) && NothingLoose(st)
    ensures NothingLoose(Step(st, op))
  {
    hide Script, ServeAll, AllFlagged, Serve;
    if st.autoCommit {
      ScriptFlagged(st, op);
      ServeAllFlushed(st.server, Script(st, op));
    } else if !st.closed && (op.Commit? || op.Rollback?) && op.a.Granted? {
      EndEffect(st, op);
    }
  }

  /**
    In every run, whenever autoCommit is on, the server has nothing pending; so Begin starts
    from committed data alone.
   */
  lemma {:induction false} NothingLooseEver(st: State, ops: seq<Op>)
    requires EnabledAll(st, ops) && NothingLoose(st)
    ensures NothingLoose(Run(st, ops))
    decreases |ops|
  {
    hide Step, Admissible, Script, NothingLoose, Applies;
    if ops != [] {
      StepNothingLoose(st, ops[0]);
      NothingLooseEver(Step(st, ops[0]), ops[1..]);
    }
  }

  /**
    A whole transaction in the middle of any run: Begin on an open connection, then any calls
    that do not end it, then Commit or Rollback. In autoCommit mode nothing is pending at Begin.
   */
  lemma TransactionSafety(st: State, before: seq<Op>, ops: seq<Op>, a: Answer)
    requires Initial(st) && EnabledAll(st, before) && a.Granted? && NoEnd(ops)
    requires !Run(st, before).closed && EnabledAll(Step(Run(st, before), Begin), ops)
    ensures var t := Run(st, before);
      var u := Step(t, Begin);
      && (t.autoCommit ==> t.server.pending == [])
      && Step(Run(u, ops), Commit(a)).server.committed == All(t.server) + Statements(u, ops)
      && (Step(Run(u, ops), Rollback(a)).server.committed == t.server.committed <==> !Disturbed(u, ops))
      && FlaggedSince(Run(u, ops).server.log, |t.server.log|, false)
  {
    hide Run, EnabledAll, Disturbed, Statements, NoEnd, FlaggedSince;
    NothingLooseEver(st, before);
    Began(Run(st, before));
    var u := Step(Run(st, before), Begin);
    FlagOffInside(u, ops);
    CommitApplies(u, ops, a);
    RollbackRestores(u, ops, a);
  }
}
