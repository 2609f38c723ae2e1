/** conn.go, stmt.go, rows.go: who owns the server's open handles, over all runs. */
module Handles {
  import opened Wire
  import opened Requests
  import opened Session

  /** The handle an object must close. */
  function StmtOwns(s: Stmt): multiset<int> {
    if !s.closed && s.handle > 0 then multiset{s.handle} else multiset{}
  }

  function RowsOwn(r: Rows): multiset<int> {
    if !r.closed && r.owns && r.handle > 0 then multiset{r.handle} else multiset{}
  }

  function StmtsOwn(ss: seq<Stmt>): multiset<int> {
    if ss == [] then multiset{} else StmtOwns(ss[0]) + StmtsOwn(ss[1..])
  }

  function AllRowsOwn(rs: seq<Rows>): multiset<int> {
    if rs == [] then multiset{} else RowsOwn(rs[0]) + AllRowsOwn(rs[1..])
  }

  function Owned(st: State): multiset<int> {
    StmtsOwn(st.stmts) + AllRowsOwn(st.rows) + st.leaked
  }

  /**
    The open handles are the disjoint union of those of unclosed stmts, of unclosed owning
    rows, and of the leaked ones; as multisets, no handle has two owners.
   */
  ghost predicate Inv(st: State) {
    if st.closed then st.server.open == map[] else multiset(st.server.open.Keys) == Owned(st)
  }

  // ----- tables

  lemma {:induction false} StmtAdded(ss: seq<Stmt>, s: Stmt)
    ensures StmtsOwn(ss + [s]) == StmtsOwn(ss) + StmtOwns(s)
  {
    if ss != [] {
      assert (ss + [s])[1..] == ss[1..] + [s];
      StmtAdded(ss[1..], s);
    } else {
      assert ss + [s] == [s] && [s][1..] == [];
    }
  }

  lemma {:induction false} RowsAdded(rs: seq<Rows>, r: Rows)
    ensures AllRowsOwn(rs + [r]) == AllRowsOwn(rs) + RowsOwn(r)
  {
    if rs != [] {
      assert (rs + [r])[1..] == rs[1..] + [r];
      RowsAdded(rs[1..], r);
    } else {
      assert rs + [r] == [r] && [r][1..] == [];
    }
  }

  lemma Regroup(a: multiset<int>, b: multiset<int>, c: multiset<int>)
    ensures a + b + c == a + (b + c)
  {
  }

  lemma Swap(a: multiset<int>, b: multiset<int>, c: multiset<int>)
    ensures a + b + c == c + b + a
  {
  }

  lemma {:induction false} StmtReplaced(ss: seq<Stmt>, k: nat, s: Stmt)
    requires k < |ss|
    ensures StmtsOwn(ss[k := s]) + StmtOwns(ss[k]) == StmtsOwn(ss) + StmtOwns(s)
  {
    if k > 0 {
      assert ss[k := s][1..] == ss[1..][k - 1 := s];
      StmtReplaced(ss[1..], k - 1, s);
      Regroup(StmtOwns(ss[0]), StmtsOwn(ss[1..][k - 1 := s]), StmtOwns(ss[k]));
      Regroup(StmtOwns(ss[0]), StmtsOwn(ss[1..]), StmtOwns(s));
    } else {
      assert ss[k := s][1..] == ss[1..];
      Swap(StmtOwns(s), StmtsOwn(ss[1..]), StmtOwns(ss[0]));
    }
  }

  lemma {:induction false} RowsReplaced(rs: seq<Rows>, k: nat, r: Rows)
    requires k < |rs|
    ensures AllRowsOwn(rs[k := r]) + RowsOwn(rs[k]) == AllRowsOwn(rs) + RowsOwn(r)
  {
    if k > 0 {
      assert rs[k := r][1..] == rs[1..][k - 1 := r];
      RowsReplaced(rs[1..], k - 1, r);
      Regroup(RowsOwn(rs[0]), AllRowsOwn(rs[1..][k - 1 := r]), RowsOwn(rs[k]));
      Regroup(RowsOwn(rs[0]), AllRowsOwn(rs[1..]), RowsOwn(r));
    } else {
      assert rs[k := r][1..] == rs[1..];
      Swap(RowsOwn(r), AllRowsOwn(rs[1..]), RowsOwn(rs[0]));
    }
  }

  // ----- single exchanges

  lemma AddedKey(m: map<int, Bytes>, h: int, sql: Bytes)
    requires h !in m
    ensures multiset(m[h := sql].Keys) == multiset(m.Keys) + multiset{h}
  {
    assert m[h := sql].Keys == m.Keys + {h};
  }

  lemma RemovedKey(m: map<int, Bytes>, h: int)
    requires h in m
    ensures multiset((m - {h}).Keys) + multiset{h} == multiset(m.Keys)
  {
    assert (m - {h}).Keys == m.Keys - {h};
  }

  lemma AddedThenRemoved(m: map<int, Bytes>, h: int, sql: Bytes)
    requires h !in m
    ensures m[h := sql] - {h} == m
  {
  }

  lemma ServeOne(s: Server, x: Exchange)
    ensures ServeAll(s, [x]) == Serve(s, x)
    ensures Admissible(s, [x]) <==> Fresh(s, x)
  {
    assert [x][1..] == [];
  }

  lemma {:induction false} ServeConcat(s: Server, xs: seq<Exchange>, ys: seq<Exchange>)
    ensures ServeAll(s, xs + ys) == ServeAll(ServeAll(s, xs), ys)
    ensures Admissible(s, xs + ys) <==> Admissible(s, xs) && Admissible(ServeAll(s, xs), ys)
    decreases |xs|
  {
    hide Serve, Fresh;
    if xs == [] {
      assert xs + ys == ys;
    } else {
      assert (xs + ys)[1..] == xs[1..] + ys;
      ServeConcat(Serve(s, xs[0]), xs[1..], ys);
    }
  }

  /** Releasing a handle closes it; releasing none does nothing. */
  lemma ReleaseEffect(s: Server, h: int)
    ensures ServeAll(s, Released(h)).open == if h > 0 then s.open - {h} else s.open
    ensures Admissible(s, Released(h))
  {
    if h > 0 {
      ServeOne(s, Exchange(CloseHandle(h), ACK));
    }
  }

  /** One-shot execution and release leave the open handles as they were. */
  lemma OneShot(s: Server, sql: Bytes, ac: bool, a: Answer)
    requires a.Granted? && Fresh(s, Exchange(PrepareAndExecute(sql, ac), a))
    ensures ServeAll(s, [Exchange(PrepareAndExecute(sql, ac), a)] + Released(a.handle)).open == s.open
  {
    hide Released;
    var x := Exchange(PrepareAndExecute(sql, ac), a);
    ServeConcat(s, [x], Released(a.handle));
    ServeOne(s, x);
    ReleaseEffect(Serve(s, x), a.handle);
    if a.handle > 0 {
      AddedThenRemoved(s.open, a.handle, sql);
    }
  }

  lemma LastIdNeutral(s: Server, ac: bool, b: Answer)
    requires Admissible(s, LastIdScript(ac, b))
    ensures ServeAll(s, LastIdScript(ac, b)).open == s.open
  {
    hide Released;
    var x := Exchange(PrepareAndExecute(LAST_ID_SQL, ac), b);
    ServeOne(s, x);
    if b.Granted? {
      ServeConcat(s, [x], Released(b.handle));
      OneShot(s, LAST_ID_SQL, ac, b);
    } else {
      assert [x] + [] == [x];
    }
  }

  // ----- whole calls

  /** Execution on a handle, or on no handle, opens none. */
  lemma ExecuteNeutral(s: Server, h: int, inline: bool, ac: bool, a: Answer)
    ensures Serve(s, Exchange(Execute(h, inline, [], ac), a)).open == s.open
  {
  }

  /** stmt.Exec ends with the open handles it began with, nested query included. */
  lemma StmtExecNeutral(st: State, op: Op)
    requires op.StmtExec? && Enabled(st, op)
    ensures Step(st, op).server.open == st.server.open
  {
    hide Released, LastIdScript;
    if !st.closed && !st.stmts[op.k].closed && !op.args.Bad? {
      var s := st.server;
      var x := Script(st, op)[0];
      var rest := if op.args.Text? && op.a.Granted? then Released(op.a.handle) else [];
      var lastId := if st.stmts[op.k].Inserts() then LastIdScript(st.autoCommit, op.b) else [];
      ServeOne(s, x);
      if op.a.Refused? {
        assert [x] + [] == [x];
      } else {
        assert Script(st, op) == ([x] + rest) + lastId;
        ServeConcat(s, [x] + rest, lastId);
        ServeConcat(s, [x], rest);
        if op.args.Text? {
          OneShot(s, op.args.sql, st.autoCommit, op.a);
        } else {
          assert [x] + [] == [x];
          ExecuteNeutral(s, st.stmts[op.k].handle, st.stmts[op.k].Selects(), st.autoCommit, op.a);
        }
        if lastId != [] {
          LastIdNeutral(ServeAll(s, [x] + rest), st.autoCommit, op.b);
        }
      }
    }
  }

  /** ExecContext too, unless its context expires between the response and the check. */
  lemma ExecContextNeutral(st: State, op: Op)
    requires op.ExecContext? && Enabled(st, op)
    ensures Step(st, op).server.open
         == if Leaks(st, op) then st.server.open[op.a.handle := op.text.sql] else st.server.open
  {
    hide Released, LastIdScript;
    if !st.closed && !op.ctx.DoneBefore? && op.text.Text? {
      var s := st.server;
      var x := Script(st, op)[0];
      ServeOne(s, x);
      if op.a.Refused? || op.ctx.DoneAfter? {
        assert [x] + [] == [x];
      } else {
        var lastId := if op.a.Inserts() then LastIdScript(st.autoCommit, op.b) else [];
        var rest := Released(op.a.handle);
        assert Script(st, op) == ([x] + lastId) + rest;
        ServeConcat(s, [x] + lastId, rest);
        ServeConcat(s, [x], lastId);
        var t := Serve(s, x);
        if lastId != [] {
          LastIdNeutral(t, st.autoCommit, op.b);
        }
        ReleaseEffect(ServeAll(t, lastId), op.a.handle);
        if op.a.handle > 0 {
          AddedThenRemoved(s.open, op.a.handle, op.text.sql);
        }
      }
    }
  }

  /** The open handles after any call, in terms of those before. */
  function OpenAfter(st: State, op: Op): map<int, Bytes>
    requires Applies(st, op)
  {
    var open := st.server.open;
    if st.closed then open else
    match op
    case DoPrepare(sql, a) => if a.Granted? then Opened(st.server, a.handle, sql).open else open
    case StmtQuery(k, args, a) =>
      if st.stmts[k].closed || !args.Text? || a.Refused? then open else Opened(st.server, a.handle, args.sql).open
    case StmtClose(k) =>
      var s := st.stmts[k];
      if s.closed || s.handle <= 0 then open else open - {s.handle}
    case QueryContext(ctx, text, a) =>
      if ctx.DoneBefore? || !text.Text? || a.Refused? then open else Opened(st.server, a.handle, text.sql).open
    case ExecContext(_, text, a, _) => if Leaks(st, op) then open[a.handle := text.sql] else open
    case RowsClose(k) =>
      var r := st.rows[k];
      if r.closed || !r.owns || r.handle <= 0 then open else open - {r.handle}
    case Close => map[]
    case _ => open
  }

  lemma OpeningEffect(st: State, op: Op)
    requires Enabled(st, op) && (op.DoPrepare? || op.StmtQuery? || op.QueryContext?)
    ensures Step(st, op).server.open == OpenAfter(st, op)
  {
    hide Performed, Flushed, Admissible;
    if Script(st, op) != [] {
      OneExchange(st, op);
      ServeOne(st.server, Script(st, op)[0]);
    }
  }

  lemma ReleasingEffect(st: State, op: Op)
    requires Enabled(st, op) && (op.StmtClose? || op.RowsClose?)
    ensures Step(st, op).server.open == OpenAfter(st, op)
  {
    hide Released, Admissible, Serve;
    ReleaseEffect(st.server, if op.StmtClose? then st.stmts[op.k].handle else st.rows[op.k].handle);
  }

  lemma OtherEffect(st: State, op: Op)
    requires Enabled(st, op)
    requires !op.DoPrepare? && !op.StmtQuery? && !op.QueryContext? && !op.StmtClose? && !op.RowsClose?
    requires !op.StmtExec? && !op.ExecContext?
    ensures Step(st, op).server.open == OpenAfter(st, op)
  {
    hide Performed, Flushed, Admissible;
    if Script(st, op) != [] {
      OneExchange(st, op);
      ServeOne(st.server, Script(st, op)[0]);
    }
  }

  lemma CallEffect(st: State, op: Op)
    requires Enabled(st, op)
    ensures Step(st, op).server.open == OpenAfter(st, op)
  {
    hide Script, Admissible, Step;
    if op.StmtExec? {
      StmtExecNeutral(st, op);
    } else if op.ExecContext? {
      ExecContextNeutral(st, op);
    } else if op.DoPrepare? || op.StmtQuery? || op.QueryContext? {
      OpeningEffect(st, op);
    } else if op.StmtClose? || op.RowsClose? {
      ReleasingEffect(st, op);
    } else {
      OtherEffect(st, op);
    }
  }

  lemma OneExchange(st: State, op: Op)
    requires Applies(st, op) && !op.StmtExec? && !op.ExecContext? && Script(st, op) != []
    ensures Script(st, op) == [Script(st, op)[0]]
  {
    hide LastIdScript;
  }

  lemma PrepareOwners(st: State, op: Op)
    requires Inv(st) && Enabled(st, op) && !st.closed && op.DoPrepare?
    ensures multiset(OpenAfter(st, op).Keys) == Owned(Client(st, op))
  {
    hide StmtsOwn, AllRowsOwn, Admissible, Serve;
    FreshFirst(st, op);
    if op.a.Granted? {
      StmtAdded(st.stmts, Stmt(op.a.handle, op.sql, op.a.stmtType, false));
      OpenedKeys(st.server, op.a.handle, op.sql);
    }
  }

  lemma QueryOwners(st: State, op: Op)
    requires Inv(st) && Enabled(st, op) && !st.closed && op.QueryContext?
    ensures multiset(OpenAfter(st, op).Keys) == Owned(Client(st, op))
  {
    hide StmtsOwn, AllRowsOwn, Admissible, Serve;
    FreshFirst(st, op);
    if !op.ctx.DoneBefore? && op.text.Text? && op.a.Granted? {
      OpenedKeys(st.server, op.a.handle, op.text.sql);
      RowsAdded(st.rows, Rows(op.a.handle, op.a.handle > 0, false));
      var h := if op.a.handle > 0 then multiset{op.a.handle} else multiset{};
      LastPart(StmtsOwn(st.stmts), AllRowsOwn(st.rows), st.leaked, h);
    }
  }

  lemma StmtQueryOwners(st: State, op: Op)
    requires Inv(st) && Enabled(st, op) && !st.closed && op.StmtQuery?
    ensures multiset(OpenAfter(st, op).Keys) == Owned(Client(st, op))
  {
    hide StmtsOwn, AllRowsOwn, Admissible, Serve;
    FreshFirst(st, op);
    var s := st.stmts[op.k];
    if !s.closed && !op.args.Bad? && op.a.Granted? {
      if op.args.Text? {
        OpenedKeys(st.server, op.a.handle, op.args.sql);
        RowsAdded(st.rows, Rows(op.a.handle, true, false));
        var h := if op.a.handle > 0 then multiset{op.a.handle} else multiset{};
        LastPart(StmtsOwn(st.stmts), AllRowsOwn(st.rows), st.leaked, h);
      } else {
        RowsAdded(st.rows, Rows(s.handle, false, false));
        LastPart(StmtsOwn(st.stmts), AllRowsOwn(st.rows), st.leaked, multiset{});
      }
    }
  }

  /** Adding to the second or the third part of a sum. */
  lemma LastPart(a: multiset<int>, b: multiset<int>, c: multiset<int>, h: multiset<int>)
    ensures a + (b + h) + c == a + b + c + h
    ensures a + b + (c + h) == a + b + c + h
    ensures a + b + c + multiset{} == a + b + c
  {
  }

  lemma StmtCloseOwners(st: State, op: Op)
    requires Inv(st) && Applies(st, op) && !st.closed && op.StmtClose?
    ensures multiset(OpenAfter(st, op).Keys) == Owned(Client(st, op))
  {
    hide StmtsOwn, AllRowsOwn;
    var s := st.stmts[op.k];
    var t := Client(st, op);
    if s.closed {
      return;
    }
    StmtReplaced(st.stmts, op.k, t.stmts[op.k]);
    TakenOut(StmtsOwn(st.stmts), StmtsOwn(t.stmts), StmtOwns(s), AllRowsOwn(st.rows), st.leaked);
    if s.handle > 0 {
      StmtOpen(st, op.k);
      RemovedKey(st.server.open, s.handle);
      Cancel(multiset((st.server.open - {s.handle}).Keys), Owned(Client(st, op)), multiset{s.handle});
    }
  }

  lemma RowsCloseOwners(st: State, op: Op)
    requires Inv(st) && Applies(st, op) && !st.closed && op.RowsClose?
    ensures multiset(OpenAfter(st, op).Keys) == Owned(Client(st, op))
  {
    hide StmtsOwn, AllRowsOwn;
    var r := st.rows[op.k];
    var t := Client(st, op);
    if r.closed {
      return;
    }
    RowsReplaced(st.rows, op.k, t.rows[op.k]);
    TakenOut(AllRowsOwn(st.rows), AllRowsOwn(t.rows), RowsOwn(r), StmtsOwn(st.stmts), st.leaked);
    if r.owns && r.handle > 0 {
      RowsOpen(st, op.k);
      RemovedKey(st.server.open, r.handle);
      Cancel(multiset((st.server.open - {r.handle}).Keys), Owned(t), multiset{r.handle});
    }
  }

  /** Taking h out of the first or the second part of a sum. */
  lemma TakenOut(before: multiset<int>, now: multiset<int>, h: multiset<int>, b: multiset<int>, c: multiset<int>)
    requires now + h == before + multiset{}
    ensures before + b + c == now + b + c + h
    ensures b + before + c == b + now + c + h
    ensures h == multiset{} ==> before == now
  {
    assert before + multiset{} == before && now + multiset{} == now;
    assert before + b + c == now + h + b + c;
  }

  lemma Cancel(a: multiset<int>, b: multiset<int>, c: multiset<int>)
    requires a + c == b + c
    ensures a == b
  {
    assert (a + c) - c == a && (b + c) - c == b;
  }

  /** Each call gives every handle it opens an owner, and closes none it does not own. */
  lemma OwnersAfter(st: State, op: Op)
    requires Inv(st) && Enabled(st, op) && !st.closed && !op.Close?
    ensures multiset(OpenAfter(st, op).Keys) == Owned(Client(st, op))
  {
    hide StmtsOwn, AllRowsOwn, LastIdScript;
    if op.DoPrepare? {
      PrepareOwners(st, op);
    } else if op.StmtQuery? {
      StmtQueryOwners(st, op);
    } else if op.QueryContext? {
      QueryOwners(st, op);
    } else if op.StmtClose? {
      StmtCloseOwners(st, op);
    } else if op.RowsClose? {
      RowsCloseOwners(st, op);
    } else if Leaks(st, op) {
      FreshFirst(st, op);
      AddedKey(st.server.open, op.a.handle, op.text.sql);
    }
  }

  lemma {:induction false} StmtIn(ss: seq<Stmt>, k: nat)
    requires k < |ss|
    ensures forall h | h in StmtOwns(ss[k]) :: h in StmtsOwn(ss)
  {
    if k > 0 {
      StmtIn(ss[1..], k - 1);
    }
  }

  lemma {:induction false} RowsIn(rs: seq<Rows>, k: nat)
    requires k < |rs|
    ensures forall h | h in RowsOwn(rs[k]) :: h in AllRowsOwn(rs)
  {
    if k > 0 {
      RowsIn(rs[1..], k - 1);
    }
  }

  /** The handle of an unclosed stmt is open. */
  lemma StmtOpen(st: State, k: nat)
    requires Inv(st) && !st.closed && k < |st.stmts| && !st.stmts[k].closed && st.stmts[k].handle > 0
    ensures st.stmts[k].handle in st.server.open
  {
    hide StmtsOwn, AllRowsOwn;
    StmtIn(st.stmts, k);
    assert st.stmts[k].handle in Owned(st);
  }

  /** The handle of an unclosed owning rows is open. */
  lemma RowsOpen(st: State, k: nat)
    requires Inv(st) && !st.closed && k < |st.rows|
    requires !st.rows[k].closed && st.rows[k].owns && st.rows[k].handle > 0
    ensures st.rows[k].handle in st.server.open
  {
    hide StmtsOwn, AllRowsOwn;
    RowsIn(st.rows, k);
    assert st.rows[k].handle in Owned(st);
  }

  lemma OpenedKeys(s: Server, h: int, sql: Bytes)
    requires h >= 0 && h !in s.open
    ensures multiset(Opened(s, h, sql).open.Keys) == multiset(s.open.Keys) + (if h > 0 then multiset{h} else multiset{})
  {
    if h > 0 {
      AddedKey(s.open, h, sql);
    }
  }

  /** The first exchange of a call opens a handle that is not open. */
  lemma FreshFirst(st: State, op: Op)
    requires Enabled(st, op)
    ensures Script(st, op) != [] ==> Fresh(st.server, Script(st, op)[0])
  {
  }

  lemma StepKeepsInv(st: State, op: Op)
    requires Inv(st) && Enabled(st, op)
    ensures Inv(Step(st, op))
  {
    hide StmtsOwn, AllRowsOwn, OpenAfter, Script, Client;
    CallEffect(st, op);
    if !st.closed && !op.Close? {
      StaysOpen(st, op);
      OwnersAfter(st, op);
    } else {
      ClosedEffect(st, op);
    }
  }

  lemma StaysOpen(st: State, op: Op)
    requires Applies(st, op) && !st.closed && !op.Close?
    ensures !Client(st, op).closed
  {
  }

  lemma ClosedEffect(st: State, op: Op)
    requires Inv(st) && Applies(st, op) && (st.closed || op.Close?)
    ensures OpenAfter(st, op) == map[] && Client(st, op).closed
  {
  }

  // ----- all runs

  /** Handle conservation: in every run every open handle has exactly one owner. */
  lemma {:induction false} HandleConservation(st: State, ops: seq<Op>)
    requires Inv(st) && EnabledAll(st, ops)
    ensures Inv(Run(st, ops))
    decreases |ops|
  {
    hide Inv, Step, Applies, Admissible;
    if ops != [] {
      StepKeepsInv(st, ops[0]);
      HandleConservation(Step(st, ops[0]), ops[1..]);
    }
  }

  lemma InitialInv(st: State)
    requires Initial(st)
    ensures Inv(st)
  {
  }

  // ----- leaks

  function LeakOf(st: State, op: Op): multiset<int> {
    if Leaks(st, op) then multiset{op.a.handle} else multiset{}
  }

  /** The handles lost in a run: one for each late expiry, none otherwise. */
  ghost function LeaksOf(st: State, ops: seq<Op>): multiset<int>
    requires EnabledAll(st, ops)
    decreases |ops|
  {
    if ops == [] then multiset{} else LeakOf(st, ops[0]) + LeaksOf(Step(st, ops[0]), ops[1..])
  }

  ghost predicate NeverLeaks(st: State, ops: seq<Op>)
    requires EnabledAll(st, ops)
    decreases |ops|
  {
    ops == [] || (!Leaks(st, ops[0]) && NeverLeaks(Step(st, ops[0]), ops[1..]))
  }

  lemma StepLeaks(st: State, op: Op)
    requires Applies(st, op)
    ensures Step(st, op).leaked == st.leaked + LeakOf(st, op)
  {
    hide Script;
  }

  lemma {:induction false} LeakedExactly(st: State, ops: seq<Op>)
    requires EnabledAll(st, ops)
    ensures Run(st, ops).leaked == st.leaked + LeaksOf(st, ops)
    ensures LeaksOf(st, ops) == multiset{} <==> NeverLeaks(st, ops)
    decreases |ops|
  {
    hide Step, Applies, Admissible;
    if ops != [] {
      StepLeaks(st, ops[0]);
      LeakedExactly(Step(st, ops[0]), ops[1..]);
      Regroup(st.leaked, LeakOf(st, ops[0]), LeaksOf(Step(st, ops[0]), ops[1..]));
      if Leaks(st, ops[0]) {
        assert ops[0].a.handle in LeaksOf(st, ops);
      }
    }
  }

  /**
    From a new connection: the open handles are exactly those of unclosed stmts and unclosed
    owning rows, if and only if no context expired between a response and its check.
   */
  lemma OwnedExactly(st: State, ops: seq<Op>)
    requires Initial(st) && EnabledAll(st, ops) && !Run(st, ops).closed
    ensures var t := Run(st, ops);
      multiset(t.server.open.Keys) == StmtsOwn(t.stmts) + AllRowsOwn(t.rows) <==> NeverLeaks(st, ops)
  {
    hide Run, EnabledAll, NeverLeaks, LeaksOf, StmtsOwn, AllRowsOwn;
    InitialInv(st);
    HandleConservation(st, ops);
    LeakedExactly(st, ops);
    var t := Run(st, ops);
    Nothing(StmtsOwn(t.stmts) + AllRowsOwn(t.rows), t.leaked);
    assert multiset{} + LeaksOf(st, ops) == LeaksOf(st, ops);
  }

  /**
    The other side is reached from every new connection: a query whose context is found done
    after a response with handle h leaves h open, with no stmt and no rows to close it.
   */
  lemma LateExpiryLeaks(st: State, sql: Bytes, h: int, stmtType: int)
    requires Initial(st) && h > 0
    ensures var ops := [QueryContext(DoneAfter, Text(sql), Granted(h, stmtType))];
      && EnabledAll(st, ops) && !NeverLeaks(st, ops)
      && var t := Run(st, ops);
         t.server.open == map[h := sql] && t.stmts == [] && t.rows == [] && !t.closed
  {
    var op := QueryContext(DoneAfter, Text(sql), Granted(h, stmtType));
    hide Performed, Flushed, Admissible, ServeAll, Serve;
    var x := Script(st, op)[0];
    assert Script(st, op) == [x];
    ServeOne(st.server, x);
    assert Enabled(st, op);
    CallEffect(st, op);
    assert [op][1..] == [];
  }

  lemma Nothing(a: multiset<int>, b: multiset<int>)
    ensures a + b == a <==> b == multiset{}
  {
    assert (a + b) - a == b && a - a == multiset{};
  }

  // ----- releases

  /** Every release names a handle that is open when it is sent. */
  ghost predicate ReleasesOpen(s: Server, xs: seq<Exchange>)
    decreases |xs|
  {
    || xs == []
    || ((xs[0].request.CloseHandle? ==> xs[0].request.handle in s.open) && ReleasesOpen(Serve(s, xs[0]), xs[1..]))
  }

  lemma {:induction false} ReleasesConcat(s: Server, xs: seq<Exchange>, ys: seq<Exchange>)
    ensures ReleasesOpen(s, xs + ys) <==> ReleasesOpen(s, xs) && ReleasesOpen(ServeAll(s, xs), ys)
    decreases |xs|
  {
    hide Serve;
    if xs == [] {
      assert xs + ys == ys;
    } else {
      assert (xs + ys)[1..] == xs[1..] + ys;
      ReleasesConcat(Serve(s, xs[0]), xs[1..], ys);
    }
  }

  lemma ReleaseOne(s: Server, h: int)
    requires h > 0 ==> h in s.open
    ensures ReleasesOpen(s, Released(h))
  {
    if h > 0 {
      assert Released(h)[1..] == [];
    }
  }

  lemma NoRelease(s: Server, x: Exchange)
    requires !x.request.CloseHandle?
    ensures ReleasesOpen(s, [x])
  {
    assert [x][1..] == [];
  }

  lemma LastIdReleases(s: Server, ac: bool, b: Answer)
    ensures ReleasesOpen(s, LastIdScript(ac, b))
  {
    hide Released, ReleasesOpen;
    var x := Exchange(PrepareAndExecute(LAST_ID_SQL, ac), b);
    NoRelease(s, x);
    ServeOne(s, x);
    if b.Granted? {
      ReleaseOne(Serve(s, x), b.handle);
      ReleasesConcat(s, [x], Released(b.handle));
    } else {
      assert [x] + [] == [x];
    }
  }

  lemma StmtExecReleases(st: State, op: Op)
    requires op.StmtExec? && Applies(st, op)
    ensures ReleasesOpen(st.server, Script(st, op))
  {
    hide Released, LastIdScript, ReleasesOpen;
    var s := st.server;
    if st.closed || st.stmts[op.k].closed || op.args.Bad? {
      NothingReleased(s);
    } else {
      var x := Script(st, op)[0];
      NoRelease(s, x);
      ServeOne(s, x);
      if op.a.Refused? {
        assert [x] + [] == [x];
      } else {
        var rest := if op.args.Text? then Released(op.a.handle) else [];
        var lastId := if st.stmts[op.k].Inserts() then LastIdScript(st.autoCommit, op.b) else [];
        assert Script(st, op) == ([x] + rest) + lastId;
        ReleasesConcat(s, [x] + rest, lastId);
        ReleasesConcat(s, [x], rest);
        NothingReleased(Serve(s, x));
        NothingReleased(ServeAll(s, [x] + rest));
        if op.args.Text? {
          ReleaseOne(Serve(s, x), op.a.handle);
        }
        LastIdReleases(ServeAll(s, [x] + rest), st.autoCommit, op.b);
      }
    }
  }

  lemma NothingReleased(s: Server)
    ensures ReleasesOpen(s, [])
  {
  }

  lemma ExecContextReleases(st: State, op: Op)
    requires op.ExecContext? && Enabled(st, op)
    ensures ReleasesOpen(st.server, Script(st, op))
  {
    hide Released, LastIdScript, ReleasesOpen;
    var s := st.server;
    if st.closed || op.ctx.DoneBefore? || !op.text.Text? {
      NothingReleased(s);
    } else {
      var x := Script(st, op)[0];
      NoRelease(s, x);
      ServeOne(s, x);
      if op.a.Refused? || op.ctx.DoneAfter? {
        assert [x] + [] == [x];
      } else {
        var lastId := if op.a.Inserts() then LastIdScript(st.autoCommit, op.b) else [];
        var rest := Released(op.a.handle);
        var t := Serve(s, x);
        assert Script(st, op) == ([x] + lastId) + rest;
        ServeConcat(s, [x] + lastId, rest);
        ServeConcat(s, [x], lastId);
        ReleasesConcat(s, [x] + lastId, rest);
        ReleasesConcat(s, [x], lastId);
        NothingReleased(t);
        LastIdReleases(t, st.autoCommit, op.b);
        if lastId != [] {
          LastIdNeutral(t, st.autoCommit, op.b);
        }
        ReleaseOne(ServeAll(t, lastId), op.a.handle);
      }
    }
  }

  /** Each release is of an open handle, so a handle is closed at most once, and never through non-owning rows. */
  lemma CallReleasesOpen(st: State, op: Op)
    requires Inv(st) && Enabled(st, op)
    ensures ReleasesOpen(st.server, Script(st, op))
    ensures op.RowsClose? && !st.rows[op.k].owns ==> Script(st, op) == []
  {
    hide LastIdScript, ReleasesOpen, Released, Owned, Admissible;
    NothingReleased(st.server);
    if op.StmtExec? {
      StmtExecReleases(st, op);
    } else if op.ExecContext? {
      ExecContextReleases(st, op);
    } else if op.StmtClose? {
      var s := st.stmts[op.k];
      if !st.closed && !s.closed && s.handle > 0 {
        StmtOpen(st, op.k);
      }
      if !st.closed && !s.closed {
        ReleaseOne(st.server, s.handle);
      }
    } else if op.RowsClose? {
      var r := st.rows[op.k];
      if !st.closed && !r.closed && r.owns {
        if r.handle > 0 {
          RowsOpen(st, op.k);
        }
        ReleaseOne(st.server, r.handle);
      }
    } else if Script(st, op) != [] {
      OneExchange(st, op);
      NoRelease(st.server, Script(st, op)[0]);
    }
  }

  ghost predicate RunReleasesOpen(st: State, ops: seq<Op>)
    requires EnabledAll(st, ops)
    decreases |ops|
  {
    ops == [] || (ReleasesOpen(st.server, Script(st, ops[0])) && RunReleasesOpen(Step(st, ops[0]), ops[1..]))
  }

  lemma {:induction false} EveryReleaseOpen(st: State, ops: seq<Op>)
    requires Inv(st) && EnabledAll(st, ops)
    ensures RunReleasesOpen(st, ops)
    decreases |ops|
  {
    hide Inv, Step, Applies, Admissible, ReleasesOpen, Script;
    if ops != [] {
      CallReleasesOpen(st, ops[0]);
      StepKeepsInv(st, ops[0]);
      EveryReleaseOpen(Step(st, ops[0]), ops[1..]);
    }
  }

  // ----- the bound at every moment

  function Opens(x: Exchange): nat { if x.request.Prepare? || x.request.PrepareAndExecute? then 1 else 0 }

  function Openers(xs: seq<Exchange>): nat {
    if xs == [] then 0 else Opens(xs[0]) + Openers(xs[1..])
  }

  lemma EffectGrows(s: Server, x: Exchange)
    requires x.answer.Granted?
    ensures |Effect(s, x).open| <= |s.open| + Opens(x)
  {
    hide Performed, Flushed;
    if x.request.Prepare? || x.request.PrepareAndExecute? {
      PutGrows(s.open, x.answer.handle, x.request.sql);
    } else if x.request.CloseHandle? {
      CutShrinks(s.open, x.request.handle);
    }
  }

  lemma ServeGrows(s: Server, x: Exchange)
    ensures |Serve(s, x).open| <= |s.open| + Opens(x)
  {
    hide Effect, Opens;
    if x.answer.Granted? {
      EffectGrows(s, x);
    }
  }

  lemma PutGrows(m: map<int, Bytes>, h: int, sql: Bytes)
    ensures |m[h := sql]| <= |m| + 1
  {
    assert m[h := sql].Keys == m.Keys + {h};
    assert |m[h := sql].Keys| == |m[h := sql]| && |m.Keys| == |m|;
  }

  lemma CutShrinks(m: map<int, Bytes>, h: int)
    ensures |m - {h}| <= |m|
  {
    assert (m - {h}).Keys == m.Keys - {h};
    assert |(m - {h}).Keys| == |m - {h}| && |m.Keys| == |m|;
  }

  lemma {:induction false} OpenersBound(s: Server, xs: seq<Exchange>, i: nat)
    requires i <= |xs|
    ensures |ServeAll(s, xs[..i]).open| <= |s.open| + Openers(xs)
    decreases i
  {
    hide Serve;
    if i > 0 {
      ServeGrows(s, xs[0]);
      OpenersBound(Serve(s, xs[0]), xs[1..], i - 1);
      assert xs[..i][1..] == xs[1..][..i - 1];
    }
  }

  lemma {:induction false} OpenersConcat(xs: seq<Exchange>, ys: seq<Exchange>)
    ensures Openers(xs + ys) == Openers(xs) + Openers(ys)
  {
    hide Opens;
    if xs == [] {
      assert xs + ys == ys;
    } else {
      assert (xs + ys)[1..] == xs[1..] + ys;
      OpenersConcat(xs[1..], ys);
    }
  }

  lemma OpenersOne(x: Exchange, h: int)
    ensures Openers([x]) == Opens(x) && Openers(Released(h)) == 0 && Openers([]) == 0
  {
    assert [x][1..] == [];
    if h > 0 {
      assert Released(h)[1..] == [];
    }
  }

  lemma LastIdOpeners(ac: bool, b: Answer)
    ensures Openers(LastIdScript(ac, b)) <= 1
  {
    hide Released, Openers;
    var x := Exchange(PrepareAndExecute(LAST_ID_SQL, ac), b);
    OpenersOne(x, if b.Granted? then b.handle else 0);
    OpenersConcat([x], if b.Granted? then Released(b.handle) else []);
  }

  lemma ScriptOpeners(st: State, op: Op)
    requires Applies(st, op)
    ensures Openers(Script(st, op)) <= 2
  {
    hide Released, LastIdScript, Openers;
    OpenersOne(Exchange(ConClose, ACK), 0);
    if Script(st, op) != [] {
      var x := Script(st, op)[0];
      OpenersOne(x, 0);
      if op.StmtExec? && op.a.Granted? {
        var rest := if op.args.Text? then Released(op.a.handle) else [];
        var lastId := if st.stmts[op.k].Inserts() then LastIdScript(st.autoCommit, op.b) else [];
        OpenersOne(x, op.a.handle);
        LastIdOpeners(st.autoCommit, op.b);
        OpenersConcat([x], rest + lastId);
        OpenersConcat(rest, lastId);
      } else if op.ExecContext? && op.a.Granted? && op.ctx.Live? {
        var lastId := if op.a.Inserts() then LastIdScript(st.autoCommit, op.b) else [];
        OpenersOne(x, op.a.handle);
        LastIdOpeners(st.autoCommit, op.b);
        OpenersConcat([x], lastId + Released(op.a.handle));
        OpenersConcat(lastId, Released(op.a.handle));
      } else if op.StmtClose? {
        OpenersOne(x, st.stmts[op.k].handle);
      } else if op.RowsClose? {
        OpenersOne(x, st.rows[op.k].handle);
      } else {
        assert [x] + [] == [x];
        assert Script(st, op) == [x];
      }
    }
  }

  function LiveStmts(ss: seq<Stmt>): nat {
    if ss == [] then 0 else (if ss[0].closed then 0 else 1) + LiveStmts(ss[1..])
  }

  function LiveOwners(rs: seq<Rows>): nat {
    if rs == [] then 0 else (if rs[0].closed || !rs[0].owns then 0 else 1) + LiveOwners(rs[1..])
  }

  lemma {:induction false} StmtsOwnSize(ss: seq<Stmt>)
    ensures |StmtsOwn(ss)| <= LiveStmts(ss)
  {
    if ss != [] {
      StmtsOwnSize(ss[1..]);
    }
  }

  lemma {:induction false} RowsOwnSize(rs: seq<Rows>)
    ensures |AllRowsOwn(rs)| <= LiveOwners(rs)
  {
    if rs != [] {
      RowsOwnSize(rs[1..]);
    }
  }

  /**
    After each exchange of every call in a run, the server holds at most one handle per
    live stmt, live owning rows and leak, and two more.
   */
  lemma TransientBound(st: State, op: Op, i: nat)
    requires Inv(st) && Enabled(st, op) && i <= |Script(st, op)|
    ensures |ServeAll(st.server, Script(st, op)[..i]).open|
         <= LiveStmts(st.stmts) + LiveOwners(st.rows) + |st.leaked| + 2
  {
    hide StmtsOwn, AllRowsOwn, Script, ServeAll, Openers;
    ScriptOpeners(st, op);
    OpenersBound(st.server, Script(st, op), i);
    StmtsOwnSize(st.stmts);
    RowsOwnSize(st.rows);
    var open := st.server.open;
    assert |open.Keys| == |open| && |multiset(open.Keys)| == |open.Keys|;
    if !st.closed {
      assert |Owned(st)| == |StmtsOwn(st.stmts)| + |AllRowsOwn(st.rows)| + |st.leaked|;
    }
  }
}
