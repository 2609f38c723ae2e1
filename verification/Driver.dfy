/**
  conn.go, stmt.go, rows.go, tx.go: the methods themselves, exchange by exchange. Each one
  is proved to take the step that the state machine of Session gives for its call.
 */
module Driver {
  import opened Wire
  import opened Requests
  import opened Session
  import opened Handles
  import opened Effects
  import opened Transactions
  import SqlLexer
  import Values
  import Literals
  import Interpolate
  import Response

  /** The arguments of a statement: none, the interpolated text, or the error of InterpolateArgs. */
  ghost function Bound(sql: Bytes, args: seq<Values.Value>): Args
    requires forall v | v in args :: Literals.GoodValue(v)
  {
    if args == [] then NoArgs
    else
      var r := Interpolate.Interpolation(sql, args);
      if r.Ok? then Text(r.text) else Bad
  }

  /** The text of a one-shot call; named arguments are an error. */
  ghost function OneShotText(query: Bytes, named: bool, args: seq<Values.Value>): Args
    requires forall v | v in args :: Literals.GoodValue(v)
  {
    if named then Bad else if args == [] then Text(query) else Bound(query, args)
  }

  /** No arguments, or one of a supported type for each placeholder. */
  ghost predicate Fits(sql: Bytes, args: seq<Values.Value>) {
    args == [] || Interpolate.Matches(SqlLexer.Lex(sql), args)
  }

  lemma BoundMeans(sql: Bytes, args: seq<Values.Value>)
    requires forall v | v in args :: Literals.GoodValue(v)
    ensures Bound(sql, args).Bad? <==> !Fits(sql, args)
    ensures Bound(sql, args).NoArgs? <==> args == []
    ensures args != [] && Fits(sql, args) ==>
      Bound(sql, args) == Text(SqlLexer.Flatten(Interpolate.Subst(SqlLexer.Lex(sql), args)))
  {
    hide SqlLexer.Lex, SqlLexer.Flatten, Interpolate.Subst, Interpolate.CountHoles, Literals.GoodValue;
    assert forall i | 0 <= i < |args| :: args[i] in args;
  }

  lemma OneShotMeans(query: Bytes, named: bool, args: seq<Values.Value>)
    requires forall v | v in args :: Literals.GoodValue(v)
    ensures OneShotText(query, named, args).Text? <==> !named && Fits(query, args)
    ensures !named && Fits(query, args) ==>
      OneShotText(query, named, args)
      == Text(if args == [] then query else SqlLexer.Flatten(Interpolate.Subst(SqlLexer.Lex(query), args)))
  {
    hide Bound, SqlLexer.Lex, SqlLexer.Flatten, Interpolate.Subst, Interpolate.Matches;
    BoundMeans(query, args);
  }

  // What the calls make the server perform, in terms of the caller's text and arguments.

  lemma ExecStmtPerforms(st: State, k: nat, args: seq<Values.Value>, a: Answer, b: Answer)
    requires k < |st.stmts| && forall v | v in args :: Literals.GoodValue(v)
    ensures var s := st.stmts[k];
      var t := Step(st, StmtExec(k, Bound(s.sql, args), a, b));
      var ids := if s.stmtType == 20 then IdText(b) else [];
      if st.closed || s.closed || !Fits(s.sql, args) then t == st
      else if a.Refused? then All(t.server) == All(st.server)
      else if args != [] then
        All(t.server) == All(st.server) + ([SqlLexer.Flatten(Interpolate.Subst(SqlLexer.Lex(s.sql), args))] + ids)
      else Labelled(st) && Alive(s) ==> All(t.server) == All(st.server) + ([s.sql] + ids)
  {
    hide Step, Bound, Fits, SqlLexer.Lex, SqlLexer.Flatten, Interpolate.Subst, Interpolate.CountHoles,
      Literals.GoodValue;
    BoundMeans(st.stmts[k].sql, args);
    assert All(st.server) + [] == All(st.server);
    var bound := Bound(st.stmts[k].sql, args);
    if !Sends(st, k, bound) {
      UnsentCalls(st, k, bound, a, b);
    } else if bound.Text? {
      ExecTextDoes(st, k, bound.sql, a, b);
    } else {
      ExecHandleDoes(st, k, a, b);
    }
  }

  lemma QueryStmtPerforms(st: State, k: nat, args: seq<Values.Value>, a: Answer)
    requires k < |st.stmts| && forall v | v in args :: Literals.GoodValue(v)
    ensures var s := st.stmts[k];
      var t := Step(st, StmtQuery(k, Bound(s.sql, args), a));
      if st.closed || s.closed || !Fits(s.sql, args) then t == st
      else if a.Refused? then All(t.server) == All(st.server)
      else if args != [] then
        All(t.server) == All(st.server) + [SqlLexer.Flatten(Interpolate.Subst(SqlLexer.Lex(s.sql), args))]
      else Labelled(st) && Alive(s) ==> All(t.server) == All(st.server) + [s.sql]
  {
    hide Step, Bound, Fits, SqlLexer.Lex, SqlLexer.Flatten, Interpolate.Subst, Interpolate.CountHoles,
      Literals.GoodValue;
    BoundMeans(st.stmts[k].sql, args);
    assert All(st.server) + [] == All(st.server);
    var bound := Bound(st.stmts[k].sql, args);
    if Sends(st, k, bound) {
      QueryDoes(st, k, bound, a);
    } else {
      UnsentCalls(st, k, bound, a, a);
    }
  }

  /** Query performs the text alone; Exec adds the query for the id of an INSERT, unless its context is done. */
  lemma OneShotsPerform(st: State, ctx: Ctx, query: Bytes, named: bool, args: seq<Values.Value>, a: Answer, b: Answer)
    requires forall v | v in args :: Literals.GoodValue(v)
    ensures var text := OneShotText(query, named, args);
      var q, t := Step(st, QueryContext(ctx, text, a)), Step(st, ExecContext(ctx, text, a, b));
      var ids := if ctx.Live? && a.Granted? && a.stmtType == 20 then IdText(b) else [];
      if st.closed || ctx.DoneBefore? || named || !Fits(query, args) then q == st && t == st
      else if a.Refused? then All(q.server) == All(st.server) && All(t.server) == All(st.server)
      else
        var written := if args == [] then query
                       else SqlLexer.Flatten(Interpolate.Subst(SqlLexer.Lex(query), args));
        All(q.server) == All(st.server) + [written] && All(t.server) == All(st.server) + ([written] + ids)
  {
    hide Step, OneShotText, SqlLexer.Lex, SqlLexer.Flatten, Interpolate.Subst, Interpolate.Matches;
    OneShotMeans(query, named, args);
    assert All(st.server) + [] == All(st.server);
    var text := OneShotText(query, named, args);
    if st.closed || ctx.DoneBefore? || !text.Text? {
      UnsentOneShots(st, ctx, text, a, b);
    } else {
      QueryContextDoes(st, ctx, text.sql, a);
      ExecContextDoes(st, ctx, text.sql, a, b);
    }
  }

  /**
    A connection with the stmt and rows objects made from it; `server` is the other end of
    its socket. Each method is given the answers its exchanges will get.
   */
  class Conn {
    var autoCommit: bool
    var closed: bool
    var stmts: seq<Stmt>
    var rows: seq<Rows>
    ghost var leaked: multiset<int>
    var server: Server

    ghost function View(): State
      reads this
    {
      State(autoCommit, closed, stmts, rows, leaked, server)
    }

    constructor (autoCommit: bool, server: Server)
      ensures View() == State(autoCommit, false, [], [], multiset{}, server)
      ensures server.open == map[] && server.pending == [] ==> Initial(View())
    {
      this.autoCommit, closed, stmts, rows, leaked := autoCommit, false, [], [], multiset{};
      this.server := server;
    }

    /** An exchange on a closed socket fails; otherwise the server answers. */
    method SendAndRecv(request: Request, answer: Answer) returns (resp: Answer)
      modifies this`server
      ensures closed ==> server == old(server) && resp.Refused?
      ensures !closed ==> server == ServeAll(old(server), [Exchange(request, answer)]) && resp == answer
    {
      if closed {
        return Refused;
      }
      ServeOne(server, Exchange(request, answer));
      server := Serve(server, Exchange(request, answer));
      resp := answer;
    }

    /** Best effort: the outcome is ignored. */
    method CloseQueryHandle(qh: int)
      requires qh > 0
      modifies this`server
      ensures server == if closed then old(server) else ServeAll(old(server), Released(qh))
    {
      var _ := SendAndRecv(CloseHandle(qh), ACK);
    }

    method ExecSQL(sql: Bytes, a: Answer) returns (resp: Answer)
      modifies this`server
      ensures closed ==> server == old(server) && resp.Refused?
      ensures !closed ==>
        server == ServeAll(old(server), [Exchange(PrepareAndExecute(sql, autoCommit), a)]) && resp == a
    {
      resp := SendAndRecv(PrepareAndExecute(sql, autoCommit), a);
    }

    /** The one-shot query, its first cell as an id, and the deferred release of its handle. */
    method FetchLastInsertId(b: Answer, found: seq<seq<Response.Cell>>) returns (id: int)
      requires !closed
      modifies this`server
      ensures server == ServeAll(old(server), LastIdScript(autoCommit, b))
      ensures if b.Granted? then Literals.IdOf(found, id) else id == 0
    {
      hide ServeAll, Released, Literals.IdOf;
      var first := [Exchange(PrepareAndExecute(LAST_ID_SQL, autoCommit), b)];
      assert first + [] == first;
      ServeConcat(server, first, if b.Granted? then Released(b.handle) else []);
      var resp := ExecSQL(LAST_ID_SQL, b);
      if resp.Refused? {
        return 0;
      }
      id := Literals.ReadFirstId(found);
      if resp.handle > 0 {
        CloseQueryHandle(resp.handle);
      } else {
        NoneReleased(server, resp.handle);
      }
    }

    method PrepareStmt(sql: Bytes, a: Answer) returns (ok: bool)
      modifies this
      ensures View() == Step(old(View()), DoPrepare(sql, a))
      ensures ok <==> !old(closed) && a.Granted?
      ensures stmts == old(stmts) + (if ok then [Stmt(a.handle, sql, a.stmtType, false)] else [])
    {
      hide ServeAll;
      NoneReleased(server, 0);
      if closed {
        return false;
      }
      var resp := SendAndRecv(Prepare(sql, autoCommit), a);
      if resp.Refused? {
        return false;
      }
      stmts := stmts + [Stmt(resp.handle, sql, resp.stmtType, false)];
      return true;
    }

    /** The arguments put into the text, if there are any. */
    method Bind(sql: Bytes, args: seq<Values.Value>) returns (ok: bool, text: Bytes)
      requires forall v | v in args :: Literals.GoodValue(v)
      ensures Bound(sql, args) == if !ok then Bad else if args == [] then NoArgs else Text(text)
    {
      if |args| == 0 {
        return true, [];
      }
      var r := Interpolate.InterpolateArgs(sql, args);
      return r.Ok?, if r.Ok? then r.text else [];
    }

    /** `found` is the result of the nested query for the id of an INSERT, if one is made. */
    method ExecStmt(k: nat, args: seq<Values.Value>, a: Answer, b: Answer, found: seq<seq<Response.Cell>>)
      returns (ok: bool, lastId: int)
      requires k < |stmts| && forall v | v in args :: Literals.GoodValue(v)
      modifies this`server
      ensures View() == Step(old(View()), StmtExec(k, Bound(stmts[k].sql, args), a, b))
      ensures ok <==> !closed && !stmts[k].closed && Fits(stmts[k].sql, args) && a.Granted?
      ensures ok ==>
        var ids := if stmts[k].stmtType == 20 then IdText(b) else [];
        && (args != [] ==>
              All(server) == All(old(server))
                + ([SqlLexer.Flatten(Interpolate.Subst(SqlLexer.Lex(stmts[k].sql), args))] + ids))
        && (args == [] && Labelled(old(View())) && Alive(stmts[k]) ==>
              All(server) == All(old(server)) + ([stmts[k].sql] + ids))
      ensures !ok ==> All(server) == All(old(server)) && (a.Granted? ==> server == old(server))
      ensures if ok && stmts[k].stmtType == 20 && b.Granted? then Literals.IdOf(found, lastId) else lastId == 0
    {
      hide ServeAll, Released, LastIdScript, Serve, Literals.IdOf, Bound, Fits, Labelled, All, SqlLexer.Lex,
        SqlLexer.Flatten, Interpolate.Subst, Interpolate.CountHoles, Literals.GoodValue, IdText;
      BoundMeans(stmts[k].sql, args);
      ExecStmtPerforms(View(), k, args, a, b);
      NoneReleased(server, 0);
      ok, lastId := false, 0;
      if stmts[k].closed || closed {
        return;
      }
      var good, interpolatedSQL := Bind(stmts[k].sql, args);
      if !good {
        return;
      }
      ghost var start := server;
      var resp;
      ghost var first, rest, last: seq<Exchange> := [], [], [];
      if |args| > 0 {
        first := [Exchange(PrepareAndExecute(interpolatedSQL, autoCommit), a)];
        resp := ExecSQL(interpolatedSQL, a);
      } else {
        first := [Exchange(Execute(stmts[k].handle, stmts[k].Selects(), [], autoCommit), a)];
        resp := SendAndRecv(Execute(stmts[k].handle, stmts[k].Selects(), [], autoCommit), a);
      }
      assert first + [] == first;
      if resp.Refused? {
        return;
      }
      NoneReleased(server, resp.handle);
      if |args| > 0 {
        rest := Released(resp.handle);
        if resp.handle > 0 {
          CloseQueryHandle(resp.handle);
        }
      }
      NoneReleased(server, 0);
      if stmts[k].Inserts() {
        last := LastIdScript(autoCommit, b);
        lastId := FetchLastInsertId(b, found);
      }
      ServeThree(start, first, rest, last);
      ok := true;
    }

    method QueryStmt(k: nat, args: seq<Values.Value>, a: Answer) returns (ok: bool)
      requires k < |stmts| && forall v | v in args :: Literals.GoodValue(v)
      modifies this
      ensures View() == Step(old(View()), StmtQuery(k, Bound(old(stmts[k].sql), args), a))
      ensures ok <==> !closed && !stmts[k].closed && Fits(stmts[k].sql, args) && a.Granted?
      ensures rows == old(rows) +
        (if ok then [Rows(if args == [] then stmts[k].handle else a.handle, args != [], false)] else [])
      ensures ok ==>
        && (args != [] ==>
              All(server) == All(old(server))
                + [SqlLexer.Flatten(Interpolate.Subst(SqlLexer.Lex(stmts[k].sql), args))])
        && (args == [] && Labelled(old(View())) && Alive(stmts[k]) ==>
              All(server) == All(old(server)) + [stmts[k].sql])
      ensures !ok ==> All(server) == All(old(server)) && (a.Granted? ==> View() == old(View()))
    {
      hide ServeAll, Serve, Bound, Fits, Labelled, All, SqlLexer.Lex, SqlLexer.Flatten, Interpolate.Subst,
        Interpolate.CountHoles, Literals.GoodValue;
      BoundMeans(stmts[k].sql, args);
      QueryStmtPerforms(View(), k, args, a);
      NoneReleased(server, 0);
      if stmts[k].closed || closed {
        return false;
      }
      var qh, ownsHandle;
      var good, interpolatedSQL := Bind(stmts[k].sql, args);
      if !good {
        return false;
      }
      if |args| > 0 {
        var resp := ExecSQL(interpolatedSQL, a);
        if resp.Refused? {
          return false;
        }
        qh, ownsHandle := resp.handle, true;
      } else {
        var resp := SendAndRecv(Execute(stmts[k].handle, stmts[k].Selects(), [], autoCommit), a);
        if resp.Refused? {
          return false;
        }
        qh, ownsHandle := stmts[k].handle, false;
      }
      rows := rows + [Rows(qh, ownsHandle, false)];
      return true;
    }

    method CloseStmt(k: nat)
      requires k < |stmts|
      modifies this
      ensures View() == Step(old(View()), StmtClose(k))
    {
      hide ServeAll, Released, Serve;
      var s := stmts[k];
      NoneReleased(server, s.handle);
      if s.closed {
        return;
      }
      stmts := stmts[k := s.(closed := true)];
      if s.handle > 0 {
        CloseQueryHandle(s.handle);
        stmts := stmts[k := stmts[k].(handle := 0)];
        assert stmts == old(stmts)[k := s.(closed := true, handle := 0)];
      }
    }

    /** namedValuesToValues and InterpolateArgs, as both one-shot calls use them. */
    method Interpolated(query: Bytes, named: bool, args: seq<Values.Value>) returns (ok: bool, text: Bytes)
      requires forall v | v in args :: Literals.GoodValue(v)
      ensures OneShotText(query, named, args) == if ok then Text(text) else Bad
    {
      if named {
        return false, [];
      }
      ok, text := Bind(query, args);
      if |args| == 0 {
        text := query;
      }
    }

    method Query(ctx: Ctx, query: Bytes, named: bool, args: seq<Values.Value>, a: Answer) returns (ok: bool)
      requires forall v | v in args :: Literals.GoodValue(v)
      modifies this
      ensures View() == Step(old(View()), QueryContext(ctx, OneShotText(query, named, args), a))
      ensures ok <==> !closed && ctx.Live? && !named && Fits(query, args) && a.Granted?
      ensures rows == old(rows) + (if ok then [Rows(a.handle, a.handle > 0, false)] else [])
      ensures closed || ctx.DoneBefore? || named || !Fits(query, args) ==> View() == old(View())
      ensures !closed && !ctx.DoneBefore? && !named && Fits(query, args) ==>
        var written := if args == [] then query
                       else SqlLexer.Flatten(Interpolate.Subst(SqlLexer.Lex(query), args));
        All(server) == All(old(server)) + (if a.Granted? then [written] else [])
    {
      hide ServeAll, Serve, OneShotText, Fits, All, SqlLexer.Lex, SqlLexer.Flatten, Interpolate.Subst,
        Interpolate.CountHoles, Literals.GoodValue;
      OneShotMeans(query, named, args);
      OneShotsPerform(View(), ctx, query, named, args, a, a);
      NoneReleased(server, 0);
      if closed || ctx.DoneBefore? {
        return false;
      }
      var good, interpolatedSQL := Interpolated(query, named, args);
      if !good {
        return false;
      }
      var resp := ExecSQL(interpolatedSQL, a);
      if resp.Refused? {
        return false;
      }
      if ctx.DoneAfter? {
        leaked := if resp.handle > 0 then leaked + multiset{resp.handle} else leaked;
        return false;
      }
      rows := rows + [Rows(resp.handle, resp.handle > 0, false)];
      return true;
    }

    /** The end of ExecContext: the id of an INSERT, then the release of the handle. */
    method FinishExec(resp: Answer, b: Answer, found: seq<seq<Response.Cell>>) returns (lastId: int)
      requires !closed && resp.Granted?
      modifies this`server
      ensures server == ServeAll(old(server),
                                 (if resp.Inserts() then LastIdScript(autoCommit, b) else []) + Released(resp.handle))
      ensures if resp.stmtType == 20 && b.Granted? then Literals.IdOf(found, lastId) else lastId == 0
    {
      hide ServeAll, Released, LastIdScript, Serve, Literals.IdOf;
      lastId := 0;
      NoneReleased(server, 0);
      ServeConcat(server, if resp.Inserts() then LastIdScript(autoCommit, b) else [], Released(resp.handle));
      if resp.Inserts() {
        lastId := FetchLastInsertId(b, found);
      }
      NoneReleased(server, resp.handle);
      if resp.handle > 0 {
        CloseQueryHandle(resp.handle);
      }
    }

    method Exec(ctx: Ctx, query: Bytes, named: bool, args: seq<Values.Value>, a: Answer, b: Answer,
                found: seq<seq<Response.Cell>>) returns (ok: bool, lastId: int)
      requires forall v | v in args :: Literals.GoodValue(v)
      modifies this
      ensures View() == Step(old(View()), ExecContext(ctx, OneShotText(query, named, args), a, b))
      ensures ok <==> !closed && ctx.Live? && !named && Fits(query, args) && a.Granted?
      ensures closed || ctx.DoneBefore? || named || !Fits(query, args) ==> View() == old(View())
      ensures !closed && !ctx.DoneBefore? && !named && Fits(query, args) ==>
        var written := if args == [] then query
                       else SqlLexer.Flatten(Interpolate.Subst(SqlLexer.Lex(query), args));
        All(server) == if a.Refused? then All(old(server))
                       else All(old(server)) + ([written] + (if ok && a.stmtType == 20 then IdText(b) else []))
      ensures if ok && a.stmtType == 20 && b.Granted? then Literals.IdOf(found, lastId) else lastId == 0
    {
      hide ServeAll, Released, LastIdScript, Serve, OneShotText, Literals.IdOf, Fits, All, SqlLexer.Lex,
        SqlLexer.Flatten, Interpolate.Subst, Interpolate.CountHoles, Literals.GoodValue, IdText;
      OneShotMeans(query, named, args);
      OneShotsPerform(View(), ctx, query, named, args, a, b);
      NoneReleased(server, 0);
      ok, lastId := false, 0;
      if closed || ctx.DoneBefore? {
        return;
      }
      var good, interpolatedSQL := Interpolated(query, named, args);
      if !good {
        return;
      }
      ghost var first := [Exchange(PrepareAndExecute(interpolatedSQL, autoCommit), a)];
      assert first + [] == first;
      ghost var start := server;
      var resp := ExecSQL(interpolatedSQL, a);
      if resp.Refused? {
        return;
      }
      if ctx.DoneAfter? {
        leaked := if resp.handle > 0 then leaked + multiset{resp.handle} else leaked;
        return;
      }
      lastId := FinishExec(resp, b, found);
      ServeConcat(start, first, (if resp.Inserts() then LastIdScript(autoCommit, b) else []) + Released(resp.handle));
      ok := true;
    }

    /** The FETCH of rows.Next; rows buffered in the client need no exchange. */
    method FetchRows(k: nat, start: int, a: Answer)
      requires k < |rows|
      modifies this`server
      ensures View() == Step(old(View()), RowsNext(k, start, a))
    {
      hide ServeAll, Serve;
      NoneReleased(server, 0);
      if rows[k].closed {
        return;
      }
      var _ := SendAndRecv(Fetch(rows[k].handle, start, 100), a);
    }

    method CloseRows(k: nat)
      requires k < |rows|
      modifies this
      ensures View() == Step(old(View()), RowsClose(k))
    {
      hide ServeAll, Released, Serve;
      var r := rows[k];
      NoneReleased(server, 0);
      NoneReleased(server, r.handle);
      if r.closed {
        return;
      }
      rows := rows[k := r.(closed := true)];
      if r.owns && r.handle > 0 {
        CloseQueryHandle(r.handle);
        rows := rows[k := rows[k].(handle := 0)];
        assert rows == old(rows)[k := r.(closed := true, handle := 0)];
      }
    }

    method BeginTransaction() returns (ok: bool)
      modifies this`autoCommit
      ensures View() == Step(old(View()), Begin)
      ensures ok <==> !closed
    {
      if closed {
        return false;
      }
      autoCommit := false;
      return true;
    }

    method BeginTransactionCtx(expired: bool) returns (ok: bool)
      modifies this`autoCommit
      ensures View() == Step(old(View()), BeginTx(expired))
      ensures ok <==> !closed && !expired
    {
      if closed || expired {
        return false;
      }
      autoCommit := false;
      return true;
    }

    method CommitTransaction(a: Answer) returns (ok: bool)
      modifies this`autoCommit, this`server
      ensures View() == Step(old(View()), Commit(a))
      ensures ok <==> !closed && a.Granted?
      ensures ok ==> autoCommit && server.committed == All(old(server)) && server.pending == []
      ensures !ok ==> autoCommit == old(autoCommit)
    {
      hide ServeAll, Serve;
      if !closed && a.Granted? {
        EndEffect(View(), Commit(a));
      }
      NoneReleased(server, 0);
      var resp := SendAndRecv(EndTran(TX_COMMIT), a);
      if resp.Refused? {
        return false;
      }
      autoCommit := true;
      return true;
    }

    method RollbackTransaction(a: Answer) returns (ok: bool)
      modifies this`autoCommit, this`server
      ensures View() == Step(old(View()), Rollback(a))
      ensures ok <==> !closed && a.Granted?
      ensures ok ==> autoCommit && server.committed == old(server).committed && server.pending == []
      ensures !ok ==> autoCommit == old(autoCommit)
    {
      hide ServeAll, Serve;
      if !closed && a.Granted? {
        EndEffect(View(), Rollback(a));
      }
      NoneReleased(server, 0);
      var resp := SendAndRecv(EndTran(TX_ROLLBACK), a);
      if resp.Refused? {
        return false;
      }
      autoCommit := true;
      return true;
    }

    /** Ping and ServerVersion send the same request, always with flag 1. */
    method PingServer(a: Answer) returns (ok: bool)
      modifies this`server
      ensures View() == Step(old(View()), Ping(a))
      ensures ok <==> !closed && a.Granted?
    {
      hide ServeAll, Serve;
      NoneReleased(server, 0);
      if closed {
        return false;
      }
      var resp := SendAndRecv(DbVersion(true), a);
      return resp.Granted?;
    }

    method CloseConn()
      modifies this
      ensures View() == Step(old(View()), Close)
    {
      hide ServeAll, Serve;
      NoneReleased(server, 0);
      if closed {
        return;
      }
      var _ := SendAndRecv(ConClose, ACK);
      closed := true;
    }
  }

  lemma NoneReleased(s: Server, h: int)
    ensures ServeAll(s, []) == s
    ensures h <= 0 ==> ServeAll(s, Released(h)) == s
  {
  }

  lemma ServeThree(s: Server, xs: seq<Exchange>, ys: seq<Exchange>, zs: seq<Exchange>)
    ensures ServeAll(s, xs + (ys + zs)) == ServeAll(ServeAll(ServeAll(s, xs), ys), zs)
  {
    ServeConcat(s, xs, ys + zs);
    ServeConcat(ServeAll(s, xs), ys, zs);
  }
}
