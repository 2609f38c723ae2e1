/**
  conn.go, stmt.go, rows.go, tx.go: what each call makes the server receive and perform,
  request by request and statement by statement, and that a stmt's handle holds its text.
 */
module Effects {
  import opened Wire
  import opened Requests
  import opened Session
  import opened Handles
  import opened Transactions

  /** Between s and t the server received these requests and performed these statements, in order. */
  predicate Ran(s: Server, t: Server, statements: seq<Bytes>, requests: seq<Request>) {
    && t.committed + t.pending == s.committed + s.pending + statements
    && t.log == s.log + requests
  }

  predicate Same(s: Server, t: Server) { Ran(s, t, [], []) }

  /** The nested query for the id of an INSERT, and the release of its handle. */
  function IdText(b: Answer): seq<Bytes> {
    if b.Granted? then [Ascii("SELECT LAST_INSERT_ID()")] else []
  }

  function IdRequests(autoCommit: bool, b: Answer): seq<Request> {
    [PrepareAndExecute(Ascii("SELECT LAST_INSERT_ID()"), autoCommit)] +
    (if b.Granted? && b.handle > 0 then [CloseHandle(b.handle)] else [])
  }

  // ----- exchanges

  lemma Chain(s: Server, t: Server, u: Server, a: seq<Bytes>, b: seq<Bytes>, p: seq<Request>, q: seq<Request>)
    requires Ran(s, t, a, p) && Ran(t, u, b, q)
    ensures Ran(s, u, a + b, p + q)
  {
    assert s.committed + s.pending + a + b == s.committed + s.pending + (a + b);
    assert s.log + p + q == s.log + (p + q);
  }

  lemma NothingRan(s: Server)
    ensures Ran(s, s, [], [])
  {
  }

  lemma OneRan(s: Server, x: Exchange)
    requires !EndsExchange(x)
    ensures Ran(s, ServeAll(s, [x]), PerformedBy(s, x), [x.request])
  {
    ServeOne(s, x);
    var did := PerformedBy(s, x);
    assert did == [] ==> s.committed + s.pending + [] == s.committed + s.pending;
    assert s.committed + (s.pending + did) == s.committed + s.pending + did;
  }

  lemma ReleaseRan(s: Server, h: int)
    ensures Ran(s, ServeAll(s, Released(h)), [], if h > 0 then [CloseHandle(h)] else [])
  {
    if h > 0 {
      OneRan(s, Exchange(CloseHandle(h), ACK));
    }
  }

  lemma LastIdRan(s: Server, ac: bool, b: Answer)
    ensures Ran(s, ServeAll(s, LastIdScript(ac, b)), IdText(b), IdRequests(ac, b))
  {
    hide Ran, ServeAll, Released;
    var x := Exchange(PrepareAndExecute(LAST_ID_SQL, ac), b);
    var rest := if b.Granted? then Released(b.handle) else [];
    OneRan(s, x);
    var t := ServeAll(s, [x]);
    ServeConcat(s, [x], rest);
    if b.Granted? {
      ReleaseRan(t, b.handle);
      Chain(s, t, ServeAll(t, rest), [Ascii("SELECT LAST_INSERT_ID()")], [], [x.request],
            if b.handle > 0 then [CloseHandle(b.handle)] else []);
      assert [LAST_ID_SQL] + [] == [LAST_ID_SQL];
    } else {
      assert [x] + [] == [x] && [x.request] + [] == [x.request];
    }
  }

  /** The nested query is made for INSERT only. */
  lemma IdPartRan(s: Server, inserts: bool, ac: bool, b: Answer)
    ensures Ran(s, ServeAll(s, if inserts then LastIdScript(ac, b) else []),
                if inserts then IdText(b) else [], if inserts then IdRequests(ac, b) else [])
  {
    hide Ran, LastIdScript, IdText, IdRequests;
    if inserts {
      LastIdRan(s, ac, b);
    } else {
      NothingRan(s);
    }
  }

  /** From any server these exchanges have this effect. */
  ghost predicate AlwaysRuns(xs: seq<Exchange>, statements: seq<Bytes>, requests: seq<Request>) {
    forall s :: Ran(s, ServeAll(s, xs), statements, requests)
  }

  /** Both parts that may follow a one-shot execution. */
  lemma PartsRun(h: int, inserts: bool, ac: bool, b: Answer)
    ensures AlwaysRuns(Released(h), [], if h > 0 then [CloseHandle(h)] else [])
    ensures AlwaysRuns(if inserts then LastIdScript(ac, b) else [],
                       if inserts then IdText(b) else [], if inserts then IdRequests(ac, b) else [])
  {
    hide Ran, ServeAll, Released, LastIdScript, IdText, IdRequests;
    forall s
      ensures Ran(s, ServeAll(s, Released(h)), [], if h > 0 then [CloseHandle(h)] else [])
    {
      ReleaseRan(s, h);
    }
    var last := if inserts then LastIdScript(ac, b) else [];
    forall s
      ensures Ran(s, ServeAll(s, last),
                  if inserts then IdText(b) else [], if inserts then IdRequests(ac, b) else [])
    {
      IdPartRan(s, inserts, ac, b);
    }
  }

  lemma ThreeRan(s: Server, x: Exchange, ys: seq<Exchange>, zs: seq<Exchange>,
                 b: seq<Bytes>, c: seq<Bytes>, q: seq<Request>, r: seq<Request>)
    requires !EndsExchange(x)
    requires AlwaysRuns(ys, b, q) && AlwaysRuns(zs, c, r)
    ensures Ran(s, ServeAll(s, [x] + (ys + zs)), PerformedBy(s, x) + (b + c), [x.request] + (q + r))
  {
    hide Ran, ServeAll, EndsExchange, PerformedBy;
    OneRan(s, x);
    var t := ServeAll(s, [x]);
    var u := ServeAll(t, ys);
    ServeConcat(s, [x], ys + zs);
    ServeConcat(t, ys, zs);
    Chain(t, u, ServeAll(u, zs), b, c, q, r);
    Chain(s, t, ServeAll(t, ys + zs), PerformedBy(s, x), b + c, [x.request], q + r);
  }

  // ----- calls

  /** A call on a closed socket, a closed stmt or with bad arguments sends nothing. */
  predicate Sends(st: State, k: nat, args: Args)
    requires k < |st.stmts|
  {
    !st.closed && !st.stmts[k].closed && !args.Bad?
  }

  /**
    stmt.Exec with arguments: the interpolated text is sent and performed, its handle is
    closed, and for an INSERT the nested query follows. The client's objects stay.
   */
  lemma ExecTextDoes(st: State, k: nat, sql: Bytes, a: Answer, b: Answer)
    requires k < |st.stmts| && Sends(st, k, Text(sql))
    ensures var t := Step(st, StmtExec(k, Text(sql), a, b));
      var ac := st.autoCommit;
      var insert := st.stmts[k].stmtType == 20;
      && t == st.(server := t.server)
      && if a.Refused? then Ran(st.server, t.server, [], [PrepareAndExecute(sql, ac)])
         else Ran(st.server, t.server, [sql] + (if insert then IdText(b) else []),
                  [PrepareAndExecute(sql, ac)]
                  + ((if a.handle > 0 then [CloseHandle(a.handle)] else [])
                     + (if insert then IdRequests(ac, b) else [])))
  {
    hide Ran, ServeAll, LastIdScript, Released, IdText, IdRequests;
    var x := Exchange(PrepareAndExecute(sql, st.autoCommit), a);
    var inserts := st.stmts[k].Inserts();
    var last := if inserts then LastIdScript(st.autoCommit, b) else [];
    if a.Refused? {
      assert [x] + [] == [x];
      OneRan(st.server, x);
    } else {
      PartsRun(a.handle, inserts, st.autoCommit, b);
      ThreeRan(st.server, x, Released(a.handle), last, [], if inserts then IdText(b) else [],
               if a.handle > 0 then [CloseHandle(a.handle)] else [],
               if inserts then IdRequests(st.autoCommit, b) else []);
      assert [] + (if inserts then IdText(b) else []) == if inserts then IdText(b) else [];
    }
  }

  /** The text that executing a handle performs: the one it was opened with. */
  function Held(s: Server, h: int): seq<Bytes> { if h in s.open then [s.open[h]] else [] }

  /** stmt.Exec without arguments: the statement that the stmt's handle holds is performed. */
  lemma ExecHandleDoes(st: State, k: nat, a: Answer, b: Answer)
    requires k < |st.stmts| && Sends(st, k, NoArgs)
    ensures var t := Step(st, StmtExec(k, NoArgs, a, b));
      var ac := st.autoCommit;
      var s := st.stmts[k];
      var insert := s.stmtType == 20;
      && t == st.(server := t.server)
      && if a.Refused? then Ran(st.server, t.server, [], [Execute(s.handle, s.stmtType == 21, [], ac)])
         else Ran(st.server, t.server, Held(st.server, s.handle) + (if insert then IdText(b) else []),
                  [Execute(s.handle, s.stmtType == 21, [], ac)] + (if insert then IdRequests(ac, b) else []))
  {
    hide Ran, ServeAll, LastIdScript, Released, IdText, IdRequests;
    var s := st.stmts[k];
    var x := Exchange(Execute(s.handle, s.stmtType == 21, [], st.autoCommit), a);
    var inserts := s.Inserts();
    var last := if inserts then LastIdScript(st.autoCommit, b) else [];
    if a.Refused? {
      assert [x] + [] == [x];
      OneRan(st.server, x);
    } else {
      OneRan(st.server, x);
      var t := ServeAll(st.server, [x]);
      ServeConcat(st.server, [x], last);
      IdPartRan(t, inserts, st.autoCommit, b);
      Chain(st.server, t, ServeAll(t, last), Held(st.server, s.handle), if inserts then IdText(b) else [],
            [x.request], if inserts then IdRequests(st.autoCommit, b) else []);
      assert [] + last == last;
    }
  }

  /** A call that stops before it sends anything changes nothing. */
  lemma UnsentCalls(st: State, k: nat, args: Args, a: Answer, b: Answer)
    requires k < |st.stmts| && !Sends(st, k, args)
    ensures Step(st, StmtExec(k, args, a, b)) == st
    ensures Step(st, StmtQuery(k, args, a)) == st
  {
  }

  /** stmt.Query: the same statement is performed, and rows over its handle are made. */
  lemma QueryDoes(st: State, k: nat, args: Args, a: Answer)
    requires k < |st.stmts| && Sends(st, k, args)
    ensures var t := Step(st, StmtQuery(k, args, a));
      var ac := st.autoCommit;
      var s := st.stmts[k];
      var sent := if args.Text? then PrepareAndExecute(args.sql, ac) else Execute(s.handle, s.stmtType == 21, [], ac);
      if a.Refused? then t == st.(server := t.server) && Ran(st.server, t.server, [], [sent])
      else
        && t == st.(server := t.server,
                    rows := st.rows + [Rows(if args.Text? then a.handle else s.handle, args.Text?, false)])
        && Ran(st.server, t.server, if args.Text? then [args.sql] else Held(st.server, s.handle), [sent])
  {
    hide Ran, ServeAll;
    var x := Script(st, StmtQuery(k, args, a))[0];
    OneRan(st.server, x);
  }

  /** QueryContext: the text is performed even if the context is found done afterwards. */
  lemma QueryContextDoes(st: State, ctx: Ctx, sql: Bytes, a: Answer)
    requires !st.closed && !ctx.DoneBefore?
    ensures var t := Step(st, QueryContext(ctx, Text(sql), a));
      var sent := PrepareAndExecute(sql, st.autoCommit);
      if a.Refused? then t == st.(server := t.server) && Ran(st.server, t.server, [], [sent])
      else
        && Ran(st.server, t.server, [sql], [sent])
        && t.stmts == st.stmts && t.autoCommit == st.autoCommit && !t.closed
        && t.rows == st.rows + (if ctx.Live? then [Rows(a.handle, a.handle > 0, false)] else [])
        && t.leaked == st.leaked + (if ctx.DoneAfter? && a.handle > 0 then multiset{a.handle} else multiset{})
  {
    hide Ran, ServeAll;
    OneRan(st.server, Exchange(PrepareAndExecute(sql, st.autoCommit), a));
  }

  /** ExecContext: the text, then the nested query of an INSERT, then the release of the text's handle. */
  lemma ExecContextDoes(st: State, ctx: Ctx, sql: Bytes, a: Answer, b: Answer)
    requires !st.closed && !ctx.DoneBefore?
    ensures var t := Step(st, ExecContext(ctx, Text(sql), a, b));
      var ac := st.autoCommit;
      var sent := PrepareAndExecute(sql, ac);
      && t.stmts == st.stmts && t.rows == st.rows && t.autoCommit == st.autoCommit && !t.closed
      && if a.Refused? then t.leaked == st.leaked && Ran(st.server, t.server, [], [sent])
         else if ctx.DoneAfter? then
           && Ran(st.server, t.server, [sql], [sent])
           && t.leaked == st.leaked + (if a.handle > 0 then multiset{a.handle} else multiset{})
         else
           var insert := a.stmtType == 20;
           && t.leaked == st.leaked
           && Ran(st.server, t.server, [sql] + (if insert then IdText(b) else []),
                  [sent] + ((if insert then IdRequests(ac, b) else [])
                            + (if a.handle > 0 then [CloseHandle(a.handle)] else [])))
  {
    hide Ran, ServeAll, LastIdScript, Released, IdText, IdRequests;
    var x := Exchange(PrepareAndExecute(sql, st.autoCommit), a);
    var inserts := a.Inserts();
    var last := if inserts then LastIdScript(st.autoCommit, b) else [];
    if a.Refused? || ctx.DoneAfter? {
      assert [x] + [] == [x];
      OneRan(st.server, x);
    } else {
      PartsRun(a.handle, inserts, st.autoCommit, b);
      var ids := if inserts then IdText(b) else [];
      ThreeRan(st.server, x, last, Released(a.handle), ids, [],
               if inserts then IdRequests(st.autoCommit, b) else [],
               if a.handle > 0 then [CloseHandle(a.handle)] else []);
      assert ids + [] == ids;
    }
  }

  /** Without a text to send, or with a context done before, a one-shot call changes nothing. */
  lemma UnsentOneShots(st: State, ctx: Ctx, text: Args, a: Answer, b: Answer)
    requires st.closed || ctx.DoneBefore? || !text.Text?
    ensures Step(st, QueryContext(ctx, text, a)) == st
    ensures Step(st, ExecContext(ctx, text, a, b)) == st
  {
  }

  /** Prepare performs nothing and makes a stmt whose handle holds the text. */
  lemma PrepareDoes(st: State, sql: Bytes, a: Answer)
    requires !st.closed
    ensures var t := Step(st, DoPrepare(sql, a));
      && Ran(st.server, t.server, [], [Prepare(sql, st.autoCommit)])
      && if a.Refused? then t == st.(server := t.server)
         else
           && t == st.(server := t.server, stmts := st.stmts + [Stmt(a.handle, sql, a.stmtType, false)])
           && (a.handle > 0 ==> Held(t.server, a.handle) == [sql])
  {
    hide Ran;
    var x := Exchange(Prepare(sql, st.autoCommit), a);
    OneRan(st.server, x);
    ServeOne(st.server, x);
  }

  /** Each Close sends at most the release of the object's own handle, once; rows that do not own theirs send none. */
  lemma ClosesDo(st: State, k: nat)
    requires !st.closed
    ensures k < |st.stmts| ==>
      var s := st.stmts[k];
      var t := Step(st, StmtClose(k));
      && Ran(st.server, t.server, [], if !s.closed && s.handle > 0 then [CloseHandle(s.handle)] else [])
      && |t.stmts| == |st.stmts| && t.stmts[k].closed && Step(t, StmtClose(k)) == t
      && t == st.(server := t.server, stmts := t.stmts) && t.stmts == st.stmts[k := t.stmts[k]]
    ensures k < |st.rows| ==>
      var r := st.rows[k];
      var t := Step(st, RowsClose(k));
      && Ran(st.server, t.server, [], if !r.closed && r.owns && r.handle > 0 then [CloseHandle(r.handle)] else [])
      && |t.rows| == |st.rows| && t.rows[k].closed && Step(t, RowsClose(k)) == t
      && t == st.(server := t.server, rows := t.rows) && t.rows == st.rows[k := t.rows[k]]
  {
    hide Ran;
    NothingRan(st.server);
    if k < |st.stmts| { ReleaseRan(st.server, st.stmts[k].handle); }
    if k < |st.rows| { ReleaseRan(st.server, st.rows[k].handle); }
  }

  /** rows.Next asks for 100 rows, unless it is closed; Ping asks for the version with flag 1. */
  lemma AskingDoes(st: State, k: nat, start: int, a: Answer)
    requires !st.closed
    ensures k < |st.rows| && !st.rows[k].closed ==>
      var t := Step(st, RowsNext(k, start, a));
      t == st.(server := t.server) && Ran(st.server, t.server, [], [Fetch(st.rows[k].handle, start, 100)])
    ensures k < |st.rows| && st.rows[k].closed ==> Step(st, RowsNext(k, start, a)) == st
    ensures var t := Step(st, Ping(a));
      t == st.(server := t.server) && Ran(st.server, t.server, [], [DbVersion(true)])
  {
    hide Ran;
    OneRan(st.server, Exchange(DbVersion(true), a));
    if k < |st.rows| {
      OneRan(st.server, Exchange(Fetch(st.rows[k].handle, start, 100), a));
    }
  }

  lemma NoneServed(s: Server)
    ensures ServeAll(s, []) == s
  {
  }

  lemma OneAsked(s: Server, x: Exchange)
    ensures ServeAll(s, [x]).log == s.log + [x.request]
  {
    ServeOne(s, x);
  }

  /** Commit and Rollback send kinds 1 and 2. */
  lemma EndsDo(st: State, a: Answer)
    requires !st.closed
    ensures var t := Step(st, Commit(a));
      t.server.log == st.server.log + [EndTran(1)] && t == st.(server := t.server, autoCommit := t.autoCommit)
    ensures var t := Step(st, Rollback(a));
      t.server.log == st.server.log + [EndTran(2)] && t == st.(server := t.server, autoCommit := t.autoCommit)
    ensures Step(st, Commit(a)).autoCommit == (st.autoCommit || a.Granted?) == Step(st, Rollback(a)).autoCommit
  {
    hide ServeAll;
    OneAsked(st.server, Exchange(EndTran(1), a));
    OneAsked(st.server, Exchange(EndTran(2), a));
  }

  /** Close sends one request, Begin none. */
  lemma QuietCalls(st: State)
    requires !st.closed
    ensures var t := Step(st, Close);
      t.server.log == st.server.log + [ConClose] && t == st.(server := t.server, closed := true)
    ensures Step(st, Begin) == st.(autoCommit := false) && Step(st, BeginTx(false)) == st.(autoCommit := false)
    ensures Step(st, BeginTx(true)) == st
  {
    hide ServeAll;
    OneAsked(st.server, Exchange(ConClose, ACK));
    NoneServed(st.server);
  }

  /** A closed connection sends nothing, whatever is called. */
  lemma ClosedIsSilent(st: State, op: Op)
    requires Applies(st, op) && st.closed
    ensures Step(st, op).server == st.server && Step(st, op).closed
  {
  }

  // ----- a stmt's handle holds its text

  predicate Alive(s: Stmt) { !s.closed && s.handle > 0 }

  ghost predicate Labelled(st: State) {
    !st.closed ==> forall k | 0 <= k < |st.stmts| && Alive(st.stmts[k]) ::
      Held(st.server, st.stmts[k].handle) == [st.stmts[k].sql]
  }

  lemma FirstOwns(ss: seq<Stmt>, h: int)
    requires ss != []
    ensures StmtsOwn(ss)[h] == StmtOwns(ss[0])[h] + StmtsOwn(ss[1..])[h]
  {
  }

  lemma {:induction false} OwnedTwice(ss: seq<Stmt>, j: nat, k: nat)
    requires j < k < |ss| && Alive(ss[j]) && Alive(ss[k]) && ss[j].handle == ss[k].handle
    ensures StmtsOwn(ss)[ss[k].handle] >= 2
  {
    hide StmtsOwn;
    var h := ss[k].handle;
    FirstOwns(ss, h);
    if j > 0 {
      OwnedTwice(ss[1..], j - 1, k - 1);
    } else {
      StmtIn(ss[1..], k - 1);
      assert h in StmtsOwn(ss[1..]);
    }
  }

  /** A live stmt shares its handle with no other live stmt and with no open owning rows. */
  lemma SoleOwner(st: State, k: nat)
    requires Inv(st) && !st.closed && k < |st.stmts| && Alive(st.stmts[k])
    ensures st.stmts[k].handle in st.server.open
    ensures forall j | 0 <= j < |st.stmts| && j != k && Alive(st.stmts[j]) ::
      st.stmts[j].handle != st.stmts[k].handle
    ensures forall j | 0 <= j < |st.rows| && !st.rows[j].closed && st.rows[j].owns ::
      st.rows[j].handle != st.stmts[k].handle
  {
    hide StmtsOwn, AllRowsOwn;
    StmtOpen(st, k);
    var h := st.stmts[k].handle;
    assert multiset(st.server.open.Keys)[h] == 1;
    assert Owned(st)[h] == StmtsOwn(st.stmts)[h] + AllRowsOwn(st.rows)[h] + st.leaked[h];
    forall j | 0 <= j < |st.stmts| && j != k && Alive(st.stmts[j])
      ensures st.stmts[j].handle != h
    {
      if st.stmts[j].handle == h {
        OwnedTwice(st.stmts, if j < k then j else k, if j < k then k else j);
      }
    }
    StmtIn(st.stmts, k);
    assert StmtsOwn(st.stmts)[h] >= 1 && AllRowsOwn(st.rows)[h] == 0;
    forall j | 0 <= j < |st.rows| && !st.rows[j].closed && st.rows[j].owns
      ensures st.rows[j].handle != h
    {
      RowsIn(st.rows, j);
    }
  }

  /** An opening never takes a handle that is open. */
  lemma OpeningKeeps(st: State, op: Op)
    requires Enabled(st, op) && !st.closed && !op.StmtClose? && !op.RowsClose? && !op.Close?
    ensures forall h | h in st.server.open :: Held(Step(st, op).server, h) == Held(st.server, h)
  {
    hide Script, Admissible, Step;
    CallEffect(st, op);
    OpensFresh(st, op);
  }

  lemma OpensFresh(st: State, op: Op)
    requires Enabled(st, op) && !st.closed && !op.StmtClose? && !op.RowsClose? && !op.Close?
    ensures forall h | h in st.server.open :: h in OpenAfter(st, op) && OpenAfter(st, op)[h] == st.server.open[h]
  {
    hide Serve, Admissible, LastIdScript;
    FreshFirst(st, op);
  }

  /** The stmts after a call: those before, one more after Prepare, and one closed by Close. */
  lemma StmtsAfter(st: State, op: Op)
    requires Applies(st, op)
    ensures var ss := Client(st, op).stmts;
      if op.DoPrepare? && !st.closed && op.a.Granted? then
        ss == st.stmts + [Stmt(op.a.handle, op.sql, op.a.stmtType, false)]
      else |ss| == |st.stmts|
           && forall i | 0 <= i < |ss| && Alive(ss[i]) :: ss[i] == st.stmts[i] && (op.StmtClose? ==> i != op.k)
  {
  }

  lemma StepKeepsLabels(st: State, op: Op)
    requires Inv(st) && Labelled(st) && Enabled(st, op)
    ensures Labelled(Step(st, op))
  {
    hide Script, Client, Inv, Admissible, OpenAfter;
    var t := Step(st, op);
    if t.closed {
      return;
    }
    StaysClosed(st, op);
    StmtsAfter(st, op);
    forall k | 0 <= k < |t.stmts| && Alive(t.stmts[k])
      ensures Held(t.server, t.stmts[k].handle) == [t.stmts[k].sql]
    {
      if k < |st.stmts| {
        SoleOwner(st, k);
        KeepsHeld(st, op, k);
      } else {
        PrepareDoes(st, op.sql, op.a);
      }
    }
  }

  lemma StaysClosed(st: State, op: Op)
    requires Applies(st, op) && !Client(st, op).closed
    ensures !st.closed && !op.Close?
  {
  }

  /** A call keeps what a live stmt's handle holds, unless it closes that stmt. */
  lemma KeepsHeld(st: State, op: Op, k: nat)
    requires Inv(st) && Enabled(st, op) && !st.closed && !op.Close?
    requires k < |st.stmts| && Alive(st.stmts[k]) && !(op.StmtClose? && op.k == k)
    ensures Held(Step(st, op).server, st.stmts[k].handle) == Held(st.server, st.stmts[k].handle)
  {
    hide Script, Client, Inv, Admissible;
    SoleOwner(st, k);
    if op.StmtClose? || op.RowsClose? {
      CallEffect(st, op);
    } else {
      OpeningKeeps(st, op);
    }
  }

  /** In every run each live stmt's handle holds its text, and no other live object has that handle. */
  lemma {:induction false} LabelledEver(st: State, ops: seq<Op>)
    requires Inv(st) && Labelled(st) && EnabledAll(st, ops)
    ensures Inv(Run(st, ops)) && Labelled(Run(st, ops))
    decreases |ops|
  {
    hide Inv, Labelled, Step, Applies, Admissible;
    if ops != [] {
      StepKeepsInv(st, ops[0]);
      StepKeepsLabels(st, ops[0]);
      LabelledEver(Step(st, ops[0]), ops[1..]);
    }
  }

  /**
    So in every run of a connection a granted Exec of a stmt performs exactly the text its
    caller gave, or without arguments exactly the text it was prepared from; for an INSERT
    the query for the id follows. Query performs the same text alone.
   */
  lemma ExecPerforms(st: State, before: seq<Op>, k: nat, args: Args, a: Answer, b: Answer)
    requires Initial(st) && EnabledAll(st, before) && a.Granted?
    requires var u := Run(st, before); k < |u.stmts| && !u.closed && Alive(u.stmts[k]) && !args.Bad?
    ensures var u := Run(st, before);
      var text := if args.Text? then args.sql else u.stmts[k].sql;
      var t, q := Step(u, StmtExec(k, args, a, b)).server, Step(u, StmtQuery(k, args, a)).server;
      && t.committed + t.pending
         == u.server.committed + u.server.pending + ([text] + (if u.stmts[k].stmtType == 20 then IdText(b) else []))
      && q.committed + q.pending == u.server.committed + u.server.pending + [text]
  {
    hide Run, EnabledAll, Step, Inv;
    InitialInv(st);
    LabelledEver(st, before);
    var u := Run(st, before);
    if args.Text? {
      ExecTextDoes(u, k, args.sql, a, b);
    } else {
      ExecHandleDoes(u, k, a, b);
    }
    QueryDoes(u, k, args, a);
  }
}
