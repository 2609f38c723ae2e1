/**
  conn.go, stmt.go, rows.go, tx.go: one connection as a state machine over its exchanges
  with an abstract server that holds open handles, committed and pending statements.
 */
module Session {
  import opened Wire
  import opened Requests
  import Response

  // ----- the abstract server

  /**
    A reply: a server-side error, or success. `handle` is the new handle, 0 for none, and
    `stmtType` the kind of the statement that was prepared.
   */
  datatype Answer = Refused | Granted(handle: int, stmtType: int) {
    predicate Inserts() { Granted? && stmtType == Response.STMT_INSERT }
  }

  /**
    Open handles with the statement each holds, and the statements executed so far.
    `versionCommits` says whether the commit flag of a version request commits too, and
    `log` holds every request received.
   */
  datatype Server = Server(
    open: map<int, Bytes>,
    committed: seq<Bytes>,
    pending: seq<Bytes>,
    log: seq<Request>,
    versionCommits: bool)

  datatype Exchange = Exchange(request: Request, answer: Answer)

  const TX_COMMIT: byte := 1
  const TX_ROLLBACK: byte := 2

  function Opened(s: Server, h: int, sql: Bytes): Server {
    if h > 0 then s.(open := s.open[h := sql]) else s
  }

  /** With the commit flag a statement commits everything pending; without it, it is pending. */
  function Performed(s: Server, sql: Bytes, autoCommit: bool): (t: Server)
    ensures t.open == s.open
  {
    if autoCommit then s.(committed := s.committed + s.pending + [sql], pending := [])
    else s.(pending := s.pending + [sql])
  }

  function Flushed(s: Server): (t: Server)
    ensures t.open == s.open
  {
    s.(committed := s.committed + s.pending, pending := [])
  }

  function Effect(s: Server, x: Exchange): Server
    requires x.answer.Granted?
  {
    match x.request
    case Prepare(sql, _) => Opened(s, x.answer.handle, sql)
    case PrepareAndExecute(sql, ac) => Performed(Opened(s, x.answer.handle, sql), sql, ac)
    case Execute(h, _, _, ac) => if h in s.open then Performed(s, s.open[h], ac) else s
    case CloseHandle(h) => s.(open := s.open - {h})
    case EndTran(kind) =>
      if kind == 1 then Flushed(s) else if kind == 2 then s.(pending := []) else s
    case DbVersion(ac) => if ac && s.versionCommits then Flushed(s) else s
    case ConClose => s.(open := map[], pending := [])
    case Fetch(_, _, _) => s
    case LastInsertId => s
  }

  function Serve(s: Server, x: Exchange): Server {
    var t := if x.answer.Granted? then Effect(s, x) else s;
    t.(log := s.log + [x.request])
  }

  function ServeAll(s: Server, xs: seq<Exchange>): Server
    decreases |xs|
  {
    if xs == [] then s else ServeAll(Serve(s, xs[0]), xs[1..])
  }

  // ----- the client

  /** stmt and rows objects of the connection, in the order they were made. */
  datatype Stmt = Stmt(handle: int, sql: Bytes, stmtType: int, closed: bool) {
    predicate Inserts() { stmtType == Response.STMT_INSERT }
    predicate Selects() { stmtType == Response.STMT_SELECT }
  }
  datatype Rows = Rows(handle: int, owns: bool, closed: bool)

  /** `leaked` collects handles whose only owner was dropped. */
  datatype State = State(
    autoCommit: bool,
    closed: bool,
    stmts: seq<Stmt>,
    rows: seq<Rows>,
    leaked: multiset<int>,
    server: Server)

  /** When a context is done: not during the call, before it, or between response and check. */
  datatype Ctx = Live | DoneBefore | DoneAfter

  /** The arguments of a call: none, a text to interpolate successfully to, or an error. */
  datatype Args = NoArgs | Text(sql: Bytes) | Bad

  datatype Op =
    | DoPrepare(sql: Bytes, a: Answer)
    | StmtExec(k: nat, args: Args, a: Answer, b: Answer)
    | StmtQuery(k: nat, args: Args, a: Answer)
    | StmtClose(k: nat)
    | QueryContext(ctx: Ctx, text: Args, a: Answer)
    | ExecContext(ctx: Ctx, text: Args, a: Answer, b: Answer)
    | RowsNext(k: nat, start: int, a: Answer)
    | RowsClose(k: nat)
    | Begin
    | BeginTx(expired: bool)
    | Commit(a: Answer)
    | Rollback(a: Answer)
    | Ping(a: Answer)
    | Close

  const LAST_ID_SQL: Bytes := Ascii("SELECT LAST_INSERT_ID()")
  const ACK := Granted(0, 0)

  function Released(h: int): seq<Exchange> {
    if h > 0 then [Exchange(CloseHandle(h), ACK)] else []
  }

  /** fetchLastInsertID: a one-shot query whose handle is closed at once. */
  function LastIdScript(autoCommit: bool, b: Answer): seq<Exchange> {
    [Exchange(PrepareAndExecute(LAST_ID_SQL, autoCommit), b)] + (if b.Granted? then Released(b.handle) else [])
  }

  /** Every operation, on indices that exist. */
  predicate Applies(st: State, op: Op) {
    match op
    case StmtExec(k, _, _, _) => k < |st.stmts|
    case StmtQuery(k, _, _) => k < |st.stmts|
    case StmtClose(k) => k < |st.stmts|
    case RowsNext(k, _, _) => k < |st.rows|
    case RowsClose(k) => k < |st.rows|
    case _ => true
  }

  /** What a call puts on the wire, in order. A closed socket carries nothing. */
  function Script(st: State, op: Op): seq<Exchange>
    requires Applies(st, op)
  {
    if st.closed then [] else
    match op
    case DoPrepare(sql, a) => [Exchange(Prepare(sql, st.autoCommit), a)]
    case StmtExec(k, args, a, b) =>
      var s := st.stmts[k];
      if s.closed || args.Bad? then []
      else
        var first := if args.Text? then PrepareAndExecute(args.sql, st.autoCommit)
                     else Execute(s.handle, s.Selects(), [], st.autoCommit);
        [Exchange(first, a)] +
        (if a.Refused? then []
         else (if args.Text? then Released(a.handle) else [])
              + (if s.Inserts() then LastIdScript(st.autoCommit, b) else []))
    case StmtQuery(k, args, a) =>
      var s := st.stmts[k];
      if s.closed || args.Bad? then []
      else if args.Text? then [Exchange(PrepareAndExecute(args.sql, st.autoCommit), a)]
      else [Exchange(Execute(s.handle, s.Selects(), [], st.autoCommit), a)]
    case StmtClose(k) => if st.stmts[k].closed then [] else Released(st.stmts[k].handle)
    case QueryContext(ctx, text, a) =>
      if ctx.DoneBefore? || !text.Text? then [] else [Exchange(PrepareAndExecute(text.sql, st.autoCommit), a)]
    case ExecContext(ctx, text, a, b) =>
      if ctx.DoneBefore? || !text.Text? then []
      else
        [Exchange(PrepareAndExecute(text.sql, st.autoCommit), a)] +
        (if a.Refused? || ctx.DoneAfter? then []
         else (if a.Inserts() then LastIdScript(st.autoCommit, b) else []) + Released(a.handle))
    case RowsNext(k, start, a) => if st.rows[k].closed then [] else [Exchange(Fetch(st.rows[k].handle, start, 100), a)]
    case RowsClose(k) => if st.rows[k].closed || !st.rows[k].owns then [] else Released(st.rows[k].handle)
    case Begin => []
    case BeginTx(_) => []
    case Commit(a) => [Exchange(EndTran(TX_COMMIT), a)]
    case Rollback(a) => [Exchange(EndTran(TX_ROLLBACK), a)]
    case Ping(a) => [Exchange(DbVersion(true), a)]
    case Close => [Exchange(ConClose, ACK)]
  }

  /** A query or exec whose context is found done after a response that opened a handle. */
  predicate Leaks(st: State, op: Op) {
    && !st.closed
    && ((op.QueryContext? && op.ctx.DoneAfter? && op.text.Text? && op.a.Granted? && op.a.handle > 0)
        || (op.ExecContext? && op.ctx.DoneAfter? && op.text.Text? && op.a.Granted? && op.a.handle > 0))
  }

  /** What a call changes in the client's own objects. */
  function Client(st: State, op: Op): State
    requires Applies(st, op)
  {
    match op
    case DoPrepare(sql, a) =>
      if st.closed || a.Refused? then st
      else st.(stmts := st.stmts + [Stmt(a.handle, sql, a.stmtType, false)])
    case StmtQuery(k, args, a) =>
      var s := st.stmts[k];
      if st.closed || s.closed || args.Bad? || a.Refused? then st
      else st.(rows := st.rows + [if args.Text? then Rows(a.handle, true, false) else Rows(s.handle, false, false)])
    case StmtClose(k) =>
      var s := st.stmts[k];
      if s.closed then st
      else st.(stmts := st.stmts[k := s.(closed := true, handle := if s.handle > 0 then 0 else s.handle)])
    case QueryContext(ctx, text, a) =>
      if st.closed || ctx.DoneBefore? || !text.Text? || a.Refused? then st
      else if ctx.DoneAfter? then Dropped(st, a.handle)
      else st.(rows := st.rows + [Rows(a.handle, a.handle > 0, false)])
    case ExecContext(ctx, text, a, _) =>
      if st.closed || !ctx.DoneAfter? || !text.Text? || a.Refused? then st else Dropped(st, a.handle)
    case RowsClose(k) =>
      var r := st.rows[k];
      if r.closed then st
      else st.(rows := st.rows[k := r.(closed := true, handle := if r.owns && r.handle > 0 then 0 else r.handle)])
    case Begin => if st.closed then st else st.(autoCommit := false)
    case BeginTx(expired) => if st.closed || expired then st else st.(autoCommit := false)
    case Commit(a) => if st.closed || a.Refused? then st else st.(autoCommit := true)
    case Rollback(a) => if st.closed || a.Refused? then st else st.(autoCommit := true)
    case Close => st.(closed := true)
    case _ => st
  }

  function Dropped(st: State, h: int): State {
    if h > 0 then st.(leaked := st.leaked + multiset{h}) else st
  }

  function Step(st: State, op: Op): State
    requires Applies(st, op)
  {
    Client(st, op).(server := ServeAll(st.server, Script(st, op)))
  }

  /** New handles are not open yet. */
  predicate Admissible(s: Server, xs: seq<Exchange>)
    decreases |xs|
  {
    xs == [] || (Fresh(s, xs[0]) && Admissible(Serve(s, xs[0]), xs[1..]))
  }

  predicate Fresh(s: Server, x: Exchange) {
    x.answer.Granted? && (x.request.Prepare? || x.request.PrepareAndExecute?) ==>
      x.answer.handle >= 0 && x.answer.handle !in s.open
  }

  predicate Enabled(st: State, op: Op) {
    Applies(st, op) && Admissible(st.server, Script(st, op))
  }

  predicate EnabledAll(st: State, ops: seq<Op>)
    decreases |ops|
  {
    ops == [] || (Enabled(st, ops[0]) && EnabledAll(Step(st, ops[0]), ops[1..]))
  }

  function Run(st: State, ops: seq<Op>): State
    requires EnabledAll(st, ops)
    decreases |ops|
  {
    if ops == [] then st else Run(Step(st, ops[0]), ops[1..])
  }

  /** A connection as connect leaves it: no handle, nothing pending, and the autoCommit flag of its DSN. */
  predicate Initial(st: State) {
    && !st.closed && st.stmts == [] && st.rows == [] && st.leaked == multiset{}
    && st.server.open == map[] && st.server.pending == []
  }
}
