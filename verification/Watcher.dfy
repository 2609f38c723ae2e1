/**
  conn.go: the context watcher. Each context call applies a deadline, starts a watcher,
  talks to the server, and on return first clears the deadline and then stops the watcher,
  without waiting for it. Watchers of earlier calls may still be running.
 */
module Watcher {

  datatype Deadline = Clear | AtContext | Expired

  /** Where the calling thread is; a call is known by the index of its watcher. */
  datatype Pc = Idle | Applied | Exchanging | Returning

  datatype Watch = Watch(started: bool, contextDone: bool, stopped: bool, exited: bool)

  datatype State = State(deadline: Deadline, pc: Pc, watches: seq<Watch>)

  datatype Step =
    | Apply(hasDeadline: bool) // applyContextDeadline: a context without deadline changes nothing
    | Start                    // the watcher's goroutine
    | Reset                    // the deferred SetDeadline(time.Time{})
    | Stop                     // the deferred close(done); the call returns
    | Done(i: nat)             // context i is cancelled or expires
    | Fire(i: nat)             // watcher i takes the ctx.Done branch
    | Exit(i: nat)             // watcher i takes the done branch

  function Last(st: State): int { |st.watches| - 1 }

  predicate Enabled(st: State, a: Step) {
    match a
    case Apply(_) => st.pc.Idle?
    case Start => st.pc.Applied? && Last(st) >= 0
    case Reset => st.pc.Exchanging?
    case Stop => st.pc.Returning? && Last(st) >= 0
    case Done(i) => i < |st.watches|
    case Fire(i) =>
      i < |st.watches| && st.watches[i].started && !st.watches[i].exited && st.watches[i].contextDone
    case Exit(i) =>
      i < |st.watches| && st.watches[i].started && !st.watches[i].exited && st.watches[i].stopped
  }

  function Next(st: State, a: Step): State
    requires Enabled(st, a)
  {
    var ws := st.watches;
    match a
    case Apply(hasDeadline) =>
      State(if hasDeadline then AtContext else st.deadline, Applied, ws + [Watch(false, false, false, false)])
    case Start => st.(pc := Exchanging, watches := ws[Last(st) := ws[Last(st)].(started := true)])
    case Reset => st.(deadline := Clear, pc := Returning)
    case Stop => st.(pc := Idle, watches := ws[Last(st) := ws[Last(st)].(stopped := true)])
    case Done(i) => st.(watches := ws[i := ws[i].(contextDone := true)])
    case Fire(i) => st.(deadline := Expired, watches := ws[i := ws[i].(exited := true)])
    case Exit(i) => st.(watches := ws[i := ws[i].(exited := true)])
  }

  predicate EnabledAll(st: State, run: seq<Step>)
    decreases |run|
  {
    run == [] || (Enabled(st, run[0]) && EnabledAll(Next(st, run[0]), run[1..]))
  }

  function Run(st: State, run: seq<Step>): State
    requires EnabledAll(st, run)
    decreases |run|
  {
    if run == [] then st else Run(Next(st, run[0]), run[1..])
  }

  const START := State(Clear, Idle, [])

  // ----- which interleavings leave the deadline set

  /** A watcher fired after the last reset. */
  function Late(late: bool, run: seq<Step>): bool
    decreases |run|
  {
    if run == [] then late
    else Late(if run[0].Fire? then true else if run[0].Reset? then false else late, run[1..])
  }

  /** Outside the part of a call that needs it, the deadline is set exactly by a late watcher. */
  ghost predicate Accounted(st: State, late: bool) {
    && (st.pc.Idle? || st.pc.Returning? ==> (st.deadline == Clear <==> !late))
    && (st.pc.Applied? || st.pc.Exchanging? ==> Last(st) >= 0)
    && (st.pc.Returning? ==> Last(st) >= 0)
  }

  lemma {:induction false} RunAccounted(st: State, late: bool, run: seq<Step>)
    requires EnabledAll(st, run) && Accounted(st, late)
    ensures Accounted(Run(st, run), Late(late, run))
    decreases |run|
  {
    if run != [] {
      var late' := if run[0].Fire? then true else if run[0].Reset? then false else late;
      RunAccounted(Next(st, run[0]), late', run[1..]);
    }
  }

  /**
    For every interleaving: between calls the deadline is clear if and only if no watcher
    fired after the last reset.
   */
  lemma ClearExactly(run: seq<Step>)
    requires EnabledAll(START, run) && Run(START, run).pc.Idle?
    ensures Run(START, run).deadline == Clear <==> !Late(false, run)
  {
    RunAccounted(START, false, run);
  }

  // ----- the condition a caller can meet

  /** No context becomes done before its watcher has exited. */
  ghost predicate Timely(st: State, run: seq<Step>)
    requires EnabledAll(st, run)
    decreases |run|
  {
    run == [] || ((run[0].Done? ==> st.watches[run[0].i].exited) && Timely(Next(st, run[0]), run[1..]))
  }

  /** No watcher that is still there has a done context. */
  ghost predicate Quiet(st: State) {
    forall i | 0 <= i < |st.watches| :: st.watches[i].contextDone ==> st.watches[i].exited
  }

  lemma {:induction false} TimelyNeverLate(st: State, run: seq<Step>)
    requires EnabledAll(st, run) && Timely(st, run) && Quiet(st)
    ensures !Late(false, run)
    decreases |run|
  {
    if run != [] {
      assert !run[0].Fire?;
      TimelyNeverLate(Next(st, run[0]), run[1..]);
    }
  }

  /** Then every call leaves the deadline clear, and it stays clear until the next one. */
  lemma ClearBetweenCalls(run: seq<Step>)
    requires EnabledAll(START, run) && Timely(START, run) && Run(START, run).pc.Idle?
    ensures Run(START, run).deadline == Clear
  {
    hide Run, EnabledAll, Timely, Late;
    TimelyNeverLate(START, run);
    ClearExactly(run);
  }

  /**
    The condition is needed. After any run that leaves a watcher i of a finished call still
    there, the cancellation of context i may set the deadline, and a next call without a
    deadline of its own exchanges under an expired one.
   */
  lemma LateCancel(st: State, i: nat)
    requires st.pc.Idle? && i < |st.watches| && st.watches[i].started && !st.watches[i].exited
    ensures var run := [Done(i), Fire(i), Apply(false), Start];
      EnabledAll(st, run) && Run(st, run).pc.Exchanging? && Run(st, run).deadline == Expired
  {
    hide EnabledAll, Run;
    var s1 := Next(st, Done(i));
    var s2 := Next(s1, Fire(i));
    var s3 := Next(s2, Apply(false));
    Ended(Next(s3, Start));
    Extend(s3, Start, []);
    Extend(s2, Apply(false), [Start]);
    Extend(s1, Fire(i), [Apply(false), Start]);
    Extend(st, Done(i), [Fire(i), Apply(false), Start]);
    assert [Start] + [] == [Start];
    assert [Apply(false)] + [Start] == [Apply(false), Start];
    assert [Fire(i)] + [Apply(false), Start] == [Fire(i), Apply(false), Start];
    assert [Done(i)] + [Fire(i), Apply(false), Start] == [Done(i), Fire(i), Apply(false), Start];
  }

  /** Any finished call can leave such a watcher: return does not wait for it. */
  lemma WatcherLingers(hasDeadline: bool)
    ensures var run := [Apply(hasDeadline), Start, Reset, Stop];
      && EnabledAll(START, run) && Run(START, run).pc.Idle? && Run(START, run).deadline == Clear
      && |Run(START, run).watches| == 1 && Run(START, run).watches[0] == Watch(true, false, true, false)
  {
    hide EnabledAll, Run;
    var s1 := Next(START, Apply(hasDeadline));
    var s2 := Next(s1, Start);
    var s3 := Next(s2, Reset);
    Ended(Next(s3, Stop));
    Extend(s3, Stop, []);
    Extend(s2, Reset, [Stop]);
    Extend(s1, Start, [Reset, Stop]);
    Extend(START, Apply(hasDeadline), [Start, Reset, Stop]);
    assert [Stop] + [] == [Stop];
    assert [Reset] + [Stop] == [Reset, Stop];
    assert [Start] + [Reset, Stop] == [Start, Reset, Stop];
    assert [Apply(hasDeadline)] + [Start, Reset, Stop] == [Apply(hasDeadline), Start, Reset, Stop];
  }

  lemma Ended(st: State)
    ensures EnabledAll(st, []) && Run(st, []) == st
  {
  }

  lemma Extend(st: State, a: Step, run: seq<Step>)
    ensures EnabledAll(st, [a] + run) <==> Enabled(st, a) && EnabledAll(Next(st, a), run)
    ensures EnabledAll(st, [a] + run) ==> Run(st, [a] + run) == Run(Next(st, a), run)
  {
    assert ([a] + run)[1..] == run;
  }
}
