/**
  conn.go: a whole run of calls on the wire. The requests of all calls, nested ones too, are one
  stream to the server; its answers, one to each request, are one stream back.
 */
module Conversation {
  import opened Wire
  import opened Packet
  import opened Requests
  import opened Framing
  import Handles
  import Session

  /** The exchanges of all calls of a run, in order. */
  ghost function Traffic(st: Session.State, ops: seq<Session.Op>): seq<Session.Exchange>
    requires Session.EnabledAll(st, ops)
    decreases |ops|
  {
    if ops == [] then []
    else Session.Script(st, ops[0]) + Traffic(Session.Step(st, ops[0]), ops[1..])
  }

  /** Serving the traffic exchange by exchange leaves the server where the run leaves it. */
  lemma {:induction false} TrafficServes(st: Session.State, ops: seq<Session.Op>)
    requires Session.EnabledAll(st, ops)
    ensures Session.ServeAll(st.server, Traffic(st, ops)) == Session.Run(st, ops).server
    decreases |ops|
  {
    hide Session.Serve, Session.Script, Session.Client, Session.Admissible, Session.Applies;
    if ops != [] {
      var next := Session.Step(st, ops[0]);
      TrafficServes(next, ops[1..]);
      Handles.ServeConcat(st.server, Session.Script(st, ops[0]), Traffic(next, ops[1..]));
    }
  }

  ghost function RequestsOf(xs: seq<Session.Exchange>): (rs: seq<Request>)
    ensures |rs| == |xs|
  {
    seq(|xs|, i requires 0 <= i < |xs| => xs[i].request)
  }

  /** What the server has received after the requests were written one after the other. */
  ghost function Received(cas: Bytes, rs: seq<Request>): seq<Bytes> {
    RecvAll(Stream(seq(|rs|, i requires 0 <= i < |rs| => Message(cas, Payload(rs[i]))))).0
  }

  ghost predicate Writable(rs: seq<Request>) {
    forall r | r in rs :: Sendable(r) && |Payload(r)| < TWO32
  }

  /** A server reads this request in the packet, and nothing more. */
  ghost predicate Says(packet: Bytes, r: Request) {
    |packet| >= 4 && PRequest(packet[4..]) == Got(r, [])
  }

  /** The request a server reads in a packet; any request, if there is none. */
  ghost function Decoded(packet: Bytes): Request {
    if |packet| >= 4 && PRequest(packet[4..]).Got? then PRequest(packet[4..]).value else ConClose
  }

  /** The answers of a server that answers packet i by what it reads in it. */
  ghost function Answers(packets: seq<Bytes>, answer: (nat, Request) -> Message): (ms: seq<Message>)
    ensures |ms| == |packets|
  {
    seq(|packets|, i requires 0 <= i < |packets| => answer(i, Decoded(packets[i])))
  }

  ghost function AllWhole(n: nat): (es: seq<Ending>)
    ensures |es| == n && forall e | e in es :: e.Whole?
  {
    seq(n, _ => Whole)
  }

  lemma {:induction false} AllSent(answers: seq<Message>, endings: seq<Ending>, n: nat)
    requires |answers| == |endings| && n <= |endings| && forall e | e in endings :: e.Whole?
    ensures Sent(answers, endings) == answers && Sends(endings, n) == n && Lag(endings, n) == 0
    decreases |answers|
  {
    if answers != [] {
      assert endings[0] in endings;
      AllSent(answers[1..], endings[1..], if n > 0 then n - 1 else 0);
    }
  }

  /** When no exchange fails, exchange i reads answer i, whether or not answers differ. */
  lemma ReadsInOrder(answers: seq<Message>, i: nat)
    requires AllFramable(answers) && i < |answers|
    ensures i < |Exchanges([], answers, AllWhole(|answers|))|
    ensures Exchanges([], answers, AllWhole(|answers|))[i] == Read(Data(answers[i]))
  {
    hide Exchanges, Sent, Sends, Lag, Data, AllFramable, Stream;
    var endings := AllWhole(|answers|);
    EmptyQueue(answers);
    AllSent(answers, endings, i);
    assert endings[i] in endings;
    PairingLaw([], answers, endings, i);
  }

  lemma AnswersFramable(packets: seq<Bytes>, answer: (nat, Request) -> Message)
    requires forall k: nat, r: Request :: Framable(answer(k, r))
    ensures AllFramable(Answers(packets, answer))
  {
    hide Framable, Decoded;
    var ms := Answers(packets, answer);
    forall m | m in ms ensures Framable(m) {
      var i :| 0 <= i < |ms| && ms[i] == m;
      assert ms[i] == answer(i, Decoded(packets[i]));
    }
  }

  lemma SaysDecodes(packet: Bytes, r: Request)
    requires Says(packet, r)
    ensures Decoded(packet) == r
  {
    hide PRequest;
  }

  lemma ReceivedInOrder(cas: Bytes, rs: seq<Request>)
    requires |cas| == 4 && Writable(rs)
    ensures |Received(cas, rs)| == |rs|
    ensures forall i | 0 <= i < |rs| :: Says(Received(cas, rs)[i], rs[i])
  {
    hide Payload, PRequest, Sendable, RecvAll, Stream;
    RequestStream(cas, rs);
    var packets := Received(cas, rs);
    forall i | 0 <= i < |rs| ensures Says(packets[i], rs[i]) {
      assert packets[i] == cas + Payload(rs[i]);
    }
  }

  /**
    In every run of calls in which no exchange fails, nested exchanges included: the server reads
    each request back from the stream of packets, and whatever it answers to request i is what
    exchange i reads.
   */
  lemma RunIsPaired(st: Session.State, ops: seq<Session.Op>, cas: Bytes, answer: (nat, Request) -> Message, i: nat)
    requires Session.EnabledAll(st, ops) && |cas| == 4 && i < |Traffic(st, ops)|
    requires Writable(RequestsOf(Traffic(st, ops)))
    requires forall k: nat, r: Request :: Framable(answer(k, r))
    ensures var xs := Traffic(st, ops);
      var packets := Received(cas, RequestsOf(xs));
      var answers := Answers(packets, answer);
      var readings := Exchanges([], answers, AllWhole(|answers|));
      && |packets| == |xs| && i < |readings|
      && Says(packets[i], xs[i].request)
      && readings[i] == Read(Data(answer(i, xs[i].request)))
  {
    hide Exchanges, Writable, Received, Says, Decoded, Framable, Data, Traffic, AllFramable;
    var xs := Traffic(st, ops);
    var packets := Received(cas, RequestsOf(xs));
    ReceivedInOrder(cas, RequestsOf(xs));
    AnswersFramable(packets, answer);
    SaysDecodes(packets[i], xs[i].request);
    ReadsInOrder(Answers(packets, answer), i);
  }
}
