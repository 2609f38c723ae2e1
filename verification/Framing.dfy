/**
  conn.go: length-prefixed frames on a byte stream, and which response an exchange reads.
 */
module Framing {
  import opened Wire
  import opened Packet
  import opened Requests

  /** What recv hands to the parsers: CAS_INFO and the body, without the length. */
  datatype Message = Message(cas: Bytes, body: Bytes)

  ghost predicate Framable(m: Message) { |m.cas| == 4 && |m.body| < TWO32 }

  ghost predicate AllFramable(ms: seq<Message>) { forall m | m in ms :: Framable(m) }

  ghost function Data(m: Message): Bytes { m.cas + m.body }

  ghost function Stream(ms: seq<Message>): Bytes {
    if ms == [] then [] else Frame(ms[0].cas, ms[0].body) + Stream(ms[1..])
  }

  /** One recv on the bytes at hand: `Panic` is a read that is still waiting for bytes. */
  function PRecv(s: Bytes): Parse<Bytes> {
    if |s| < 4 then Panic else PRaw(s[4..], D32(s) + 4)
  }

  /** The client's end of the socket. */
  class Socket {
    var inbound: Bytes

    /** The length first, then CAS_INFO and body together. */
    method Recv() returns (data: Bytes)
      requires PRecv(inbound).Got?
      modifies this
      ensures Got(data, inbound) == PRecv(old(inbound))
    {
      var dataLen := D32(inbound[..4]);
      assert inbound[..4][..2] == inbound[..2] && inbound[..4][2..] == inbound[2..][..2];
      inbound := inbound[4..];
      var totalLen := dataLen + 4;
      data := inbound[..totalLen];
      inbound := inbound[totalLen..];
    }
  }

  lemma RecvFrame(m: Message, t: Bytes)
    requires Framable(m)
    ensures PRecv(Frame(m.cas, m.body) + t) == Got(Data(m), t)
  {
    hide U32, D32;
    var n := |m.body|;
    assert Frame(m.cas, m.body) + t == U32(n) + (Data(m) + t);
    Read32(n, Data(m) + t);
    assert (U32(n) + (Data(m) + t))[4..] == Data(m) + t;
    assert |Data(m)| == n + 4;
    assert (Data(m) + t)[..n + 4] == Data(m) && (Data(m) + t)[n + 4..] == t;
  }

  /** Applying recv until the bytes run out. */
  function RecvAll(s: Bytes): (seq<Bytes>, Bytes)
    decreases |s|
  {
    match PRecv(s)
    case Panic => ([], s)
    case Got(d, t) =>
      var (ds, left) := RecvAll(t);
      ([d] + ds, left)
  }

  ghost function Datas(ms: seq<Message>): (ds: seq<Bytes>)
    ensures |ds| == |ms| && forall i | 0 <= i < |ms| :: ds[i] == Data(ms[i])
  {
    if ms == [] then [] else [Data(ms[0])] + Datas(ms[1..])
  }

  /** A concatenation of frames splits into exactly its messages, whatever incomplete bytes follow. */
  lemma {:induction false} StreamFraming(ms: seq<Message>, t: Bytes)
    requires AllFramable(ms)
    requires PRecv(t).Panic?
    ensures RecvAll(Stream(ms) + t) == (Datas(ms), t)
  {
    hide Frame, PRecv;
    if ms == [] {
      assert Stream(ms) + t == t;
    } else {
      assert Stream(ms) + t == Frame(ms[0].cas, ms[0].body) + (Stream(ms[1..]) + t);
      RecvFrame(ms[0], Stream(ms[1..]) + t);
      StreamFraming(ms[1..], t);
    }
  }

  /** Requests on the wire: the stream of written packets gives back every request. */
  lemma RequestStream(cas: Bytes, rs: seq<Request>)
    requires |cas| == 4
    requires forall r | r in rs :: Sendable(r) && |Payload(r)| < TWO32
    ensures var ds := RecvAll(Stream(seq(|rs|, i requires 0 <= i < |rs| => Message(cas, Payload(rs[i]))))).0;
      && |ds| == |rs|
      && forall i | 0 <= i < |rs| :: ds[i] == cas + Payload(rs[i]) && PRequest(ds[i][4..]) == Got(rs[i], [])
  {
    hide Payload, PRequest, Frame, Sendable;
    var ms := seq(|rs|, i requires 0 <= i < |rs| => Message(cas, Payload(rs[i])));
    assert Stream(ms) + [] == Stream(ms);
    StreamFraming(ms, []);
    forall i | 0 <= i < |rs| ensures PRequest(Datas(ms)[i][4..]) == Got(rs[i], []) {
      RequestRoundTrip(rs[i]);
      assert (cas + Payload(rs[i]))[4..] == Payload(rs[i]);
    }
  }

  // ----- pairing

  /**
    How an exchange ends. `Unsent`: the write fails at once, as it does under an expired
    deadline, and no answer is ever queued. `Cut`: the request is answered, but recv fails
    after taking that many bytes of the stream. `Whole`: recv takes a whole frame.
   */
  datatype Ending = Unsent | Cut(taken: nat) | Whole

  /** What the caller gets. A recv that lacks bytes and has no deadline waits for ever. */
  datatype Reading = Failed | Read(data: Bytes) | Waiting

  /**
    A run of exchanges on one connection, with `inbound` unread at its start; the server
    answers request i, if it is sent, with answers[i]. Nothing follows a recv that waits.
   */
  ghost function Exchanges(inbound: Bytes, answers: seq<Message>, endings: seq<Ending>): seq<Reading>
    requires |answers| == |endings|
    decreases |answers|
  {
    if answers == [] then []
    else
      var s := inbound + Frame(answers[0].cas, answers[0].body);
      match endings[0]
      case Unsent => [Failed] + Exchanges(inbound, answers[1..], endings[1..])
      case Cut(k) => [Failed] + Exchanges(s[if k < |s| then k else |s|..], answers[1..], endings[1..])
      case Whole =>
        match PRecv(s)
        case Panic => [Waiting]
        case Got(d, t) => [Read(d)] + Exchanges(t, answers[1..], endings[1..])
  }

  /** The answers that are queued at all. */
  ghost function Sent(answers: seq<Message>, endings: seq<Ending>): seq<Message>
    requires |answers| == |endings|
  {
    if answers == [] then []
    else (if endings[0].Unsent? then [] else [answers[0]]) + Sent(answers[1..], endings[1..])
  }

  /** How many of the first n exchanges were sent. */
  ghost function Sends(endings: seq<Ending>, n: nat): nat
    requires n <= |endings|
    decreases n
  {
    if n == 0 then 0 else (if endings[0].Unsent? then 0 else 1) + Sends(endings[1..], n - 1)
  }

  /** How many of the first n exchanges left their answer unread. */
  ghost function Lag(endings: seq<Ending>, n: nat): (lag: nat)
    requires n <= |endings|
    ensures lag <= Sends(endings, n)
    decreases n
  {
    if n == 0 then 0 else (if endings[0].Cut? then 1 else 0) + Lag(endings[1..], n - 1)
  }

  /** None of the first n exchanges stopped inside a frame. */
  ghost predicate Aligned(endings: seq<Ending>, n: nat)
    requires n <= |endings|
  {
    forall j | 0 <= j < n :: endings[j].Cut? ==> endings[j].taken == 0
  }

  lemma {:induction false} StreamSnoc(ms: seq<Message>, m: Message)
    ensures Stream(ms + [m]) == Stream(ms) + Frame(m.cas, m.body)
  {
    hide Frame;
    if ms == [] {
      assert ms + [m] == [m];
      assert Stream([m]) == Frame(m.cas, m.body) + Stream([]);
    } else {
      assert (ms + [m])[1..] == ms[1..] + [m];
      StreamSnoc(ms[1..], m);
      var first, last := Frame(ms[0].cas, ms[0].body), Frame(m.cas, m.body);
      assert Stream(ms) + last == first + (Stream(ms[1..]) + last);
    }
  }

  /** What stays unread after the first exchange, when `queue` was unread before it. */
  ghost function Next(queue: seq<Message>, m: Message, ending: Ending): seq<Message> {
    match ending
    case Unsent => queue
    case Cut(_) => queue + [m]
    case Whole => (queue + [m])[1..]
  }

  lemma FirstExchange(queue: seq<Message>, answers: seq<Message>, endings: seq<Ending>)
    requires |answers| == |endings| > 0 && (endings[0].Cut? ==> endings[0].taken == 0)
    requires AllFramable(queue + [answers[0]])
    ensures Exchanges(Stream(queue), answers, endings)
         == [if endings[0].Whole? then Read(Data((queue + [answers[0]])[0])) else Failed]
            + Exchanges(Stream(Next(queue, answers[0], endings[0])), answers[1..], endings[1..])
  {
    hide Frame, PRecv, Data, Framable;
    StreamSnoc(queue, answers[0]);
    var all := queue + [answers[0]];
    assert Stream(all)[0..] == Stream(all);
    if endings[0].Whole? {
      assert all[0] in all;
      RecvFrame(all[0], Stream(all[1..]));
    }
  }

  /**
    While no recv stops inside a frame: exchange i, if it reads at all, reads the queued
    answer that lies as many places before its own as exchanges before it left theirs unread
    (`queue` holds answers left over from earlier).
   */
  lemma {:induction false} PairingLaw(queue: seq<Message>, answers: seq<Message>, endings: seq<Ending>, i: nat)
    requires |answers| == |endings| && i < |answers| && Aligned(endings, i + 1)
    requires AllFramable(queue) && AllFramable(answers)
    ensures i < |Exchanges(Stream(queue), answers, endings)|
    ensures !endings[i].Whole? ==> Exchanges(Stream(queue), answers, endings)[i] == Failed
    ensures endings[i].Whole? ==>
      && Sends(endings, i) < |Sent(answers, endings)|
      && Exchanges(Stream(queue), answers, endings)[i]
         == Read(Data((queue + Sent(answers, endings))[Sends(endings, i) - Lag(endings, i)]))
    decreases i
  {
    hide Exchanges, Stream, Data, Framable, Next;
    assert answers[0] in answers;
    NextFramable(queue, answers[0], endings[0]);
    FirstExchange(queue, answers, endings);
    NextQueue(queue, answers, endings);
    if i > 0 {
      PairingLaw(Next(queue, answers[0], endings[0]), answers[1..], endings[1..], i - 1);
    }
  }

  /** The queue and the answers still to come, before and after the first exchange. */
  lemma NextQueue(queue: seq<Message>, answers: seq<Message>, endings: seq<Ending>)
    requires |answers| == |endings| > 0
    ensures var all := queue + Sent(answers, endings);
      && (endings[0].Whole? ==> |all| > 0 && all[0] == (queue + [answers[0]])[0])
      && Next(queue, answers[0], endings[0]) + Sent(answers[1..], endings[1..])
         == if endings[0].Whole? then all[1..] else all
  {
    var more := Sent(answers[1..], endings[1..]);
    hide Sent;
    Requeued(queue, answers[0], more);
    if endings[0].Unsent? {
      assert [] + more == more;
    }
  }

  lemma Requeued(queue: seq<Message>, m: Message, more: seq<Message>)
    ensures queue + [m] + more == queue + ([m] + more)
    ensures (queue + [m])[1..] + more == (queue + ([m] + more))[1..]
    ensures (queue + ([m] + more))[0] == (queue + [m])[0]
  {
  }

  lemma NextFramable(queue: seq<Message>, m: Message, ending: Ending)
    requires AllFramable(queue) && Framable(m)
    ensures AllFramable(queue + [m]) && AllFramable(Next(queue, m, ending))
  {
    hide Framable;
  }

  /** Exchange i reads the answer to its own request. */
  ghost predicate PairedAt(answers: seq<Message>, endings: seq<Ending>, i: nat)
    requires |answers| == |endings| && i < |answers|
  {
    var rs := Exchanges([], answers, endings);
    i < |rs| && rs[i] == Read(Data(answers[i]))
  }

  /** None of the first n exchanges left its answer unread. */
  ghost predicate NoneCut(endings: seq<Ending>, n: nat)
    requires n <= |endings|
  {
    forall j | 0 <= j < n :: !endings[j].Cut?
  }

  lemma {:induction false} LagZero(endings: seq<Ending>, n: nat)
    requires n <= |endings|
    ensures Lag(endings, n) == 0 <==> NoneCut(endings, n)
    decreases n
  {
    if n > 0 {
      LagZero(endings[1..], n - 1);
      if NoneCut(endings[1..], n - 1) && !endings[0].Cut? {
        forall j | 0 <= j < n ensures !endings[j].Cut? {
          assert j > 0 ==> endings[j] == endings[1..][j - 1];
        }
      }
    }
  }

  /** The queued answers up to that of exchange i are answers to the exchanges up to i. */
  lemma {:induction false} SentAt(answers: seq<Message>, endings: seq<Ending>, i: nat, k: nat)
    requires |answers| == |endings| && i < |answers| && k <= Sends(endings, i) && !endings[i].Unsent?
    ensures Sends(endings, i) < |Sent(answers, endings)|
    ensures k == Sends(endings, i) ==> Sent(answers, endings)[k] == answers[i]
    ensures k < Sends(endings, i) ==> exists j | 0 <= j < i :: Sent(answers, endings)[k] == answers[j]
    decreases i
  {
    if i > 0 {
      var first := if endings[0].Unsent? then 0 else 1;
      if k < first {
        SentAt(answers[1..], endings[1..], i - 1, 0);
        assert Sent(answers, endings)[k] == answers[0];
      } else {
        SentAt(answers[1..], endings[1..], i - 1, k - first);
        assert Sent(answers, endings)[k] == Sent(answers[1..], endings[1..])[k - first];
        if k < Sends(endings, i) {
          var j :| 0 <= j < i - 1 && Sent(answers[1..], endings[1..])[k - first] == answers[1..][j];
          assert answers[1..][j] == answers[j + 1];
        }
      }
    }
  }

  /**
    With distinct answers and no recv that stops inside a frame, an exchange that reads is
    paired if and only if none before it was cut. Those that were not sent do not matter.
   */
  lemma Pairing(answers: seq<Message>, endings: seq<Ending>, i: nat)
    requires |answers| == |endings| && i < |answers| && endings[i].Whole? && Aligned(endings, i)
    requires AllFramable(answers)
    requires forall j | 0 <= j < i :: Data(answers[j]) != Data(answers[i])
    ensures PairedAt(answers, endings, i) <==> NoneCut(endings, i)
  {
    hide Exchanges, Data, Lag, Sends, Sent, AllFramable, NoneCut, Stream;
    var sent, own := Sent(answers, endings), Sends(endings, i);
    var k := own - Lag(endings, i);
    EmptyQueue(sent);
    PairingLaw([], answers, endings, i);
    LagZero(endings, i);
    SentAt(answers, endings, i, k);
    if k < own {
      var j :| 0 <= j < i && sent[k] == answers[j];
      assert Data(answers[j]) != Data(answers[i]);
    }
  }

  lemma EmptyQueue(ms: seq<Message>)
    ensures Stream([]) == [] && [] + ms == ms && AllFramable([])
  {
  }

  /**
    A recv that stops inside a frame loses the frame boundaries. After one byte of answer a
    is taken, the next recv takes three bytes of a's length and one of its CAS_INFO for a
    length: 256 times too much, and unless that many bytes are there it waits for ever.
   */
  lemma CutMisaligns(a: Message, b: Message)
    requires Framable(a) && Framable(b) && |a.body| < TWO32 / TWO8
    ensures D32(Frame(a.cas, a.body)[1..]) == |a.body| * TWO8 + a.cas[0] as int
    ensures |a.body| * TWO8 + a.cas[0] as int > |a.body| + |b.body| + 7 ==>
              Exchanges([], [a, b], [Cut(1), Whole]) == [Failed, Waiting]
  {
    hide Frame, D32, D16, PRaw;
    var f, g := Frame(a.cas, a.body), Frame(b.cas, b.body);
    FrameSize(a);
    FrameSize(b);
    ShiftedLength(a, g);
    ShiftedLength(a, []);
    assert f[1..] + [] == f[1..] && [] + f == f;
    assert [a, b][1..] == [b] && [Cut(1), Whole][1..] == [Whole];
    if |a.body| * TWO8 + a.cas[0] as int > |a.body| + |b.body| + 7 {
      assert PRecv(f[1..] + g).Panic? by { TooLong(f[1..] + g); }
      assert Exchanges(f[1..], [b], [Whole]) == [Waiting];
    }
  }

  lemma FrameSize(m: Message)
    requires Framable(m)
    ensures |Frame(m.cas, m.body)| == 8 + |m.body|
  {
  }

  lemma TooLong(s: Bytes)
    requires |s| >= 4 && D32(s) + 8 > |s|
    ensures PRecv(s).Panic?
  {
    hide D32;
  }

  /** The length found one byte into a frame of fewer than 2^24 bytes. */
  lemma ShiftedLength(m: Message, t: Bytes)
    requires Framable(m) && |m.body| < TWO32 / TWO8
    ensures |Frame(m.cas, m.body)| > 4
    ensures D32(Frame(m.cas, m.body)[1..] + t) == |m.body| * TWO8 + m.cas[0] as int
  {
    hide U32;
    var size := U32(|m.body|);
    SizeBytes(|m.body|);
    var s := Frame(m.cas, m.body)[1..] + t;
    assert s[0] == size[1] && s[1] == size[2] && s[2] == size[3] && s[3] == m.cas[0];
    assert s[2..][0] == s[2] && s[2..][1] == s[3];
  }

  lemma SizeBytes(n: nat)
    requires n < TWO32 / TWO8
    ensures (U32(n)[1] as int * TWO8 + U32(n)[2] as int) * TWO8 + U32(n)[3] as int == n
  {
    var hi, lo := n / TWO16, n % TWO16;
    assert U32(n)[1] as int == hi && U32(n)[2] as int == lo / TWO8 && U32(n)[3] as int == lo % TWO8;
  }
}
