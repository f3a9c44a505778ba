/** Reader, handler, writer and outside senders of one TCP client, joined by unbuffered channels
    (net/clientConn/client_conn.go:77-152). Every interleaving is a list of steps. */
module Pipeline {
  import opened Bytes
  import opened Framing
  import opened Lists

  datatype Reader = Waiting | Handing(msg: ClientMsg) | Stopped
  datatype Handler = Idle | Calling(request: ClientMsg) | Replying(reply: ClientMsg)
  datatype Writer = Free | Writing(frame: seq<byte>)

  /** What `RequestCallBack` gives: an error, or a reply. */
  datatype Answer = NoReply | Reply(msg: ClientMsg)

  /** Who put a frame on the send queue: the handler, or a goroutine inside `SendMsg`. */
  datatype Source = Handler | Outside(id: nat)
  datatype Sent = Sent(source: Source, msg: ClientMsg)

  datatype Conn = Conn(
    arrived: seq<byte>,         // all the client sent so far
    unread: seq<byte>,          // the part of it that the reader has not taken
    ended: bool,                // the client will send no more
    reader: Reader,
    handler: Handler,
    writer: Writer,
    blocked: map<nat, ClientMsg>, // goroutines waiting in SendMsg
    out: seq<byte>,             // all that was written to the client
    requests: seq<ClientMsg>,   // what the handler was given
    answers: seq<Answer>,       // what the callback gave, one for each request
    calls: seq<Sent>,           // SendMsg calls in the order they began
    sent: seq<Sent>,            // what the writer was given
    delivered: nat              // how many of those were written
  )

  datatype Step =
    | Arrive(bytes: seq<byte>)
    | End
    | Read
    | HandOver
    | Answered(answer: Answer)
    | HandReply
    | Call(id: nat, msg: ClientMsg)
    | HandCall(id: nat)
    | Write

  const START := Conn([], [], false, Waiting, Idle, Free, map[], [], [], [], [], [], 0)

  /** When a goroutine can take a step. A channel operation needs both of its ends. */
  predicate Enabled(c: Conn, s: Step) {
    match s
    case Arrive(_) => !c.ended
    case End => !c.ended
    case Read => c.reader.Waiting? && (Uncode(c.unread).Message? || c.ended)
    case HandOver => c.reader.Handing? && c.handler.Idle?
    case Answered(_) => c.handler.Calling?
    case HandReply => c.handler.Replying? && c.writer.Free?
    case Call(id, _) => id !in c.blocked
    case HandCall(id) => id in c.blocked && c.writer.Free?
    case Write => c.writer.Writing?
  }

  function Next(c: Conn, s: Step): (c': Conn)
    requires Enabled(c, s)
  {
    match s
    case Arrive(bytes) => c.(arrived := c.arrived + bytes, unread := c.unread + bytes)
    case End => c.(ended := true)
    case Read =>
      (match Uncode(c.unread)
       case Message(m, rest) => c.(reader := Handing(m), unread := rest)
       case Failed(_) => c.(reader := Stopped))
    case HandOver => c.(reader := Waiting, handler := Calling(c.reader.msg), requests := c.requests + [c.reader.msg])
    case Answered(a) =>
      c.(handler := if a.Reply? then Replying(a.msg) else Idle, answers := c.answers + [a])
    case HandReply =>
      c.(handler := Idle, writer := Writing(Decode(c.handler.reply)), sent := c.sent + [Sent(Handler, c.handler.reply)])
    case Call(id, m) => c.(blocked := c.blocked[id := m], calls := c.calls + [Sent(Outside(id), m)])
    case HandCall(id) =>
      c.(blocked := c.blocked - {id}, writer := Writing(Decode(c.blocked[id])),
         sent := c.sent + [Sent(Outside(id), c.blocked[id])])
    case Write =>
      // the reader closed the connection when it stopped: writing fails from then on
      if c.reader.Stopped? then c.(writer := Free)
      else c.(writer := Free, out := c.out + c.writer.frame, delivered := c.delivered + 1)
  }

  ghost predicate Runs(c: Conn, steps: seq<Step>, c': Conn) {
    if steps == [] then c' == c
    else
      var n := |steps| - 1;
      exists b :: Runs(c, steps[..n], b) && Enabled(b, steps[n]) && c' == Next(b, steps[n])
  }

  // ----- What the histories say -----

  function Messages(xs: seq<Sent>): (ms: seq<ClientMsg>)
    ensures |ms| == |xs| && forall i :: 0 <= i < |xs| ==> ms[i] == xs[i].msg
  {
    seq(|xs|, i requires 0 <= i < |xs| => xs[i].msg)
  }

  /** What one source put on the queue, in order. */
  function From(who: Source, xs: seq<Sent>): seq<ClientMsg> {
    if xs == [] then []
    else
      var n := |xs| - 1;
      From(who, xs[..n]) + if xs[n].source == who then [xs[n].msg] else []
  }

  /** The replies among the answers, in order. */
  function Replies(answers: seq<Answer>): seq<ClientMsg> {
    if answers == [] then []
    else
      var n := |answers| - 1;
      Replies(answers[..n]) + if answers[n].Reply? then [answers[n].msg] else []
  }

  function InHand(c: Conn): seq<ClientMsg> {
    if c.reader.Handing? then [c.reader.msg] else []
  }

  function PendingReply(c: Conn): seq<ClientMsg> {
    if c.handler.Replying? then [c.handler.reply] else []
  }

  function PendingCall(c: Conn, id: nat): seq<ClientMsg> {
    if id in c.blocked then [c.blocked[id]] else []
  }

  /** Requests are the frames at the front of what arrived, in order. */
  ghost predicate Requests(c: Conn) {
    && c.arrived == Stream(c.requests + InHand(c)) + c.unread
    && (forall m <- c.requests + InHand(c) :: Fits(m))
    && (c.reader.Stopped? ==> c.ended && Uncode(c.unread).Failed?)
  }

  /** One answer for each request; replies reach the writer in the order of their requests. */
  ghost predicate InOrder(c: Conn) {
    && |c.requests| == |c.answers| + (if c.handler.Calling? then 1 else 0)
    && (c.handler.Calling? ==> c.requests[|c.answers|] == c.handler.request)
    && Replies(c.answers) == From(Handler, c.sent) + PendingReply(c)
  }

  /** What each goroutine sends reaches the writer once, in the order it called. */
  ghost predicate OncePerCall(c: Conn) {
    forall id: nat :: From(Outside(id), c.calls) == From(Outside(id), c.sent) + PendingCall(c, id)
  }

  /** Whole frames only, in the order the writer got them, none skipped before the connection closed. */
  ghost predicate WholeFrames(c: Conn) {
    && c.delivered <= |c.sent|
    && c.out == Stream(Messages(c.sent[..c.delivered]))
    && (c.writer.Writing? ==> c.sent != [] && c.writer.frame == Decode(c.sent[|c.sent| - 1].msg))
    && (!c.reader.Stopped? ==> c.delivered + (if c.writer.Writing? then 1 else 0) == |c.sent|)
  }

  ghost predicate Inv(c: Conn) {
    Requests(c) && InOrder(c) && OncePerCall(c) && WholeFrames(c)
  }

  // ----- Each step keeps each part -----

  lemma FromAppend(who: Source, xs: seq<Sent>, x: Sent)
    ensures From(who, xs + [x]) == From(who, xs) + if x.source == who then [x.msg] else []
  {
    assert (xs + [x])[..|xs|] == xs;
  }

  lemma RepliesAppend(xs: seq<Answer>, a: Answer)
    ensures Replies(xs + [a]) == Replies(xs) + if a.Reply? then [a.msg] else []
  {
    assert (xs + [a])[..|xs|] == xs;
  }

  lemma TakeFrame(s: seq<byte>, ms: seq<ClientMsg>, arrived: seq<byte>)
    requires Uncode(s).Message? && arrived == Stream(ms) + s
    ensures arrived == Stream(ms + [Uncode(s).msg]) + Uncode(s).rest && Fits(Uncode(s).msg)
  {
    UncodeExact(s);
    hide Uncode, Stream, Decode, Fits;
    StreamConcat(ms, [Uncode(s).msg]);
    StreamOne(Uncode(s).msg);
  }

  lemma KeepsRequests(c: Conn, s: Step)
    requires Enabled(c, s) && Requests(c)
    ensures Requests(Next(c, s))
  {
    AppendNothing(c.requests);
    if s.Read? && Uncode(c.unread).Message? {
      TakeFrame(c.unread, c.requests, c.arrived);
    }
    hide Stream, Uncode, Decode, Fits;
    if s.HandOver? {
      AppendNothing(c.requests + [c.reader.msg]);
    }
    if s.Arrive? {
      assert c.arrived + s.bytes == Stream(c.requests + InHand(c)) + (c.unread + s.bytes);
    }
  }

  lemma KeepsOrder(c: Conn, s: Step)
    requires Enabled(c, s) && InOrder(c)
    ensures InOrder(Next(c, s))
  {
    hide Replies, From, Uncode, Decode;
    match s {
      case Answered(a) => RepliesAppend(c.answers, a);
      case HandReply => FromAppend(Handler, c.sent, Sent(Handler, c.handler.reply));
      case HandCall(id) => FromAppend(Handler, c.sent, Sent(Outside(id), c.blocked[id]));
      case _ =>
    }
  }

  lemma KeepsCalls(c: Conn, s: Step)
    requires Enabled(c, s) && OncePerCall(c)
    ensures OncePerCall(Next(c, s))
  {
    hide Replies, From, Uncode, Decode;
    forall id: nat
      ensures var d := Next(c, s); From(Outside(id), d.calls) == From(Outside(id), d.sent) + PendingCall(d, id)
    {
      match s {
        case Call(who, m) => FromAppend(Outside(id), c.calls, Sent(Outside(who), m));
        case HandReply => FromAppend(Outside(id), c.sent, Sent(Handler, c.handler.reply));
        case HandCall(who) => FromAppend(Outside(id), c.sent, Sent(Outside(who), c.blocked[who]));
        case _ =>
      }
    }
  }

  lemma WriteOne(xs: seq<Sent>, n: nat)
    requires n < |xs|
    ensures Stream(Messages(xs[..n + 1])) == Stream(Messages(xs[..n])) + Decode(xs[n].msg)
  {
    hide Stream, Decode;
    assert Messages(xs[..n + 1]) == Messages(xs[..n]) + [xs[n].msg];
    StreamConcat(Messages(xs[..n]), [xs[n].msg]);
    StreamOne(xs[n].msg);
  }

  lemma KeepsFrames(c: Conn, s: Step)
    requires Enabled(c, s) && WholeFrames(c)
    ensures WholeFrames(Next(c, s))
  {
    hide Stream, Decode, Uncode, Messages;
    if s.Write? && !c.reader.Stopped? {
      WriteOne(c.sent, c.delivered);
    }
    var d := Next(c, s);
    assert d.sent[..c.delivered] == c.sent[..c.delivered];
  }

  lemma {:induction false} RunKeeps(steps: seq<Step>, c: Conn)
    requires Runs(START, steps, c)
    ensures Inv(c)
  {
    if steps == [] {
      assert Stream([]) == [] && START.sent[..0] == [] && Messages([]) == [];
    } else {
      var n := |steps| - 1;
      var b :| Runs(START, steps[..n], b) && Enabled(b, steps[n]) && c == Next(b, steps[n]);
      RunKeeps(steps[..n], b);
      hide Requests, InOrder, OncePerCall, WholeFrames, Enabled, Next;
      KeepsRequests(b, steps[n]);
      KeepsOrder(b, steps[n]);
      KeepsCalls(b, steps[n]);
      KeepsFrames(b, steps[n]);
    }
  }

  /** A state some interleaving leads to. */
  ghost predicate Reachable(c: Conn) {
    exists steps :: Runs(START, steps, c)
  }

  lemma ReachableInv(c: Conn)
    requires Reachable(c)
    ensures Inv(c)
  {
    hide Inv, Runs;
    var steps :| Runs(START, steps, c);
    RunKeeps(steps, c);
  }

  // ----- The promises, over every interleaving -----

  lemma RequestsRead(c: Conn)
    requires Requests(c)
    ensures c.requests <= UncodeAll(c.arrived).msgs
    ensures c.reader.Stopped? ==> c.requests == UncodeAll(c.arrived).msgs
  {
    ReadOff(c.requests + InHand(c), c.unread);
    hide Stream, Fits, Uncode;
    assert c.reader.Stopped? ==> UncodeAll(c.unread).msgs == [];
    AppendNothing(c.requests);
  }

  /** In every interleaving of reader, handler, writer and senders: the handler is given the
      client's messages in order; the bytes written are whole frames, in the order they were sent,
      which the client reads back exactly; replies follow the order of their requests, one callback
      result for each; and each sender's messages go out once and in order. */
  lemma PipelineSafety(c: Conn)
    requires Reachable(c)
    ensures c.requests <= UncodeAll(c.arrived).msgs
    ensures c.delivered <= |c.sent| && c.out == Stream(Messages(c.sent[..c.delivered]))
    ensures (forall x <- c.sent :: Fits(x.msg)) ==> UncodeAll(c.out) == Session(Messages(c.sent[..c.delivered]), Eof)
    ensures |c.answers| <= |c.requests| <= |c.answers| + 1
    ensures c.handler.Calling? ==> |c.answers| < |c.requests| && c.handler.request == c.requests[|c.answers|]
    ensures From(Handler, c.sent) <= Replies(c.answers)
    ensures forall id: nat :: From(Outside(id), c.sent) <= From(Outside(id), c.calls)
  {
    ReachableInv(c);
    hide Reachable, Stream, Fits, UncodeAll, Messages, From, Replies, Decode, Uncode;
    RequestsRead(c);
    if forall x <- c.sent :: Fits(x.msg) {
      ReadBack(c.sent[..c.delivered]);
    }
  }

  lemma ReadBack(xs: seq<Sent>)
    ensures (forall x <- xs :: Fits(x.msg)) ==> UncodeAll(Stream(Messages(xs))) == Session(Messages(xs), Eof)
  {
    if forall x <- xs :: Fits(x.msg) {
      hide Stream, UncodeAll;
      forall m | m in Messages(xs) ensures Fits(m) {
        var i :| 0 <= i < |xs| && Messages(xs)[i] == m;
        assert xs[i] in xs;
      }
      StreamRoundTrip(Messages(xs));
    }
  }

  // ----- Nothing gets stuck, nothing is lost -----

  predicate Internal(s: Step) {
    !s.Arrive? && !s.End? && !s.Call?
  }

  /** All four parts wait for the world outside. */
  predicate Quiet(c: Conn) {
    && c.handler.Idle? && c.writer.Free? && c.blocked == map[]
    && (c.reader.Stopped? || (c.reader.Waiting? && Uncode(c.unread).Failed? && !c.ended))
  }

  /** No deadlock: some goroutine can move unless all of them have nothing to do. */
  lemma NeverStuck(c: Conn)
    ensures Quiet(c) <==> forall s :: Internal(s) ==> !Enabled(c, s)
  {
    hide Uncode;
    if !Quiet(c) {
      var s :=
        if c.writer.Writing? then Write
        else if c.handler.Calling? then Answered(NoReply)
        else if c.handler.Replying? then HandReply
        else if c.reader.Handing? then HandOver
        else if c.blocked != map[] then (var id :| id in c.blocked; HandCall(id))
        else Read;
      assert Internal(s) && Enabled(c, s);
    }
  }

  /** Work left for the goroutines. */
  function Work(c: Conn): nat {
    |c.unread|
    + (match c.reader case Waiting => 1 case Handing(_) => 6 case Stopped => 0)
    + (match c.handler case Idle => 0 case Calling(_) => 4 case Replying(_) => 3)
    + (if c.writer.Writing? then 1 else 0)
    + 2 * |c.blocked|
  }

  /** Without new input the goroutines come to rest: every step of theirs leaves less work. */
  lemma WorkShrinks(c: Conn, s: Step)
    requires Enabled(c, s) && Internal(s)
    ensures Work(Next(c, s)) < Work(c)
  {
    hide Uncode, Decode;
    if s.HandCall? {
      assert c.blocked.Keys == (c.blocked - {s.id}).Keys + {s.id};
      assert |c.blocked| == |c.blocked.Keys| && |c.blocked - {s.id}| == |(c.blocked - {s.id}).Keys|;
    }
  }

  /** At rest nothing is lost: every whole message was handled, every callback result and every
      `SendMsg` was handed to the writer, and, while the connection is open, written. */
  lemma NothingLost(c: Conn)
    requires Reachable(c) && Quiet(c)
    ensures c.requests == UncodeAll(c.arrived).msgs && |c.answers| == |c.requests|
    ensures From(Handler, c.sent) == Replies(c.answers)
    ensures forall id: nat :: From(Outside(id), c.sent) == From(Outside(id), c.calls)
    ensures !c.reader.Stopped? ==> c.out == Stream(Messages(c.sent))
  {
    ReachableInv(c);
    hide Reachable, Stream, Fits, Messages, From, Replies, Decode, Uncode;
    ReadOff(c.requests, c.unread);
    AppendNothing(c.requests);
    assert UncodeAll(c.unread).msgs == [];
    AppendNothing(From(Handler, c.sent));
    assert c.sent[..|c.sent|] == c.sent;
  }
}
