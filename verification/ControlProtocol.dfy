/** The control connection: messages framed by blank lines, and requests and events sharing one stream. */
module ControlProtocol {
  import opened Prelude

  type Text = string

  // ---- framing ----

  const END: Text := "\n\n"

  /** A frame: the text of a message and a blank line. */
  function Frame(t: Text): Text { t + END }

  /** Length of the first line, with its newline if it has one. */
  function LineLength(s: Text): (n: nat)
    ensures n <= |s| && (s != "" ==> n > 0)
  {
    if s == "" then 0 else if s[0] == '\n' then 1 else 1 + LineLength(s[1..])
  }

  /** The lines up to and including the first blank one, and what follows. */
  function ReadBlock(s: Text): (r: (Text, Text))
    ensures r.0 + r.1 == s
    decreases |s|
  {
    if s == "" then ("", "")
    else
      var n := LineLength(s);
      if s[..n] == "\n" then (s[..n], s[n..])
      else
        var (b, rest) := ReadBlock(s[n..]);
        (s[..n] + b, rest)
  }

  predicate IsBlank(s: Text) {
    forall c :: c in s ==> c == ' ' || c == '\n' || c == '\t' || c == '\r'
  }

  /** The block of the stream is `lines` followed by the block of what is left. */
  predicate Reads(stream: Text, lines: Text, left: (Text, Text)) {
    ReadBlock(stream) == (lines + left.0, left.1)
  }

  lemma ReadsOn(stream: Text, lines: Text, rest: Text)
    requires rest != "" && Reads(stream, lines, ReadBlock(rest))
    ensures var n := LineLength(rest);
            if rest[..n] == "\n" then ReadBlock(stream) == (lines + rest[..n], rest[n..])
            else Reads(stream, lines + rest[..n], ReadBlock(rest[n..]))
  {
    var n := LineLength(rest);
    var line, b := rest[..n], ReadBlock(rest[n..]).0;
    if line != "\n" {
      assert lines + (line + b) == lines + line + b;
    }
  }

  lemma ReadsEnd(stream: Text, lines: Text)
    requires Reads(stream, lines, ReadBlock(""))
    ensures ReadBlock(stream) == (lines, "")
  {
    assert lines + "" == lines;
  }

  /** _recv_message, reading line by line; None for the end of the stream, or for nothing but blank lines. */
  method RecvMessage(stream: Text) returns (message: Option<Text>, rest: Text)
    ensures rest == ReadBlock(stream).1
    ensures message == if IsBlank(ReadBlock(stream).0) then None else Some(ReadBlock(stream).0)
  {
    var lines := "";
    rest := stream;
    hide ReadBlock, IsBlank;
    assert "" + ReadBlock(stream).0 == ReadBlock(stream).0;
    while rest != ""
      invariant Reads(stream, lines, ReadBlock(rest))
      decreases |rest|
    {
      var line := rest[..LineLength(rest)];
      ReadsOn(stream, lines, rest);
      lines := lines + line;
      rest := rest[|line|..];
      if line == "\n" {
        return if IsBlank(lines) then None else Some(lines), rest;
      }
    }
    ReadsEnd(stream, lines);
    return if IsBlank(lines) then None else Some(lines), rest;
  }

  /** Two newlines in a row, at i. */
  predicate BlankAt(s: Text, i: int) { 0 <= i && i + 1 < |s| && s[i] == '\n' && s[i + 1] == '\n' }

  /** The text has no blank line, at its ends or inside. */
  ghost predicate NoBlankLine(t: Text) {
    var s := "\n" + t + "\n";
    forall i :: !BlankAt(s, i)
  }

  lemma LineLengthIs(s: Text, n: nat)
    requires 0 < n <= |s| && s[n - 1] == '\n' && forall i :: 0 <= i < n - 1 ==> s[i] != '\n'
    ensures LineLength(s) == n
  {
    if n > 1 { LineLengthIs(s[1..], n - 1); }
  }

  /** Position of the first newline. */
  function FirstNewline(t: Text): (n: nat)
    ensures n <= |t| && (forall i :: 0 <= i < n ==> t[i] != '\n') && (n < |t| ==> t[n] == '\n')
  {
    if t == "" || t[0] == '\n' then 0 else 1 + FirstNewline(t[1..])
  }

  lemma BlankIsRead(rest: Text)
    ensures ReadBlock("\n" + rest) == ("\n", rest)
  {
    LineLengthIs("\n" + rest, 1);
    assert ("\n" + rest)[..1] == "\n" && ("\n" + rest)[1..] == rest;
  }

  lemma LaterLines(t: Text, n: nat)
    requires NoBlankLine(t) && 0 < n <= |t| && t[n - 1] == '\n'
    ensures NoBlankLine(t[n..])
  {
    var padded, later := "\n" + t + "\n", "\n" + t[n..] + "\n";
    forall i
      ensures BlankAt(later, i) ==> BlankAt(padded, n + i)
    {
      if BlankAt(later, i) {
        assert later[i] == padded[n + i] && later[i + 1] == padded[n + 1 + i];
      }
    }
  }

  /** A first line that is not blank is taken whole, and reading goes on after it. */
  lemma FirstLine(body: Text, more: Text)
    requires body != "" && forall c :: c in body ==> c != '\n'
    ensures ReadBlock(body + "\n" + more) == (body + "\n" + ReadBlock(more).0, ReadBlock(more).1)
  {
    hide ReadBlock;
    var line := body + "\n";
    var s := line + more;
    assert forall i :: 0 <= i < |body| ==> s[i] == body[i] && body[i] in body;
    LineLengthIs(s, |line|);
    assert s[..|line|] == line && s[|line|..] == more;
    assert body[0] in body && line[0] == body[0];
    ReadsOnFrom(s);
  }

  lemma ReadsOnFrom(s: Text)
    requires s != "" && s[..LineLength(s)] != "\n"
    ensures var n := LineLength(s); ReadBlock(s) == (s[..n] + ReadBlock(s[n..]).0, ReadBlock(s[n..]).1)
  {
  }

  /** A frame is read back whole, whatever follows it, if its text has no blank line. */
  lemma {:induction false} FrameIsRead(t: Text, rest: Text)
    requires NoBlankLine(t)
    ensures ReadBlock(Frame(t) + rest) == (Frame(t), rest)
    decreases |t|
  {
    hide ReadBlock;
    var padded := "\n" + t + "\n";
    assert t != "" && t[0] != '\n' by { assert !BlankAt(padded, 0); }
    var n := FirstNewline(t);
    assert t[..n] != "";
    if n == |t| {
      BlankIsRead(rest);
      FirstLine(t, "\n" + rest);
      assert Frame(t) + rest == t + "\n" + ("\n" + rest);
      assert t + "\n" + "\n" == Frame(t);
    } else {
      var t' := t[n + 1..];
      assert t == t[..n] + "\n" + t';
      LaterLines(t, n + 1);
      FrameIsRead(t', rest);
      FirstLine(t[..n], Frame(t') + rest);
      assert Frame(t) + rest == t[..n] + "\n" + (Frame(t') + rest);
      assert t[..n] + "\n" + Frame(t') == Frame(t);
    }
  }

  lemma LineShape(s: Text)
    requires s != ""
    ensures var n := LineLength(s);
            (forall i :: 0 <= i < n - 1 ==> s[i] != '\n') && (n < |s| ==> s[n - 1] == '\n')
  {
    if s[0] != '\n' && |s| > 1 { LineShape(s[1..]); }
  }

  /** A line that is not blank starts no blank line, and ends one only with what follows it. */
  lemma BlankAfterLine(line: Text, b: Text, i: int)
    requires line != "" && line[0] != '\n' && (forall j :: 0 <= j < |line| - 1 ==> line[j] != '\n')
    requires line[|line| - 1] == '\n' || b == ""
    ensures BlankAt("\n" + (line + b), i) ==> i >= |line| && BlankAt("\n" + b, i - |line|)
  {
    var whole := "\n" + (line + b);
    assert whole[0] == '\n' && forall j :: 1 <= j < |whole| ==> whole[j] == (line + b)[j - 1];
    assert forall j :: 0 <= j < |line| ==> (line + b)[j] == line[j];
    assert forall j :: |line| <= j < |line| + |b| ==> (line + b)[j] == b[j - |line|];
  }

  /** A block has its only blank line, if any, at its end. */
  lemma {:induction false} BlockEnds(s: Text, i: int)
    ensures BlankAt("\n" + ReadBlock(s).0, i) ==> i == |ReadBlock(s).0| - 1
    decreases |s|
  {
    if s != "" {
      var n := LineLength(s);
      LineShape(s);
      if s[..n] != "\n" {
        BlockEnds(s[n..], i - n);
        assert s[..1] == [s[0]];
        BlankAfterLine(s[..n], ReadBlock(s[n..]).0, i);
      }
    }
  }

  /** Frames can be told apart on the stream, whatever follows, exactly when their texts have no blank lines. */
  lemma FramingExact(t: Text)
    ensures (forall rest :: ReadBlock(Frame(t) + rest) == (Frame(t), rest)) <==> NoBlankLine(t)
  {
    if NoBlankLine(t) {
      forall rest { FrameIsRead(t, rest); }
    } else {
      var padded := "\n" + t + "\n";
      var i :| BlankAt(padded, i);
      assert Frame(t) + "" == Frame(t);
      BlockEnds(Frame(t), i);
      var whole := "\n" + Frame(t);
      assert whole[i] == padded[i] && whole[i + 1] == padded[i + 1];
    }
  }

  /** The stream of several messages. */
  function Frames(ts: seq<Text>): Text {
    if ts == [] then "" else Frame(ts[0]) + Frames(ts[1..])
  }

  /** The requests in a stream, after `lines` already read. Blank lines before a request stay in its text. */
  function Requests(lines: Text, s: Text): seq<Text>
    decreases |s|
  {
    if s == "" then (if IsBlank(lines) then [] else [lines])
    else
      var n := LineLength(s);
      var more := lines + s[..n];
      if s[..n] == "\n" && !IsBlank(more) then [more] + Requests("", s[n..])
      else Requests(more, s[n..])
  }

  /** ControlHandler.handle, with the requests it hands on. */
  method Handle(stream: Text) returns (handled: seq<Text>)
    ensures handled == Requests("", stream)
  {
    hide IsBlank;
    var lines, rest := "", stream;
    handled := [];
    while rest != ""
      invariant handled + Requests(lines, rest) == Requests("", stream)
      decreases |rest|
    {
      var line := rest[..LineLength(rest)];
      lines := lines + line;
      rest := rest[|line|..];
      if line == "\n" {
        if !IsBlank(lines) {
          assert handled + ([lines] + Requests("", rest)) == handled + [lines] + Requests("", rest);
          handled := handled + [lines];
          lines := "";
        }
      }
    }
    if !IsBlank(lines) {
      handled := handled + [lines];
    }
  }

  lemma LineIsKept(lines: Text, body: Text, more: Text)
    requires body != "" && forall c :: c in body ==> c != '\n'
    ensures Requests(lines, body + "\n" + more) == Requests(lines + body + "\n", more)
  {
    hide IsBlank;
    var s := body + "\n" + more;
    assert forall i :: 0 <= i < |body| ==> s[i] == body[i] && body[i] in body;
    LineLengthIs(s, |body| + 1);
    assert s[..|body| + 1] == body + "\n" && s[|body| + 1..] == more;
    assert lines + (body + "\n") == lines + body + "\n";
  }

  lemma BlankLineEnds(lines: Text, rest: Text)
    requires !IsBlank(lines)
    ensures Requests(lines, "\n" + rest) == [lines + "\n"] + Requests("", rest)
  {
    var s := "\n" + rest;
    LineLengthIs(s, 1);
    assert s[..1] == "\n" && s[1..] == rest;
    var c :| c in lines && !(c == ' ' || c == '\n' || c == '\t' || c == '\r');
    assert c in lines + "\n";
  }

  /** A request is handed on as soon as its frame is complete, with the blank lines kept from before. */
  lemma {:induction false} RequestIsHandled(lines: Text, t: Text, rest: Text)
    requires NoBlankLine(t) && !IsBlank(lines + t)
    ensures Requests(lines, Frame(t) + rest) == [lines + Frame(t)] + Requests("", rest)
    decreases |t|
  {
    hide Requests;
    var padded := "\n" + t + "\n";
    assert t != "" && t[0] != '\n' by { assert !BlankAt(padded, 0); }
    var n := FirstNewline(t);
    var c :| c in lines + t && !(c == ' ' || c == '\n' || c == '\t' || c == '\r');
    if n == |t| {
      LineIsKept(lines, t, "\n" + rest);
      assert Frame(t) + rest == t + "\n" + ("\n" + rest);
      assert c in lines + t + "\n";
      BlankLineEnds(lines + t + "\n", rest);
      assert lines + t + "\n" + "\n" == lines + Frame(t);
    } else {
      var t' := t[n + 1..];
      assert t == t[..n] + "\n" + t';
      LineIsKept(lines, t[..n], Frame(t') + rest);
      assert Frame(t) + rest == t[..n] + "\n" + (Frame(t') + rest);
      LaterLines(t, n + 1);
      assert lines + t[..n] + "\n" + t' == lines + t;
      RequestIsHandled(lines + t[..n] + "\n", t', rest);
      assert lines + t[..n] + "\n" + Frame(t') == lines + Frame(t);
    }
  }

  /** Every request arrives, once and in order. */
  lemma {:induction false} FramesArrive(ts: seq<Text>)
    requires forall t :: t in ts ==> NoBlankLine(t) && !IsBlank(t)
    ensures Requests("", Frames(ts)) == seq(|ts|, i requires 0 <= i < |ts| => Frame(ts[i]))
  {
    if ts != [] {
      assert ts[0] in ts;
      FramesArrive(ts[1..]);
      assert "" + ts[0] == ts[0] && "" + Frame(ts[0]) == Frame(ts[0]);
      RequestIsHandled("", ts[0], Frames(ts[1..]));
    }
  }

  // ---- requests, responses and events ----

  type EventData = nat

  /** What a command came to: its result, or the error it raised. */
  type Outcome = Result<nat, nat>

  /** A response names its request, unless the request had no id or the id 0. */
  datatype Reply = Reply(id: Option<nat>, outcome: Outcome)

  datatype Message = Event(event: EventData) | Response(reply: Reply)

  datatype ClientError = NoResponse | WrongId(expected: nat, got: Option<nat>) | Refused(error: nat) | Unexpected

  /** What run_command makes of a response. */
  function Received(id: nat, reply: Reply): Result<nat, ClientError> {
    if reply.id != Some(id) then Err(WrongId(id, reply.id))
    else match reply.outcome case Ok(value) => Ok(value) case Err(error) => Err(Refused(error))
  }

  /** One end of the connection: unread messages, events put aside, and the id of the next request. `inbox`
      holds what will arrive until the connection closes. */
  class ControlClient {
    var inbox: seq<Message>
    var pending: seq<EventData>
    var idCounter: nat

    constructor (inbox: seq<Message>)
      ensures this.inbox == inbox && pending == [] && idCounter == 1
    {
      this.inbox, pending, idCounter := inbox, [], 1;
    }

    /** Sends a request and waits for the first response, putting events aside. */
    method RunCommand() returns (r: Result<nat, ClientError>)
      modifies this
      ensures idCounter == old(idCounter) + 1
      ensures var k := FirstResponse(old(inbox));
              && pending == old(pending) + Events(old(inbox)[..k])
              && inbox == old(inbox)[if k < |old(inbox)| then k + 1 else k..]
              && r == if k == |old(inbox)| then Err(NoResponse) else Received(old(idCounter), old(inbox)[k].reply)
    {
      hide Events;
      EventsOfNone();
      var id := idCounter;
      idCounter := idCounter + 1;
      ghost var start, kept, done := inbox, pending, 0;
      while inbox != []
        invariant done <= FirstResponse(start) && inbox == start[done..]
        invariant pending == kept + Events(start[..done])
        invariant idCounter == id + 1
        decreases |inbox|
      {
        var message := inbox[0];
        inbox := inbox[1..];
        match message {
          case Event(e) =>
            pending := pending + [e];
            done := done + 1;
            EventsUpTo(start, done - 1);
          case Response(reply) =>
            return Received(id, reply);
        }
      }
      return Err(NoResponse);
    }

    /** The events put aside, or else the next message; none when the connection is closed. */
    method WaitForEvents() returns (r: Result<seq<EventData>, ClientError>)
      modifies this
      ensures idCounter == old(idCounter) && pending == []
      ensures if old(pending) != [] then r == Ok(old(pending)) && inbox == old(inbox)
              else if old(inbox) == [] then r == Ok([]) && inbox == []
              else
                && inbox == old(inbox)[1..]
                && r == match old(inbox)[0] case Event(e) => Ok([e]) case Response(_) => Err(Unexpected)
    {
      if pending != [] {
        r := Ok(pending);
        pending := [];
        return;
      }
      if inbox == [] {
        return Ok([]);
      }
      var message := inbox[0];
      inbox := inbox[1..];
      match message {
        case Event(e) => return Ok([e]);
        case Response(_) => return Err(Unexpected);
      }
    }
  }

  function FirstResponse(ms: seq<Message>): (k: nat)
    ensures k <= |ms| && (k < |ms| ==> ms[k].Response?) && forall i :: 0 <= i < k ==> ms[i].Event?
  {
    if ms == [] || ms[0].Response? then 0 else 1 + FirstResponse(ms[1..])
  }

  function EventIn(m: Message): seq<EventData> {
    match m case Event(e) => [e] case Response(_) => []
  }

  function ReplyIn(m: Message): seq<Reply> {
    match m case Event(_) => [] case Response(reply) => [reply]
  }

  function Events(ms: seq<Message>): seq<EventData> {
    if ms == [] then [] else EventIn(ms[0]) + Events(ms[1..])
  }

  function Replies(ms: seq<Message>): seq<Reply> {
    if ms == [] then [] else ReplyIn(ms[0]) + Replies(ms[1..])
  }

  lemma {:induction false} EventsAppend(a: seq<Message>, b: seq<Message>)
    ensures Events(a + b) == Events(a) + Events(b) && Replies(a + b) == Replies(a) + Replies(b)
  {
    hide EventIn, ReplyIn;
    if a == [] {
      assert a + b == b;
    } else {
      assert (a + b)[0] == a[0] && (a + b)[1..] == a[1..] + b;
      EventsAppend(a[1..], b);
      assert Events(a + b) == EventIn(a[0]) + (Events(a[1..]) + Events(b));
      assert Replies(a + b) == ReplyIn(a[0]) + (Replies(a[1..]) + Replies(b));
    }
  }

  lemma EventsOfNone()
    ensures Events([]) == []
  {
  }

  lemma EventsUpTo(ms: seq<Message>, k: nat)
    requires k < |ms|
    ensures Events(ms[..k + 1]) == Events(ms[..k]) + EventIn(ms[k])
  {
    assert ms[..k + 1] == ms[..k] + [ms[k]];
    EventsAppend(ms[..k], [ms[k]]);
  }

  // ---- whole runs of a connection ----

  /** The client, the requests the server has not read, the messages the client has not read, and histories: events
      sent and events handed to the caller, outcomes on the server by request, and outcomes the client returned. */
  datatype Connection = Connection(
    nextId: nat, waiting: Option<nat>, requests: seq<nat>, inbox: seq<Message>, pending: seq<EventData>,
    delivered: seq<EventData>, sent: seq<EventData>,
    outcomes: map<nat, Outcome>, results: map<nat, Outcome>, errors: set<ClientError>)

  const OPENED := Connection(1, None, [], [], [], [], [], map[], map[], {})

  /** One message at a time: the server's events come in between anything else. */
  datatype Step =
    | SendRequest
    | HandleRequest(outcome: Outcome)
    | SendEvent(event: EventData)
    | ReadInCommand
    | WaitForEvents

  function Answer(id: nat, outcome: Outcome): Reply {
    Reply(if id != 0 then Some(id) else None, outcome)
  }

  function Next(c: Connection, s: Step): Connection {
    match s
    case SendRequest =>
      if c.waiting.Some? then c
      else c.(nextId := c.nextId + 1, waiting := Some(c.nextId), requests := c.requests + [c.nextId])
    case HandleRequest(outcome) =>
      if c.requests == [] then c
      else
        var id := c.requests[0];
        c.(requests := c.requests[1..], inbox := c.inbox + [Response(Answer(id, outcome))],
           outcomes := c.outcomes[id := outcome])
    case SendEvent(e) => c.(inbox := c.inbox + [Event(e)], sent := c.sent + [e])
    case ReadInCommand =>
      if c.waiting.None? || c.inbox == [] then c
      else
        (match c.inbox[0]
         case Event(e) => c.(inbox := c.inbox[1..], pending := c.pending + [e])
         case Response(reply) => TakeReply(c.(inbox := c.inbox[1..]), c.waiting.value, reply))
    case WaitForEvents =>
      if c.waiting.Some? then c
      else if c.pending != [] then c.(pending := [], delivered := c.delivered + c.pending)
      else if c.inbox == [] then c
      else
        (match c.inbox[0]
         case Event(e) => c.(inbox := c.inbox[1..], delivered := c.delivered + [e])
         case Response(_) => c.(inbox := c.inbox[1..], errors := c.errors + {Unexpected}))
  }

  function TakeReply(c: Connection, id: nat, reply: Reply): Connection {
    if reply.id == Some(id) then c.(waiting := None, results := c.results[id := reply.outcome])
    else c.(waiting := None, errors := c.errors + {WrongId(id, reply.id)})
  }

  function RunSteps(c: Connection, ss: seq<Step>): Connection {
    if ss == [] then c else Next(RunSteps(c, ss[..|ss| - 1]), ss[|ss| - 1])
  }

  /** No request, or one: unread by the server, or answered and the answer unread by the client. */
  ghost predicate OneUnderWay(c: Connection) {
    match c.waiting
    case None => c.requests == [] && Replies(c.inbox) == []
    case Some(id) =>
      || (c.requests == [id] && Replies(c.inbox) == [])
      || (c.requests == [] && id in c.outcomes && Replies(c.inbox) == [Answer(id, c.outcomes[id])])
  }

  /** Every request but the one under way has returned, with the server's outcome for that request. */
  ghost predicate OutcomesReturned(c: Connection) {
    && (c.waiting.Some? ==> c.waiting.value == c.nextId - 1)
    && (forall id :: id in c.results <==> 0 < id < c.nextId && c.waiting != Some(id))
    && (forall id :: id in c.outcomes ==> id < c.nextId)
    && (forall id :: id in c.results ==> id in c.outcomes && c.results[id] == c.outcomes[id])
  }

  ghost predicate Orderly(c: Connection) {
    && c.errors == {} && c.nextId > 0 && (c.waiting.Some? ==> c.waiting.value > 0)
    && OneUnderWay(c) && OutcomesReturned(c)
    && c.delivered + c.pending + Events(c.inbox) == c.sent
  }

  lemma SendsAreOrderly(c: Connection, s: Step)
    requires Orderly(c) && (s.SendRequest? || s.HandleRequest? || s.SendEvent?)
    ensures Orderly(Next(c, s))
  {
    hide Events, Replies;
    match s {
      case SendRequest =>
      case HandleRequest(outcome) =>
        if c.requests != [] {
          AppendedReply(c.inbox, Answer(c.requests[0], outcome));
        }
      case SendEvent(e) =>
        AppendedEvent(c.inbox, e);
        assert c.delivered + c.pending + (Events(c.inbox) + [e]) == c.sent + [e];
    }
  }

  lemma AppendedReply(ms: seq<Message>, reply: Reply)
    ensures Events(ms + [Response(reply)]) == Events(ms) && Replies(ms + [Response(reply)]) == Replies(ms) + [reply]
  {
    EventsAppend(ms, [Response(reply)]);
  }

  lemma AppendedEvent(ms: seq<Message>, e: EventData)
    ensures Events(ms + [Event(e)]) == Events(ms) + [e] && Replies(ms + [Event(e)]) == Replies(ms)
  {
    EventsAppend(ms, [Event(e)]);
  }

  /** Reading an event leaves the responses; reading a response leaves the events, and it answers the request waited
      for. */
  lemma ReadHead(c: Connection)
    requires Orderly(c) && c.inbox != []
    ensures c.inbox[0].Event? ==>
              && Events(c.inbox) == [c.inbox[0].event] + Events(c.inbox[1..])
              && Replies(c.inbox) == Replies(c.inbox[1..])
    ensures c.inbox[0].Response? ==>
              && Events(c.inbox) == Events(c.inbox[1..])
              && c.waiting.Some? && c.waiting.value in c.outcomes && c.requests == []
              && c.inbox[0].reply == Answer(c.waiting.value, c.outcomes[c.waiting.value]) && Replies(c.inbox[1..]) == []
  {
    if c.inbox[0].Response? {
      var rest := Replies(c.inbox[1..]);
      assert Replies(c.inbox) == [c.inbox[0].reply] + rest;
      assert |Replies(c.inbox)| == 1 + |rest|;
      assert Replies(c.inbox)[0] == c.inbox[0].reply;
    }
  }

  lemma CommandReadIsOrderly(c: Connection)
    requires Orderly(c)
    ensures Orderly(Next(c, ReadInCommand))
  {
    hide Events, Replies;
    if c.inbox != [] && c.waiting.Some? {
      ReadHead(c);
      match c.inbox[0] {
        case Event(e) =>
          var tail := Events(c.inbox[1..]);
          assert c.delivered + c.pending + ([e] + tail) == c.delivered + (c.pending + [e]) + tail;
        case Response(reply) =>
      }
    }
  }

  lemma EventReadIsOrderly(c: Connection)
    requires Orderly(c)
    ensures Orderly(Next(c, WaitForEvents))
  {
    hide Events, Replies, OutcomesReturned;
    assert OutcomesReturned(Next(c, WaitForEvents)) by { EventReadKeepsOutcomes(c); }
    if c.waiting.None? {
      if c.pending != [] {
        assert c.delivered + c.pending + [] == c.delivered + c.pending;
      } else if c.inbox != [] {
        ReadHead(c);
        assert c.inbox[0].Event?;
        var e, tail := c.inbox[0].event, Events(c.inbox[1..]);
        assert c.delivered + c.pending + ([e] + tail) == c.delivered + [e] + c.pending + tail;
      }
    }
  }

  lemma EventReadKeepsOutcomes(c: Connection)
    requires OutcomesReturned(c)
    ensures OutcomesReturned(Next(c, WaitForEvents))
  {
  }

  lemma NextIsOrderly(c: Connection, s: Step)
    requires Orderly(c)
    ensures Orderly(Next(c, s))
  {
    hide Orderly, Next;
    match s {
      case ReadInCommand => CommandReadIsOrderly(c);
      case WaitForEvents => EventReadIsOrderly(c);
      case _ => SendsAreOrderly(c, s);
    }
  }

  /** In every run, however the server's events come in: no response has a foreign id, no response turns up
      where an event is expected, every finished request returned the outcome the server reached for it, and the
      events delivered, put aside and unread are those sent, in order. */
  lemma {:induction false} RunsAreOrderly(ss: seq<Step>)
    ensures Orderly(RunSteps(OPENED, ss))
  {
    if ss != [] {
      RunsAreOrderly(ss[..|ss| - 1]);
      NextIsOrderly(RunSteps(OPENED, ss[..|ss| - 1]), ss[|ss| - 1]);
    }
  }

  function ReadTimes(c: Connection, n: nat): Connection
    decreases n
  {
    if n == 0 then c else ReadTimes(Next(c, ReadInCommand), n - 1)
  }

  /** The steps of a run between a request and its response are one call of RunCommand. */
  lemma {:induction false} CommandIsSteps(c: Connection)
    requires c.waiting.Some? && FirstResponse(c.inbox) < |c.inbox|
    ensures var k := FirstResponse(c.inbox);
            var d := ReadTimes(c, k + 1);
            && d.pending == c.pending + Events(c.inbox[..k]) && d.inbox == c.inbox[k + 1..] && d.waiting.None?
            && var reply := c.inbox[k].reply;
               if reply.id == Some(c.waiting.value)
               then d.errors == c.errors && d.results == c.results[c.waiting.value := reply.outcome]
               else d.errors == c.errors + {WrongId(c.waiting.value, reply.id)} && d.results == c.results
    decreases |c.inbox|
  {
    hide Events;
    EventsOfNone();
    var k := FirstResponse(c.inbox);
    if k > 0 {
      var d := Next(c, ReadInCommand);
      CommandIsSteps(d);
      assert FirstResponse(d.inbox) == k - 1 && d.inbox[k - 1] == c.inbox[k] && d.inbox[k..] == c.inbox[k + 1..];
      EventsFrom(c.inbox, k);
      assert c.pending + [c.inbox[0].event] + Events(d.inbox[..k - 1]) == c.pending + Events(c.inbox[..k]);
    } else {
      assert ReadTimes(Next(c, ReadInCommand), 0) == Next(c, ReadInCommand);
      assert c.pending + [] == c.pending;
    }
  }

  lemma EventsFrom(ms: seq<Message>, k: nat)
    requires 0 < k <= |ms| && ms[0].Event?
    ensures Events(ms[..k]) == [ms[0].event] + Events(ms[1..][..k - 1])
  {
    assert ms[..k] == [ms[0]] + ms[1..][..k - 1];
    EventsAppend([ms[0]], ms[1..][..k - 1]);
  }
}
