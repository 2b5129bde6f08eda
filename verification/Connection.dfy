/**
  One IPC connection: read, split into lines, answer each line, gate everything behind `hello`.
  (crates/owe-ipc/src/server.rs, `serve_connection`, `handle_payload`, `write_reply`)
 */
module Connection {
  import opened Prelude
  import opened FrameDecoder

  const HELLO := "hello"

  type Value = Bytes

  datatype ErrorBody = BadRequest(message: string) | Internal | Refused(code: string, message: string)

  datatype Request = Request(id: string, action: string, params: Value)

  datatype Reply = Reply(id: string, outcome: Result<Value, ErrorBody>)

  /** What the connection relies on: the JSON codec, and a deterministic handler with its own state. */
  datatype Service<!S> = Service(
    decode: Bytes -> Result<Request, string>,
    extractId: Bytes -> string,
    handle: (S, Request) -> (S, Result<Value, ErrorBody>),
    encodedLength: Reply -> nat)

  /** One call of the handler. */
  datatype Call = Call(request: Request, ok: bool)

  datatype Session<S> = Session(state: S, handshaken: bool, calls: seq<Call>)

  function Open<S>(state: S): Session<S> {
    Session(state, false, [])
  }

  function HandlePayload<S>(service: Service<S>, session: Session<S>, payload: Bytes): (Session<S>, Reply) {
    match service.decode(payload)
    case Err(message) => (session, Reply(service.extractId(payload), Err(BadRequest(message))))
    case Ok(request) =>
      if !session.handshaken && request.action != HELLO then
        (session, Reply(request.id,
            Err(BadRequest("hello must be the first request; received `" + request.action + "`"))))
      else
        var (state, outcome) := service.handle(session.state, request);
        (Session(state, session.handshaken
            || (request.action == HELLO && outcome.Ok?), session.calls + [Call(request, outcome.Ok?)]),
         Reply(request.id, outcome))
  }

  /** Answer payloads in order. */
  function Serve<S>(service: Service<S>, session: Session<S>, payloads: seq<Bytes>): (Session<S>, seq<Reply>)
    decreases |payloads|
  {
    if payloads == [] then (session, [])
    else
      var (next, reply) := HandlePayload(service, session, payloads[0]);
      var (after, replies) := Serve(service, next, payloads[1..]);
      (after, [reply] + replies)
  }

  const TOO_LARGE := "frame exceeds the 1048576 byte limit; closing connection"

  function TooLargeReply(): Reply {
    Reply("", Err(BadRequest(TOO_LARGE)))
  }

  /** Every reply a byte stream deserves. */
  function Replies<S>(service: Service<S>, session: Session<S>, bytes: Bytes): seq<Reply> {
    var d := Drain(bytes);
    Serve(service, session, d.payloads).1 + (if d.poisoned then [TooLargeReply()] else [])
  }

  /** `write_reply`: what is put on the wire when a reply does not fit into a frame. */
  function Wire<S>(service: Service<S>, reply: Reply): Reply {
    if service.encodedLength(reply) < MAX_FRAME_BYTES then reply
    else
      var failed := Reply(reply.id, Err(Internal));
      if service.encodedLength(failed) < MAX_FRAME_BYTES then failed else Reply("", Err(Internal))
  }

  function Wired<S>(service: Service<S>, replies: seq<Reply>): seq<Reply> {
    seq(|replies|, i requires 0 <= i < |replies| => Wire(service, replies[i]))
  }

  /** Whether one more reply can be written to a peer that goes away after `writes` of them. */
  predicate Writable(sent: seq<Reply>, writes: Option<nat>) {
    writes.Some? ==> |sent| < writes.value
  }

  function Cut(replies: seq<Reply>, writes: Option<nat>): seq<Reply> {
    if writes.Some? && writes.value < |replies| then replies[..writes.value] else replies
  }

  /** What the client sent before it disconnected: a read of no bytes is the end of the stream. */
  function Received(input: seq<Bytes>): Bytes {
    if input == [] || input[0] == [] then [] else input[0] + Received(input[1..])
  }

  // ------------------------------------------------------------------ the loops, step by step

  /** Where a connection stands: its session, the replies written, the bytes buffered, and whether it is still open. */
  datatype Standing<S> = Standing(session: Session<S>, sent: seq<Reply>, buffer: Bytes, open: bool)

  /** The inner loop over the payloads at hand, stopping at the first reply that cannot be written. */
  function AnswerAll<S>(service: Service<S>, c: Standing<S>, payloads: seq<Bytes>, writes: Option<nat>): Standing<S>
    decreases |payloads|
  {
    if payloads == [] then c
    else
      var (next, reply) := HandlePayload(service, c.session, payloads[0]);
      if Writable(c.sent, writes)
      then AnswerAll(service, c.(session := next, sent := c.sent + [Wire(service, reply)]), payloads[1..], writes)
      else c.(session := next, open := false)
  }

  /** One read: buffer it, answer every complete line, close on an oversize one. */
  function AnswerRead<S>(service: Service<S>, c: Standing<S>, chunk: Bytes, writes: Option<nat>): Standing<S> {
    var d := Drain(c.buffer + chunk);
    var answered := AnswerAll(service, c, d.payloads, writes).(buffer := d.rest);
    if answered.open && d.poisoned then
      answered.(open := false,
                sent := if Writable(answered.sent, writes) then answered.sent + [Wire(service, TooLargeReply())]
                    else answered.sent)
    else answered
  }

  function AnswerReads<S>(service: Service<S>, c: Standing<S>, input: seq<Bytes>, writes: Option<nat>): Standing<S>
    decreases |input|
  {
    if input == [] || input[0] == [] || !c.open then c
    else AnswerReads(service, AnswerRead(service, c, input[0], writes), input[1..], writes)
  }

  class Writer {
    var sent: seq<Reply>
    const writes: Option<nat>

    constructor (writes: Option<nat>)
      ensures sent == [] && this.writes == writes
    {
      sent, this.writes := [], writes;
    }

    method WriteReply<S>(service: Service<S>, reply: Reply) returns (ok: bool)
      modifies this
      ensures ok <==> Writable(old(sent), writes)
      ensures sent == if ok then old(sent) + [Wire(service, reply)] else old(sent)
    {
      ok := writes.None? || |sent| < writes.value;
      if ok {
        sent := sent + [Wire(service, reply)];
      }
    }
  }

  /** Answer every frame that is buffered. */
  method DrainFrames<S>(service: Service<S>, session: Session<S>, decoder: FrameDecoder, writer: Writer)
    returns (after: Session<S>, open: bool)
    requires !decoder.poisoned
    modifies decoder, writer
    ensures var c := AnswerRead(service, Standing(session, old(writer.sent), old(decoder.buffer), true), [],
              writer.writes);
            && after == c.session && writer.sent == c.sent && open == c.open
            && (open ==> decoder.buffer == c.buffer && !decoder.poisoned)
  {
    after := session;
    ghost var d := Drain(decoder.buffer);
    ghost var start := Standing(session, writer.sent, decoder.buffer, true);
    assert decoder.buffer + [] == decoder.buffer;
    while true
      invariant !decoder.poisoned
      invariant d.rest == Drain(decoder.buffer).rest && d.poisoned == Drain(decoder.buffer).poisoned
      invariant AnswerAll(service, start, d.payloads, writer.writes) ==
                  AnswerAll(service, start.(session := after, sent := writer.sent), Drain(decoder.buffer).payloads,
                      writer.writes)
      decreases |decoder.buffer|
    {
      var next := decoder.NextFrame();
      match next {
        case Ok(Some(payload)) =>
          var (session', reply) := HandlePayload(service, after, payload);
          assert ([payload] + Drain(decoder.buffer).payloads)[1..] == Drain(decoder.buffer).payloads;
          after := session';
          var ok := writer.WriteReply(service, reply);
          if !ok {
            return after, false;
          }
        case Ok(None) =>
          return after, true;
        case Err(_) =>
          var ok := writer.WriteReply(service, TooLargeReply());
          return after, false;
      }
    }
  }

  /** The read loop, from where the connection stands. */
  method ReadLoop<S>(service: Service<S>, start: Session<S>, input: seq<Bytes>, decoder: FrameDecoder, writer: Writer)
    returns (session: Session<S>)
    requires !decoder.poisoned && Gated(start)
    modifies decoder, writer
    ensures var whole := AnswerReads(service, Standing(start, old(writer.sent), old(decoder.buffer), true), input,
              writer.writes);
            writer.sent == whole.sent && session == whole.session
    ensures Gated(session)
  {
    hide AnswerRead, Gated;
    session := start;
    var open, i := true, 0;
    ghost var whole := AnswerReads(service, Standing(start, writer.sent, decoder.buffer, true), input, writer.writes);
    assert input[0..] == input;
    while i < |input| && input[i] != [] && open
      invariant i <= |input| && Gated(session) && (open ==> !decoder.poisoned)
      invariant open ==>
                  whole == AnswerReads(service, Standing(session, writer.sent, decoder.buffer, true), input[i..],
                      writer.writes)
      invariant !open ==> whole.sent == writer.sent && whole.session == session
    {
      ghost var c := Standing(session, writer.sent, decoder.buffer, true);
      var pushed := decoder.Push(input[i]);
      SplitRead(service, c, input[i], writer.writes);
      GatedRead(service, c, input[i], writer.writes);
      session, open := DrainFrames(service, session, decoder, writer);
      assert input[i..][1..] == input[i + 1..];
      i := i + 1;
    }
  }

  /** What is written on a connection over which these bytes arrive. */
  function Written<S>(service: Service<S>, state: S, bytes: Bytes, writes: Option<nat>): seq<Reply> {
    Cut(Wired(service, Replies(service, Open(state), bytes)), writes)
  }

  /** A reply, or at least an error with its id, fits into a frame. */
  predicate Returnable<S>(service: Service<S>, reply: Reply) {
    || service.encodedLength(reply) < MAX_FRAME_BYTES
    || service.encodedLength(Reply(reply.id, Err(Internal))) < MAX_FRAME_BYTES
    || reply.id == ""
  }

  /** The replies written for these bytes carry the ids of their lines, each exactly if it can be returned. */
  ghost predicate EchoesIds<S>(service: Service<S>, state: S, bytes: Bytes, sent: seq<Reply>) {
    var lines, replies := Fitting(Split(bytes).0), Replies(service, Open(state), bytes);
    && |sent| <= |replies| == |lines| + (if Oversize(bytes) then 1 else 0)
    && (forall i :: 0 <= i < |sent| && i < |lines| ==>
          if Returnable(service, replies[i]) then sent[i].id == LineId(service, lines[i]) else sent[i].id == "")
    && (forall i :: 0 <= i < |lines| ==> replies[i].id == LineId(service, lines[i]))
  }

  /** The first lines that are handled when only so many more replies can be written: the one whose reply fails is. */
  function Handled(payloads: seq<Bytes>, room: Option<nat>): seq<Bytes> {
    if room.Some? && room.value < |payloads| then payloads[..room.value + 1] else payloads
  }

  /** The session of a connection over which these bytes arrive: its calls are those for the lines that are handled. */
  function Reached<S>(service: Service<S>, state: S, bytes: Bytes, writes: Option<nat>): Session<S> {
    Serve(service, Open(state), Handled(Drain(bytes).payloads, writes)).0
  }

  // ------------------------------------------------------------------ what the handler decides

  /** The handler's state once it has been given these requests, one after the other. */
  function Folded<S>(service: Service<S>, state: S, requests: seq<Request>): S {
    if requests == [] then state
    else
      var n := |requests| - 1;
      service.handle(Folded(service, state, requests[..n]), requests[n]).0
  }

  /** What the handler answers to `request` after `requests`. */
  function Outcome<S>(service: Service<S>, state: S, requests: seq<Request>, request: Request): Result<Value, ErrorBody>
  {
    service.handle(Folded(service, state, requests), request).1
  }

  /** One of these requests is a `hello` that succeeded. */
  ghost predicate Welcomed<S>(service: Service<S>, state: S, requests: seq<Request>) {
    exists k :: 0 <= k < |requests| && requests[k].action == HELLO
                && Outcome(service, state, requests[..k], requests[k]).Ok?
  }

  /** The requests among these lines that reach the handler: `hello`, and everything once one has succeeded. */
  ghost function Accepted<S>(service: Service<S>, state: S, lines: seq<Bytes>): seq<Request> {
    if lines == [] then []
    else
      var n := |lines| - 1;
      var before := Accepted(service, state, lines[..n]);
      match service.decode(lines[n])
      case Ok(request) =>
        if request.action == HELLO || Welcomed(service, state, before) then before + [request] else before
      case Err(_) => before
  }

  /** The reply that line `i` deserves: the handler's own answer to an accepted request, in the state to which the
      requests accepted before it have led, and a refusal to every other line. */
  ghost function Deserved<S>(service: Service<S>, state: S, lines: seq<Bytes>, i: nat): Reply
    requires i < |lines|
  {
    var before := Accepted(service, state, lines[..i]);
    match service.decode(lines[i])
    case Err(message) => Reply(service.extractId(lines[i]), Err(BadRequest(message)))
    case Ok(q) =>
      if q.action == HELLO || Welcomed(service, state, before)
      then Reply(q.id, Outcome(service, state, before, q))
      else Reply(q.id, Err(BadRequest("hello must be the first request; received `" + q.action + "`")))
  }

  /** The session that these lines lead to: the handler's state, the handshake and the calls are those of the accepted
      requests. */
  ghost predicate IsSession<S>(service: Service<S>, state: S, lines: seq<Bytes>, session: Session<S>) {
    var requests := Accepted(service, state, lines);
    && session.state == Folded(service, state, requests)
    && (session.handshaken <==> Welcomed(service, state, requests))
    && |session.calls| == |requests|
    && forall k :: 0 <= k < |requests| ==>
         session.calls[k] == Call(requests[k], Outcome(service, state, requests[..k], requests[k]).Ok?)
  }

  /** A reply that fits goes out as it is; for one that does not fit an internal error goes out. */
  ghost predicate IsWired<S>(service: Service<S>, reply: Reply, sent: Reply) {
    if service.encodedLength(reply) < MAX_FRAME_BYTES then sent == reply
    else sent.outcome == Err(Internal) && sent.id == (if Returnable(service, reply) then reply.id else "")
  }

  /** As many replies as can be written, line by line what the line deserves; and after the last line that fits, one
      refusal without id for a line that does not. */
  ghost predicate AreDeserved<S>(service: Service<S>, state: S, lines: seq<Bytes>, oversize: bool, writes: Option<nat>,
                                 sent: seq<Reply>) {
    var due := |lines| + (if oversize then 1 else 0);
    && |sent| == (if writes.Some? && writes.value < due then writes.value else due)
    && (forall i :: 0 <= i < |sent| && i < |lines| ==>
          IsWired(service, Deserved(service, state, lines, i), sent[i]))
    && (|sent| > |lines| ==> IsWired(service, Reply("", Err(BadRequest(TOO_LARGE))), sent[|lines|]))
  }

  /** One line more. */
  lemma NextLine<S>(service: Service<S>, state: S, lines: seq<Bytes>, session: Session<S>)
    requires lines != [] && IsSession(service, state, lines[..|lines| - 1], session)
    ensures var (next, reply) := HandlePayload(service, session, lines[|lines| - 1]);
            IsSession(service, state, lines, next) && reply == Deserved(service, state, lines, |lines| - 1)
  {
    var n := |lines| - 1;
    var before, requests := Accepted(service, state, lines[..n]), Accepted(service, state, lines);
    var next := HandlePayload(service, session, lines[n]).0;
    if requests != before {
      var q := requests[|before|];
      assert requests == before + [q] && requests[..|before|] == before;
      WelcomedNext(service, state, before, q);
      forall k | 0 <= k < |requests|
        ensures next.calls[k] == Call(requests[k], Outcome(service, state, requests[..k], requests[k]).Ok?)
      {
        if k < |before| { assert requests[..k] == before[..k]; }
      }
    }
  }

  lemma WelcomedNext<S>(service: Service<S>, state: S, before: seq<Request>, q: Request)
    ensures Welcomed(service, state, before + [q])
            <==> Welcomed(service, state, before) || (q.action == HELLO && Outcome(service, state, before, q).Ok?)
  {
    var requests := before + [q];
    assert requests[..|before|] == before;
    forall k | 0 <= k < |before| ensures requests[..k] == before[..k] && requests[k] == before[k] {
    }
  }

  lemma {:induction false} ServeNext<S>(service: Service<S>, session: Session<S>, lines: seq<Bytes>)
    requires lines != []
    ensures var n := |lines| - 1;
            var (before, replies) := Serve(service, session, lines[..n]);
            var (next, reply) := HandlePayload(service, before, lines[n]);
            Serve(service, session, lines) == (next, replies + [reply])
  {
    var n := |lines| - 1;
    ServeConcat(service, session, lines[..n], [lines[n]]);
    assert lines == lines[..n] + [lines[n]] && [lines[n]][1..] == [];
    ServeOne(service, Serve(service, session, lines[..n]).0, lines[n]);
  }

  /** What is served is what is deserved: the replies are the handler's own answers and refusals of everything else, and
      the session is that of the accepted requests. */
  lemma {:induction false} HandlerDecides<S>(service: Service<S>, state: S, lines: seq<Bytes>)
    ensures var (session, replies) := Serve(service, Open(state), lines);
            && IsSession(service, state, lines, session)
            && |replies| == |lines|
            && forall i :: 0 <= i < |lines| ==> replies[i] == Deserved(service, state, lines, i)
  {
    if lines != [] {
      var n := |lines| - 1;
      var (before, replies) := Serve(service, Open(state), lines[..n]);
      HandlerDecides(service, state, lines[..n]);
      ServeNext(service, Open(state), lines);
      NextLine(service, state, lines, before);
      hide Serve, HandlePayload, IsSession, Deserved;
      forall i | 0 <= i < n ensures replies[i] == Deserved(service, state, lines, i) {
        DeservedAlready(service, state, lines, n, i);
      }
    }
  }

  /** What a line deserves does not depend on the lines behind it. */
  lemma DeservedAlready<S>(service: Service<S>, state: S, lines: seq<Bytes>, n: nat, i: nat)
    requires i < n <= |lines|
    ensures Deserved(service, state, lines[..n], i) == Deserved(service, state, lines, i)
  {
    hide Accepted, Outcome;
    assert lines[..n][i] == lines[i] && lines[..n][..i] == lines[..i];
  }

  /** A line refused before `hello` leaves the handler alone: what follows is as if it had not been sent. */
  lemma RefusedLineIsIgnored<S>(service: Service<S>, state: S, lines: seq<Bytes>, line: Bytes)
    requires service.decode(line).Err? || (service.decode(line).value.action != HELLO
                                           && !Welcomed(service, state, Accepted(service, state, lines)))
    ensures var reply := Deserved(service, state, lines + [line], |lines|);
            && reply.outcome.Err? && reply.outcome.error.BadRequest?
            && Accepted(service, state, lines + [line]) == Accepted(service, state, lines)
            && Serve(service, Open(state), lines + [line]).0 == Serve(service, Open(state), lines).0
  {
    var more := lines + [line];
    assert more[..|lines|] == lines && more[|lines|] == line;
    ServeNext(service, Open(state), more);
    HandlerDecides(service, state, lines);
    hide Serve;
  }

  lemma WrittenIsDeserved<S>(service: Service<S>, state: S, bytes: Bytes, writes: Option<nat>)
    ensures AreDeserved(service, state, Fitting(Split(bytes).0), Oversize(bytes), writes,
                        Written(service, state, bytes, writes))
  {
    DrainIsSplit(bytes);
    var lines := Fitting(Split(bytes).0);
    HandlerDecides(service, state, lines);
    hide Split, Fitting, Oversize, Drain, Deserved, Serve, Wire, IsWired;
    var replies := Replies(service, Open(state), bytes);
    forall i | 0 <= i < |replies| ensures IsWired(service, replies[i], Wire(service, replies[i])) {
      WireSendsIt(service, replies[i]);
    }
  }

  lemma WireSendsIt<S>(service: Service<S>, reply: Reply)
    ensures IsWired(service, reply, Wire(service, reply))
  {
  }

  /** Serve one connection until the client disconnects, a reply cannot be written, or framing is violated. */
  method ServeConnection<S>(service: Service<S>, state: S, input: seq<Bytes>, writes: Option<nat>)
    returns (session: Session<S>, sent: seq<Reply>)
    ensures sent == Written(service, state, Received(input), writes)
    ensures EchoesIds(service, state, Received(input), sent)
    ensures var lines, oversize := Fitting(Split(Received(input)).0), Oversize(Received(input));
            && AreDeserved(service, state, lines, oversize, writes, sent)
            && IsSession(service, state, Handled(lines, writes), session)
    ensures session == Reached(service, state, Received(input), writes) && Gated(session)
  {
    hide AnswerReads, Written, Reached, EchoesIds, AreDeserved, IsSession, Handled, Received, Split, Fitting, Oversize;
    var decoder := new FrameDecoder();
    var writer := new Writer(writes);
    WholeStream(service, state, input, writes);
    session := ReadLoop(service, Open(state), input, decoder, writer);
    sent := writer.sent;
  }

  /** What the loops come to, read by read, is what the whole stream deserves. */
  lemma WholeStream<S>(service: Service<S>, state: S, input: seq<Bytes>, writes: Option<nat>)
    ensures var whole := AnswerReads(service, Standing(Open(state), [], [], true), input, writes);
            var bytes := Received(input);
            && whole.sent == Written(service, state, bytes, writes)
            && whole.session == Reached(service, state, bytes, writes)
            && EchoesIds(service, state, bytes, whole.sent)
            && AreDeserved(service, state, Fitting(Split(bytes).0), Oversize(bytes), writes, whole.sent)
            && IsSession(service, state, Handled(Fitting(Split(bytes).0), writes), whole.session)
  {
    var bytes, c := Received(input), Standing(Open(state), [], [], true);
    assert Drain([]) == Drained([], [], false);
    hide Drain, Serve, Replies, Wired, AnswerReads, Received, Handled, EchoesIds, AreDeserved, IsSession, Split,
      Fitting, Oversize, Cut;
    StreamOnly(service, c, input, writes);
    HandledOnly(service, c, input, writes);
    assert [] + bytes == bytes;
    var replies := Wired(service, Replies(service, Open(state), bytes));
    assert [] + replies == replies;
    WrittenEchoesIds(service, state, bytes, writes);
    WrittenIsDeserved(service, state, bytes, writes);
    DrainIsSplit(bytes);
    HandlerDecides(service, state, Handled(Drain(bytes).payloads, writes));
  }

  // ------------------------------------------------------------------ lemmas

  /** Answering a read is answering what is then buffered. */
  lemma SplitRead<S>(service: Service<S>, c: Standing<S>, chunk: Bytes, writes: Option<nat>)
    ensures AnswerRead(service, c, chunk, writes) == AnswerRead(service, c.(buffer := c.buffer + chunk), [], writes)
  {
    assert c.buffer + chunk + [] == c.buffer + chunk;
    AnswerIgnoresBuffer(service, c, c.buffer + chunk, Drain(c.buffer + chunk).payloads, writes);
  }

  lemma {:induction false} AnswerIgnoresBuffer<S>(service: Service<S>, c: Standing<S>, buffer: Bytes,
                                                  payloads: seq<Bytes>, writes: Option<nat>)
    ensures AnswerAll(service, c.(buffer := buffer), payloads, writes)
              == AnswerAll(service, c, payloads, writes).(buffer := buffer)
    decreases |payloads|
  {
    if payloads != [] {
      var (next, reply) := HandlePayload(service, c.session, payloads[0]);
      AnswerIgnoresBuffer(service, c.(session := next, sent := c.sent + [Wire(service, reply)]), buffer, payloads[1..],
          writes);
    }
  }

  lemma {:induction false} OneReplyPerLine<S>(service: Service<S>, session: Session<S>, payloads: seq<Bytes>)
    ensures |Serve(service, session, payloads).1| == |payloads|
    decreases |payloads|
  {
    if payloads != [] {
      OneReplyPerLine(service, HandlePayload(service, session, payloads[0]).0, payloads[1..]);
    }
  }

  /** The inner loop writes the replies of its payloads as far as the peer reads, and stays open exactly when
      all fit. */
  lemma {:induction false} AnswerAllWrites<S>(service: Service<S>, c: Standing<S>, payloads: seq<Bytes>,
                                              writes: Option<nat>)
    requires c.open && (writes.Some? ==> |c.sent| <= writes.value)
    ensures var a, served := AnswerAll(service, c, payloads, writes), Serve(service, c.session, payloads);
            && a.sent == Cut(c.sent + Wired(service, served.1), writes)
            && (a.open <==> (writes.Some? ==> |c.sent| + |payloads| <= writes.value))
            && (a.open ==> a.session == served.0)
    decreases |payloads|
  {
    var served := Serve(service, c.session, payloads);
    if payloads == [] {
      assert c.sent + Wired(service, served.1) == c.sent;
    } else {
      var (next, reply) := HandlePayload(service, c.session, payloads[0]);
      var more := Serve(service, next, payloads[1..]).1;
      assert Wired(service, [reply] + more) == [Wire(service, reply)] + Wired(service, more);
      assert c.sent + Wired(service, served.1) == c.sent + [Wire(service, reply)] + Wired(service, more);
      if Writable(c.sent, writes) {
        AnswerAllWrites(service, c.(session := next, sent := c.sent + [Wire(service, reply)]), payloads[1..], writes);
      } else {
        assert Cut(c.sent + Wired(service, served.1), writes) == c.sent;
      }
    }
  }

  lemma {:induction false} ServeConcat<S>(service: Service<S>, session: Session<S>, a: seq<Bytes>, b: seq<Bytes>)
    ensures var first := Serve(service, session, a);
            var second := Serve(service, first.0, b);
            Serve(service, session, a + b) == (second.0, first.1 + second.1)
    decreases |a|
  {
    if a == [] {
      assert a + b == b;
      assert [] + Serve(service, session, b).1 == Serve(service, session, b).1;
    } else {
      assert (a + b)[1..] == a[1..] + b;
      var (next, reply) := HandlePayload(service, session, a[0]);
      ServeConcat(service, next, a[1..], b);
      var first := Serve(service, next, a[1..]);
      var second := Serve(service, first.0, b);
      assert [reply] + (first.1 + second.1) == [reply] + first.1 + second.1;
    }
  }

  /** Replies to a stream that continues: those to what is complete, then those to the rest. */
  lemma RepliesInTwo<S>(service: Service<S>, session: Session<S>, a: Bytes, b: Bytes)
    ensures var d := Drain(a);
            Replies(service, session, a + b) ==
              if d.poisoned then Replies(service, session, a)
              else Serve(service, session, d.payloads).1 + Replies(service, Serve(service, session, d.payloads).0,
                  d.rest + b)
  {
    hide Drain, Serve;
    DrainInTwo(a, b);
    var d := Drain(a);
    if !d.poisoned {
      var e := Drain(d.rest + b);
      ServeConcat(service, session, d.payloads, e.payloads);
      var first := Serve(service, session, d.payloads);
      var second := Serve(service, first.0, e.payloads).1;
      var last := if e.poisoned then [TooLargeReply()] else [];
      assert first.1 + second + last == first.1 + (second + last);
    }
  }

  /** However the stream is cut into reads, what is written depends only on its bytes. */
  lemma {:induction false} StreamOnly<S>(service: Service<S>, c: Standing<S>, input: seq<Bytes>, writes: Option<nat>)
    requires c.open && (writes.Some? ==> |c.sent| <= writes.value) && Drain(c.buffer) == Drained([], c.buffer, false)
    ensures AnswerReads(service, c, input, writes).sent ==
              Cut(c.sent + Wired(service, Replies(service, c.session, c.buffer + Received(input))), writes)
    decreases |input|
  {
    hide Drain, Wired, Wire, AnswerRead;
    if input == [] || input[0] == [] {
      assert c.buffer + [] == c.buffer;
      NoReplies(service, c);
    } else {
      hide Replies;
      ReadThenRest(service, c, input[0], Received(input[1..]), writes);
      assert c.buffer + (input[0] + Received(input[1..])) == c.buffer + input[0] + Received(input[1..]);
      var next := AnswerRead(service, c, input[0], writes);
      if next.open {
        StreamOnly(service, next, input[1..], writes);
      }
    }
  }

  lemma NoReplies<S>(service: Service<S>, c: Standing<S>)
    requires Drain(c.buffer) == Drained([], c.buffer, false)
    ensures Replies(service, c.session, c.buffer) == [] && c.sent + Wired(service, []) == c.sent
  {
  }

  /** One read, against the replies to everything that follows it. */
  lemma ReadThenRest<S>(service: Service<S>, c: Standing<S>, chunk: Bytes, rest: Bytes, writes: Option<nat>)
    requires c.open && (writes.Some? ==> |c.sent| <= writes.value)
    ensures var next := AnswerRead(service, c, chunk, writes);
            var all := Replies(service, c.session, c.buffer + chunk + rest);
            if next.open
            then Drain(next.buffer) == Drained([], next.buffer, false) && (writes.Some? ==> |next.sent| <= writes.value)
                 && c.sent + Wired(service, all)
                     == next.sent + Wired(service, Replies(service, next.session, next.buffer + rest))
            else next.sent == Cut(c.sent + Wired(service, all), writes)
  {
    hide Drain, Serve, AnswerAll, Wire;
    var bytes := c.buffer + chunk;
    var d := Drain(bytes);
    var served := Serve(service, c.session, d.payloads);
    AnswerAllWrites(service, c, d.payloads, writes);
    OneReplyPerLine(service, c.session, d.payloads);
    RepliesInTwo(service, c.session, bytes, rest);
    DrainIsStable(bytes);
    var first := c.sent + Wired(service, served.1);
    var last := if d.poisoned then [TooLargeReply()] else Replies(service, served.0, d.rest + rest);
    WiredConcat(service, served.1, last);
    assert c.sent + Wired(service, served.1 + last) == first + Wired(service, last);
    CutFirst(first, Wired(service, last), writes);
  }

  lemma WiredConcat<S>(service: Service<S>, a: seq<Reply>, b: seq<Reply>)
    ensures Wired(service, a + b) == Wired(service, a) + Wired(service, b)
    ensures |b| == 1 ==> Wired(service, b) == [Wire(service, b[0])]
  {
  }

  lemma CutFirst(a: seq<Reply>, b: seq<Reply>, writes: Option<nat>)
    ensures writes.Some? && writes.value <= |a| ==> Cut(a + b, writes) == Cut(a, writes)
    ensures Cut(a, writes) == a[..|Cut(a, writes)|]
  {
  }

  /** How many replies can still be written. */
  function Room(sent: seq<Reply>, writes: Option<nat>): Option<nat>
    requires writes.Some? ==> |sent| <= writes.value
  {
    if writes.Some? then Some(writes.value - |sent|) else None
  }

  /** The inner loop handles its payloads up to the first whose reply cannot be written. */
  lemma {:induction false} AnswerAllHandles<S>(service: Service<S>, c: Standing<S>, payloads: seq<Bytes>,
                                               writes: Option<nat>)
    requires c.open && (writes.Some? ==> |c.sent| <= writes.value)
    ensures AnswerAll(service, c, payloads, writes).session
            == Serve(service, c.session, Handled(payloads, Room(c.sent, writes))).0
    decreases |payloads|
  {
    if payloads != [] {
      var (next, reply) := HandlePayload(service, c.session, payloads[0]);
      var handled := Handled(payloads, Room(c.sent, writes));
      if Writable(c.sent, writes) {
        var d := c.(session := next, sent := c.sent + [Wire(service, reply)]);
        AnswerAllHandles(service, d, payloads[1..], writes);
        assert handled[0] == payloads[0] && handled[1..] == Handled(payloads[1..], Room(d.sent, writes));
      } else {
        assert handled == [payloads[0]] && handled[1..] == [];
      }
    }
  }

  lemma HandledInTwo(a: seq<Bytes>, b: seq<Bytes>, room: Option<nat>)
    ensures room.Some? && room.value < |a| ==> Handled(a + b, room) == Handled(a, room)
    ensures room.None? ==> Handled(a + b, room) == Handled(a, room) + Handled(b, None) && Handled(a, room) == a
    ensures room.Some? && |a| <= room.value ==>
              Handled(a, room) == a && Handled(a + b, room) == a + Handled(b, Some(room.value - |a|))
  {
  }

  /** However the stream is cut into reads, the lines that are handled depend only on its bytes. */
  lemma {:induction false} HandledOnly<S>(service: Service<S>, c: Standing<S>, input: seq<Bytes>, writes: Option<nat>)
    requires c.open && (writes.Some? ==> |c.sent| <= writes.value) && Drain(c.buffer) == Drained([], c.buffer, false)
    ensures AnswerReads(service, c, input, writes).session
            == Serve(service, c.session, Handled(Drain(c.buffer + Received(input)).payloads, Room(c.sent, writes))).0
    decreases |input|
  {
    hide Drain, AnswerRead;
    if input == [] || input[0] == [] {
      assert c.buffer + [] == c.buffer;
    } else {
      hide Handled, Serve;
      var rest := Received(input[1..]);
      assert c.buffer + (input[0] + rest) == c.buffer + input[0] + rest;
      HandledFirst(service, c, input[0], rest, writes);
      var next := AnswerRead(service, c, input[0], writes);
      if next.open {
        HandledOnly(service, next, input[1..], writes);
      }
    }
  }

  /** One read, against everything that follows it. */
  lemma HandledFirst<S>(service: Service<S>, c: Standing<S>, chunk: Bytes, rest: Bytes, writes: Option<nat>)
    requires c.open && (writes.Some? ==> |c.sent| <= writes.value)
    ensures var next := AnswerRead(service, c, chunk, writes);
            var handled := Handled(Drain(c.buffer + chunk + rest).payloads, Room(c.sent, writes));
            var all := Serve(service, c.session, handled).0;
            if next.open
            then (writes.Some? ==> |next.sent| <= writes.value) && Drain(next.buffer) == Drained([], next.buffer, false)
                 && all == Serve(service, next.session,
                                 Handled(Drain(next.buffer + rest).payloads, Room(next.sent, writes))).0
            else next.session == all
  {
    hide Drain, Serve, AnswerAll, Wire, Handled;
    var bytes := c.buffer + chunk;
    var d, e := Drain(bytes), Drain(Drain(bytes).rest + rest);
    AnswerAllWrites(service, c, d.payloads, writes);
    OneReplyPerLine(service, c.session, d.payloads);
    AnswerAllHandles(service, c, d.payloads, writes);
    DrainInTwo(bytes, rest);
    DrainIsStable(bytes);
    HandledInTwo(d.payloads, e.payloads, Room(c.sent, writes));
    if AnswerAll(service, c, d.payloads, writes).open && !d.poisoned {
      var next := AnswerRead(service, c, chunk, writes);
      assert |next.sent| == |c.sent| + |d.payloads|;
      ServeConcat(service, c.session, d.payloads, Handled(e.payloads, Room(next.sent, writes)));
    }
  }

  /** What a drain leaves buffered has nothing left to drain. */
  lemma {:induction false} DrainIsStable(s: Bytes)
    ensures !Drain(s).poisoned ==> Drain(Drain(s).rest) == Drained([], Drain(s).rest, false)
    decreases |s|
  {
    var at := FindNewline(s);
    if at <= MAX_FRAME_BYTES && at < |s| { DrainIsStable(s[at + 1..]); }
  }

  // ------------------------------------------------------------------ main results

  function LineId<S>(service: Service<S>, payload: Bytes): string {
    match service.decode(payload)
    case Ok(request) => request.id
    case Err(_) => service.extractId(payload)
  }

  /** The reply sequence of a stream, line by line: one reply per line up to the first oversize one, in order; a
      decodable request's id is echoed; an oversize line gets exactly one more reply, and it is the last. */
  lemma {:induction false} ReplyPerLine<S>(service: Service<S>, session: Session<S>, bytes: Bytes)
    ensures var lines := Fitting(Split(bytes).0);
            var replies := Replies(service, session, bytes);
            && |replies| == |lines| + (if Oversize(bytes) then 1 else 0)
            && (forall i :: 0 <= i < |lines| ==> replies[i].id == LineId(service, lines[i]))
            && (Oversize(bytes) ==> replies[|lines|] == TooLargeReply())
  {
    DrainIsSplit(bytes);
    OneReplyPerLine(service, session, Fitting(Split(bytes).0));
    EchoIds(service, session, Fitting(Split(bytes).0));
  }

  lemma {:induction false} EchoIds<S>(service: Service<S>, session: Session<S>, payloads: seq<Bytes>)
    ensures var replies := Serve(service, session, payloads).1;
            |replies| == |payloads| && forall i :: 0 <= i < |payloads| ==> replies[i].id == LineId(service, payloads[i])
    decreases |payloads|
  {
    if payloads != [] {
      var (next, reply) := HandlePayload(service, session, payloads[0]);
      EchoIds(service, next, payloads[1..]);
      var rest := Serve(service, next, payloads[1..]).1;
      forall i | 0 <= i < |payloads| ensures ([reply] + rest)[i].id == LineId(service, payloads[i]) {
        if i > 0 { assert payloads[i] == payloads[1..][i - 1]; }
      }
    }
  }

  /** A line that cannot be decoded costs itself one error reply and nothing else: the connection goes on, the handler
      never sees it, and every other reply is what it would have been without it. */
  lemma BadLineIsIsolated<S>(service: Service<S>, session: Session<S>, a: seq<Bytes>, bad: Bytes, b: seq<Bytes>)
    requires service.decode(bad).Err?
    ensures |Serve(service, session, a + b).1| == |a| + |b|
    ensures var (after, replies) := Serve(service, session, a + [bad] + b);
            var (without, others) := Serve(service, session, a + b);
            var error := Reply(service.extractId(bad), Err(BadRequest(service.decode(bad).error)));
            && after == without
            && replies == others[..|a|] + [error] + others[|a|..]
  {
    OneReplyPerLine(service, session, a);
    OneReplyPerLine(service, session, a + b);
    ServeConcat(service, session, a, b);
    ServeConcat(service, session, a, [bad] + b);
    assert a + [bad] + b == a + ([bad] + b);
    assert ([bad] + b)[1..] == b;
    var first := Serve(service, session, a);
    var rest := Serve(service, first.0, b).1;
    var error := HandlePayload(service, first.0, bad).1;
    assert Serve(service, first.0, [bad] + b) == (Serve(service, first.0, b).0, [error] + rest);
    assert (first.1 + rest)[..|a|] == first.1 && (first.1 + rest)[|a|..] == rest;
    assert first.1 + ([error] + rest) == first.1 + [error] + rest;
  }

  /** On the wire an id survives exactly when the reply, or else the error that replaces it, fits into a frame; a
      request whose id alone is too long to send back gets the empty id. */
  lemma WireKeepsId<S>(service: Service<S>, reply: Reply)
    ensures Wire(service, reply).id == if Returnable(service, reply) then reply.id else ""
  {
  }

  lemma WrittenEchoesIds<S>(service: Service<S>, state: S, bytes: Bytes, writes: Option<nat>)
    ensures EchoesIds(service, state, bytes, Written(service, state, bytes, writes))
  {
    ReplyPerLine(service, Open(state), bytes);
    var replies := Replies(service, Open(state), bytes);
    hide Replies, Returnable, Wire, Split, Fitting, Oversize, LineId;
    forall i | 0 <= i < |replies|
      ensures Wired(service, replies)[i].id == if Returnable(service, replies[i]) then replies[i].id else ""
    {
      WireKeepsId(service, replies[i]);
    }
  }

  /** A service whose requests take 40 bytes besides their id, and whose replies take 60. */
  function Wordy(): Service<int> {
    Service(line => Ok(Request(LongId(line), HELLO, [])), line => "", (state, request) => (state, Ok([])),
            (reply: Reply) => |reply.id| + 60)
  }

  function LongId(line: Bytes): string {
    seq(if |line| < 40 then 0 else |line| - 40, _ => 'x')
  }

  /** A line of full length, and the newline behind it. */
  lemma OneLine(line: Bytes)
    requires NEWLINE !in line && |line| == MAX_FRAME_BYTES
    ensures Fitting(Split(line + [NEWLINE]).0) == [line] && Drain(line + [NEWLINE]) == Drained([line], [], false)
  {
    hide Split, Fitting, Drain, Oversize;
    CapIsOnThePayload(line);
    DrainIsSplit(line + [NEWLINE]);
  }

  lemma ServeOne<S>(service: Service<S>, session: Session<S>, payload: Bytes)
    ensures var (next, reply) := HandlePayload(service, session, payload);
            Serve(service, session, [payload]) == (next, [reply])
  {
    assert [payload][1..] == [];
    var (next, reply) := HandlePayload(service, session, payload);
    assert Serve(service, next, []) == (next, []);
    assert [reply] + [] == [reply];
  }

  lemma LongReply(line: Bytes)
    requires |line| == MAX_FRAME_BYTES
    ensures var reply := Reply(LongId(line), Ok([]));
            HandlePayload(Wordy(), Open(0), line).1 == reply && !Returnable(Wordy(), reply)
  {
  }

  /** A request can be short enough to be accepted while its id is too long to be returned: its reply has no id. */
  lemma LongIdIsLost(line: Bytes)
    requires NEWLINE !in line && |line| == MAX_FRAME_BYTES
    ensures var sent := Written(Wordy(), 0, line + [NEWLINE], None);
            |sent| == 1 && sent[0].id == "" && Fitting(Split(line + [NEWLINE]).0) == [line]
                && |LineId(Wordy(), line)| == MAX_FRAME_BYTES - 40
  {
    OneLine(line);
    hide Split, Fitting, Drain, Wire, Serve;
    ServeOne(Wordy(), Open(0), line);
    LongReply(line);
    hide HandlePayload, Returnable, LongId;
    WireKeepsId(Wordy(), Reply(LongId(line), Ok([])));
  }

  /** A call that lets the connection in. */
  predicate Welcome(call: Call) {
    call.request.action == HELLO && call.ok
  }

  /** The handler has seen only `hello` until one of them succeeded. */
  ghost predicate Gated<S>(session: Session<S>) {
    && (session.handshaken <==> exists j :: 0 <= j < |session.calls| && Welcome(session.calls[j]))
    && (forall k :: 0 <= k < |session.calls| ==>
          session.calls[k].request.action == HELLO || exists j :: 0 <= j < k && Welcome(session.calls[j]))
  }

  lemma GatedStep<S>(service: Service<S>, session: Session<S>, payload: Bytes)
    requires Gated(session)
    ensures Gated(HandlePayload(service, session, payload).0)
  {
    var next := HandlePayload(service, session, payload).0;
    if next.calls != session.calls {
      var n := |session.calls|;
      assert next.calls[..n] == session.calls;
      if session.handshaken {
        var j :| 0 <= j < n && Welcome(session.calls[j]);
        assert Welcome(next.calls[j]);
      } else {
        assert Welcome(next.calls[n]) <==> next.handshaken;
      }
      forall k | 0 <= k < |next.calls|
        ensures next.calls[k].request.action == HELLO || exists j :: 0 <= j < k && Welcome(next.calls[j])
      {
        if k < n && next.calls[k].request.action != HELLO {
          var j :| 0 <= j < k && Welcome(session.calls[j]);
          assert Welcome(next.calls[j]);
        }
      }
    }
  }

  lemma {:induction false} GatedAll<S>(service: Service<S>, c: Standing<S>, payloads: seq<Bytes>, writes: Option<nat>)
    requires Gated(c.session)
    ensures Gated(AnswerAll(service, c, payloads, writes).session)
    decreases |payloads|
  {
    if payloads != [] {
      GatedStep(service, c.session, payloads[0]);
      var (next, reply) := HandlePayload(service, c.session, payloads[0]);
      GatedAll(service, c.(session := next, sent := c.sent + [Wire(service, reply)]), payloads[1..], writes);
    }
  }

  lemma GatedRead<S>(service: Service<S>, c: Standing<S>, chunk: Bytes, writes: Option<nat>)
    requires Gated(c.session)
    ensures Gated(AnswerRead(service, c, chunk, writes).session)
  {
    GatedAll(service, c, Drain(c.buffer + chunk).payloads, writes);
  }
}
