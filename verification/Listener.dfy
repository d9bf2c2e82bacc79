/** The inbound listener of the IPC component as a state machine: starting
    (with its "already listening" guard and socket set-up failures), the
    periodic connection check that drains, frames and decodes one request and
    replies to it, and stopping.

    Sockets, the ticker and the text and JSON readers are not modelled: their
    answers are inputs. A callback is known by an identity, and invoking it is
    an output `Call`. Cancelling from the notification and closing the window
    the notification belongs to both stop the listener, so they are one
    `Cancel` event. The destructor is not modelled. */
module Listener {
  import opened Wrappers
  import opened Json
  import opened Messages
  import opened Framing
  import Text

  type CallbackId = nat

  /** The arguments a response callback is invoked with. */
  datatype Report = Report(success: bool, response: DressedAvatarResponse, message: string)

  function Failure(message: string): Report {
    Report(false, DefaultResponse, message)
  }

  datatype Call = Call(callback: CallbackId, report: Report)

  /** `bIsListening`, whether `ListenerSocket` is non-null, the stored
      `CurrentResponseCallback`, and whether the connection check is
      registered with the ticker. */
  datatype State = State(listening: bool, socketOpen: bool, callback: Option<CallbackId>, ticking: bool)

  /** A freshly constructed component. */
  const Initial := State(false, false, None, false)

  /** The socket exists exactly while listening, and a listening component has
      a callback and is polled. */
  predicate Valid(s: State) {
    && s.socketOpen == s.listening
    && (s.listening ==> s.callback.Some? && s.ticking)
  }

  const AlreadyListening := "Already listening."
  const NoSocketSubsystem := "Failed to get Socket Subsystem."
  const SocketCreateFailed := "Failed to create listener socket."
  const ListenFailed := "Failed to listen on socket."
  const AcceptFailed := "Failed to accept connection."
  const NoData := "Received no data."
  const EmptyBody := "Received empty body."
  const DeserializeFailed := "Failed to deserialize JSON body string."
  const StructureFailed := "Failed to parse response JSON structure."

  function BindFailed(port: int): string {
    "Failed to bind to port " + Text.IntToString(port) + "."
  }

  // ---------------------------------------------------------------------------
  // Start and stop

  /** What the socket layer answers while the listener is set up: whether the
      socket subsystem exists, and whether creating, binding to the loopback
      address and listening with a backlog of one succeed. */
  datatype SocketSetup = SocketSetup(subsystem: bool, created: bool, bound: bool, listened: bool)

  predicate SetupSucceeds(setup: SocketSetup) {
    setup.subsystem && setup.created && setup.bound && setup.listened
  }

  datatype Transition = Transition(next: State, calls: seq<Call>)

  /** `StartListeningForResponse` on the bridge port `port`. While listening it
      only tells the new callback so; otherwise it stores the callback first,
      so a set-up failure reports to it and leaves it stored. */
  function StartListeningForResponse(s: State, callback: CallbackId, port: int, setup: SocketSetup): (t: Transition)
    ensures s.listening ==> t.next == s && t.calls == [Call(callback, Failure(AlreadyListening))]
    ensures !s.listening ==> (t.next.listening <==> SetupSucceeds(setup)) && t.next.callback == Some(callback)
    ensures !s.listening && SetupSucceeds(setup) ==> t.next.socketOpen && t.next.ticking && t.calls == []
    ensures !s.listening && !SetupSucceeds(setup) ==>
      |t.calls| == 1 && t.calls[0].callback == callback && t.calls[0].report.response == DefaultResponse && !t.calls[0].report.success
    ensures !s.listening && setup.subsystem && setup.created && !setup.bound ==>
      !t.next.socketOpen && t.calls[0].report.message == "Failed to bind to port " + Text.IntToString(port) + "."
    ensures !s.listening && setup.subsystem && setup.created && setup.bound && !setup.listened ==>
      !t.next.socketOpen && t.calls[0].report.message == "Failed to listen on socket."
    ensures Valid(s) ==> Valid(t.next)
  {
    if s.listening then Transition(s, [Call(callback, Failure(AlreadyListening))])
    else
      var armed := s.(callback := Some(callback));
      if !setup.subsystem then Transition(armed, [Call(callback, Failure(NoSocketSubsystem))])
      else if !setup.created then Transition(armed.(socketOpen := false), [Call(callback, Failure(SocketCreateFailed))])
      else if !setup.bound then Transition(armed.(socketOpen := false), [Call(callback, Failure(BindFailed(port)))])
      else if !setup.listened then Transition(armed.(socketOpen := false), [Call(callback, Failure(ListenFailed))])
      else Transition(armed.(listening := true, socketOpen := true, ticking := true), [])
  }

  /** `StopListening`: destroys the socket and forgets the callback without
      invoking it. The ticker is left registered; the next check unregisters
      it. */
  function StopListening(s: State): (r: State)
    ensures !r.listening && !r.socketOpen && r.callback.None?
    ensures r.ticking == s.ticking
    ensures Valid(r)
  {
    State(false, false, None, s.ticking)
  }

  /** Stopping twice is stopping once. */
  lemma StopIsIdempotent(s: State)
    ensures StopListening(StopListening(s)) == StopListening(s)
  {
  }

  // ---------------------------------------------------------------------------
  // Decoding a received request

  /** The two readers the listener hands text to: bytes to text, and text to
      a JSON value (None when the text does not parse). */
  datatype Codec = Codec(decode: seq<byte> -> string, parse: string -> Option<JValue>)

  /** What the callback is told about an extracted body. */
  function BodyReport(body: string, parse: string -> Option<JValue>): (r: Report)
    ensures r.success <==>
      body != "" && parse(body).Some? && parse(body).value.JObject? && FromJson(Some(parse(body).value.members)).Some?
    ensures r.success ==> r.response == FromJson(Some(parse(body).value.members)).value && r.message == ""
    ensures !r.success ==> r.response == DefaultResponse
    ensures body == "" ==> r.message == "Received empty body."
    ensures body != "" && !(parse(body).Some? && parse(body).value.JObject?) ==>
      r.message == "Failed to deserialize JSON body string."
    ensures body != "" && parse(body).Some? && parse(body).value.JObject? && FromJson(Some(parse(body).value.members)).None? ==>
      r.message == "Failed to parse response JSON structure."
  {
    if body == "" then Failure(EmptyBody)
    else
      match parse(body)
      case Some(JObject(members)) =>
        var response := FromJson(Some(members));
        if response.Some? then Report(true, response.value, "") else Failure(StructureFailed)
      case _ => Failure(DeserializeFailed)
  }

  /** What the callback is told after a drain, or None when it is not invoked
      at all (after a receive error). */
  function Resolve(drained: Drained, codec: Codec): (r: Option<Report>)
    ensures r.None? <==> drained.total < 0
    ensures drained.total == 0 ==> r == Some(Failure("Received no data."))
    ensures drained.total > 0 ==> r == Some(BodyReport(ExtractBody(codec.decode(drained.buffer)), codec.parse))
  {
    if drained.total > 0 then Some(BodyReport(ExtractBody(codec.decode(drained.buffer)), codec.parse))
    else if drained.total == 0 then Some(Failure(NoData))
    else None
  }

  // ---------------------------------------------------------------------------
  // The periodic connection check

  /** What the sockets answer during one check: whether a connection is
      pending, whether accepting it succeeds, and the turns of the drain. */
  datatype TickInput = TickInput(pendingConnection: bool, accepted: bool, script: seq<Poll>)

  predicate WellFormedInput(input: TickInput) {
    WellFormedScript(input.script)
  }

  datatype CheckResult = CheckResult(next: State, calls: seq<Call>, reply: Option<string>, keepTicking: bool)

  /** Invokes the stored callback, if there is one. */
  function Notify(s: State, report: Report): (calls: seq<Call>)
    ensures |calls| <= 1
    ensures s.callback.Some? ==> calls == [Call(s.callback.value, report)]
    ensures s.callback.None? ==> calls == []
  {
    if s.callback.Some? then [Call(s.callback.value, report)] else []
  }

  /** `CheckForConnections`. Not listening, or no socket: unregister. No
      pending connection: keep polling. A failed accept reports to the callback
      and keeps polling, callback still stored. An accepted connection is
      drained and decoded, the callback is told the outcome (unless the
      receive failed), the fixed reply is sent, and the listener stops. */
  function CheckForConnections(s: State, input: TickInput, codec: Codec): (r: CheckResult)
    requires WellFormedInput(input)
    ensures !s.listening || !s.socketOpen ==> !r.keepTicking && r.next == s && r.calls == [] && r.reply.None?
    ensures s.listening && s.socketOpen ==> r.keepTicking
    ensures s.listening && s.socketOpen && input.pendingConnection && input.accepted ==>
      r.reply == Some(Reply) && r.next == StopListening(s)
    ensures s.listening && s.socketOpen && input.pendingConnection && !input.accepted ==>
      r.next == s && r.reply.None? && r.calls == Notify(s, Failure("Failed to accept connection."))
    ensures s.listening && s.socketOpen && !input.pendingConnection ==> r.next == s && r.calls == [] && r.reply.None?
    ensures |r.calls| <= 1
    ensures forall i :: 0 <= i < |r.calls| ==> Some(r.calls[i].callback) == s.callback
  {
    if !s.listening || !s.socketOpen then CheckResult(s, [], None, false)
    else if !input.pendingConnection then CheckResult(s, [], None, true)
    else if !input.accepted then CheckResult(s, Notify(s, Failure(AcceptFailed)), None, true)
    else
      var outcome := Resolve(Drain(input.script, 0, []), codec);
      var calls := if outcome.Some? then Notify(s, outcome.value) else [];
      CheckResult(StopListening(s), calls, Some(Reply), true)
  }

  /** An accepted connection whose receive failed is still answered, but
      the callback hears nothing. */
  lemma RecvErrorIsSilent(s: State, input: TickInput, codec: Codec)
    requires WellFormedInput(input)
    requires s.listening && s.socketOpen && input.pendingConnection && input.accepted
    requires Drain(input.script, 0, []).total == -1
    ensures CheckForConnections(s, input, codec).calls == []
    ensures CheckForConnections(s, input, codec).reply == Some(Reply)
  {
  }

  /** Otherwise the stored callback is told exactly the resolved outcome. */
  lemma AcceptedConnectionReports(s: State, input: TickInput, codec: Codec)
    requires WellFormedInput(input) && Valid(s)
    requires s.listening && input.pendingConnection && input.accepted
    requires Drain(input.script, 0, []).total >= 0
    ensures CheckForConnections(s, input, codec).calls ==
      [Call(s.callback.value, Resolve(Drain(input.script, 0, []), codec).value)]
  {
  }

  // ---------------------------------------------------------------------------
  // Runs of events

  datatype Event =
    | Start(callback: CallbackId, port: int, setup: SocketSetup)
    | Cancel
    | Tick(input: TickInput)

  predicate WellFormedEvent(e: Event) {
    e.Tick? ==> WellFormedInput(e.input)
  }

  datatype Step = Step(next: State, calls: seq<Call>, replies: seq<string>)

  /** One event. A tick reaches the check only while it is registered, and
      the check's answer decides whether it stays registered. */
  function Apply(s: State, e: Event, codec: Codec): (r: Step)
    requires WellFormedEvent(e)
    ensures Valid(s) ==> Valid(r.next)
    ensures e.Cancel? ==> r.calls == [] && r.replies == []
    ensures |r.replies| <= 1
  {
    match e
    case Start(callback, port, setup) =>
      var t := StartListeningForResponse(s, callback, port, setup);
      Step(t.next, t.calls, [])
    case Cancel => Step(StopListening(s), [], [])
    case Tick(input) =>
      if !s.ticking then Step(s, [], [])
      else
        var r := CheckForConnections(s, input, codec);
        Step(r.next.(ticking := r.keepTicking), r.calls, if r.reply.Some? then [r.reply.value] else [])
  }

  predicate WellFormedEvents(events: seq<Event>) {
    forall i :: 0 <= i < |events| ==> WellFormedEvent(events[i])
  }

  /** A run of events: the final state, and every call and reply in order. */
  function Run(s: State, events: seq<Event>, codec: Codec): (r: Step)
    requires WellFormedEvents(events)
    ensures Valid(s) ==> Valid(r.next)
    decreases |events|
  {
    if |events| == 0 then Step(s, [], [])
    else
      var first := Apply(s, events[0], codec);
      var rest := Run(first.next, events[1..], codec);
      Step(rest.next, first.calls + rest.calls, first.replies + rest.replies)
  }

  predicate NoStarts(events: seq<Event>) {
    forall i :: 0 <= i < |events| ==> !events[i].Start?
  }

  /** Once not listening, nothing is reported or replied until the next
      start: cancelling again, or any number of ticks, are silent. */
  lemma {:induction false} QuietUntilStarted(s: State, events: seq<Event>, codec: Codec)
    requires Valid(s) && !s.listening
    requires WellFormedEvents(events) && NoStarts(events)
    ensures Run(s, events, codec).calls == [] && Run(s, events, codec).replies == []
    ensures !Run(s, events, codec).next.listening
    decreases |events|
  {
    if |events| > 0 {
      var first := Apply(s, events[0], codec);
      assert !first.next.listening && first.calls == [] && first.replies == [];
      QuietUntilStarted(first.next, events[1..], codec);
    }
  }

  /** Within one session (no start in between), every report goes to the
      session's callback; all but the last are accept failures, and at most
      one connection is answered. */
  lemma {:induction false} SessionReports(s: State, events: seq<Event>, codec: Codec)
    requires Valid(s) && s.listening
    requires WellFormedEvents(events) && NoStarts(events)
    ensures var r := Run(s, events, codec);
      && (forall i :: 0 <= i < |r.calls| ==> r.calls[i].callback == s.callback.value)
      && (forall i :: 0 <= i < |r.calls| - 1 ==> r.calls[i].report == Failure("Failed to accept connection."))
      && |r.replies| <= 1
    decreases |events|
  {
    if |events| > 0 {
      var first := Apply(s, events[0], codec);
      var rest := Run(first.next, events[1..], codec);
      if first.next.listening {
        assert first.next == s;
        SessionReports(first.next, events[1..], codec);
      } else {
        QuietUntilStarted(first.next, events[1..], codec);
        assert rest.calls == [] && rest.replies == [];
        assert first.calls + rest.calls == first.calls;
      }
    }
  }

  /** A failed accept leaves the listener as it was, so every further failed
      accept reports again. */
  lemma {:induction false} AcceptFailuresRepeat(s: State, n: nat, codec: Codec)
    requires Valid(s) && s.listening
    ensures var r := Run(s, seq(n, _ => Tick(TickInput(true, false, []))), codec);
      r.next == s && r.calls == seq(n, _ => Call(s.callback.value, Failure("Failed to accept connection.")))
    decreases n
  {
    var events := seq(n, _ => Tick(TickInput(true, false, [])));
    if n > 0 {
      AcceptFailuresRepeat(s, n - 1, codec);
      assert events[1..] == seq(n - 1, _ => Tick(TickInput(true, false, [])));
      var expected := seq(n, _ => Call(s.callback.value, Failure(AcceptFailed)));
      assert expected == [Call(s.callback.value, Failure(AcceptFailed))] + expected[1..];
    }
  }

  /** After a session ends, by cancelling or by answering a connection, a
      start whose socket set-up succeeds listens again. */
  lemma RestartAfterSession(s: State, e: Event, callback: CallbackId, port: int, setup: SocketSetup, codec: Codec)
    requires Valid(s) && s.listening && WellFormedEvent(e)
    requires e.Cancel? || (e.Tick? && e.input.pendingConnection && e.input.accepted)
    requires SetupSucceeds(setup)
    ensures var ended := Apply(s, e, codec).next;
      !ended.listening && StartListeningForResponse(ended, callback, port, setup).next.listening
  {
  }

  // ---------------------------------------------------------------------------
  // The exchange end to end

  /** One short read drains exactly the bytes read. */
  lemma DrainOneShortRead(n: int, chunk: seq<byte>)
    requires 0 < n < BufferSize && |chunk| == BufferSize
    ensures Drain([PendingData(RecvOk(n, chunk))], 0, []) == Drained(n, chunk[..n])
  {
    var script := [PendingData(RecvOk(n, chunk))];
    assert WellFormedScript(script);
    assert script[1..] == [];
  }

  /** The two fields a MetaTailor response needs, and nothing else. */
  function MinimalResponse(modelPath: string, dataType: string): seq<Member> {
    [Member("ModelPath", JString(modelPath)), Member("DataType", JString(dataType))]
  }

  lemma MinimalResponseDecodes(modelPath: string, dataType: string)
    ensures FromJson(Some(MinimalResponse(modelPath, dataType))) == Some(DressedAvatarResponse(modelPath, "", dataType))
  {
    var members := MinimalResponse(modelPath, dataType);
    assert KeyMatches(members[0], "ModelPath") && !KeyMatches(members[1], "ModelPath");
    assert KeyMatches(members[1], "DataType");
    assert !KeyMatches(members[0], "MetaTailorVersion") && !KeyMatches(members[1], "MetaTailorVersion");
  }

  /** The connection check of a listening component that receives such a
      request. */
  lemma CheckReceivesRequest(s: State, codec: Codec, n: int, chunk: seq<byte>,
                             lines: seq<string>, body: string, modelPath: string, dataType: string)
    requires Valid(s) && s.listening
    requires 0 < n < BufferSize && |chunk| == BufferSize
    requires |lines| > 0 && forall i :: 0 <= i < |lines| ==> IsHeaderLine(lines[i])
    requires codec.decode(chunk[..n]) == HttpMessage(lines, body)
    requires codec.parse(body) == Some(JObject(MinimalResponse(modelPath, dataType)))
    requires body != ""
    ensures var r := CheckForConnections(s, TickInput(true, true, [PendingData(RecvOk(n, chunk))]), codec);
      && r.calls == [Call(s.callback.value, Report(true, DressedAvatarResponse(modelPath, "", dataType), ""))]
      && r.reply == Some(Reply) && r.next == StopListening(s) && r.keepTicking
  {
    var script := [PendingData(RecvOk(n, chunk))];
    assert WellFormedScript(script);
    DrainOneShortRead(n, chunk);
    ExtractBodyOfHttpMessage(lines, body);
    MinimalResponseDecodes(modelPath, dataType);
  }

  /** A request whose text, as the reader decodes the received bytes, is an
      HTTP message carrying a JSON object with a model path and a type: the
      listener started on a free port reports it once as a success, answers
      with the fixed reply, and stops. */
  lemma EndToEnd(callback: CallbackId, port: int, codec: Codec, n: int, chunk: seq<byte>,
                 lines: seq<string>, body: string, modelPath: string, dataType: string)
    requires 0 < n < BufferSize && |chunk| == BufferSize
    requires |lines| > 0 && forall i :: 0 <= i < |lines| ==> IsHeaderLine(lines[i])
    requires codec.decode(chunk[..n]) == HttpMessage(lines, body)
    requires codec.parse(body) == Some(JObject(MinimalResponse(modelPath, dataType)))
    requires body != ""
    ensures var r := Run(Initial, [Start(callback, port, SocketSetup(true, true, true, true)),
                                   Tick(TickInput(true, true, [PendingData(RecvOk(n, chunk))]))], codec);
      && r.calls == [Call(callback, Report(true, DressedAvatarResponse(modelPath, "", dataType), ""))]
      && r.replies == [Reply]
      && !r.next.listening && !r.next.socketOpen && r.next.callback.None?
  {
    var script := [PendingData(RecvOk(n, chunk))];
    assert WellFormedScript(script);
    var events := [Start(callback, port, SocketSetup(true, true, true, true)), Tick(TickInput(true, true, script))];
    var started := Apply(Initial, events[0], codec);
    assert started.next == State(true, true, Some(callback), true) && started.calls == [] && started.replies == [];
    CheckReceivesRequest(started.next, codec, n, chunk, lines, body, modelPath, dataType);
    var ticked := Apply(started.next, events[1], codec);
    assert events[1..] == [events[1]] && events[1..][1..] == [];
    assert Run(ticked.next, [], codec) == Step(ticked.next, [], []);
    assert Run(started.next, events[1..], codec) == Step(ticked.next, ticked.calls, ticked.replies);
  }
}
