/** The request and event handlers of the notification server, each one a step
    from the registry before to the registry after, with the Socket.IO
    emissions and the HTTP response it produces given as values. */
module NotificationServer {
  import opened Optional
  import opened PyDict
  import opened Query
  import opened EventName
  import opened SessionRegistry

  /** One `sio.emit(event, data, to)`; `to == None` sends to every connected client. */
  datatype Emission = Emission(event: string, data: Dict, to: Option<Sid>)

  datatype HttpResponse = HttpResponse(status: nat, text: string)

  const BadRequest: HttpResponse := HttpResponse(400, "400 Bad Request: code or msg is missing")
  const NotFound: HttpResponse := HttpResponse(404, "404: Provided code not found in list of clients")
  const Delivered: HttpResponse := HttpResponse(200, "OK")

  const Welcome: Emission := Emission("WELCOME", [("message", "Please register your code")], None)

  /** What the notify endpoint answers, and what it emits before answering. */
  datatype NotifyOutcome = NotifyOutcome(response: HttpResponse, emitted: seq<Emission>)

  /** The scan over `registered_codes` exactly as the handler writes it: the loop
      variable `sid` outlives the loop and is the address the emit uses, while
      `found_sid` is what the handler tests. */
  method ScanForCode(reg: Registry, code: Code) returns (foundSid: Option<Sid>, loopSid: Option<Sid>)
    ensures foundSid == Lookup(reg, code)
    ensures foundSid.Some? ==> loopSid == foundSid
  {
    foundSid := None;
    loopSid := None;
    var i := 0;
    while i < |reg|
      invariant 0 <= i <= |reg|
      invariant foundSid.None?
      invariant forall j :: 0 <= j < i ==> reg[j].1 != code
    {
      loopSid := Some(reg[i].0);
      if reg[i].1 == code {
        foundSid := Some(reg[i].0);
        break;
      }
      i := i + 1;
    }
  }

  /** The notify handler. */
  function Notify(reg: Registry, q: Params): (r: NotifyOutcome)
    ensures r.response in {BadRequest, NotFound, Delivered}
    ensures r.response == BadRequest <==> QueryGet(q, "code").None? || QueryGet(q, "event").None?
    ensures r.response == Delivered <==> |r.emitted| == 1
    ensures r.response != Delivered ==> r.emitted == []
    // a delivery goes to one registered sid holding the requested code
    ensures r.response == Delivered ==>
      r.emitted[0].to.Some? && r.emitted[0].to.value != ""
      && (r.emitted[0].to.value, QueryGet(q, "code").value) in reg
  {
    var code := QueryGet(q, "code");
    var event := QueryGet(q, "event");
    if code.None? || event.None? then NotifyOutcome(BadRequest, [])
    else
      var name := Normalize(event.value);
      var found := Lookup(reg, code.value);
      var data := BuildPayload(q);
      if Truthy(found) then NotifyOutcome(Delivered, [Emission(name, data, found)])
      else NotifyOutcome(NotFound, [])
  }

  /** Without a `code` or an `event` parameter the answer is 400 and nothing is sent. */
  lemma NotifyMissingParameter(reg: Registry, q: Params)
    requires (forall i :: 0 <= i < |q| ==> q[i].0 != "code")
          || (forall i :: 0 <= i < |q| ==> q[i].0 != "event")
    ensures Notify(reg, q) == NotifyOutcome(BadRequest, [])
  {
  }

  /** A code no session registered is answered with 404, and nothing is sent. */
  lemma NotifyUnknownCode(reg: Registry, q: Params)
    requires QueryGet(q, "code").Some? && QueryGet(q, "event").Some?
    requires forall i :: 0 <= i < |reg| ==> reg[i].1 != QueryGet(q, "code").value
    ensures Notify(reg, q) == NotifyOutcome(NotFound, [])
  {
  }

  /** `code=` passes the presence check but can never match, since only truthy
      codes are ever registered. */
  lemma NotifyEmptyCode(reg: Registry, q: Params)
    requires Inv(reg)
    requires QueryGet(q, "code") == Some("") && QueryGet(q, "event").Some?
    ensures Notify(reg, q) == NotifyOutcome(NotFound, [])
  {
  }

  /** A registered code: exactly one emission, to the first session in registry
      order holding that code, under the normalised event name, carrying every
      query parameter; the answer is "OK". */
  lemma NotifyDelivers(reg: Registry, q: Params, i: nat)
    requires forall j :: 0 <= j < |reg| ==> reg[j].0 != ""
    requires QueryGet(q, "code").Some? && QueryGet(q, "event").Some?
    requires i < |reg| && reg[i].1 == QueryGet(q, "code").value
    requires forall j :: 0 <= j < i ==> reg[j].1 != QueryGet(q, "code").value
    ensures Notify(reg, q).response == Delivered
    ensures |Notify(reg, q).emitted| == 1
    ensures Notify(reg, q).emitted[0].to == Some(reg[i].0)
    ensures Notify(reg, q).emitted[0].event == Normalize(QueryGet(q, "event").value)
    ensures forall name :: Get(Notify(reg, q).emitted[0].data, name) == LastValue(q, name)
  {
  }

  /** With no repeated parameter, the payload is the query itself, `code` and the
      raw, un-normalised `event` value included. */
  lemma NotifyPayloadIsQuery(reg: Registry, q: Params)
    requires UniqueKeys(q)
    requires Notify(reg, q).response == Delivered
    ensures Notify(reg, q).emitted[0].data == q
    ensures Get(Notify(reg, q).emitted[0].data, "code") == QueryGet(q, "code")
    ensures Get(Notify(reg, q).emitted[0].data, "event") == QueryGet(q, "event")
  {
    PayloadOfDistinctQuery(q);
    FirstIsLastWhenDistinct(q, "code");
    FirstIsLastWhenDistinct(q, "event");
  }

  /** Everything the transport can hand the server. */
  datatype Input =
    | ClientConnect(sid: Sid)
    | ClientDisconnect(sid: Sid)
    | ClientRegister(sid: Sid, data: Dict)
    | ClientEvent(name: string, sid: Sid, data: Dict)
    | NotifyRequest(query: Params)

  datatype StepResult = StepResult(reg: Registry, emitted: seq<Emission>, response: Option<HttpResponse>)

  /** Dispatch one input to its handler. */
  function Step(reg: Registry, input: Input): (r: StepResult)
    ensures Inv(reg) ==> Inv(r.reg)
    // only REGISTER and disconnect touch the registry
    ensures !input.ClientRegister? && !input.ClientDisconnect? ==> r.reg == reg
    // only HTTP requests get a response
    ensures input.NotifyRequest? <==> r.response.Some?
    ensures input.ClientConnect? ==> r.emitted == [Welcome] && r.emitted[0].to.None?
    ensures input.ClientRegister? || input.ClientDisconnect? || input.ClientEvent? ==> r.emitted == []
  {
    match input
    case ClientConnect(_) => StepResult(reg, [Welcome], None)
    case ClientDisconnect(sid) => StepResult(Disconnect(reg, sid), [], None)
    case ClientRegister(sid, data) => StepResult(Register(reg, sid, data), [], None)
    case ClientEvent(_, _, _) => StepResult(reg, [], None)
    case NotifyRequest(q) =>
      var out := Notify(reg, q);
      StepResult(reg, out.emitted, Some(out.response))
  }

  /** The registry after a sequence of inputs, starting from `reg`. */
  function Run(reg: Registry, inputs: seq<Input>): Registry
    decreases |inputs|
  {
    if |inputs| == 0 then reg else Run(Step(reg, inputs[0]).reg, inputs[1..])
  }

  /** Every registry the server can reach from its empty start satisfies the invariant. */
  lemma {:induction false} RunKeepsInv(reg: Registry, inputs: seq<Input>)
    requires Inv(reg)
    ensures Inv(Run(reg, inputs))
    decreases |inputs|
  {
    if |inputs| > 0 {
      RunKeepsInv(Step(reg, inputs[0]).reg, inputs[1..]);
    }
  }

  const PingQuery: Params := [("code", "abc123"), ("event", "ping"), ("msg", "hi")]
  const RegisteredA: Registry := [("A", "abc123")]

  lemma PingRegister()
    ensures Step(Empty, ClientRegister("A", [("code", "abc123")])).reg == RegisteredA
  {
  }

  lemma PingParameters()
    ensures UniqueKeys(PingQuery)
    ensures QueryGet(PingQuery, "code") == Some("abc123")
    ensures QueryGet(PingQuery, "event") == Some("ping")
  {
  }

  lemma PingName()
    ensures Normalize("ping") == "PING"
  {
    NormalizeCharwise("ping", "PING");
  }

  lemma PingDelivered()
    ensures Step(RegisteredA, NotifyRequest(PingQuery))
         == StepResult(RegisteredA, [Emission("PING", PingQuery, Some("A"))], Some(Delivered))
  {
    PingParameters();
    NotifyDelivers(RegisteredA, PingQuery, 0);
    NotifyPayloadIsQuery(RegisteredA, PingQuery);
    PingName();
    var out := Notify(RegisteredA, PingQuery);
    assert out.emitted[0] == Emission("PING", PingQuery, Some("A"));
  }

  lemma PingDisconnect()
    ensures Step(RegisteredA, ClientDisconnect("A")).reg == Empty
  {
  }

  lemma PingNotFound()
    ensures Step(Empty, NotifyRequest(PingQuery)) == StepResult(Empty, [], Some(NotFound))
  {
  }

  /** A session connects and gets the broadcast WELCOME, registers "abc123", is
      notified of "ping" with the whole query as payload, disconnects, and the
      same request then finds nobody. */
  lemma PingScenario()
    ensures var r0 := Step(Empty, ClientConnect("A"));
      var r1 := Step(r0.reg, ClientRegister("A", [("code", "abc123")]));
      var r2 := Step(r1.reg, NotifyRequest(PingQuery));
      var r3 := Step(r2.reg, ClientDisconnect("A"));
      var r4 := Step(r3.reg, NotifyRequest(PingQuery));
      && r0 == StepResult(Empty, [Welcome], None)
      && r2.emitted == [Emission("PING", PingQuery, Some("A"))] && r2.response == Some(Delivered)
      && r4 == StepResult(Empty, [], Some(NotFound))
  {
    PingRegister();
    PingDelivered();
    PingDisconnect();
    PingNotFound();
  }
}
