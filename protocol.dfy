/** One iteration of the loop in `TCPServer.handle_client`
    (tcp_latency_measurement.py) as a pure step over the statistics record,
    and a connection's whole loop as the fold of that step. Sockets, JSON
    and clocks are inputs: each arrival carries what one `recv(1024)`
    decoded to and the clock readings the iteration would take. */
module Protocol {
  import opened LatencyStats

  /** A field of the decoded request object: absent, present with a value
      of the expected JSON kind, or present with some other JSON value. */
  datatype Field<T> = Missing | Present(value: T) | WrongType

  /** What one read yields. */
  datatype Payload =
    | Disconnected   // an empty read: the peer closed the connection
    | NotUtf8        // `data.decode('utf-8')` raises UnicodeDecodeError
    | NotJson        // `json.loads` raises JSONDecodeError
    | NotObject      // valid JSON that is not an object: `request.get` raises
    | Request(requestType: Field<string>, timestamp: Field<real>)

  /** One read together with the clock readings of that iteration:
      `clockAtParse` is the `time.time()` evaluated as the default timestamp,
      `clockAtPing` the receive time `current_time`, `serverTime` the opaque
      `datetime.now().isoformat()` string. */
  datatype Arrival = Arrival(payload: Payload, clockAtParse: real, clockAtPing: real, serverTime: string)

  datatype Response =
    | Pong(timestamp: real, latency: real, serverTime: string)
    | StatsResponse(stats: StatsReport)

  /** What the handler does after one read: send a response, send nothing
      and read again, or leave the loop and close the connection. */
  datatype Action = Respond(response: Response) | Skip | Close

  datatype StepResult = StepResult(action: Action, stats: Stats)

  /** `request.get('type', 'ping') == 'ping'`: a missing type is a ping. */
  predicate IsPing(t: Field<string>)
  {
    t.Missing? || t == Present("ping")
  }

  predicate IsStatsQuery(t: Field<string>)
  {
    t == Present("stats")
  }

  /** The latency of a ping: receive time minus the request's timestamp (or
      the clock read in its place), in milliseconds. */
  function PingLatency(a: Arrival): real
    requires a.payload.Request? && !a.payload.timestamp.WrongType?
  {
    var sent := if a.payload.timestamp.Present? then a.payload.timestamp.value else a.clockAtParse;
    (a.clockAtPing - sent) * 1000.0
  }

  /** One iteration of the handler loop. */
  function Step(a: Arrival, st: Stats): (r: StepResult)
    // The record changes only by recording the latency a pong reports.
    ensures r.action.Respond? && r.action.response.Pong?
      ==> r.stats == Record(st, r.action.response.latency)
    ensures !(r.action.Respond? && r.action.response.Pong?) ==> r.stats == st
    // A ping, including a request without a type, gets a pong stamped with
    // the receive time.
    ensures a.payload.Request? && IsPing(a.payload.requestType) && !a.payload.timestamp.WrongType?
      ==> r.action == Respond(Pong(a.clockAtPing, PingLatency(a), a.serverTime))
    // A stats query gets the summary of the record as it was.
    ensures a.payload.Request? && IsStatsQuery(a.payload.requestType)
      ==> r.action == Respond(StatsResponse(Report(st)))
    // Undecodable JSON and unknown types are dropped; the connection stays open.
    ensures a.payload.NotJson? ==> r.action == Skip
    ensures a.payload.Request? && !IsPing(a.payload.requestType) && !IsStatsQuery(a.payload.requestType)
      ==> r.action == Skip
    // An empty read and the errors the inner handler does not catch close it.
    ensures r.action == Close <==>
              || a.payload.Disconnected? || a.payload.NotUtf8? || a.payload.NotObject?
              || (a.payload.Request? && IsPing(a.payload.requestType) && a.payload.timestamp.WrongType?)
    ensures Consistent(st) ==> Consistent(r.stats)
  {
    match a.payload
    case Disconnected => StepResult(Close, st)
    case NotUtf8 => StepResult(Close, st)
    case NotJson => StepResult(Skip, st)
    case NotObject => StepResult(Close, st)
    case Request(t, ts) =>
      if IsPing(t) then
        if ts.WrongType? then
          // subtracting a non-number raises TypeError, caught by the outer handler
          StepResult(Close, st)
        else
          var latency := PingLatency(a);
          assert Consistent(st) ==> Consistent(Record(st, latency)) by {
            if Consistent(st) {
              RecordKeepsConsistent(st, latency);
            }
          }
          StepResult(Respond(Pong(a.clockAtPing, latency, a.serverTime)), Record(st, latency))
      else if IsStatsQuery(t) then
        StepResult(Respond(StatsResponse(Report(st))), st)
      else
        StepResult(Skip, st)
  }

  datatype RunResult = RunResult(replies: seq<Response>, stats: Stats)

  /** The handler loop over the reads of one connection, until one of them
      closes it or they run out. */
  function Run(arrivals: seq<Arrival>, st: Stats): RunResult
    decreases |arrivals|
  {
    if arrivals == [] then RunResult([], st)
    else
      var step := Step(arrivals[0], st);
      match step.action
      case Close => RunResult([], step.stats)
      case Skip => Run(arrivals[1..], step.stats)
      case Respond(resp) =>
        var rest := Run(arrivals[1..], step.stats);
        RunResult([resp] + rest.replies, rest.stats)
  }

  /** The latencies carried by the pongs among `replies`, in order. */
  function PongLatencies(replies: seq<Response>): (r: seq<real>)
    ensures |r| <= |replies|
  {
    if replies == [] then []
    else if replies[0].Pong? then [replies[0].latency] + PongLatencies(replies[1..])
    else PongLatencies(replies[1..])
  }

  /** Over a connection's lifetime the server records exactly the latencies
      its pongs report, in the order it sent them, and nothing else. */
  lemma {:induction false} RunRecordsPongLatencies(arrivals: seq<Arrival>, st: Stats)
    ensures var r := Run(arrivals, st);
      r.stats == RecordAll(st, PongLatencies(r.replies))
    decreases |arrivals|
  {
    if arrivals != [] {
      var step := Step(arrivals[0], st);
      match step.action
      case Close =>
      case Skip =>
        RunRecordsPongLatencies(arrivals[1..], step.stats);
      case Respond(resp) =>
        var rest := Run(arrivals[1..], step.stats);
        RunRecordsPongLatencies(arrivals[1..], step.stats);
        assert ([resp] + rest.replies)[1..] == rest.replies;
    }
  }

  /** Hence the counter grows by the number of pongs sent, the samples by
      their latencies, and a consistent record stays consistent. */
  lemma RunCountsPongs(arrivals: seq<Arrival>, st: Stats)
    ensures var r := Run(arrivals, st);
      && r.stats.totalRequests == st.totalRequests + |PongLatencies(r.replies)|
      && r.stats.latencies == st.latencies + PongLatencies(r.replies)
      && (Consistent(st) ==> Consistent(r.stats))
  {
    var r := Run(arrivals, st);
    RunRecordsPongLatencies(arrivals, st);
    RecordAllAppends(st, PongLatencies(r.replies));
    if Consistent(st) {
      RecordAllKeepsConsistent(st, PongLatencies(r.replies));
    }
  }

  /** A payload that is not valid JSON is dropped and the same connection
      goes on to serve the next request normally. */
  lemma MalformedPayloadKeepsConnection(a: Arrival, rest: seq<Arrival>, st: Stats)
    requires a.payload.NotJson?
    ensures Run([a] + rest, st) == Run(rest, st)
  {
    assert ([a] + rest)[1..] == rest;
  }
}
