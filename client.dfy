/** `TCPClient` and the ping loop of `run_client` from
    tcp_latency_measurement.py. The socket is reduced to whether one has
    been created, and each exchange to what it yielded and its two clock
    readings. */
module Client {
  import opened Wrappers
  import opened Statistics

  /** What one `send` + `recv(1024)` + `json.loads` yielded. */
  datatype Reply =
    | Failed                          // send or recv raised (reset, timeout)
    | Empty                           // recv returned no bytes
    | Undecodable                     // not UTF-8, not JSON, or not a JSON object
    | Decoded(latency: Option<real>)  // an object, with or without a `latency` field

  /** One exchange: its outcome and the clock read before sending
      (`start_time`) and after receiving (`end_time`). */
  datatype Exchange = Exchange(reply: Reply, startTime: real, endTime: real)

  /** The sample rule of `send_ping`: no sample without a socket, on a
      failure or on an empty reply; otherwise the server's `latency` field,
      or the locally measured round trip in milliseconds when it is absent. */
  function PingSample(hasSocket: bool, ex: Exchange): (r: Option<real>)
    ensures !hasSocket ==> r == None
    ensures ex.reply.Failed? || ex.reply.Empty? || ex.reply.Undecodable? ==> r == None
    ensures hasSocket && ex.reply.Decoded? && ex.reply.latency.Some? ==> r == ex.reply.latency
    ensures hasSocket && ex.reply == Decoded(None) ==> r == Some((ex.endTime - ex.startTime) * 1000.0)
    ensures r.Some? <==> hasSocket && ex.reply.Decoded?
  {
    if !hasSocket then None
    else
      match ex.reply
      case Decoded(field) =>
        if field.Some? then field else Some((ex.endTime - ex.startTime) * 1000.0)
      case _ => None
  }

  /** The values of the successful samples among `results`, in order. */
  function Samples(results: seq<Option<real>>): (r: seq<real>)
    ensures |r| <= |results|
    ensures forall x :: x in r <==> Some(x) in results
    ensures results == [] ==> r == []
    ensures |results| == 1 ==> r == if results[0].Some? then [results[0].value] else []
  {
    if results == [] then []
    else
      assert results == [results[0]] + results[1..];
      if results[0].Some? then [results[0].value] + Samples(results[1..])
      else Samples(results[1..])
  }

  /** The dictionary returned by `TCPClient.get_stats`; `stdSquared` is the
      square of its `std` entry. */
  datatype ClientReport = ClientReport(count: nat, min: real, max: real, avg: real, median: real, stdSquared: real)

  class TCPClient {
    /** Whether `client_socket` holds a socket. */
    var hasSocket: bool
    var latencies: seq<real>

    constructor ()
      ensures !hasSocket && latencies == []
    {
      hasSocket := false;
      latencies := [];
    }

    /** `connect`: the socket object is stored before the connection is
        attempted, so it is there even when the attempt fails. */
    method Connect(succeeds: bool) returns (ok: bool)
      modifies this
      ensures ok == succeeds && hasSocket && latencies == old(latencies)
    {
      hasSocket := true;
      ok := succeeds;
    }

    /** `send_ping`: returns the sample and appends it to `latencies`. */
    method SendPing(ex: Exchange) returns (latency: Option<real>)
      modifies this
      ensures latency == PingSample(old(hasSocket), ex)
      ensures latencies == old(latencies) + Samples([latency])
      ensures hasSocket == old(hasSocket)
    {
      if !hasSocket {
        return None;
      }
      latency := None;
      match ex.reply {
        case Decoded(field) =>
          var value := if field.Some? then field.value else (ex.endTime - ex.startTime) * 1000.0;
          latencies := latencies + [value];
          latency := Some(value);
        case _ =>
      }
    }

    /** `get_stats`: `None` when there is no sample, otherwise the count,
        `min`, `max`, `statistics.mean` and `statistics.median` of the
        samples; the minimum and maximum are samples bounding all others
        and the mean and median lie between them. */
    function GetStats(): (r: Option<ClientReport>)
      reads this
      ensures r.None? <==> latencies == []
      ensures r.Some? ==>
        && r.value.count == |latencies|
        && r.value.min == SeqMin(latencies) && r.value.max == SeqMax(latencies)
        && r.value.avg == Mean(latencies) && r.value.median == Median(latencies)
        && r.value.min in latencies && r.value.max in latencies
        && (forall i :: 0 <= i < |latencies| ==> r.value.min <= latencies[i] <= r.value.max)
        && r.value.min <= r.value.avg <= r.value.max
        && r.value.min <= r.value.median <= r.value.max
        && r.value.stdSquared >= 0.0
        && (r.value.count == 1 ==> r.value.stdSquared == 0.0)
    {
      if latencies == [] then None
      else
        var s := latencies;
        MeanBounds(s);
        MedianBounds(s);
        Some(ClientReport(|s|, SeqMin(s), SeqMax(s), Mean(s), Median(s),
                          if |s| > 1 then SampleVariance(s) else 0.0))
    }

    /** The loop of `run_client`: one `send_ping` per exchange, in order. */
    method PingAll(exchanges: seq<Exchange>) returns (results: seq<Option<real>>)
      modifies this
      ensures |results| == |exchanges|
      ensures forall i :: 0 <= i < |exchanges| ==> results[i] == PingSample(old(hasSocket), exchanges[i])
      ensures latencies == old(latencies) + Samples(results)
      ensures hasSocket == old(hasSocket)
    {
      results := [];
      var i := 0;
      while i < |exchanges|
        invariant 0 <= i <= |exchanges|
        invariant |results| == i && hasSocket == old(hasSocket)
        invariant forall j :: 0 <= j < i ==> results[j] == PingSample(old(hasSocket), exchanges[j])
        invariant latencies == old(latencies) + Samples(results)
      {
        var latency := SendPing(exchanges[i]);
        SamplesConcat(results, [latency]);
        results := results + [latency];
        i := i + 1;
      }
    }
  }

  /** The samples of consecutive rounds are the samples of each, in order:
      with the one-round cases, every successful round contributes its
      value once, in its place. */
  lemma {:induction false} SamplesConcat(results: seq<Option<real>>, more: seq<Option<real>>)
    ensures Samples(results + more) == Samples(results) + Samples(more)
  {
    if results == [] {
      assert results + more == more;
    } else {
      assert (results + more)[1..] == results[1..] + more;
      SamplesConcat(results[1..], more);
    }
  }

  /** `run_client` without the printing: connect, ping once per exchange,
      report. When the connection fails no ping is sent and nothing is
      reported; otherwise the report counts exactly the successful pings and
      gives their `min`, `max`, `statistics.mean` and `statistics.median`. */
  method RunClient(connectSucceeds: bool, exchanges: seq<Exchange>)
    returns (results: seq<Option<real>>, report: Option<ClientReport>)
    ensures !connectSucceeds ==> results == [] && report == None
    ensures connectSucceeds ==>
      && |results| == |exchanges|
      && (forall i :: 0 <= i < |exchanges| ==> results[i] == PingSample(true, exchanges[i]))
      && (report.None? <==> forall i :: 0 <= i < |exchanges| ==> !exchanges[i].reply.Decoded?)
      && (report.Some? ==> report.value.count == |Samples(results)|)
    ensures connectSucceeds && report.Some? ==>
      var xs := Samples(results);
      && xs != []
      && report.value.min == SeqMin(xs) && report.value.max == SeqMax(xs)
      && report.value.avg == Mean(xs) && report.value.median == Median(xs)
  {
    var client := new TCPClient();
    var ok := client.Connect(connectSucceeds);
    if !ok {
      return [], None;
    }
    results := client.PingAll(exchanges);
    report := client.GetStats();
    assert client.latencies == Samples(results);
    if client.latencies != [] {
      var x :| x in client.latencies;
      assert Some(x) in results;
    }
  }
}
