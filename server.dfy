/** `TCPServer` from tcp_latency_measurement.py: the statistics dictionary
    as fields updated in place, and the request handling that feeds them.
    Binding, accepting and threads are not part of this model. */
module Server {
  import opened Wrappers
  import opened LatencyStats
  import opened Protocol

  class TCPServer {
    var totalRequests: nat
    var totalLatency: real
    /** `None` is the initial `float('inf')`. */
    var minLatency: Option<real>
    var maxLatency: real
    var latencies: seq<real>

    /** The statistics dictionary as a value. */
    function Snapshot(): Stats
      reads this
    {
      Stats(totalRequests, totalLatency, minLatency, maxLatency, latencies)
    }

    constructor ()
      ensures Snapshot() == Initial && Consistent(Snapshot())
    {
      totalRequests := 0;
      totalLatency := 0.0;
      minLatency := None;
      maxLatency := 0.0;
      latencies := [];
    }

    /** `update_stats`: the fields are updated one after another, as
        `update_stats` does; together they perform `Record`. */
    method UpdateStats(latency: real)
      modifies this
      ensures Snapshot() == Record(old(Snapshot()), latency)
      ensures totalRequests == old(totalRequests) + 1
      ensures latencies == old(latencies) + [latency]
      ensures old(Consistent(Snapshot())) ==> Consistent(Snapshot())
    {
      ghost var before := Snapshot();
      totalRequests := totalRequests + 1;
      totalLatency := totalLatency + latency;
      latencies := latencies + [latency];
      if minLatency.None? || latency < minLatency.value {
        minLatency := Some(latency);
      }
      if latency > maxLatency {
        maxLatency := latency;
      }
      if Consistent(before) {
        RecordKeepsConsistent(before, latency);
      }
    }

    /** `get_stats`: a summary of a copy of the record; the record itself is
        only read. */
    function GetStats(): (r: StatsReport)
      reads this
      ensures r == Report(Snapshot())
      ensures r.latencies == latencies && r.totalRequests == totalRequests
      ensures latencies == [] ==> r.avgLatency == 0.0 && r.medianLatency == 0.0 && r.stdSquared == 0.0
      ensures |latencies| == 1 ==> r.stdSquared == 0.0
      ensures Consistent(Snapshot()) && latencies == [] ==> r.minLatency == None && r.maxLatency == 0.0
      ensures Consistent(Snapshot()) && latencies != [] ==>
        && r.avgLatency == totalLatency / (totalRequests as real)
        && r.minLatency.Some?
        && r.minLatency.value <= r.avgLatency <= r.maxLatency
        && r.minLatency.value <= r.medianLatency <= r.maxLatency
    {
      var st := Snapshot();
      assert Consistent(st) && st.latencies != [] ==> ReportBoundsHold(st) by {
        if Consistent(st) && st.latencies != [] {
          ReportWithinRecordedBounds(st);
        }
      }
      Report(st)
    }

    /** The body of the `handle_client` loop for one read: a ping is timed
        and recorded through `UpdateStats`, a stats query answered from
        `GetStats`. */
    method HandleRequest(a: Arrival) returns (action: Action)
      modifies this
      ensures action == Step(a, old(Snapshot())).action
      ensures Snapshot() == Step(a, old(Snapshot())).stats
      ensures old(Consistent(Snapshot())) ==> Consistent(Snapshot())
    {
      match a.payload {
        case Disconnected =>
          action := Close;
        case NotUtf8 =>
          action := Close;
        case NotJson =>
          action := Skip;
        case NotObject =>
          action := Close;
        case Request(t, ts) =>
          if IsPing(t) {
            if ts.WrongType? {
              action := Close;
            } else {
              var latency := PingLatency(a);
              UpdateStats(latency);
              action := Respond(Pong(a.clockAtPing, latency, a.serverTime));
            }
          } else if IsStatsQuery(t) {
            action := Respond(StatsResponse(GetStats()));
          } else {
            action := Skip;
          }
      }
    }

    /** `handle_client`: serve the reads of one connection in order until one
        of them closes it, returning the responses sent. */
    method HandleClient(arrivals: seq<Arrival>) returns (replies: seq<Response>)
      modifies this
      ensures replies == Run(arrivals, old(Snapshot())).replies
      ensures Snapshot() == Run(arrivals, old(Snapshot())).stats
      ensures totalRequests == old(totalRequests) + |PongLatencies(replies)|
      ensures latencies == old(latencies) + PongLatencies(replies)
      ensures old(Consistent(Snapshot())) ==> Consistent(Snapshot())
    {
      ghost var total := Run(arrivals, Snapshot());
      ghost var st0 := Snapshot();
      replies := [];
      var i := 0;
      while i < |arrivals|
        invariant 0 <= i <= |arrivals|
        invariant total.replies == replies + Run(arrivals[i..], Snapshot()).replies
        invariant total.stats == Run(arrivals[i..], Snapshot()).stats
      {
        assert arrivals[i..][1..] == arrivals[i + 1..];
        var action := HandleRequest(arrivals[i]);
        if action.Close? {
          break;
        }
        if action.Respond? {
          replies := replies + [action.response];
        }
        i := i + 1;
      }
      RunCountsPongs(arrivals, st0);
    }
  }
}
