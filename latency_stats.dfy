/** The server's statistics record (`TCPServer.stats` in
    tcp_latency_measurement.py) as a value, the update performed by
    `update_stats` and the summary computed by `get_stats`. The class that
    holds the record and updates it in place is `Server.TCPServer`. */
module LatencyStats {
  import opened Wrappers
  import opened Statistics

  /** The five entries of the `stats` dictionary. `minLatency == None`
      stands for the initial `float('inf')`. */
  datatype Stats = Stats(
    totalRequests: nat,
    totalLatency: real,
    minLatency: Option<real>,
    maxLatency: real,
    latencies: seq<real>)

  /** The dictionary built by `TCPServer.__init__`. */
  const Initial: Stats := Stats(0, 0.0, None, 0.0, [])

  function Larger(a: real, b: real): real
  {
    if a >= b then a else b
  }

  /** What the record holds after any sequence of updates from `Initial`:
      the counter is the number of samples, the total is their sum, the
      minimum is the smallest sample (the `+inf` sentinel while there is
      none) and the maximum is the largest sample or 0, whichever is larger,
      because the maximum starts at 0. */
  ghost predicate Consistent(st: Stats)
  {
    && st.totalRequests == |st.latencies|
    && st.totalLatency == Sum(st.latencies)
    && (if st.latencies == [] then st.minLatency == None && st.maxLatency == 0.0
        else st.minLatency == Some(SeqMin(st.latencies))
             && st.maxLatency == Larger(0.0, SeqMax(st.latencies)))
  }

  lemma MinAppend(s: seq<real>, x: real)
    requires s != []
    ensures SeqMin(s + [x]) == if x < SeqMin(s) then x else SeqMin(s)
  {
    var m, t := SeqMin(s + [x]), SeqMin(s);
    assert (s + [x])[|s|] == x;
    assert forall i :: 0 <= i < |s| ==> (s + [x])[i] == s[i];
    if m != x {
      var i :| 0 <= i < |s| + 1 && (s + [x])[i] == m;
      assert m in s;
    }
  }

  lemma MaxAppend(s: seq<real>, x: real)
    requires s != []
    ensures SeqMax(s + [x]) == if x > SeqMax(s) then x else SeqMax(s)
  {
    var m, t := SeqMax(s + [x]), SeqMax(s);
    assert (s + [x])[|s|] == x;
    assert forall i :: 0 <= i < |s| ==> (s + [x])[i] == s[i];
    if m != x {
      var i :| 0 <= i < |s| + 1 && (s + [x])[i] == m;
      assert m in s;
    }
  }

  /** `update_stats(latency)`: one more request, the sample added to the
      total and appended after the earlier ones, the minimum lowered and the
      maximum raised when the sample passes them. */
  function Record(st: Stats, latency: real): (r: Stats)
    ensures r.totalRequests == st.totalRequests + 1
    ensures r.latencies == st.latencies + [latency]
    ensures r.totalLatency == st.totalLatency + latency
    ensures r.minLatency.Some? && r.minLatency.value <= latency
    ensures st.minLatency.Some? ==> r.minLatency.value <= st.minLatency.value
    ensures r.minLatency.value in {latency} + (if st.minLatency.Some? then {st.minLatency.value} else {})
    ensures latency <= r.maxLatency && st.maxLatency <= r.maxLatency
    ensures r.maxLatency in {latency, st.maxLatency}
  {
    var lowest := if st.minLatency.None? || latency < st.minLatency.value then Some(latency) else st.minLatency;
    var highest := if latency > st.maxLatency then latency else st.maxLatency;
    Stats(st.totalRequests + 1, st.totalLatency + latency, lowest, highest, st.latencies + [latency])
  }

  /** `update_stats` keeps the record consistent. */
  lemma RecordKeepsConsistent(st: Stats, latency: real)
    requires Consistent(st)
    ensures Consistent(Record(st, latency))
  {
    var r := Record(st, latency);
    SumAppend(st.latencies, latency);
    if st.latencies == [] {
      assert r.latencies == [latency];
    } else {
      MinAppend(st.latencies, latency);
      MaxAppend(st.latencies, latency);
    }
  }

  /** `update_stats` applied to each sample of `xs` in turn. */
  function RecordAll(st: Stats, xs: seq<real>): Stats
    decreases |xs|
  {
    if xs == [] then st else RecordAll(Record(st, xs[0]), xs[1..])
  }

  /** Any sequence of updates appends exactly the recorded samples in order
      and raises the counter by their number. */
  lemma {:induction false} RecordAllAppends(st: Stats, xs: seq<real>)
    ensures RecordAll(st, xs).latencies == st.latencies + xs
    ensures RecordAll(st, xs).totalRequests == st.totalRequests + |xs|
    decreases |xs|
  {
    if xs == [] {
      assert st.latencies + xs == st.latencies;
    } else {
      RecordAllAppends(Record(st, xs[0]), xs[1..]);
      assert st.latencies + xs == st.latencies + [xs[0]] + xs[1..];
    }
  }

  /** Any sequence of updates keeps the record consistent. */
  lemma {:induction false} RecordAllKeepsConsistent(st: Stats, xs: seq<real>)
    requires Consistent(st)
    ensures Consistent(RecordAll(st, xs))
    decreases |xs|
  {
    if xs != [] {
      RecordKeepsConsistent(st, xs[0]);
      RecordAllKeepsConsistent(Record(st, xs[0]), xs[1..]);
    }
  }

  /** From the initial record, after updates with `xs`: the counter is
      `|xs|`, the total is `sum(xs)`, the minimum is `min(xs)` and the
      maximum is `max(0, max(xs))`, and every sample lies between them. */
  lemma FromInitial(xs: seq<real>)
    requires xs != []
    ensures var st := RecordAll(Initial, xs);
      && st.totalRequests == |xs|
      && st.latencies == xs
      && st.totalLatency == Sum(xs)
      && st.minLatency == Some(SeqMin(xs))
      && st.maxLatency == Larger(0.0, SeqMax(xs))
      && forall i :: 0 <= i < |xs| ==> st.minLatency.value <= xs[i] <= st.maxLatency
  {
    RecordAllAppends(Initial, xs);
    RecordAllKeepsConsistent(Initial, xs);
  }

  /** The quirk of the maximum starting at 0: when every sample is
      negative the reported maximum is 0, a value no sample has; otherwise
      it is the largest sample. */
  lemma MaxLatencyFloorsAtZero(st: Stats)
    requires Consistent(st) && st.latencies != []
    ensures (forall i :: 0 <= i < |st.latencies| ==> st.latencies[i] < 0.0)
            ==> st.maxLatency == 0.0 && st.maxLatency !in st.latencies
    ensures (exists i :: 0 <= i < |st.latencies| && st.latencies[i] >= 0.0)
            ==> st.maxLatency == SeqMax(st.latencies)
  {
  }

  /** The dictionary returned by `get_stats`: a copy of the record plus
      mean, median and the spread. `stdSquared` is the square of
      `std_latency`: the sample variance when there are two samples or more,
      0 otherwise (the square root itself is not modelled). */
  datatype StatsReport = StatsReport(
    totalRequests: nat,
    totalLatency: real,
    minLatency: Option<real>,
    maxLatency: real,
    latencies: seq<real>,
    avgLatency: real,
    medianLatency: real,
    stdSquared: real)

  /** `get_stats` on a record. */
  function Report(st: Stats): (r: StatsReport)
    ensures r.totalRequests == st.totalRequests && r.totalLatency == st.totalLatency
    ensures r.minLatency == st.minLatency && r.maxLatency == st.maxLatency
    ensures r.latencies == st.latencies
    ensures st.latencies == [] ==> r.avgLatency == 0.0 && r.medianLatency == 0.0 && r.stdSquared == 0.0
    ensures |st.latencies| <= 1 ==> r.stdSquared == 0.0
    ensures r.stdSquared >= 0.0
    ensures st.latencies != [] ==>
      && SeqMin(st.latencies) <= r.avgLatency <= SeqMax(st.latencies)
      && SeqMin(st.latencies) <= r.medianLatency <= SeqMax(st.latencies)
  {
    var s := st.latencies;
    if s == [] then
      StatsReport(st.totalRequests, st.totalLatency, st.minLatency, st.maxLatency, s, 0.0, 0.0, 0.0)
    else
      MeanBounds(s);
      MedianBounds(s);
      var spread := if |s| > 1 then SampleVariance(s) else 0.0;
      StatsReport(st.totalRequests, st.totalLatency, st.minLatency, st.maxLatency, s, Mean(s), Median(s), spread)
  }

  /** On a consistent record the average is the total over the count,
      and the average and the median lie between the recorded minimum and
      maximum. */
  ghost predicate ReportBoundsHold(st: Stats)
  {
    var r := Report(st);
    && r.totalRequests > 0
    && r.avgLatency == r.totalLatency / (r.totalRequests as real)
    && r.minLatency.Some?
    && r.minLatency.value <= r.avgLatency <= r.maxLatency
    && r.minLatency.value <= r.medianLatency <= r.maxLatency
  }

  lemma ReportWithinRecordedBounds(st: Stats)
    requires Consistent(st) && st.latencies != []
    ensures ReportBoundsHold(st)
  {
    var xs, r := st.latencies, Report(st);
    assert r.avgLatency == Mean(xs) && r.medianLatency == Median(xs);
    MeanBounds(xs);
    MedianBounds(xs);
    assert SeqMax(xs) <= r.maxLatency;
  }

  /** The summary after updates with `xs` from the initial record. */
  lemma ReportFromInitial(xs: seq<real>)
    requires xs != []
    ensures var a := Report(RecordAll(Initial, xs));
      && a.totalRequests == |xs|
      && a.totalLatency == Sum(xs)
      && a.minLatency == Some(SeqMin(xs))
      && a.maxLatency == Larger(0.0, SeqMax(xs))
      && a.avgLatency == Mean(xs)
      && a.medianLatency == Median(xs)
  {
    FromInitial(xs);
  }

  /** With no lock around the update, concurrent handlers are modelled as
      some sequential order of their updates. Every order of the same
      samples gives the same count, total, minimum, maximum, mean and
      median. */
  lemma ReportIndependentOfOrder(xs: seq<real>, ys: seq<real>)
    requires xs != [] && multiset(xs) == multiset(ys)
    ensures var a, b := Report(RecordAll(Initial, xs)), Report(RecordAll(Initial, ys));
      && a.totalRequests == b.totalRequests
      && a.totalLatency == b.totalLatency
      && a.minLatency == b.minLatency
      && a.maxLatency == b.maxLatency
      && a.avgLatency == b.avgLatency
      && a.medianLatency == b.medianLatency
  {
    assert |xs| == |multiset(xs)| == |multiset(ys)| == |ys|;
    ReportFromInitial(xs);
    ReportFromInitial(ys);
    SumPermutation(xs, ys);
    MinMaxPermutation(xs, ys);
    MedianPermutation(xs, ys);
  }
}
