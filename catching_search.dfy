/** The search of monte_carlo_simulator_catching.py: the least-squares fit
    of distances to signals at one candidate point, the Monte Carlo argmin
    over candidate points, and the on-screen check of the anchors.
    `math.hypot` is a parameter and the random draws are an input
    sequence. Arithmetic is on mathematical reals. */
module CatchingSearch {
  import opened Wrappers
  import opened AnchorParsing

  /** `math.hypot(dx, dy)`. */
  type Hypot = (real, real) -> real

  /** The distances from the candidate to each anchor, in anchor order. */
  function Distances(cx: real, cy: real, anchors: seq<AnchorPoint>, hypot: Hypot): seq<real>
  {
    seq(|anchors|, i requires 0 <= i < |anchors| => hypot(cx - anchors[i].x, cy - anchors[i].y))
  }

  /** The signals of the anchors, in anchor order. */
  function Signals(anchors: seq<AnchorPoint>): seq<real>
  {
    seq(|anchors|, i requires 0 <= i < |anchors| => anchors[i].signal)
  }

  /** `sum(x * x for x in s)`. */
  function SumSquares(s: seq<real>): real
  {
    if s == [] then 0.0 else s[0] * s[0] + SumSquares(s[1..])
  }

  /** `sum(d * s for d, s in zip(ds, ss))`. */
  function SumProducts(ds: seq<real>, ss: seq<real>): real
    requires |ds| == |ss|
  {
    if ds == [] then 0.0 else ds[0] * ss[0] + SumProducts(ds[1..], ss[1..])
  }

  /** `sum((d - k * s) ** 2 for d, s in zip(ds, ss))`: how far the distances
      are from being `k` times the signals. */
  function SquaredError(ds: seq<real>, ss: seq<real>, k: real): real
    requires |ds| == |ss|
  {
    if ds == [] then 0.0
    else (ds[0] - k * ss[0]) * (ds[0] - k * ss[0]) + SquaredError(ds[1..], ss[1..], k)
  }

  lemma Square(x: real)
    ensures x * x >= 0.0
  {
    if x < 0.0 {
      assert x * x == (-x) * (-x);
    }
  }

  lemma {:induction false} SquaredErrorNonNegative(ds: seq<real>, ss: seq<real>, k: real)
    requires |ds| == |ss|
    ensures SquaredError(ds, ss, k) >= 0.0
  {
    if ds != [] {
      Square(ds[0] - k * ss[0]);
      SquaredErrorNonNegative(ds[1..], ss[1..], k);
    }
  }

  /** The error is a quadratic in `k`: Σd² − 2k·Σds + k²·Σs². */
  lemma {:induction false} Expand(ds: seq<real>, ss: seq<real>, k: real)
    requires |ds| == |ss|
    ensures SquaredError(ds, ss, k)
      == SumSquares(ds) - 2.0 * k * SumProducts(ds, ss) + k * k * SumSquares(ss)
  {
    if ds != [] {
      Expand(ds[1..], ss[1..], k);
      var d, s := ds[0], ss[0];
      var a', p', q' := SumSquares(ds[1..]), SumProducts(ds[1..], ss[1..]), SumSquares(ss[1..]);
      SquareOfDifference(d, s, k);
      assert 2.0 * k * (d * s + p') == 2.0 * k * (d * s) + 2.0 * k * p';
      assert k * k * (s * s + q') == k * k * (s * s) + k * k * q';
    }
  }

  lemma SquareOfDifference(d: real, s: real, k: real)
    ensures (d - k * s) * (d - k * s) == d * d - 2.0 * k * (d * s) + k * k * (s * s)
  {
  }

  /** When every signal is zero the error cannot depend on `k`, so the
      distances do not correlate with the signals. */
  lemma FlatSignals(ds: seq<real>, ss: seq<real>)
    requires |ds| == |ss| && SumSquares(ss) == 0.0
    ensures SumProducts(ds, ss) == 0.0
  {
    var a, d := SumSquares(ds), SumProducts(ds, ss);
    if d != 0.0 {
      // the error would be -1 at this scale
      var k := (a + 1.0) / (2.0 * d);
      Expand(ds, ss, k);
      assert k * (2.0 * d) == a + 1.0;
      assert SquaredError(ds, ss, k) == -1.0;
      SquaredErrorNonNegative(ds, ss, k);
    }
  }

  lemma {:induction false} SumSquaresNonNegative(s: seq<real>)
    ensures SumSquares(s) >= 0.0
  {
    if s != [] {
      Square(s[0]);
      SumSquaresNonNegative(s[1..]);
    }
  }

  /** A scale and the squared error it leaves. */
  datatype Fit = Fit(scale: real, error: real)

  /** The closed form of `compute_best_scale_and_error`: k = Σds / Σs²,
      or k = 0 with error Σd² when every signal is zero. */
  function BestFit(ds: seq<real>, ss: seq<real>): (r: Fit)
    requires |ds| == |ss|
    ensures r.error == SquaredError(ds, ss, r.scale)
    ensures r.error >= 0.0
    ensures SumSquares(ss) == 0.0 ==> r == Fit(0.0, SumSquares(ds))
    ensures SumSquares(ss) != 0.0 ==> r.scale == SumProducts(ds, ss) / SumSquares(ss)
  {
    var sumSS := SumSquares(ss);
    if sumSS == 0.0 then
      Expand(ds, ss, 0.0);
      SumSquaresNonNegative(ds);
      Fit(0.0, SumSquares(ds))
    else
      var k := SumProducts(ds, ss) / sumSS;
      SquaredErrorNonNegative(ds, ss, k);
      Fit(k, SquaredError(ds, ss, k))
  }

  /** The scale of `BestFit` is a least-squares scale: no other `k` leaves
      a smaller error. */
  lemma BestFitIsOptimal(ds: seq<real>, ss: seq<real>, k': real)
    requires |ds| == |ss|
    ensures BestFit(ds, ss).error <= SquaredError(ds, ss, k')
  {
    var a, d, s := SumSquares(ds), SumProducts(ds, ss), SumSquares(ss);
    Expand(ds, ss, k');
    if s == 0.0 {
      FlatSignals(ds, ss);
      Expand(ds, ss, 0.0);
    } else {
      SumSquaresNonNegative(ss);
      Expand(ds, ss, d / s);
      QuadraticMinimum(a, d, s, k');
    }
  }

  /** a − 2kd + k²s is least at k = d / s when s > 0. */
  lemma QuadraticMinimum(a: real, d: real, s: real, k': real)
    requires s > 0.0
    ensures a - 2.0 * (d / s) * d + (d / s) * (d / s) * s <= a - 2.0 * k' * d + k' * k' * s
  {
    var k := d / s;
    assert d == k * s;
    assert a - 2.0 * k * d + k * k * s == a - k * k * s;
    assert a - 2.0 * k' * d + k' * k' * s == a - 2.0 * k' * k * s + k' * k' * s;
    assert (a - 2.0 * k' * d + k' * k' * s) - (a - k * k * s) == s * ((k' - k) * (k' - k));
    Square(k' - k);
    assert s * ((k' - k) * (k' - k)) >= 0.0;
  }

  /** `compute_best_scale_and_error`: the distances and signals are
      collected anchor by anchor, then fitted. */
  method ComputeBestScaleAndError(cx: real, cy: real, anchors: seq<AnchorPoint>, hypot: Hypot)
    returns (k: real, err: real)
    ensures Fit(k, err) == BestFit(Distances(cx, cy, anchors, hypot), Signals(anchors))
    ensures err >= 0.0
    ensures forall k' :: err <= SquaredError(Distances(cx, cy, anchors, hypot), Signals(anchors), k')
  {
    var distances: seq<real> := [];
    var signals: seq<real> := [];
    for i := 0 to |anchors|
      invariant |distances| == |signals| == i
      invariant forall j :: 0 <= j < i ==> distances[j] == hypot(cx - anchors[j].x, cy - anchors[j].y)
      invariant forall j :: 0 <= j < i ==> signals[j] == anchors[j].signal
    {
      var dx := cx - anchors[i].x;
      var dy := cy - anchors[i].y;
      distances := distances + [hypot(dx, dy)];
      signals := signals + [anchors[i].signal];
    }
    assert distances == Distances(cx, cy, anchors, hypot);
    assert signals == Signals(anchors);
    forall k' ensures BestFit(distances, signals).error <= SquaredError(distances, signals, k') {
      BestFitIsOptimal(distances, signals, k');
    }
    var sumSS := SumSquares(signals);
    if sumSS == 0.0 {
      return 0.0, SumSquares(distances);
    }
    var sumDS := SumProducts(distances, signals);
    k := sumDS / sumSS;
    err := SquaredError(distances, signals, k);
  }

  /** A random point drawn in the screen rectangle. */
  datatype Candidate = Candidate(x: real, y: real)

  /** The fit at one candidate point. */
  function FitAt(anchors: seq<AnchorPoint>, hypot: Hypot, p: Candidate): Fit
  {
    BestFit(Distances(p.x, p.y, anchors, hypot), Signals(anchors))
  }

  /** The fit errors of the candidates, in draw order. */
  function Errors(anchors: seq<AnchorPoint>, hypot: Hypot, samples: seq<Candidate>): seq<real>
  {
    seq(|samples|, i requires 0 <= i < |samples| => FitAt(anchors, hypot, samples[i]).error)
  }

  /** `errors[i]` is the least error, and no earlier error equals it. */
  ghost predicate EarliestMinimum(errors: seq<real>, i: int)
  {
    && 0 <= i < |errors|
    && (forall j :: 0 <= j < |errors| ==> errors[i] <= errors[j])
    && (forall j :: 0 <= j < i ==> errors[i] < errors[j])
  }

  /** The earliest minimum is unique, so the search result is determined by
      the draws. */
  lemma EarliestMinimumUnique(errors: seq<real>, i: int, j: int)
    requires EarliestMinimum(errors, i) && EarliestMinimum(errors, j)
    ensures i == j
  {
    assert errors[i] == errors[j];
  }

  /** The result of the search is the point, scale and error of sample `i`,
      the earliest sample with the least error. */
  ghost predicate SearchResult(anchors: seq<AnchorPoint>, hypot: Hypot, samples: seq<Candidate>, i: int,
                               x: real, y: real, k: real, error: real)
  {
    && EarliestMinimum(Errors(anchors, hypot, samples), i)
    && samples[i] == Candidate(x, y)
    && FitAt(anchors, hypot, samples[i]) == Fit(k, error)
  }

  /** `monte_carlo_search` over the given draws. `monte_carlo_search`
      asserts that a best point was found, which needs at least one sample. */
  method MonteCarloSearch(anchors: seq<AnchorPoint>, samples: seq<Candidate>, hypot: Hypot)
    returns (bestX: real, bestY: real, bestK: real, bestError: real)
    requires |samples| >= 1
    ensures exists i :: SearchResult(anchors, hypot, samples, i, bestX, bestY, bestK, bestError)
    ensures forall j :: 0 <= j < |samples| ==> bestError <= FitAt(anchors, hypot, samples[j]).error
    ensures forall j, k' :: 0 <= j < |samples| ==>
      bestError <= SquaredError(Distances(samples[j].x, samples[j].y, anchors, hypot), Signals(anchors), k')
  {
    ghost var errors := Errors(anchors, hypot, samples);
    var x: Option<real> := None;
    var y: Option<real> := None;
    var scale: Option<real> := None;
    var best: Option<real> := None;   // None is float("inf")
    ghost var bi := 0;
    for i := 0 to |samples|
      invariant best.None? <==> i == 0
      invariant x.Some? && y.Some? && scale.Some? <==> best.Some?
      invariant best.Some? ==>
        && bi < i
        && SearchResult(anchors, hypot, samples[..i], bi, x.value, y.value, scale.value, best.value)
    {
      var k, err := ComputeBestScaleAndError(samples[i].x, samples[i].y, anchors, hypot);
      if best.None? || err < best.value {
        best := Some(err);
        x := Some(samples[i].x);
        y := Some(samples[i].y);
        scale := Some(k);
        bi := i;
      }
      assert Errors(anchors, hypot, samples[..i + 1]) == Errors(anchors, hypot, samples[..i]) + [err];
    }
    assert samples[..|samples|] == samples;
    assert x.Some? && y.Some? && scale.Some?;
    bestX, bestY, bestK, bestError := x.value, y.value, scale.value, best.value;
    assert SearchResult(anchors, hypot, samples, bi, bestX, bestY, bestK, bestError);
    forall j, k' | 0 <= j < |samples|
      ensures bestError <= SquaredError(Distances(samples[j].x, samples[j].y, anchors, hypot), Signals(anchors), k')
    {
      assert errors[j] == FitAt(anchors, hypot, samples[j]).error;
      BestFitIsOptimal(Distances(samples[j].x, samples[j].y, anchors, hypot), Signals(anchors), k');
    }
  }

  /** `max(1, int(args.num))`: the sample count `main` passes on. */
  function SampleCount(num: int): (n: nat)
    ensures n >= 1
    ensures num >= 1 ==> n == num
    ensures num < 1 ==> n == 1
  {
    if num < 1 then 1 else num
  }

  /** The first `SampleCount(num)` draws. */
  function Draws(num: int, draw: nat -> Candidate): (r: seq<Candidate>)
    ensures |r| >= 1 && |r| == SampleCount(num)
    ensures forall j :: 0 <= j < |r| ==> r[j] == draw(j)
  {
    seq(SampleCount(num), (j: int) requires 0 <= j => draw(j))
  }

  /** The call in `main`: `draw(i)` is the i-th point `rng.uniform` gives,
      and the clamped count always meets the search's demand for a sample. */
  method SearchClamped(anchors: seq<AnchorPoint>, num: int, draw: nat -> Candidate, hypot: Hypot)
    returns (bestX: real, bestY: real, bestK: real, bestError: real)
    ensures exists i :: SearchResult(anchors, hypot, Draws(num, draw), i, bestX, bestY, bestK, bestError)
  {
    var samples := Draws(num, draw);
    bestX, bestY, bestK, bestError := MonteCarloSearch(anchors, samples, hypot);
  }

  /** `0.0 <= a.x <= width and 0.0 <= a.y <= height`. */
  predicate OnScreen(a: AnchorPoint, width: int, height: int)
  {
    0.0 <= a.x <= width as real && 0.0 <= a.y <= height as real
  }

  /** `validate_anchors_within_screen`: the 1-based positions of the anchors
      off the screen, and whether the warning is printed. */
  method ValidateAnchorsWithinScreen(anchors: seq<AnchorPoint>, width: int, height: int)
    returns (outOfBounds: seq<int>, warn: bool)
    ensures forall n :: n in outOfBounds ==> 1 <= n <= |anchors|
    ensures forall i :: 0 <= i < |anchors| ==> (i + 1 in outOfBounds <==> !OnScreen(anchors[i], width, height))
    ensures forall p, q :: 0 <= p < q < |outOfBounds| ==> outOfBounds[p] < outOfBounds[q]
    ensures warn <==> exists i :: 0 <= i < |anchors| && !OnScreen(anchors[i], width, height)
  {
    outOfBounds := [];
    for idx := 0 to |anchors|
      invariant forall p :: 0 <= p < |outOfBounds| ==> 1 <= outOfBounds[p] <= idx
      invariant forall i :: 0 <= i < idx ==> (i + 1 in outOfBounds <==> !OnScreen(anchors[i], width, height))
      invariant forall p, q :: 0 <= p < q < |outOfBounds| ==> outOfBounds[p] < outOfBounds[q]
    {
      if !OnScreen(anchors[idx], width, height) {
        outOfBounds := outOfBounds + [idx + 1];
      }
    }
    warn := outOfBounds != [];
    if warn {
      assert outOfBounds[0] in outOfBounds;
      assert !OnScreen(anchors[outOfBounds[0] - 1], width, height);
    }
  }
}
