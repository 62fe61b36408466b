/** Models of the parts of Python's `statistics` module and of the builtins
    `sum`, `min`, `max` and `sorted` that the latency tool applies to its
    list of samples. Arithmetic is on mathematical reals. */
module Statistics {

  /** `sum(s)`. */
  function Sum(s: seq<real>): real
  {
    if s == [] then 0.0 else s[0] + Sum(s[1..])
  }

  lemma {:induction false} SumAppend(s: seq<real>, x: real)
    ensures Sum(s + [x]) == Sum(s) + x
  {
    if s != [] {
      assert (s + [x])[1..] == s[1..] + [x];
      SumAppend(s[1..], x);
    }
  }

  lemma {:induction false} SumConcat(s: seq<real>, t: seq<real>)
    ensures Sum(s + t) == Sum(s) + Sum(t)
  {
    if s == [] {
      assert s + t == t;
    } else {
      assert (s + t)[1..] == s[1..] + t;
      SumConcat(s[1..], t);
    }
  }

  /** Removing the element at index j leaves the multiset minus that element. */
  lemma RemoveAt(t: seq<real>, j: nat)
    requires j < |t|
    ensures multiset(t[..j] + t[j + 1..]) == multiset(t) - multiset{t[j]}
  {
    PickAt(t, j);
  }

  lemma SumRemoveAt(t: seq<real>, j: nat)
    requires j < |t|
    ensures Sum(t) == t[j] + Sum(t[..j] + t[j + 1..])
  {
    PickAt(t, j);
    SumSplit(t[..j], t[j], t[j + 1..]);
  }

  /** A list is the part before index j, the element at j and the part after. */
  lemma PickAt(t: seq<real>, j: nat)
    requires j < |t|
    ensures t == t[..j] + [t[j]] + t[j + 1..]
  {
  }

  lemma SumSplit(a: seq<real>, x: real, b: seq<real>)
    ensures Sum(a + [x] + b) == x + Sum(a + b)
  {
    assert ([x] + b)[1..] == b;
    assert a + [x] + b == a + ([x] + b);
    SumConcat(a, [x] + b);
    SumConcat(a, b);
  }

  /** The sum does not depend on the order of the samples. */
  lemma {:induction false} SumPermutation(s: seq<real>, t: seq<real>)
    requires multiset(s) == multiset(t)
    ensures Sum(s) == Sum(t)
    decreases |s|
  {
    if s == [] {
      assert |t| == |multiset(t)| == 0;
    } else {
      assert s[0] in multiset(t) by { assert s[0] in multiset(s); }
      var j :| 0 <= j < |t| && t[j] == s[0];
      var rest := t[..j] + t[j + 1..];
      RemoveAt(t, j);
      assert s == [s[0]] + s[1..];
      assert multiset(s[1..]) == multiset(s) - multiset{s[0]};
      SumPermutation(s[1..], rest);
      SumRemoveAt(t, j);
    }
  }

  /** `min(s)`: the smallest sample. */
  function SeqMin(s: seq<real>): (m: real)
    requires s != []
    ensures m in s
    ensures forall i :: 0 <= i < |s| ==> m <= s[i]
  {
    if |s| == 1 then s[0]
    else
      var t := SeqMin(s[1..]);
      if s[0] <= t then s[0] else t
  }

  /** `max(s)`: the largest sample. */
  function SeqMax(s: seq<real>): (m: real)
    requires s != []
    ensures m in s
    ensures forall i :: 0 <= i < |s| ==> s[i] <= m
  {
    if |s| == 1 then s[0]
    else
      var t := SeqMax(s[1..]);
      if s[0] >= t then s[0] else t
  }

  /** Two samples lists holding the same values have the same minimum and maximum. */
  lemma MinMaxPermutation(s: seq<real>, t: seq<real>)
    requires s != [] && multiset(s) == multiset(t)
    ensures t != [] && SeqMin(s) == SeqMin(t) && SeqMax(s) == SeqMax(t)
  {
    assert s[0] in multiset(t);
    var a, b := SeqMin(s), SeqMin(t);
    assert a in multiset(t) && b in multiset(s);
    var c, d := SeqMax(s), SeqMax(t);
    assert c in multiset(t) && d in multiset(s);
  }

  ghost predicate Sorted(s: seq<real>)
  {
    forall i, j :: 0 <= i < j < |s| ==> s[i] <= s[j]
  }

  /** Insertion of one value into a sorted list. */
  function Insert(x: real, s: seq<real>): (r: seq<real>)
    requires Sorted(s)
    ensures Sorted(r)
    ensures multiset(r) == multiset(s) + multiset{x}
  {
    if s == [] then [x]
    else if x <= s[0] then [x] + s
    else
      var rest := Insert(x, s[1..]);
      InsertHeadBound(x, s, rest);
      assert s == [s[0]] + s[1..];
      [s[0]] + rest
  }

  /** The head of a sorted list stays below everything the rest of the
      insertion produces. */
  lemma InsertHeadBound(x: real, s: seq<real>, rest: seq<real>)
    requires Sorted(s) && s != [] && s[0] < x
    requires multiset(rest) == multiset(s[1..]) + multiset{x}
    ensures forall k :: 0 <= k < |rest| ==> s[0] <= rest[k]
  {
    forall k | 0 <= k < |rest| ensures s[0] <= rest[k] {
      assert rest[k] in multiset(rest);
      assert rest[k] == x || rest[k] in multiset(s[1..]);
    }
  }

  /** `sorted(s)`: the samples in non-decreasing order. */
  function Sort(s: seq<real>): (r: seq<real>)
    ensures Sorted(r)
    ensures multiset(r) == multiset(s)
  {
    if s == [] then []
    else
      assert s == [s[0]] + s[1..];
      Insert(s[0], Sort(s[1..]))
  }

  lemma HeadTailMultiset(s: seq<real>)
    requires s != []
    ensures multiset(s) == multiset{s[0]} + multiset(s[1..])
    ensures multiset(s[1..]) == multiset(s) - multiset{s[0]}
  {
    assert s == [s[0]] + s[1..];
    assert multiset([s[0]] + s[1..]) == multiset([s[0]]) + multiset(s[1..]);
  }

  /** The head of a sorted list is its least value. */
  lemma SortedHeadIsLeast(s: seq<real>, x: real)
    requires Sorted(s) && x in multiset(s)
    ensures s != [] && s[0] <= x
  {
    var i :| 0 <= i < |s| && s[i] == x;
    assert i == 0 || s[0] <= s[i];
  }

  /** A sorted arrangement of a multiset of values is unique. */
  lemma {:induction false} SortedUnique(s: seq<real>, t: seq<real>)
    requires Sorted(s) && Sorted(t) && multiset(s) == multiset(t)
    ensures s == t
    decreases |s|
  {
    if s == [] {
      assert |t| == |multiset(t)| == 0;
    } else {
      assert s[0] in multiset(s);
      SortedHeadIsLeast(t, s[0]);
      assert t[0] in multiset(t);
      SortedHeadIsLeast(s, t[0]);
      assert s[0] == t[0];
      assert multiset(s[1..]) == multiset(t[1..]) by {
        HeadTailMultiset(s);
        HeadTailMultiset(t);
      }
      assert Sorted(s[1..]) && Sorted(t[1..]);
      SortedUnique(s[1..], t[1..]);
      assert s == [s[0]] + s[1..] && t == [t[0]] + t[1..];
    }
  }

  /** `statistics.mean(s)`. */
  function Mean(s: seq<real>): real
    requires s != []
  {
    Sum(s) / (|s| as real)
  }

  /** `statistics.median(s)`: the middle of the sorted list, or the mean of
      the two middle values when the length is even. */
  function Median(s: seq<real>): real
    requires s != []
  {
    assert |Sort(s)| == |s| by { assert |multiset(Sort(s))| == |multiset(s)|; }
    MiddleOf(Sort(s))
  }

  /** The middle value of a sorted list, or the mean of the two middle
      values when the length is even. */
  function MiddleOf(t: seq<real>): real
    requires t != []
  {
    var n := |t|;
    if n % 2 == 1 then t[n / 2] else (t[n / 2 - 1] + t[n / 2]) / 2.0
  }

  lemma {:induction false} SumBounds(s: seq<real>, lo: real, hi: real)
    requires forall i :: 0 <= i < |s| ==> lo <= s[i] <= hi
    ensures (|s| as real) * lo <= Sum(s) <= (|s| as real) * hi
  {
    if s != [] {
      SumBounds(s[1..], lo, hi);
    }
  }

  /** Dividing a total by a positive count keeps bounds on the average. */
  lemma DivideBounds(total: real, n: real, lo: real, hi: real)
    requires n > 0.0 && n * lo <= total <= n * hi
    ensures lo <= total / n <= hi
  {
    var q := total / n;
    assert q * n == total;
    assert (q - lo) * n >= 0.0;
    assert (hi - q) * n >= 0.0;
  }

  /** The mean of samples within bounds is within them too. */
  lemma MeanBetween(s: seq<real>, lo: real, hi: real)
    requires s != [] && forall i :: 0 <= i < |s| ==> lo <= s[i] <= hi
    ensures lo <= Mean(s) <= hi
  {
    SumBounds(s, lo, hi);
    DivideBounds(Sum(s), |s| as real, lo, hi);
  }

  /** The mean lies between the smallest and the largest sample. */
  lemma MeanBounds(s: seq<real>)
    requires s != []
    ensures SeqMin(s) <= Mean(s) <= SeqMax(s)
  {
    MeanBetween(s, SeqMin(s), SeqMax(s));
  }

  /** Sorting keeps the length and every value of the samples. */
  lemma SortKeepsValues(s: seq<real>)
    requires s != []
    ensures |Sort(s)| == |s|
    ensures forall k :: 0 <= k < |s| ==> Sort(s)[k] in s && SeqMin(s) <= Sort(s)[k] <= SeqMax(s)
  {
    var t := Sort(s);
    assert |t| == |s| by { assert |multiset(t)| == |multiset(s)|; }
    forall k | 0 <= k < |t| ensures t[k] in s && SeqMin(s) <= t[k] <= SeqMax(s) {
      assert t[k] in multiset(t);
    }
  }

  /** The median lies between the smallest and the largest sample; for an
      odd count it is one of the samples. */
  lemma MedianBounds(s: seq<real>)
    requires s != []
    ensures SeqMin(s) <= Median(s) <= SeqMax(s)
    ensures |s| % 2 == 1 ==> Median(s) in s
  {
    SortKeepsValues(s);
    MiddleBetween(Sort(s), SeqMin(s), SeqMax(s));
  }

  /** The middle of values within bounds is within them too, and is the
      central value when the count is odd. */
  lemma MiddleBetween(t: seq<real>, lo: real, hi: real)
    requires t != [] && forall k :: 0 <= k < |t| ==> lo <= t[k] <= hi
    ensures lo <= MiddleOf(t) <= hi
    ensures |t| % 2 == 1 ==> MiddleOf(t) == t[|t| / 2]
  {
    var n := |t|;
    if n % 2 == 0 {
      var a, b := t[n / 2 - 1], t[n / 2];
      assert lo <= a <= hi && lo <= b <= hi;
    }
  }

  /** The median depends only on which values were recorded, not on the
      order in which they arrived. */
  lemma MedianPermutation(s: seq<real>, t: seq<real>)
    requires s != [] && multiset(s) == multiset(t)
    ensures t != [] && Median(s) == Median(t)
  {
    assert |s| == |multiset(s)| == |multiset(t)| == |t|;
    SortedUnique(Sort(s), Sort(t));
  }

  /** The sum of squared deviations from `m`. */
  function SumSquaredDeviations(s: seq<real>, m: real): (r: real)
    ensures r >= 0.0
  {
    if s == [] then 0.0
    else
      var d := s[0] - m;
      assert d * d >= 0.0 by { assert d >= 0.0 || -d > 0.0; }
      d * d + SumSquaredDeviations(s[1..], m)
  }

  /** The square of `statistics.stdev(s)`: the sample variance, with the
      n - 1 denominator. */
  function SampleVariance(s: seq<real>): (r: real)
    requires |s| >= 2
    ensures r >= 0.0
  {
    SumSquaredDeviations(s, Mean(s)) / ((|s| - 1) as real)
  }
}
