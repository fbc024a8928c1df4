/** The rolling RTT statistics of a link (aetherbond/client/metrics.py, PathMonitor._record_rtt),
    over real numbers. */
module Metrics {
  import opened RealAlgebra

  const WINDOW: nat := 10
  const OUTAGE_RTT: real := 9999.0

  function Sum(s: seq<real>): real {
    if s == [] then 0.0 else s[0] + Sum(s[1..])
  }

  function SumOfDeviations(s: seq<real>, mean: real): real {
    if s == [] then 0.0 else Abs(s[0] - mean) + SumOfDeviations(s[1..], mean)
  }

  function Mean(s: seq<real>): real
    requires s != []
  {
    Sum(s) / |s| as real
  }

  function Jitter(s: seq<real>): real
    requires s != []
  {
    if |s| > 1 then SumOfDeviations(s, Mean(s)) / |s| as real else 0.0
  }

  function LastOf(samples: seq<real>): seq<real> {
    if |samples| <= WINDOW then samples else samples[|samples| - WINDOW..]
  }

  class LinkMetrics {
    var rttMs: real
    var jitterMs: real
    var rttHistory: seq<real>
    ghost var samples: seq<real>

    /** The history is the last ten samples.  The figures may be anything: an outage overwrites one. */
    ghost predicate Valid()
      reads this
    {
      rttHistory == LastOf(samples)
    }

    constructor ()
      ensures Valid() && samples == [] && rttMs == 0.0 && jitterMs == 0.0
    {
      rttMs, jitterMs, rttHistory, samples := 0.0, 0.0, [], [];
    }

    /** The link is found to be down. */
    method MarkDown()
      requires Valid()
      modifies this`rttMs
      ensures Valid() && rttMs == OUTAGE_RTT
    {
      rttMs := OUTAGE_RTT;
    }

    method RecordRtt(rtt: real)
      requires Valid()
      modifies this
      ensures Valid() && samples == old(samples) + [rtt]
      ensures rttMs == Mean(LastOf(samples)) && jitterMs == Jitter(LastOf(samples))
      ensures forall lo, hi :: Within(rttHistory, lo, hi) ==> lo <= rttMs <= hi && 0.0 <= jitterMs <= (hi - lo) / 2.0
    {
      rttHistory := rttHistory + [rtt];
      if |rttHistory| > 10 {
        rttHistory := rttHistory[1..];
      }
      samples := samples + [rtt];
      assert rttHistory == LastOf(samples);
      rttMs := Sum(rttHistory) / |rttHistory| as real;
      if |rttHistory| > 1 {
        jitterMs := SumOfDeviations(rttHistory, rttMs) / |rttHistory| as real;
      } else {
        jitterMs := 0.0;
      }
      forall lo, hi | Within(rttHistory, lo, hi)
        ensures lo <= rttMs <= hi && 0.0 <= jitterMs <= (hi - lo) / 2.0
      {
        MeanIsWithin(rttHistory, lo, hi);
        JitterIsAtMostHalfTheSpread(rttHistory, lo, hi);
      }
    }
  }

  // ---------- Bounds of the figures ----------

  ghost predicate Within(s: seq<real>, lo: real, hi: real) {
    forall i :: 0 <= i < |s| ==> lo <= s[i] <= hi
  }

  /** The sum of the distances to an upper and to a lower bound. */
  ghost function Above(s: seq<real>, hi: real): real {
    if s == [] then 0.0 else hi - s[0] + Above(s[1..], hi)
  }

  ghost function Below(s: seq<real>, lo: real): real {
    if s == [] then 0.0 else s[0] - lo + Below(s[1..], lo)
  }

  lemma {:induction false} Distances(s: seq<real>, lo: real, hi: real)
    requires Within(s, lo, hi)
    ensures Above(s, hi) == |s| as real * hi - Sum(s) >= 0.0
    ensures Below(s, lo) == Sum(s) - |s| as real * lo >= 0.0
    decreases |s|
  {
    if s != [] {
      Distances(s[1..], lo, hi);
      var n := |s[1..]| as real;
      assert |s| as real == n + 1.0;
      OfSum(hi, n, 1.0, n + 1.0);
      OfSum(lo, n, 1.0, n + 1.0);
    }
  }

  lemma {:induction false} BetweenQuotients(sum: real, n: real, mean: real, lo: real, hi: real)
    requires n > 0.0 && mean * n == sum && n * lo <= sum <= n * hi
    ensures lo <= mean <= hi
  {
    Cancel(lo, mean, n);
    Cancel(mean, hi, n);
  }

  lemma {:induction false} MeanIsWithin(s: seq<real>, lo: real, hi: real)
    requires s != [] && Within(s, lo, hi)
    ensures lo <= Mean(s) <= hi
  {
    Distances(s, lo, hi);
    var n, mean := |s| as real, Mean(s);
    QuotientLaw(Sum(s), n, mean);
    assert n * lo <= Sum(s) <= n * hi;
    BetweenQuotients(Sum(s), n, mean, lo, hi);
  }

  /** The distance to a mean a above lo and b below hi lies under the chord of its end points. */
  lemma {:induction false} UnderTheChord(x: real, mean: real, lo: real, hi: real, a: real, b: real)
    requires lo <= x <= hi && a == mean - lo >= 0.0 && b == hi - mean >= 0.0
    ensures Abs(x - mean) * (a + b) <= a * (hi - x) + b * (x - lo)
  {
    var d := x - mean;
    assert hi - x == b - d && x - lo == a + d;
    if d >= 0.0 {
      assert a * (b - d) + b * (a + d) - d * (a + b) == 2.0 * (a * (b - d));
      assert a * (b - d) >= 0.0;
    } else {
      assert a * (b - d) + b * (a + d) - (-d) * (a + b) == 2.0 * (b * (a + d));
      assert b * (a + d) >= 0.0;
    }
  }

  lemma {:induction false} DeviationsUnderTheChord(s: seq<real>, mean: real, lo: real, hi: real, a: real, b: real)
    requires Within(s, lo, hi) && a == mean - lo >= 0.0 && b == hi - mean >= 0.0
    ensures 0.0 <= SumOfDeviations(s, mean)
    ensures SumOfDeviations(s, mean) * (a + b) <= a * Above(s, hi) + b * Below(s, lo)
    decreases |s|
  {
    if s != [] {
      UnderTheChord(s[0], mean, lo, hi, a, b);
      DeviationsUnderTheChord(s[1..], mean, lo, hi, a, b);
      OfSum(a + b, Abs(s[0] - mean), SumOfDeviations(s[1..], mean), SumOfDeviations(s, mean));
      OfSum(a, hi - s[0], Above(s[1..], hi), Above(s, hi));
      OfSum(b, s[0] - lo, Below(s[1..], lo), Below(s, lo));
    }
  }

  /** The mean deviation is at most half the spread of the samples. */
  lemma {:induction false} JitterIsAtMostHalfTheSpread(s: seq<real>, lo: real, hi: real)
    requires s != [] && Within(s, lo, hi)
    ensures 0.0 <= Jitter(s) <= (hi - lo) / 2.0
  {
    assert lo <= s[0] <= hi;
    if |s| > 1 {
      MeanIsWithin(s, lo, hi);
      QuotientLaw(Sum(s), |s| as real, Mean(s));
      QuotientLaw(SumOfDeviations(s, Mean(s)), |s| as real, Jitter(s));
      SpreadAround(s, lo, hi, |s| as real, Mean(s), Jitter(s));
    }
  }

  lemma {:induction false} SpreadAround(s: seq<real>, lo: real, hi: real, n: real, mean: real, jitter: real)
    requires s != [] && Within(s, lo, hi) && n == |s| as real && lo <= mean <= hi
    requires n * mean == Sum(s) && n * jitter == SumOfDeviations(s, mean)
    ensures 0.0 <= jitter <= (hi - lo) / 2.0
  {
    var a, b, total, above, below := mean - lo, hi - mean, SumOfDeviations(s, mean), Above(s, hi), Below(s, lo);
    Distances(s, lo, hi);
    DeviationsUnderTheChord(s, mean, lo, hi, a, b);
    if a + b == 0.0 {
      NoSpreadNoDeviation(s, mean);
    }
    HalfTheSpread(total, n, Sum(s), mean, lo, hi, a, b, above, below, jitter);
  }

  lemma {:induction false} HalfTheSpread(total: real, n: real, sum: real, mean: real, lo: real, hi: real,
        a: real, b: real, above: real, below: real, jitter: real)
    requires n > 0.0 && n * mean == sum && above == n * hi - sum && below == sum - n * lo
    requires a == mean - lo >= 0.0 && b == hi - mean >= 0.0 && (a + b == 0.0 ==> total == 0.0)
    requires 0.0 <= total && total * (a + b) <= a * above + b * below && n * jitter == total
    ensures 0.0 <= jitter <= (hi - lo) / 2.0
  {
    OfSum(n, mean, b, hi);
    OfSum(n, lo, a, mean);
    var w := a + b;
    TwiceTheProduct(n, a, b, w);
    if w > 0.0 {
      Cancel(total, n * (w / 2.0), w);
    }
    Cancel(0.0, jitter, n);
    Cancel(jitter, w / 2.0, n);
  }

  lemma {:induction false} TwiceTheProduct(n: real, a: real, b: real, w: real)
    requires n > 0.0 && w == a + b
    ensures a * (n * b) + b * (n * a) <= w * (n * (w / 2.0))
  {
    assert a * (n * b) + b * (n * a) == n * (2.0 * (a * b));
    assert w * w - 4.0 * (a * b) == (a - b) * (a - b) >= 0.0;
    assert n * (w * w / 2.0 - 2.0 * (a * b)) >= 0.0;
    assert n * (w * w / 2.0) == w * (n * (w / 2.0));
  }

  lemma {:induction false} NoSpreadNoDeviation(s: seq<real>, mean: real)
    requires Within(s, mean, mean)
    ensures SumOfDeviations(s, mean) == 0.0
    decreases |s|
  {
    if s != [] {
      NoSpreadNoDeviation(s[1..], mean);
    }
  }

  /** The deviations add up over a concatenation. */
  lemma {:induction false} DeviationsAdd(s: seq<real>, t: seq<real>, mean: real)
    ensures SumOfDeviations(s + t, mean) == SumOfDeviations(s, mean) + SumOfDeviations(t, mean)
    ensures Sum(s + t) == Sum(s) + Sum(t)
    decreases |s|
  {
    if s == [] {
      assert s + t == t;
    } else {
      assert (s + t)[1..] == s[1..] + t;
      DeviationsAdd(s[1..], t, mean);
    }
  }

  lemma {:induction false} DeviationsCount(s: seq<real>, mean: real, i: nat)
    requires i < |s|
    ensures SumOfDeviations(s, mean) >= Abs(s[i] - mean)
    decreases |s|
  {
    Nonnegative(s[1..], mean);
    if i > 0 {
      DeviationsCount(s[1..], mean, i - 1);
    }
  }

  lemma {:induction false} Nonnegative(s: seq<real>, mean: real)
    ensures SumOfDeviations(s, mean) >= 0.0
    decreases |s|
  {
    if s != [] {
      Nonnegative(s[1..], mean);
    }
  }

  lemma {:induction false} DeviationsOfTwo(s: seq<real>, i: nat, j: nat, mean: real)
    requires i < j < |s|
    ensures Abs(s[i] - s[j]) <= SumOfDeviations(s, mean)
  {
    assert s == s[..j] + s[j..];
    DeviationsAdd(s[..j], s[j..], mean);
    DeviationsCount(s[..j], mean, i);
    DeviationsCount(s[j..], mean, 0);
  }

  /** Two samples that differ show in the jitter: their distance, spread over the history, bounds it from
      below. */
  lemma {:induction false} JitterIsAtLeastTheSpreadByCount(s: seq<real>, i: nat, j: nat, jitter: real)
    requires i < j < |s| && jitter == Jitter(s)
    ensures Abs(s[i] - s[j]) <= jitter * |s| as real
  {
    DeviationsOfTwo(s, i, j, Mean(s));
    QuotientLaw(SumOfDeviations(s, Mean(s)), |s| as real, jitter);
  }

  /** Two samples: the mean is half their sum and the jitter half their distance. */
  lemma {:induction false} TwoSamples(x: real, y: real)
    ensures Mean([x, y]) == (x + y) / 2.0 && Jitter([x, y]) == Abs(x - y) / 2.0
  {
    var s := [x, y];
    assert s[1..] == [y] && [y][1..] == [];
    assert Sum([y]) == y && Sum(s) == x + y;
    assert SumOfDeviations([y], Mean(s)) == Abs(y - Mean(s));
  }

  ghost function Recorded(history: seq<real>, rtt: real): seq<real> {
    var grown := history + [rtt];
    if |grown| > WINDOW then grown[1..] else grown
  }

  ghost function RecordedAll(history: seq<real>, rtts: seq<real>): seq<real>
    decreases |rtts|
  {
    if rtts == [] then history else RecordedAll(Recorded(history, rtts[0]), rtts[1..])
  }

  /** Appending and popping the front keeps exactly the last ten samples, over any run. */
  lemma {:induction false} HistoryIsLastTen(before: seq<real>, rtts: seq<real>)
    ensures RecordedAll(LastOf(before), rtts) == LastOf(before + rtts)
    ensures |LastOf(before + rtts)| == if |before + rtts| <= 10 then |before + rtts| else 10
    decreases |rtts|
  {
    if rtts == [] {
      assert before + rtts == before;
    } else {
      assert Recorded(LastOf(before), rtts[0]) == LastOf(before + [rtts[0]]);
      HistoryIsLastTen(before + [rtts[0]], rtts[1..]);
      assert before + [rtts[0]] + rtts[1..] == before + rtts;
    }
  }
}
