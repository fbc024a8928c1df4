/** The jitter filter (aetherbond-core/src/congestion/mod.rs, JitterKalmanFilter), over real numbers. */
module Kalman {
  import opened RealAlgebra

  datatype Filter = Filter(q: real, r: real, x: real, p: real, k: real)

  function NewFilter(processNoise: real, measurementNoise: real): Filter {
    Filter(processNoise, measurementNoise, 0.0, 1.0, 0.0)
  }

  const DEFAULT_FILTER: Filter := NewFilter(0.05, 2.0)

  /** Both noises and the covariance are positive. */
  predicate Healthy(f: Filter) {
    f.q > 0.0 && f.r > 0.0 && f.p > 0.0
  }

  /** The division of the gain is defined. */
  predicate Defined(f: Filter) {
    f.p + f.q + f.r != 0.0
  }

  ghost function Updated(f: Filter, z: real): Filter
    requires Defined(f)
  {
    var k := Gain(f.p + f.q, f.r);
    f.(x := Corrected(f.x, k, z - f.x), p := Reduced(f.p + f.q, 1.0 - k), k := k)
  }

  function Gain(predicted: real, r: real): real
    requires predicted + r != 0.0
  {
    predicted / (predicted + r)
  }

  function Corrected(x: real, k: real, innovation: real): real {
    x + k * innovation
  }

  function Reduced(predicted: real, complement: real): real {
    predicted * complement
  }

  ghost function UpdatedAll(f: Filter, zs: seq<real>): Filter
    requires Healthy(f)
    decreases |zs|
  {
    if zs == [] then f
    else
      GainAndCovariance(f, zs[0]);
      UpdatedAll(Updated(f, zs[0]), zs[1..])
  }

  class JitterKalmanFilter {
    var q: real
    var r: real
    var x: real
    var p: real
    var k: real

    ghost function Model(): Filter
      reads this
    {
      Filter(q, r, x, p, k)
    }

    constructor (processNoise: real, measurementNoise: real)
      ensures Model() == NewFilter(processNoise, measurementNoise)
    {
      q, r := processNoise, measurementNoise;
      x, p, k := 0.0, 1.0, 0.0;
    }

    method Update(measurement: real) returns (estimate: real)
      requires Defined(Model())
      modifies this`x, this`p, this`k
      ensures Model() == Updated(old(Model()), measurement)
      ensures Healthy(old(Model())) ==> Healthy(Model())
      ensures estimate == x
    {
      if Healthy(Model()) {
        GainAndCovariance(Model(), measurement);
      }
      p := p + q;
      k := p / (p + r);
      x := x + k * (measurement - x);
      p := p * (1.0 - k);
      estimate := x;
    }
  }

  // ---------- One update ----------

  lemma {:induction false} GainAlgebra(s: real, r: real, sr: real, k: real, kc: real)
    requires 0.0 < s && 0.0 < r && sr == s + r && k * sr == s && kc == 1.0 - k
    ensures 0.0 < k && k < 1.0 && Reduced(s, kc) == r * k && 0.0 < r * k && kc * sr == r
  {
    ProperFraction(s, sr, k);
    OfSum(k, s, r, sr);
    OfDifference(s, 1.0, k, kc);
    OfDifference(sr, 1.0, k, kc);
    Positive(r, k);
  }

  /** The gain stays strictly between 0 and 1, and the covariance is r times the gain. */
  lemma {:induction false} GainAndCovariance(f: Filter, z: real)
    requires Healthy(f)
    ensures var g := Updated(f, z);
      Healthy(g) && g.q == f.q && g.r == f.r && 0.0 < g.k && g.k < 1.0 && g.p == f.r * g.k
  {
    var s := f.p + f.q;
    QuotientLaw(s, s + f.r, Gain(s, f.r));
    GainAlgebra(s, f.r, s + f.r, Gain(s, f.r), 1.0 - Gain(s, f.r));
  }

  lemma {:induction false} BlendStays(x: real, z: real, k: real, kc: real, d: real)
    requires 0.0 < k && k < 1.0 && kc == 1.0 - k && d == z - x
    ensures if d < 0.0 then z <= Corrected(x, k, d) <= x else x <= Corrected(x, k, d) <= z
  {
    OfDifference(d, 1.0, k, kc);
    if d < 0.0 {
      var e := -d;
      Nonneg(k, e);
      Nonneg(kc, e);
      Opposite(k, e, d);
      Opposite(kc, e, d);
    } else {
      Nonneg(k, d);
      Nonneg(kc, d);
    }
  }

  /** The new estimate lies between the old one and the measurement. */
  lemma {:induction false} EstimateStaysBetween(f: Filter, z: real, lo: real, hi: real)
    requires Healthy(f) && lo <= f.x <= hi && lo <= z <= hi
    ensures lo <= Updated(f, z).x <= hi
  {
    GainAndCovariance(f, z);
    BlendStays(f.x, z, Updated(f, z).k, 1.0 - Updated(f, z).k, z - f.x);
  }

  // ---------- The covariance ----------

  /** The covariance that an update leaves unchanged. */
  ghost predicate Settled(q: real, r: real, p: real) {
    0.0 < p && p * p + q * p == q * r
  }

  /** The part of an old estimate that one update can leave, at most. */
  ghost function Memory(q: real, r: real): (m: real)
    requires 0.0 < q && 0.0 < r
    ensures 0.0 < m && m < 1.0 && m * (q + r) == r
  {
    QuotientLaw(r, q + r, r / (q + r));
    ProperFraction(r, q + r, r / (q + r));
    r / (q + r)
  }

  /** The part of the distance to the settled covariance that one update can leave, at most. */
  ghost function Shrink(q: real, r: real): (shrink: real)
    requires 0.0 < q && 0.0 < r
    ensures 0.0 < shrink && shrink < 1.0
  {
    Positive(Memory(q, r), Memory(q, r));
    ScaledUp(Memory(q, r), 1.0, Memory(q, r));
    Memory(q, r) * Memory(q, r)
  }

  lemma {:induction false} SettledAlgebra(settled: real, q: real, r: real, t: real, tr: real, rest: real, rt: real)
    requires t == settled + q && tr == t + r && settled * settled + q * settled == q * r
    requires rest * tr == r && 0.0 < tr && rt == rest * t
    ensures settled == rt
  {
    OfSum(settled, settled, q, t);
    OfSum(settled, t, r, tr);
    OfSum(r, settled, q, t);
    Regrouped(t, rest, tr, rt, r);
    Cancel(settled, rt, tr);
  }

  lemma {:induction false} ContractAlgebra(s: real, t: real, r: real, sr: real, tr: real, k: real, kc: real,
        rest: real, c: real, d: real)
    requires sr == s + r && tr == t + r && d == s - t && kc == 1.0 - k && c == kc * rest
    requires kc * sr == r && rest * tr == r
    ensures r * k - rest * t == c * d
  {
    OfDifference(c, sr, tr, d);
    Regrouped(rest, kc, sr, c, r);
    Regrouped(kc, rest, tr, c, r);
    OfDifference(r, 1.0, k, kc);
    OfSum(rest, t, r, tr);
  }

  /** An update multiplies the distance to the settled covariance by one factor, the complement of
      the gain times the complement of the settled gain: positive, and at most the shrinking factor. */
  lemma {:induction false} CovarianceContracts(f: Filter, z: real, settled: real, d: real) returns (c: real)
    requires Healthy(f) && Settled(f.q, f.r, settled) && d == f.p - settled
    ensures 0.0 < c && c <= Shrink(f.q, f.r) && Updated(f, z).p - settled == c * d
  {
    c := ContractFor(f.p, f.q, f.r, settled, Gain(f.p + f.q, f.r), Memory(f.q, f.r), d);
  }

  lemma {:induction false} ContractFor(p: real, q: real, r: real, settled: real, k: real, m: real, d: real)
        returns (c: real)
    requires 0.0 < p && 0.0 < q && 0.0 < r && Settled(q, r, settled) && d == p - settled
    requires k == (p + q) / (p + q + r) && m * (q + r) == r
    ensures 0.0 < c && c <= m * m && Reduced(p + q, 1.0 - k) - settled == c * d
  {
    var s, t, kc := p + q, settled + q, 1.0 - k;
    var sr, tr := s + r, t + r;
    var rest := r / tr;
    QuotientLaw(s, sr, k);
    QuotientLaw(r, tr, rest);
    c := kc * rest;
    ContractWhole(settled, q, r, s, t, sr, tr, k, kc, rest, m, c, d);
  }

  lemma {:induction false} ContractWhole(settled: real, q: real, r: real, s: real, t: real, sr: real, tr: real,
        k: real, kc: real, rest: real, m: real, c: real, d: real)
    requires 0.0 < q && 0.0 < r && 0.0 < settled && settled * settled + q * settled == q * r
    requires q < s && t == settled + q && sr == s + r && tr == t + r && d == s - t
    requires k * sr == s && rest * tr == r && m * (q + r) == r && kc == 1.0 - k && c == kc * rest
    ensures 0.0 < c && c <= m * m && Reduced(s, kc) - settled == c * d
  {
    GainAlgebra(s, r, sr, k, kc);
    SettledAlgebra(settled, q, r, t, tr, rest, rest * t);
    ContractAlgebra(s, t, r, sr, tr, k, kc, rest, c, d);
    SmallerFraction(r, q + r, sr, m, kc);
    SmallerFraction(r, q + r, tr, m, rest);
    Bounded(kc, rest, m, m);
  }

  ghost function Distance(a: real, b: real): real {
    if a < b then b - a else a - b
  }

  /** p' is on the same side of the settled covariance as p, no farther out, and at most the given
      factor of the distance away. */
  ghost predicate Nearer(p': real, p: real, settled: real, factor: real) {
    && Distance(p', settled) <= factor * Distance(p, settled)
    && (settled <= p ==> settled <= p' && p' <= p) && (p <= settled ==> p <= p' && p' <= settled)
  }

  lemma {:induction false} FactorAlgebra(c: real, mm: real, d: real, e: real)
    requires 0.0 < c && c <= mm && mm < 1.0 && !(e < 0.0) && (d == e || d == -e)
    ensures !(c * e < 0.0) && c * e <= mm * e && c * e <= e
    ensures if d == e then c * d == c * e else c * d == -(c * e)
  {
    ScaledUp(c, mm, e);
    ScaledUp(c, 1.0, e);
    if d == e {
      Same(c, d, e);
    } else {
      Opposite(c, d, e);
    }
  }

  lemma {:induction false} NearerByFactor(c: real, mm: real, p': real, p: real, settled: real, d: real)
    requires 0.0 < c && c <= mm && mm < 1.0 && d == p - settled && p' - settled == c * d
    ensures Nearer(p', p, settled, mm)
  {
    FactorAlgebra(c, mm, d, Distance(p, settled));
  }

  lemma {:induction false} ChainAlgebra(a: real, b: real, c: real, m: real, w: real, mc: real, mw: real)
    requires 0.0 < w && a <= w * b && mc == m * c && b <= mc && mw == m * w
    ensures a <= mw * c
  {
    var gap := mc - b;
    Nonneg(w, gap);
    OfDifference(w, mc, b, gap);
    Regrouped(w, m, c, mw, mc);
  }

  lemma {:induction false} NearerChains(p2: real, p1: real, p0: real, settled: real, m: real, w: real)
    requires 0.0 < w && Nearer(p2, p1, settled, w) && Nearer(p1, p0, settled, m)
    ensures Nearer(p2, p0, settled, m * w)
  {
    var d0 := Distance(p0, settled);
    ChainAlgebra(Distance(p2, settled), Distance(p1, settled), d0, m, w, m * d0, m * w);
  }

  lemma {:induction false} CovarianceStep(f: Filter, z: real, settled: real)
    requires Healthy(f) && Settled(f.q, f.r, settled)
    ensures Nearer(Updated(f, z).p, f.p, settled, Shrink(f.q, f.r))
  {
    var d, p' := f.p - settled, Updated(f, z).p;
    var c := CovarianceContracts(f, z, settled, d);
    NearerByFactor(c, Shrink(f.q, f.r), p', f.p, settled, d);
  }

  /** Whatever is measured, the covariance approaches the settled one geometrically and never
      crosses it: from above it only falls, from below it only rises. */
  lemma {:induction false} CovarianceSettles(f: Filter, zs: seq<real>, settled: real)
    requires Healthy(f) && Settled(f.q, f.r, settled)
    ensures Nearer(UpdatedAll(f, zs).p, f.p, settled, Power(Shrink(f.q, f.r), |zs|))
    decreases |zs|
  {
    var m := Shrink(f.q, f.r);
    if zs == [] {
      assert Power(m, 0) == 1.0;
    } else {
      var g := Updated(f, zs[0]);
      GainAndCovariance(f, zs[0]);
      CovarianceStep(f, zs[0], settled);
      CovarianceSettles(g, zs[1..], settled);
      PowerPositive(m, |zs| - 1);
      NearerChains(UpdatedAll(f, zs).p, g.p, f.p, settled, m, Power(m, |zs| - 1));
    }
  }

  /** The filter as it is shipped starts above its settled covariance, so it only falls toward it. */
  lemma {:induction false} DefaultFilterFalls(zs: seq<real>, z: real, settled: real)
    requires Settled(0.05, 2.0, settled)
    ensures settled <= UpdatedAll(DEFAULT_FILTER, zs + [z]).p
    ensures UpdatedAll(DEFAULT_FILTER, zs + [z]).p <= UpdatedAll(DEFAULT_FILTER, zs).p <= 1.0
  {
    if 1.0 < settled {
      ScaledUp(1.0, settled, settled);
    }
    CovarianceSettles(DEFAULT_FILTER, zs, settled);
    RunStaysHealthy(DEFAULT_FILTER, zs);
    UpdatedAllSnoc(DEFAULT_FILTER, zs, z);
    CovarianceStep(UpdatedAll(DEFAULT_FILTER, zs), z, settled);
  }

  lemma {:induction false} RunStaysHealthy(f: Filter, zs: seq<real>)
    requires Healthy(f)
    ensures var g := UpdatedAll(f, zs); Healthy(g) && g.q == f.q && g.r == f.r
    decreases |zs|
  {
    if zs != [] {
      GainAndCovariance(f, zs[0]);
      RunStaysHealthy(Updated(f, zs[0]), zs[1..]);
    }
  }

  lemma {:induction false} UpdatedAllSnoc(f: Filter, zs: seq<real>, z: real)
    requires Healthy(f)
    ensures Healthy(UpdatedAll(f, zs)) && UpdatedAll(f, zs + [z]) == Updated(UpdatedAll(f, zs), z)
    decreases |zs|
  {
    if zs == [] {
      assert ([] + [z])[1..] == [];
      assert zs + [z] == [z];
    } else {
      GainAndCovariance(f, zs[0]);
      UpdatedAllSnoc(Updated(f, zs[0]), zs[1..], z);
      assert (zs + [z])[1..] == zs[1..] + [z];
    }
  }

  /** One update of the covariance with the shipped noises, multiplied out. */
  lemma {:induction false} DefaultUpdate(f: Filter, z: real)
    requires Healthy(f) && f.q == 0.05 && f.r == 2.0
    ensures Updated(f, z).p * (f.p + 2.05) == 2.0 * (f.p + 0.05)
  {
    var s, k := f.p + 0.05, Gain(f.p + f.q, f.r);
    GainAndCovariance(f, z);
    QuotientLaw(s, s + 2.0, k);
    Regrouped(2.0, k, s + 2.0, 2.0 * k, s);
  }

  lemma {:induction false} ChordTimesSum(d: real, dd: real, line: real, high: real, sum: real)
    requires dd == d * d && line == 0.73 * d && high == 0.2923 + line && sum == d + 2.3423
    ensures high * sum == 0.73 * dd + 2.002179 * d + 0.68465429
  {
    OfSum(high, d, 2.3423, sum);
    OfSum(d, 0.2923, line, high);
    Regrouped(0.73, d, d, line, dd);
  }

  lemma Square(d: real)
    ensures !(d * d < 0.0)
  {
    if d < 0.0 {
      Nonneg(-d, -d);
    }
  }

  lemma {:induction false} Quotients(a: real, b: real, c: real, ac: real, bc: real)
    requires 0.0 < c && ac == a * c && bc == b * c && ac <= bc
    ensures a <= b
  {
    Cancel(a, b, c);
  }

  lemma {:induction false} DefaultBelowChord(d: real, p': real, sum: real, product: real) returns (high: real)
    requires -0.0003 <= d && sum == d + 2.3423 && product == p' * sum && product == 2.0 * d + 0.6846
    ensures high == 0.2923 + 0.73 * d && p' <= high
  {
    var dd, line, target := d * d, 0.73 * d, 0.73 * (d * d) + 2.002179 * d + 0.68465429;
    high := 0.2923 + line;
    Square(d);
    ChordTimesSum(d, dd, line, high, sum);
    Quotients(p', high, sum, product, target);
  }

  /** How far the covariance of the shipped filter may be above 0.2923 after n updates. */
  ghost function Enclosure(n: nat): (e: real)
    ensures 0.0 < e
  {
    if n == 0 then 0.7077 else 0.73 * Enclosure(n - 1)
  }

  lemma {:induction false} EnclosureFalls(n: nat, m: nat)
    requires n <= m
    ensures Enclosure(m) <= Enclosure(n)
  {
    if n < m {
      EnclosureFalls(n, m - 1);
    }
  }

  lemma EnclosureOf22()
    ensures Enclosure(22) < 0.0007
  {
    assert Enclosure(4) < 0.200976 by { assert Enclosure(2) == 0.37713333; }
    assert Enclosure(8) < 0.057075 by { assert Enclosure(6) < 0.1071002; }
    assert Enclosure(12) < 0.016209 by { assert Enclosure(10) < 0.0304153; }
    assert Enclosure(16) < 0.0046032 by { assert Enclosure(14) < 0.0086378; }
    assert Enclosure(20) < 0.00130726 by { assert Enclosure(18) < 0.00245305; }
  }

  /** What that means in numbers: fed anything at all, the covariance of the shipped filter starts at
      1, never falls below 0.292, and is below 0.293 from the 22nd update on. */
  lemma {:induction false} DefaultFilterEnclosed(zs: seq<real>)
    ensures 0.292 <= UpdatedAll(DEFAULT_FILTER, zs).p <= 0.2923 + Enclosure(|zs|)
    ensures |zs| >= 22 ==> UpdatedAll(DEFAULT_FILTER, zs).p < 0.293
    decreases |zs|
  {
    if zs != [] {
      var before, z := zs[..|zs| - 1], zs[|zs| - 1];
      var f := UpdatedAll(DEFAULT_FILTER, before);
      DefaultFilterEnclosed(before);
      RunStaysHealthy(DEFAULT_FILTER, before);
      UpdatedAllSnoc(DEFAULT_FILTER, before, z);
      assert zs == before + [z];
      var p', sum, product := Updated(f, z).p, f.p + 2.05, 2.0 * (f.p + 0.05);
      DefaultUpdate(f, z);
      Quotients(0.292, p', sum, 0.292 * sum, product);
      var high := DefaultBelowChord(f.p - 0.2923, p', sum, product);
      if |zs| >= 22 {
        EnclosureFalls(22, |zs|);
        EnclosureOf22();
      }
    }
  }

  // ---------- The estimate ----------

  /** The estimate never leaves the hull of its start and all measurements. */
  lemma {:induction false} EstimateStaysInHull(f: Filter, zs: seq<real>, lo: real, hi: real)
    requires Healthy(f) && lo <= f.x <= hi
    requires forall i :: 0 <= i < |zs| ==> lo <= zs[i] <= hi
    ensures lo <= UpdatedAll(f, zs).x <= hi
    decreases |zs|
  {
    if zs != [] {
      GainAndCovariance(f, zs[0]);
      EstimateStaysBetween(f, zs[0], lo, hi);
      EstimateStaysInHull(Updated(f, zs[0]), zs[1..], lo, hi);
    }
  }

  /** The shipped filter starts at 0, so its estimate stays in the hull of 0 and all measurements. */
  lemma {:induction false} ShippedEstimateStaysInHull(zs: seq<real>, lo: real, hi: real)
    requires lo <= 0.0 <= hi && forall i :: 0 <= i < |zs| ==> lo <= zs[i] <= hi
    ensures lo <= UpdatedAll(DEFAULT_FILTER, zs).x <= hi
  {
    EstimateStaysInHull(DEFAULT_FILTER, zs, lo, hi);
  }

  /** The first update of the shipped filter in numbers: 21/61 of the measurement are taken over. */
  lemma {:induction false} ShippedFirstUpdate(z: real)
    ensures var g := Updated(DEFAULT_FILTER, z);
      61.0 * g.k == 21.0 && 61.0 * g.x == 21.0 * z && 61.0 * g.p == 42.0 && g.q == 0.05 && g.r == 2.0
  {
    GainAndCovariance(DEFAULT_FILTER, z);
    QuotientLaw(1.05, 3.05, Gain(1.05, 2.0));
    var k := Gain(1.05, 2.0);
    assert Updated(DEFAULT_FILTER, z).x == 0.0 + k * (z - 0.0);
    Same(z, k, 21.0 / 61.0);
  }

  /** The product of (1 - gain) over a run. */
  ghost function Forgetting(f: Filter, zs: seq<real>): real
    requires Healthy(f)
    decreases |zs|
  {
    if zs == [] then 1.0
    else
      GainAndCovariance(f, zs[0]);
      (1.0 - Updated(f, zs[0]).k) * Forgetting(Updated(f, zs[0]), zs[1..])
  }

  lemma {:induction false} OnlyTheEstimateDiffers(f: Filter, x: real, zs: seq<real>)
    requires Healthy(f)
    ensures UpdatedAll(f.(x := x), zs).(x := 0.0) == UpdatedAll(f, zs).(x := 0.0)
    decreases |zs|
  {
    if zs != [] {
      GainAndCovariance(f, zs[0]);
      OnlyTheEstimateDiffers(Updated(f, zs[0]), Updated(f.(x := x), zs[0]).x, zs[1..]);
    }
  }

  lemma {:induction false} OneDifference(k: real, kc: real, z: real, x: real, y: real, dx: real, dy: real, gap: real)
    requires kc == 1.0 - k && dx == z - x && dy == z - y && gap == x - y
    ensures Corrected(x, k, dx) - Corrected(y, k, dy) == kc * gap
  {
    OfDifference(k, dy, dx, gap);
    OfDifference(gap, 1.0, k, kc);
  }

  lemma {:induction false} GapAfterUpdate(f: Filter, x: real, z: real, gap: real) returns (x': real, gap': real)
    requires Healthy(f) && gap == x - f.x
    ensures Updated(f.(x := x), z) == Updated(f, z).(x := x')
    ensures gap' == x' - Updated(f, z).x && gap' == (1.0 - Updated(f, z).k) * gap
  {
    var k := Gain(f.p + f.q, f.r);
    x' := Corrected(x, k, z - x);
    OneDifference(k, 1.0 - k, z, x, f.x, z - x, z - f.x, gap);
    gap' := (1.0 - k) * gap;
  }

  lemma {:induction false} ForgettingStep(f: Filter, zs: seq<real>, kc: real, gap: real, gap': real)
    requires Healthy(f) && zs != [] && Healthy(Updated(f, zs[0]))
    requires kc == 1.0 - Updated(f, zs[0]).k && gap' == kc * gap
    ensures Forgetting(Updated(f, zs[0]), zs[1..]) * gap' == Forgetting(f, zs) * gap
  {
    var rest := Forgetting(Updated(f, zs[0]), zs[1..]);
    assert Forgetting(f, zs) == rest * kc;
    Regrouped(rest, kc, gap, Forgetting(f, zs), gap');
  }

  lemma {:induction false} DifferenceShrinks(f: Filter, x: real, zs: seq<real>, gap: real)
    requires Healthy(f) && gap == x - f.x
    ensures UpdatedAll(f.(x := x), zs).x - UpdatedAll(f, zs).x == Forgetting(f, zs) * gap
    decreases |zs|
  {
    if zs == [] {
      assert Forgetting(f, zs) == 1.0;
    } else {
      GainAndCovariance(f, zs[0]);
      var x', gap' := GapAfterUpdate(f, x, zs[0], gap);
      DifferenceShrinks(Updated(f, zs[0]), x', zs[1..], gap');
      ForgettingStep(f, zs, 1.0 - Updated(f, zs[0]).k, gap, gap');
    }
  }

  lemma {:induction false} ComplementWithinMemory(f: Filter, z: real) returns (kc: real)
    requires Healthy(f)
    ensures kc == 1.0 - Updated(f, z).k && 0.0 < kc && kc <= Memory(f.q, f.r)
  {
    var s, k := f.p + f.q, Gain(f.p + f.q, f.r);
    QuotientLaw(s, s + f.r, k);
    GainAlgebra(s, f.r, s + f.r, k, 1.0 - k);
    SmallerFraction(f.r, f.q + f.r, s + f.r, Memory(f.q, f.r), 1.0 - k);
    kc := 1.0 - k;
  }

  lemma {:induction false} ForgettingIsGeometric(f: Filter, zs: seq<real>)
    requires Healthy(f)
    ensures 0.0 < Forgetting(f, zs) && Forgetting(f, zs) <= Power(Memory(f.q, f.r), |zs|)
    decreases |zs|
  {
    if zs != [] {
      var m, g := Memory(f.q, f.r), Updated(f, zs[0]);
      GainAndCovariance(f, zs[0]);
      var kc := ComplementWithinMemory(f, zs[0]);
      ForgettingIsGeometric(g, zs[1..]);
      var w, power := Forgetting(g, zs[1..]), Power(m, |zs| - 1);
      Bounded(kc, w, m, power);
      assert Forgetting(f, zs) == kc * w && Power(m, |zs|) == m * power;
    }
  }

  /** Two filters that differ only in their estimate stay that way, and fed the same measurements
      the difference shrinks by the product of (1 - gain), at least geometrically. */
  lemma {:induction false} StartIsForgotten(f: Filter, x: real, zs: seq<real>, gap: real)
    requires Healthy(f) && gap == x - f.x
    ensures var g := f.(x := x);
      && UpdatedAll(g, zs).x - UpdatedAll(f, zs).x == Forgetting(f, zs) * gap
      && UpdatedAll(g, zs).(x := 0.0) == UpdatedAll(f, zs).(x := 0.0)
    ensures 0.0 < Forgetting(f, zs) && Forgetting(f, zs) <= Power(Memory(f.q, f.r), |zs|)
  {
    DifferenceShrinks(f, x, zs, gap);
    OnlyTheEstimateDiffers(f, x, zs);
    ForgettingIsGeometric(f, zs);
  }
}
