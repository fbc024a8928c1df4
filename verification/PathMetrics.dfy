/** The per-path congestion tracker (aetherbond-core/src/congestion/mod.rs, BbrPathMetrics).
    Durations and clock readings are real numbers of seconds; a cast to an integer is a floor. */
module PathMetrics {
  import opened Kalman
  import opened RealAlgebra

  const MIN_WINDOW: nat := 5888  // 1472 * 4
  const EXPIRY: real := 10.0
  const INITIAL_RTT: real := 0.05

  datatype Path = Path(
    smoothedRtt: real, minRtt: real, minRttAt: real,
    observedBandwidth: real, maxBandwidth: real, maxBandwidthAt: real,
    lossRate: real, jitter: Filter,
    cwnd: nat, pacing: real)

  datatype Event =
    | Rtt(rtt: real, now: real)
    | Bandwidth(bytes: nat, elapsed: real, now: real)
    | Transmission(lost: bool)

  function NewPath(now: real): Path {
    Path(INITIAL_RTT, INITIAL_RTT, now, 0.0, 1_000_000.0, now, 0.0, DEFAULT_FILTER, 14720, 1_000_000.0)
  }

  // ---------- The window ----------

  predicate BuildsUp(minRtt: real, smoothedRtt: real) {
    smoothedRtt > minRtt * 1.3 + 0.015
  }

  predicate QueueBuildup(s: Path) {
    BuildsUp(s.minRtt, s.smoothedRtt)
  }

  /** The cast of a float to usize. */
  function Truncate(x: real): nat {
    if x < 0.0 then 0 else x.Floor
  }

  function WindowFor(bdp: real, buildup: bool): nat {
    var bytes := Truncate(bdp) as real;
    var target := if buildup then Truncate(bytes * 1.25) else Truncate(bytes * 2.0);
    if target < MIN_WINDOW then MIN_WINDOW else target
  }

  function PacingFor(bandwidth: real, buildup: bool): real {
    if buildup then bandwidth * 0.75 else bandwidth * 1.25
  }

  function BandwidthDelay(bandwidth: real, minRtt: real): real {
    bandwidth * minRtt / 8.0
  }

  function TargetWindow(s: Path): nat {
    WindowFor(BandwidthDelay(s.maxBandwidth, s.minRtt), BuildsUp(s.minRtt, s.smoothedRtt))
  }

  function TargetPacing(s: Path): real {
    PacingFor(s.maxBandwidth, BuildsUp(s.minRtt, s.smoothedRtt))
  }

  function Recalculated(s: Path): Path {
    s.(cwnd := TargetWindow(s), pacing := TargetPacing(s))
  }

  // ---------- The samples ----------

  ghost function AfterRtt(s: Path, rtt: real, now: real): Path
    requires Healthy(s.jitter)
  {
    var smoothed := s.smoothedRtt * 0.875 + rtt * 0.125;
    var low := rtt < s.minRtt || now - s.minRttAt > EXPIRY;
    Recalculated(s.(smoothedRtt := smoothed,
                    minRtt := if low then rtt else s.minRtt,
                    minRttAt := if low then now else s.minRttAt,
                    jitter := Updated(s.jitter, Abs(rtt - smoothed) * 1000.0)))
  }

  ghost function AfterBandwidth(s: Path, bytes: nat, elapsed: real, now: real): Path {
    if elapsed == 0.0 then s
    else
      var bps := bytes as real * 8.0 / elapsed;
      var high := bps > s.maxBandwidth || now - s.maxBandwidthAt > EXPIRY;
      Recalculated(s.(observedBandwidth := bps,
                      maxBandwidth := if high then bps else s.maxBandwidth,
                      maxBandwidthAt := if high then now else s.maxBandwidthAt))
  }

  ghost function AfterTransmission(s: Path, lost: bool): Path {
    s.(lossRate := s.lossRate * 0.95 + (if lost then 0.05 else 0.0))
  }

  ghost function Step(s: Path, ev: Event): Path
    requires Healthy(s.jitter)
  {
    match ev
    case Rtt(rtt, now) => AfterRtt(s, rtt, now)
    case Bandwidth(bytes, elapsed, now) => AfterBandwidth(s, bytes, elapsed, now)
    case Transmission(lost) => AfterTransmission(s, lost)
  }

  lemma StepStaysHealthy(s: Path, ev: Event)
    requires Healthy(s.jitter)
    ensures Healthy(Step(s, ev).jitter)
  {
    if ev.Rtt? {
      GainAndCovariance(s.jitter, Abs(ev.rtt - (s.smoothedRtt * 0.875 + ev.rtt * 0.125)) * 1000.0);
    }
  }

  ghost function Run(s: Path, evs: seq<Event>): Path
    requires Healthy(s.jitter)
    decreases |evs|
  {
    if evs == [] then s
    else
      StepStaysHealthy(s, evs[0]);
      Run(Step(s, evs[0]), evs[1..])
  }

  // ---------- The class ----------

  class BbrPathMetrics {
    var smoothedRtt: real
    var minRtt: real
    var minRttAt: real
    var observedBandwidth: real
    var maxBandwidth: real
    var maxBandwidthAt: real
    var lossRate: real
    const jitterFilter: JitterKalmanFilter
    var cwnd: nat
    var pacing: real

    ghost function Model(): Path
      reads this, jitterFilter
    {
      Path(smoothedRtt, minRtt, minRttAt, observedBandwidth, maxBandwidth, maxBandwidthAt, lossRate,
           jitterFilter.Model(), cwnd, pacing)
    }

    constructor (now: real)
      ensures Model() == NewPath(now) && fresh(jitterFilter)
    {
      smoothedRtt, minRtt, minRttAt := INITIAL_RTT, INITIAL_RTT, now;
      observedBandwidth, maxBandwidth, maxBandwidthAt := 0.0, 1_000_000.0, now;
      lossRate, cwnd, pacing := 0.0, 1472 * 10, 1_000_000.0;
      jitterFilter := new JitterKalmanFilter(0.05, 2.0);
    }

    method RegisterRttSample(rtt: real, now: real)
      requires Healthy(jitterFilter.Model())
      modifies this, jitterFilter
      ensures Model() == AfterRtt(old(Model()), rtt, now)
      ensures Healthy(jitterFilter.Model())
    {
      smoothedRtt := smoothedRtt * 0.875 + rtt * 0.125;
      if rtt < minRtt || now - minRttAt > EXPIRY {
        minRtt := rtt;
        minRttAt := now;
      }
      var deviation := Abs(rtt - smoothedRtt) * 1000.0;
      var estimate := jitterFilter.Update(deviation);
      RecalculateCongestionWindow();
    }

    method RegisterBandwidthSample(bytes: nat, elapsed: real, now: real)
      modifies this
      ensures Model() == AfterBandwidth(old(Model()), bytes, elapsed, now)
    {
      if elapsed == 0.0 {
        return;
      }
      var bps := bytes as real * 8.0 / elapsed;
      observedBandwidth := bps;
      if bps > maxBandwidth || now - maxBandwidthAt > EXPIRY {
        maxBandwidth := bps;
        maxBandwidthAt := now;
      }
      RecalculateCongestionWindow();
    }

    method RegisterTransmission(lost: bool)
      modifies this`lossRate
      ensures Model() == AfterTransmission(old(Model()), lost)
      ensures if lost then 1.0 - lossRate == 0.95 * (1.0 - old(lossRate)) else lossRate == 0.95 * old(lossRate)
    {
      var alpha := 0.05;
      var sample := if lost then 1.0 else 0.0;
      lossRate := lossRate * (1.0 - alpha) + sample * alpha;
    }

    method DetectQueueBuildup() returns (flag: bool)
      ensures flag <==> QueueBuildup(Model())
    {
      var threshold := minRtt * 1.3 + 0.015;
      flag := smoothedRtt > threshold;
    }

    method RecalculateCongestionWindow()
      modifies this`cwnd, this`pacing
      ensures Model() == Recalculated(old(Model()))
    {
      var buildup := DetectQueueBuildup();
      cwnd := ScaleWindow(BandwidthDelay(maxBandwidth, minRtt), buildup);
      pacing := ScalePacing(maxBandwidth, buildup);
    }
  }

  method ScaleWindow(bdp: real, buildup: bool) returns (cwnd: nat)
    ensures cwnd == WindowFor(bdp, buildup)
  {
    var bytes := Truncate(bdp);
    var multiplier := if buildup then 1.25 else 2.0;
    cwnd := Truncate(bytes as real * multiplier);
    if cwnd < 1472 * 4 {
      cwnd := 1472 * 4;
    }
  }

  method ScalePacing(bandwidth: real, buildup: bool) returns (pacing: real)
    ensures pacing == PacingFor(bandwidth, buildup)
  {
    var gain := if buildup then 0.75 else 1.25;
    pacing := bandwidth * gain;
  }

  // ---------- Window coherence ----------

  /** The window and the pacing rate are what recalculation would give now. */
  ghost predicate Coherent(s: Path) {
    s.cwnd == TargetWindow(s) && s.pacing == TargetPacing(s)
  }

  /** A sample that makes the tracker recalculate. */
  predicate Counts(ev: Event) {
    ev.Rtt? || (ev.Bandwidth? && ev.elapsed != 0.0)
  }

  lemma {:induction false} CoherenceStays(s: Path, evs: seq<Event>)
    requires Healthy(s.jitter) && Coherent(s)
    ensures Coherent(Run(s, evs))
    decreases |evs|
  {
    if evs != [] {
      StepStaysHealthy(s, evs[0]);
      StepCoherence(s, evs[0]);
      CoherenceStays(Step(s, evs[0]), evs[1..]);
    }
  }

  lemma {:induction false} StepCoherence(s: Path, ev: Event)
    requires Healthy(s.jitter)
    ensures Counts(ev) || Coherent(s) ==> Coherent(Step(s, ev))
  {
    match ev
    case Rtt(rtt, now) => RecalculatedIsCoherent(AfterRtt(s, rtt, now));
    case Bandwidth(_, _, _) => RecalculatedIsCoherent(Step(s, ev));
    case Transmission(_) =>
  }

  lemma RecalculatedIsCoherent(s: Path)
    ensures Coherent(Recalculated(s))
  {
  }

  lemma {:induction false} CoherenceStarts(s: Path, evs: seq<Event>, i: nat)
    requires Healthy(s.jitter) && i < |evs| && Counts(evs[i])
    ensures Coherent(Run(s, evs))
    decreases |evs|
  {
    StepStaysHealthy(s, evs[0]);
    if i == 0 {
      StepCoherence(s, evs[0]);
      CoherenceStays(Step(s, evs[0]), evs[1..]);
    } else {
      CoherenceStarts(Step(s, evs[0]), evs[1..], i - 1);
    }
  }

  lemma {:induction false} NothingCounted(s: Path, evs: seq<Event>)
    requires Healthy(s.jitter) && forall i :: 0 <= i < |evs| ==> !Counts(evs[i])
    ensures Run(s, evs) == s.(lossRate := Run(s, evs).lossRate)
    decreases |evs|
  {
    if evs != [] {
      StepStaysHealthy(s, evs[0]);
      NothingCounted(Step(s, evs[0]), evs[1..]);
    }
  }

  /** A fresh tracker's window (ten frames) and pacing rate are not what its own rule gives; they become so
      with the first sample that counts, and stay so from then on, whatever else is registered. */
  lemma {:induction false} CoherentFromFirstSample(now: real, evs: seq<Event>)
    ensures Coherent(Run(NewPath(now), evs)) <==> exists i :: 0 <= i < |evs| && Counts(evs[i])
    ensures (forall i :: 0 <= i < |evs| ==> !Counts(evs[i])) ==>
      var e := Run(NewPath(now), evs);
      && e.maxBandwidth == 1_000_000.0 && e.minRtt == 0.05 && e.smoothedRtt == 0.05
      && e.cwnd == 14_720 && TargetWindow(e) == 12_500 && e.pacing == 1_000_000.0 && TargetPacing(e) == 1_250_000.0
  {
    var s := NewPath(now);
    if i :| 0 <= i < |evs| && Counts(evs[i]) {
      CoherenceStarts(s, evs, i);
    } else {
      NothingCounted(s, evs);
      var e := Run(s, evs);
      assert BandwidthDelay(e.maxBandwidth, e.minRtt) == 6250.0;
      assert TargetWindow(e) == 12500;
    }
  }

  /** Durations are not negative. */
  predicate Measured(ev: Event) {
    && (ev.Rtt? ==> ev.rtt >= 0.0)
    && (ev.Bandwidth? ==> ev.elapsed >= 0.0)
  }

  lemma {:induction false} MeasuresStay(s: Path, evs: seq<Event>)
    requires Healthy(s.jitter) && s.maxBandwidth >= 0.0 && s.minRtt >= 0.0
    requires forall i :: 0 <= i < |evs| ==> Measured(evs[i])
    ensures Run(s, evs).maxBandwidth >= 0.0 && Run(s, evs).minRtt >= 0.0
    decreases |evs|
  {
    if evs != [] {
      StepStaysHealthy(s, evs[0]);
      if evs[0].Bandwidth? && evs[0].elapsed != 0.0 {
        assert evs[0].bytes as real * 8.0 / evs[0].elapsed >= 0.0;
      }
      MeasuresStay(Step(s, evs[0]), evs[1..]);
    }
  }

  /** The window is four frames or the given multiple of the bandwidth-delay product, up to rounding. */
  ghost predicate IsWindow(cwnd: nat, multiple: real, bdp: real) {
    && 5888 <= cwnd && (cwnd == 5888 || cwnd as real <= multiple * bdp)
    && cwnd as real > multiple * bdp - multiple - 1.0
  }

  lemma {:induction false} WindowBounds(bdp: real)
    requires bdp >= 0.0
    ensures IsWindow(WindowFor(bdp, true), 1.25, bdp) && IsWindow(WindowFor(bdp, false), 2.0, bdp)
  {
    var bytes := bdp.Floor as real;
    assert bytes <= bdp < bytes + 1.0;
  }

  /** The window is twice the bandwidth-delay product and the pacing rate 1.25 times the bandwidth; and
      1.25 times and 0.75 times while the smoothed RTT exceeds the least one by 30 percent and 15
      milliseconds. */
  ghost predicate Sized(e: Path) {
    var bdp := e.maxBandwidth * e.minRtt / 8.0;
    if e.smoothedRtt > 1.3 * e.minRtt + 0.015
    then IsWindow(e.cwnd, 1.25, bdp) && e.pacing == 0.75 * e.maxBandwidth
    else IsWindow(e.cwnd, 2.0, bdp) && e.pacing == 1.25 * e.maxBandwidth
  }

  lemma {:induction false} CoherentIsSized(e: Path)
    requires Coherent(e) && e.maxBandwidth >= 0.0 && e.minRtt >= 0.0
    ensures Sized(e)
  {
    Nonneg(e.maxBandwidth, e.minRtt);
    WindowBounds(BandwidthDelay(e.maxBandwidth, e.minRtt));
  }

  /** From the first sample that counts on, in every run, whatever the estimates have become. */
  lemma {:induction false} RunWindowAndPacing(now: real, evs: seq<Event>, i: nat)
    requires i < |evs| && Counts(evs[i])
    requires forall i :: 0 <= i < |evs| ==> Measured(evs[i])
    ensures Sized(Run(NewPath(now), evs))
  {
    CoherenceStarts(NewPath(now), evs, i);
    MeasuresStay(NewPath(now), evs);
    CoherentIsSized(Run(NewPath(now), evs));
  }

  // ---------- The minimum ----------

  ghost predicate NeverExpires(s: Path, evs: seq<Event>)
    requires Healthy(s.jitter)
    decreases |evs|
  {
    evs == [] ||
    (&& (evs[0].Rtt? ==> evs[0].now - s.minRttAt <= 10.0)
     && (StepStaysHealthy(s, evs[0]); NeverExpires(Step(s, evs[0]), evs[1..])))
  }

  /** While nothing expires, the minimum is the least of its start and all samples, and the smoothed
      value never falls below it. */
  lemma {:induction false} RunningMinimum(s: Path, evs: seq<Event>)
    requires Healthy(s.jitter) && s.minRtt <= s.smoothedRtt && NeverExpires(s, evs)
    ensures var e := Run(s, evs);
      && e.minRtt <= e.smoothedRtt && e.minRtt <= s.minRtt
      && (forall i :: 0 <= i < |evs| && evs[i].Rtt? ==> e.minRtt <= evs[i].rtt)
      && (e.minRtt == s.minRtt || exists i :: 0 <= i < |evs| && evs[i].Rtt? && evs[i].rtt == e.minRtt)
    decreases |evs|
  {
    if evs != [] {
      StepStaysHealthy(s, evs[0]);
      var t := Step(s, evs[0]);
      RunningMinimum(t, evs[1..]);
      var e := Run(s, evs);
      if i :| 0 <= i < |evs[1..]| && evs[1..][i].Rtt? && evs[1..][i].rtt == e.minRtt {
        assert evs[i + 1].Rtt? && evs[i + 1].rtt == e.minRtt;
      }
    }
  }

  // ---------- The loss rate ----------

  /** Whatever is registered, in any run, the loss rate stays a proportion. */
  lemma {:induction false} LossRateIsProportion(s: Path, evs: seq<Event>)
    requires Healthy(s.jitter) && 0.0 <= s.lossRate <= 1.0
    ensures 0.0 <= Run(s, evs).lossRate <= 1.0
    decreases |evs|
  {
    if evs != [] {
      StepStaysHealthy(s, evs[0]);
      LossRateIsProportion(Step(s, evs[0]), evs[1..]);
    }
  }

  /** The outcomes of a run that are all the same. */
  predicate AllOutcomesAre(evs: seq<Event>, lost: bool) {
    forall i :: 0 <= i < |evs| && evs[i].Transmission? ==> evs[i].lost == lost
  }

  function Transmissions(evs: seq<Event>): nat {
    if evs == [] then 0 else (if evs[0].Transmission? then 1 else 0) + Transmissions(evs[1..])
  }

  /** The distance of the loss rate to the rate of one outcome: 1 for a loss, 0 for a success. */
  function OutcomeGap(s: Path, lost: bool): real {
    if lost then 1.0 - s.lossRate else s.lossRate
  }

  lemma {:induction false} OutcomeGapAfter(s: Path, ev: Event, lost: bool)
    requires Healthy(s.jitter) && (ev.Transmission? ==> ev.lost == lost)
    ensures OutcomeGap(Step(s, ev), lost) == (if ev.Transmission? then 0.95 else 1.0) * OutcomeGap(s, lost)
  {
  }

  lemma {:induction false} OutcomeFadesFrom(s: Path, evs: seq<Event>, lost: bool, gap: real, left: real)
    requires Healthy(s.jitter) && AllOutcomesAre(evs, lost) && gap == OutcomeGap(s, lost)
    requires left == Faded(0.95, gap, Transmissions(evs))
    ensures OutcomeGap(Run(s, evs), lost) == left
    decreases |evs|
  {
    if evs != [] {
      StepStaysHealthy(s, evs[0]);
      OutcomeGapAfter(s, evs[0], lost);
      OutcomeFadesFrom(Step(s, evs[0]), evs[1..], lost, if evs[0].Transmission? then 0.95 * gap else gap, left);
    }
  }

  /** While every transmission has the same outcome, the distance of the loss rate to that outcome's
      rate fades by a factor of 0.95 per transmission; other samples do not touch it. */
  lemma {:induction false} ConstantOutcomeFades(s: Path, evs: seq<Event>, lost: bool, gap: real, left: real)
    requires Healthy(s.jitter) && AllOutcomesAre(evs, lost) && gap == OutcomeGap(s, lost)
    requires left == Scaled(Power(0.95, Transmissions(evs)), gap)
    ensures OutcomeGap(Run(s, evs), lost) == left
  {
    FadedIsScaled(0.95, gap, Transmissions(evs), left);
    OutcomeFadesFrom(s, evs, lost, gap, left);
  }

  // ---------- The queue flag on a steady path ----------

  ghost function Decay(n: nat): (d: real)
    ensures d > 0.0
  {
    PowerPositive(0.875, n);
    Power(0.875, n)
  }

  ghost function Steady(c: real, times: seq<real>): seq<Event> {
    seq(|times|, i requires 0 <= i < |times| => Rtt(c, times[i]))
  }

  lemma {:induction false} SteadyStep(s: Path, c: real, now: real, w: real, w': real)
    requires Healthy(s.jitter) && c <= s.minRtt && s.smoothedRtt == c + w && w' == 0.875 * w
    ensures var t := Step(s, Rtt(c, now));
      Healthy(t.jitter) && t.minRtt == c && t.smoothedRtt == c + w'
  {
    StepStaysHealthy(s, Rtt(c, now));
  }

  lemma {:induction false} SteadyFrom(s: Path, c: real, times: seq<real>, w: real)
    requires Healthy(s.jitter) && c <= s.minRtt && s.smoothedRtt == c + w
    ensures var e := Run(s, Steady(c, times));
      && e.smoothedRtt == c + Faded(0.875, w, |times|)
      && (times != [] || s.minRtt == c ==> e.minRtt == c)
    decreases |times|
  {
    if times != [] {
      SteadyStep(s, c, times[0], w, 0.875 * w);
      assert Steady(c, times)[1..] == Steady(c, times[1..]);
      SteadyFrom(Step(s, Rtt(c, times[0])), c, times[1..], 0.875 * w);
    }
  }

  lemma {:induction false} DecayFalls(n: nat, m: nat)
    requires n <= m
    ensures Decay(m) <= Decay(n)
  {
    if n < m {
      DecayFalls(n, m - 1);
    }
  }

  lemma FlagOfExcess(c: real, excess: real)
    ensures BuildsUp(c, c + excess) <==> excess > 0.3 * c + 0.015
  {
  }

  /** What a steady path leaves behind: the minimum and the smoothed RTT, and the flag exactly. */
  ghost predicate SteadyState(e: Path, c: real, excess: real) {
    && e.minRtt == c && e.smoothedRtt == c + excess
    && (QueueBuildup(e) <==> excess > 0.3 * c + 0.015)
  }

  lemma {:induction false} StateOfExcess(e: Path, c: real, excess: real)
    requires e.minRtt == c && e.smoothedRtt == c + excess
    ensures SteadyState(e, c, excess)
  {
    FlagOfExcess(c, excess);
  }

  lemma {:induction false} SteadyExcess(s: Path, c: real, times: seq<real>, w: real, excess: real)
    requires Healthy(s.jitter) && c <= s.minRtt && s.smoothedRtt == c + w && times != []
    requires excess == Faded(0.875, w, |times|)
    ensures SteadyState(Run(s, Steady(c, times)), c, excess)
  {
    SteadyFrom(s, c, times, w);
    StateOfExcess(Run(s, Steady(c, times)), c, excess);
  }

  /** A fresh tracker fed one constant RTT, at any times, expired or not: the smoothed RTT and the
      minimum in closed form, and the flag exactly. */
  lemma {:induction false} SteadyPathClosedForm(start: real, c: real, times: seq<real>, w: real, excess: real)
    requires 0.0 < c <= INITIAL_RTT && times != [] && w == INITIAL_RTT - c
    requires excess == Decay(|times|) * w
    ensures SteadyState(Run(NewPath(start), Steady(c, times)), c, excess)
  {
    FadedIsPower(0.875, w, |times|);
    SteadyExcess(NewPath(start), c, times, w, excess);
  }

  lemma Decays()
    ensures Decay(9) > 0.3006 && Decay(10) < 0.2631
  {
    assert Decay(3) == 0.669921875 by { assert Decay(1) == 0.875 && Decay(2) == 0.765625; }
    assert Decay(6) == 0.875 * Decay(5) && Decay(5) == 0.875 * Decay(4) && Decay(4) == 0.875 * Decay(3);
    assert Decay(9) == 0.875 * Decay(8) && Decay(8) == 0.875 * Decay(7) && Decay(7) == 0.875 * Decay(6);
    assert Decay(10) == 0.875 * Decay(9);
  }

  lemma {:induction false} SmallExcess(c: real, w: real, n: nat) returns (excess: real)
    requires 0.0 < c <= INITIAL_RTT && w == INITIAL_RTT - c && n >= 10
    ensures excess == Decay(n) * w && excess <= 0.3 * c + 0.015
  {
    Decays();
    DecayFalls(10, n);
    excess := Decay(n) * w;
    ScaledUp(Decay(n), 0.2631, w);
  }

  /** The flag is clear after ten samples at the latest, and stays clear. */
  lemma {:induction false} FlagClearsWithinTen(start: real, c: real, times: seq<real>)
    requires 0.0 < c <= INITIAL_RTT && |times| >= 10
    ensures !QueueBuildup(Run(NewPath(start), Steady(c, times)))
  {
    var w := INITIAL_RTT - c;
    var excess := SmallExcess(c, w, |times|);
    SteadyPathClosedForm(start, c, times, w, excess);
  }

  /** Ten is the least such number: at 10 microseconds the flag is still up after nine. */
  lemma {:induction false} NineAreNotEnough(start: real, times: seq<real>)
    requires |times| == 9
    ensures QueueBuildup(Run(NewPath(start), Steady(0.00001, times)))
  {
    SteadyPathClosedForm(start, 0.00001, times, 0.04999, Decay(9) * 0.04999);
    Decays();
  }
}
