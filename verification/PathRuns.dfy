/** The windowed extremes of the per-path tracker, and what it feeds its jitter filter, over whole runs. */
module PathRuns {
  import opened Kalman
  import opened PathMetrics
  import opened RealAlgebra

  // ---------- The least RTT of the last ten seconds ----------

  /** No sample from the given one on was lower, or came more than ten seconds after the minimum. */
  ghost predicate MinimumSince(e: Path, evs: seq<Event>, from: nat) {
    forall j :: from <= j < |evs| && evs[j].Rtt? ==> e.minRtt <= evs[j].rtt && evs[j].now - e.minRttAt <= 10.0
  }

  lemma {:induction false} StepMinimum(s: Path, ev: Event)
    requires Healthy(s.jitter)
    ensures var t := Step(s, ev);
      if ev.Rtt? && (ev.rtt < s.minRtt || ev.now - s.minRttAt > 10.0) then t.minRtt == ev.rtt && t.minRttAt == ev.now
      else t.minRtt == s.minRtt && t.minRttAt == s.minRttAt
  {
  }

  lemma {:induction false} MinimumFromStart(e: Path, evs: seq<Event>)
    requires evs != [] && MinimumSince(e, evs, 1)
    requires evs[0].Rtt? ==> e.minRtt <= evs[0].rtt && evs[0].now - e.minRttAt <= 10.0
    ensures MinimumSince(e, evs, 0)
  {
  }

  /** The minimum is the one the run started with or a sample of the run, with the time it was taken; no
      sample since was lower, and none came more than ten seconds later: such a one replaces it. */
  lemma {:induction false} MinimumIsWindowed(s: Path, evs: seq<Event>)
    requires Healthy(s.jitter)
    ensures var e := Run(s, evs);
      || (e.minRtt == s.minRtt && e.minRttAt == s.minRttAt && MinimumSince(e, evs, 0))
      || exists i :: 0 <= i < |evs| && evs[i] == Rtt(e.minRtt, e.minRttAt) && MinimumSince(e, evs, i + 1)
    decreases |evs|
  {
    if evs != [] {
      StepStaysHealthy(s, evs[0]);
      StepMinimum(s, evs[0]);
      var t, e := Step(s, evs[0]), Run(s, evs);
      MinimumIsWindowed(t, evs[1..]);
      if e.minRtt == t.minRtt && e.minRttAt == t.minRttAt && MinimumSince(e, evs[1..], 0) {
        SinceShifts(e, evs, 0);
        if t.minRtt == s.minRtt && t.minRttAt == s.minRttAt {
          MinimumFromStart(e, evs);
        }
      } else {
        var i :| 0 <= i < |evs[1..]| && evs[1..][i] == Rtt(e.minRtt, e.minRttAt) && MinimumSince(e, evs[1..], i + 1);
        SinceShifts(e, evs, i + 1);
        assert evs[i + 1] == Rtt(e.minRtt, e.minRttAt);
      }
    }
  }

  lemma {:induction false} SinceShifts(e: Path, evs: seq<Event>, from: nat)
    requires evs != [] && MinimumSince(e, evs[1..], from)
    ensures MinimumSince(e, evs, from + 1)
  {
    forall j | from + 1 <= j < |evs| && evs[j].Rtt?
      ensures e.minRtt <= evs[j].rtt && evs[j].now - e.minRttAt <= 10.0
    {
      assert evs[1..][j - 1] == evs[j];
    }
  }

  // ---------- The greatest bandwidth of the last ten seconds ----------

  /** A bandwidth sample of nonzero duration. */
  predicate Samples(ev: Event) {
    ev.Bandwidth? && ev.elapsed != 0.0
  }

  /** Bits per second. */
  function Rate(ev: Event): real
    requires Samples(ev)
  {
    8.0 * ev.bytes as real / ev.elapsed
  }

  ghost predicate MaximumSince(e: Path, evs: seq<Event>, from: nat) {
    forall j :: from <= j < |evs| && Samples(evs[j]) ==>
      e.maxBandwidth >= Rate(evs[j]) && evs[j].now - e.maxBandwidthAt <= 10.0
  }

  ghost predicate IsMaximumAt(e: Path, evs: seq<Event>, i: nat) {
    i < |evs| && Samples(evs[i]) && Rate(evs[i]) == e.maxBandwidth && evs[i].now == e.maxBandwidthAt
  }

  lemma {:induction false} MaximumShifts(e: Path, evs: seq<Event>, from: nat)
    requires evs != [] && MaximumSince(e, evs[1..], from)
    ensures MaximumSince(e, evs, from + 1)
  {
    forall j | from + 1 <= j < |evs| && Samples(evs[j])
      ensures e.maxBandwidth >= Rate(evs[j]) && evs[j].now - e.maxBandwidthAt <= 10.0
    {
      assert evs[1..][j - 1] == evs[j];
    }
  }

  lemma {:induction false} StepSamples(s: Path, ev: Event)
    requires Healthy(s.jitter)
    ensures var t := Step(s, ev);
      if Samples(ev) && (Rate(ev) > s.maxBandwidth || ev.now - s.maxBandwidthAt > 10.0)
      then t.maxBandwidth == Rate(ev) && t.maxBandwidthAt == ev.now
      else t.maxBandwidth == s.maxBandwidth && t.maxBandwidthAt == s.maxBandwidthAt
    ensures Step(s, ev).observedBandwidth == if Samples(ev) then Rate(ev) else s.observedBandwidth
  {
  }

  /** The same for the maximum: eight bits to the byte, the samples that took time, and ten seconds. */
  lemma {:induction false} MaximumIsWindowed(s: Path, evs: seq<Event>)
    requires Healthy(s.jitter)
    ensures var e := Run(s, evs);
      || (e.maxBandwidth == s.maxBandwidth && e.maxBandwidthAt == s.maxBandwidthAt && MaximumSince(e, evs, 0))
      || exists i: nat :: IsMaximumAt(e, evs, i) && MaximumSince(e, evs, i + 1)
    decreases |evs|
  {
    if evs != [] {
      StepStaysHealthy(s, evs[0]);
      StepSamples(s, evs[0]);
      var t, e := Step(s, evs[0]), Run(s, evs);
      MaximumIsWindowed(t, evs[1..]);
      if e.maxBandwidth == t.maxBandwidth && e.maxBandwidthAt == t.maxBandwidthAt && MaximumSince(e, evs[1..], 0) {
        MaximumShifts(e, evs, 0);
        if Samples(evs[0]) && t.maxBandwidthAt == evs[0].now && t.maxBandwidth == Rate(evs[0]) {
          assert IsMaximumAt(e, evs, 0);
        } else {
          assert MaximumSince(e, evs, 0);
        }
      } else {
        var i: nat :| IsMaximumAt(e, evs[1..], i) && MaximumSince(e, evs[1..], i + 1);
        MaximumShifts(e, evs, i + 1);
        assert IsMaximumAt(e, evs, i + 1);
      }
    }
  }

  /** No bandwidth sample of the run comes more than ten seconds after the maximum it meets. */
  ghost predicate NeverExpires(s: Path, evs: seq<Event>)
    requires Healthy(s.jitter)
    decreases |evs|
  {
    evs == [] ||
    (&& (Samples(evs[0]) ==> evs[0].now - s.maxBandwidthAt <= 10.0)
     && (StepStaysHealthy(s, evs[0]); NeverExpires(Step(s, evs[0]), evs[1..])))
  }

  /** While nothing expires, the maximum is the greatest of its start and all samples. */
  lemma {:induction false} RunningMaximum(s: Path, evs: seq<Event>)
    requires Healthy(s.jitter) && NeverExpires(s, evs)
    ensures var e := Run(s, evs);
      && e.maxBandwidth >= s.maxBandwidth
      && (forall i :: 0 <= i < |evs| && Samples(evs[i]) ==> e.maxBandwidth >= Rate(evs[i]))
      && (e.maxBandwidth == s.maxBandwidth ||
          exists i :: 0 <= i < |evs| && Samples(evs[i]) && Rate(evs[i]) == e.maxBandwidth)
    decreases |evs|
  {
    if evs != [] {
      StepStaysHealthy(s, evs[0]);
      StepSamples(s, evs[0]);
      var e := Run(s, evs);
      RunningMaximum(Step(s, evs[0]), evs[1..]);
      forall i | 0 <= i < |evs| && Samples(evs[i])
        ensures e.maxBandwidth >= Rate(evs[i])
      {
        if i > 0 {
          assert evs[1..][i - 1] == evs[i];
        }
      }
      if i :| 0 <= i < |evs[1..]| && Samples(evs[1..][i]) && Rate(evs[1..][i]) == e.maxBandwidth {
        assert Samples(evs[i + 1]) && Rate(evs[i + 1]) == e.maxBandwidth;
      }
    }
  }

  // ---------- What the jitter filter is fed ----------

  /** Milliseconds between each RTT sample and the smoothed RTT it moves, an eighth of the way. */
  ghost function Deviations(s: Path, evs: seq<Event>): seq<real>
    requires Healthy(s.jitter)
    decreases |evs|
  {
    if evs == [] then []
    else
      StepStaysHealthy(s, evs[0]);
      var rest := Deviations(Step(s, evs[0]), evs[1..]);
      if evs[0].Rtt? then [875.0 * Abs(evs[0].rtt - s.smoothedRtt)] + rest else rest
  }

  /** The filter of the tracker is the jitter filter run on these deviations. */
  lemma {:induction false} JitterIsFiltered(s: Path, evs: seq<Event>)
    requires Healthy(s.jitter)
    ensures Run(s, evs).jitter == UpdatedAll(s.jitter, Deviations(s, evs))
    decreases |evs|
  {
    if evs != [] {
      StepStaysHealthy(s, evs[0]);
      var rest := Deviations(Step(s, evs[0]), evs[1..]);
      JitterIsFiltered(Step(s, evs[0]), evs[1..]);
      if evs[0].Rtt? {
        var z := 875.0 * Abs(evs[0].rtt - s.smoothedRtt);
        assert Deviations(s, evs)[1..] == rest;
        assert Abs(evs[0].rtt - (s.smoothedRtt * 0.875 + evs[0].rtt * 0.125)) * 1000.0 == z;
      }
    }
  }

  /** What a fresh tracker makes of one RTT sample, in numbers. */
  lemma {:induction false} FirstSample(start: real, rtt: real, now: real)
    ensures var t := Step(NewPath(start), Rtt(rtt, now));
      && 8.0 * t.smoothedRtt == 0.35 + rtt
      && 61.0 * t.jitter.x == 21.0 * (875.0 * Abs(rtt - 0.05)) && 61.0 * t.jitter.p == 42.0
  {
    var s, z := NewPath(start), 875.0 * Abs(rtt - 0.05);
    assert Abs(rtt - (0.05 * 0.875 + rtt * 0.125)) * 1000.0 == z;
    ShippedFirstUpdate(z);
  }
}
