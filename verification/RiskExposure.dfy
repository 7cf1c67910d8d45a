/** Exposure accounting: the runner's warning and danger exposure, and the trace evaluator's exposure
    per encounter phase. */
module RiskExposure {
  import opened RealMath
  import opened StableSort

  datatype RiskPhase = Safe | Caution | Warning | Danger | Critical

  const GRACE_S := 5.0

  predicate IsWarningOrWorse(p: RiskPhase) {
    p == Warning || p == Danger || p == Critical
  }

  predicate IsDangerOrWorse(p: RiskPhase) {
    p == Danger || p == Critical
  }

  /** One own-ship record with the phases the risk model gives its targets. */
  datatype RiskSample = RiskSample(t: real, phases: seq<RiskPhase>) {
    predicate WarningActive() {
      exists p :: p in phases && IsWarningOrWorse(p)
    }

    predicate DangerActive() {
      exists p :: p in phases && IsDangerOrWorse(p)
    }
  }

  function SampleTime(s: RiskSample): real {
    s.t
  }

  /** `_interval_after_grace` */
  function IntervalAfterGrace(start: real, end: real, first: real): real {
    Max(0.0, end - Max(start, first + GRACE_S))
  }

  function WarningExposure(s: seq<RiskSample>): real {
    if |s| < 2 then 0.0
    else (if s[0].WarningActive() then Max(0.0, s[1].t - s[0].t) else 0.0) + WarningExposure(s[1..])
  }

  function DangerExposure(s: seq<RiskSample>, first: real): real {
    if |s| < 2 then 0.0
    else (if s[0].DangerActive() then IntervalAfterGrace(s[0].t, s[1].t, first) else 0.0)
         + DangerExposure(s[1..], first)
  }

  /** The exposure half of `compute_risk_metrics`. */
  method ComputeExposure(records: seq<RiskSample>) returns (warning: real, danger: real)
    ensures var s := Sort(SampleTime, records);
            warning == WarningExposure(s) && danger == DangerExposure(s, if s == [] then 0.0 else s[0].t)
  {
    var s := Sort(SampleTime, records);
    warning, danger := 0.0, 0.0;
    if s == [] {
      return;
    }
    var first := s[0].t;
    var prevT, prevWarning, prevDanger := s[0].t, s[0].WarningActive(), s[0].DangerActive();
    for i := 1 to |s|
      invariant prevT == s[i - 1].t
      invariant prevWarning == s[i - 1].WarningActive() && prevDanger == s[i - 1].DangerActive()
      invariant warning + WarningExposure(s[i - 1..]) == WarningExposure(s)
      invariant danger + DangerExposure(s[i - 1..], first) == DangerExposure(s, first)
    {
      assert s[i - 1..][1..] == s[i..];
      var t := s[i].t;
      if prevWarning {
        warning := warning + Max(0.0, t - prevT);
      }
      if prevDanger {
        danger := danger + IntervalAfterGrace(prevT, t, first);
      }
      prevT, prevWarning, prevDanger := t, s[i].WarningActive(), s[i].DangerActive();
    }
  }

  /** Danger is charged where warning is, less the grace period; and never beyond the trace. */
  lemma {:induction false} ExposureBounds(s: seq<RiskSample>, first: real)
    requires s != [] && Sorted(SampleTime, s)
    ensures 0.0 <= DangerExposure(s, first) <= WarningExposure(s) <= s[|s| - 1].t - s[0].t
    ensures DangerExposure(s, first) <= Max(0.0, s[|s| - 1].t - Max(s[0].t, first + GRACE_S))
    decreases |s|
  {
    if |s| >= 2 {
      assert SampleTime(s[0]) <= SampleTime(s[1]);
      assert s[0].DangerActive() ==> s[0].WarningActive();
      ExposureBounds(s[1..], first);
    }
  }

  lemma RunExposureBounds(records: seq<RiskSample>)
    requires records != []
    ensures var s := Sort(SampleTime, records);
            var span := s[|s| - 1].t - s[0].t;
            && 0.0 <= DangerExposure(s, s[0].t) <= WarningExposure(s) <= span
            && DangerExposure(s, s[0].t) <= Max(0.0, span - GRACE_S)
  {
    var s := Sort(SampleTime, records);
    SortSorted(SampleTime, records);
    ExposureBounds(s, s[0].t);
  }

  /** Both bounds are attained: a run that is in danger throughout is charged all of its span. */
  lemma {:induction false} ConstantDangerIsChargedInFull(s: seq<RiskSample>, first: real)
    requires s != [] && Sorted(SampleTime, s)
    requires forall k :: 0 <= k < |s| ==> s[k].DangerActive()
    ensures WarningExposure(s) == s[|s| - 1].t - s[0].t
    ensures DangerExposure(s, first) == Max(0.0, s[|s| - 1].t - Max(s[0].t, first + GRACE_S))
    decreases |s|
  {
    if |s| >= 2 {
      assert SampleTime(s[0]) <= SampleTime(s[1]) <= SampleTime(s[|s| - 1]);
      assert s[0].DangerActive() ==> s[0].WarningActive();
      ConstantDangerIsChargedInFull(s[1..], first);
    }
  }

  lemma {:induction false} NothingCharged(s: seq<RiskSample>)
    requires forall k :: 0 <= k < |s| ==> !s[k].WarningActive()
    ensures WarningExposure(s) == 0.0
    decreases |s|
  {
    if |s| >= 2 {
      assert forall k :: 0 <= k < |s[1..]| ==> s[1..][k] == s[k + 1];
      NothingCharged(s[1..]);
    }
  }

  /** A sample that is the only one to warn is charged the interval up to the next sample, and nothing when it is
      the last. */
  lemma {:induction false} LoneWarningIsCharged(s: seq<RiskSample>, n: nat)
    requires Sorted(SampleTime, s) && n < |s| && forall k :: 0 <= k < |s| ==> (s[k].WarningActive() <==> k == n)
    ensures WarningExposure(s) == if n + 1 < |s| then s[n + 1].t - s[n].t else 0.0
    decreases |s|
  {
    if |s| >= 2 {
      assert forall k :: 0 <= k < |s[1..]| ==> s[1..][k] == s[k + 1];
      assert SampleTime(s[0]) <= SampleTime(s[1]);
      if n == 0 {
        NothingCharged(s[1..]);
      } else {
        LoneWarningIsCharged(s[1..], n - 1);
      }
    }
  }

  lemma {:induction false} NoDangerCharged(s: seq<RiskSample>, first: real)
    requires forall k :: 0 <= k < |s| ==> !s[k].DangerActive()
    ensures DangerExposure(s, first) == 0.0
    decreases |s|
  {
    if |s| >= 2 {
      assert forall k :: 0 <= k < |s[1..]| ==> s[1..][k] == s[k + 1];
      NoDangerCharged(s[1..], first);
    }
  }

  /** Seconds of the interval from `a` to `b` that lie after `from`. */
  function SecondsAfter(a: real, b: real, from: real): real {
    if from <= a then b - a else if from < b then b - from else 0.0
  }

  /** The same for danger, of which only the seconds after the grace period count. */
  lemma {:induction false} LoneDangerIsCharged(s: seq<RiskSample>, first: real, n: nat)
    requires Sorted(SampleTime, s) && n < |s| && forall k :: 0 <= k < |s| ==> (s[k].DangerActive() <==> k == n)
    ensures DangerExposure(s, first)
         == if n + 1 < |s| then SecondsAfter(s[n].t, s[n + 1].t, first + GRACE_S) else 0.0
    decreases |s|
  {
    if |s| >= 2 {
      assert forall k :: 0 <= k < |s[1..]| ==> s[1..][k] == s[k + 1];
      assert SampleTime(s[0]) <= SampleTime(s[1]);
      if n == 0 {
        NoDangerCharged(s[1..], first);
      } else {
        LoneDangerIsCharged(s[1..], first, n - 1);
      }
    }
  }

  // ----- The trace evaluator's exposure by encounter phase -----

  datatype EncounterPhase = ApproachRisk | PostPassClearance | Free

  datatype TraceSample = TraceSample(
    t: real, tcpa: real, closingSpeed: real, relBearing: real,
    isRule13: bool, isGiveWay: bool, pastAndClear: bool, warning: bool, danger: bool)

  function TraceTime(s: TraceSample): real {
    s.t
  }

  predicate IsAbaft(relBearing: real) {
    Abs(Turn(relBearing, 0.0)) > 90.0
  }

  /** A bearing is abaft the beam when, up to full turns, it lies between 90 and 270 degrees. */
  lemma AbaftMeaning(relBearing: real)
    ensures IsAbaft(relBearing) <==> exists k: int :: 90.0 < relBearing + FullTurns(k) < 270.0
  {
    var d := Turn(relBearing, 0.0);
    TurnMeaning(relBearing, 0.0, d);
    var j: int :| d == relBearing + FullTurns(j);
    if IsAbaft(relBearing) {
      var k := if d > 0.0 then j else j + 1;
      assert FullTurns(j + 1) == FullTurns(j) + 360.0;
      assert 90.0 < relBearing + FullTurns(k) < 270.0;
    }
    if k: int :| 90.0 < relBearing + FullTurns(k) < 270.0 {
      assert FullTurns(k) - FullTurns(j) == FullTurns(k - j);
      assert k - j <= 0 ==> FullTurns(k - j) <= 0.0;
      assert k - j >= 1 ==> FullTurns(k - j) >= 360.0;
    }
  }

  /** `classify_encounter_phase` */
  function Classify(s: TraceSample): EncounterPhase {
    if s.isRule13 && s.isGiveWay && !s.pastAndClear then ApproachRisk
    else if s.tcpa >= 0.0 || s.closingSpeed > 0.0 then ApproachRisk
    else if s.tcpa < 0.0 && s.closingSpeed <= 0.0 && IsAbaft(s.relBearing) then PostPassClearance
    else Free
  }

  type Classifier = TraceSample -> EncounterPhase

  function Flagged(s: TraceSample, danger: bool): bool {
    if danger then s.danger else s.warning
  }

  /** Time flagged while in `phase`; each interval belongs to the sample that opens it. */
  function PhaseExposure(classify: Classifier, s: seq<TraceSample>, phase: EncounterPhase, danger: bool): real {
    if |s| < 2 then 0.0
    else (if classify(s[0]) == phase && Flagged(s[0], danger) then Max(0.0, s[1].t - s[0].t) else 0.0)
         + PhaseExposure(classify, s[1..], phase, danger)
  }

  /** Time flagged in any phase. */
  function TotalExposure(s: seq<TraceSample>, danger: bool): real {
    if |s| < 2 then 0.0
    else (if Flagged(s[0], danger) then Max(0.0, s[1].t - s[0].t) else 0.0) + TotalExposure(s[1..], danger)
  }

  datatype ExposureMetrics = ExposureMetrics(
    approachWarning: real, approachDanger: real, postWarning: real, postDanger: real)

  function MetricsOf(classify: Classifier, s: seq<TraceSample>): ExposureMetrics {
    ExposureMetrics(
      PhaseExposure(classify, s, ApproachRisk, false), PhaseExposure(classify, s, ApproachRisk, true),
      PhaseExposure(classify, s, PostPassClearance, false), PhaseExposure(classify, s, PostPassClearance, true))
  }

  function Plus(a: ExposureMetrics, b: ExposureMetrics): ExposureMetrics {
    ExposureMetrics(a.approachWarning + b.approachWarning, a.approachDanger + b.approachDanger,
                    a.postWarning + b.postWarning, a.postDanger + b.postDanger)
  }

  /** The loop of `compute_exposure_metrics` over the ordered samples. */
  method Accumulate(classify: Classifier, s: seq<TraceSample>) returns (m: ExposureMetrics)
    ensures m == MetricsOf(classify, s)
  {
    m := ExposureMetrics(0.0, 0.0, 0.0, 0.0);
    if |s| < 2 {
      return;
    }
    for i := 1 to |s|
      invariant Plus(m, MetricsOf(classify, s[i - 1..])) == MetricsOf(classify, s)
    {
      assert s[i - 1..][1..] == s[i..];
      var prev, dt := s[i - 1], Max(0.0, s[i].t - s[i - 1].t);
      var phase := classify(prev);
      if phase == ApproachRisk {
        m := m.(approachWarning := m.approachWarning + if prev.warning then dt else 0.0,
                approachDanger := m.approachDanger + if prev.danger then dt else 0.0);
      } else if phase == PostPassClearance {
        m := m.(postWarning := m.postWarning + if prev.warning then dt else 0.0,
                postDanger := m.postDanger + if prev.danger then dt else 0.0);
      }
    }
  }

  /** `compute_exposure_metrics` */
  method ComputeExposureMetrics(samples: seq<TraceSample>) returns (m: ExposureMetrics)
    ensures m == MetricsOf(Classify, Sort(TraceTime, samples))
  {
    m := Accumulate(Classify, Sort(TraceTime, samples));
  }

  /** Each interval is charged to exactly one phase, and the charges never exceed the trace span. */
  lemma {:induction false} EachIntervalIsChargedOnce(classify: Classifier, s: seq<TraceSample>, danger: bool)
    requires s != [] && Sorted(TraceTime, s)
    ensures PhaseExposure(classify, s, ApproachRisk, danger) + PhaseExposure(classify, s, PostPassClearance, danger)
            + PhaseExposure(classify, s, Free, danger) == TotalExposure(s, danger)
    ensures 0.0 <= TotalExposure(s, danger) <= s[|s| - 1].t - s[0].t
    ensures forall p :: PhaseExposure(classify, s, p, danger) >= 0.0
    decreases |s|
  {
    if |s| >= 2 {
      assert TraceTime(s[0]) <= TraceTime(s[1]);
      EachIntervalIsChargedOnce(classify, s[1..], danger);
    }
  }

  lemma {:induction false} NoPhaseCharged(classify: Classifier, s: seq<TraceSample>, phase: EncounterPhase,
                                         danger: bool)
    requires forall k :: 0 <= k < |s| ==> !(classify(s[k]) == phase && Flagged(s[k], danger))
    ensures PhaseExposure(classify, s, phase, danger) == 0.0
    decreases |s|
  {
    if |s| >= 2 {
      assert forall k :: 0 <= k < |s[1..]| ==> s[1..][k] == s[k + 1];
      NoPhaseCharged(classify, s[1..], phase, danger);
    }
  }

  /** A lone flagged sample of a phase charges that phase the interval up to the next sample. */
  lemma {:induction false} LoneSampleChargesItsPhase(classify: Classifier, s: seq<TraceSample>, phase: EncounterPhase,
                                                    danger: bool, n: nat)
    requires Sorted(TraceTime, s) && n < |s|
    requires forall k :: 0 <= k < |s| ==> (classify(s[k]) == phase && Flagged(s[k], danger) <==> k == n)
    ensures PhaseExposure(classify, s, phase, danger) == if n + 1 < |s| then s[n + 1].t - s[n].t else 0.0
    decreases |s|
  {
    if |s| >= 2 {
      assert forall k :: 0 <= k < |s[1..]| ==> s[1..][k] == s[k + 1];
      assert TraceTime(s[0]) <= TraceTime(s[1]);
      if n == 0 {
        NoPhaseCharged(classify, s[1..], phase, danger);
      } else {
        LoneSampleChargesItsPhase(classify, s[1..], phase, danger, n - 1);
      }
    }
  }
}
