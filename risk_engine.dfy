/**
  * Risk scoring: the conservative adjustments of likelihood and severity,
  * their product and the three-tier level.
  */
module RiskEngine {
  import opened Levels
  import opened Numbers

  datatype RiskResult = RiskResult(score: int, likelihood: int, severity: int, level: Level)


  /** The level of a score: 15 and above is High, 8 to 14 Medium, below 8 Low. */
  function RiskLevel(score: int): (l: Level)
    ensures l == High <==> score >= 15
    ensures l == Medium <==> 8 <= score < 15
    ensures l == Low <==> score < 8
  {
    if score >= 15 then High else if score >= 8 then Medium else Low
  }

  /**
    * The likelihood after the adjustments, in closed form: each raised flag
    * (unclear information, missing controls) adds one, and the sum is capped
    * at 5; with neither flag the input passes through unclamped.
    */
  function AdjustedLikelihood(likelihood: int, missingControls: bool, unclearInfo: bool): int
  {
    var bump := (if unclearInfo then 1 else 0) + (if missingControls then 1 else 0);
    if bump == 0 then likelihood else Min(5, likelihood + bump)
  }

  /** The severity after the adjustments: exactly 5 with fatal potential, else one more (capped at 5) when unclear. */
  function AdjustedSeverity(severity: int, fatalPotential: bool, unclearInfo: bool): int
  {
    if fatalPotential then 5 else if unclearInfo then Min(5, severity + 1) else severity
  }

  /** What `calculate_risk` returns, stated through the closed forms above. */
  function Risk(likelihood: int, severity: int, missingControls: bool, fatalPotential: bool, unclearInfo: bool): RiskResult
  {
    var l := AdjustedLikelihood(likelihood, missingControls, unclearInfo);
    var s := AdjustedSeverity(severity, fatalPotential, unclearInfo);
    RiskResult(l * s, l, s, RiskLevel(l * s))
  }

  /**
    * `calculate_risk` as written: the final values are reassigned by the
    * unclear-information rule, then the missing-controls rule, then the
    * fatal-potential rule, and the level is raised from Low by two guards.
    */
  method CalculateRisk(likelihood: int, severity: int, missingControls: bool, fatalPotential: bool, unclearInfo: bool)
    returns (result: RiskResult)
    ensures result == Risk(likelihood, severity, missingControls, fatalPotential, unclearInfo)
  {
    var finalLikelihood := likelihood;
    var finalSeverity := severity;
    if unclearInfo {
      finalLikelihood := Min(5, finalLikelihood + 1);
      finalSeverity := Min(5, finalSeverity + 1);
    }
    if missingControls {
      finalLikelihood := Min(5, finalLikelihood + 1);
    }
    if fatalPotential {
      finalSeverity := 5;
    }
    var riskScore := finalLikelihood * finalSeverity;
    var riskLevel := Low;
    if riskScore >= 15 {
      riskLevel := High;
    } else if riskScore >= 8 {
      riskLevel := Medium;
    }
    result := RiskResult(riskScore, finalLikelihood, finalSeverity, riskLevel);
  }

  /** With no flag raised the inputs are returned as they are, even outside 1..5. */
  lemma NoFlagsPassThrough(likelihood: int, severity: int)
    ensures Risk(likelihood, severity, false, false, false).likelihood == likelihood
    ensures Risk(likelihood, severity, false, false, false).severity == severity
    ensures Risk(likelihood, severity, false, false, false).score == likelihood * severity
  {
  }

  /**
    * Inputs are not validated, but every raised flag caps what it adjusts at
    * 5: an out-of-range likelihood or severity comes back as 5 once a flag
    * touching it is set, lowered by the adjustment.
    */
  lemma FlagCapsAtFive(likelihood: int, severity: int, missingControls: bool, fatalPotential: bool, unclearInfo: bool)
    ensures var r := Risk(likelihood, severity, missingControls, fatalPotential, unclearInfo);
      && ((missingControls || unclearInfo) ==> r.likelihood <= 5)
      && ((fatalPotential || unclearInfo) ==> r.severity <= 5)
      && (likelihood >= 5 && (missingControls || unclearInfo) ==> r.likelihood == 5)
      && (severity >= 5 && (fatalPotential || unclearInfo) ==> r.severity == 5)
  {
  }

  /** A likelihood of 9 with missing controls, or with unclear information, comes back as 5. */
  lemma OutOfRangeLowered()
    ensures Risk(9, 3, true, false, false).likelihood == 5
    ensures Risk(9, 3, false, false, true).likelihood == 5
    ensures Risk(3, 9, false, false, true).severity == 5
  {
  }

  /** Unclear information and missing controls together raise the likelihood by two, capped at 5. */
  lemma BothLikelihoodFlags(likelihood: int, severity: int, fatalPotential: bool)
    ensures Risk(likelihood, severity, true, fatalPotential, true).likelihood == Min(5, likelihood + 2)
  {
  }

  /** Fatal potential fixes the severity at 5 whatever the other flags, so the score is five times the likelihood. */
  lemma FatalForcesSeverity(likelihood: int, severity: int, missingControls: bool, unclearInfo: bool)
    ensures Risk(likelihood, severity, missingControls, true, unclearInfo).severity == 5
    ensures Risk(likelihood, severity, missingControls, true, unclearInfo).score
      == 5 * AdjustedLikelihood(likelihood, missingControls, unclearInfo)
  {
  }

  /** The thresholds are exact: 15 is High, 14 and 8 are Medium, 7 is Low. */
  lemma LevelBoundaries()
    ensures RiskLevel(15) == High && RiskLevel(14) == Medium
    ensures RiskLevel(8) == Medium && RiskLevel(7) == Low
  {
  }

  lemma MulBounds(a: int, b: int)
    requires 1 <= a <= 5 && 1 <= b <= 5
    ensures 1 <= a * b <= 25
  {
    assert a * b <= 5 * b;
    assert 5 * b <= 25;
  }

  lemma MulMonotone(a: int, b: int, c: int, d: int)
    requires 0 <= a <= b && 0 <= c <= d
    ensures a * c <= b * d
  {
    assert a * c <= b * c;
    assert b * c <= b * d;
  }

  /**
    * For inputs in 1..5 the adjusted values stay in 1..5 and never fall below
    * the inputs, and the score lies in 1..25.
    */
  lemma InRange(likelihood: int, severity: int, missingControls: bool, fatalPotential: bool, unclearInfo: bool)
    requires 1 <= likelihood <= 5 && 1 <= severity <= 5
    ensures var r := Risk(likelihood, severity, missingControls, fatalPotential, unclearInfo);
      && likelihood <= r.likelihood <= 5
      && severity <= r.severity <= 5
      && 1 <= r.score <= 25
  {
    var r := Risk(likelihood, severity, missingControls, fatalPotential, unclearInfo);
    MulBounds(r.likelihood, r.severity);
  }

  /** With the flags and the severity fixed, a higher likelihood never lowers the score. */
  lemma ScoreMonotoneInLikelihood(l1: int, l2: int, severity: int,
                                  missingControls: bool, fatalPotential: bool, unclearInfo: bool)
    requires 1 <= l1 <= l2 <= 5 && 1 <= severity <= 5
    ensures Risk(l1, severity, missingControls, fatalPotential, unclearInfo).score
      <= Risk(l2, severity, missingControls, fatalPotential, unclearInfo).score
  {
    var r1 := Risk(l1, severity, missingControls, fatalPotential, unclearInfo);
    var r2 := Risk(l2, severity, missingControls, fatalPotential, unclearInfo);
    MulMonotone(r1.likelihood, r2.likelihood, r1.severity, r2.severity);
  }

  /** With the flags and the likelihood fixed, a higher severity never lowers the score. */
  lemma ScoreMonotoneInSeverity(likelihood: int, s1: int, s2: int,
                                missingControls: bool, fatalPotential: bool, unclearInfo: bool)
    requires 1 <= likelihood <= 5 && 1 <= s1 <= s2 <= 5
    ensures Risk(likelihood, s1, missingControls, fatalPotential, unclearInfo).score
      <= Risk(likelihood, s2, missingControls, fatalPotential, unclearInfo).score
  {
    var r1 := Risk(likelihood, s1, missingControls, fatalPotential, unclearInfo);
    var r2 := Risk(likelihood, s2, missingControls, fatalPotential, unclearInfo);
    MulMonotone(r1.likelihood, r2.likelihood, r1.severity, r2.severity);
  }
}
