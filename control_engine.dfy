/**
  * Control selection: a priority-ordered, first-match-wins chain of term
  * groups tested against the lower-cased hazard label, a fallback, and the
  * two items added for a "High" risk level.
  */
module ControlEngine {
  import opened Text
  import opened Levels

  /** The tier of the hierarchy of controls an item belongs to (the `type` field of `ControlItem`). */
  datatype Tier = Engineering | Substitution | Administrative | PPE

  datatype ControlItem = ControlItem(kind: Tier, description: string)

  /** The groups of the chain, one per branch of the if/elif chain. */
  datatype Group = FireThermal | Mechanical | Chemical | Heights | Electrical | ConfinedSpace | Environmental

  /** The chain in priority order; the first group with a term inside the label wins. */
  const Chain: seq<Group> := [FireThermal, Mechanical, Chemical, Heights, Electrical, ConfinedSpace, Environmental]

  const FireThermalTerms: seq<string> := ["fire", "burn", "thermal", "explosion"]
  const MechanicalTerms: seq<string> := ["mechanical", "machine", "moving", "grinding", "entrapment", "debris"]
  const ChemicalTerms: seq<string> := ["chemical", "toxic", "respiratory", "inhalation", "fumes", "gas"]
  const HeightsTerms: seq<string> := ["fall", "height", "scaffold", "ladder", "drop", "stability"]
  const ElectricalTerms: seq<string> := ["electric", "voltage", "wire", "shock", "arc"]
  const ConfinedSpaceTerms: seq<string> := ["confined", "asphyxiation", "oxygen", "air quality"]
  const EnvironmentalTerms: seq<string> := ["slip", "trip", "noise", "vibration", "clutter"]

  const FireThermalItems: seq<ControlItem> := [
    ControlItem(Engineering, "Install fire-resistant barriers and automated suppression systems."),
    ControlItem(Administrative, "Implement Hot Work Permit system and continuous gas monitoring."),
    ControlItem(Administrative, "Designate a dedicated Fire Watcher with firefighting training."),
    ControlItem(PPE, "Flamretardant clothing (FRC), heat-resistant gloves, and face shield.")
  ]

  const MechanicalItems: seq<ControlItem> := [
    ControlItem(Engineering, "Install fixed physical guards and emergency stop buttons."),
    ControlItem(Administrative, "Enforce Lock-Out Tag-Out (LOTO) procedures before maintenance."),
    ControlItem(Administrative, "Operator competency verification/certification check."),
    ControlItem(PPE, "Impact-resistant goggles, cut-resistant gloves, and steel-toed boots.")
  ]

  const ChemicalItems: seq<ControlItem> := [
    ControlItem(Engineering, "Ensure Local Exhaust Ventilation (LEV) is functioning at >0.5 m/s."),
    ControlItem(Substitution, "Evaluate non-hazardous or water-based alternatives to current solvents."),
    ControlItem(Administrative, "Ensure SDS (Safety Data Sheets) are accessible; perform spill response drill."),
    ControlItem(PPE, "Half-face respirator with P3/Multi-gas filters and chemical-resistant aprons/gloves.")
  ]

  const HeightsItems: seq<ControlItem> := [
    ControlItem(Engineering, "Install certified collective protection (guardrails/toeboards)."),
    ControlItem(Engineering, "Use debris netting or exclusion zones with physical barriers below."),
    ControlItem(Administrative, "Daily inspection of scaffolding/ladders by a competent person."),
    ControlItem(PPE, "Class A full-body harness with shock-absorbing double lanyard attached to certified anchor points.")
  ]

  const ElectricalItems: seq<ControlItem> := [
    ControlItem(Engineering, "Use Residual Current Devices (RCDs) or Ground Fault Circuit Interrupters (GFCIs)."),
    ControlItem(Administrative, "Verify zero-energy state via 'Test-Before-Touch' protocol."),
    ControlItem(PPE, "Arc-rated (AR) clothing, insulated tools, and dielectric boots/gloves.")
  ]

  const ConfinedSpaceItems: seq<ControlItem> := [
    ControlItem(Engineering, "Forced mechanical ventilation for at least 30 minutes prior to entry."),
    ControlItem(Administrative, "Pre-entry atmospheric testing; Standby Person/Attendant required at all times."),
    ControlItem(PPE, "Self-Contained Breathing Apparatus (SCBA) and tripod/winch for emergency retrieval.")
  ]

  const EnvironmentalItems: seq<ControlItem> := [
    ControlItem(Administrative, "Implement 'Housekeeping First' policy; clear walkways of cables/debris."),
    ControlItem(Administrative, "Post 'Hearing Protection Required' signage; limit exposure time."),
    ControlItem(PPE, "High-grip footwear and dual hearing protection (earplugs + earmuffs).")
  ]

  /** The terms whose presence in the lower-cased label selects a group. */
  function Terms(g: Group): seq<string>
  {
    match g
    case FireThermal => FireThermalTerms
    case Mechanical => MechanicalTerms
    case Chemical => ChemicalTerms
    case Heights => HeightsTerms
    case Electrical => ElectricalTerms
    case ConfinedSpace => ConfinedSpaceTerms
    case Environmental => EnvironmentalTerms
  }

  /** The items a group yields, in order. */
  function Items(g: Group): seq<ControlItem>
  {
    match g
    case FireThermal => FireThermalItems
    case Mechanical => MechanicalItems
    case Chemical => ChemicalItems
    case Heights => HeightsItems
    case Electrical => ElectricalItems
    case ConfinedSpace => ConfinedSpaceItems
    case Environmental => EnvironmentalItems
  }

  /** The general fallback, for a label that no group's terms occur in. */
  const Fallback: seq<ControlItem> := [
    ControlItem(Administrative, "Conduct a pre-task Toolbox Talk (TBT) specifically for this activity."),
    ControlItem(PPE, "Mandatory Site PPE: High-visibility vest, hard hat, and safety glasses.")
  ]

  /** The two items appended for a "High" risk level. */
  const HighRiskItems: seq<ControlItem> := [
    ControlItem(Administrative, "\U{26A0}\U{FE0F} Stop Work Authority: Supervisor presence mandatory for the entire duration."),
    ControlItem(Administrative, "Emergency Response Plan (ERP) must be activated and verified before start.")
  ]

  /** Some term of group `i` occurs in the lower-cased label `h`. */
  predicate Selects(i: nat, h: string)
    requires i < |Chain|
  {
    AnyIn(Terms(Chain[i]), h)
  }

  /**
    * The index of the first group from `i` on that selects `h`, or `|Chain|`
    * when none does.
    */
  function FirstMatch(h: string, i: nat): (k: nat)
    requires i <= |Chain|
    ensures i <= k <= |Chain|
    ensures k < |Chain| ==> Selects(k, h)
    ensures forall j | i <= j < k :: !Selects(j, h)
    decreases |Chain| - i
  {
    if i == |Chain| then i
    else if Selects(i, h) then i
    else FirstMatch(h, i + 1)
  }

  /** The items of the winning group for a hazard label (matched case-insensitively), or the fallback. */
  function GroupItems(hazard: string): seq<ControlItem>
  {
    var k := FirstMatch(Lower(hazard), 0);
    if k < |Chain| then Items(Chain[k]) else Fallback
  }

  /** What the risk level adds: the two High-risk items for exactly "High", nothing otherwise. */
  function Augmentation(riskLevel: string): seq<ControlItem>
  {
    if riskLevel == "High" then HighRiskItems else []
  }

  /** `select_controls` as a value. */
  function Controls(hazard: string, riskLevel: string): seq<ControlItem>
  {
    GroupItems(hazard) + Augmentation(riskLevel)
  }

  /**
    * `select_controls` as written: an if/elif chain over the groups in
    * priority order, each branch extending the list with its group's items,
    * then the two High-risk items for "High".
    */
  method SelectControls(hazard: string, riskLevel: string) returns (controls: seq<ControlItem>)
    ensures controls == Controls(hazard, riskLevel)
  {
    controls := [];
    var h := Lower(hazard);
    if AnyIn(Terms(Chain[0]), h) {
      controls := controls + Items(Chain[0]);
    } else if AnyIn(Terms(Chain[1]), h) {
      controls := controls + Items(Chain[1]);
    } else if AnyIn(Terms(Chain[2]), h) {
      controls := controls + Items(Chain[2]);
    } else if AnyIn(Terms(Chain[3]), h) {
      controls := controls + Items(Chain[3]);
    } else if AnyIn(Terms(Chain[4]), h) {
      controls := controls + Items(Chain[4]);
    } else if AnyIn(Terms(Chain[5]), h) {
      controls := controls + Items(Chain[5]);
    } else if AnyIn(Terms(Chain[6]), h) {
      controls := controls + Items(Chain[6]);
    } else {
      controls := controls + Fallback;
    }
    assert controls == GroupItems(hazard);
    if riskLevel == "High" {
      controls := controls + HighRiskItems;
    }
  }

  // ---------------------------------------------------------------------------
  // Properties
  // ---------------------------------------------------------------------------

  /** The number of items of a tier. */
  function CountTier(items: seq<ControlItem>, t: Tier): nat
  {
    if items == [] then 0
    else (if items[0].kind == t then 1 else 0) + CountTier(items[1..], t)
  }

  lemma {:induction false} CountTierAppend(a: seq<ControlItem>, b: seq<ControlItem>, t: Tier)
    ensures CountTier(a + b, t) == CountTier(a, t) + CountTier(b, t)
  {
    if a == [] {
      assert a + b == b;
    } else {
      assert (a + b)[1..] == a[1..] + b;
      CountTierAppend(a[1..], b, t);
    }
  }

  /** The number of items of a tier, counted by position. */
  lemma {:induction false} CountTierZero(items: seq<ControlItem>, t: Tier)
    requires forall j | 0 <= j < |items| :: items[j].kind != t
    ensures CountTier(items, t) == 0
  {
    if items != [] {
      CountTierZero(items[1..], t);
    }
  }

  /** The last item is the only PPE item. */
  predicate PpeLast(items: seq<ControlItem>)
  {
    && items != []
    && items[|items| - 1].kind == PPE
    && forall j | 0 <= j < |items| - 1 :: items[j].kind != PPE
  }

  lemma PpeLastCount(items: seq<ControlItem>)
    requires PpeLast(items)
    ensures CountTier(items, PPE) == 1
  {
    var n := |items| - 1;
    assert items == items[..n] + [items[n]];
    CountTierAppend(items[..n], [items[n]], PPE);
    CountTierZero(items[..n], PPE);
  }

  /** Each group yields three or four items, the last of them its only PPE item. */
  lemma ItemsShape(g: Group)
    ensures 3 <= |Items(g)| <= 4
    ensures PpeLast(Items(g))
  {
  }

  /** Every list the chain can yield has two to four items and ends with its one PPE item. */
  lemma GroupItemsShape(hazard: string)
    ensures 2 <= |GroupItems(hazard)| <= 4
    ensures PpeLast(GroupItems(hazard))
  {
    var k := FirstMatch(Lower(hazard), 0);
    if k < |Chain| {
      ItemsShape(Chain[k]);
    } else {
      assert PpeLast(Fallback);
    }
  }

  /**
    * Every result holds exactly one PPE item, the last of the group's items;
    * whatever follows it is Administrative.
    */
  lemma OnePpeBeforeAugmentation(hazard: string, riskLevel: string)
    ensures var r, n := Controls(hazard, riskLevel), |GroupItems(hazard)|;
      && CountTier(r, PPE) == 1
      && r[n - 1].kind == PPE
      && forall j | n <= j < |r| :: r[j].kind == Administrative
  {
    var g, a := GroupItems(hazard), Augmentation(riskLevel);
    GroupItemsShape(hazard);
    PpeLastCount(g);
    CountTierZero(a, PPE);
    CountTierAppend(g, a, PPE);
  }

  /** The group sizes: four items for the first four groups, three for the next three, two for the fallback. */
  lemma GroupSizes()
    ensures |Chain| == 7
    ensures forall i | 0 <= i < 4 :: |Items(Chain[i])| == 4
    ensures forall i | 4 <= i < 7 :: |Items(Chain[i])| == 3
    ensures |Fallback| == 2
  {
  }

  /** A group wins exactly when it selects the label and no earlier group does. */
  lemma FirstMatchWins(hazard: string, i: nat)
    requires i < |Chain|
    ensures GroupItems(hazard) == Items(Chain[i])
      <== (Selects(i, Lower(hazard)) && forall j | 0 <= j < i :: !Selects(j, Lower(hazard)))
    ensures FirstMatch(Lower(hazard), 0) == i
      <==> (Selects(i, Lower(hazard)) && forall j | 0 <= j < i :: !Selects(j, Lower(hazard)))
  {
  }

  /** A label that no group selects gets the fallback items, and only such a label does. */
  lemma FallbackExactly(hazard: string)
    ensures FirstMatch(Lower(hazard), 0) == |Chain|
      <==> forall j | 0 <= j < |Chain| :: !Selects(j, Lower(hazard))
    ensures (forall j | 0 <= j < |Chain| :: !Selects(j, Lower(hazard))) ==> GroupItems(hazard) == Fallback
  {
  }

  /**
    * Given the name of a risk level, the High-risk items come exactly with the
    * High level; "Low" and "Medium" add nothing.
    */
  lemma LevelAugments(hazard: string, level: Level)
    ensures Controls(hazard, Name(level)) == GroupItems(hazard) + (if level == High then HighRiskItems else [])
  {
  }

  /** The result for "High" is the result for any other level followed by the two High-risk items. */
  lemma HighAugments(hazard: string, riskLevel: string)
    requires riskLevel != "High"
    ensures Controls(hazard, riskLevel) == GroupItems(hazard)
    ensures Controls(hazard, "High") == Controls(hazard, riskLevel) + HighRiskItems
    ensures |Controls(hazard, "High")| == |Controls(hazard, riskLevel)| + 2
  {
  }

  predicate HasTier(items: seq<ControlItem>, t: Tier)
  {
    exists j | 0 <= j < |items| :: items[j].kind == t
  }

  /** Of all the lists the selector draws from, only the chemical group's holds a Substitution item. */
  lemma SubstitutionTable()
    ensures forall i | 0 <= i < |Chain| :: HasTier(Items(Chain[i]), Substitution) <==> Chain[i] == Chemical
    ensures !HasTier(Fallback, Substitution) && !HasTier(HighRiskItems, Substitution)
  {
    assert ChemicalItems[1].kind == Substitution;
  }

  /** A Substitution item appears exactly when the chemical group wins. */
  lemma SubstitutionOnlyChemical(hazard: string, riskLevel: string)
    ensures HasTier(Controls(hazard, riskLevel), Substitution) <==> FirstMatch(Lower(hazard), 0) == 2
  {
    var g, a := GroupItems(hazard), Augmentation(riskLevel);
    var r := g + a;
    SubstitutionTable();
    if FirstMatch(Lower(hazard), 0) == 2 {
      assert r[1] == g[1];
    } else {
      assert !HasTier(g, Substitution) && !HasTier(a, Substitution);
      forall j | 0 <= j < |r|
        ensures r[j].kind != Substitution
      {
        if j < |g| { assert r[j] == g[j]; } else { assert r[j] == a[j - |g|]; }
      }
    }
  }

  // ---------------------------------------------------------------------------
  // Labels
  // ---------------------------------------------------------------------------

  /** Every character of `s` has one of the character codes `codes`. */
  predicate CodesWithin(s: string, codes: set<int>)
  {
    forall i | 0 <= i < |s| :: s[i] as int in codes
  }

  /** A number that identifies a pair of adjacent characters. */
  function PairCode(a: char, b: char): int
  {
    0x11_0000 * (a as int) + b as int
  }

  /** Every pair of adjacent characters of `s` has one of the codes `pairs`. */
  predicate PairCodesWithin(s: string, pairs: set<int>)
  {
    forall i | 0 <= i < |s| - 1 :: PairCode(s[i], s[i + 1]) in pairs
  }

  /**
    * The characters of `s` from index `k` on have codes in `codes`, and their
    * adjacent pairs codes in `pairs`, checked one index at a time so that a
    * literal string can be checked by evaluation.
    */
  predicate CodesFrom(s: string, codes: set<int>, pairs: set<int>, k: nat)
    decreases |s| - k
  {
    k >= |s| || (s[k] as int in codes && (k + 1 == |s| || PairCode(s[k], s[k + 1]) in pairs) && CodesFrom(s, codes, pairs, k + 1))
  }

  lemma {:induction false} CodesFromWithin(s: string, codes: set<int>, pairs: set<int>, k: nat)
    requires CodesFrom(s, codes, pairs, k)
    ensures forall i | k <= i < |s| :: s[i] as int in codes
    ensures forall i | k <= i < |s| - 1 :: PairCode(s[i], s[i + 1]) in pairs
    decreases |s| - k
  {
    if k < |s| {
      CodesFromWithin(s, codes, pairs, k + 1);
    }
  }

  /** A term with a character that `s` lacks does not occur in `s`. */
  lemma CodeAbsent(s: string, codes: set<int>, term: string, k: nat)
    requires CodesWithin(s, codes)
    requires k < |term| && term[k] as int !in codes
    ensures !Contains(s, term)
  {
    if Contains(s, term) {
      SubstringChar(s, term, k);
    }
  }

  /** A term with two adjacent characters that never stand side by side in `s` does not occur in `s`. */
  lemma PairCodeAbsent(s: string, pairs: set<int>, term: string, k: nat)
    requires PairCodesWithin(s, pairs)
    requires k + 1 < |term| && PairCode(term[k], term[k + 1]) !in pairs
    ensures !Contains(s, term)
  {
  }

  /** Character `k` of `term` has a code outside `codes`, or it and the next character a pair code outside `pairs`. */
  predicate ExcludedAt(term: string, codes: set<int>, pairs: set<int>, k: nat)
  {
    k < |term| && (term[k] as int !in codes || (k + 1 < |term| && PairCode(term[k], term[k + 1]) !in pairs))
  }

  /** Every term from position `j` on is excluded at its index in `ks`. */
  predicate TermsExcluded(terms: seq<string>, ks: seq<nat>, codes: set<int>, pairs: set<int>, j: nat)
    decreases |terms| - j
  {
    j >= |terms| || (j < |ks| && ExcludedAt(terms[j], codes, pairs, ks[j]) && TermsExcluded(terms, ks, codes, pairs, j + 1))
  }

  /** Excluded terms do not occur in a string whose characters and adjacent pairs stay within the codes. */
  lemma {:induction false} TermsExcludedMiss(s: string, terms: seq<string>, ks: seq<nat>, codes: set<int>, pairs: set<int>, j: nat)
    requires CodesWithin(s, codes) && PairCodesWithin(s, pairs)
    requires TermsExcluded(terms, ks, codes, pairs, j)
    ensures forall m | j <= m < |terms| :: !Contains(s, terms[m])
    decreases |terms| - j
  {
    if j < |terms| {
      var term, k := terms[j], ks[j];
      if term[k] as int !in codes {
        CodeAbsent(s, codes, term, k);
      } else {
        PairCodeAbsent(s, pairs, term, k);
      }
      TermsExcludedMiss(s, terms, ks, codes, pairs, j + 1);
    }
  }

  /** Every term of every group of the chain is excluded, at the indices `ks[i]` for the group at position `i`. */
  predicate ChainExcluded(ks: seq<seq<nat>>, codes: set<int>, pairs: set<int>)
  {
    && |ks| == |Chain|
    && TermsExcluded(FireThermalTerms, ks[0], codes, pairs, 0)
    && TermsExcluded(MechanicalTerms, ks[1], codes, pairs, 0)
    && TermsExcluded(ChemicalTerms, ks[2], codes, pairs, 0)
    && TermsExcluded(HeightsTerms, ks[3], codes, pairs, 0)
    && TermsExcluded(ElectricalTerms, ks[4], codes, pairs, 0)
    && TermsExcluded(ConfinedSpaceTerms, ks[5], codes, pairs, 0)
    && TermsExcluded(EnvironmentalTerms, ks[6], codes, pairs, 0)
  }

  /**
    * No group selects a label whose characters and adjacent pairs stay within
    * codes that every term of the chain leaves.
    */
  lemma NoGroupSelects(s: string, ks: seq<seq<nat>>, codes: set<int>, pairs: set<int>)
    requires CodesFrom(s, codes, pairs, 0)
    requires ChainExcluded(ks, codes, pairs)
    ensures forall i | 0 <= i < |Chain| :: !Selects(i, s)
  {
    CodesFromWithin(s, codes, pairs, 0);
    forall i | 0 <= i < |Chain|
      ensures !Selects(i, s)
    {
      var terms := Terms(Chain[i]);
      if i == 0 {
        assert terms == FireThermalTerms;
      } else if i == 1 {
        assert terms == MechanicalTerms;
      } else if i == 2 {
        assert terms == ChemicalTerms;
      } else if i == 3 {
        assert terms == HeightsTerms;
      } else if i == 4 {
        assert terms == ElectricalTerms;
      } else if i == 5 {
        assert terms == ConfinedSpaceTerms;
      } else {
        assert terms == EnvironmentalTerms;
      }
      TermsExcludedMiss(s, terms, ks[i], codes, pairs, 0);
    }
  }

  /**
    * The character codes and adjacent-pair codes of "restricted movement",
    * each pair (a, b) coded as PairCode(a, b) = 0x11_0000 * a + b. The codes
    * are those of ' ' c d e i m n o r s t v; the pairs, in the order listed,
    * are ' m' (35651693 = 0x11_0000 * 32 + 109), ct, 'd ', ed, em, en, es, ic,
    * me, mo, nt, ov, re, ri, st, te, tr, ve. RestrictedMovementCodesHold
    * checks both sets against the label itself.
    */
  const RestrictedMovementCodes: set<int> := {32, 99, 100, 101, 105, 109, 110, 111, 114, 115, 116, 118}
  const RestrictedMovementPairs: set<int> := {35651693, 110297204, 111411232, 112525412, 112525421, 112525422, 112525427, 116981859, 121438309, 121438319, 122552436, 123666550, 127008869, 127008873, 128122996, 129237093, 129237106, 131465317}

  /** For each group and each of its terms, an index where the term leaves the codes of "restricted movement". */
  const RestrictedMovementWitnesses: seq<seq<nat>> := [[0, 0, 0, 0], [1, 0, 2, 0, 3, 0], [0, 0, 2, 0, 0, 0], [0, 0, 0, 0, 0, 1], [0, 0, 0, 0, 0], [0, 0, 0, 0], [0, 2, 0, 0, 0]]

  /**
    * The character codes and adjacent-pair codes of "reduced visibility",
    * coded as above. The codes are those of ' ' b c d e i l r s t u v y; the
    * pairs, in the order listed, are ' v' (35651702 = 0x11_0000 * 32 + 118),
    * bi, ce, 'd ', du, ed, ib, il, is, it, li, re, si, ty, uc, vi.
    */
  const ReducedVisibilityCodes: set<int> := {32, 98, 99, 100, 101, 105, 108, 114, 115, 116, 117, 118, 121}
  const ReducedVisibilityPairs: set<int> := {35651702, 109183081, 110297189, 111411232, 111411317, 112525412, 116981858, 116981868, 116981875, 116981876, 120324201, 127008869, 128122985, 129237113, 130351203, 131465321}

  /** For each group and each of its terms, an index where the term leaves the codes of "reduced visibility". */
  const ReducedVisibilityWitnesses: seq<seq<nat>> := [[0, 0, 0, 0], [0, 0, 0, 0, 0, 0], [0, 0, 1, 0, 0, 0], [0, 0, 0, 0, 0, 0], [0, 0, 0, 0, 0], [0, 0, 0, 0], [0, 0, 0, 2, 0]]

  // The terms of each group leave the codes of "restricted movement" at the witness indices;
  // one lemma per group keeps each evaluation small.

  lemma FireThermalTermsExcludedRestrictedMovement()
    ensures TermsExcluded(FireThermalTerms, RestrictedMovementWitnesses[0], RestrictedMovementCodes, RestrictedMovementPairs, 0)
  {
  }

  lemma MechanicalTermsExcludedRestrictedMovement()
    ensures TermsExcluded(MechanicalTerms, RestrictedMovementWitnesses[1], RestrictedMovementCodes, RestrictedMovementPairs, 0)
  {
  }

  lemma ChemicalTermsExcludedRestrictedMovement()
    ensures TermsExcluded(ChemicalTerms, RestrictedMovementWitnesses[2], RestrictedMovementCodes, RestrictedMovementPairs, 0)
  {
  }

  lemma HeightsTermsExcludedRestrictedMovement()
    ensures TermsExcluded(HeightsTerms, RestrictedMovementWitnesses[3], RestrictedMovementCodes, RestrictedMovementPairs, 0)
  {
  }

  lemma ElectricalTermsExcludedRestrictedMovement()
    ensures TermsExcluded(ElectricalTerms, RestrictedMovementWitnesses[4], RestrictedMovementCodes, RestrictedMovementPairs, 0)
  {
  }

  lemma ConfinedSpaceTermsExcludedRestrictedMovement()
    ensures TermsExcluded(ConfinedSpaceTerms, RestrictedMovementWitnesses[5], RestrictedMovementCodes, RestrictedMovementPairs, 0)
  {
  }

  lemma EnvironmentalTermsExcludedRestrictedMovement()
    ensures TermsExcluded(EnvironmentalTerms, RestrictedMovementWitnesses[6], RestrictedMovementCodes, RestrictedMovementPairs, 0)
  {
  }

  /** Every term of every group has a character or an adjacent pair that "restricted movement" lacks. */
  lemma RestrictedMovementExcluded()
    ensures ChainExcluded(RestrictedMovementWitnesses, RestrictedMovementCodes, RestrictedMovementPairs)
  {
    FireThermalTermsExcludedRestrictedMovement();
    MechanicalTermsExcludedRestrictedMovement();
    ChemicalTermsExcludedRestrictedMovement();
    HeightsTermsExcludedRestrictedMovement();
    ElectricalTermsExcludedRestrictedMovement();
    ConfinedSpaceTermsExcludedRestrictedMovement();
    EnvironmentalTermsExcludedRestrictedMovement();
  }

  lemma RestrictedMovementLower(hazard: string)
    requires hazard == "Restricted Movement"
    ensures Lower(hazard) == "restricted movement"
  {
  }

  lemma RestrictedMovementCodesHold(h: string)
    requires h == "restricted movement"
    ensures CodesFrom(h, RestrictedMovementCodes, RestrictedMovementPairs, 0)
  {
    assert CodesFrom("restricted movement", RestrictedMovementCodes, RestrictedMovementPairs, 9);
  }

  /** No group selects "Restricted Movement": the label falls through every term of the chain. */
  lemma RestrictedMovementMisses(hazard: string)
    requires hazard == "Restricted Movement"
    ensures forall i | 0 <= i < |Chain| :: !Selects(i, Lower(hazard))
  {
    RestrictedMovementLower(hazard);
    RestrictedMovementCodesHold(Lower(hazard));
    RestrictedMovementExcluded();
    NoGroupSelects(Lower(hazard), RestrictedMovementWitnesses, RestrictedMovementCodes, RestrictedMovementPairs);
  }

  // The terms of each group leave the codes of "reduced visibility" at the witness indices;
  // one lemma per group keeps each evaluation small.

  lemma FireThermalTermsExcludedReducedVisibility()
    ensures TermsExcluded(FireThermalTerms, ReducedVisibilityWitnesses[0], ReducedVisibilityCodes, ReducedVisibilityPairs, 0)
  {
  }

  lemma MechanicalTermsExcludedReducedVisibility()
    ensures TermsExcluded(MechanicalTerms, ReducedVisibilityWitnesses[1], ReducedVisibilityCodes, ReducedVisibilityPairs, 0)
  {
  }

  lemma ChemicalTermsExcludedReducedVisibility()
    ensures TermsExcluded(ChemicalTerms, ReducedVisibilityWitnesses[2], ReducedVisibilityCodes, ReducedVisibilityPairs, 0)
  {
  }

  lemma HeightsTermsExcludedReducedVisibility()
    ensures TermsExcluded(HeightsTerms, ReducedVisibilityWitnesses[3], ReducedVisibilityCodes, ReducedVisibilityPairs, 0)
  {
  }

  lemma ElectricalTermsExcludedReducedVisibility()
    ensures TermsExcluded(ElectricalTerms, ReducedVisibilityWitnesses[4], ReducedVisibilityCodes, ReducedVisibilityPairs, 0)
  {
  }

  lemma ConfinedSpaceTermsExcludedReducedVisibility()
    ensures TermsExcluded(ConfinedSpaceTerms, ReducedVisibilityWitnesses[5], ReducedVisibilityCodes, ReducedVisibilityPairs, 0)
  {
  }

  lemma EnvironmentalTermsExcludedReducedVisibility()
    ensures TermsExcluded(EnvironmentalTerms, ReducedVisibilityWitnesses[6], ReducedVisibilityCodes, ReducedVisibilityPairs, 0)
  {
  }

  /** Every term of every group has a character or an adjacent pair that "reduced visibility" lacks. */
  lemma ReducedVisibilityExcluded()
    ensures ChainExcluded(ReducedVisibilityWitnesses, ReducedVisibilityCodes, ReducedVisibilityPairs)
  {
    FireThermalTermsExcludedReducedVisibility();
    MechanicalTermsExcludedReducedVisibility();
    ChemicalTermsExcludedReducedVisibility();
    HeightsTermsExcludedReducedVisibility();
    ElectricalTermsExcludedReducedVisibility();
    ConfinedSpaceTermsExcludedReducedVisibility();
    EnvironmentalTermsExcludedReducedVisibility();
  }

  lemma ReducedVisibilityLower(hazard: string)
    requires hazard == "Reduced Visibility"
    ensures Lower(hazard) == "reduced visibility"
  {
  }

  lemma ReducedVisibilityCodesHold(h: string)
    requires h == "reduced visibility"
    ensures CodesFrom(h, ReducedVisibilityCodes, ReducedVisibilityPairs, 0)
  {
    assert CodesFrom("reduced visibility", ReducedVisibilityCodes, ReducedVisibilityPairs, 9);
  }

  /** No group selects "Reduced Visibility": the label falls through every term of the chain. */
  lemma ReducedVisibilityMisses(hazard: string)
    requires hazard == "Reduced Visibility"
    ensures forall i | 0 <= i < |Chain| :: !Selects(i, Lower(hazard))
  {
    ReducedVisibilityLower(hazard);
    ReducedVisibilityCodesHold(Lower(hazard));
    ReducedVisibilityExcluded();
    NoGroupSelects(Lower(hazard), ReducedVisibilityWitnesses, ReducedVisibilityCodes, ReducedVisibilityPairs);
  }

  /** Matching is on the lower-cased label: "Electrical Fire" gets the fire group, not the electrical one. */
  lemma ElectricalFireGetsFireGroup(hazard: string)
    requires hazard == "Electrical Fire"
    ensures GroupItems(hazard) == FireThermalItems
  {
    var h := Lower(hazard);
    assert h == "electrical fire";
    assert OccursAt(h, FireThermalTerms[0], 11);
    assert Selects(0, h);
  }

  /** A fire label at High risk: the four fire items followed by the two High-risk items. */
  lemma FireAtHighRisk(hazard: string, riskLevel: string)
    requires hazard == "fire in work area" && riskLevel == "High"
    ensures Controls(hazard, riskLevel) == FireThermalItems + HighRiskItems
    ensures |Controls(hazard, riskLevel)| == 6
  {
    var h := Lower(hazard);
    assert h == "fire in work area";
    assert OccursAt(h, FireThermalTerms[0], 0);
    assert Selects(0, h);
  }

  /** "Restricted Movement", a label the hazard engine itself produces, falls through to the fallback. */
  lemma RestrictedMovementGetsFallback(hazard: string)
    requires hazard == "Restricted Movement"
    ensures GroupItems(hazard) == Fallback
  {
    RestrictedMovementMisses(hazard);
    FallbackExactly(hazard);
  }


  /** "Reduced Visibility", a label the hazard engine itself produces, falls through to the fallback. */
  lemma ReducedVisibilityGetsFallback(hazard: string)
    requires hazard == "Reduced Visibility"
    ensures GroupItems(hazard) == Fallback
  {
    ReducedVisibilityMisses(hazard);
    FallbackExactly(hazard);
  }

}
