/**
  * Hazard identification: text normalization, keyword and fuzzy matching
  * against seven ordered hazard categories, the two image-tag overrides, and
  * the confidence score.
  */
module HazardEngine {
  import opened Wrappers
  import opened Text
  import opened Levels
  import opened Numbers

  // ---------------------------------------------------------------------------
  // The hazard dictionary
  // ---------------------------------------------------------------------------

  /** One entry of the hazard dictionary: its keywords and the hazard labels a match adds. */
  datatype Category = Category(name: string, keywords: seq<string>, hazards: seq<string>)

  /** The dictionary in declaration order, which is the order the categories are tried in. */
  const Categories: seq<Category> := [
    Category("fire_hot",
      ["fire", "spark", "flame", "heat", "hot", "welding", "grinding", "explosion", "burn"],
      ["Fire Hazard", "Thermal Burn", "Explosion Risk"]),
    Category("mechanical",
      ["machinery", "equipment", "grinding", "sharp", "blade", "moving parts", "crush", "pinch"],
      ["Mechanical Injury", "Entrapment", "Flying Debris"]),
    Category("chemical_tox",
      ["chemical", "acid", "toxic", "gas", "fumes", "solvent", "spill", "leak", "poison"],
      ["Chemical Exposure", "Respiratory Irritation", "Toxic Inhalation"]),
    Category("height_fall",
      ["height", "ladder", "scaffold", "roof", "fall", "drop", "climb", "unstable"],
      ["Fall from Height", "Falling Objects", "Structural Instability"]),
    Category("electrical",
      ["electrical", "wire", "shock", "voltage", "power", "circuit", "exposed", "cable"],
      ["Electric Shock", "Arc Flash", "Electrical Fire"]),
    Category("confined",
      ["confined", "tank", "pit", "narrow", "enclosure", "ventilation", "oxygen", "trapped"],
      ["Asphyxiation", "Restricted Movement", "Poor Air Quality"]),
    Category("environmental",
      ["lighting", "noise", "vibration", "slippery", "wet", "trip", "dust", "weather"],
      ["Slip/Trip Hazard", "Noise Induced Hearing Loss", "Reduced Visibility"])
  ]

  // ---------------------------------------------------------------------------
  // Normalization
  // ---------------------------------------------------------------------------

  /**
    * A colloquial rewrite `\b<pattern>\b` -> replacement. Every pattern starts
    * and ends with a letter, so the anchors hold exactly when the characters
    * around the occurrence are not word characters; a space inside a pattern
    * (`\bno\b \bvent\b`) matches one literal space and nothing else.
    */
  datatype Rewrite = Rewrite(pattern: string, replacement: string)

  const Goin := Rewrite("goin", "going")
  const Weldin := Rewrite("weldin", "welding")
  const LoneN := Rewrite("n", "and")
  const Wat := Rewrite("wat", "what")
  const Doin := Rewrite("doin", "doing")
  const Messy := Rewrite("messy", "cluttered")
  const Fixin := Rewrite("fixin", "repairing")
  const NoVent := Rewrite("no vent", "poor ventilation")
  const HiVolt := Rewrite("hi volt", "high voltage")
  const Stair := Rewrite("stair", "staircase")
  const Wire := Rewrite("wire", "electrical wiring")

  /** The rewrites in the order they are applied; each one sees the output of those before it. */
  const Rewrites: seq<Rewrite> := [Goin, Weldin, LoneN, Wat, Doin, Messy, Fixin, NoVent, HiVolt, Stair, Wire]

  /** Every pattern is non-empty and starts with a lower-case word character. */
  predicate RewritesWellFormed(rws: seq<Rewrite>)
  {
    forall k :: 0 <= k < |rws| ==> rws[k].pattern != [] && IsLowerWordChar(rws[k].pattern[0])
  }

  /** Every replacement is made of lower-case word characters and spaces. */
  predicate ReplacementsPlain(rws: seq<Rewrite>)
  {
    forall k :: 0 <= k < |rws| ==> LowerWordsAndSpaces(rws[k].replacement)
  }

  lemma RewriteTableWellFormed()
    ensures RewritesWellFormed(Rewrites)
  {
  }

  lemma FirstReplacementsPlain()
    ensures LowerWordsAndSpaces(Goin.replacement) && LowerWordsAndSpaces(Weldin.replacement)
    ensures LowerWordsAndSpaces(LoneN.replacement) && LowerWordsAndSpaces(Wat.replacement)
    ensures LowerWordsAndSpaces(Doin.replacement) && LowerWordsAndSpaces(Messy.replacement)
  {
  }

  lemma LastReplacementsPlain()
    ensures LowerWordsAndSpaces(Fixin.replacement) && LowerWordsAndSpaces(NoVent.replacement)
    ensures LowerWordsAndSpaces(HiVolt.replacement) && LowerWordsAndSpaces(Stair.replacement)
    ensures LowerWordsAndSpaces(Wire.replacement)
  {
  }

  lemma RewriteTablePlain()
    ensures ReplacementsPlain(Rewrites)
  {
    FirstReplacementsPlain();
    LastReplacementsPlain();
  }

  /** `\b<p>\b` matches `s` at index `i`. */
  predicate WholeWordAt(s: string, i: nat, p: string)
  {
    && i + |p| <= |s|
    && s[i..i + |p|] == p
    && (i == 0 || !IsWordChar(s[i - 1]))
    && (i + |p| == |s| || !IsWordChar(s[i + |p|]))
  }

  /**
    * `re.sub` of one rewrite on `s[i..]`: scan left to right; at a match emit
    * the replacement and resume after the match, otherwise copy one character.
    */
  function SubstituteFrom(s: string, i: nat, rw: Rewrite): string
    requires i <= |s| && rw.pattern != []
    decreases |s| - i
  {
    if i == |s| then []
    else if WholeWordAt(s, i, rw.pattern) then rw.replacement + SubstituteFrom(s, i + |rw.pattern|, rw)
    else [s[i]] + SubstituteFrom(s, i + 1, rw)
  }

  function Substitute(s: string, rw: Rewrite): string
    requires rw.pattern != []
  {
    SubstituteFrom(s, 0, rw)
  }

  /** The rewrites applied one after the other, in order. */
  function ApplyRewrites(s: string, rws: seq<Rewrite>): string
    requires RewritesWellFormed(rws)
    decreases |rws|
  {
    if rws == [] then s else ApplyRewrites(Substitute(s, rws[0]), rws[1..])
  }

  /** `re.sub(r'[^\w\s]', ' ', s)`: every character that is neither a word character nor whitespace becomes a space. */
  function ReplacePunctuation(s: string): (r: string)
    ensures |r| == |s|
    ensures forall i :: 0 <= i < |s| ==> r[i] == if IsWordChar(s[i]) || IsSpace(s[i]) then s[i] else ' '
  {
    seq(|s|, i requires 0 <= i < |s| => if IsWordChar(s[i]) || IsSpace(s[i]) then s[i] else ' ')
  }

  lemma {:induction false} SubstituteKeepsShape(s: string, i: nat, rw: Rewrite)
    requires i <= |s| && rw.pattern != []
    requires LowerWordsAndSpaces(s) && LowerWordsAndSpaces(rw.replacement)
    ensures LowerWordsAndSpaces(SubstituteFrom(s, i, rw))
    decreases |s| - i
  {
    if i < |s| {
      if WholeWordAt(s, i, rw.pattern) {
        SubstituteKeepsShape(s, i + |rw.pattern|, rw);
      } else {
        SubstituteKeepsShape(s, i + 1, rw);
      }
    }
  }

  lemma {:induction false} RewritesKeepShape(s: string, rws: seq<Rewrite>)
    requires RewritesWellFormed(rws) && ReplacementsPlain(rws) && LowerWordsAndSpaces(s)
    ensures LowerWordsAndSpaces(ApplyRewrites(s, rws))
    decreases |rws|
  {
    if rws != [] {
      SubstituteKeepsShape(s, 0, rws[0]);
      RewritesKeepShape(Substitute(s, rws[0]), rws[1..]);
    }
  }

  /** Lower-casing, stripping and replacing punctuation leave only lower-case word characters and whitespace. */
  lemma CleanedShape(text: string)
    ensures LowerWordsAndSpaces(ReplacePunctuation(Strip(Lower(text))))
  {
    var lowered := Lower(text);
    var stripped := Strip(lowered);
    forall j | 0 <= j < |stripped|
      ensures !IsUpper(stripped[j])
    {
      SubstringChar(lowered, stripped, j);
    }
  }

  /**
    * The text `_normalize_text` holds before its last step: lower-cased,
    * stripped, punctuation replaced by spaces and the rewrites applied in
    * order. Only lower-case word characters and whitespace are left.
    */
  function Rewritten(text: string): (r: string)
    ensures LowerWordsAndSpaces(r)
  {
    var cleaned := ReplacePunctuation(Strip(Lower(text)));
    RewriteTableWellFormed();
    RewriteTablePlain();
    CleanedShape(text);
    RewritesKeepShape(cleaned, Rewrites);
    ApplyRewrites(cleaned, Rewrites)
  }

  /**
    * `_normalize_text`: the rewritten text with its whitespace collapsed to
    * single spaces. The result is always in normal form.
    */
  function Normalize(text: string): (r: string)
    ensures NormalForm(r)
  {
    var rewritten := Rewritten(text);
    WordsAreTokens(rewritten);
    JoinTokens(Words(rewritten));
    Join(Words(rewritten), " ")
  }

  /** The normalizer as written: the text is rebound once per rewrite, in table order. */
  method NormalizeText(text: string) returns (normalized: string)
    ensures normalized == Normalize(text)
  {
    var t := Strip(Lower(text));
    t := ReplacePunctuation(t);
    ghost var cleaned := t;
    RewriteTableWellFormed();
    for k := 0 to |Rewrites|
      invariant ApplyRewrites(t, Rewrites[k..]) == ApplyRewrites(cleaned, Rewrites)
    {
      assert Rewrites[k..][1..] == Rewrites[k + 1..];
      t := Substitute(t, Rewrites[k]);
    }
    normalized := Join(Words(t), " ");
  }

  // ---------------------------------------------------------------------------
  // Matching
  // ---------------------------------------------------------------------------

  /**
    * `difflib.get_close_matches(keyword, terms, n=1, cutoff=0.8)`, reduced to
    * its first result: the closest term of similarity at least 0.8, if any.
    * The similarity ratio itself is not modelled; the matcher is a parameter.
    */
  type Matcher = (string, seq<string>) -> Option<string>

  /** A term equal to the keyword has similarity 1.0, so it is always accepted. */
  ghost predicate AcceptsEqual(fuzzy: Matcher)
  {
    forall keyword: string, terms: seq<string> :: keyword in terms ==> fuzzy(keyword, terms).Some?
  }

  /** What the matcher returns is one of the terms it was given. */
  ghost predicate ReturnsTerm(fuzzy: Matcher)
  {
    forall keyword: string, terms: seq<string> ::
      fuzzy(keyword, terms).Some? ==> fuzzy(keyword, terms).value in terms
  }

  function KeywordEntry(keyword: string): string
  {
    "Keyword '" + keyword + "' found in text"
  }

  function FuzzyEntry(found: string, keyword: string): string
  {
    "Fuzzy match '" + found + "' (for '" + keyword + "')"
  }

  const FireEntry := "Visual evidence of Fire/Sparks detected"
  const ClutterEntry := "Visual evidence of cluttered workspace"
  const NoIndicators := "No specific safety keywords or hazards identified in input."
  const FireLabel := "Fire Hazard"
  const SlipTripLabel := "Slip/Trip Hazard"

  /** The lower-cased tags, in order. */
  function LowerAll(tags: seq<string>): (r: seq<string>)
    ensures |r| == |tags|
    ensures forall i :: 0 <= i < |tags| ==> r[i] == Lower(tags[i])
  {
    seq(|tags|, i requires 0 <= i < |tags| => Lower(tags[i]))
  }

  /** The fuzzy step searches the tokens of the normalized text, then the lower-cased tags. */
  function SearchTerms(normalizedText: string, tags: seq<string>): seq<string>
  {
    Words(normalizedText) + LowerAll(tags)
  }

  /**
    * The evidence entry of the first keyword that matches: the substring test
    * is tried first, the fuzzy match only when it fails.
    */
  function KeywordEvidence(keywords: seq<string>, text: string, terms: seq<string>, fuzzy: Matcher): Option<string>
  {
    if keywords == [] then None
    else if Contains(text, keywords[0]) then Some(KeywordEntry(keywords[0]))
    else match fuzzy(keywords[0], terms)
      case Some(found) => Some(FuzzyEntry(found, keywords[0]))
      case None => KeywordEvidence(keywords[1..], text, terms, fuzzy)
  }

  predicate Matched(cat: Category, text: string, terms: seq<string>, fuzzy: Matcher)
  {
    KeywordEvidence(cat.keywords, text, terms, fuzzy).Some?
  }

  /** The set of labels listed in a category. */
  function Labels(hazards: seq<string>): set<string>
  {
    set i | 0 <= i < |hazards| :: hazards[i]
  }

  /** What one category contributes to the evidence list: at most one entry. */
  function CategoryEntry(cat: Category, text: string, terms: seq<string>, fuzzy: Matcher): seq<string>
  {
    match KeywordEvidence(cat.keywords, text, terms, fuzzy)
    case Some(e) => [e]
    case None => []
  }

  function CategoryLabels(cat: Category, text: string, terms: seq<string>, fuzzy: Matcher): set<string>
  {
    if Matched(cat, text, terms, fuzzy) then Labels(cat.hazards) else {}
  }

  function CategoryEvidence(cats: seq<Category>, text: string, terms: seq<string>, fuzzy: Matcher): seq<string>
  {
    if cats == [] then []
    else CategoryEntry(cats[0], text, terms, fuzzy) + CategoryEvidence(cats[1..], text, terms, fuzzy)
  }

  function CategoryHazards(cats: seq<Category>, text: string, terms: seq<string>, fuzzy: Matcher): set<string>
  {
    if cats == [] then {}
    else CategoryLabels(cats[0], text, terms, fuzzy) + CategoryHazards(cats[1..], text, terms, fuzzy)
  }

  predicate ShowsFire(tag: string)
  {
    Contains(Lower(tag), "fire")
  }

  predicate ShowsClutter(tag: string)
  {
    AnyIn(["trip", "clutter", "messy"], Lower(tag))
  }

  function TagEntries(tag: string): seq<string>
  {
    (if ShowsFire(tag) then [FireEntry] else []) + (if ShowsClutter(tag) then [ClutterEntry] else [])
  }

  function TagLabels(tag: string): set<string>
  {
    (if ShowsFire(tag) then {FireLabel} else {}) + (if ShowsClutter(tag) then {SlipTripLabel} else {})
  }

  function TagEvidence(tags: seq<string>): seq<string>
  {
    if tags == [] then [] else TagEntries(tags[0]) + TagEvidence(tags[1..])
  }

  function TagHazards(tags: seq<string>): set<string>
  {
    if tags == [] then {} else TagLabels(tags[0]) + TagHazards(tags[1..])
  }

  // ---------------------------------------------------------------------------
  // Confidence and the result
  // ---------------------------------------------------------------------------

  datatype HazardAnalysis = HazardAnalysis(
    hazards: set<string>,
    confidenceScore: int,
    confidenceLevel: Level,
    normalizedText: string,
    evidence: seq<string>,
    reasoning: string)


  /** The score when some hazard was found: 30, plus 15 per evidence entry, plus 15 for text and tags together, capped at 99. */
  function ConfidenceScore(count: nat, multimodal: bool): int
  {
    Min(99, 30 + 15 * count + (if multimodal then 15 else 0))
  }

  function ConfidenceLevel(score: int): (l: Level)
    ensures l == High <==> score > 75
    ensures l == Medium <==> 40 < score <= 75
    ensures l == Low <==> score <= 40
  {
    if score > 75 then High else if score > 40 then Medium else Low
  }

  /** Cites the number of evidence entries and the first three of them. */
  function Reasoning(evidence: seq<string>): string
  {
    "Analysis based on " + NatToString(|evidence|) + " distinct hazard indicators: "
      + Join(evidence[..Min(3, |evidence|)], ", ") + "..."
  }

  /** The confidence step: score 10 and level Low without hazards, otherwise the evidence-based score. */
  function Assess(multimodal: bool, normalizedText: string, evidence: seq<string>, hazards: set<string>): HazardAnalysis
  {
    if hazards == {} then
      HazardAnalysis(hazards, 10, Low, normalizedText, evidence, NoIndicators)
    else
      var score := ConfidenceScore(|evidence|, multimodal);
      HazardAnalysis(hazards, score, ConfidenceLevel(score), normalizedText, evidence, Reasoning(evidence))
  }

  /** `identify_hazards` as a value: what the imperative method below computes. */
  function Analyze(textInput: string, imageTags: seq<string>, fuzzy: Matcher): HazardAnalysis
  {
    var normalizedText := Normalize(textInput);
    var terms := SearchTerms(normalizedText, imageTags);
    Assess(textInput != [] && imageTags != [], normalizedText,
      CategoryEvidence(Categories, normalizedText, terms, fuzzy) + TagEvidence(imageTags),
      CategoryHazards(Categories, normalizedText, terms, fuzzy) + TagHazards(imageTags))
  }

  /**
    * The category loop of `identify_hazards`: for each category, the keywords
    * are tried in order; the first one that matches appends its evidence entry,
    * adds every label of the category and ends the category (`break`).
    */
  method ScanCategories(cats: seq<Category>, normalizedText: string, searchTerms: seq<string>, fuzzy: Matcher)
    returns (evidenceMatches: seq<string>, identifiedHazards: set<string>)
    ensures evidenceMatches == CategoryEvidence(cats, normalizedText, searchTerms, fuzzy)
    ensures identifiedHazards == CategoryHazards(cats, normalizedText, searchTerms, fuzzy)
  {
    identifiedHazards := {};
    evidenceMatches := [];
    for c := 0 to |cats|
      invariant evidenceMatches + CategoryEvidence(cats[c..], normalizedText, searchTerms, fuzzy)
        == CategoryEvidence(cats, normalizedText, searchTerms, fuzzy)
      invariant identifiedHazards + CategoryHazards(cats[c..], normalizedText, searchTerms, fuzzy)
        == CategoryHazards(cats, normalizedText, searchTerms, fuzzy)
    {
      var data := cats[c];
      ghost var evidenceBefore, hazardsBefore := evidenceMatches, identifiedHazards;
      var categoryMatch := false;
      for k := 0 to |data.keywords|
        invariant !categoryMatch
        invariant evidenceMatches == evidenceBefore && identifiedHazards == hazardsBefore
        invariant KeywordEvidence(data.keywords[k..], normalizedText, searchTerms, fuzzy)
          == KeywordEvidence(data.keywords, normalizedText, searchTerms, fuzzy)
      {
        var keyword := data.keywords[k];
        assert data.keywords[k..][1..] == data.keywords[k + 1..];
        if Contains(normalizedText, keyword) {
          categoryMatch := true;
          evidenceMatches := evidenceMatches + [KeywordEntry(keyword)];
        } else {
          var fuzzyMatches := fuzzy(keyword, searchTerms);
          if fuzzyMatches.Some? {
            categoryMatch := true;
            evidenceMatches := evidenceMatches + [FuzzyEntry(fuzzyMatches.value, keyword)];
          }
        }
        if categoryMatch {
          identifiedHazards := AddLabels(identifiedHazards, data.hazards);
          break;
        }
      }
      assert evidenceMatches == evidenceBefore + CategoryEntry(data, normalizedText, searchTerms, fuzzy);
      assert identifiedHazards == hazardsBefore + CategoryLabels(data, normalizedText, searchTerms, fuzzy);
      CategoryStep(cats, c, normalizedText, searchTerms, fuzzy, evidenceBefore, evidenceMatches,
                   hazardsBefore, identifiedHazards);
    }
  }

  /** `identified_hazards.update(data["hazards"])`: every label of the category joins the set. */
  method AddLabels(hazards: set<string>, labels: seq<string>) returns (updated: set<string>)
    ensures updated == hazards + Labels(labels)
  {
    updated := hazards;
    for j := 0 to |labels|
      invariant updated == hazards + set i | 0 <= i < j :: labels[i]
    {
      updated := updated + {labels[j]};
    }
  }

  lemma CategoryStep(cats: seq<Category>, c: nat, text: string, terms: seq<string>, fuzzy: Matcher,
                     before: seq<string>, after: seq<string>, hazardsBefore: set<string>, hazardsAfter: set<string>)
    requires c < |cats|
    requires after == before + CategoryEntry(cats[c], text, terms, fuzzy)
    requires hazardsAfter == hazardsBefore + CategoryLabels(cats[c], text, terms, fuzzy)
    ensures after + CategoryEvidence(cats[c + 1..], text, terms, fuzzy) == before + CategoryEvidence(cats[c..], text, terms, fuzzy)
    ensures hazardsAfter + CategoryHazards(cats[c + 1..], text, terms, fuzzy)
      == hazardsBefore + CategoryHazards(cats[c..], text, terms, fuzzy)
  {
    assert cats[c..][1..] == cats[c + 1..];
  }

  /** The image-tag loop of `identify_hazards`: the "fire" and the trip/clutter/messy overrides. */
  method ScanTags(imageTags: seq<string>, evidence: seq<string>, hazards: set<string>)
    returns (evidenceMatches: seq<string>, identifiedHazards: set<string>)
    ensures evidenceMatches == evidence + TagEvidence(imageTags)
    ensures identifiedHazards == hazards + TagHazards(imageTags)
  {
    evidenceMatches, identifiedHazards := evidence, hazards;
    for t := 0 to |imageTags|
      invariant evidenceMatches + TagEvidence(imageTags[t..]) == evidence + TagEvidence(imageTags)
      invariant identifiedHazards + TagHazards(imageTags[t..]) == hazards + TagHazards(imageTags)
    {
      ghost var evidenceBefore, hazardsBefore := evidenceMatches, identifiedHazards;
      var tagL := Lower(imageTags[t]);
      if Contains(tagL, "fire") {
        identifiedHazards := identifiedHazards + {FireLabel};
        evidenceMatches := evidenceMatches + [FireEntry];
      }
      if AnyIn(["trip", "clutter", "messy"], tagL) {
        identifiedHazards := identifiedHazards + {SlipTripLabel};
        evidenceMatches := evidenceMatches + [ClutterEntry];
      }
      TagStep(imageTags, t, evidenceBefore, evidenceMatches, hazardsBefore, identifiedHazards);
    }
  }

  lemma TagStep(tags: seq<string>, t: nat, before: seq<string>, after: seq<string>,
                hazardsBefore: set<string>, hazardsAfter: set<string>)
    requires t < |tags|
    requires after == before + TagEntries(tags[t]) && hazardsAfter == hazardsBefore + TagLabels(tags[t])
    ensures after + TagEvidence(tags[t + 1..]) == before + TagEvidence(tags[t..])
    ensures hazardsAfter + TagHazards(tags[t + 1..]) == hazardsBefore + TagHazards(tags[t..])
  {
    assert tags[t..][1..] == tags[t + 1..];
  }

  /**
    * The confidence step of `identify_hazards`: score 10 and the fixed message
    * without hazards; otherwise 30 plus 15 per evidence entry plus the
    * multimodal bonus (raw text and tags both non-empty), capped at 99.
    */
  method AssessConfidence(textInput: string, imageTags: seq<string>, normalizedText: string,
                          evidenceMatches: seq<string>, identifiedHazards: set<string>)
    returns (result: HazardAnalysis)
    ensures result == Assess(textInput != [] && imageTags != [], normalizedText, evidenceMatches, identifiedHazards)
  {
    if identifiedHazards == {} {
      result := HazardAnalysis(identifiedHazards, 10, Low, normalizedText, evidenceMatches, NoIndicators);
    } else {
      var matchCount := |evidenceMatches|;
      var baseScore := 30 + 15 * matchCount;
      if textInput != [] && imageTags != [] {
        baseScore := baseScore + 15;
      }
      var confidenceScore := Min(99, baseScore);
      var confidenceLevel := if confidenceScore > 75 then High else if confidenceScore > 40 then Medium else Low;
      result := HazardAnalysis(identifiedHazards, confidenceScore, confidenceLevel, normalizedText,
                               evidenceMatches, Reasoning(evidenceMatches));
    }
  }

  /** `identify_hazards` as written: normalize, run the two loops, then compute the confidence. */
  method IdentifyHazards(textInput: string, imageTags: seq<string>, fuzzy: Matcher) returns (result: HazardAnalysis)
    ensures result == Analyze(textInput, imageTags, fuzzy)
  {
    var normalizedText := NormalizeText(textInput);
    var searchTerms := SearchTerms(normalizedText, imageTags);
    var evidenceMatches, identifiedHazards := ScanCategories(Categories, normalizedText, searchTerms, fuzzy);
    evidenceMatches, identifiedHazards := ScanTags(imageTags, evidenceMatches, identifiedHazards);
    result := AssessConfidence(textInput, imageTags, normalizedText, evidenceMatches, identifiedHazards);
  }

}
