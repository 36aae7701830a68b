# Safety assessment rule engines, modelled in Dafny

This project models the three rule engines of a site-safety assessment
backend.

- **Hazard identification.** The hazard engine normalizes a free-text job
  description. It does this in five steps: lower-case, strip, turn
  punctuation into spaces, apply eleven colloquial whole-word rewrites in
  their declared order, and collapse whitespace. It then walks the seven
  categories of its hazard dictionary. In each category the first keyword
  that matches wins; a keyword matches by substring test or, failing that,
  by a fuzzy match against the text tokens and the lower-cased image tags.
  The winning keyword adds the category's labels and one evidence entry.
  Two image-tag overrides follow: "fire", and "trip"/"clutter"/"messy".
  Finally the engine scores its confidence from the number of evidence
  entries.
- **Risk scoring.** The risk engine adjusts likelihood and severity by three
  conservative flags. It multiplies them into a score and maps the score to
  Low, Medium or High.
- **Control selection.** The control engine maps a hazard label to the items
  of the first group, in a priority-ordered chain of term groups, that has a
  term inside the lower-cased label. It uses a fallback when no group
  matches, and appends two items when the risk level is exactly "High".

## How the model is organised

Each engine keeps its source's imperative shape:
- `HazardEngine.NormalizeText` is a method with a loop that rebinds the text
  once per rewrite.
- `HazardEngine.IdentifyHazards` runs the category loop (its inner keyword
  loop has a `break`) and the tag loop as methods.
- `RiskEngine.CalculateRisk` reassigns its locals step by step.
- `ControlEngine.SelectControls` is the if/elif chain.

Each method is proved equal to a specification function: `Normalize`,
`Analyze`, `Risk` and `Controls`. The properties are proved as lemmas about
those functions.

The three Python classes hold no state that changes after construction,
because each dictionary is set once in `__init__`. So the tables are
module-level constants and there are no Dafny classes.

Modules:
- `Wrappers`: `Option`.
- `Levels`: the Low/Medium/High level and its name.
- `Numbers`: Python's `min`.
- `Text`: an ASCII model of `str.lower`, `strip`, `split`, `join`, `in` and
  `str(int)`.
- `HazardEngine` and `HazardProperties`.
- `RiskEngine`.
- `ControlEngine`.

Each module sits in the file of the same name (`hazard_properties.dfy` for
`HazardProperties`).

`difflib.get_close_matches(keyword, terms, n=1, cutoff=0.8)` is a function
parameter of type `Matcher`. Lemmas that need it assume one of two
properties of the matcher:
- `AcceptsEqual`: an identical term, whose ratio is 1.0, is always accepted.
- `ReturnsTerm`: a match is one of the given terms.

The source returns the hazard labels as `list(set)`, so they are a
`set<string>`. The `type` field of `ControlItem` is called `kind`, because
`type` is a Dafny keyword.

The normalizer is not idempotent, and the model follows the code in this.
One might expect re-normalizing a normalized string to change nothing. But
the two-word rewrite `\bno\b \bvent\b` matches only one literal space, and
whitespace collapses only after the rewrites. So "no, vent" normalizes to "no vent", and that normalizes again
to "poor ventilation" (`HazardProperties.NormalizeNotIdempotent`).

Risk inputs are not validated before the adjustments, as in the code. With no
flag raised they pass through unchanged, even outside 1..5; any raised flag
caps the value it adjusts at 5, which lowers an out-of-range input
(`RiskEngine.FlagCapsAtFive`). The bounds lemmas require inputs in 1..5.

## Model

Small helpers without a row (step lemmas, table facts, cost-splitting
leaves) are covered by the rows of the members that use them.

| member | source | states |
|---|---|---|
| Levels.Name | backend/logic/risk_engine.py:33-37 | the level strings "Low", "Medium" and "High" correspond one-to-one with the three levels |
| Numbers.Min | backend/logic/risk_engine.py:20 | Python's `min`: the result is one of the two arguments and no larger than either |
| Text.Lower | backend/logic/hazard_engine.py:42 | lower-casing keeps the length, maps each character through LowerChar and leaves no upper-case letter |
| Text.LeadingSpace | backend/logic/hazard_engine.py:42 | the number of whitespace characters that open the text: all before it are whitespace, the one at it is not |
| Text.Strip | backend/logic/hazard_engine.py:42 | only the whitespace before position LeadingSpace and after the kept text is removed: the result is the input between two positions with only whitespace outside them, and it neither starts nor ends with whitespace |
| Text.StripUnique | backend/logic/hazard_engine.py:42 | any cut with only whitespace outside it and no whitespace at either end of the kept text is the one strip makes |
| Text.Contains | backend/logic/hazard_engine.py:82 | Python's `sub in s`: some position holds the substring; ContainsInfix and JoinContains give the positive cases used elsewhere |
| Text.AnyIn | backend/logic/hazard_engine.py:103 | `any(t in s for t in terms)`: some term is a substring of the text |
| Text.StripKeeps | backend/logic/hazard_engine.py:42 | text that neither starts nor ends with whitespace is unchanged by strip |
| Text.Words | backend/logic/hazard_engine.py:63 | `split()` yields non-empty words, none containing whitespace; WordsIsScan shows they are exactly the maximal runs of non-whitespace, in order |
| Text.WordsIsScan | backend/logic/hazard_engine.py:63 | `split()` equals an independent left-to-right scan that flushes the current word at each whitespace character and at the end |
| Text.CollapseKeepsWords | backend/logic/hazard_engine.py:63 | re-joining the words of lower-case text with single spaces keeps exactly its words |
| Text.WordsOfJoin | backend/logic/hazard_engine.py:63 | splitting tokens joined by single spaces gives the tokens back |
| Text.JoinTokens | backend/logic/hazard_engine.py:63 | tokens joined by single spaces are in normal form: lower-case word characters, single spaces, nothing at either end |
| Text.Join | backend/logic/hazard_engine.py:122 | `sep.join(ws)`: JoinContains shows every element occurs in the result, WordsOfJoin that splitting tokens joined by one space gives them back |
| Text.NatToString | backend/logic/hazard_engine.py:122 | `str(n)` on a count: non-empty, decimal digits only, no leading zero; NatToStringRoundTrip reads it back as n |
| Text.NatToStringRoundTrip | backend/logic/hazard_engine.py:122 | the decimal string of the evidence count denotes that count |
| HazardEngine.RewriteTableWellFormed | backend/logic/hazard_engine.py:47-59 | every rewrite pattern is non-empty and starts with a lower-case word character |
| HazardEngine.RewriteTablePlain | backend/logic/hazard_engine.py:47-59 | every replacement is made of lower-case word characters and spaces |
| HazardEngine.ReplacePunctuation | backend/logic/hazard_engine.py:44 | each character that is neither a word character nor whitespace becomes a space; every other character is kept, and the length is unchanged |
| HazardEngine.SubstituteFrom | backend/logic/hazard_engine.py:61 | `re.sub` of a whole-word literal pattern from a position on; NoOccurrenceIdle shows text without a whole-word occurrence comes back unchanged, SubstituteKeepsShape keeps lower-case words and spaces, RewriteExamples gives four cases |
| HazardEngine.Substitute | backend/logic/hazard_engine.py:61 | one rewrite over the whole text: "wire" becomes "electrical wiring" but "wires" is kept (RewriteExamples); a pattern whose first letter is absent changes nothing (LeadAbsent) |
| HazardEngine.ApplyRewrites | backend/logic/hazard_engine.py:60-61 | the rewrites in table order, each on the output of the one before; RewritesKeepShape, RewritesIdle, RewritesOfBlank and RewritesKeepWordChar state what the loop preserves |
| HazardEngine.RewritesKeepShape | backend/logic/hazard_engine.py:60-61 | the rewrites keep text made of lower-case word characters and whitespace in that shape |
| HazardEngine.CleanedShape | backend/logic/hazard_engine.py:42-44 | after lower-casing, stripping and the punctuation step only lower-case word characters and whitespace remain |
| HazardEngine.Rewritten | backend/logic/hazard_engine.py:42-61 | the text before the final split and join holds only lower-case word characters and whitespace |
| HazardEngine.Normalize | backend/logic/hazard_engine.py:37-63 | the normalized text is in normal form: lower-case word characters separated by single spaces, no space at either end; NormalizeKeepsWords shows it has exactly the words of the rewritten text |
| HazardEngine.NormalizeText | backend/logic/hazard_engine.py:37-63 | the loop over the rewrite table computes Normalize |
| HazardEngine.LowerAll | backend/logic/hazard_engine.py:76 | the tags are lower-cased one by one, in order |
| HazardEngine.ShowsFire | backend/logic/hazard_engine.py:100 | the lower-cased tag contains "fire"; BonfireShowsFire and FireTagFlagsFire state its use |
| HazardEngine.ShowsClutter | backend/logic/hazard_engine.py:103 | the lower-cased tag contains "trip", "clutter" or "messy"; TagPairing and TagEvidenceEntries state its use |
| HazardEngine.SearchTerms | backend/logic/hazard_engine.py:76 | the text tokens followed by the lower-cased tags; SearchTermsHold shows each of them is a search term |
| HazardEngine.KeywordEvidence | backend/logic/hazard_engine.py:80-95 | the entry of the first keyword that hits, substring test before fuzzy match; EvidenceIsFirstHit and NoHitNoEvidence state both directions |
| HazardEngine.CategoryEvidence | backend/logic/hazard_engine.py:78-95 | one entry per matching category, in dictionary order (CategoryEvidenceCount); empty exactly when no category matches (CategoryPairing) |
| HazardEngine.CategoryHazards | backend/logic/hazard_engine.py:78-95 | a label is in it exactly when some matching category lists it (CategoryHazardsMembers) |
| HazardEngine.TagEvidence | backend/logic/hazard_engine.py:98-105 | one entry per fire tag and one per trip/clutter/messy tag (TagEvidenceCount); each entry present exactly when such a tag is (TagEvidenceEntries) |
| HazardEngine.TagHazards | backend/logic/hazard_engine.py:98-105 | only the fire and slip/trip labels, each exactly when a tag shows it, empty exactly when the tag entries are (TagPairing) |
| HazardEngine.ConfidenceLevel | backend/logic/hazard_engine.py:121 | High exactly above 75, Medium exactly in 41..75, Low exactly at 40 and below |
| HazardEngine.ConfidenceScore | backend/logic/hazard_engine.py:114-120 | min(99, 30 + 15 per entry + 15 bonus); LevelByCount and ThreeEntriesMedium state the levels it leads to |
| HazardEngine.Reasoning | backend/logic/hazard_engine.py:122 | opens with the entry count in decimal and quotes the first three entries (ReasoningOpens, ReasoningQuotes, ReasoningCites) |
| HazardEngine.Assess | backend/logic/hazard_engine.py:107-122 | no hazards gives 10, Low and the fixed message; otherwise min(99, 30 + 15 per entry + 15 bonus) and its level (ConfidenceOf, ConfidenceOutcome, LevelByCount) |
| HazardEngine.Analyze | backend/logic/hazard_engine.py:65-131 | identify_hazards as a value: no hazard exactly when no evidence (HazardsIffEvidence), the evidence count (AnalyzeEvidenceCount), the confidence outcome (ConfidenceOutcome), fire tags (FireTagFlagsFire) |
| HazardEngine.ScanCategories | backend/logic/hazard_engine.py:78-95 | the nested category/keyword loop with its flag and `break` yields exactly CategoryEvidence and CategoryHazards |
| HazardEngine.AddLabels | backend/logic/hazard_engine.py:93-94 | the category's labels are added to the set |
| HazardEngine.ScanTags | backend/logic/hazard_engine.py:98-105 | the tag loop appends exactly TagEvidence and adds exactly TagHazards |
| HazardEngine.AssessConfidence | backend/logic/hazard_engine.py:108-122 | the confidence step computes Assess, with the bonus decided by the raw text and the tags |
| HazardEngine.IdentifyHazards | backend/logic/hazard_engine.py:65-131 | normalize, category loop, tag loop and confidence together compute Analyze |
| HazardProperties.RewriteReplacementsLead | backend/logic/hazard_engine.py:47-59 | every replacement starts with a word character |
| HazardProperties.NoOccurrenceIdle | backend/logic/hazard_engine.py:61 | for every text and rewrite, no whole-word occurrence of the pattern from a position on means the substitution returns the text from there unchanged |
| HazardProperties.LeadAbsent | backend/logic/hazard_engine.py:61 | a pattern whose first character does not occur in the text leaves the text unchanged |
| HazardProperties.RewritesIdle | backend/logic/hazard_engine.py:60-61 | rewrites that each leave the text unchanged leave it unchanged together |
| HazardProperties.RewritesOfBlank | backend/logic/hazard_engine.py:60-61 | no rewrite changes whitespace-only text |
| HazardProperties.RewritesKeepWordChar | backend/logic/hazard_engine.py:60-61 | text with a word character keeps one through the rewrites |
| HazardProperties.CleanedBlank | backend/logic/hazard_engine.py:42-44 | text without word characters is all whitespace once cleaned |
| HazardProperties.CleanedKeepsWordChar | backend/logic/hazard_engine.py:42-44 | a word character of the input survives cleaning |
| HazardProperties.NormalizeWithoutWords | backend/logic/hazard_engine.py:37-63 | empty input, whitespace and punctuation all normalize to the empty string |
| HazardProperties.NormalizeWithWords | backend/logic/hazard_engine.py:37-63 | input with a letter, digit or underscore normalizes to a non-empty string |
| HazardProperties.RewriteExamples | backend/logic/hazard_engine.py:47-61 | "weldin" becomes "welding", "hi volt" "high voltage" and "wire" "electrical wiring", while "wires" is not rewritten (whole words only) |
| HazardProperties.MultiWordNeedsOneSpace | backend/logic/hazard_engine.py:55 | "no vent" is rewritten but "no  vent" (two spaces) is not |
| HazardProperties.CleanedIsPunctuationStep | backend/logic/hazard_engine.py:42-44 | on lower-case text without whitespace at either end, cleaning is just the punctuation step |
| HazardProperties.CleanedPlain | backend/logic/hazard_engine.py:42-44 | text made of lower-case words and spaces, starting and ending with a word character, is unchanged by cleaning |
| HazardProperties.RewritesThroughNoVent | backend/logic/hazard_engine.py:47-61 | in text whose only rewrite that can apply is "no vent", the whole table does exactly what that rewrite does |
| HazardProperties.NormalizeToPair | backend/logic/hazard_engine.py:63 | when the rewrites give two tokens joined by one space, collapsing keeps them |
| HazardProperties.NormalizeKeepsWords | backend/logic/hazard_engine.py:60-63 | collapsing whitespace neither adds, drops nor changes a word: the normalized text splits into exactly the words of the rewritten text |
| HazardProperties.CommaVentNormalizes | backend/logic/hazard_engine.py:42-63 | "no, vent" normalizes to "no vent": the comma leaves two spaces, so the rewrite misses |
| HazardProperties.NoVentNormalizes | backend/logic/hazard_engine.py:55-63 | "no vent" normalizes to "poor ventilation" |
| HazardProperties.NormalizeNotIdempotent | backend/logic/hazard_engine.py:37-63 | normalizing "no, vent" twice differs from normalizing it once |
| HazardProperties.KeywordHit | backend/logic/hazard_engine.py:82-90 | a keyword hits exactly when it is a substring of the text or the matcher returns a match |
| HazardProperties.EvidenceIsFirstHit | backend/logic/hazard_engine.py:80-95 | a category's evidence comes from the first keyword that hits; later keywords are never tried |
| HazardProperties.NoHitNoEvidence | backend/logic/hazard_engine.py:80-95 | a category yields no evidence exactly when none of its keywords hits |
| HazardProperties.MatchedIff | backend/logic/hazard_engine.py:80-95 | a category matches exactly when some keyword is a substring of the text or has a fuzzy match |
| HazardProperties.CategoryEntryShape | backend/logic/hazard_engine.py:78-95 | a category adds at most one entry, exactly one when it matches, and then all of its labels; otherwise no labels |
| HazardProperties.SearchTermsHold | backend/logic/hazard_engine.py:76 | every text token and every lower-cased tag is a search term |
| HazardProperties.SearchTermMatches | backend/logic/hazard_engine.py:76-90 | with a matcher that accepts identical strings, a keyword equal to a search term makes its category match |
| HazardProperties.CategoryEvidenceCount | backend/logic/hazard_engine.py:78-95 | the category loop adds one entry per matching category |
| HazardProperties.TagEvidenceCount | backend/logic/hazard_engine.py:98-105 | the tag loop adds one entry per tag showing fire plus one per tag showing trip, clutter or mess |
| HazardProperties.CategoryHazardsMembers | backend/logic/hazard_engine.py:78-95 | a label is identified by the categories exactly when some matching category lists it |
| HazardProperties.CategoryPairing | backend/logic/hazard_engine.py:84-94 | the categories add no label exactly when they add no entry, provided every category lists a label |
| HazardProperties.TagPairing | backend/logic/hazard_engine.py:98-105 | the tags add a label exactly when they add an entry; the fire label comes exactly from a tag showing fire, the slip/trip label exactly from a tag showing trip, clutter or mess; nothing else comes from tags |
| HazardProperties.TagEvidenceEntries | backend/logic/hazard_engine.py:98-105 | the fire entry is present exactly when some tag shows fire, the clutter entry exactly when some tag shows trip, clutter or mess |
| HazardProperties.TagEntriesOf | backend/logic/hazard_engine.py:99-105 | one tag adds the fire entry exactly when it shows fire and the clutter entry exactly when it shows trip, clutter or mess |
| HazardProperties.CategoryTableShape | backend/logic/hazard_engine.py:6-35 | seven categories, three labels each, no empty keyword |
| HazardProperties.DictionaryLabelled | backend/logic/hazard_engine.py:6-35 | every category of the dictionary lists a label |
| HazardProperties.DictionaryKeywords | backend/logic/hazard_engine.py:6-35 | every category's keywords are non-empty strings |
| HazardProperties.PairingOf | backend/logic/hazard_engine.py:84-105 | for any table whose categories list labels, the hazard set is empty exactly when the evidence list is |
| HazardProperties.HazardsIffEvidence | backend/logic/hazard_engine.py:84-105 | identify_hazards finds no hazard exactly when it records no evidence |
| HazardProperties.EvidenceCount | backend/logic/hazard_engine.py:78-105 | the evidence count is matching categories plus fire tags plus trip/clutter/messy tags |
| HazardProperties.AnalyzeEvidenceCount | backend/logic/hazard_engine.py:78-105 | the same count for identify_hazards over the dictionary; one tag can count twice |
| HazardProperties.TagNamingKeywordOf | backend/logic/hazard_engine.py:76-94 | for any table, a tag equal in lower case to a keyword brings in all of that category's labels |
| HazardProperties.TagNamingKeyword | backend/logic/hazard_engine.py:76-94 | a tag naming a dictionary keyword, in any case, brings in every label of its category |
| HazardProperties.FireTagOf | backend/logic/hazard_engine.py:100-102 | for any table, a tag showing fire adds the fire label and the fire evidence entry |
| HazardProperties.FireTagFlagsFire | backend/logic/hazard_engine.py:100-102 | a tag containing "fire" in any case adds "Fire Hazard" and the visual-evidence entry for fire |
| HazardProperties.BonfireShowsFire | backend/logic/hazard_engine.py:100 | the substring test makes "Bonfire" a fire tag |
| HazardProperties.ConfidenceOf | backend/logic/hazard_engine.py:108-122 | for any labelled table, the confidence outcome holds |
| HazardProperties.ConfidenceOutcome | backend/logic/hazard_engine.py:108-122 | no hazards gives score 10, level Low and the fixed message; otherwise there is evidence, the score is min(99, 30 + 15 per entry + 15 when raw text and tags are both non-empty), it lies in 45..99, the level is not Low and the reasoning cites the evidence |
| HazardProperties.LevelByCount | backend/logic/hazard_engine.py:115-121 | with some evidence, the level is High exactly from four entries (the bonus counting as one) and Medium below, and the score reaches 99 exactly from five |
| HazardProperties.ThreeEntriesMedium | backend/logic/hazard_engine.py:115-121 | three entries without the bonus give score 75, level Medium |
| HazardProperties.NothingToSearch | backend/logic/hazard_engine.py:78-95 | with no text, no search terms and a matcher that returns only given terms, no category matches |
| HazardProperties.NothingFoundOf | backend/logic/hazard_engine.py:108-109 | for any table with non-empty keywords, nothing to search gives no hazards, no evidence and score 10 |
| HazardProperties.NoWordsNoTagsNothingFound | backend/logic/hazard_engine.py:65-111 | input without a word character and without tags finds no hazard and no evidence, and scores 10 |
| HazardProperties.PunctuationEarnsBonus | backend/logic/hazard_engine.py:117-118 | the bonus tests the raw text: punctuation-only text normalizes to "" yet still earns the bonus next to a fire tag |
| HazardProperties.ReasoningOpens | backend/logic/hazard_engine.py:122 | the reasoning opens with "Analysis based on " followed by the count in decimal |
| HazardProperties.ReasoningQuotes | backend/logic/hazard_engine.py:122 | the reasoning quotes each of the first three entries |
| HazardProperties.ReasoningCites | backend/logic/hazard_engine.py:122 | the reasoning states the entry count, which reads back as that count, and quotes each of the first three entries |
| RiskEngine.RiskLevel | backend/logic/risk_engine.py:33-37 | High exactly from 15, Medium exactly in 8..14, Low exactly below 8 |
| RiskEngine.AdjustedLikelihood | backend/logic/risk_engine.py:17-25 | each raised flag adds one, capped at 5; with no flag the input passes through (NoFlagsPassThrough, BothLikelihoodFlags, InRange) |
| RiskEngine.AdjustedSeverity | backend/logic/risk_engine.py:17-29 | 5 with fatal potential, else one more (capped at 5) when unclear (FatalForcesSeverity, InRange) |
| RiskEngine.Risk | backend/logic/risk_engine.py:6-44 | calculate_risk as a value: in range for inputs in 1..5 (InRange), monotone in likelihood and in severity (ScoreMonotoneInLikelihood, ScoreMonotoneInSeverity) |
| RiskEngine.CalculateRisk | backend/logic/risk_engine.py:6-44 | the step-by-step reassignments compute Risk: the adjusted values, their product and its level |
| RiskEngine.NoFlagsPassThrough | backend/logic/risk_engine.py:11-31 | with no flag, likelihood and severity are returned unchanged and unclamped, and the score is their product |
| RiskEngine.FlagCapsAtFive | backend/logic/risk_engine.py:17-29 | a raised flag caps what it adjusts at 5, so an input of 5 or more comes back as exactly 5 |
| RiskEngine.OutOfRangeLowered | backend/logic/risk_engine.py:17-25 | a likelihood of 9 with either likelihood flag, or a severity of 9 with unclear information, comes back as 5 |
| RiskEngine.BothLikelihoodFlags | backend/logic/risk_engine.py:17-25 | unclear information and missing controls together give likelihood min(5, L + 2) |
| RiskEngine.FatalForcesSeverity | backend/logic/risk_engine.py:28-31 | fatal potential forces severity 5 whatever the other flags, so the score is five times the adjusted likelihood |
| RiskEngine.LevelBoundaries | backend/logic/risk_engine.py:33-37 | 15 is High, 14 and 8 are Medium, 7 is Low |
| RiskEngine.InRange | backend/logic/risk_engine.py:17-31 | for inputs in 1..5 the adjusted values stay in 1..5 and never fall below the inputs, and the score lies in 1..25 |
| RiskEngine.ScoreMonotoneInLikelihood | backend/logic/risk_engine.py:17-31 | with the flags and the severity fixed, a higher likelihood never lowers the score |
| RiskEngine.ScoreMonotoneInSeverity | backend/logic/risk_engine.py:17-31 | with the flags and the likelihood fixed, a higher severity never lowers the score |
| ControlEngine.FirstMatch | backend/logic/control_engine.py:13-62 | the winning group selects the label and no earlier group does; no group wins when none selects it |
| ControlEngine.GroupItems | backend/logic/control_engine.py:13-64 | the first selecting group's items or the fallback (FirstMatchWins, FallbackExactly); two to four items ending in the only PPE item (GroupItemsShape) |
| ControlEngine.Augmentation | backend/logic/control_engine.py:67-69 | the two High-risk items for exactly "High", nothing otherwise (HighAugments, LevelAugments) |
| ControlEngine.Controls | backend/logic/control_engine.py:12-71 | select_controls as a value: the group items, then the High-risk items for exactly "High" (HighAugments, OnePpeBeforeAugmentation) |
| ControlEngine.SelectControls | backend/logic/control_engine.py:12-71 | the if/elif chain computes Controls: the first matching group's items or the fallback, then the High-risk items |
| ControlEngine.PpeLastCount | backend/logic/control_engine.py:16-64 | a list whose last item is its only PPE item holds exactly one PPE item |
| ControlEngine.ItemsShape | backend/logic/control_engine.py:16-59 | every group yields three or four items, the last of them its only PPE item |
| ControlEngine.GroupItemsShape | backend/logic/control_engine.py:16-64 | every list the chain yields has two to four items, the last of them its only PPE item |
| ControlEngine.OnePpeBeforeAugmentation | backend/logic/control_engine.py:12-71 | every result holds exactly one PPE item, the last group item; everything after it is Administrative |
| ControlEngine.GroupSizes | backend/logic/control_engine.py:16-64 | four items each for fire, mechanical, chemical and heights; three each for electrical, confined space and environmental; two for the fallback |
| ControlEngine.FirstMatchWins | backend/logic/control_engine.py:13-59 | a group wins exactly when it selects the lower-cased label and no earlier group does, and the result is then its items |
| ControlEngine.FallbackExactly | backend/logic/control_engine.py:62-64 | the fallback applies exactly when no group selects the label |
| ControlEngine.HighAugments | backend/logic/control_engine.py:67-69 | any level other than exactly "High" adds nothing; the "High" result is that result followed by the two High-risk items |
| ControlEngine.LevelAugments | backend/logic/control_engine.py:67-69 | given the name of a risk level, the High-risk items come exactly with the High level; "Low" and "Medium" add nothing |
| ControlEngine.SubstitutionTable | backend/logic/control_engine.py:32 | of the group lists, the fallback and the High-risk items, only the chemical group's holds a Substitution item |
| ControlEngine.SubstitutionOnlyChemical | backend/logic/control_engine.py:30-69 | a Substitution item appears exactly when the chemical group wins |
| ControlEngine.NoGroupSelects | backend/logic/control_engine.py:16-62 | a label whose characters and adjacent pairs avoid every term's is selected by no group |
| ControlEngine.RestrictedMovementGetsFallback | backend/logic/control_engine.py:62-64 | "Restricted Movement", a label the hazard engine produces, gets exactly the fallback items |
| ControlEngine.ReducedVisibilityGetsFallback | backend/logic/control_engine.py:62-64 | "Reduced Visibility", another engine label, gets exactly the fallback items |
| ControlEngine.ElectricalFireGetsFireGroup | backend/logic/control_engine.py:13-47 | matching is on the lower-cased label and the first group wins: "Electrical Fire" gets the fire items |
| ControlEngine.FireAtHighRisk | backend/logic/control_engine.py:16-69 | "fire in work area" at "High" gives the four fire items followed by the two High-risk items, six in all |

## Left out

- `backend/main.py` is not part of this model. It holds the HTTP routing, the upload handling, the mocked vision and transcription, document generation and logging.
- The control de-duplication in `backend/main.py`, which compares a dictionary against `ControlItem` objects, is not part of this model. `select_controls` itself never de-duplicates, and the model keeps that.
- `backend/models.py` has no behaviour. Only the shape of `ControlItem` is kept, as a datatype.
- The `difflib` similarity ratio and its cutoff of 0.8 are not modelled. The fuzzy match is the abstract `Matcher` parameter, constrained where needed by `AcceptsEqual` or `ReturnsTerm`.
- The model works on ASCII only. Python's Unicode `str.lower`, `str.strip`, `str.split`, `\w` and `\b` are restricted to ASCII letters, digits, underscore and the ASCII whitespace characters. Non-ASCII characters are neither word characters nor whitespace, so the punctuation step turns them into spaces.
- The enumeration order of the returned hazard list (`list(set)`) is not modelled; the hazards are a set.
- The default argument `image_tags=[]` of `identify_hazards` and the defaults `missing_controls=False, fatal_potential=False, unclear_info=False` of `calculate_risk` are not modelled: every parameter is explicit. The `dict` return shapes are datatypes.
- HazardEngine.Normalize: the regex rewrites are modelled as whole-word literal replacements, scanned left to right without overlap. That is what `re.sub` does for these eleven patterns, but general regular expressions are not modelled.
- RiskEngine.InRange: the bounds are stated only for inputs in 1..5. Outside that range the source does no validation: with no flag the values pass through unchanged (`NoFlagsPassThrough`), and a raised flag caps the value it adjusts at 5, lowering an out-of-range input (`FlagCapsAtFive`, `OutOfRangeLowered`).
