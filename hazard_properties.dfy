/**
  * What hazard identification guarantees: when the normalizer yields nothing,
  * how a category comes to match, how evidence entries and hazard labels pair
  * up, how many entries there are, and what the confidence score can be.
  */
module HazardProperties {
  import opened Wrappers
  import opened Text
  import opened Levels
  import opened Numbers
  import opened HazardEngine

  // ---------------------------------------------------------------------------
  // Normalization
  // ---------------------------------------------------------------------------

  predicate HasWordChar(s: string)
  {
    exists j | 0 <= j < |s| :: IsWordChar(s[j])
  }

  predicate Blank(s: string)
  {
    forall j | 0 <= j < |s| :: IsSpace(s[j])
  }

  /** Every replacement starts with a word character. */
  predicate ReplacementsLeadWithWord(rws: seq<Rewrite>)
  {
    forall k | 0 <= k < |rws| :: rws[k].replacement != [] && IsLowerWordChar(rws[k].replacement[0])
  }

  lemma RewriteReplacementsLead()
    ensures ReplacementsLeadWithWord(Rewrites)
  {
  }

  /** `\bP\b` replaces whole words only: text with no whole-word occurrence from `i` on comes back unchanged. */
  lemma {:induction false} NoOccurrenceIdle(s: string, i: nat, rw: Rewrite)
    requires i <= |s| && rw.pattern != []
    requires forall j | i <= j < |s| :: !WholeWordAt(s, j, rw.pattern)
    ensures SubstituteFrom(s, i, rw) == s[i..]
    decreases |s| - i
  {
    if i < |s| {
      NoOccurrenceIdle(s, i + 1, rw);
      assert s[i..] == [s[i]] + s[i + 1..];
    }
  }

  /** A rewrite whose pattern starts with a character absent from the text leaves the text alone. */
  lemma LeadAbsent(s: string, i: nat, rw: Rewrite)
    requires i <= |s| && rw.pattern != [] && rw.pattern[0] !in s
    ensures SubstituteFrom(s, i, rw) == s[i..]
  {
    forall j | i <= j < |s|
      ensures !WholeWordAt(s, j, rw.pattern)
    {
      if j + |rw.pattern| <= |s| {
        assert s[j..j + |rw.pattern|][0] == s[j];
      }
    }
    NoOccurrenceIdle(s, i, rw);
  }

  /** Rewrites each of which leaves the text alone leave it alone together. */
  lemma {:induction false} RewritesIdle(s: string, rws: seq<Rewrite>)
    requires RewritesWellFormed(rws)
    requires forall k | 0 <= k < |rws| :: Substitute(s, rws[k]) == s
    ensures ApplyRewrites(s, rws) == s
    decreases |rws|
  {
    if rws != [] {
      assert forall k | 0 <= k < |rws| - 1 :: rws[1..][k] == rws[k + 1];
      RewritesIdle(s, rws[1..]);
    }
  }

  /** Every pattern starts with a word character, so no rewrite matches inside whitespace. */
  lemma RewritesOfBlank(s: string, rws: seq<Rewrite>)
    requires RewritesWellFormed(rws) && Blank(s)
    ensures ApplyRewrites(s, rws) == s
  {
    forall k | 0 <= k < |rws|
      ensures Substitute(s, rws[k]) == s
    {
      assert IsLowerWordChar(rws[k].pattern[0]);
      LeadAbsent(s, 0, rws[k]);
    }
    RewritesIdle(s, rws);
  }

  /** A word character survives a rewrite: it is either copied or lies under a replacement, which starts with one. */
  lemma {:induction false} SubstituteKeepsWordChar(s: string, i: nat, rw: Rewrite, p: nat)
    requires i <= p < |s| && IsWordChar(s[p])
    requires rw.pattern != [] && rw.replacement != [] && IsLowerWordChar(rw.replacement[0])
    ensures HasWordChar(SubstituteFrom(s, i, rw))
    decreases |s| - i
  {
    var r := SubstituteFrom(s, i, rw);
    if WholeWordAt(s, i, rw.pattern) {
      assert IsWordChar(r[0]);
    } else if i == p {
      assert IsWordChar(r[0]);
    } else {
      var rest := SubstituteFrom(s, i + 1, rw);
      SubstituteKeepsWordChar(s, i + 1, rw, p);
      var j :| 0 <= j < |rest| && IsWordChar(rest[j]);
      assert r[j + 1] == rest[j];
    }
  }

  lemma {:induction false} RewritesKeepWordChar(s: string, rws: seq<Rewrite>)
    requires RewritesWellFormed(rws) && ReplacementsLeadWithWord(rws) && HasWordChar(s)
    ensures HasWordChar(ApplyRewrites(s, rws))
    decreases |rws|
  {
    if rws != [] {
      var p :| 0 <= p < |s| && IsWordChar(s[p]);
      SubstituteKeepsWordChar(s, 0, rws[0], p);
      RewritesKeepWordChar(Substitute(s, rws[0]), rws[1..]);
    }
  }

  lemma {:induction false} WordsOfWordChar(s: string)
    requires HasWordChar(s)
    ensures Words(s) != []
    decreases |s|
  {
    var p :| 0 <= p < |s| && IsWordChar(s[p]);
    if IsSpace(s[0]) {
      assert s[1..][p - 1] == s[p];
      WordsOfWordChar(s[1..]);
    }
  }

  /** Text without word characters is all whitespace once cleaned. */
  lemma CleanedBlank(text: string)
    requires forall i | 0 <= i < |text| :: !IsWordChar(text[i])
    ensures Blank(ReplacePunctuation(Strip(Lower(text))))
  {
    var lowered := Lower(text);
    var stripped := Strip(lowered);
    forall j | 0 <= j < |stripped|
      ensures !IsWordChar(stripped[j])
    {
      SubstringChar(lowered, stripped, j);
    }
  }

  /** A word character of the text survives lower-casing, stripping and the punctuation step. */
  lemma StripKeepsWordChar(s: string, p: nat)
    requires p < |s| && IsWordChar(s[p])
    ensures HasWordChar(Strip(s))
  {
    var r, a := Strip(s), LeadingSpace(s);
    assert a <= p < a + |r| by {
      assert !IsSpace(s[p]);
    }
    assert IsWordChar(r[p - a]);
  }

  lemma CleanedKeepsWordChar(text: string, p: nat)
    requires p < |text| && IsWordChar(text[p])
    ensures HasWordChar(ReplacePunctuation(Strip(Lower(text))))
  {
    var lowered := Lower(text);
    assert IsWordChar(lowered[p]);
    StripKeepsWordChar(lowered, p);
    var stripped := Strip(lowered);
    var j :| 0 <= j < |stripped| && IsWordChar(stripped[j]);
    assert IsWordChar(ReplacePunctuation(stripped)[j]);
  }

  /** Empty input, whitespace and punctuation all normalize to "". */
  lemma NormalizeWithoutWords(text: string)
    requires forall i | 0 <= i < |text| :: !IsWordChar(text[i])
    ensures Normalize(text) == []
  {
    var cleaned := ReplacePunctuation(Strip(Lower(text)));
    RewriteTableWellFormed();
    CleanedBlank(text);
    RewritesOfBlank(cleaned, Rewrites);
    WordsOfBlank(ApplyRewrites(cleaned, Rewrites));
  }

  /** Text with a letter, digit or underscore normalizes to at least one token. */
  lemma NormalizeWithWords(text: string, p: nat)
    requires p < |text| && IsWordChar(text[p])
    ensures Normalize(text) != []
  {
    var cleaned := ReplacePunctuation(Strip(Lower(text)));
    RewriteTableWellFormed();
    CleanedKeepsWordChar(text, p);
    RewriteReplacementsLead();
    RewritesKeepWordChar(cleaned, Rewrites);
    WordsOfWordChar(ApplyRewrites(cleaned, Rewrites));
  }

  /** Rewrites act on whole words only, each on the output of those before it. */
  lemma RewriteExamples()
    ensures Substitute("weldin", Weldin) == "welding"
    ensures Substitute("hi volt", HiVolt) == "high voltage"
    ensures Substitute("wire", Wire) == "electrical wiring"
    ensures Substitute("wires", Wire) == "wires"
  {
  }

  /** A two-word pattern matches one literal space only: collapsing runs after the rewrites. */
  lemma MultiWordNeedsOneSpace()
    ensures Substitute("no vent", NoVent) == "poor ventilation"
    ensures Substitute("no  vent", NoVent) == "no  vent"
  {
  }

  // The normalizer is not idempotent: "no, vent" normalizes to "no vent",
  // whose single space the "no vent" rewrite then matches. The lemmas below
  // follow both runs step by step. Only the small lemmas look at the literal
  // strings, which they receive as parameters fixed by `requires`; the
  // lemmas that chain the steps hold for any text with the stated facts.

  /** Cleaning changes nothing but punctuation in text that is lower-case and has no whitespace at either end. */
  lemma CleanedIsPunctuationStep(text: string)
    requires forall i | 0 <= i < |text| :: !IsUpper(text[i])
    requires text == [] || (!IsSpace(text[0]) && !IsSpace(text[|text| - 1]))
    ensures ReplacePunctuation(Strip(Lower(text))) == ReplacePunctuation(text)
  {
    LowerKeeps(text);
    StripKeeps(text);
  }

  lemma CommaBecomesSpace(text: string)
    requires text == "no, vent"
    ensures ReplacePunctuation(text) == "no  vent"
  {
  }

  lemma CleanedCommaVent(text: string, cleaned: string)
    requires text == "no, vent" && cleaned == "no  vent"
    ensures ReplacePunctuation(Strip(Lower(text))) == cleaned
  {
    CleanedIsPunctuationStep(text);
    CommaBecomesSpace(text);
  }

  /** Text already made of lower-case words and single spaces comes out of cleaning unchanged. */
  lemma CleanedPlain(text: string)
    requires forall i | 0 <= i < |text| :: IsLowerWordChar(text[i]) || text[i] == ' '
    requires text != [] && IsLowerWordChar(text[0]) && IsLowerWordChar(text[|text| - 1])
    ensures ReplacePunctuation(Strip(Lower(text))) == text
  {
    LowerKeeps(text);
    StripKeeps(text);
    var r := ReplacePunctuation(text);
    forall i | 0 <= i < |text|
      ensures r[i] == text[i]
    {
      assert IsWordChar(text[i]) || IsSpace(text[i]);
    }
  }

  lemma CleanedNoVent(text: string)
    requires text == "no vent"
    ensures ReplacePunctuation(Strip(Lower(text))) == text
  {
    CleanedPlain(text);
  }

  /** Applying the rewrites from index `i` on is applying rewrite `i`, then those after it. */
  lemma StepAt(s: string, rws: seq<Rewrite>, i: nat)
    requires RewritesWellFormed(rws) && i < |rws|
    ensures ApplyRewrites(s, rws[i..]) == ApplyRewrites(Substitute(s, rws[i]), rws[i + 1..])
  {
    assert rws[i..][0] == rws[i];
    assert rws[i..][1..] == rws[i + 1..];
  }

  /** No character of the text is one that a pattern other than "n" and "no vent" starts with. */
  predicate LacksOtherLeads(s: string)
  {
    forall i | 0 <= i < |s| :: s[i] !in "gwdmfhs"
  }

  lemma LeadLetterAbsent(s: string, c: char)
    requires LacksOtherLeads(s) && c in "gwdmfhs"
    ensures c !in s
  {
  }

  /**
    * A text without the other patterns' lead letters and without the word "n"
    * passes the rewrites unchanged except for the "no vent" one.
    */
  lemma RewritesThroughNoVent(s: string, t: string)
    requires LacksOtherLeads(s) && Substitute(s, LoneN) == s
    requires Substitute(s, NoVent) == t && LacksOtherLeads(t)
    ensures RewritesWellFormed(Rewrites) && ApplyRewrites(s, Rewrites) == t
  {
    RewriteTableWellFormed();
    LeadLetterAbsent(s, Goin.pattern[0]);
    LeadAbsent(s, 0, Goin);
    StepAt(s, Rewrites, 0);
    LeadLetterAbsent(s, Weldin.pattern[0]);
    LeadAbsent(s, 0, Weldin);
    StepAt(s, Rewrites, 1);
    StepAt(s, Rewrites, 2);
    LeadLetterAbsent(s, Wat.pattern[0]);
    LeadAbsent(s, 0, Wat);
    StepAt(s, Rewrites, 3);
    LeadLetterAbsent(s, Doin.pattern[0]);
    LeadAbsent(s, 0, Doin);
    StepAt(s, Rewrites, 4);
    LeadLetterAbsent(s, Messy.pattern[0]);
    LeadAbsent(s, 0, Messy);
    StepAt(s, Rewrites, 5);
    LeadLetterAbsent(s, Fixin.pattern[0]);
    LeadAbsent(s, 0, Fixin);
    StepAt(s, Rewrites, 6);
    StepAt(s, Rewrites, 7);
    LeadLetterAbsent(t, HiVolt.pattern[0]);
    LeadAbsent(t, 0, HiVolt);
    StepAt(t, Rewrites, 8);
    LeadLetterAbsent(t, Stair.pattern[0]);
    LeadAbsent(t, 0, Stair);
    StepAt(t, Rewrites, 9);
    LeadLetterAbsent(t, Wire.pattern[0]);
    LeadAbsent(t, 0, Wire);
    StepAt(t, Rewrites, 10);
    assert Rewrites[0..] == Rewrites;
    assert Rewrites[11..] == [];
  }

  /** The one-letter pattern "n" is not a whole word of either spelling, and the other lead letters are absent. */
  lemma NoVentLetters(s: string)
    requires s == "no vent" || s == "no  vent"
    ensures LacksOtherLeads(s) && Substitute(s, LoneN) == s
  {
    if s == "no vent" {
      SingleSpaceLoneN(s);
    } else {
      DoubleSpaceLoneN(s);
    }
  }

  lemma SingleSpaceLoneN(s: string)
    requires s == "no vent"
    ensures Substitute(s, LoneN) == s
  {
    assert Substitute("no vent", LoneN) == "no vent";
  }

  lemma DoubleSpaceLoneN(s: string)
    requires s == "no  vent"
    ensures Substitute(s, LoneN) == s
  {
    assert Substitute("no  vent", LoneN) == "no  vent";
  }

  lemma PoorVentilationLetters(t: string)
    requires t == "poor ventilation"
    ensures LacksOtherLeads(t)
  {
  }

  lemma NoVentRewritten(s: string, t: string)
    requires s == "no vent" && t == "poor ventilation"
    ensures Substitute(s, NoVent) == t
  {
    MultiWordNeedsOneSpace();
  }

  lemma DoubleSpaceKeepsPair(s: string)
    requires s == "no  vent"
    ensures Substitute(s, NoVent) == s
  {
    MultiWordNeedsOneSpace();
  }

  lemma CollapseDoubleSpace(s: string)
    requires s == "no  vent"
    ensures Join(Words(s), " ") == "no vent"
  {
    assert Join(Words("no  vent"), " ") == "no vent";
  }

  /** The normalizer in its three stages: cleaning, the rewrites, collapsing. */
  lemma NormalizeStages(text: string, cleaned: string, rewritten: string)
    requires cleaned == ReplacePunctuation(Strip(Lower(text)))
    requires RewritesWellFormed(Rewrites) && ApplyRewrites(cleaned, Rewrites) == rewritten
    ensures Normalize(text) == Join(Words(rewritten), " ")
  {
  }

  /**
    * Collapsing whitespace neither adds, drops nor changes a word: the
    * normalized text splits into exactly the words of the rewritten text.
    */
  lemma NormalizeKeepsWords(text: string)
    ensures Words(Normalize(text)) == Words(Rewritten(text))
  {
    CollapseKeepsWords(Rewritten(text));
  }

  /**
    * "no, vent" normalizes to "no vent". The parameters are fixed by the
    * requires; they stand for the literals so that the verifier does not
    * evaluate the normalizer on them eagerly.
    */
  lemma CommaVentNormalizes(text: string, cleaned: string)
    requires text == "no, vent" && cleaned == "no  vent"
    ensures Normalize(text) == "no vent"
  {
    CleanedCommaVent(text, cleaned);
    NoVentLetters(cleaned);
    DoubleSpaceKeepsPair(cleaned);
    RewritesThroughNoVent(cleaned, cleaned);
    NormalizeStages(text, cleaned, cleaned);
    CollapseDoubleSpace(cleaned);
  }

  /** When the rewrites yield two tokens joined by one space, collapsing keeps them. */
  lemma NormalizeToPair(text: string, a: string, b: string)
    requires RewritesWellFormed(Rewrites)
    requires ApplyRewrites(ReplacePunctuation(Strip(Lower(text))), Rewrites) == a + " " + b
    requires IsToken(a) && IsToken(b)
    ensures Normalize(text) == a + " " + b
  {
    assert [a, b][1..] == [b];
    assert Join([a, b], " ") == a + " " + b;
    WordsOfJoin([a, b]);
  }

  lemma PoorIsToken(w: string)
    requires w == "poor"
    ensures IsToken(w)
  {
  }

  lemma VentilationIsToken(w: string)
    requires w == "ventilation"
    ensures IsToken(w)
  {
  }

  lemma PoorVentilationSplit(a: string, b: string, t: string)
    requires a == "poor" && b == "ventilation" && t == "poor ventilation"
    ensures t == a + " " + b
  {
  }

  /**
    * "no vent" normalizes to "poor ventilation". The parameters are fixed by
    * the requires, as in CommaVentNormalizes.
    */
  lemma NoVentNormalizes(text: string, a: string, b: string, t: string)
    requires text == "no vent" && a == "poor" && b == "ventilation" && t == "poor ventilation"
    ensures Normalize(text) == t
  {
    CleanedNoVent(text);
    NoVentLetters(text);
    NoVentRewritten(text, t);
    PoorVentilationLetters(t);
    RewritesThroughNoVent(text, t);
    PoorIsToken(a);
    VentilationIsToken(b);
    PoorVentilationSplit(a, b, t);
    NormalizeToPair(text, a, b);
  }

  /** Normalizing a normalized text can change it again. */
  lemma NormalizeNotIdempotent(text: string)
    requires text == "no, vent"
    ensures Normalize(Normalize(text)) != Normalize(text)
  {
    CommaVentNormalizes(text, "no  vent");
    NoVentNormalizes(Normalize(text), "poor", "ventilation", "poor ventilation");
  }

  // ---------------------------------------------------------------------------
  // Matching one category
  // ---------------------------------------------------------------------------

  /** One keyword's attempt on its own: the substring test, then the fuzzy match. */
  function KeywordHit(keyword: string, text: string, terms: seq<string>, fuzzy: Matcher): (r: Option<string>)
    ensures r.Some? <==> Contains(text, keyword) || fuzzy(keyword, terms).Some?
  {
    if Contains(text, keyword) then Some(KeywordEntry(keyword))
    else match fuzzy(keyword, terms)
      case Some(found) => Some(FuzzyEntry(found, keyword))
      case None => None
  }

  /** The category's evidence is the hit of its first keyword that hits; later keywords are never tried. */
  lemma {:induction false} EvidenceIsFirstHit(keywords: seq<string>, text: string, terms: seq<string>,
                                              fuzzy: Matcher, k: nat)
    requires k < |keywords| && KeywordHit(keywords[k], text, terms, fuzzy).Some?
    requires forall j | 0 <= j < k :: KeywordHit(keywords[j], text, terms, fuzzy).None?
    ensures KeywordEvidence(keywords, text, terms, fuzzy) == KeywordHit(keywords[k], text, terms, fuzzy)
    decreases k
  {
    if k > 0 {
      assert KeywordHit(keywords[0], text, terms, fuzzy).None?;
      forall j | 0 <= j < k - 1
        ensures KeywordHit(keywords[1..][j], text, terms, fuzzy).None?
      {
        assert keywords[1..][j] == keywords[j + 1];
      }
      EvidenceIsFirstHit(keywords[1..], text, terms, fuzzy, k - 1);
    }
  }

  /** A category yields no evidence exactly when none of its keywords hits. */
  lemma {:induction false} NoHitNoEvidence(keywords: seq<string>, text: string, terms: seq<string>, fuzzy: Matcher)
    ensures KeywordEvidence(keywords, text, terms, fuzzy).None?
      <==> forall j | 0 <= j < |keywords| :: KeywordHit(keywords[j], text, terms, fuzzy).None?
    decreases |keywords|
  {
    if keywords != [] {
      NoHitNoEvidence(keywords[1..], text, terms, fuzzy);
      assert forall j | 0 <= j < |keywords| - 1 :: keywords[1..][j] == keywords[j + 1];
    }
  }

  /** A category matches exactly when one of its keywords is a substring of the text or has a fuzzy match. */
  lemma MatchedIff(cat: Category, text: string, terms: seq<string>, fuzzy: Matcher)
    ensures Matched(cat, text, terms, fuzzy) <==>
      exists k | 0 <= k < |cat.keywords| :: Contains(text, cat.keywords[k]) || fuzzy(cat.keywords[k], terms).Some?
  {
    NoHitNoEvidence(cat.keywords, text, terms, fuzzy);
  }

  /** Each category contributes at most one entry, and one exactly when it matches, together with all of its labels. */
  lemma CategoryEntryShape(cat: Category, text: string, terms: seq<string>, fuzzy: Matcher)
    ensures |CategoryEntry(cat, text, terms, fuzzy)| <= 1
    ensures |CategoryEntry(cat, text, terms, fuzzy)| == 1 <==> Matched(cat, text, terms, fuzzy)
    ensures Matched(cat, text, terms, fuzzy) ==> forall h | h in cat.hazards :: h in CategoryLabels(cat, text, terms, fuzzy)
    ensures !Matched(cat, text, terms, fuzzy) ==> CategoryLabels(cat, text, terms, fuzzy) == {}
  {
    if Matched(cat, text, terms, fuzzy) {
      forall h | h in cat.hazards
        ensures h in Labels(cat.hazards)
      {
        var i :| 0 <= i < |cat.hazards| && cat.hazards[i] == h;
      }
    }
  }

  /** Every search term is a token of the normalized text or a lower-cased tag. */
  lemma SearchTermsHold(normalizedText: string, tags: seq<string>)
    ensures forall w | w in Words(normalizedText) :: w in SearchTerms(normalizedText, tags)
    ensures forall t | 0 <= t < |tags| :: Lower(tags[t]) in SearchTerms(normalizedText, tags)
  {
    var terms := SearchTerms(normalizedText, tags);
    forall t | 0 <= t < |tags|
      ensures Lower(tags[t]) in terms
    {
      assert terms[|Words(normalizedText)| + t] == Lower(tags[t]);
    }
  }

  /** With a matcher that accepts identical strings, a keyword equal to a search term always matches its category. */
  lemma SearchTermMatches(cat: Category, normalizedText: string, tags: seq<string>, fuzzy: Matcher, k: nat)
    requires AcceptsEqual(fuzzy) && k < |cat.keywords|
    requires cat.keywords[k] in SearchTerms(normalizedText, tags)
    ensures Matched(cat, normalizedText, SearchTerms(normalizedText, tags), fuzzy)
  {
    var terms := SearchTerms(normalizedText, tags);
    assert fuzzy(cat.keywords[k], terms).Some?;
    MatchedIff(cat, normalizedText, terms, fuzzy);
  }

  // ---------------------------------------------------------------------------
  // The category and tag loops
  // ---------------------------------------------------------------------------

  /** An independent count of the matching categories. */
  function MatchedCount(cats: seq<Category>, text: string, terms: seq<string>, fuzzy: Matcher): (n: nat)
    ensures n <= |cats|
  {
    if cats == [] then 0
    else (if Matched(cats[0], text, terms, fuzzy) then 1 else 0) + MatchedCount(cats[1..], text, terms, fuzzy)
  }

  function FireTagCount(tags: seq<string>): nat
  {
    if tags == [] then 0 else (if ShowsFire(tags[0]) then 1 else 0) + FireTagCount(tags[1..])
  }

  function ClutterTagCount(tags: seq<string>): nat
  {
    if tags == [] then 0 else (if ShowsClutter(tags[0]) then 1 else 0) + ClutterTagCount(tags[1..])
  }

  lemma {:induction false} CategoryEvidenceCount(cats: seq<Category>, text: string, terms: seq<string>, fuzzy: Matcher)
    ensures |CategoryEvidence(cats, text, terms, fuzzy)| == MatchedCount(cats, text, terms, fuzzy)
    decreases |cats|
  {
    if cats != [] {
      CategoryEntryShape(cats[0], text, terms, fuzzy);
      CategoryEvidenceCount(cats[1..], text, terms, fuzzy);
    }
  }

  lemma {:induction false} TagEvidenceCount(tags: seq<string>)
    ensures |TagEvidence(tags)| == FireTagCount(tags) + ClutterTagCount(tags)
    decreases |tags|
  {
    if tags != [] {
      TagEvidenceCount(tags[1..]);
    }
  }

  /** A label is identified by the categories exactly when some matching category lists it. */
  lemma {:induction false} CategoryHazardsMembers(cats: seq<Category>, text: string, terms: seq<string>,
                                                  fuzzy: Matcher, x: string)
    ensures x in CategoryHazards(cats, text, terms, fuzzy) <==>
      exists c | 0 <= c < |cats| :: Matched(cats[c], text, terms, fuzzy) && x in cats[c].hazards
    decreases |cats|
  {
    if cats != [] {
      CategoryHazardsMembers(cats[1..], text, terms, fuzzy, x);
      CategoryEntryShape(cats[0], text, terms, fuzzy);
      if x in CategoryHazards(cats, text, terms, fuzzy) {
        if x in CategoryLabels(cats[0], text, terms, fuzzy) {
          var i :| 0 <= i < |cats[0].hazards| && cats[0].hazards[i] == x;
          assert Matched(cats[0], text, terms, fuzzy) && x in cats[0].hazards;
        } else {
          var c :| 0 <= c < |cats[1..]| && Matched(cats[1..][c], text, terms, fuzzy) && x in cats[1..][c].hazards;
          assert cats[1..][c] == cats[c + 1];
        }
      }
      if exists c | 0 <= c < |cats| :: Matched(cats[c], text, terms, fuzzy) && x in cats[c].hazards {
        var c :| 0 <= c < |cats| && Matched(cats[c], text, terms, fuzzy) && x in cats[c].hazards;
        if c > 0 {
          assert cats[1..][c - 1] == cats[c];
        }
      }
    }
  }

  /** The categories add no label exactly when they add no evidence, provided every category lists a label. */
  lemma {:induction false} CategoryPairing(cats: seq<Category>, text: string, terms: seq<string>, fuzzy: Matcher)
    requires forall c | 0 <= c < |cats| :: cats[c].hazards != []
    ensures CategoryHazards(cats, text, terms, fuzzy) == {} <==> CategoryEvidence(cats, text, terms, fuzzy) == []
    ensures CategoryEvidence(cats, text, terms, fuzzy) == []
      <==> forall c | 0 <= c < |cats| :: !Matched(cats[c], text, terms, fuzzy)
    decreases |cats|
  {
    if cats != [] {
      CategoryEntryShape(cats[0], text, terms, fuzzy);
      assert cats[0].hazards[0] in cats[0].hazards;
      assert forall c | 0 <= c < |cats| - 1 :: cats[1..][c] == cats[c + 1];
      CategoryPairing(cats[1..], text, terms, fuzzy);
    }
  }

  /** The tags add a label exactly when they add evidence; a tag showing both adds both. */
  lemma {:induction false} TagPairing(tags: seq<string>)
    ensures TagHazards(tags) == {} <==> TagEvidence(tags) == []
    ensures FireLabel in TagHazards(tags) <==> exists t | 0 <= t < |tags| :: ShowsFire(tags[t])
    ensures SlipTripLabel in TagHazards(tags) <==> exists t | 0 <= t < |tags| :: ShowsClutter(tags[t])
    ensures TagHazards(tags) <= {FireLabel, SlipTripLabel}
    decreases |tags|
  {
    if tags != [] {
      TagPairing(tags[1..]);
      assert forall t | 0 <= t < |tags| - 1 :: tags[1..][t] == tags[t + 1];
    }
  }

  /**
    * The fire entry comes exactly from a tag showing fire, the clutter entry
    * exactly from a tag showing trip, clutter or mess.
    */
  lemma {:induction false} TagEvidenceEntries(tags: seq<string>)
    ensures FireEntry in TagEvidence(tags) <==> exists t | 0 <= t < |tags| :: ShowsFire(tags[t])
    ensures ClutterEntry in TagEvidence(tags) <==> exists t | 0 <= t < |tags| :: ShowsClutter(tags[t])
    decreases |tags|
  {
    if tags != [] {
      TagEvidenceEntries(tags[1..]);
      TagEntriesOf(tags[0]);
      assert TagEvidence(tags) == TagEntries(tags[0]) + TagEvidence(tags[1..]);
      assert forall t | 0 <= t < |tags| - 1 :: tags[1..][t] == tags[t + 1];
    }
  }

  lemma TagEntriesOf(tag: string)
    ensures FireEntry in TagEntries(tag) <==> ShowsFire(tag)
    ensures ClutterEntry in TagEntries(tag) <==> ShowsClutter(tag)
  {
    assert FireEntry[19] != ClutterEntry[19];
  }

  lemma CategoryTableShape()
    ensures |Categories| == 7
    ensures forall c | 0 <= c < |Categories| :: |Categories[c].hazards| == 3
    ensures forall c, k | 0 <= c < |Categories| && 0 <= k < |Categories[c].keywords| :: Categories[c].keywords[k] != []
  {
  }

  // ---------------------------------------------------------------------------
  // identify_hazards
  // ---------------------------------------------------------------------------

  // The properties are first stated for any category table and any search
  // terms, then instantiated for the dictionary above through AnalyzeUnfolds.

  /** What identify_hazards assembles after normalizing: both scans, then the confidence step. */
  function AnalysisOf(multimodal: bool, normalizedText: string, cats: seq<Category>, terms: seq<string>,
                      fuzzy: Matcher, imageTags: seq<string>): HazardAnalysis
  {
    Assess(multimodal, normalizedText,
      CategoryEvidence(cats, normalizedText, terms, fuzzy) + TagEvidence(imageTags),
      CategoryHazards(cats, normalizedText, terms, fuzzy) + TagHazards(imageTags))
  }

  /** identify_hazards in one equation: normalize, gather the search terms, scan, then assess. */
  lemma AnalyzeUnfolds(textInput: string, imageTags: seq<string>, fuzzy: Matcher)
    ensures var normalizedText := Normalize(textInput);
      Analyze(textInput, imageTags, fuzzy)
        == AnalysisOf(textInput != [] && imageTags != [], normalizedText, Categories,
                      SearchTerms(normalizedText, imageTags), fuzzy, imageTags)
  {
  }

  predicate EveryCategoryLabelled(cats: seq<Category>)
  {
    forall c | 0 <= c < |cats| :: cats[c].hazards != []
  }

  lemma DictionaryLabelled()
    ensures EveryCategoryLabelled(Categories)
  {
    CategoryTableShape();
  }

  predicate KeywordsNonEmpty(cats: seq<Category>)
  {
    forall c, k | 0 <= c < |cats| && 0 <= k < |cats[c].keywords| :: cats[c].keywords[k] != []
  }

  lemma DictionaryKeywords()
    ensures KeywordsNonEmpty(Categories)
  {
    CategoryTableShape();
  }

  /** Every label comes with an entry and every entry with a label, for any table whose categories list labels. */
  lemma PairingOf(multimodal: bool, normalizedText: string, cats: seq<Category>, terms: seq<string>,
                  fuzzy: Matcher, imageTags: seq<string>)
    requires EveryCategoryLabelled(cats)
    ensures var r := AnalysisOf(multimodal, normalizedText, cats, terms, fuzzy, imageTags);
      r.hazards == {} <==> r.evidence == []
  {
    CategoryPairing(cats, normalizedText, terms, fuzzy);
    TagPairing(imageTags);
  }

  /** The hazard set is empty exactly when the evidence list is: every label comes with an entry. */
  lemma HazardsIffEvidence(textInput: string, imageTags: seq<string>, fuzzy: Matcher)
    ensures Analyze(textInput, imageTags, fuzzy).hazards == {} <==> Analyze(textInput, imageTags, fuzzy).evidence == []
  {
    AnalyzeUnfolds(textInput, imageTags, fuzzy);
    var n := Normalize(textInput);
    DictionaryLabelled();
    PairingOf(textInput != [] && imageTags != [], n, Categories, SearchTerms(n, imageTags), fuzzy, imageTags);
  }

  /** One entry per matching category, one per tag showing fire and one per tag showing trip, clutter or mess. */
  lemma EvidenceCount(multimodal: bool, normalizedText: string, cats: seq<Category>, terms: seq<string>,
                      fuzzy: Matcher, imageTags: seq<string>)
    ensures |AnalysisOf(multimodal, normalizedText, cats, terms, fuzzy, imageTags).evidence|
      == MatchedCount(cats, normalizedText, terms, fuzzy) + FireTagCount(imageTags) + ClutterTagCount(imageTags)
  {
    CategoryEvidenceCount(cats, normalizedText, terms, fuzzy);
    TagEvidenceCount(imageTags);
  }

  /** The number of entries identify_hazards reports, counted category by category and tag by tag. */
  lemma AnalyzeEvidenceCount(textInput: string, imageTags: seq<string>, fuzzy: Matcher)
    ensures var n := Normalize(textInput);
      |Analyze(textInput, imageTags, fuzzy).evidence|
        == MatchedCount(Categories, n, SearchTerms(n, imageTags), fuzzy) + FireTagCount(imageTags) + ClutterTagCount(imageTags)
  {
    AnalyzeUnfolds(textInput, imageTags, fuzzy);
    var n := Normalize(textInput);
    EvidenceCount(textInput != [] && imageTags != [], n, Categories, SearchTerms(n, imageTags), fuzzy, imageTags);
  }

  /** With a matcher accepting identical strings, a tag equal in lower case to a keyword brings in that category's labels. */
  lemma TagNamingKeywordOf(multimodal: bool, normalizedText: string, cats: seq<Category>, fuzzy: Matcher,
                           imageTags: seq<string>, t: nat, c: nat, k: nat)
    requires AcceptsEqual(fuzzy)
    requires t < |imageTags| && c < |cats| && k < |cats[c].keywords|
    requires Lower(imageTags[t]) == cats[c].keywords[k]
    ensures var r := AnalysisOf(multimodal, normalizedText, cats, SearchTerms(normalizedText, imageTags), fuzzy, imageTags);
      forall h | h in cats[c].hazards :: h in r.hazards
  {
    var terms := SearchTerms(normalizedText, imageTags);
    SearchTermsHold(normalizedText, imageTags);
    SearchTermMatches(cats[c], normalizedText, imageTags, fuzzy, k);
    forall h | h in cats[c].hazards
      ensures h in CategoryHazards(cats, normalizedText, terms, fuzzy)
    {
      CategoryHazardsMembers(cats, normalizedText, terms, fuzzy, h);
    }
  }

  /** A tag naming a keyword, in any case, brings in every label of that keyword's category. */
  lemma TagNamingKeyword(textInput: string, imageTags: seq<string>, fuzzy: Matcher, t: nat, c: nat, k: nat)
    requires AcceptsEqual(fuzzy)
    requires t < |imageTags| && c < |Categories| && k < |Categories[c].keywords|
    requires Lower(imageTags[t]) == Categories[c].keywords[k]
    ensures forall h | h in Categories[c].hazards :: h in Analyze(textInput, imageTags, fuzzy).hazards
  {
    AnalyzeUnfolds(textInput, imageTags, fuzzy);
    TagNamingKeywordOf(textInput != [] && imageTags != [], Normalize(textInput), Categories, fuzzy, imageTags, t, c, k);
  }

  lemma FireTagOf(multimodal: bool, normalizedText: string, cats: seq<Category>, terms: seq<string>,
                  fuzzy: Matcher, imageTags: seq<string>, t: nat)
    requires t < |imageTags| && ShowsFire(imageTags[t])
    ensures FireLabel in AnalysisOf(multimodal, normalizedText, cats, terms, fuzzy, imageTags).hazards
    ensures FireEntry in AnalysisOf(multimodal, normalizedText, cats, terms, fuzzy, imageTags).evidence
  {
    TagPairing(imageTags);
    TagEvidenceEntries(imageTags);
  }

  /** A tag containing "fire" in any case adds the fire label and its visual-evidence entry. */
  lemma FireTagFlagsFire(textInput: string, imageTags: seq<string>, fuzzy: Matcher, t: nat)
    requires t < |imageTags| && ShowsFire(imageTags[t])
    ensures FireLabel in Analyze(textInput, imageTags, fuzzy).hazards
    ensures FireEntry in Analyze(textInput, imageTags, fuzzy).evidence
  {
    AnalyzeUnfolds(textInput, imageTags, fuzzy);
    var n := Normalize(textInput);
    FireTagOf(textInput != [] && imageTags != [], n, Categories, SearchTerms(n, imageTags), fuzzy, imageTags, t);
  }

  /** The substring test means a tag such as "Bonfire" counts as showing fire. */
  lemma BonfireShowsFire()
    ensures ShowsFire("Bonfire")
  {
    assert OccursAt(Lower("Bonfire"), "fire", 3);
  }

  /** The outcome of the confidence step, in terms of whether hazards were found. */
  predicate ConfidenceHolds(r: HazardAnalysis, multimodal: bool)
  {
    if r.hazards == {} then
      r.confidenceScore == 10 && r.confidenceLevel == Low && r.reasoning == NoIndicators
    else
      && r.evidence != []
      && r.confidenceScore == Min(99, 30 + 15 * |r.evidence| + (if multimodal then 15 else 0))
      && 45 <= r.confidenceScore <= 99
      && r.confidenceLevel != Low
      && r.reasoning == Reasoning(r.evidence)
  }

  lemma ConfidenceOf(multimodal: bool, normalizedText: string, cats: seq<Category>, terms: seq<string>,
                     fuzzy: Matcher, imageTags: seq<string>)
    requires EveryCategoryLabelled(cats)
    ensures ConfidenceHolds(AnalysisOf(multimodal, normalizedText, cats, terms, fuzzy, imageTags), multimodal)
  {
    PairingOf(multimodal, normalizedText, cats, terms, fuzzy, imageTags);
  }

  /**
    * The confidence step: without hazards the score is 10, the level Low and
    * the reasoning the fixed message; with hazards there is evidence, the
    * score is 30 + 15 per entry + 15 when the RAW text and the tags are both
    * non-empty, capped at 99, so it lies in 45..99 and the level is never Low.
    */
  lemma ConfidenceOutcome(textInput: string, imageTags: seq<string>, fuzzy: Matcher)
    ensures ConfidenceHolds(Analyze(textInput, imageTags, fuzzy), textInput != [] && imageTags != [])
  {
    AnalyzeUnfolds(textInput, imageTags, fuzzy);
    var n := Normalize(textInput);
    DictionaryLabelled();
    ConfidenceOf(textInput != [] && imageTags != [], n, Categories, SearchTerms(n, imageTags), fuzzy, imageTags);
  }

  /** With at least one entry, the level is High from four entries (the bonus counting as one) and Medium below. */
  lemma LevelByCount(count: nat, multimodal: bool)
    requires count >= 1
    ensures var n := count + (if multimodal then 1 else 0);
      && (ConfidenceLevel(ConfidenceScore(count, multimodal)) == High <==> n >= 4)
      && (ConfidenceLevel(ConfidenceScore(count, multimodal)) == Medium <==> n <= 3)
      && (ConfidenceScore(count, multimodal) == 99 <==> n >= 5)
  {
  }

  /** Three entries without the bonus sit exactly on the Medium ceiling. */
  lemma ThreeEntriesMedium()
    ensures ConfidenceScore(3, false) == 75 && ConfidenceLevel(ConfidenceScore(3, false)) == Medium
  {
  }

  /** With no text and no search terms, a matcher that returns only given terms finds no keyword. */
  lemma {:induction false} NothingToSearch(cats: seq<Category>, fuzzy: Matcher)
    requires ReturnsTerm(fuzzy)
    requires KeywordsNonEmpty(cats)
    ensures CategoryEvidence(cats, [], [], fuzzy) == [] && CategoryHazards(cats, [], [], fuzzy) == {}
    decreases |cats|
  {
    if cats != [] {
      var cat := cats[0];
      forall k | 0 <= k < |cat.keywords|
        ensures !Contains([], cat.keywords[k]) && fuzzy(cat.keywords[k], []).None?
      {
        assert cat.keywords[k] != [];
      }
      MatchedIff(cat, [], [], fuzzy);
      CategoryEntryShape(cat, [], [], fuzzy);
      assert forall c | 0 <= c < |cats| - 1 :: cats[1..][c] == cats[c + 1];
      NothingToSearch(cats[1..], fuzzy);
    }
  }

  lemma NothingFoundOf(multimodal: bool, cats: seq<Category>, fuzzy: Matcher)
    requires ReturnsTerm(fuzzy)
    requires KeywordsNonEmpty(cats)
    ensures var r := AnalysisOf(multimodal, [], cats, [], fuzzy, []);
      r.hazards == {} && r.evidence == [] && r.confidenceScore == 10
  {
    NothingToSearch(cats, fuzzy);
  }

  /**
    * Input without a word character and without tags finds nothing, provided
    * the matcher only ever returns one of the terms it is given.
    */
  lemma NoWordsNoTagsNothingFound(textInput: string, fuzzy: Matcher)
    requires ReturnsTerm(fuzzy)
    requires forall i | 0 <= i < |textInput| :: !IsWordChar(textInput[i])
    ensures Analyze(textInput, [], fuzzy).hazards == {}
    ensures Analyze(textInput, [], fuzzy).evidence == []
    ensures Analyze(textInput, [], fuzzy).confidenceScore == 10
  {
    AnalyzeUnfolds(textInput, [], fuzzy);
    NormalizeWithoutWords(textInput);
    assert SearchTerms([], []) == [];
    DictionaryKeywords();
    NothingFoundOf(false, Categories, fuzzy);
  }

  /**
    * The bonus looks at the raw text: punctuation alone normalizes to "" but
    * still earns it next to a tag.
    */
  lemma PunctuationEarnsBonus(textInput: string, imageTags: seq<string>, fuzzy: Matcher)
    requires textInput != [] && forall i | 0 <= i < |textInput| :: !IsWordChar(textInput[i])
    requires imageTags != [] && ShowsFire(imageTags[0])
    ensures Normalize(textInput) == []
    ensures Analyze(textInput, imageTags, fuzzy).confidenceScore
      == Min(99, 45 + 15 * |Analyze(textInput, imageTags, fuzzy).evidence|)
  {
    NormalizeWithoutWords(textInput);
    FireTagFlagsFire(textInput, imageTags, fuzzy, 0);
    ConfidenceOutcome(textInput, imageTags, fuzzy);
  }

  // ---------------------------------------------------------------------------
  // The reasoning string
  // ---------------------------------------------------------------------------

  lemma ContainsWithin(a: string, b: string, c: string, x: string)
    requires Contains(b, x)
    ensures Contains(a + b + c, x)
  {
    var i :| 0 <= i <= |b| - |x| && OccursAt(b, x, i);
    assert (a + b + c)[|a| + i..|a| + i + |x|] == b[i..i + |x|];
    assert OccursAt(a + b + c, x, |a| + i);
  }

  /** The reasoning opens with "Analysis based on " followed by the number of entries in decimal. */
  lemma ReasoningOpens(evidence: seq<string>)
    ensures var r := Reasoning(evidence);
      var n := NatToString(|evidence|);
      r[..18] == "Analysis based on " && r[18..18 + |n|] == n
  {
    var n := NatToString(|evidence|);
    var tail := " distinct hazard indicators: " + Join(evidence[..Min(3, |evidence|)], ", ") + "...";
    assert Reasoning(evidence) == "Analysis based on " + (n + tail);
  }

  /** The reasoning quotes each of the first three entries. */
  lemma ReasoningQuotes(evidence: seq<string>)
    ensures forall k | 0 <= k < Min(3, |evidence|) :: Contains(Reasoning(evidence), evidence[k])
  {
    var n := NatToString(|evidence|);
    var shown := evidence[..Min(3, |evidence|)];
    var head := "Analysis based on " + n + " distinct hazard indicators: ";
    assert Reasoning(evidence) == head + Join(shown, ", ") + "...";
    forall k | 0 <= k < Min(3, |evidence|)
      ensures Contains(Reasoning(evidence), evidence[k])
    {
      JoinContains(shown, ", ", k);
      ContainsWithin(head, Join(shown, ", "), "...", shown[k]);
    }
  }

  /** The reasoning states the number of entries in decimal and quotes each of the first three. */
  lemma ReasoningCites(evidence: seq<string>)
    ensures var r := Reasoning(evidence);
      var n := NatToString(|evidence|);
      && r[..18] == "Analysis based on "
      && r[18..18 + |n|] == n
      && DigitsValue(n) == |evidence|
      && forall k | 0 <= k < Min(3, |evidence|) :: Contains(r, evidence[k])
  {
    NatToStringRoundTrip(|evidence|);
    ReasoningOpens(evidence);
    ReasoningQuotes(evidence);
  }
}
