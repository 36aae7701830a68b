/**
  * The Python string built-ins the engines rely on, over ASCII: `str.lower`,
  * `str.strip`, `str.split()`, `sep.join`, the `in` substring test, `str(n)`
  * for a natural number, and the regex classes `\w` and `\s`.
  */
module Text {

  predicate IsUpper(c: char) { 'A' <= c <= 'Z' }

  /** A character of `\w` once the text is lower-cased: a-z, 0-9 or `_`. */
  predicate IsLowerWordChar(c: char) { 'a' <= c <= 'z' || '0' <= c <= '9' || c == '_' }

  /** The regex class `\w`, restricted to ASCII. */
  predicate IsWordChar(c: char) { IsLowerWordChar(c) || IsUpper(c) }

  /**
    * Python's whitespace (`str.isspace`, `str.strip`, `str.split()` and the
    * regex class `\s`) restricted to ASCII: tab, line feed, vertical tab,
    * form feed, carriage return, the separators 0x1C-0x1F and the space.
    */
  predicate IsSpace(c: char) { 9 <= c as int <= 13 || 28 <= c as int <= 32 }

  function LowerChar(c: char): (r: char)
    ensures !IsUpper(r)
    ensures IsWordChar(r) <==> IsWordChar(c)
    ensures !IsUpper(c) ==> r == c
  {
    if IsUpper(c) then (c as int + 32) as char else c
  }

  /** `s.lower()` on ASCII: only A-Z change. */
  function Lower(s: string): (r: string)
    ensures |r| == |s|
    ensures forall i :: 0 <= i < |s| ==> r[i] == LowerChar(s[i])
  {
    seq(|s|, i requires 0 <= i < |s| => LowerChar(s[i]))
  }

  /** Text without upper-case letters is its own lower-case form. */
  lemma LowerKeeps(s: string)
    requires forall i :: 0 <= i < |s| ==> !IsUpper(s[i])
    ensures Lower(s) == s
  {
  }

  // ---------------------------------------------------------------------------
  // Substring tests
  // ---------------------------------------------------------------------------

  predicate OccursAt(s: string, sub: string, i: int)
  {
    0 <= i <= |s| - |sub| && s[i..i + |sub|] == sub
  }

  /** Python's `sub in s`. */
  predicate Contains(s: string, sub: string)
  {
    exists i | 0 <= i <= |s| - |sub| :: OccursAt(s, sub, i)
  }

  /** Python's `any(t in s for t in terms)`. */
  predicate AnyIn(terms: seq<string>, s: string)
  {
    exists k | 0 <= k < |terms| :: Contains(s, terms[k])
  }

  lemma ContainsInfix(a: string, b: string, c: string)
    ensures Contains(a + b + c, b)
  {
    assert (a + b + c)[|a|..|a| + |b|] == b;
    assert OccursAt(a + b + c, b, |a|);
  }

  // ---------------------------------------------------------------------------
  // strip, split, join
  // ---------------------------------------------------------------------------

  /** The number of whitespace characters that open `s`. */
  function LeadingSpace(s: string): (n: nat)
    ensures n <= |s|
    ensures forall i :: 0 <= i < n ==> IsSpace(s[i])
    ensures n < |s| ==> !IsSpace(s[n])
    decreases |s|
  {
    if s != [] && IsSpace(s[0]) then 1 + LeadingSpace(s[1..]) else 0
  }

  function StripRight(s: string): (r: string)
    ensures r == [] || !IsSpace(r[|r| - 1])
    ensures |r| <= |s| && r == s[..|r|]
    ensures forall i :: |r| <= i < |s| ==> IsSpace(s[i])
    decreases |s|
  {
    if s != [] && IsSpace(s[|s| - 1]) then StripRight(s[..|s| - 1]) else s
  }

  /** `s[a..b]` is what is left once the whitespace before `a` and from `b` on is removed. */
  predicate TrimmedAt(s: string, a: int, b: int)
  {
    && 0 <= a <= b <= |s|
    && (forall i | 0 <= i < a :: IsSpace(s[i]))
    && (forall i | b <= i < |s| :: IsSpace(s[i]))
  }

  /**
    * `s.strip()`: the text between the leading and the trailing whitespace.
    * Only whitespace at the two ends is removed; what is left neither starts
    * nor ends with whitespace.
    */
  function Strip(s: string): (r: string)
    ensures r == [] || (!IsSpace(r[0]) && !IsSpace(r[|r| - 1]))
    ensures var a := LeadingSpace(s); TrimmedAt(s, a, a + |r|) && r == s[a..a + |r|]
    ensures Contains(s, r)
  {
    var a := LeadingSpace(s);
    var r := StripRight(s[a..]);
    assert r == s[a..a + |r|] by {
      assert s[a..][..|r|] == s[a..a + |r|];
    }
    assert TrimmedAt(s, a, a + |r|) by {
      forall i | a + |r| <= i < |s|
        ensures IsSpace(s[i])
      {
        assert s[i] == s[a..][i - a];
      }
    }
    assert OccursAt(s, r, a);
    r
  }

  /**
    * Strip is the only way to cut whitespace from the two ends so that none is
    * left at either end: any such cut gives Strip's result.
    */
  lemma StripUnique(s: string, a: int, b: int)
    requires TrimmedAt(s, a, b)
    requires a == b || (!IsSpace(s[a]) && !IsSpace(s[b - 1]))
    ensures Strip(s) == s[a..b]
  {
    var r, a' := Strip(s), LeadingSpace(s);
    assert r != [] ==> s[a'] == r[0] && s[a' + |r| - 1] == r[|r| - 1];
    if a < b {
      assert !IsSpace(s[a]) && !IsSpace(s[b - 1]);
    }
  }

  /** Text that neither starts nor ends with whitespace is its own stripped form. */
  lemma StripKeeps(s: string)
    requires s == [] || (!IsSpace(s[0]) && !IsSpace(s[|s| - 1]))
    ensures Strip(s) == s
  {
  }

  /** Every character of a substring is a character of the string. */
  lemma SubstringChar(s: string, sub: string, j: nat)
    requires Contains(s, sub) && j < |sub|
    ensures exists i :: 0 <= i < |s| && s[i] == sub[j]
  {
    var i :| 0 <= i <= |s| - |sub| && OccursAt(s, sub, i);
    assert s[i..i + |sub|][j] == s[i + j];
  }

  /** The length of the run of non-whitespace that starts `s`. */
  function WordLength(s: string): (n: nat)
    requires s != [] && !IsSpace(s[0])
    ensures 0 < n <= |s|
    ensures forall i :: 0 <= i < n ==> !IsSpace(s[i])
    ensures n < |s| ==> IsSpace(s[n])
    decreases |s|
  {
    if |s| == 1 || IsSpace(s[1]) then 1 else 1 + WordLength(s[1..])
  }

  /** `s.split()`: the maximal runs of non-whitespace characters, in order. */
  function Words(s: string): (ws: seq<string>)
    ensures forall k :: 0 <= k < |ws| ==> ws[k] != []
    ensures forall k, i :: 0 <= k < |ws| && 0 <= i < |ws[k]| ==> !IsSpace(ws[k][i])
    decreases |s|
  {
    if s == [] then []
    else if IsSpace(s[0]) then Words(s[1..])
    else
      var n := WordLength(s);
      [s[..n]] + Words(s[n..])
  }

  /** No character of `w` is whitespace. */
  predicate NoSpace(w: string)
  {
    forall i :: 0 <= i < |w| ==> !IsSpace(w[i])
  }

  /**
    * `s.split()` as a left-to-right scan of the characters: `word` is the
    * word being read and `done` the words already ended; whitespace ends the
    * current word, if any, and every other character extends it.
    */
  function SplitScan(s: string, word: string, done: seq<string>): seq<string>
    decreases |s|
  {
    if s == [] then (if word == [] then done else done + [word])
    else if IsSpace(s[0]) then SplitScan(s[1..], [], if word == [] then done else done + [word])
    else SplitScan(s[1..], word + [s[0]], done)
  }

  /** A run of non-whitespace followed by whitespace, or by nothing, is a whole word. */
  lemma {:induction false} WordLengthOfRun(w: string, rest: string)
    requires w != [] && NoSpace(w) && (rest == [] || IsSpace(rest[0]))
    ensures WordLength(w + rest) == |w|
    decreases |w|
  {
    if |w| > 1 {
      assert (w + rest)[1..] == w[1..] + rest;
      WordLengthOfRun(w[1..], rest);
    }
  }

  /** A single run of non-whitespace is one word. */
  lemma WordsOfRun(w: string)
    requires w != [] && NoSpace(w)
    ensures Words(w) == [w]
  {
    WordLengthOfRun(w, []);
    assert w + [] == w;
    assert w[..|w|] == w && w[|w|..] == [];
  }

  /** A run of non-whitespace followed by whitespace is a word, then the words after the whitespace. */
  lemma WordsAfterRun(w: string, s: string)
    requires w != [] && NoSpace(w) && s != [] && IsSpace(s[0])
    ensures Words(w + s) == [w] + Words(s[1..])
  {
    WordLengthOfRun(w, s);
    assert (w + s)[..|w|] == w && (w + s)[|w|..] == s;
  }

  /** The scan reaching whitespace: the pending word, if any, is ended. */
  lemma ScanSpaceStep(s: string, word: string, done: seq<string>)
    requires NoSpace(word) && s != [] && IsSpace(s[0])
    requires var done' := if word == [] then done else done + [word];
      SplitScan(s[1..], [], done') == done' + Words([] + s[1..])
    ensures SplitScan(s, word, done) == done + Words(word + s)
  {
    assert [] + s[1..] == s[1..];
    if word == [] {
      assert word + s == s;
    } else {
      WordsAfterRun(word, s);
      assert done + ([word] + Words(s[1..])) == (done + [word]) + Words(s[1..]);
    }
  }

  /** The scan reaching another character: the character extends the pending word. */
  lemma ScanCharStep(s: string, word: string, done: seq<string>)
    requires s != [] && !IsSpace(s[0])
    requires SplitScan(s[1..], word + [s[0]], done) == done + Words((word + [s[0]]) + s[1..])
    ensures SplitScan(s, word, done) == done + Words(word + s)
  {
    assert (word + [s[0]]) + s[1..] == word + s;
  }

  /** The words of a pending word followed by the rest of the text are what the scan ends up adding. */
  lemma {:induction false} ScanFrom(s: string, word: string, done: seq<string>)
    requires NoSpace(word)
    ensures SplitScan(s, word, done) == done + Words(word + s)
    decreases |s|
  {
    if s == [] {
      assert word + s == word;
      if word != [] {
        WordsOfRun(word);
      }
    } else if IsSpace(s[0]) {
      ScanFrom(s[1..], [], if word == [] then done else done + [word]);
      ScanSpaceStep(s, word, done);
    } else {
      ScanFrom(s[1..], word + [s[0]], done);
      ScanCharStep(s, word, done);
    }
  }

  /** `split()` yields exactly what the character-by-character scan yields. */
  lemma WordsIsScan(s: string)
    ensures Words(s) == SplitScan(s, [], [])
  {
    ScanFrom(s, [], []);
    assert [] + s == s;
  }

  /** `sep.join(ws)`. */
  function Join(ws: seq<string>, sep: string): string
  {
    if ws == [] then []
    else if |ws| == 1 then ws[0]
    else ws[0] + sep + Join(ws[1..], sep)
  }

  /** Each joined element occurs in the joined string. */
  lemma {:induction false} JoinContains(ws: seq<string>, sep: string, k: nat)
    requires k < |ws|
    ensures Contains(Join(ws, sep), ws[k])
  {
    if |ws| == 1 {
      ContainsInfix([], ws[0], []);
      assert [] + ws[0] + [] == ws[0];
    } else if k == 0 {
      ContainsInfix([], ws[0], sep + Join(ws[1..], sep));
      assert [] + ws[0] + (sep + Join(ws[1..], sep)) == Join(ws, sep);
    } else {
      JoinContains(ws[1..], sep, k - 1);
      var rest := Join(ws[1..], sep);
      var i :| 0 <= i <= |rest| - |ws[k]| && OccursAt(rest, ws[k], i);
      var pre := ws[0] + sep;
      assert Join(ws, sep) == pre + rest;
      assert (pre + rest)[|pre| + i..|pre| + i + |ws[k]|] == rest[i..i + |ws[k]|];
      assert OccursAt(Join(ws, sep), ws[k], |pre| + i);
    }
  }

  /** A token of normalized text: non-empty and made of lower-case word characters. */
  predicate IsToken(w: string)
  {
    w != [] && forall i :: 0 <= i < |w| ==> IsLowerWordChar(w[i])
  }

  /**
    * The shape of normalized text: lower-case word characters separated by
    * single spaces, with no space at either end.
    */
  predicate NormalForm(s: string)
  {
    && (forall i :: 0 <= i < |s| ==> IsLowerWordChar(s[i]) || s[i] == ' ')
    && (s != [] ==> s[0] != ' ' && s[|s| - 1] != ' ')
    && (forall i :: 0 <= i < |s| - 1 ==> s[i] != ' ' || s[i + 1] != ' ')
  }

  /** Only lower-case word characters and whitespace. */
  predicate LowerWordsAndSpaces(s: string)
  {
    forall i :: 0 <= i < |s| ==> IsLowerWordChar(s[i]) || IsSpace(s[i])
  }

  lemma {:induction false} WordsAreTokens(s: string)
    requires LowerWordsAndSpaces(s)
    ensures forall k :: 0 <= k < |Words(s)| ==> IsToken(Words(s)[k])
    decreases |s|
  {
    if s == [] {
    } else if IsSpace(s[0]) {
      WordsAreTokens(s[1..]);
    } else {
      var n := WordLength(s);
      WordsAreTokens(s[n..]);
      assert forall i :: 0 <= i < n ==> s[..n][i] == s[i];
    }
  }

  /** Re-joining the words of lower-case text with single spaces keeps its words. */
  lemma CollapseKeepsWords(s: string)
    requires LowerWordsAndSpaces(s)
    ensures Words(Join(Words(s), " ")) == Words(s)
  {
    WordsAreTokens(s);
    WordsOfJoin(Words(s));
  }

  lemma {:induction false} WordsOfBlank(s: string)
    requires forall i :: 0 <= i < |s| ==> IsSpace(s[i])
    ensures Words(s) == []
    decreases |s|
  {
    if s != [] {
      WordsOfBlank(s[1..]);
    }
  }

  lemma {:induction false} JoinTokens(ws: seq<string>)
    requires forall k :: 0 <= k < |ws| ==> IsToken(ws[k])
    ensures NormalForm(Join(ws, " "))
  {
    if |ws| > 1 {
      JoinTokens(ws[1..]);
      var w, rest := ws[0], Join(ws[1..], " ");
      assert IsToken(ws[1]);
      assert rest != [] by {
        if |ws| == 2 { assert rest == ws[1]; }
      }
      var r := w + " " + rest;
      assert Join(ws, " ") == r;
      forall i | 0 <= i < |r|
        ensures IsLowerWordChar(r[i]) || r[i] == ' '
      {
        if i < |w| { assert r[i] == w[i]; }
        else if i > |w| { assert r[i] == rest[i - |w| - 1]; }
      }
      forall i | 0 <= i < |r| - 1
        ensures r[i] != ' ' || r[i + 1] != ' '
      {
        if i < |w| { assert r[i] == w[i]; }
        else { assert r[i + 1] == rest[i - |w|]; }
      }
      assert r[|r| - 1] == rest[|rest| - 1];
    }
  }

  /** A token followed by whitespace, or by nothing, is a whole word. */
  lemma {:induction false} WordLengthOfToken(w: string, rest: string)
    requires IsToken(w) && (rest == [] || IsSpace(rest[0]))
    ensures WordLength(w + rest) == |w|
    decreases |w|
  {
    if |w| > 1 {
      assert (w + rest)[1..] == w[1..] + rest;
      WordLengthOfToken(w[1..], rest);
    }
  }

  /** Splitting tokens joined by single spaces gives the tokens back. */
  lemma {:induction false} WordsOfJoin(ws: seq<string>)
    requires forall k :: 0 <= k < |ws| ==> IsToken(ws[k])
    ensures Words(Join(ws, " ")) == ws
  {
    if |ws| == 1 {
      WordLengthOfToken(ws[0], []);
      assert ws[0] + [] == ws[0];
      assert ws[0][|ws[0]|..] == [];
    } else if |ws| > 1 {
      var rest := Join(ws[1..], " ");
      WordLengthOfToken(ws[0], " " + rest);
      WordsOfJoin(ws[1..]);
      var s := ws[0] + (" " + rest);
      assert Join(ws, " ") == s;
      assert s[..|ws[0]|] == ws[0];
      assert s[|ws[0]|..] == " " + rest;
      assert (" " + rest)[1..] == rest;
    }
  }

  // ---------------------------------------------------------------------------
  // str(n) for a natural number
  // ---------------------------------------------------------------------------

  predicate IsDigit(c: char) { '0' <= c <= '9' }

  function DigitChar(d: nat): (c: char)
    requires d < 10
    ensures IsDigit(c) && c as int - '0' as int == d
  {
    ('0' as int + d) as char
  }

  /** `str(n)`: the decimal digits of `n`, without leading zeros. */
  function NatToString(n: nat): (s: string)
    ensures s != [] && (forall i :: 0 <= i < |s| ==> IsDigit(s[i]))
    ensures |s| > 1 ==> s[0] != '0'
    decreases n
  {
    if n < 10 then [DigitChar(n)] else NatToString(n / 10) + [DigitChar(n % 10)]
  }

  function DigitValue(c: char): (d: nat)
    requires IsDigit(c)
    ensures d < 10
  {
    c as int - '0' as int
  }

  /** The number a string of decimal digits denotes. */
  function DigitsValue(s: string): nat
    requires forall i :: 0 <= i < |s| ==> IsDigit(s[i])
  {
    if s == [] then 0
    else DigitsValue(s[..|s| - 1]) * 10 + DigitValue(s[|s| - 1])
  }

  lemma {:induction false} NatToStringRoundTrip(n: nat)
    ensures DigitsValue(NatToString(n)) == n
    decreases n
  {
    if n >= 10 {
      NatToStringRoundTrip(n / 10);
      var s := NatToString(n);
      assert s[..|s| - 1] == NatToString(n / 10);
    }
  }
}
