/** What each cleanup rule reports, said on the text itself: which ranges it
    proposes and, for every range of that kind, that it does. */
module CleanupMeaning {
  import opened Base
  import opened CleanupRules
  import opened CleanupTokens
  import Utf8

  // ----- the tables

  /** The four blanks within a line. */
  const BLANKS: set<int> := {0x20, 0x09, 0xA0, 0x3000}

  /** Comma, semicolon, colon, exclamation and question mark, in ASCII and in full width. */
  const COLLAPSIBLE: set<int> := {0x2C, 0x3B, 0x3A, 0x21, 0x3F, 0xFF0C, 0xFF1B, 0xFF1A, 0xFF01, 0xFF1F}

  /** The marks of a sentence: those and the two full stops. */
  const MARKS: set<int> := {0x2C, 0x3B, 0x3A, 0x21, 0x3F, 0xFF0C, 0xFF1B, 0xFF1A, 0xFF01, 0xFF1F, 0x2E, 0x3002}

  /** Full stops, exclamation and question marks. */
  const ENDS: set<int> := {0x2E, 0x21, 0x3F, 0x3002, 0xFF01, 0xFF1F}

  /** Straight and curly opening quotes and the three opening brackets. */
  const QUOTES: set<int> := {0x22, 0x27, 0x201C, 0x2018, 0x28, 0x5B, 0x7B}

  lemma Tables(c: char)
    ensures IsHorizontal(c) <==> c as int in BLANKS
    ensures IsPunctuation(c) <==> c as int in MARKS
    ensures IsCollapsible(c) <==> c as int in COLLAPSIBLE
    ensures IsTerminator(c) <==> c as int in ENDS
    ensures IsOpeningQuote(c) <==> c as int in QUOTES
  {
  }

  /** The ASCII letters pair up; nothing else has another case. */
  function Folded(c: char): int {
    if 0x41 <= c as int <= 0x5A then c as int + 0x20 else c as int
  }

  lemma Folding(c: char)
    ensures Lower(c) as int == Folded(c)
    ensures IsLower(c) <==> 0x61 <= c as int <= 0x7A
    ensures IsLower(c) ==> Upper(c) as int == c as int - 0x20
  {
  }

  /** Safe edits only delete blanks; words, marks, inner blanks and letters are for review. Where ranges overlap, outer
      blanks win over repeated words, these over blanks before marks, then repeated marks, inner blanks and letters. */
  lemma RulesInOrder(a: Rule, b: Rule)
    ensures IsSafe(a) <==> a == OuterWhitespace || a == PunctuationSpacing
    ensures var order := [OuterWhitespace, RepeatedWord, PunctuationSpacing, RepeatedPunctuation, RepeatedWhitespace,
                          SentenceCase];
            a == order[Priority(a)]
  {
  }

  // ----- tokens

  /** A maximal stretch without whitespace. */
  predicate Stretch(s: string, t: Span) {
    && t.start < t.end <= |s|
    && (forall k :: t.start <= k < t.end ==> !Utf8.IsWhitespace(s[k]))
    && (t.start == 0 || Utf8.IsWhitespace(s[t.start - 1])) && (t.end == |s| || Utf8.IsWhitespace(s[t.end]))
  }

  lemma {:induction false} SpecIsStretch(s: string, n: nat, t: Span)
    requires n <= |s|
    ensures t in TokenSpec(s, n) <==> Stretch(s, t) && t.end <= n
  {
    hide TokenEnds;
    hide TokenStart;
    hide Stretch;
    EndIsStretch(s, n, t);
    if n > 0 {
      SpecIsStretch(s, n - 1, t);
    } else {
      StretchEnds(s, t);
    }
  }

  lemma StretchEnds(s: string, t: Span)
    ensures Stretch(s, t) ==> t.start < t.end <= |s|
  {
  }

  lemma EndIsStretch(s: string, n: nat, t: Span)
    requires n <= |s|
    ensures TokenEnds(s, n) && t == Span(TokenStart(s, n), n) <==> Stretch(s, t) && t.end == n
  {
    hide Utf8.IsWhitespace;
    if Stretch(s, t) && t.end == n {
      StartStays(s, t.start, n);
    }
  }

  /** The tokens are exactly the maximal stretches without whitespace. */
  lemma TokensAreStretches(s: string, t: Span)
    ensures t in Tokens(s) <==> Stretch(s, t)
  {
    SpecIsStretch(s, |s|, t);
  }

  lemma NoTokenInBlanks(s: string, t: Span, i: nat, j: nat)
    requires IsToken(s, t) && AllWhitespace(s, i, j)
    ensures !(i <= t.start && t.end <= j)
  {
    var c := s[t.start];
  }

  /** Two tokens with nothing but whitespace between them are neighbours. */
  lemma Neighbours(s: string, p: Span, t: Span) returns (k: nat)
    requires Stretch(s, p) && Stretch(s, t) && p.end <= t.start && AllWhitespace(s, p.end, t.start)
    ensures 0 < k < |Tokens(s)| && Tokens(s)[k - 1] == p && Tokens(s)[k] == t
  {
    hide Utf8.IsWhitespace;
    hide Tokens;
    TokensAreStretches(s, p);
    TokensAreStretches(s, t);
    TokensCut(s);
    var a :| 0 <= a < |Tokens(s)| && Tokens(s)[a] == p;
    k :| 0 <= k < |Tokens(s)| && Tokens(s)[k] == t;
    if k < a {
      TokensOrdered(s, Tokens(s), k, a);
      assert false;
    }
    if a + 1 < k {
      TokensOrdered(s, Tokens(s), a, a + 1);
      TokensOrdered(s, Tokens(s), a + 1, k);
      NoTokenInBlanks(s, Tokens(s)[a + 1], p.end, t.start);
      assert false;
    }
  }

  // ----- repeated words

  /** s[i..j] is the token t without the marks around it, and something of it is alphanumeric. */
  predicate WordOf(s: string, t: Span, i: nat, j: nat, alnum: char -> bool) {
    && t.start <= i < j <= t.end <= |s|
    && (forall k :: t.start <= k < i ==> s[k] as int in MARKS) && (forall k :: j <= k < t.end ==> s[k] as int in MARKS)
    && s[i] as int !in MARKS && s[j - 1] as int !in MARKS
    && exists k :: i <= k < j && alnum(s[k])
  }

  /** The words differ at most in the case of ASCII letters. */
  predicate SameFolded(a: string, b: string) {
    |a| == |b| && forall k :: 0 <= k < |a| ==> Folded(a[k]) == Folded(b[k])
  }

  /** Two tokens on one line hold the same word but for the case of ASCII letters, and the second starts with it. */
  predicate Doubled(s: string, p: Span, t: Span, i: nat, j: nat, n: nat, alnum: char -> bool) {
    && Stretch(s, p) && Stretch(s, t) && p.end <= t.start
    && (forall k :: p.end <= k < t.start ==> Utf8.IsWhitespace(s[k]) && s[k] != '\n')
    && WordOf(s, p, i, j, alnum) && WordOf(s, t, t.start, n, alnum)
    && SameFolded(s[i..j], s[t.start..n])
  }

  lemma Marks(s: string)
    ensures forall k :: 0 <= k < |s| ==> (IsPunctuation(s[k]) <==> s[k] as int in MARKS)
  {
    forall k | 0 <= k < |s| ensures IsPunctuation(s[k]) <==> s[k] as int in MARKS {
      Tables(s[k]);
    }
  }

  lemma WordIsTrimmed(s: string, t: Span, i: nat, j: nat, alnum: char -> bool)
    requires IsToken(s, t)
    ensures WordOf(s, t, i, j, alnum) <==>
              var from := TrimLeft(s, t.start, t.end);
              i == from && j == TrimRight(s, from, t.end) && i < j && exists k :: i <= k < j && alnum(s[k])
  {
    Marks(s);
    hide IsPunctuation;
    hide Utf8.IsWhitespace;
    var from := TrimLeft(s, t.start, t.end);
    var to := TrimRight(s, from, t.end);
    hide TrimLeft;
    hide TrimRight;
  }

  lemma SliceHas(s: string, i: nat, j: nat, alnum: char -> bool)
    requires i <= j <= |s|
    ensures (exists k :: 0 <= k < j - i && alnum(s[i..j][k])) <==> exists k :: i <= k < j && alnum(s[k])
  {
    if k :| 0 <= k < j - i && alnum(s[i..j][k]) {
      assert s[i + k] == s[i..j][k];
    }
    if k :| i <= k < j && alnum(s[k]) {
      assert s[i..j][k - i] == s[k];
    }
  }

  /** The word of a token is found where it stands. */
  lemma NormalizedMeans(s: string, t: Span, alnum: char -> bool)
    requires IsToken(s, t)
    ensures var from := TrimLeft(s, t.start, t.end);
            var to := TrimRight(s, from, t.end);
            var w := NormalizedWord(s, t, alnum);
            && (w.Some? <==> WordOf(s, t, from, to, alnum))
            && (w.Some? ==> w.value == Span(from, to))
  {
    hide WordOf;
    hide TrimLeft;
    hide TrimRight;
    hide FindFrom;
    hide IsPunctuation;
    hide Utf8.IsWhitespace;
    var from := TrimLeft(s, t.start, t.end);
    var to := TrimRight(s, from, t.end);
    WordIsTrimmed(s, t, from, to, alnum);
    SliceHas(s, from, to, alnum);
    SliceOfSlice(s, t.start, t.end, from, to);
    assert OccursAt(s[t.start..t.end], s[from..to], from - t.start);
    if NormalizedWord(s, t, alnum).Some? {
      WordStartsClean(s, t, alnum);
    }
  }

  lemma FoldedAlike(a: string, b: string)
    ensures EqualIgnoreAsciiCase(a, b) <==> SameFolded(a, b)
  {
    forall k | 0 <= k < |a| && k < |b| ensures (Lower(a[k]) == Lower(b[k])) <==> Folded(a[k]) == Folded(b[k]) {
      Folding(a[k]);
      Folding(b[k]);
    }
    hide Lower;
    hide Folded;
  }

  lemma NoBreak(s: string, i: nat, j: nat)
    requires i <= j <= |s|
    ensures '\n' !in s[i..j] <==> forall k :: i <= k < j ==> s[k] != '\n'
  {
    if forall k :: i <= k < j ==> s[k] != '\n' {
      forall k | 0 <= k < j - i ensures s[i..j][k] != '\n' {
        assert s[i..j][k] == s[i + k];
      }
    } else {
      var k :| i <= k < j && s[k] == '\n';
      assert s[i..j][k - i] == s[k];
    }
  }

  /** What the rule says about two neighbouring tokens. */
  lemma PairMeans(s: string, p: Span, t: Span, alnum: char -> bool)
    requires Stretch(s, p) && Stretch(s, t) && p.end <= t.start && AllWhitespace(s, p.end, t.start)
    ensures var from := TrimLeft(s, p.start, p.end);
            var to, n := TrimRight(s, from, p.end), TrimRight(s, t.start, t.end);
            RepeatAt(s, p, t, alnum)
            == if Doubled(s, p, t, from, to, n, alnum) then [Candidate(p.end, n, "", RepeatedWord)] else []
  {
    hide Utf8.IsWhitespace;
    hide NormalizedWord;
    hide WordOf;
    hide TrimLeft;
    hide TrimRight;
    hide EqualIgnoreAsciiCase;
    hide SameFolded;
    var from, at := TrimLeft(s, p.start, p.end), TrimLeft(s, t.start, t.end);
    var to, n := TrimRight(s, from, p.end), TrimRight(s, at, t.end);
    NormalizedMeans(s, p, alnum);
    NormalizedMeans(s, t, alnum);
    WordBegins(s, t, alnum);
    if at == t.start && from <= to && at <= n {
      FoldedAlike(s[from..to], s[at..n]);
    }
    NoBreak(s, p.end, t.start);
  }

  /** Where a word starts its token, the trimming starts there. */
  lemma WordBegins(s: string, t: Span, alnum: char -> bool)
    requires IsToken(s, t)
    ensures forall n :: WordOf(s, t, t.start, n, alnum) ==> TrimLeft(s, t.start, t.end) == t.start
  {
    forall n | WordOf(s, t, t.start, n, alnum) ensures TrimLeft(s, t.start, t.end) == t.start {
      WordIsTrimmed(s, t, t.start, n, alnum);
    }
  }

  lemma {:induction false} RepeatSpecHas(s: string, tokens: seq<Span>, n: nat, alnum: char -> bool, c: Candidate)
    requires CutsText(s, tokens, |s|) && n <= |tokens|
    ensures c in RepeatSpec(s, tokens, n, alnum) <==>
              exists k :: 0 < k < n && tokens[k - 1].end <= tokens[k].start
                          && c in RepeatAt(s, tokens[k - 1], tokens[k], alnum)
  {
    hide RepeatAt;
    hide IsToken;
    if n > 1 {
      RepeatSpecHas(s, tokens, n - 1, alnum, c);
      assert AllWhitespace(s, tokens[n - 2].end, tokens[n - 2 + 1].start);
      hide CutsText;
      if c in RepeatAt(s, tokens[n - 2], tokens[n - 1], alnum) {
        var k := n - 1;
        assert c in RepeatAt(s, tokens[k - 1], tokens[k], alnum);
      }
    }
  }

  /** Every repeated word proposed is the second of two equal words that are neighbours on a line, and all before it up
      to the first is deleted with it. */
  lemma RepeatedIsDoubled(s: string, alnum: char -> bool, c: Candidate) returns (p: Span, t: Span, i: nat, j: nat)
    requires c in WordsSpec(s, alnum)
    ensures Doubled(s, p, t, i, j, c.end, alnum) && c == Candidate(p.end, c.end, "", RepeatedWord)
  {
    hide Utf8.IsWhitespace;
    hide RepeatAt;
    hide Tokens;
    hide Stretch;
    hide Doubled;
    hide TrimLeft;
    hide TrimRight;
    hide WordOf;
    TokensCut(s);
    RepeatSpecHas(s, Tokens(s), |Tokens(s)|, alnum, c);
    var k :| 0 < k < |Tokens(s)| && Tokens(s)[k - 1].end <= Tokens(s)[k].start
             && c in RepeatAt(s, Tokens(s)[k - 1], Tokens(s)[k], alnum);
    p, t := Tokens(s)[k - 1], Tokens(s)[k];
    TokensAreStretches(s, p);
    TokensAreStretches(s, t);
    assert AllWhitespace(s, Tokens(s)[k - 1].end, Tokens(s)[k - 1 + 1].start);
    PairMeans(s, p, t, alnum);
    i := TrimLeft(s, p.start, p.end);
    j := TrimRight(s, i, p.end);
  }

  /** And any two neighbouring words that are equal are proposed. */
  lemma DoubledIsRepeated(s: string, alnum: char -> bool, p: Span, t: Span, i: nat, j: nat, n: nat)
    requires Doubled(s, p, t, i, j, n, alnum)
    ensures Candidate(p.end, n, "", RepeatedWord) in WordsSpec(s, alnum)
  {
    hide Utf8.IsWhitespace;
    hide RepeatAt;
    hide Tokens;
    hide WordOf;
    TokensCut(s);
    var k := Neighbours(s, p, t);
    WordIsTrimmed(s, p, i, j, alnum);
    WordIsTrimmed(s, t, t.start, n, alnum);
    PairMeans(s, p, t, alnum);
    hide Stretch;
    hide Doubled;
    hide TrimLeft;
    hide TrimRight;
    assert Candidate(p.end, n, "", RepeatedWord) in RepeatAt(s, Tokens(s)[k - 1], Tokens(s)[k], alnum);
    RepeatSpecHas(s, Tokens(s), |Tokens(s)|, alnum, Candidate(p.end, n, "", RepeatedWord));
  }

  // ----- blanks

  /** A maximal run of blanks. */
  predicate BlankRun(s: string, i: nat, j: nat) {
    && i < j <= |s| && (forall k :: i <= k < j ==> s[k] as int in BLANKS)
    && (i == 0 || s[i - 1] as int !in BLANKS) && (j == |s| || s[j] as int !in BLANKS)
  }

  lemma Blanks(s: string)
    ensures forall k :: 0 <= k < |s| ==> (IsHorizontal(s[k]) <==> s[k] as int in BLANKS)
  {
    forall k | 0 <= k < |s| ensures IsHorizontal(s[k]) <==> s[k] as int in BLANKS {
      Tables(s[k]);
    }
  }

  lemma RunsAreMaximal(s: string, i: nat, j: nat)
    requires j <= |s| && (j == |s| || s[j] as int !in BLANKS)
    ensures BlankRun(s, i, j) <==> i == RunStart(s, j) < j
  {
    Blanks(s);
    hide IsHorizontal;
    var start := RunStart(s, j);
    hide RunStart;
  }

  lemma LeadIsMaximal(s: string, j: nat)
    ensures BlankRun(s, 0, j) <==> j == RunEnd(s, 0) > 0
  {
    Blanks(s);
    hide IsHorizontal;
    var end := RunEnd(s, 0);
    hide RunEnd;
  }

  /** Proposed as outer blanks are exactly the run that begins the text and, unless the text is nothing but blanks, the
      run that ends it. */
  lemma OuterMeans(s: string, c: Candidate)
    ensures c in OuterSpec(s) <==>
              && c == Candidate(c.start, c.end, "", OuterWhitespace) && BlankRun(s, c.start, c.end)
              && (c.start == 0 || c.end == |s|)
  {
    Blanks(s);
    hide IsHorizontal;
    LeadIsMaximal(s, c.end);
    RunsAreMaximal(s, c.start, |s|);
    OuterEnds(s);
    hide RunStart;
    hide RunEnd;
    hide BlankRun;
  }

  lemma OuterEnds(s: string)
    ensures RunEnd(s, 0) == |s| && |s| > 0 ==> RunStart(s, |s|) == 0
    ensures RunEnd(s, 0) < |s| ==> RunStart(s, |s|) >= RunEnd(s, 0)
  {
    hide IsHorizontal;
    var end, start := RunEnd(s, 0), RunStart(s, |s|);
    hide RunStart;
    hide RunEnd;
  }

  lemma {:induction false} SpacingHas(s: string, n: nat, c: Candidate)
    requires n <= |s|
    ensures c in SpacingSpec(s, n) <==> exists p :: 0 <= p < n && c in SpacingAt(s, p)
  {
    hide SpacingAt;
    if n > 0 {
      SpacingHas(s, n - 1, c);
    }
  }

  /** Proposed before marks are exactly the runs of blanks that a mark follows. */
  lemma SpacingMeans(s: string, c: Candidate)
    ensures c in SpacingSpec(s, |s|) <==>
              && c == Candidate(c.start, c.end, "", PunctuationSpacing) && BlankRun(s, c.start, c.end)
              && c.end < |s| && s[c.end] as int in MARKS
  {
    SpacingHas(s, |s|, c);
    Marks(s);
    hide IsPunctuation;
    hide SpacingSpec;
    hide RunStart;
    forall p: nat | p < |s| && s[p] as int in MARKS ensures BlankRun(s, c.start, p) <==> c.start == RunStart(s, p) < p {
      MarkIsNoBlank(s[p]);
      RunsAreMaximal(s, c.start, p);
    }
    hide BlankRun;
    if c.end < |s| {
      var at := SpacingAt(s, c.end);
    }
  }

  lemma MarkIsNoBlank(c: char)
    ensures c as int in MARKS ==> c as int !in BLANKS
  {
  }

  lemma {:induction false} BlanksHas(s: string, n: nat, c: Candidate)
    requires n <= |s|
    ensures c in BlanksSpec(s, n) <==> exists j :: 0 <= j < n && c in BlanksAt(s, j)
  {
    hide BlanksAt;
    if n > 0 {
      BlanksHas(s, n - 1, c);
    }
  }

  /** The run of blanks c stands for is to become one space. */
  predicate InnerBlanks(s: string, c: Candidate) {
    && c == Candidate(c.start, c.end, " ", RepeatedWhitespace) && BlankRun(s, c.start, c.end)
    && c.end - c.start >= 2 && 0 < c.start && c.end < |s| && s[c.start - 1] != '\n'
  }

  lemma BlanksAtMeans(s: string, j: nat, c: Candidate)
    requires j < |s|
    ensures c in BlanksAt(s, j) <==> j == c.end && InnerBlanks(s, c)
  {
    Tables(s[j]);
    hide IsHorizontal;
    hide RunStart;
    if s[j] as int !in BLANKS {
      RunsAreMaximal(s, c.start, j);
      hide BlankRun;
    }
  }

  /** Proposed as inner blanks are exactly the runs of two or more that neither begin a line nor end the text; one space
      replaces them. */
  lemma InnerBlanksMean(s: string, c: Candidate)
    ensures c in BlanksSpec(s, |s|) <==>
              && c == Candidate(c.start, c.end, " ", RepeatedWhitespace) && BlankRun(s, c.start, c.end)
              && c.end - c.start >= 2 && 0 < c.start && c.end < |s| && s[c.start - 1] != '\n'
  {
    BlanksHas(s, |s|, c);
    hide BlanksSpec;
    hide BlankRun;
    forall j: nat | j < |s| ensures c in BlanksAt(s, j) <==> j == c.end && InnerBlanks(s, c) {
      BlanksAtMeans(s, j, c);
    }
    if c.end < |s| {
      var at := BlanksAt(s, c.end);
    }
    hide BlanksAt;
  }

  // ----- repeated marks

  /** A maximal run of one character. */
  predicate EqualRun(s: string, i: nat, j: nat) {
    && i < j <= |s| && (forall k :: i <= k < j ==> s[k] == s[i])
    && (i == 0 || s[i - 1] != s[i]) && (j == |s| || s[j] != s[i])
  }

  lemma {:induction false} SameStartIsMaximal(s: string, j: nat)
    requires 0 < j <= |s|
    ensures SameStart(s, j) > 0 ==> s[SameStart(s, j) - 1] != s[j - 1]
  {
    if j > 1 && s[j - 2] == s[j - 1] {
      SameStartIsMaximal(s, j - 1);
    }
  }

  lemma RunIsSameStart(s: string, i: nat, j: nat)
    requires 0 < j <= |s| && (j == |s| || s[j] != s[j - 1])
    ensures EqualRun(s, i, j) <==> i == SameStart(s, j)
  {
    SameStartIsMaximal(s, j);
    var start := SameStart(s, j);
    hide SameStart;
  }

  lemma {:induction false} CollapseHas(s: string, n: nat, c: Candidate)
    requires n <= |s|
    ensures c in CollapseSpec(s, n) <==> exists j :: 0 < j <= n && c in CollapseAt(s, j)
  {
    hide CollapseAt;
    if n > 0 {
      CollapseHas(s, n - 1, c);
    }
  }

  /** Proposed as repeated marks are exactly the runs of two or more of one collapsible mark; one of it replaces them. */
  lemma CollapseMeans(s: string, c: Candidate)
    ensures c in CollapseSpec(s, |s|) <==>
              && EqualRun(s, c.start, c.end) && c.end - c.start >= 2 && s[c.start] as int in COLLAPSIBLE
              && c == Candidate(c.start, c.end, [s[c.start]], RepeatedPunctuation)
  {
    CollapseHas(s, |s|, c);
    forall k | 0 <= k < |s| ensures IsCollapsible(s[k]) <==> s[k] as int in COLLAPSIBLE {
      Tables(s[k]);
    }
    hide IsCollapsible;
    hide CollapseSpec;
    hide SameStart;
    forall j: nat | 0 < j <= |s| && (j == |s| || s[j] != s[j - 1])
      ensures EqualRun(s, c.start, j) <==> c.start == SameStart(s, j) {
      RunIsSameStart(s, c.start, j);
    }
    if 0 < c.end <= |s| {
      var at := CollapseAt(s, c.end);
    }
  }

  // ----- capitals

  predicate Stands(s: string, word: string, k: nat) {
    k + |word| <= |s| && s[k..k + |word|] == word
  }

  /** s[t] names an address: it has a scheme separator or an at sign, or begins with www. */
  predicate Address(s: string, t: Span) {
    && t.start <= t.end <= |s|
    && (|| (exists k :: t.start <= k <= t.end - 3 && Stands(s, "://", k))
        || (exists k :: t.start <= k < t.end && s[k] == '@')
        || (t.start + 4 <= t.end && Stands(s, "www.", t.start)))
  }

  ghost predicate InAddress(s: string, i: nat) {
    exists t :: Stretch(s, t) && t.start <= i < t.end && Address(s, t)
  }

  lemma AddressByText(s: string, t: Span)
    requires t.start <= t.end <= |s|
    ensures IsAddress(s[t.start..t.end]) <==> Address(s, t)
  {
    var x := s[t.start..t.end];
    if |x| >= 4 {
      SliceOfSlice(s, t.start, t.end, t.start, t.start + 4);
    }
    SchemeByText(s, t);
    AtByText(s, t);
    hide FindFrom;
  }

  lemma SchemeByText(s: string, t: Span)
    requires t.start <= t.end <= |s|
    ensures FindFrom(s[t.start..t.end], "://", 0).Some?
       <==> exists k :: t.start <= k <= t.end - 3 && Stands(s, "://", k)
  {
    var x := s[t.start..t.end];
    var found := FindFrom(x, "://", 0);
    hide FindFrom;
    if found.Some? {
      var k := t.start + found.value;
      SliceOfSlice(s, t.start, t.end, k, k + 3);
      assert Stands(s, "://", k);
    }
    if k :| t.start <= k <= t.end - 3 && Stands(s, "://", k) {
      SliceOfSlice(s, t.start, t.end, k, k + 3);
      assert OccursAt(x, "://", k - t.start);
    }
  }

  lemma AtByText(s: string, t: Span)
    requires t.start <= t.end <= |s|
    ensures '@' in s[t.start..t.end] <==> exists k :: t.start <= k < t.end && s[k] == '@'
  {
    if k :| t.start <= k < t.end && s[k] == '@' {
      assert s[t.start..t.end][k - t.start] == '@';
    }
  }

  lemma ProtectedMeans(s: string, i: nat)
    requires CutsText(s, Tokens(s), |s|)
    ensures Protected(s, Tokens(s), i) <==> InAddress(s, i)
  {
    hide Tokens;
    hide Address;
    hide IsAddress;
    hide Stretch;
    hide Utf8.IsWhitespace;
    if Protected(s, Tokens(s), i) {
      var k :| 0 <= k < |Tokens(s)| && Tokens(s)[k].start <= i < Tokens(s)[k].end
               && IsAddress(s[Tokens(s)[k].start..Tokens(s)[k].end]);
      TokensAreStretches(s, Tokens(s)[k]);
      StretchEnds(s, Tokens(s)[k]);
      AddressByText(s, Tokens(s)[k]);
    }
    if t :| Stretch(s, t) && t.start <= i < t.end && Address(s, t) {
      TokensAreStretches(s, t);
      StretchEnds(s, t);
      AddressByText(s, t);
      var k :| 0 <= k < |Tokens(s)| && Tokens(s)[k] == t;
    }
  }

  /** What may stand between the end of a sentence and the letter that begins the next. */
  ghost predicate Between(s: string, i: nat)
    requires i < |s|
  {
    (Utf8.IsWhitespace(s[i]) || s[i] as int in QUOTES) && !InAddress(s, i)
  }

  /** A sentence may begin behind the first j characters. */
  ghost predicate MayBegin(s: string, j: nat) {
    j == 0 || (j <= |s| && s[j - 1] as int in ENDS && !InAddress(s, j - 1))
  }

  lemma BeginsNext(s: string, i: nat)
    requires CutsText(s, Tokens(s), |s|) && i < |s|
    ensures BeginsSentence(s, Tokens(s), i + 1) ==
            if InAddress(s, i) then false
            else if BeginsSentence(s, Tokens(s), i) then Between(s, i)
            else s[i] as int in ENDS
  {
    ProtectedMeans(s, i);
    Tables(s[i]);
    LowerIsNoGap(s[i]);
    hide Protected;
    hide InAddress;
    hide Tokens;
    hide CutsText;
    hide Utf8.IsWhitespace;
    hide IsOpeningQuote;
    hide IsTerminator;
  }

  lemma LowerIsNoGap(c: char)
    ensures IsLower(c) ==> !Utf8.IsWhitespace(c) && c as int !in QUOTES
  {
  }

  lemma {:induction false} BeginningIsFound(s: string, i: nat) returns (j: nat)
    requires CutsText(s, Tokens(s), |s|) && i <= |s| && BeginsSentence(s, Tokens(s), i)
    ensures j <= i && MayBegin(s, j) && forall k :: j <= k < i ==> Between(s, k)
  {
    hide BeginsSentence;
    hide Tokens;
    hide CutsText;
    hide Between;
    hide InAddress;
    if i == 0 {
      j := 0;
    } else {
      BeginsNext(s, i - 1);
      if BeginsSentence(s, Tokens(s), i - 1) && !InAddress(s, i - 1) {
        j := BeginningIsFound(s, i - 1);
      } else {
        j := i;
      }
    }
  }

  lemma {:induction false} CaseHas(s: string, spans: seq<Span>, n: nat, c: Candidate)
    requires CutsText(s, spans, |s|) && n <= |s|
    ensures c in CaseSpec(s, spans, n) <==> exists i :: 0 <= i < n && c in CaseAt(s, spans, i)
  {
    hide CaseAt;
    hide CutsText;
    if n > 0 {
      CaseHas(s, spans, n - 1, c);
    }
  }

  /** Every capital proposed is that of a lower-case ASCII letter outside addresses, with only whitespace and opening
      quotes between it and the beginning of the text or the end of a sentence. */
  lemma CapitalIsJustified(s: string, c: Candidate) returns (j: nat)
    requires c in SentenceSpec(s)
    ensures c.start < |s| && 0x61 <= s[c.start] as int <= 0x7A && !InAddress(s, c.start)
    ensures c == Candidate(c.start, c.start + 1, [(s[c.start] as int - 0x20) as char], SentenceCase)
    ensures j <= c.start && MayBegin(s, j) && forall k :: j <= k < c.start ==> Between(s, k)
  {
    hide Tokens;
    hide CutsText;
    hide BeginsSentence;
    hide InAddress;
    hide Protected;
    hide Between;
    hide MayBegin;
    TokensCut(s);
    CaseHas(s, Tokens(s), |s|, c);
    hide CaseSpec;
    ProtectedMeans(s, c.start);
    j := BeginningIsFound(s, c.start);
  }

  /** A character in the middle of a sentence: it neither opens nor ends one. */
  predicate Ordinary(s: string, i: nat)
    requires i < |s|
  {
    !Utf8.IsWhitespace(s[i]) && s[i] as int !in QUOTES && s[i] as int !in ENDS
  }

  lemma {:induction false} GapKeepsBeginning(s: string, j: nat, i: nat)
    requires CutsText(s, Tokens(s), |s|) && j <= i <= |s| && BeginsSentence(s, Tokens(s), j)
    requires forall k :: j <= k < i ==> Between(s, k)
    ensures BeginsSentence(s, Tokens(s), i)
  {
    hide BeginsSentence;
    hide Tokens;
    hide CutsText;
    if j < i {
      GapKeepsBeginning(s, j, i - 1);
      assert Between(s, i - 1);
      BeginsNext(s, i - 1);
    }
  }

  /** A lower-case ASCII letter outside addresses gets its capital if only whitespace and opening quotes separate it from
      the beginning of the text, or from the end of a sentence behind an ordinary character. */
  lemma CapitalIsDue(s: string, j: nat, i: nat)
    requires j <= i < |s| && 0x61 <= s[i] as int <= 0x7A && !InAddress(s, i)
    requires forall k :: j <= k < i ==> Between(s, k)
    requires j == 0 || (2 <= j && s[j - 1] as int in ENDS && !InAddress(s, j - 1) && Ordinary(s, j - 2))
    ensures Candidate(i, i + 1, [(s[i] as int - 0x20) as char], SentenceCase) in SentenceSpec(s)
  {
    hide Tokens;
    hide CutsText;
    hide InAddress;
    hide Protected;
    TokensCut(s);
    if j > 0 {
      BeginsNext(s, j - 2);
      BeginsNext(s, j - 1);
    }
    hide BeginsSentence;
    GapKeepsBeginning(s, j, i);
    ProtectedMeans(s, i);
    var c := Candidate(i, i + 1, [(s[i] as int - 0x20) as char], SentenceCase);
    assert c in CaseAt(s, Tokens(s), i);
    hide CaseAt;
    CaseHas(s, Tokens(s), |s|, c);
  }

  // ----- all rules

  /** The candidates are exactly what the six rules say. */
  lemma CandidatesMean(s: string, alnum: char -> bool, c: Candidate)
    ensures c in Candidates(s, alnum) <==>
              match c.rule
              case OuterWhitespace =>
                c.replacement == "" && BlankRun(s, c.start, c.end) && (c.start == 0 || c.end == |s|)
              case RepeatedWord =>
                c.replacement == ""
                && exists p, t, i, j :: Doubled(s, p, t, i, j, c.end, alnum) && c.start == p.end
              case PunctuationSpacing =>
                c.replacement == "" && BlankRun(s, c.start, c.end) && c.end < |s| && s[c.end] as int in MARKS
              case RepeatedPunctuation =>
                EqualRun(s, c.start, c.end) && c.end - c.start >= 2 && s[c.start] as int in COLLAPSIBLE
                && c.replacement == [s[c.start]]
              case RepeatedWhitespace =>
                c.replacement == " " && BlankRun(s, c.start, c.end) && c.end - c.start >= 2
                && 0 < c.start && c.end < |s| && s[c.start - 1] != '\n'
              case SentenceCase => c in SentenceSpec(s)
  {
    OuterMeans(s, c);
    SpacingMeans(s, c);
    CollapseMeans(s, c);
    InnerBlanksMean(s, c);
    WordsMean(s, alnum, c);
    if c in SentenceSpec(s) {
      var j := CapitalIsJustified(s, c);
    }
    hide OuterSpec;
    hide WordsSpec;
    hide SpacingSpec;
    hide CollapseSpec;
    hide BlanksSpec;
    hide SentenceSpec;
    hide BlankRun;
    hide EqualRun;
    hide Doubled;
  }

  lemma WordsMean(s: string, alnum: char -> bool, c: Candidate)
    ensures c in WordsSpec(s, alnum) <==>
              c.rule == RepeatedWord && c.replacement == ""
              && exists p, t, i, j :: Doubled(s, p, t, i, j, c.end, alnum) && c.start == p.end
  {
    hide WordsSpec;
    hide Doubled;
    if c in WordsSpec(s, alnum) {
      var p, t, i, j := RepeatedIsDoubled(s, alnum, c);
    }
    if c.rule == RepeatedWord && c.replacement == "" {
      if p, t, i, j :| Doubled(s, p, t, i, j, c.end, alnum) && c.start == p.end {
        DoubledIsRepeated(s, alnum, p, t, i, j, c.end);
      }
    }
  }
}
