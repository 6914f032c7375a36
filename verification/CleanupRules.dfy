/** The six rule scanners of the text cleanup.

    A scanner addresses the text by character; `Cleanup` converts the selected
    ranges to byte offsets, and `CleanupBytes` proves that the selection by
    bytes is the same. Each scanner is a loop proved to append exactly
    the candidates of its specification. The Unicode alphanumeric table is the
    parameter `alnum`. */
module CleanupRules {
  import opened Base
  import Utf8

  datatype Rule = OuterWhitespace | RepeatedWord | PunctuationSpacing | RepeatedPunctuation | RepeatedWhitespace
                | SentenceCase

  datatype Candidate = Candidate(start: nat, end: nat, replacement: string, rule: Rule)

  function Priority(rule: Rule): nat {
    match rule
    case OuterWhitespace => 0
    case RepeatedWord => 1
    case PunctuationSpacing => 2
    case RepeatedPunctuation => 3
    case RepeatedWhitespace => 4
    case SentenceCase => 5
  }

  predicate IsSafe(rule: Rule) {
    rule.OuterWhitespace? || rule.PunctuationSpacing?
  }

  // ----- character classes

  predicate IsHorizontal(c: char) {
    c == ' ' || c == '\t' || c == '\U{00A0}' || c == '\U{3000}'
  }

  predicate IsPunctuation(c: char) {
    IsCollapsible(c) || c == '.' || c == '\U{3002}'
  }

  predicate IsCollapsible(c: char) {
    c == ',' || c == ';' || c == ':' || c == '!' || c == '?' || c == '\U{FF0C}' || c == '\U{FF1B}' || c == '\U{FF1A}'
    || c == '\U{FF01}' || c == '\U{FF1F}'
  }

  predicate IsTerminator(c: char) {
    c == '.' || c == '!' || c == '?' || c == '\U{3002}' || c == '\U{FF01}' || c == '\U{FF1F}'
  }

  predicate IsOpeningQuote(c: char) {
    c == '"' || c == '\'' || c == '\U{201C}' || c == '\U{2018}' || c == '(' || c == '[' || c == '{'
  }

  predicate IsLower(c: char) {
    'a' <= c <= 'z'
  }

  function Upper(c: char): char
    requires IsLower(c)
  {
    (c as int - 32) as char
  }

  function Lower(c: char): char {
    if 'A' <= c <= 'Z' then (c as int + 32) as char else c
  }

  lemma HorizontalIsWhitespace(c: char)
    ensures IsHorizontal(c) ==> Utf8.IsWhitespace(c) && c != '\n'
    ensures IsPunctuation(c) ==> !Utf8.IsWhitespace(c)
  {
  }

  // ----- runs of horizontal whitespace

  /** Where the run of horizontal whitespace that ends at j begins. */
  function RunStart(s: string, j: nat): (i: nat)
    requires j <= |s|
    ensures i <= j && forall k :: i <= k < j ==> IsHorizontal(s[k])
    ensures i > 0 ==> !IsHorizontal(s[i - 1])
  {
    if j > 0 && IsHorizontal(s[j - 1]) then RunStart(s, j - 1) else j
  }

  /** Where the run of horizontal whitespace that begins at i ends. */
  function RunEnd(s: string, i: nat): (j: nat)
    requires i <= |s|
    ensures i <= j <= |s| && forall k :: i <= k < j ==> IsHorizontal(s[k])
    ensures j < |s| ==> !IsHorizontal(s[j])
    decreases |s| - i
  {
    if i < |s| && IsHorizontal(s[i]) then RunEnd(s, i + 1) else i
  }

  // ----- outer whitespace

  function OuterSpec(s: string): seq<Candidate> {
    var lead, trail := RunEnd(s, 0), RunStart(s, |s|);
    (if lead > 0 then [Candidate(0, lead, "", OuterWhitespace)] else [])
    + (if trail < |s| && trail >= lead then [Candidate(trail, |s|, "", OuterWhitespace)] else [])
  }

  // ----- punctuation spacing

  function SpacingAt(s: string, p: nat): seq<Candidate>
    requires p < |s|
  {
    if IsPunctuation(s[p]) && RunStart(s, p) < p then [Candidate(RunStart(s, p), p, "", PunctuationSpacing)] else []
  }

  function SpacingSpec(s: string, n: nat): seq<Candidate>
    requires n <= |s|
  {
    if n == 0 then [] else SpacingSpec(s, n - 1) + SpacingAt(s, n - 1)
  }

  method ScanSpacing(s: string, candidates: seq<Candidate>) returns (out: seq<Candidate>)
    ensures out == candidates + SpacingSpec(s, |s|)
  {
    out := candidates;
    for p := 0 to |s|
      invariant out == candidates + SpacingSpec(s, p)
    {
      if IsPunctuation(s[p]) {
        var start := RunStart(s, p);
        if start < p {
          out := out + [Candidate(start, p, "", PunctuationSpacing)];
        }
      }
    }
  }

  // ----- repeated punctuation

  /** Where the run of equal characters that ends at j begins. */
  function SameStart(s: string, j: nat): (i: nat)
    requires 0 < j <= |s|
    ensures i < j && forall k :: i <= k < j ==> s[k] == s[j - 1]
  {
    if j > 1 && s[j - 2] == s[j - 1] then SameStart(s, j - 1) else j - 1
  }

  /** A maximal run of two or more equal collapsible marks that ends at j. */
  function CollapseAt(s: string, j: nat): seq<Candidate>
    requires 0 < j <= |s|
  {
    if (j == |s| || s[j] != s[j - 1]) && j - SameStart(s, j) > 1 && IsCollapsible(s[j - 1]) then
      [Candidate(SameStart(s, j), j, [s[j - 1]], RepeatedPunctuation)]
    else []
  }

  function CollapseSpec(s: string, n: nat): seq<Candidate>
    requires n <= |s|
  {
    if n == 0 then [] else CollapseSpec(s, n - 1) + CollapseAt(s, n)
  }

  /** The scan carries the current run; a NUL after the text ends the last one. */
  method ScanRepeatedPunctuation(s: string, candidates: seq<Candidate>) returns (out: seq<Candidate>)
    ensures out == candidates + CollapseSpec(s, |s|)
  {
    out := candidates;
    var run: Option<(nat, char, nat)> := None;
    for index := 0 to |s| + 1
      invariant index == 0 ==> run.None? && out == candidates
      invariant 0 < index <= |s| ==>
                  run == Some((SameStart(s, index), s[index - 1], index - SameStart(s, index)))
                  && out == candidates + CollapseSpec(s, index - 1)
      invariant index == |s| + 1 && |s| > 0 ==> out == candidates + CollapseSpec(s, |s|)
      invariant index == 1 && |s| == 0 ==> out == candidates
    {
      var c := if index < |s| then s[index] else '\0';
      if run.None? {
        run := Some((index, c, 1));
      } else {
        var (start, previous, count) := run.value;
        if c == previous {
          assert index == |s| ==> CollapseAt(s, index) == [];
          run := Some((start, previous, count + 1));
        } else {
          if count > 1 && IsCollapsible(previous) {
            out := out + [Candidate(start, index, [previous], RepeatedPunctuation)];
          }
          run := Some((index, c, 1));
        }
      }
    }
  }

  // ----- repeated horizontal whitespace

  /** An inner run of two or more horizontal blanks that ends before character j and does not open a line. */
  function BlanksAt(s: string, j: nat): seq<Candidate>
    requires j < |s|
  {
    var start := RunStart(s, j);
    if !IsHorizontal(s[j]) && j - start > 1 && start > 0 && s[start - 1] != '\n' then
      [Candidate(start, j, " ", RepeatedWhitespace)]
    else []
  }

  function BlanksSpec(s: string, n: nat): seq<Candidate>
    requires n <= |s|
  {
    if n == 0 then [] else BlanksSpec(s, n - 1) + BlanksAt(s, n - 1)
  }

  lemma EndIsNoBlank()
    ensures !IsHorizontal('\0')
  {
  }

  lemma RunStartOfNothing(s: string)
    ensures RunStart(s, 0) == 0
  {
  }

  lemma RunStartNext(s: string, j: nat)
    ensures j < |s| ==> RunStart(s, j + 1) == if IsHorizontal(s[j]) then RunStart(s, j) else j + 1
  {
  }

  method ScanRepeatedWhitespace(s: string, candidates: seq<Candidate>) returns (out: seq<Candidate>)
    ensures out == candidates + BlanksSpec(s, |s|)
  {
    hide IsHorizontal;
    hide RunStart;
    EndIsNoBlank();
    RunStartOfNothing(s);
    out := candidates;
    var runStart: Option<nat> := None;
    for index := 0 to |s| + 1
      invariant index <= |s| ==>
                  runStart == if RunStart(s, index) < index then Some(RunStart(s, index)) else None
      invariant out == candidates + BlanksSpec(s, if index <= |s| then index else |s|)
    {
      var c := if index < |s| then s[index] else '\0';
      RunStartNext(s, index);
      if IsHorizontal(c) {
        if runStart.None? {
          runStart := Some(index);
        }
      } else if runStart.Some? {
        var start := runStart.value;
        runStart := None;
        if index - start > 1 && start > 0 && index < |s| && s[start - 1] != '\n' {
          out := out + [Candidate(start, index, " ", RepeatedWhitespace)];
        }
      }
    }
  }

  // ----- tokens and words

  datatype Span = Span(start: nat, end: nat)

  /** Where the token that ends at j begins. */
  function TokenStart(s: string, j: nat): (i: nat)
    requires j <= |s|
    ensures i <= j && forall k :: i <= k < j ==> !Utf8.IsWhitespace(s[k])
    ensures i > 0 ==> Utf8.IsWhitespace(s[i - 1])
  {
    if j > 0 && !Utf8.IsWhitespace(s[j - 1]) then TokenStart(s, j - 1) else j
  }

  predicate TokenEnds(s: string, n: nat)
    requires n <= |s|
  {
    (n == |s| || Utf8.IsWhitespace(s[n])) && TokenStart(s, n) < n
  }

  /** The tokens that end at or before n. */
  function TokenSpec(s: string, n: nat): seq<Span>
    requires n <= |s|
  {
    (if n == 0 then [] else TokenSpec(s, n - 1)) + if TokenEnds(s, n) then [Span(TokenStart(s, n), n)] else []
  }

  function Tokens(s: string): seq<Span> {
    TokenSpec(s, |s|)
  }

  method TokenSpans(s: string) returns (spans: seq<Span>)
    ensures spans == Tokens(s)
  {
    spans := [];
    var start: Option<nat> := None;
    for index := 0 to |s| + 1
      invariant index <= |s| ==> start == if TokenStart(s, index) < index then Some(TokenStart(s, index)) else None
      invariant index == 0 ==> spans == []
      invariant 0 < index ==> spans == TokenSpec(s, index - 1)
    {
      hide Utf8.IsWhitespace;
      if index == |s| || Utf8.IsWhitespace(s[index]) {
        if start.Some? {
          spans := spans + [Span(start.value, index)];
          start := None;
        }
      } else if start.None? {
        start := Some(index);
      }
    }
  }

  /** A maximal run of characters without whitespace. */
  predicate IsToken(s: string, t: Span) {
    && t.start < t.end <= |s|
    && (forall k :: t.start <= k < t.end ==> !Utf8.IsWhitespace(s[k]))
  }

  predicate AllWhitespace(s: string, i: nat, j: nat) {
    i <= j <= |s| && forall k :: i <= k < j ==> Utf8.IsWhitespace(s[k])
  }

  /** The tokens cut the text: nothing but whitespace stands before, between and after them. */
  predicate CutsText(s: string, spans: seq<Span>, n: nat) {
    && (forall i :: 0 <= i < |spans| ==> IsToken(s, spans[i]) && spans[i].end <= n)
    && (forall i :: 0 <= i < |spans| - 1 ==> AllWhitespace(s, spans[i].end, spans[i + 1].start))
  }

  function LastEnd(spans: seq<Span>): nat {
    if spans == [] then 0 else spans[|spans| - 1].end
  }

  /** Between the last token and the token under way at n (if any) there is only whitespace. */
  predicate Gap(s: string, spans: seq<Span>, n: nat)
    requires n <= |s|
  {
    (spans != [] && LastEnd(spans) == n) || AllWhitespace(s, LastEnd(spans), TokenStart(s, n))
  }

  lemma WhitespaceGrows(s: string, i: nat, j: nat)
    requires j < |s| && Utf8.IsWhitespace(s[j])
    ensures AllWhitespace(s, j, j) && (AllWhitespace(s, i, j) ==> AllWhitespace(s, i, j + 1))
  {
    hide Utf8.IsWhitespace;
  }

  lemma GapStep(s: string, spans: seq<Span>, n: nat)
    requires 0 < n <= |s| && Gap(s, spans, n - 1)
    requires TokenEnds(s, n - 1) ==> spans != [] && LastEnd(spans) == n - 1
    requires spans != [] && LastEnd(spans) == n - 1 ==> Utf8.IsWhitespace(s[n - 1])
    ensures AllWhitespace(s, LastEnd(spans), TokenStart(s, n))
  {
    hide Utf8.IsWhitespace;
    hide TokenStart;
    hide LastEnd;
    hide AllWhitespace;
    TokenStartNext(s, n - 1);
    if Utf8.IsWhitespace(s[n - 1]) {
      WhitespaceGrows(s, LastEnd(spans), n - 1);
    }
  }

  lemma TokenStartNext(s: string, j: nat)
    requires j < |s|
    ensures TokenStart(s, j + 1) == if Utf8.IsWhitespace(s[j]) then j + 1 else TokenStart(s, j)
  {
    hide Utf8.IsWhitespace;
  }

  ghost predicate Tokenized(s: string, spans: seq<Span>, n: nat)
    requires n <= |s|
  {
    && CutsText(s, spans, n) && Gap(s, spans, n)
    && (spans != [] && LastEnd(spans) == n && n < |s| ==> Utf8.IsWhitespace(s[n]))
    && (TokenEnds(s, n) ==> spans != [] && LastEnd(spans) == n)
  }

  lemma TokenizedStep(s: string, before: seq<Span>, n: nat)
    requires 0 < n <= |s| && Tokenized(s, before, n - 1)
    ensures Tokenized(s, before + if TokenEnds(s, n) then [Span(TokenStart(s, n), n)] else [], n)
  {
    hide Utf8.IsWhitespace;
    var from := TokenStart(s, n);
    GapStep(s, before, n);
    hide TokenStart;
    assert before != [] ==> LastEnd(before) <= n - 1;
    if TokenEnds(s, n) {
      CutsMore(s, before, Span(from, n), n);
    } else {
      assert before + [] == before;
    }
  }

  lemma TokensCut(s: string)
    ensures CutsText(s, Tokens(s), |s|)
  {
    TokensCutText(s, |s|);
  }

  lemma {:induction false} TokensCutText(s: string, n: nat)
    requires n <= |s|
    ensures Tokenized(s, TokenSpec(s, n), n)
  {
    if n > 0 {
      hide Tokenized;
      TokensCutText(s, n - 1);
      TokenizedStep(s, TokenSpec(s, n - 1), n);
    }
  }

  lemma CutsMore(s: string, spans: seq<Span>, t: Span, n: nat)
    requires 0 < n <= |s| && CutsText(s, spans, n - 1) && IsToken(s, t) && t.end == n
    requires AllWhitespace(s, LastEnd(spans), t.start)
    ensures CutsText(s, spans + [t], n)
  {
    hide IsToken;
    hide AllWhitespace;
  }

  // ----- repeated words

  /** The first character of s[a..b] that is not punctuation, or b. */
  function TrimLeft(s: string, a: nat, b: nat): (i: nat)
    requires a <= b <= |s|
    ensures a <= i <= b && (forall k :: a <= k < i ==> IsPunctuation(s[k])) && (i < b ==> !IsPunctuation(s[i]))
    decreases b - a
  {
    if a < b && IsPunctuation(s[a]) then TrimLeft(s, a + 1, b) else a
  }

  function TrimRight(s: string, a: nat, b: nat): (j: nat)
    requires a <= b <= |s|
    ensures a <= j <= b && (forall k :: j <= k < b ==> IsPunctuation(s[k])) && (j > a ==> !IsPunctuation(s[j - 1]))
  {
    if a < b && IsPunctuation(s[b - 1]) then TrimRight(s, a, b - 1) else b
  }

  predicate OccursAt(hay: string, needle: string, k: nat) {
    k + |needle| <= |hay| && hay[k..k + |needle|] == needle
  }

  /** `str::find`, from position k on. */
  function FindFrom(hay: string, needle: string, k: nat): (r: Option<nat>)
    ensures r.Some? ==> k <= r.value && OccursAt(hay, needle, r.value)
                        && forall i :: k <= i < r.value ==> !OccursAt(hay, needle, i)
    ensures r.None? ==> forall i :: k <= i ==> !OccursAt(hay, needle, i)
    decreases |hay| - k
  {
    if k + |needle| > |hay| then None
    else if hay[k..k + |needle|] == needle then Some(k)
    else FindFrom(hay, needle, k + 1)
  }

  /** A token without its surrounding punctuation, when something alphanumeric is left. */
  function NormalizedWord(s: string, t: Span, alnum: char -> bool): (w: Option<Span>)
    requires IsToken(s, t)
    ensures w.Some? ==> t.start <= w.value.start < w.value.end <= t.end
  {
    var i := TrimLeft(s, t.start, t.end);
    var j := TrimRight(s, i, t.end);
    var value := s[i..j];
    if value == "" || !(exists k :: 0 <= k < |value| && alnum(value[k])) then None
    else
      var at :- FindFrom(s[t.start..t.end], value, 0);
      Some(Span(t.start + at, t.start + at + |value|))
  }

  /** Searching for the trimmed value finds it where it was trimmed, so a word that starts its token starts with no
      punctuation. */
  lemma WordStartsClean(s: string, t: Span, alnum: char -> bool)
    requires IsToken(s, t) && NormalizedWord(s, t, alnum).Some?
    ensures NormalizedWord(s, t, alnum).value.start == TrimLeft(s, t.start, t.end)
    ensures !IsPunctuation(s[NormalizedWord(s, t, alnum).value.start])
  {
    hide IsPunctuation;
    var i := TrimLeft(s, t.start, t.end);
    var j := TrimRight(s, i, t.end);
    var token, value := s[t.start..t.end], s[i..j];
    var at := FindFrom(token, value, 0).value;
    SliceOfSlice(s, t.start, t.end, i, j);
    assert OccursAt(token, value, i - t.start);
    assert at <= i - t.start;
    assert s[t.start + at] == token[at] == token[at..at + |value|][0] == value[0] == s[i];
  }

  predicate EqualIgnoreAsciiCase(a: string, b: string) {
    |a| == |b| && forall k :: 0 <= k < |a| ==> Lower(a[k]) == Lower(b[k])
  }

  /** The second of two neighbouring tokens that are the same word, on one line. */
  function RepeatAt(s: string, previous: Span, current: Span, alnum: char -> bool): seq<Candidate>
    requires IsToken(s, previous) && IsToken(s, current) && previous.end <= current.start
  {
    var a, b := NormalizedWord(s, previous, alnum), NormalizedWord(s, current, alnum);
    if a.Some? && b.Some?
       && EqualIgnoreAsciiCase(s[a.value.start..a.value.end], s[b.value.start..b.value.end])
       && '\n' !in s[previous.end..current.start] && b.value.start == current.start
    then [Candidate(previous.end, b.value.end, "", RepeatedWord)]
    else []
  }

  function RepeatSpec(s: string, tokens: seq<Span>, n: nat, alnum: char -> bool): seq<Candidate>
    requires CutsText(s, tokens, |s|) && n <= |tokens|
  {
    if n <= 1 then []
    else
      assert AllWhitespace(s, tokens[n - 2].end, tokens[n - 2 + 1].start);
      RepeatSpec(s, tokens, n - 1, alnum) + RepeatAt(s, tokens[n - 2], tokens[n - 1], alnum)
  }

  function WordsSpec(s: string, alnum: char -> bool): seq<Candidate> {
    TokensCut(s);
    RepeatSpec(s, Tokens(s), |Tokens(s)|, alnum)
  }

  method ScanPair(s: string, previous: Span, current: Span, alnum: char -> bool, candidates: seq<Candidate>)
    returns (out: seq<Candidate>)
    requires IsToken(s, previous) && IsToken(s, current) && previous.end <= current.start
    ensures out == candidates + RepeatAt(s, previous, current, alnum)
  {
    hide NormalizedWord;
    out := candidates;
    var previousWord := NormalizedWord(s, previous, alnum);
    if previousWord.None? {
      return;
    }
    var currentWord := NormalizedWord(s, current, alnum);
    if currentWord.None? {
      return;
    }
    if EqualIgnoreAsciiCase(s[previousWord.value.start..previousWord.value.end],
                            s[currentWord.value.start..currentWord.value.end])
       && '\n' !in s[previous.end..current.start] && currentWord.value.start == current.start {
      out := out + [Candidate(previous.end, currentWord.value.end, "", RepeatedWord)];
    }
  }

  method ScanRepeatedWords(s: string, alnum: char -> bool, candidates: seq<Candidate>) returns (out: seq<Candidate>)
    ensures out == candidates + WordsSpec(s, alnum)
  {
    hide Tokens;
    hide RepeatAt;
    TokensCut(s);
    var tokens := TokenSpans(s);
    out := candidates;
    if tokens == [] {
      return;
    }
    for k := 1 to |tokens|
      invariant out == candidates + RepeatSpec(s, tokens, k, alnum)
    {
      assert AllWhitespace(s, tokens[k - 1].end, tokens[k - 1 + 1].start);
      out := ScanPair(s, tokens[k - 1], tokens[k], alnum, out);
    }
  }

  // ----- sentence case

  /** Addresses are not capitalized. */
  predicate IsAddress(token: string) {
    FindFrom(token, "://", 0).Some? || '@' in token || OccursAt(token, "www.", 0)
  }

  predicate Protected(s: string, spans: seq<Span>, i: nat)
    requires CutsText(s, spans, |s|)
  {
    exists k :: 0 <= k < |spans| && spans[k].start <= i < spans[k].end && IsAddress(s[spans[k].start..spans[k].end])
  }

  /** Whether character i would begin a sentence. */
  predicate BeginsSentence(s: string, spans: seq<Span>, i: nat)
    requires CutsText(s, spans, |s|) && i <= |s|
  {
    if i == 0 then true
    else
      var c := s[i - 1];
      if Protected(s, spans, i - 1) then false
      else if BeginsSentence(s, spans, i - 1) then !IsLower(c) && (Utf8.IsWhitespace(c) || IsOpeningQuote(c))
      else IsTerminator(c)
  }

  function CaseAt(s: string, spans: seq<Span>, i: nat): seq<Candidate>
    requires CutsText(s, spans, |s|) && i < |s|
  {
    if !Protected(s, spans, i) && BeginsSentence(s, spans, i) && IsLower(s[i]) then
      [Candidate(i, i + 1, [Upper(s[i])], SentenceCase)]
    else []
  }

  function CaseSpec(s: string, spans: seq<Span>, n: nat): seq<Candidate>
    requires CutsText(s, spans, |s|) && n <= |s|
  {
    if n == 0 then [] else CaseSpec(s, spans, n - 1) + CaseAt(s, spans, n - 1)
  }

  function SentenceSpec(s: string): seq<Candidate> {
    TokensCut(s);
    CaseSpec(s, Tokens(s), |s|)
  }

  method ScanSentenceCase(s: string, candidates: seq<Candidate>) returns (out: seq<Candidate>)
    ensures out == candidates + SentenceSpec(s)
  {
    hide Tokens;
    hide CutsText;
    hide Utf8.IsWhitespace;
    hide IsTerminator;
    hide IsOpeningQuote;
    hide Protected;
    TokensCut(s);
    var spans := TokenSpans(s);
    out := candidates;
    var sentenceStart := true;
    for i := 0 to |s|
      invariant sentenceStart == BeginsSentence(s, spans, i)
      invariant out == candidates + CaseSpec(s, spans, i)
    {
      var c := s[i];
      if Protected(s, spans, i) {
        sentenceStart := false;
      } else if sentenceStart {
        if IsLower(c) {
          out := out + [Candidate(i, i + 1, [Upper(c)], SentenceCase)];
          sentenceStart := false;
        } else if !Utf8.IsWhitespace(c) && !IsOpeningQuote(c) {
          sentenceStart := false;
        }
      } else if IsTerminator(c) {
        sentenceStart := true;
      }
    }
  }

  // ----- all rules

  function Candidates(s: string, alnum: char -> bool): seq<Candidate> {
    OuterSpec(s) + WordsSpec(s, alnum) + SpacingSpec(s, |s|) + CollapseSpec(s, |s|) + BlanksSpec(s, |s|)
    + SentenceSpec(s)
  }

  /** What every candidate promises: a non-empty range on one line, replaced by no more bytes and no newline;
      a safe one deletes horizontal whitespace only. */
  ghost predicate Sound(s: string, c: Candidate) {
    && c.start < c.end <= |s|
    && '\n' !in s[c.start..c.end] && '\n' !in c.replacement
    && |Utf8.Encode(c.replacement)| <= |Utf8.Encode(s[c.start..c.end])|
    && (IsSafe(c.rule) ==> c.replacement == "" && forall k :: c.start <= k < c.end ==> IsHorizontal(s[k]))
  }

  ghost predicate AllSound(s: string, cs: seq<Candidate>) {
    forall i :: 0 <= i < |cs| ==> Sound(s, cs[i])
  }

  lemma BlankRangeIsSound(s: string, c: Candidate)
    requires c.start < c.end <= |s| && c.replacement == ""
    requires forall k :: c.start <= k < c.end ==> IsHorizontal(s[k])
    ensures Sound(s, c)
  {
    assert forall k :: 0 <= k < c.end - c.start ==> s[c.start..c.end][k] == s[c.start + k];
  }

  lemma OuterIsSound(s: string)
    ensures AllSound(s, OuterSpec(s))
  {
    hide Sound;
    forall i | 0 <= i < |OuterSpec(s)| ensures Sound(s, OuterSpec(s)[i]) {
      BlankRangeIsSound(s, OuterSpec(s)[i]);
    }
  }

  lemma {:induction false} SpacingIsSound(s: string, n: nat)
    requires n <= |s|
    ensures AllSound(s, SpacingSpec(s, n))
  {
    hide Sound;
    if n > 0 {
      SpacingIsSound(s, n - 1);
      if SpacingAt(s, n - 1) != [] {
        BlankRangeIsSound(s, SpacingAt(s, n - 1)[0]);
      }
    }
  }

  lemma CollapseAtIsSound(s: string, j: nat)
    requires 0 < j <= |s| && CollapseAt(s, j) != []
    ensures Sound(s, CollapseAt(s, j)[0])
  {
    var start := SameStart(s, j);
    assert s[start..j] == s[start..j - 1] + [s[j - 1]];
    Utf8.EncodeConcat(s[start..j - 1], [s[j - 1]]);
    forall k | 0 <= k < j - start ensures s[start..j][k] == s[j - 1] {
    }
  }

  lemma {:induction false} CollapseIsSound(s: string, n: nat)
    requires n <= |s|
    ensures AllSound(s, CollapseSpec(s, n))
  {
    hide Sound;
    if n > 0 {
      CollapseIsSound(s, n - 1);
      if CollapseAt(s, n) != [] {
        CollapseAtIsSound(s, n);
      }
    }
  }

  lemma BlanksAtIsSound(s: string, j: nat)
    requires j < |s| && BlanksAt(s, j) != []
    ensures Sound(s, BlanksAt(s, j)[0])
  {
    var start := RunStart(s, j);
    assert forall k :: 0 <= k < j - start ==> s[start..j][k] == s[start + k];
    Utf8.EncodeLength(s[start..j]);
    Utf8.EncodeOne(' ');
  }

  lemma {:induction false} BlanksIsSound(s: string, n: nat)
    requires n <= |s|
    ensures AllSound(s, BlanksSpec(s, n))
  {
    hide Sound;
    if n > 0 {
      BlanksIsSound(s, n - 1);
      if BlanksAt(s, n - 1) != [] {
        BlanksAtIsSound(s, n - 1);
      }
    }
  }

  lemma RepeatAtIsSound(s: string, previous: Span, current: Span, alnum: char -> bool)
    requires IsToken(s, previous) && IsToken(s, current) && previous.end <= current.start
    requires RepeatAt(s, previous, current, alnum) != []
    ensures Sound(s, RepeatAt(s, previous, current, alnum)[0])
  {
    hide NormalizedWord;
    var c := RepeatAt(s, previous, current, alnum)[0];
    forall k | c.start <= k < c.end ensures s[k] != '\n' {
      if k < current.start {
        assert s[k] == s[previous.end..current.start][k - previous.end];
      }
    }
    assert forall k :: 0 <= k < c.end - c.start ==> s[c.start..c.end][k] == s[c.start + k];
  }

  lemma {:induction false} RepeatIsSound(s: string, tokens: seq<Span>, n: nat, alnum: char -> bool)
    requires CutsText(s, tokens, |s|) && n <= |tokens|
    ensures AllSound(s, RepeatSpec(s, tokens, n, alnum))
  {
    hide Sound;
    if n > 1 {
      RepeatIsSound(s, tokens, n - 1, alnum);
      assert AllWhitespace(s, tokens[n - 2].end, tokens[n - 2 + 1].start);
      if RepeatAt(s, tokens[n - 2], tokens[n - 1], alnum) != [] {
        RepeatAtIsSound(s, tokens[n - 2], tokens[n - 1], alnum);
      }
    }
  }

  lemma {:induction false} CaseIsSound(s: string, spans: seq<Span>, n: nat)
    requires CutsText(s, spans, |s|) && n <= |s|
    ensures AllSound(s, CaseSpec(s, spans, n))
  {
    hide Protected;
    hide BeginsSentence;
    hide Sound;
    if n > 0 {
      CaseIsSound(s, spans, n - 1);
      hide CutsText;
      if CaseAt(s, spans, n - 1) != [] {
        CapitalIsSound(s, n - 1);
      }
    }
  }

  lemma CapitalIsSound(s: string, i: nat)
    requires i < |s| && IsLower(s[i])
    ensures Sound(s, Candidate(i, i + 1, [Upper(s[i])], SentenceCase))
  {
    assert s[i..i + 1] == [s[i]];
    Utf8.EncodeOne(s[i]);
    Utf8.EncodeOne(Upper(s[i]));
  }

  lemma SoundTogether(s: string, a: seq<Candidate>, b: seq<Candidate>)
    requires AllSound(s, a) && AllSound(s, b)
    ensures AllSound(s, a + b)
  {
    hide Sound;
  }

  lemma CandidatesAreSound(s: string, alnum: char -> bool)
    ensures AllSound(s, Candidates(s, alnum))
  {
    hide AllSound;
    hide Tokens;
    hide CutsText;
    hide OuterSpec;
    TokensCut(s);
    RepeatIsSound(s, Tokens(s), |Tokens(s)|, alnum);
    CaseIsSound(s, Tokens(s), |s|);
    assert AllSound(s, WordsSpec(s, alnum)) && AllSound(s, SentenceSpec(s));
    hide WordsSpec;
    hide SentenceSpec;
    OuterIsSound(s);
    SpacingIsSound(s, |s|);
    CollapseIsSound(s, |s|);
    BlanksIsSound(s, |s|);
    var two := OuterSpec(s) + WordsSpec(s, alnum);
    SoundTogether(s, OuterSpec(s), WordsSpec(s, alnum));
    var three := two + SpacingSpec(s, |s|);
    SoundTogether(s, two, SpacingSpec(s, |s|));
    var four := three + CollapseSpec(s, |s|);
    SoundTogether(s, three, CollapseSpec(s, |s|));
    var five := four + BlanksSpec(s, |s|);
    SoundTogether(s, four, BlanksSpec(s, |s|));
    SoundTogether(s, five, SentenceSpec(s));
  }
}
