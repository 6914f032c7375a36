/** Applying only the Safe edits of a report: it removes horizontal whitespace
    and nothing else, and one pass is enough. */
module CleanupSafe {
  import opened Base
  import opened CleanupRules
  import opened Cleanup
  import Utf8

  // ----- runs are maximal

  lemma {:induction false} RunEndIs(s: string, i: nat, j: nat)
    requires i <= j <= |s| && (forall k :: i <= k < j ==> IsHorizontal(s[k])) && (j < |s| ==> !IsHorizontal(s[j]))
    ensures RunEnd(s, i) == j
    decreases j - i
  {
    if i < j {
      RunEndIs(s, i + 1, j);
    }
  }

  lemma {:induction false} RunStartIs(s: string, i: nat, j: nat)
    requires i <= j <= |s| && (forall k :: i <= k < j ==> IsHorizontal(s[k])) && (i > 0 ==> !IsHorizontal(s[i - 1]))
    ensures RunStart(s, j) == i
  {
    if i < j {
      RunStartIs(s, i, j - 1);
    }
  }

  // ----- the characters the safe edits delete

  /** A horizontal blank at either end of the text or right before punctuation, together with its whole run. */
  predicate Dropped(s: string, i: nat)
    requires i < |s|
  {
    && IsHorizontal(s[i])
    && (RunStart(s, i) == 0 || RunEnd(s, i) == |s| || IsPunctuation(s[RunEnd(s, i)]))
  }

  /** The text from character i on, without the dropped characters. */
  function Clean(s: string, i: nat): string
    requires i <= |s|
    decreases |s| - i
  {
    if i == |s| then "" else (if Dropped(s, i) then "" else [s[i]]) + Clean(s, i + 1)
  }

  function SafeCandidates(cs: seq<Candidate>): (r: seq<Candidate>)
    ensures forall c :: c in r <==> c in cs && IsSafe(c.rule)
  {
    if cs == [] then [] else (if IsSafe(cs[0].rule) then [cs[0]] else []) + SafeCandidates(cs[1..])
  }

  predicate Covered(cs: seq<Candidate>, i: nat) {
    exists k :: 0 <= k < |cs| && cs[k].start <= i < cs[k].end
  }

  lemma {:induction false} CleanSkipsDropped(s: string, i: nat, j: nat)
    requires i <= j <= |s| && forall k :: i <= k < j ==> Dropped(s, k)
    ensures Clean(s, i) == Clean(s, j)
    decreases j - i
  {
    hide Dropped;
    if i < j {
      CleanSkipsDropped(s, i + 1, j);
    }
  }

  lemma {:induction false} CleanCopiesKept(s: string, i: nat, j: nat)
    requires i <= j <= |s| && forall k :: i <= k < j ==> !Dropped(s, k)
    ensures Clean(s, i) == s[i..j] + Clean(s, j)
    decreases j - i
  {
    hide Dropped;
    if i < j {
      var rest := s[i + 1..j];
      CleanCopiesKept(s, i + 1, j);
      assert s[i..j] == [s[i]] + rest;
      ConcatAssociates([s[i]], rest, Clean(s, j));
    }
  }

  lemma CoveredByHead(s: string, cs: seq<Candidate>, from: nat)
    requires from <= |s| && InOrder(s, cs, from) && cs != []
    ensures forall i :: from <= i < cs[0].start ==> !Covered(cs, i)
    ensures forall i :: cs[0].start <= i < cs[0].end ==> Covered(cs, i)
    ensures forall i: nat :: cs[0].end <= i ==> (Covered(cs, i) <==> Covered(cs[1..], i))
  {
    forall i: nat | cs[0].end <= i ensures Covered(cs, i) <==> Covered(cs[1..], i) {
      if Covered(cs, i) {
        var k :| 0 <= k < |cs| && cs[k].start <= i < cs[k].end;
        assert cs[1..][k - 1] == cs[k];
      }
    }
  }

  /** Deleting ranges that cover exactly the dropped characters is cleaning. */
  lemma {:induction false} SpliceIsClean(s: string, cs: seq<Candidate>, from: nat)
    requires from <= |s| && InOrder(s, cs, from)
    requires forall c :: c in cs ==> c.replacement == ""
    requires forall i :: from <= i < |s| ==> (Covered(cs, i) <==> Dropped(s, i))
    ensures SpliceChars(s, cs, from) == Clean(s, from)
    decreases |cs|
  {
    hide Dropped;
    if cs == [] {
      CleanCopiesKept(s, from, |s|);
      assert s[from..|s|] + "" == s[from..];
    } else {
      hide Clean;
      var c := cs[0];
      InOrderTail(s, cs, from);
      CoveredByHead(s, cs, from);
      hide Covered;
      hide InOrder;
      SpliceIsClean(s, cs[1..], c.end);
      CleanCopiesKept(s, from, c.start);
      CleanSkipsDropped(s, c.start, c.end);
      assert s[from..c.start] + c.replacement == s[from..c.start];
    }
  }

  // ----- where candidates of each rule come from

  ghost predicate AllOf(cs: seq<Candidate>, rule: Rule) {
    forall c :: c in cs ==> c.rule == rule
  }

  lemma {:induction false} RulesOfSpacing(s: string, n: nat)
    requires n <= |s|
    ensures AllOf(SpacingSpec(s, n), PunctuationSpacing)
    ensures forall c :: c in SpacingSpec(s, n) <==> exists p :: 0 <= p < n && c in SpacingAt(s, p)
  {
    hide SpacingAt;
    if n > 0 {
      RulesOfSpacing(s, n - 1);
      assert forall c :: c in SpacingAt(s, n - 1) ==> c.rule == PunctuationSpacing by {
        SpacingAtRule(s, n - 1);
      }
    }
  }

  lemma SpacingAtRule(s: string, p: nat)
    requires p < |s|
    ensures forall c :: c in SpacingAt(s, p) ==>
              c == Candidate(RunStart(s, p), p, "", PunctuationSpacing) && IsPunctuation(s[p]) && c.start < p
  {
  }

  lemma {:induction false} RulesOfCollapse(s: string, n: nat)
    requires n <= |s|
    ensures AllOf(CollapseSpec(s, n), RepeatedPunctuation)
  {
    if n > 0 {
      RulesOfCollapse(s, n - 1);
    }
  }

  lemma {:induction false} RulesOfBlanks(s: string, n: nat)
    requires n <= |s|
    ensures AllOf(BlanksSpec(s, n), RepeatedWhitespace)
  {
    if n > 0 {
      RulesOfBlanks(s, n - 1);
    }
  }

  lemma {:induction false} RulesOfCase(s: string, spans: seq<Span>, n: nat)
    requires CutsText(s, spans, |s|) && n <= |s|
    ensures AllOf(CaseSpec(s, spans, n), SentenceCase)
  {
    if n > 0 {
      hide Protected;
      hide BeginsSentence;
      RulesOfCase(s, spans, n - 1);
    }
  }

  /** What a repeated-word candidate looks like: whitespace, then the start of a token that is not punctuation. */
  predicate WordShaped(s: string, c: Candidate) {
    exists m: nat ::
      && c.start <= m < c.end <= |s| && AllWhitespace(s, c.start, m)
      && (forall k :: m <= k < c.end ==> !Utf8.IsWhitespace(s[k])) && !IsPunctuation(s[m])
  }

  lemma RepeatAtShape(s: string, previous: Span, current: Span, alnum: char -> bool)
    requires IsToken(s, previous) && IsToken(s, current) && AllWhitespace(s, previous.end, current.start)
    ensures forall c :: c in RepeatAt(s, previous, current, alnum) ==> c.rule == RepeatedWord && WordShaped(s, c)
  {
    forall c | c in RepeatAt(s, previous, current, alnum) ensures c.rule == RepeatedWord && WordShaped(s, c) {
      WordStartsClean(s, current, alnum);
      hide NormalizedWord;
      var m := current.start;
      assert c.start <= m < c.end <= |s|;
    }
  }

  lemma {:induction false} RulesOfRepeat(s: string, tokens: seq<Span>, n: nat, alnum: char -> bool)
    requires CutsText(s, tokens, |s|) && n <= |tokens|
    ensures forall c :: c in RepeatSpec(s, tokens, n, alnum) ==> c.rule == RepeatedWord && WordShaped(s, c)
  {
    hide WordShaped;
    hide RepeatAt;
    if n > 1 {
      RulesOfRepeat(s, tokens, n - 1, alnum);
      assert AllWhitespace(s, tokens[n - 2].end, tokens[n - 2 + 1].start);
      RepeatAtShape(s, tokens[n - 2], tokens[n - 1], alnum);
    }
  }

  lemma InSix<T>(c: T, p: seq<T>, q: seq<T>, r: seq<T>, u: seq<T>, v: seq<T>, w: seq<T>)
    ensures c in p + q + r + u + v + w <==> c in p || c in q || c in r || c in u || c in v || c in w
  {
    assert c in p + q + r + u + v + w <==> c in p + q + r + u + v || c in w;
    assert c in p + q + r + u + v <==> c in p + q + r + u || c in v;
    assert c in p + q + r + u <==> c in p + q + r || c in u;
  }

  /** Candidates of the three first rules, by origin. */
  lemma CandidateOrigins(s: string, alnum: char -> bool, c: Candidate)
    requires c in Candidates(s, alnum)
    ensures c.rule.OuterWhitespace? ==> c in OuterSpec(s)
    ensures c.rule.PunctuationSpacing? ==> c in SpacingSpec(s, |s|)
    ensures c.rule.RepeatedWord? ==> WordShaped(s, c)
  {
    hide OuterSpec;
    hide WordsSpec;
    hide SpacingSpec;
    hide CollapseSpec;
    hide BlanksSpec;
    hide SentenceSpec;
    hide WordShaped;
    RulesOfOuter(s);
    RulesOfWords(s, alnum);
    RulesOfSentences(s);
    RulesOfSpacing(s, |s|);
    RulesOfCollapse(s, |s|);
    RulesOfBlanks(s, |s|);
    InSix(c, OuterSpec(s), WordsSpec(s, alnum), SpacingSpec(s, |s|), CollapseSpec(s, |s|), BlanksSpec(s, |s|),
          SentenceSpec(s));
  }

  lemma RulesOfOuter(s: string)
    ensures AllOf(OuterSpec(s), OuterWhitespace)
  {
  }

  lemma RulesOfWords(s: string, alnum: char -> bool)
    ensures forall c :: c in WordsSpec(s, alnum) ==> c.rule == RepeatedWord && WordShaped(s, c)
  {
    TokensCut(s);
    RulesOfRepeat(s, Tokens(s), |Tokens(s)|, alnum);
  }

  lemma RulesOfSentences(s: string)
    ensures AllOf(SentenceSpec(s), SentenceCase)
  {
    TokensCut(s);
    RulesOfCase(s, Tokens(s), |s|);
  }

  /** The repeated-word rule never competes with punctuation spacing: the blank before a mark cannot lie in a range
      whose whitespace is followed by a word. */
  lemma WordsAvoidSpacing(s: string, c: Candidate, p: nat)
    requires WordShaped(s, c) && p < |s| && IsPunctuation(s[p]) && RunStart(s, p) < p
    ensures !Overlap(c, Candidate(RunStart(s, p), p, "", PunctuationSpacing))
  {
    hide IsPunctuation;
    hide IsHorizontal;
    hide Utf8.IsWhitespace;
    hide RunStart;
    var m: nat :| c.start <= m < c.end <= |s| && AllWhitespace(s, c.start, m)
                  && (forall k :: m <= k < c.end ==> !Utf8.IsWhitespace(s[k])) && !IsPunctuation(s[m]);
    var a := RunStart(s, p);
    if c.start < p && a < c.end {
      var k := if a < c.start then c.start else a;
      HorizontalIsWhitespace(s[k]);
      HorizontalIsWhitespace(s[m]);
      HorizontalIsWhitespace(s[p]);
    }
  }

  // ----- the selected safe candidates cover exactly the dropped characters

  lemma SafeDropped(s: string, alnum: char -> bool, c: Candidate, i: nat)
    requires c in Candidates(s, alnum) && IsSafe(c.rule) && c.start <= i < c.end && i < |s|
    ensures Dropped(s, i)
  {
    hide Candidates;
    hide IsPunctuation;
    CandidateOrigins(s, alnum, c);
    if c.rule.OuterWhitespace? {
      if c.start == 0 && c.end == RunEnd(s, 0) {
        RunStartIs(s, 0, i);
      } else {
        RunEndIs(s, i, |s|);
      }
    } else {
      RulesOfSpacing(s, |s|);
      var p :| 0 <= p < |s| && c in SpacingAt(s, p);
      SpacingAtRule(s, p);
      HorizontalIsWhitespace(s[p]);
      RunEndIs(s, i, p);
    }
  }

  lemma SafeOrigins(s: string, alnum: char -> bool, c: Candidate)
    requires c in OuterSpec(s) || c in SpacingSpec(s, |s|)
    ensures c in Candidates(s, alnum)
  {
    hide OuterSpec;
    hide WordsSpec;
    hide SpacingSpec;
    hide CollapseSpec;
    hide BlanksSpec;
    hide SentenceSpec;
  }

  /** Only an outer candidate can keep an outer candidate out, and outer candidates never overlap. */
  lemma OuterIsChosen(s: string, alnum: char -> bool, c: Candidate)
    requires c in OuterSpec(s)
    ensures c in Chosen(s, alnum)
  {
    hide Candidates;
    hide Chosen;
    hide AllSound;
    SafeOrigins(s, alnum, c);
    var winner := LeftOutIsBlocked(s, alnum, c);
    ChosenIsInOrder(s, alnum);
    CandidateOrigins(s, alnum, winner);
  }

  lemma OuterAvoidsSpacing(s: string, c: Candidate, p: nat)
    requires p < |s| && IsPunctuation(s[p]) && 0 < RunStart(s, p) < p && c in OuterSpec(s)
    ensures !Overlap(c, Candidate(RunStart(s, p), p, "", PunctuationSpacing))
  {
    HorizontalIsWhitespace(s[p]);
    hide IsPunctuation;
    hide IsHorizontal;
    hide Utf8.IsWhitespace;
    HorizontalIsWhitespace(s[p]);
  }

  lemma SpacingIsUnique(s: string, c: Candidate, p: nat)
    requires p < |s| && IsPunctuation(s[p]) && RunStart(s, p) < p && c in SpacingSpec(s, |s|)
    requires Overlap(c, Candidate(RunStart(s, p), p, "", PunctuationSpacing))
    ensures c == Candidate(RunStart(s, p), p, "", PunctuationSpacing)
  {
    hide IsPunctuation;
    hide SpacingAt;
    hide SpacingSpec;
    hide RunEnd;
    RulesOfSpacing(s, |s|);
    var q :| 0 <= q < |s| && c in SpacingAt(s, q);
    SpacingAtRule(s, q);
    HorizontalIsWhitespace(s[p]);
    HorizontalIsWhitespace(s[q]);
    var k := Max(c.start, RunStart(s, p));
    RunEndIs(s, k, p);
    RunEndIs(s, k, q);
  }

  lemma SpacingIsChosen(s: string, alnum: char -> bool, p: nat)
    requires p < |s| && IsPunctuation(s[p]) && 0 < RunStart(s, p) < p
    ensures Candidate(RunStart(s, p), p, "", PunctuationSpacing) in Chosen(s, alnum)
  {
    var c := Candidate(RunStart(s, p), p, "", PunctuationSpacing);
    hide Candidates;
    hide Chosen;
    hide AllSound;
    hide IsPunctuation;
    hide SpacingSpec;
    assert c in SpacingAt(s, p);
    RulesOfSpacing(s, |s|);
    SafeOrigins(s, alnum, c);
    var winner := LeftOutIsBlocked(s, alnum, c);
    ChosenIsInOrder(s, alnum);
    hide SpacingAt;
    SpacingWins(s, alnum, p, winner);
  }

  lemma SpacingWins(s: string, alnum: char -> bool, p: nat, winner: Candidate)
    requires p < |s| && IsPunctuation(s[p]) && 0 < RunStart(s, p) < p
    requires winner in Candidates(s, alnum)
    requires var c := Candidate(RunStart(s, p), p, "", PunctuationSpacing);
             Overlap(c, winner) && !RankBefore(c, winner)
    ensures winner == Candidate(RunStart(s, p), p, "", PunctuationSpacing)
  {
    hide Candidates;
    hide IsPunctuation;
    hide WordShaped;
    hide OuterSpec;
    hide SpacingSpec;
    hide RunStart;
    CandidateOrigins(s, alnum, winner);
    if winner.rule.RepeatedWord? {
      WordsAvoidSpacing(s, winner, p);
    } else if winner.rule.OuterWhitespace? {
      OuterAvoidsSpacing(s, winner, p);
    } else {
      SpacingIsUnique(s, winner, p);
    }
  }

  lemma DroppedIsCovered(s: string, alnum: char -> bool, i: nat)
    requires i < |s| && Dropped(s, i)
    ensures Covered(SafeCandidates(Chosen(s, alnum)), i)
  {
    hide Chosen;
    hide IsHorizontal;
    hide IsPunctuation;
    var a, b := RunStart(s, i), RunEnd(s, i);
    var c: Candidate;
    if a == 0 {
      RunEndIs(s, 0, b);
      c := Candidate(0, b, "", OuterWhitespace);
      OuterIsChosen(s, alnum, c);
    } else if b == |s| {
      RunStartIs(s, a, b);
      assert RunEnd(s, 0) <= a - 1;
      c := Candidate(a, b, "", OuterWhitespace);
      OuterIsChosen(s, alnum, c);
    } else {
      RunStartIs(s, a, b);
      c := Candidate(a, b, "", PunctuationSpacing);
      SpacingIsChosen(s, alnum, b);
    }
    assert c in SafeCandidates(Chosen(s, alnum)) && c.start <= i < c.end;
  }

  lemma SafeCoverage(s: string, alnum: char -> bool)
    ensures forall i :: 0 <= i < |s| ==> (Covered(SafeCandidates(Chosen(s, alnum)), i) <==> Dropped(s, i))
  {
    hide Chosen;
    hide Dropped;
    hide Candidates;
    ChosenIsInOrder(s, alnum);
    var cs := SafeCandidates(Chosen(s, alnum));
    forall i: nat | i < |s| ensures Covered(cs, i) <==> Dropped(s, i) {
      if Dropped(s, i) {
        DroppedIsCovered(s, alnum, i);
      }
      if Covered(cs, i) {
        var k :| 0 <= k < |cs| && cs[k].start <= i < cs[k].end;
        assert cs[k] in cs;
        SafeDropped(s, alnum, cs[k], i);
      }
    }
  }

  // ----- applying the safe edits is cleaning

  lemma InOrderCons(s: string, c: Candidate, cs: seq<Candidate>, from: nat)
    requires from <= c.start < c.end <= |s| && InOrder(s, cs, c.end)
    ensures InOrder(s, [c] + cs, from)
  {
  }

  lemma InOrderFromEarlier(s: string, cs: seq<Candidate>, from: nat, earlier: nat)
    requires earlier <= from && InOrder(s, cs, from)
    ensures InOrder(s, cs, earlier)
  {
  }

  lemma {:induction false} SafeKeepsOrder(s: string, cs: seq<Candidate>, from: nat)
    requires InOrder(s, cs, from)
    ensures InOrder(s, SafeCandidates(cs), from)
  {
    if cs != [] {
      InOrderTail(s, cs, from);
      SafeKeepsOrder(s, cs[1..], cs[0].end);
      InOrderCons(s, cs[0], SafeCandidates(cs[1..]), from);
      InOrderFromEarlier(s, SafeCandidates(cs[1..]), cs[0].end, from);
      hide InOrder;
    }
  }

  lemma {:induction false} SafeEdits(s: string, cs: seq<Candidate>)
    requires forall i :: 0 <= i < |cs| ==> cs[i].start <= cs[i].end <= |s|
    ensures forall i :: 0 <= i < |SafeCandidates(cs)| ==> SafeCandidates(cs)[i].start <= SafeCandidates(cs)[i].end <= |s|
    ensures SafeOnly(EditsOf(s, cs)) == EditsOf(s, SafeCandidates(cs))
  {
    if cs != [] {
      SafeEdits(s, cs[1..]);
      var rest := SafeCandidates(cs[1..]);
      if IsSafe(cs[0].rule) {
        assert ([cs[0]] + rest)[1..] == rest;
      }
      assert EditsOf(s, cs)[1..] == EditsOf(s, cs[1..]);
    }
  }

  lemma SafeEditsClean(s: string, alnum: char -> bool)
    ensures ApplyEdits(s, SafeOnly(Check(s, alnum).edits)) == Some(Clean(s, 0))
    ensures SafeOnly(Check(s, alnum).edits) == [] <==> SafeCandidates(Chosen(s, alnum)) == []
  {
    hide Dropped;
    hide Clean;
    hide Splice;
    hide Fits;
    hide Sound;
    hide SpliceChars;
    ChosenIsInOrder(s, alnum);
    var cs := Chosen(s, alnum);
    var safe := SafeCandidates(cs);
    assert Check(s, alnum).edits == EditsOf(s, cs);
    SafeKeepsOrder(s, cs, 0);
    SafeEdits(s, cs);
    SafeCoverage(s, alnum);
    hide Chosen;
    assert forall c :: c in safe ==> c.replacement == "" by {
      forall c | c in safe ensures c.replacement == "" {
        SafeHasNoReplacement(s, cs, c);
      }
    }
    SpliceIsClean(s, safe, 0);
    ApplyIsSplice(s, safe, 0);
    Utf8.OffsetEnds(s);
  }

  lemma SafeHasNoReplacement(s: string, cs: seq<Candidate>, c: Candidate)
    requires AllSound(s, cs) && c in cs && IsSafe(c.rule)
    ensures c.replacement == ""
  {
    var i :| 0 <= i < |cs| && cs[i] == c;
    assert Sound(s, cs[i]);
  }

  // ----- cleaning leaves nothing to clean

  /** Everything but the horizontal blanks, in order. */
  function Visible(s: string): string {
    if s == "" then "" else (if IsHorizontal(s[0]) then "" else [s[0]]) + Visible(s[1..])
  }

  lemma {:induction false} CleanKeepsVisible(s: string, i: nat)
    requires i <= |s|
    ensures Visible(Clean(s, i)) == Visible(s[i..])
    decreases |s| - i
  {
    hide RunStart;
    hide RunEnd;
    if i < |s| {
      CleanKeepsVisible(s, i + 1);
      assert s[i..][0] == s[i] && s[i..][1..] == s[i + 1..];
      var rest := Clean(s, i + 1);
      if Dropped(s, i) {
        assert "" + rest == rest;
      } else {
        assert ([s[i]] + rest)[1..] == rest;
      }
    }
  }

  /** The run of blanks at j ends before a character that is not punctuation. */
  predicate RunLeadsOn(u: string, j: nat)
    requires j < |u|
  {
    IsHorizontal(u[j]) ==> RunEnd(u, j) < |u| && !IsPunctuation(u[RunEnd(u, j)])
  }

  lemma RunLeadsOnShifts(x: char, u: string, j: nat)
    requires j < |u| && RunLeadsOn(u, j)
    ensures RunLeadsOn([x] + u, j + 1)
  {
    hide IsPunctuation;
    if IsHorizontal(u[j]) {
      var v := [x] + u;
      forall k | j + 1 <= k < RunEnd(u, j) + 1 ensures IsHorizontal(v[k]) {
        assert v[k] == u[k - 1];
      }
      RunEndIs(v, j + 1, RunEnd(u, j) + 1);
    }
  }

  /** A kept run of blanks is copied whole, up to and including what follows it. */
  lemma KeptRunIsCopied(s: string, i: nat)
    requires i < |s| && IsHorizontal(s[i]) && !Dropped(s, i)
    ensures RunEnd(s, i) < |s| && !IsPunctuation(s[RunEnd(s, i)])
    ensures Clean(s, i) == s[i..RunEnd(s, i) + 1] + Clean(s, RunEnd(s, i) + 1)
  {
    hide Dropped;
    hide RunEnd;
    hide Clean;
    hide IsPunctuation;
    hide IsHorizontal;
    RunAllKept(s, i);
    var e := RunEnd(s, i) + 1;
    CleanCopiesKept(s, i, e);
  }

  lemma RunAllKept(s: string, i: nat)
    requires i < |s| && IsHorizontal(s[i]) && !Dropped(s, i)
    ensures RunEnd(s, i) < |s| && !IsPunctuation(s[RunEnd(s, i)])
    ensures forall k :: i <= k < RunEnd(s, i) + 1 ==> !Dropped(s, k)
  {
    hide RunStart;
    hide IsPunctuation;
    var e := RunEnd(s, i);
    forall k | i <= k < e + 1 ensures !Dropped(s, k) {
      if k < e {
        RunKept(s, i, k);
      }
    }
  }

  lemma RunKept(s: string, i: nat, k: nat)
    requires i < |s| && IsHorizontal(s[i]) && !Dropped(s, i) && i <= k < RunEnd(s, i)
    ensures !Dropped(s, k)
  {
    hide IsPunctuation;
    RunEndIs(s, k, RunEnd(s, i));
    SameRunStart(s, i, k);
  }

  lemma {:induction false} SameRunStart(s: string, i: nat, k: nat)
    requires i <= k <= |s| && forall j :: i <= j < k ==> IsHorizontal(s[j])
    ensures RunStart(s, k) == RunStart(s, i)
  {
    if i < k {
      SameRunStart(s, i, k - 1);
    }
  }

  lemma {:induction false} CleanRunsLeadOn(s: string, i: nat)
    requires i <= |s|
    ensures forall j :: 0 <= j < |Clean(s, i)| ==> RunLeadsOn(Clean(s, i), j)
    decreases |s| - i
  {
    if i < |s| {
      CleanRunsLeadOn(s, i + 1);
      var u, rest := Clean(s, i), Clean(s, i + 1);
      if Dropped(s, i) {
        assert "" + rest == rest;
      } else {
        forall j: nat | 0 < j < |u| ensures RunLeadsOn(u, j) {
          RunLeadsOnShifts(s[i], rest, j - 1);
        }
        if IsHorizontal(s[i]) {
          KeptRunIsCopied(s, i);
          HeadRunLeadsOn(s, i, u);
        }
      }
    }
  }

  lemma HeadRunLeadsOn(s: string, i: nat, u: string)
    requires i < |s| && RunEnd(s, i) < |s| && !IsPunctuation(s[RunEnd(s, i)])
    requires s[i..RunEnd(s, i) + 1] <= u
    ensures RunLeadsOn(u, 0)
  {
    hide IsPunctuation;
    hide IsHorizontal;
    var e := RunEnd(s, i);
    forall k | 0 <= k <= e - i ensures u[k] == s[i + k] {
      assert u[k] == s[i..e + 1][k];
    }
    RunEndIs(u, 0, e - i);
  }

  lemma CleanStartsVisible(s: string)
    ensures Clean(s, 0) != "" ==> !IsHorizontal(Clean(s, 0)[0])
  {
    var e := RunEnd(s, 0);
    forall k | 0 <= k < e ensures Dropped(s, k) {
      RunStartIs(s, 0, k);
    }
    CleanSkipsDropped(s, 0, e);
  }

  lemma CleanDropsNothing(s: string)
    ensures forall i :: 0 <= i < |Clean(s, 0)| ==> !Dropped(Clean(s, 0), i)
  {
    CleanRunsLeadOn(s, 0);
    CleanStartsVisible(s);
    hide Clean;
    hide IsHorizontal;
    hide IsPunctuation;
    var t := Clean(s, 0);
    forall i | 0 <= i < |t| ensures !Dropped(t, i) {
      assert RunLeadsOn(t, i);
    }
  }

  lemma SomethingCovered(s: string, cs: seq<Candidate>) returns (i: nat)
    requires InOrder(s, cs, 0) && cs != []
    ensures i < |s| && Covered(cs, i)
  {
    i := cs[0].start;
  }

  lemma NothingDroppedNothingSafe(s: string, alnum: char -> bool)
    requires forall i :: 0 <= i < |s| ==> !Dropped(s, i)
    ensures SafeCandidates(Chosen(s, alnum)) == []
  {
    hide Chosen;
    hide Dropped;
    SafeCoverage(s, alnum);
    ChosenIsInOrder(s, alnum);
    var cs := SafeCandidates(Chosen(s, alnum));
    if cs != [] {
      SafeKeepsOrder(s, Chosen(s, alnum), 0);
      var i := SomethingCovered(s, cs);
    }
  }

  /** One application of the safe edits removes nothing but horizontal blanks and leaves no safe edit to apply. */
  lemma SafeEditsReachFixpoint(s: string, alnum: char -> bool) returns (cleaned: string)
    ensures ApplyEdits(s, SafeOnly(Check(s, alnum).edits)) == Some(cleaned)
    ensures Visible(cleaned) == Visible(s)
    ensures SafeOnly(Check(cleaned, alnum).edits) == []
  {
    hide Check;
    hide Dropped;
    SafeEditsClean(s, alnum);
    cleaned := Clean(s, 0);
    CleanKeepsVisible(s, 0);
    assert s[0..] == s;
    CleanDropsNothing(s);
    NothingDroppedNothingSafe(cleaned, alnum);
    SafeEditsClean(cleaned, alnum);
  }
}
