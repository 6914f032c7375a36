/** What a text without repeated words becomes, character by character: the
    selected edits of all rules, read as one scan. */
module CleanupEmission {
  import opened Base
  import opened CleanupRules
  import opened Cleanup
  import opened CleanupSafe
  import Utf8

  // ----- candidates by their own positions

  /** Which text a candidate of each rule belongs to, without the scan that found it. */
  predicate Known(s: string, alnum: char -> bool, c: Candidate) {
    match c.rule
    case OuterWhitespace => c in OuterSpec(s)
    case RepeatedWord => c in WordsSpec(s, alnum)
    case PunctuationSpacing => c.end < |s| && SpacingAt(s, c.end) == [c]
    case RepeatedPunctuation => 0 < c.end <= |s| && CollapseAt(s, c.end) == [c]
    case RepeatedWhitespace => c.end < |s| && BlanksAt(s, c.end) == [c]
    case SentenceCase => c.start < |s| && Capitals(s, c.start) == [c]
  }

  function Capitals(s: string, i: nat): seq<Candidate>
    requires i < |s|
  {
    TokensCut(s);
    CaseAt(s, Tokens(s), i)
  }

  lemma {:induction false} SpacingKnown(s: string, n: nat, c: Candidate)
    requires n <= |s|
    ensures c in SpacingSpec(s, n) <==> c.rule.PunctuationSpacing? && c.end < n && SpacingAt(s, c.end) == [c]
  {
    hide IsHorizontal;
    hide IsPunctuation;
    hide RunStart;
    if n > 0 {
      SpacingKnown(s, n - 1, c);
    }
  }

  lemma {:induction false} CollapseKnown(s: string, n: nat, c: Candidate)
    requires n <= |s|
    ensures c in CollapseSpec(s, n) <==> c.rule.RepeatedPunctuation? && 0 < c.end <= n && CollapseAt(s, c.end) == [c]
  {
    if n > 0 {
      CollapseKnown(s, n - 1, c);
    }
  }

  lemma {:induction false} BlanksKnown(s: string, n: nat, c: Candidate)
    requires n <= |s|
    ensures c in BlanksSpec(s, n) <==> c.rule.RepeatedWhitespace? && c.end < n && BlanksAt(s, c.end) == [c]
  {
    hide IsHorizontal;
    hide IsPunctuation;
    hide RunStart;
    if n > 0 {
      BlanksKnown(s, n - 1, c);
    }
  }

  lemma {:induction false} CaseKnown(s: string, spans: seq<Span>, n: nat, c: Candidate)
    requires CutsText(s, spans, |s|) && n <= |s|
    ensures c in CaseSpec(s, spans, n) <==> c.rule.SentenceCase? && c.start < n && CaseAt(s, spans, c.start) == [c]
  {
    hide CutsText;
    hide Protected;
    hide BeginsSentence;
    if n > 0 {
      CaseKnown(s, spans, n - 1, c);
    }
  }

  lemma CandidatesKnown(s: string, alnum: char -> bool, c: Candidate)
    ensures c in Candidates(s, alnum) <==> Known(s, alnum, c)
  {
    TokensCut(s);
    SpacingKnown(s, |s|, c);
    CollapseKnown(s, |s|, c);
    BlanksKnown(s, |s|, c);
    CaseKnown(s, Tokens(s), |s|, c);
    RulesOfWords(s, alnum);
    RulesOfOuter(s);
    hide Tokens;
    hide WordShaped;
    hide OuterSpec;
    hide WordsSpec;
    hide SpacingSpec;
    hide SpacingAt;
    hide CollapseSpec;
    hide CollapseAt;
    hide BlanksSpec;
    hide BlanksAt;
    hide CaseSpec;
    hide CaseAt;
    InSix(c, OuterSpec(s), WordsSpec(s, alnum), SpacingSpec(s, |s|), CollapseSpec(s, |s|), BlanksSpec(s, |s|),
          SentenceSpec(s));
  }

  // ----- emission

  predicate MarkTail(s: string, i: nat)
    requires i < |s|
  {
    i > 0 && s[i] == s[i - 1] && IsCollapsible(s[i])
  }

  /** Inside a run of two or more blanks that opens no line. */
  predicate LongRun(s: string, i: nat)
    requires i < |s|
  {
    RunEnd(s, i) - RunStart(s, i) > 1 && RunStart(s, i) > 0 && s[RunStart(s, i) - 1] != '\n'
  }

  function Emitted(s: string, i: nat): string
    requires i < |s|
  {
    if Dropped(s, i) then ""
    else if IsHorizontal(s[i]) && LongRun(s, i) then (if RunStart(s, i) == i then " " else "")
    else if MarkTail(s, i) then ""
    else if Capitals(s, i) != [] && IsLower(s[i]) then [Upper(s[i])]
    else [s[i]]
  }

  function EmitFrom(s: string, i: nat): string
    requires i <= |s|
    decreases |s| - i
  {
    if i == |s| then "" else Emitted(s, i) + EmitFrom(s, i + 1)
  }

  function EmitTo(s: string, n: nat): string
    requires n <= |s|
  {
    if n == 0 then "" else EmitTo(s, n - 1) + Emitted(s, n - 1)
  }

  lemma {:induction false} EmissionMeets(s: string, n: nat)
    requires n <= |s|
    ensures EmitTo(s, n) + EmitFrom(s, n) == EmitFrom(s, 0)
  {
    hide Emitted;
    if n > 0 {
      EmissionMeets(s, n - 1);
      ConcatAssociates(EmitTo(s, n - 1), Emitted(s, n - 1), EmitFrom(s, n));
    }
  }

  lemma {:induction false} EmissionCopies(s: string, i: nat, j: nat)
    requires i <= j <= |s| && forall k :: i <= k < j ==> Emitted(s, k) == [s[k]]
    ensures EmitFrom(s, i) == s[i..j] + EmitFrom(s, j)
    decreases j - i
  {
    hide Emitted;
    if i < j {
      var rest := s[i + 1..j];
      EmissionCopies(s, i + 1, j);
      assert s[i..j] == [s[i]] + rest;
      ConcatAssociates([s[i]], rest, EmitFrom(s, j));
    }
  }

  lemma {:induction false} EmissionSkips(s: string, i: nat, j: nat)
    requires i <= j <= |s| && forall k :: i <= k < j ==> Emitted(s, k) == ""
    ensures EmitFrom(s, i) == EmitFrom(s, j)
    decreases j - i
  {
    hide Emitted;
    if i < j {
      EmissionSkips(s, i + 1, j);
    }
  }

  predicate Emits(s: string, c: Candidate) {
    c.start < c.end <= |s| && EmitFrom(s, c.start) == c.replacement + EmitFrom(s, c.end)
  }

  lemma {:induction false} SpliceIsEmission(s: string, cs: seq<Candidate>, from: nat)
    requires from <= |s| && InOrder(s, cs, from)
    requires forall i :: 0 <= i < |cs| ==> Emits(s, cs[i])
    requires forall i :: from <= i < |s| && !Covered(cs, i) ==> Emitted(s, i) == [s[i]]
    ensures SpliceChars(s, cs, from) == EmitFrom(s, from)
    decreases |cs|
  {
    hide Emitted;
    if cs == [] {
      EmissionCopies(s, from, |s|);
      assert s[from..|s|] + "" == s[from..];
    } else {
      var c := cs[0];
      InOrderTail(s, cs, from);
      CoveredByHead(s, cs, from);
      assert Emits(s, c);
      hide EmitFrom;
      hide Covered;
      hide InOrder;
      SpliceIsEmission(s, cs[1..], c.end);
      EmissionCopies(s, from, c.start);
      ConcatAssociates(s[from..c.start], c.replacement, EmitFrom(s, c.end));
    }
  }

  // ----- runs

  /** Every position of a run of blanks sees the same run. */
  lemma SameRun(s: string, i: nat, k: nat)
    requires i <= k < |s| && forall j :: i <= j <= k ==> IsHorizontal(s[j])
    ensures RunStart(s, k) == RunStart(s, i) && RunEnd(s, k) == RunEnd(s, i)
    ensures Dropped(s, k) == Dropped(s, i) && LongRun(s, k) == LongRun(s, i)
  {
    hide IsPunctuation;
    hide IsHorizontal;
    hide RunStart;
    hide RunEnd;
    SameRunStart(s, i, k);
    assert k < RunEnd(s, i);
    RunEndIs(s, k, RunEnd(s, i));
  }

  lemma OuterShape(s: string, c: Candidate)
    requires c in OuterSpec(s)
    ensures c.start < c.end <= |s| && forall k :: c.start <= k < c.end ==> IsHorizontal(s[k]) && Dropped(s, k)
  {
    hide IsPunctuation;
    forall k | c.start <= k < c.end ensures Dropped(s, k) {
      if c.start == 0 && c.end == RunEnd(s, 0) {
        RunStartIs(s, 0, k);
      } else {
        RunEndIs(s, k, |s|);
      }
    }
  }

  lemma SpacingShape(s: string, c: Candidate)
    requires c.end < |s| && SpacingAt(s, c.end) == [c]
    ensures c.start < c.end && forall k :: c.start <= k < c.end ==> IsHorizontal(s[k]) && Dropped(s, k)
  {
    hide IsHorizontal;
    HorizontalIsWhitespace(s[c.end]);
    forall k | c.start <= k < c.end ensures Dropped(s, k) {
      RunEndIs(s, k, c.end);
    }
  }

  /** A run of blanks, by its bounds. */
  lemma BlanksShape(s: string, c: Candidate)
    requires c.end < |s| && BlanksAt(s, c.end) == [c]
    ensures c.start + 1 < c.end && c.replacement == " "
    ensures forall k :: c.start <= k < c.end ==>
              IsHorizontal(s[k]) && RunStart(s, k) == c.start && RunEnd(s, k) == c.end && LongRun(s, k)
  {
    hide IsHorizontal;
    forall k | c.start <= k < c.end ensures RunStart(s, k) == c.start && RunEnd(s, k) == c.end {
      RunEndIs(s, k, c.end);
      RunStartIs(s, c.start, k);
    }
  }

  lemma {:induction false} SameStartIs(s: string, i: nat, j: nat)
    requires i < j <= |s| && (forall k :: i <= k < j ==> s[k] == s[j - 1]) && (i > 0 ==> s[i - 1] != s[j - 1])
    ensures SameStart(s, j) == i
  {
    if i < j - 1 {
      SameStartIs(s, i, j - 1);
    }
  }

  lemma {:induction false} SameStartMaximal(s: string, j: nat)
    requires 0 < j <= |s|
    ensures SameStart(s, j) > 0 ==> s[SameStart(s, j) - 1] != s[j - 1]
  {
    if j > 1 && s[j - 2] == s[j - 1] {
      SameStartMaximal(s, j - 1);
    }
  }

  lemma CollapseShape(s: string, c: Candidate)
    requires 0 < c.end <= |s| && CollapseAt(s, c.end) == [c]
    ensures c.start + 1 < c.end && IsCollapsible(s[c.start]) && c.replacement == [s[c.start]]
    ensures forall k :: c.start <= k < c.end ==> s[k] == s[c.start] && (k > c.start <==> MarkTail(s, k))
    ensures c.end < |s| ==> s[c.end] != s[c.start]
  {
    SameStartMaximal(s, c.end);
    assert s[c.start] == s[c.end - 1];
  }

  lemma CapitalShape(s: string, i: nat)
    requires i < |s| && Capitals(s, i) != []
    ensures IsLower(s[i]) && Capitals(s, i) == [Candidate(i, i + 1, [Upper(s[i])], SentenceCase)]
  {
    hide Protected;
    hide BeginsSentence;
  }

  /** Letters, marks and blanks are different characters. */
  lemma Classes(c: char)
    ensures IsLower(c) ==> !IsHorizontal(c) && !IsPunctuation(c) && !IsCollapsible(c) && !Utf8.IsWhitespace(c)
    ensures IsLower(c) ==> !IsLower(Upper(c)) && !IsHorizontal(Upper(c)) && !IsPunctuation(Upper(c))
                           && !Utf8.IsWhitespace(Upper(c)) && Upper(c) != '\n' && !IsOpeningQuote(Upper(c))
    ensures IsCollapsible(c) ==> IsPunctuation(c)
    ensures IsPunctuation(c) ==> !IsHorizontal(c)
    ensures !IsHorizontal('\n') && IsHorizontal(' ')
  {
  }

  // ----- which candidates are selected

  lemma SelectedOnce(s: string, cs: seq<Candidate>, a: Candidate, b: Candidate, k: nat)
    requires InOrder(s, cs, 0) && a in cs && b in cs && a.start <= k < a.end && b.start <= k < b.end
    ensures a == b
  {
    var i :| 0 <= i < |cs| && cs[i] == a;
    var j :| 0 <= j < |cs| && cs[j] == b;
  }

  /** A chosen candidate at a position that no dropped blank covers. */
  lemma BlanksAreChosen(s: string, alnum: char -> bool, c: Candidate)
    requires WordsSpec(s, alnum) == [] && c.rule.RepeatedWhitespace? && Known(s, alnum, c) && !Dropped(s, c.start)
    ensures c in Chosen(s, alnum)
  {
    hide Candidates;
    hide Chosen;
    hide AllSound;
    hide WordsSpec;
    CandidatesKnown(s, alnum, c);
    var w := LeftOutIsBlocked(s, alnum, c);
    ChosenIsInOrder(s, alnum);
    CandidatesKnown(s, alnum, w);
    BlanksMeet(s, alnum, c, w);
  }

  lemma BlanksMeet(s: string, alnum: char -> bool, c: Candidate, w: Candidate)
    requires WordsSpec(s, alnum) == [] && c.rule.RepeatedWhitespace? && Known(s, alnum, c) && !Dropped(s, c.start)
    requires Known(s, alnum, w) && Overlap(c, w) && !RankBefore(c, w)
    ensures w == c
  {
    hide WordsSpec;
    hide OuterSpec;
    hide SpacingAt;
    hide CollapseAt;
    BlanksShape(s, c);
    var k := Max(c.start, w.start);
    SameRun(s, c.start, k);
    hide Dropped;
    match w.rule
    case OuterWhitespace => OuterShape(s, w);
    case PunctuationSpacing => SpacingShape(s, w);
    case RepeatedPunctuation => CollapseShape(s, w); Classes(s[k]);
    case RepeatedWhitespace => BlanksShape(s, w);
    case _ =>
  }

  lemma CollapsesAreChosen(s: string, alnum: char -> bool, c: Candidate)
    requires WordsSpec(s, alnum) == [] && c.rule.RepeatedPunctuation? && Known(s, alnum, c)
    ensures c in Chosen(s, alnum)
  {
    hide Candidates;
    hide Chosen;
    hide AllSound;
    hide WordsSpec;
    CandidatesKnown(s, alnum, c);
    var w := LeftOutIsBlocked(s, alnum, c);
    ChosenIsInOrder(s, alnum);
    CandidatesKnown(s, alnum, w);
    CollapsesMeet(s, alnum, c, w);
  }

  lemma CollapsesMeet(s: string, alnum: char -> bool, c: Candidate, w: Candidate)
    requires WordsSpec(s, alnum) == [] && c.rule.RepeatedPunctuation? && Known(s, alnum, c)
    requires Known(s, alnum, w) && Overlap(c, w) && !RankBefore(c, w)
    ensures w == c
  {
    hide WordsSpec;
    hide OuterSpec;
    hide SpacingAt;
    hide BlanksAt;
    CollapseShape(s, c);
    var k := Max(c.start, w.start);
    match w.rule
    case OuterWhitespace => OuterShape(s, w); Classes(s[k]);
    case PunctuationSpacing => SpacingShape(s, w); Classes(s[k]);
    case RepeatedPunctuation => CollapsesEqual(s, c, w, k);
    case _ =>
  }

  lemma CollapsesEqual(s: string, c: Candidate, w: Candidate, k: nat)
    requires c.rule == w.rule == RepeatedPunctuation && k < |s|
    requires 0 < c.end <= |s| && CollapseAt(s, c.end) == [c] && 0 < w.end <= |s| && CollapseAt(s, w.end) == [w]
    requires c.start <= k < c.end && w.start <= k < w.end
    ensures c == w
  {
    CollapseShape(s, c);
    CollapseShape(s, w);
    hide CollapseAt;
    var after := (if c.end < |s| then s[c.end] else '\n', if w.end < |s| then s[w.end] else '\n');
    var tails := (MarkTail(s, c.start), MarkTail(s, w.start));
    assert s[k] == s[c.start] == s[w.start];
  }

  lemma CapitalsAreChosen(s: string, alnum: char -> bool, c: Candidate)
    requires WordsSpec(s, alnum) == [] && c.rule.SentenceCase? && Known(s, alnum, c)
    ensures c in Chosen(s, alnum)
  {
    hide Candidates;
    hide Chosen;
    hide AllSound;
    hide WordsSpec;
    hide Capitals;
    CandidatesKnown(s, alnum, c);
    var w := LeftOutIsBlocked(s, alnum, c);
    ChosenIsInOrder(s, alnum);
    CandidatesKnown(s, alnum, w);
    CapitalsMeet(s, alnum, c, w);
  }

  lemma CapitalsMeet(s: string, alnum: char -> bool, c: Candidate, w: Candidate)
    requires WordsSpec(s, alnum) == [] && c.rule.SentenceCase? && Known(s, alnum, c)
    requires Known(s, alnum, w) && Overlap(c, w)
    ensures w == c
  {
    hide WordsSpec;
    hide OuterSpec;
    hide SpacingAt;
    hide BlanksAt;
    hide CollapseAt;
    hide Capitals;
    CapitalShape(s, c.start);
    Classes(s[c.start]);
    match w.rule
    case OuterWhitespace => OuterShape(s, w);
    case PunctuationSpacing => SpacingShape(s, w);
    case RepeatedPunctuation => CollapseShape(s, w);
    case RepeatedWhitespace => BlanksShape(s, w);
    case SentenceCase => CapitalShape(s, w.start);
    case RepeatedWord =>
  }

  // ----- the suggestion is the emission

  lemma SafeEmits(s: string, c: Candidate)
    requires c.start < c.end <= |s| && c.replacement == "" && forall k :: c.start <= k < c.end ==> Dropped(s, k)
    ensures Emits(s, c)
  {
    hide Dropped;
    EmissionSkips(s, c.start, c.end);
  }

  lemma CollapseEmits(s: string, c: Candidate)
    requires 0 < c.end <= |s| && CollapseAt(s, c.end) == [c]
    ensures Emits(s, c)
  {
    CollapseShape(s, c);
    hide CollapseAt;
    Classes(s[c.start]);
    hide IsCollapsible;
    hide IsHorizontal;
    hide IsPunctuation;
    forall k | c.start < k < c.end ensures Emitted(s, k) == "" {
    }
    if Capitals(s, c.start) != [] {
      CapitalShape(s, c.start);
    }
    hide Capitals;
    assert Emitted(s, c.start) == c.replacement;
    hide Emitted;
    EmissionSkips(s, c.start + 1, c.end);
  }

  lemma BlanksEmit(s: string, c: Candidate)
    requires c.end < |s| && BlanksAt(s, c.end) == [c] && !Dropped(s, c.start)
    ensures Emits(s, c)
  {
    BlanksShape(s, c);
    forall k | c.start <= k < c.end ensures Emitted(s, k) == if k == c.start then " " else "" {
      SameRun(s, c.start, k);
      hide Dropped;
      hide LongRun;
    }
    hide Emitted;
    EmissionSkips(s, c.start + 1, c.end);
  }

  lemma CapitalEmits(s: string, c: Candidate)
    requires c.start < |s| && Capitals(s, c.start) == [c]
    ensures Emits(s, c)
  {
    CapitalShape(s, c.start);
    Classes(s[c.start]);
    hide Capitals;
    hide IsHorizontal;
    hide IsCollapsible;
  }

  /** Every selected edit is what its range emits. */
  lemma SelectedEmits(s: string, alnum: char -> bool, c: Candidate)
    requires WordsSpec(s, alnum) == [] && c in Chosen(s, alnum)
    ensures Emits(s, c)
  {
    hide Chosen;
    hide Candidates;
    hide AllSound;
    hide WordsSpec;
    hide Emits;
    ChosenIsInOrder(s, alnum);
    CandidatesKnown(s, alnum, c);
    match c.rule {
      case OuterWhitespace =>
        OuterShape(s, c);
        OuterReplacement(s, c);
        SafeEmits(s, c);
      case PunctuationSpacing =>
        SpacingShape(s, c);
        SafeEmits(s, c);
      case RepeatedPunctuation =>
        CollapseEmits(s, c);
      case RepeatedWhitespace =>
        BlanksShape(s, c);
        if Dropped(s, c.start) {
          DroppedIsNotBlanks(s, alnum, c);
        } else {
          BlanksEmit(s, c);
        }
      case SentenceCase =>
        CapitalEmits(s, c);
      case RepeatedWord =>
    }
  }

  lemma OuterReplacement(s: string, c: Candidate)
    requires c in OuterSpec(s)
    ensures c.replacement == ""
  {
  }

  lemma CoveredBySafe(s: string, cs: seq<Candidate>, c: Candidate, i: nat)
    requires InOrder(s, cs, 0) && c in cs && c.start <= i < c.end && Covered(SafeCandidates(cs), i)
    ensures IsSafe(c.rule)
  {
    hide InOrder;
    var safe := SafeCandidates(cs);
    var k :| 0 <= k < |safe| && safe[k].start <= i < safe[k].end;
    assert safe[k] in safe;
    SelectedOnce(s, cs, c, safe[k], i);
  }

  /** A dropped run is taken by a safe candidate, so no other one is selected there. */
  lemma DroppedIsNotBlanks(s: string, alnum: char -> bool, c: Candidate)
    requires c in Chosen(s, alnum) && c.start < c.end <= |s| && Dropped(s, c.start)
    ensures IsSafe(c.rule)
  {
    hide *;
    DroppedIsCovered(s, alnum, c.start);
    ChosenIsInOrder(s, alnum);
    CoveredBySafe(s, Chosen(s, alnum), c, c.start);
  }

  /** Where nothing is selected, the character is copied. */
  lemma UnselectedCopies(s: string, alnum: char -> bool, i: nat)
    requires WordsSpec(s, alnum) == [] && i < |s| && !Covered(Chosen(s, alnum), i)
    ensures Emitted(s, i) == [s[i]]
  {
    hide WordsSpec;
    hide Chosen;
    if Dropped(s, i) {
      DroppedIsCovered(s, alnum, i);
      SafeCovers(Chosen(s, alnum), i);
    } else if IsHorizontal(s[i]) && LongRun(s, i) {
      LongRunIsCovered(s, alnum, i);
    } else if MarkTail(s, i) {
      MarkTailIsCovered(s, alnum, i);
    } else if Capitals(s, i) != [] {
      CapitalIsCovered(s, alnum, i);
    }
  }

  lemma SafeCovers(cs: seq<Candidate>, i: nat)
    requires Covered(SafeCandidates(cs), i)
    ensures Covered(cs, i)
  {
    var safe := SafeCandidates(cs);
    var k :| 0 <= k < |safe| && safe[k].start <= i < safe[k].end;
    assert safe[k] in cs;
    var j :| 0 <= j < |cs| && cs[j] == safe[k];
  }

  lemma ChosenCovers(cs: seq<Candidate>, c: Candidate, i: nat)
    requires c in cs && c.start <= i < c.end
    ensures Covered(cs, i)
  {
    var j :| 0 <= j < |cs| && cs[j] == c;
  }

  lemma LongRunIsCovered(s: string, alnum: char -> bool, i: nat)
    requires WordsSpec(s, alnum) == [] && i < |s| && !Dropped(s, i) && IsHorizontal(s[i]) && LongRun(s, i)
    ensures Covered(Chosen(s, alnum), i)
  {
    hide WordsSpec;
    hide Chosen;
    hide IsPunctuation;
    var a, b := RunStart(s, i), RunEnd(s, i);
    var c := Candidate(a, b, " ", RepeatedWhitespace);
    RunStartIs(s, a, b);
    assert BlanksAt(s, b) == [c];
    SameRun(s, a, i);
    BlanksAreChosen(s, alnum, c);
    ChosenCovers(Chosen(s, alnum), c, i);
  }

  /** Where the run of equal characters that begins before j ends. */
  function SameEnd(s: string, j: nat): (e: nat)
    requires 0 < j <= |s|
    ensures j <= e <= |s| && (forall k :: j <= k < e ==> s[k] == s[j - 1]) && (e < |s| ==> s[e] != s[j - 1])
    decreases |s| - j
  {
    if j < |s| && s[j] == s[j - 1] then SameEnd(s, j + 1) else j
  }

  lemma MarkTailIsCovered(s: string, alnum: char -> bool, i: nat)
    requires WordsSpec(s, alnum) == [] && i < |s| && MarkTail(s, i)
    ensures Covered(Chosen(s, alnum), i)
  {
    hide WordsSpec;
    hide Chosen;
    hide IsCollapsible;
    var a, b := SameStart(s, i + 1), SameEnd(s, i + 1);
    SameStartMaximal(s, i + 1);
    SameStartIs(s, a, b);
    var c := Candidate(a, b, [s[b - 1]], RepeatedPunctuation);
    assert a < i && s[b - 1] == s[i];
    assert CollapseAt(s, b) == [c];
    CollapsesAreChosen(s, alnum, c);
    ChosenCovers(Chosen(s, alnum), c, i);
  }

  lemma CapitalIsCovered(s: string, alnum: char -> bool, i: nat)
    requires WordsSpec(s, alnum) == [] && i < |s| && Capitals(s, i) != []
    ensures Covered(Chosen(s, alnum), i)
  {
    hide WordsSpec;
    hide Chosen;
    CapitalShape(s, i);
    hide Capitals;
    var c := Candidate(i, i + 1, [Upper(s[i])], SentenceCase);
    CapitalsAreChosen(s, alnum, c);
    ChosenCovers(Chosen(s, alnum), c, i);
  }

  /** A text without repeated words: its suggestion is its emission. */
  lemma SuggestionIsEmission(s: string, alnum: char -> bool)
    requires WordsSpec(s, alnum) == []
    ensures Check(s, alnum).suggested == EmitTo(s, |s|)
  {
    hide *;
    ChosenIsInOrder(s, alnum);
    var cs := Chosen(s, alnum);
    forall i | 0 <= i < |cs| ensures Emits(s, cs[i]) {
      SelectedEmits(s, alnum, cs[i]);
    }
    forall i: nat | i < |s| && !Covered(cs, i) ensures Emitted(s, i) == [s[i]] {
      UnselectedCopies(s, alnum, i);
    }
    SpliceIsEmission(s, cs, 0);
    WholeEmission(s);
    SuggestionIsSplice(s, alnum);
  }

  lemma WholeEmission(s: string)
    ensures EmitTo(s, |s|) == EmitFrom(s, 0)
  {
    hide Emitted;
    EmissionMeets(s, |s|);
    assert EmitTo(s, |s|) + "" == EmitTo(s, |s|);
  }

  lemma SuggestionIsSplice(s: string, alnum: char -> bool)
    ensures InOrder(s, Chosen(s, alnum), 0)
    ensures Check(s, alnum).suggested == SpliceChars(s, Chosen(s, alnum), 0)
    ensures Check(s, alnum).edits == EditsOf(s, Chosen(s, alnum)) && Check(s, alnum).clean == (Chosen(s, alnum) == [])
  {
    hide Chosen;
    hide AllSound;
    hide Splice;
    hide Fits;
    hide SpliceChars;
    hide InOrder;
    ChosenIsInOrder(s, alnum);
    ApplyIsSplice(s, Chosen(s, alnum), 0);
    Utf8.OffsetEnds(s);
  }
}
