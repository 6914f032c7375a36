/** What the blank and mark rules find in a text that was already cleaned. */
module CleanupSecondPass {
  import opened Base
  import opened CleanupRules
  import opened Cleanup
  import opened CleanupSafe
  import opened CleanupEmission
  import Utf8

  // ----- a report with an edit changes its text

  /** A replacement shorter than its range, or another character for one. */
  predicate Changes(s: string, c: Candidate) {
    c.start < c.end <= |s|
    && (|c.replacement| < c.end - c.start || (|c.replacement| == 1 == c.end - c.start && c.replacement[0] != s[c.start]))
  }

  lemma {:induction false} WordsDelete(s: string, tokens: seq<Span>, n: nat, alnum: char -> bool)
    requires CutsText(s, tokens, |s|) && n <= |tokens|
    ensures forall c :: c in RepeatSpec(s, tokens, n, alnum) ==> c.replacement == ""
  {
    hide NormalizedWord;
    hide IsToken;
    if n > 1 {
      WordsDelete(s, tokens, n - 1, alnum);
    }
  }

  lemma CandidateChanges(s: string, alnum: char -> bool, c: Candidate)
    requires Known(s, alnum, c) && c.start < c.end <= |s|
    ensures Changes(s, c)
  {
    hide Capitals;
    hide CollapseAt;
    hide BlanksAt;
    match c.rule
    case OuterWhitespace => OuterReplacement(s, c);
    case RepeatedWord => TokensCut(s); WordsDelete(s, Tokens(s), |Tokens(s)|, alnum);
    case PunctuationSpacing =>
    case RepeatedPunctuation => CollapseShape(s, c);
    case RepeatedWhitespace => BlanksShape(s, c);
    case SentenceCase => CapitalShape(s, c.start); Classes(s[c.start]);
  }

  lemma {:induction false} SpliceChanges(s: string, cs: seq<Candidate>, from: nat)
    requires from <= |s| && InOrder(s, cs, from) && forall i :: 0 <= i < |cs| ==> Changes(s, cs[i])
    ensures |SpliceChars(s, cs, from)| <= |s| - from
    ensures cs != [] ==> SpliceChars(s, cs, from) != s[from..]
    decreases |cs|
  {
    if cs != [] {
      var c := cs[0];
      InOrderTail(s, cs, from);
      SpliceChanges(s, cs[1..], c.end);
      assert Changes(s, c);
      var spliced := SpliceChars(s, cs, from);
      assert spliced == s[from..c.start] + c.replacement + SpliceChars(s, cs[1..], c.end);
      if |c.replacement| == c.end - c.start {
        assert spliced[c.start - from] == c.replacement[0] != s[c.start] == s[from..][c.start - from];
      }
    }
  }

  /** A report is clean exactly when its suggestion is the text itself. */
  lemma CleanIsFixed(s: string, alnum: char -> bool)
    ensures Check(s, alnum).suggested == s <==> Check(s, alnum).clean
  {
    hide *;
    SuggestionIsSplice(s, alnum);
    ChosenIsInOrder(s, alnum);
    var cs := Chosen(s, alnum);
    forall i | 0 <= i < |cs| ensures Changes(s, cs[i]) {
      assert cs[i] in cs;
      CandidatesKnown(s, alnum, cs[i]);
      InOrderAt(s, cs, i);
      CandidateChanges(s, alnum, cs[i]);
    }
    SpliceChanges(s, cs, 0);
    NothingSpliced(s, cs);
    assert s[0..] == s;
  }

  lemma InOrderAt(s: string, cs: seq<Candidate>, i: nat)
    requires InOrder(s, cs, 0) && i < |cs|
    ensures cs[i].start < cs[i].end <= |s|
  {
  }

  lemma NothingSpliced(s: string, cs: seq<Candidate>)
    requires InOrder(s, cs, 0)
    ensures cs == [] ==> SpliceChars(s, cs, 0) == s
  {
  }

  /** Nothing is selected only when there is nothing to select from. */
  lemma CleanIsNoCandidate(s: string, alnum: char -> bool)
    ensures Check(s, alnum).clean <==> Candidates(s, alnum) == []
  {
    hide *;
    SuggestionIsSplice(s, alnum);
    ChosenIsInOrder(s, alnum);
    if Candidates(s, alnum) != [] {
      var w := LeftOutIsBlocked(s, alnum, Candidates(s, alnum)[0]);
    }
    NoneFromNone(Chosen(s, alnum), Candidates(s, alnum));
  }

  lemma NoneFromNone<T>(some: seq<T>, all: seq<T>)
    requires forall c :: c in some ==> c in all
    ensures all == [] ==> some == []
  {
    if some != [] {
      var c := some[0];
      assert c in some;
    }
  }

  // ----- how an emission ends

  function Last(u: string): char
    requires u != ""
  {
    u[|u| - 1]
  }

  predicate CopyOf(d: char, c: char) {
    d == c || (IsLower(c) && d == Upper(c))
  }

  /** After a character that is no blank, the emission ends with it or with its capital. */
  lemma {:induction false} EndsWithLast(s: string, n: nat)
    requires 0 < n <= |s| && !IsHorizontal(s[n - 1])
    ensures EmitTo(s, n) != "" && CopyOf(Last(EmitTo(s, n)), s[n - 1])
  {
    hide Capitals;
    hide LongRun;
    hide IsCollapsible;
    if MarkTail(s, n - 1) {
      EndsWithLast(s, n - 1);
    }
  }

  /** What is left of a run of blanks that begins at a. */
  function Blanks(s: string, a: nat, n: nat): string
    requires a < n <= |s|
  {
    if Dropped(s, a) then "" else if LongRun(s, a) then " " else s[a..n]
  }

  lemma BlankEmits(s: string, k: nat)
    requires k < |s| && IsHorizontal(s[k])
    ensures Emitted(s, k) == if Dropped(s, k) then "" else if !LongRun(s, k) then [s[k]]
                             else if RunStart(s, k) == k then " " else ""
  {
    hide Dropped;
    hide LongRun;
    Classes(s[k]);
    if Capitals(s, k) != [] {
      CapitalShape(s, k);
    }
    hide Capitals;
    hide IsHorizontal;
    hide IsCollapsible;
  }

  lemma RunGrows(s: string, a: nat, n: nat)
    requires a < n <= |s|
    ensures (if n - 1 > a then s[a..n - 1] else "") + [s[n - 1]] == s[a..n]
  {
  }

  lemma BlanksGrow(s: string, a: nat, n: nat)
    requires a < n <= |s| && RunStart(s, n) == a
    ensures (if n - 1 > a then Blanks(s, a, n - 1) else "") + Emitted(s, n - 1) == Blanks(s, a, n)
  {
    hide IsHorizontal;
    hide Emitted;
    hide Dropped;
    hide LongRun;
    hide RunStart;
    hide RunEnd;
    SameRun(s, a, n - 1);
    RunStartIs(s, a, a);
    RunStartIs(s, a, n - 1);
    BlankEmits(s, n - 1);
    RunGrows(s, a, n);
    if Dropped(s, a) {
      assert Blanks(s, a, n) == "";
    } else if LongRun(s, a) {
      assert Blanks(s, a, n) == " ";
    } else {
      assert Blanks(s, a, n) == s[a..n];
    }
  }

  lemma {:induction false} RunIsEmitted(s: string, a: nat, n: nat)
    requires a < n <= |s| && RunStart(s, n) == a
    ensures EmitTo(s, n) == EmitTo(s, a) + Blanks(s, a, n)
  {
    hide IsHorizontal;
    hide Blanks;
    hide Emitted;
    BlanksGrow(s, a, n);
    if n - 1 > a {
      RunStartIs(s, a, n - 1);
      RunIsEmitted(s, a, n - 1);
      ConcatAssociates(EmitTo(s, a), Blanks(s, a, n - 1), Emitted(s, n - 1));
    } else {
      assert "" + Emitted(s, a) == Emitted(s, a);
    }
  }

  lemma {:induction false} EmissionGrows(s: string, i: nat, n: nat)
    requires i <= n <= |s|
    ensures EmitTo(s, i) <= EmitTo(s, n)
  {
    hide Emitted;
    if i < n {
      EmissionGrows(s, i, n - 1);
    }
  }

  // ----- what the emission never holds

  /** The run of blanks that ends at j opens a line. */
  predicate OpensLine(u: string, j: nat)
    requires j <= |u|
  {
    RunStart(u, j) > 0 && u[RunStart(u, j) - 1] == '\n'
  }

  ghost predicate Tidy(u: string) {
    && (u != "" ==> !IsHorizontal(u[0]))
    && (forall j :: 0 < j < |u| && IsPunctuation(u[j]) ==> !IsHorizontal(u[j - 1]))
    && (forall j :: 0 < j < |u| && IsHorizontal(u[j]) && IsHorizontal(u[j - 1]) ==> OpensLine(u, j))
  }

  lemma {:induction false} RunStartOfPrefix(u: string, v: string, j: nat)
    requires u <= v && j <= |u|
    ensures RunStart(u, j) == RunStart(v, j)
  {
    if j > 0 {
      RunStartOfPrefix(u, v, j - 1);
    }
  }

  lemma TidyGrows(u: string, c: char)
    requires Tidy(u) && (u == "" ==> !IsHorizontal(c))
    requires u != "" && IsHorizontal(Last(u)) ==> !IsPunctuation(c)
    requires u != "" && IsHorizontal(Last(u)) && IsHorizontal(c) ==> OpensLine(u, |u|)
    ensures Tidy(u + [c])
  {
    hide IsHorizontal;
    hide IsPunctuation;
    hide RunStart;
    var v := u + [c];
    forall j | 0 < j < |v| && IsHorizontal(v[j]) && IsHorizontal(v[j - 1]) ensures OpensLine(v, j) {
      RunStartOfPrefix(u, v, j);
      if j < |u| {
        assert OpensLine(u, j);
      }
    }
  }

  // ----- the emission is tidy

  lemma CopyClasses(d: char, c: char)
    requires CopyOf(d, c)
    ensures IsHorizontal(d) == IsHorizontal(c) && IsPunctuation(d) == IsPunctuation(c)
    ensures IsCollapsible(d) == IsCollapsible(c) && (IsCollapsible(d) ==> d == c) && (d == '\n') == (c == '\n')
    ensures Utf8.IsWhitespace(d) == Utf8.IsWhitespace(c)
  {
    Classes(c);
    if d != c {
      Classes(d);
    }
  }

  /** What a run of blanks that ends at n leaves behind the character before it. */
  lemma AfterBlanks(s: string, n: nat)
    requires 0 < n <= |s| && IsHorizontal(s[n - 1])
    ensures var a := RunStart(s, n);
            && a < n && EmitTo(s, n) == EmitTo(s, a) + Blanks(s, a, n) && RunStart(s, a) == a
            && (a == 0 ==> EmitTo(s, n) == "")
            && (a > 0 ==> EmitTo(s, a) != "" && CopyOf(Last(EmitTo(s, a)), s[a - 1]) && !IsHorizontal(s[a - 1]))
  {
    hide IsHorizontal;
    hide Emitted;
    hide LongRun;
    hide IsPunctuation;
    var a := RunStart(s, n);
    RunIsEmitted(s, a, n);
    RunStartIs(s, a, a);
    if a > 0 {
      EndsWithLast(s, a);
    }
  }

  lemma DroppedBefore(s: string, a: nat, k: nat)
    requires a < k < |s| && RunStart(s, k) == a && !IsHorizontal(s[k])
    ensures Dropped(s, a) <==> a == 0 || IsPunctuation(s[k])
  {
    hide IsPunctuation;
    hide IsHorizontal;
    RunEndIs(s, a, k);
    RunStartIs(s, a, a);
  }

  lemma BeforeMark(s: string, k: nat)
    requires k < |s| && !IsHorizontal(s[k])
    ensures EmitTo(s, k) != "" && IsHorizontal(Last(EmitTo(s, k))) ==> !IsPunctuation(s[k])
  {
    hide IsHorizontal;
    hide IsPunctuation;
    hide IsCollapsible;
    hide Utf8.IsWhitespace;
    hide EmitTo;
    hide Dropped;
    hide LongRun;
    hide RunStart;
    hide CopyOf;
    var u := EmitTo(s, k);
    if k > 0 && IsHorizontal(s[k - 1]) {
      AfterBlanks(s, k);
      var a := RunStart(s, k);
      DroppedBefore(s, a, k);
      if a > 0 && IsPunctuation(s[k]) {
        assert EmitTo(s, a) + "" == EmitTo(s, a);
        CopyClasses(Last(u), s[a - 1]);
      }
    } else if k > 0 {
      EndsWithLast(s, k);
      CopyClasses(Last(u), s[k - 1]);
    } else {
      NothingEmitted(s);
    }
  }

  lemma NothingEmitted(s: string)
    ensures EmitTo(s, 0) == ""
  {
  }

  /** A mark or letter goes after no blank that it would have removed. */
  lemma TidyMark(s: string, k: nat, c: char)
    requires k < |s| && !IsHorizontal(s[k]) && Tidy(EmitTo(s, k)) && CopyOf(c, s[k])
    ensures Tidy(EmitTo(s, k) + [c])
  {
    hide *;
    CopyClasses(c, s[k]);
    BeforeMark(s, k);
    TidyGrows(EmitTo(s, k), c);
  }

  /** A kept blank stands alone or opens a line. */
  lemma TidyBlank(s: string, k: nat)
    requires k < |s| && IsHorizontal(s[k]) && Tidy(EmitTo(s, k))
    ensures Tidy(EmitTo(s, k) + Emitted(s, k))
  {
    hide IsHorizontal;
    hide IsPunctuation;
    hide Emitted;
    hide Dropped;
    hide RunStart;
    hide RunEnd;
    hide Tidy;
    BlankEmits(s, k);
    Classes(s[k]);
    Classes(' ');
    var u := EmitTo(s, k);
    if Emitted(s, k) == "" {
      assert u + "" == u;
    } else if k > 0 && IsHorizontal(s[k - 1]) {
      TidyInRun(s, k);
    } else {
      FirstOfRun(s, k);
      TidyGrows(u, Emitted(s, k)[0]);
    }
  }

  lemma FirstOfRun(s: string, k: nat)
    requires k < |s| && IsHorizontal(s[k]) && Emitted(s, k) != "" && (k > 0 ==> !IsHorizontal(s[k - 1]))
    ensures EmitTo(s, k) != "" && !IsHorizontal(Last(EmitTo(s, k)))
  {
    hide IsHorizontal;
    hide LongRun;
    hide Capitals;
    BlankEmits(s, k);
    RunStartIs(s, k, k);
    EndsWithLast(s, k);
    CopyClasses(Last(EmitTo(s, k)), s[k - 1]);
  }

  lemma TidyInRun(s: string, k: nat)
    requires 0 < k < |s| && IsHorizontal(s[k]) && IsHorizontal(s[k - 1]) && Emitted(s, k) != "" && Tidy(EmitTo(s, k))
    ensures Tidy(EmitTo(s, k) + Emitted(s, k))
  {
    hide IsHorizontal;
    hide IsPunctuation;
    hide Emitted;
    hide Tidy;
    hide Capitals;
    BlankEmits(s, k);
    AfterBlanks(s, k);
    var a, u := RunStart(s, k), EmitTo(s, k);
    SameRun(s, a, k);
    CopyClasses(Last(EmitTo(s, a)), s[a - 1]);
    Classes(s[k]);
    InnerRunOpensLine(s, a, k);
    TidyGrows(u, s[k]);
  }

  lemma InnerRunOpensLine(s: string, a: nat, k: nat)
    requires 0 < a < k < |s| && RunStart(s, k) == a && !Dropped(s, a) && !LongRun(s, a) && IsHorizontal(s[k])
    requires EmitTo(s, a) != "" && CopyOf(Last(EmitTo(s, a)), s[a - 1])
    requires EmitTo(s, k) == EmitTo(s, a) + Blanks(s, a, k)
    ensures OpensLine(EmitTo(s, k), |EmitTo(s, k)|)
  {
    hide IsHorizontal;
    hide IsPunctuation;
    hide Dropped;
    hide EmitTo;
    RunStartIs(s, a, a);
    SameRun(s, a, k);
    Classes('\n');
    var u, at := EmitTo(s, k), |EmitTo(s, a)|;
    assert s[a - 1] == '\n' && u[at - 1] == '\n';
    forall i | at <= i < |u| ensures IsHorizontal(u[i]) {
      assert u[i] == s[a..k][i - at];
    }
    RunStartIs(u, at, |u|);
  }

  lemma LetterEmits(s: string, k: nat)
    requires k < |s| && !IsHorizontal(s[k])
    ensures MarkTail(s, k) ==> Emitted(s, k) == ""
    ensures !MarkTail(s, k) ==> |Emitted(s, k)| == 1 && CopyOf(Emitted(s, k)[0], s[k])
    ensures !MarkTail(s, k) && Capitals(s, k) == [] ==> Emitted(s, k) == [s[k]]
    ensures Capitals(s, k) != [] ==> IsLower(s[k]) && Emitted(s, k) == [Upper(s[k])]
  {
    Classes(s[k]);
    if Capitals(s, k) != [] {
      CapitalShape(s, k);
    }
    hide Capitals;
    hide IsHorizontal;
    hide IsCollapsible;
  }

  lemma {:induction false} EmissionIsTidy(s: string, n: nat)
    requires n <= |s|
    ensures Tidy(EmitTo(s, n))
  {
    hide Tidy;
    hide IsHorizontal;
    hide Emitted;
    hide CopyOf;
    if n == 0 {
      TidyNothing();
    } else {
      EmissionIsTidy(s, n - 1);
      if IsHorizontal(s[n - 1]) {
        TidyBlank(s, n - 1);
      } else {
        LetterEmits(s, n - 1);
        var u, e := EmitTo(s, n - 1), Emitted(s, n - 1);
        if MarkTail(s, n - 1) {
          assert u + "" == u;
        } else {
          TidyMark(s, n - 1, e[0]);
          assert e == [e[0]];
        }
      }
    }
  }

  lemma TidyNothing()
    ensures Tidy("")
  {
  }

  // ----- marks that meet

  /** Removing the blanks before mark p puts it right after an equal one. */
  predicate JoinsAt(s: string, p: nat)
    requires p < |s|
  {
    IsCollapsible(s[p]) && 0 < RunStart(s, p) < p && s[RunStart(s, p) - 1] == s[p]
  }

  predicate JoinsMarks(s: string, n: nat)
    requires n <= |s|
  {
    exists p :: 0 <= p < n && JoinsAt(s, p)
  }

  predicate HasTail(u: string) {
    exists j :: 0 <= j < |u| && MarkTail(u, j)
  }

  lemma HasTailGrows(u: string, c: char)
    ensures HasTail(u + [c]) <==> HasTail(u) || (u != "" && Last(u) == c && IsCollapsible(c))
  {
    hide IsCollapsible;
    var v := u + [c];
    if HasTail(u) {
      var j :| 0 <= j < |u| && MarkTail(u, j);
      assert MarkTail(v, j);
    }
    if u != "" && Last(u) == c && IsCollapsible(c) {
      assert MarkTail(v, |u|);
    }
    if HasTail(v) {
      var j :| 0 <= j < |v| && MarkTail(v, j);
      assert j < |u| ==> MarkTail(u, j);
    }
  }

  lemma MeetsOnlyByJoin(s: string, k: nat, c: char)
    requires k < |s| && !IsHorizontal(s[k]) && !MarkTail(s, k) && CopyOf(c, s[k])
    ensures EmitTo(s, k) != "" && Last(EmitTo(s, k)) == c && IsCollapsible(c) <==> JoinsAt(s, k)
  {
    hide IsHorizontal;
    hide IsPunctuation;
    hide IsCollapsible;
    hide Utf8.IsWhitespace;
    hide EmitTo;
    hide Dropped;
    hide LongRun;
    hide CopyOf;
    hide RunEnd;
    var u := EmitTo(s, k);
    CopyClasses(c, s[k]);
    Classes(s[k]);
    if k > 0 && IsHorizontal(s[k - 1]) {
      AfterBlanks(s, k);
      var a := RunStart(s, k);
      DroppedBefore(s, a, k);
      if a > 0 && IsCollapsible(s[k]) {
        assert EmitTo(s, a) + "" == EmitTo(s, a);
        CopyClasses(Last(u), s[a - 1]);
      }
    } else if k > 0 {
      EndsWithLast(s, k);
      CopyClasses(Last(u), s[k - 1]);
      RunStartIs(s, k, k);
    } else {
      NothingEmitted(s);
    }
  }

  lemma BlankJoinsNothing(s: string, k: nat)
    requires k < |s| && IsHorizontal(s[k])
    ensures !JoinsAt(s, k) && HasTail(EmitTo(s, k) + Emitted(s, k)) == HasTail(EmitTo(s, k))
  {
    hide IsHorizontal;
    hide Emitted;
    hide HasTail;
    hide Dropped;
    hide LongRun;
    Classes(s[k]);
    Classes(' ');
    BlankEmits(s, k);
    var u, e := EmitTo(s, k), Emitted(s, k);
    if e == "" {
      assert u + "" == u;
    } else {
      HasTailGrows(u, e[0]);
      assert e == [e[0]];
    }
  }

  lemma MarkJoins(s: string, k: nat)
    requires k < |s| && !IsHorizontal(s[k])
    ensures HasTail(EmitTo(s, k) + Emitted(s, k)) <==> HasTail(EmitTo(s, k)) || JoinsAt(s, k)
  {
    hide IsHorizontal;
    hide IsCollapsible;
    hide Emitted;
    hide HasTail;
    hide Capitals;
    var u, e := EmitTo(s, k), Emitted(s, k);
    LetterEmits(s, k);
    if MarkTail(s, k) {
      assert u + "" == u;
      RunStartIs(s, k, k);
      Classes(s[k]);
    } else {
      HasTailGrows(u, e[0]);
      MeetsOnlyByJoin(s, k, e[0]);
      assert e == [e[0]];
    }
  }

  /** Equal marks stand next to each other in the emission exactly when a removed blank joined them. */
  lemma {:induction false} TailsAreJoins(s: string, n: nat)
    requires n <= |s|
    ensures HasTail(EmitTo(s, n)) <==> JoinsMarks(s, n)
  {
    hide IsHorizontal;
    hide JoinsAt;
    hide Emitted;
    if n > 0 {
      hide HasTail;
      TailsAreJoins(s, n - 1);
      if IsHorizontal(s[n - 1]) {
        BlankJoinsNothing(s, n - 1);
      } else {
        MarkJoins(s, n - 1);
      }
    }
  }

  // ----- what the scanners find

  lemma {:induction false} NoTailNoCollapse(u: string, n: nat)
    requires n <= |u| && !HasTail(u)
    ensures CollapseSpec(u, n) == []
  {
    if n > 0 {
      NoTailNoCollapse(u, n - 1);
      var tail := MarkTail(u, n - 1);
    }
  }

  /** The run that a tail belongs to is a candidate. */
  lemma TailCollapses(u: string, j: nat)
    requires j < |u| && MarkTail(u, j)
    ensures CollapseSpec(u, |u|) != []
  {
    var a, b := SameStart(u, j + 1), SameEnd(u, j + 1);
    SameStartMaximal(u, j + 1);
    SameStartIs(u, a, b);
    var c := Candidate(a, b, [u[b - 1]], RepeatedPunctuation);
    assert CollapseAt(u, b) == [c];
    CollapseKnown(u, |u|, c);
  }

  lemma CollapseIffTail(u: string)
    ensures CollapseSpec(u, |u|) == [] <==> !HasTail(u)
  {
    hide MarkTail;
    hide CollapseSpec;
    if HasTail(u) {
      var j :| 0 <= j < |u| && MarkTail(u, j);
      TailCollapses(u, j);
    } else {
      NoTailNoCollapse(u, |u|);
    }
  }

  lemma {:induction false} TidyNoSpacing(u: string, n: nat)
    requires n <= |u| && Tidy(u)
    ensures SpacingSpec(u, n) == []
  {
    hide IsHorizontal;
    hide IsPunctuation;
    if n > 0 {
      TidyNoSpacing(u, n - 1);
    }
  }

  lemma {:induction false} TidyNoBlanks(u: string, n: nat)
    requires n <= |u| && Tidy(u)
    ensures BlanksSpec(u, n) == []
  {
    hide IsHorizontal;
    hide IsPunctuation;
    if n > 0 {
      TidyNoBlanks(u, n - 1);
      var a := RunStart(u, n - 1);
      if n - 1 - a > 1 {
        assert IsHorizontal(u[n - 2]) && IsHorizontal(u[n - 3]);
        assert OpensLine(u, n - 2);
      }
    }
  }

  lemma TidyNoOuter(u: string)
    requires Tidy(u) && (u != "" ==> !IsHorizontal(Last(u)))
    ensures OuterSpec(u) == []
  {
  }

  lemma EmissionEndsVisible(s: string)
    ensures EmitTo(s, |s|) != "" ==> !IsHorizontal(Last(EmitTo(s, |s|)))
  {
    hide IsHorizontal;
    hide IsPunctuation;
    hide IsCollapsible;
    hide Utf8.IsWhitespace;
    hide LongRun;
    hide CopyOf;
    var t := EmitTo(s, |s|);
    if s != "" && IsHorizontal(s[|s| - 1]) {
      AfterBlanks(s, |s|);
      var a := RunStart(s, |s|);
      RunEndIs(s, a, |s|);
      if a > 0 {
        assert EmitTo(s, a) + "" == EmitTo(s, a);
        CopyClasses(Last(t), s[a - 1]);
      }
    } else if s != "" {
      EndsWithLast(s, |s|);
      CopyClasses(Last(t), s[|s| - 1]);
    }
  }

  /** A second pass finds no blank to remove, and a mark to remove exactly when the first pass joined two. */
  lemma SecondPassFinds(s: string, alnum: char -> bool)
    requires WordsSpec(s, alnum) == []
    ensures var t := Check(s, alnum).suggested;
            && OuterSpec(t) == [] && SpacingSpec(t, |t|) == [] && BlanksSpec(t, |t|) == []
            && (CollapseSpec(t, |t|) == [] <==> !JoinsMarks(s, |s|))
  {
    hide *;
    SuggestionIsEmission(s, alnum);
    var t := EmitTo(s, |s|);
    EmissionIsTidy(s, |s|);
    EmissionEndsVisible(s);
    TidyNoOuter(t);
    TidyNoSpacing(t, |t|);
    TidyNoBlanks(t, |t|);
    CollapseIffTail(t);
    TailsAreJoins(s, |s|);
  }

  /** When a second pass changes nothing. */
  lemma StableWhen(s: string, alnum: char -> bool)
    requires WordsSpec(s, alnum) == []
    ensures var t := Check(s, alnum).suggested;
            Check(t, alnum).suggested == t <==>
              !JoinsMarks(s, |s|) && WordsSpec(t, alnum) == [] && SentenceSpec(t) == []
  {
    hide *;
    var t := Check(s, alnum).suggested;
    SecondPassFinds(s, alnum);
    CleanIsFixed(t, alnum);
    CleanIsNoCandidate(t, alnum);
    CandidatesAreParts(t, alnum);
  }

  lemma CandidatesAreParts(s: string, alnum: char -> bool)
    ensures Candidates(s, alnum) == [] <==>
              OuterSpec(s) == [] && WordsSpec(s, alnum) == [] && SpacingSpec(s, |s|) == []
              && CollapseSpec(s, |s|) == [] && BlanksSpec(s, |s|) == [] && SentenceSpec(s) == []
  {
    hide OuterSpec;
    hide WordsSpec;
    hide SpacingSpec;
    hide CollapseSpec;
    hide BlanksSpec;
    hide SentenceSpec;
  }

  /** Whatever else the text holds, joined marks are removed by a second pass only. */
  lemma JoinedMarksAreNotStable(s: string, alnum: char -> bool)
    requires WordsSpec(s, alnum) == [] && JoinsMarks(s, |s|)
    ensures Check(Check(s, alnum).suggested, alnum).suggested != Check(s, alnum).suggested
  {
    hide *;
    StableWhen(s, alnum);
  }
}
