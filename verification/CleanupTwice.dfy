/** Cleanup is not idempotent, in the three ways `CleanupStable` leaves open: removing a blank can join two marks,
    collapsing marks can begin a sentence, and it can make two neighbouring words equal. */
module CleanupTwice {
  import opened Base
  import opened CleanupRules
  import opened Cleanup
  import opened CleanupSafe
  import opened CleanupEmission
  import opened CleanupSecondPass
  import opened CleanupTokens
  import opened CleanupStable
  import Utf8

  // ----- one token, no address

  lemma {:induction false} OneToken(u: string, n: nat)
    requires n <= |u| && forall k :: 0 <= k < |u| ==> !Utf8.IsWhitespace(u[k])
    ensures Lex(u, n).done == []
  {
    hide Utf8.IsWhitespace;
    if n > 0 {
      OneToken(u, n - 1);
    }
  }

  lemma OneTokenRepeatsNothing(u: string, alnum: char -> bool)
    requires forall k :: 0 <= k < |u| ==> !Utf8.IsWhitespace(u[k])
    ensures WordsSpec(u, alnum) == []
  {
    hide WordsSpec;
    hide Utf8.IsWhitespace;
    OneToken(u, |u|);
    WordsByText(u, alnum);
  }

  predicate Plain(u: string) {
    forall k :: 0 <= k < |u| ==> u[k] != '@' && u[k] != '/' && u[k] != 'w'
  }

  lemma OccursHolds(x: string, needle: string, k: nat, i: nat)
    requires OccursAt(x, needle, k) && i < |needle|
    ensures x[k + i] == needle[i]
  {
    assert x[k..k + |needle|][i] == x[k + i];
  }

  lemma PlainIsNoAddress(x: string)
    requires Plain(x)
    ensures !IsAddress(x)
  {
    if FindFrom(x, "://", 0).Some? {
      OccursHolds(x, "://", FindFrom(x, "://", 0).value, 1);
    }
    if OccursAt(x, "www.", 0) {
      OccursHolds(x, "www.", 0, 0);
    }
  }

  lemma PlainIsOpen(s: string, i: nat)
    requires i < |s| && Plain(s)
    ensures !Guarded(s, i)
  {
    hide IsAddress;
    hide Tokens;
    hide Utf8.IsWhitespace;
    TokensCut(s);
    forall k | 0 <= k < |Tokens(s)| ensures !IsAddress(s[Tokens(s)[k].start..Tokens(s)[k].end]) {
      PlainIsNoAddress(s[Tokens(s)[k].start..Tokens(s)[k].end]);
    }
  }

  lemma PlainStarts(s: string, i: nat)
    requires i < |s| && Plain(s)
    ensures Starts(s, i + 1) == After(Starts(s, i), s[i], false)
    ensures Capitals(s, i) != [] <==> IsLower(s[i]) && Starts(s, i)
  {
    hide *;
    PlainIsOpen(s, i);
    StartsAfter(s, i);
    CapitalsAre(s, i);
  }

  // ----- a removed blank joins marks

  lemma MarksHaveNoWord(s: string, alnum: char -> bool)
    requires forall k :: 0 <= k < |s| ==> IsPunctuation(s[k]) || IsHorizontal(s[k])
    ensures WordsSpec(s, alnum) == []
  {
    RulesOfWords(s, alnum);
    hide WordsSpec;
    hide Utf8.IsWhitespace;
    hide IsPunctuation;
    hide IsHorizontal;
    if WordsSpec(s, alnum) != [] {
      var c := WordsSpec(s, alnum)[0];
      var m: nat :| c.start <= m < c.end <= |s| && !Utf8.IsWhitespace(s[m]) && !IsPunctuation(s[m]);
      HorizontalIsWhitespace(s[m]);
    }
  }

  lemma ApartIsJoined()
    ensures EmitTo("! !", 3) == "!!"
  {
    hide Capitals;
    var s := "! !";
    assert RunStart(s, 1) == 1 && RunEnd(s, 1) == 2;
    MarkEmits(s, 0);
    BlankEmits(s, 1);
    MarkEmits(s, 2);
    hide Emitted;
    assert EmitTo(s, 1) == "!" && EmitTo(s, 2) == "!";
  }

  lemma JoinedIsOne()
    ensures EmitTo("!!", 2) == "!"
  {
    hide Capitals;
    var s := "!!";
    MarkEmits(s, 0);
    LetterEmits(s, 1);
    hide Emitted;
    assert EmitTo(s, 1) == "!";
  }

  lemma MarkEmits(s: string, k: nat)
    requires k < |s| && IsPunctuation(s[k]) && !MarkTail(s, k)
    ensures Emitted(s, k) == [s[k]]
  {
    hide Capitals;
    Classes(s[k]);
    LetterEmits(s, k);
  }

  /** "! !" becomes "!!", which becomes "!". */
  lemma JoinedMarksCollapseLater(alnum: char -> bool)
    ensures Check("! !", alnum).suggested == "!!"
    ensures Check("!!", alnum).suggested == "!"
  {
    hide Check;
    hide WordsSpec;
    hide EmitTo;
    MarksHaveNoWord("! !", alnum);
    MarksHaveNoWord("!!", alnum);
    SuggestionIsEmission("! !", alnum);
    SuggestionIsEmission("!!", alnum);
    ApartIsJoined();
    JoinedIsOne();
  }

  // ----- collapsed marks begin a sentence

  lemma EvenMarksEmit()
    ensures EmitTo("a!!b", 4) == "A!b"
  {
    hide Capitals;
    hide Starts;
    var s := "a!!b";
    AllStart(s, s);
    PlainStarts(s, 0);
    PlainStarts(s, 1);
    PlainStarts(s, 2);
    PlainStarts(s, 3);
    LetterEmits(s, 0);
    MarkEmits(s, 1);
    assert !Starts(s, 1) && Starts(s, 2) && !Starts(s, 3);
    LetterEmits(s, 2);
    LetterEmits(s, 3);
    hide Emitted;
    hide After;
    assert EmitTo(s, 1) == "A" && EmitTo(s, 2) == "A!" && EmitTo(s, 3) == "A!";
  }

  lemma OneMarkEmits()
    ensures EmitTo("A!b", 3) == "A!B"
  {
    hide Capitals;
    hide Starts;
    var s := "A!b";
    AllStart(s, s);
    PlainStarts(s, 0);
    PlainStarts(s, 1);
    PlainStarts(s, 2);
    LetterEmits(s, 0);
    MarkEmits(s, 1);
    assert !Starts(s, 1) && Starts(s, 2);
    LetterEmits(s, 2);
    hide Emitted;
    hide After;
    assert EmitTo(s, 1) == "A" && EmitTo(s, 2) == "A!" && EmitTo(s, 3) == EmitTo(s, 2) + "B";
  }

  /** "a!!b" becomes "A!b", which becomes "A!B". */
  lemma CollapsedMarksBeginSentence(alnum: char -> bool)
    ensures Check("a!!b", alnum).suggested == "A!b"
    ensures Check("A!b", alnum).suggested == "A!B"
  {
    hide Check;
    hide WordsSpec;
    hide EmitTo;
    OneTokenRepeatsNothing("a!!b", alnum);
    OneTokenRepeatsNothing("A!b", alnum);
    SuggestionIsEmission("a!!b", alnum);
    SuggestionIsEmission("A!b", alnum);
    EvenMarksEmit();
    OneMarkEmits();
  }

  // ----- collapsed marks make words equal

  lemma {:induction false} LexPlain(u: string, n: nat, m: nat)
    requires n <= m <= |u| && forall k :: n <= k < m ==> !Utf8.IsWhitespace(u[k])
    ensures Lex(u, m) == Lex(u, n).(word := Lex(u, n).word + u[n..m])
  {
    hide Utf8.IsWhitespace;
    if n < m {
      LexPlain(u, n, m - 1);
      assert u[n..m] == u[n..m - 1] + [u[m - 1]];
    } else {
      assert Lex(u, n).word + [] == Lex(u, n).word;
    }
  }

  lemma SecondToken(l: Lexer, x: string)
    requires l == Lexer([], x, false) && x != ""
    ensures Take(l, ' ') == Lexer([Lexeme(false, x)], "", false)
  {
    assert [] + [Lexeme(false, x)] == [Lexeme(false, x)];
  }

  lemma TwoTokens(u: string, n: nat)
    requires 0 < n < |u| - 1 && u[n] == ' ' && forall k :: 0 <= k < |u| && k != n ==> !Utf8.IsWhitespace(u[k])
    ensures Lexemes(u) == [Lexeme(false, u[..n]), Lexeme(false, u[n + 1..])]
  {
    hide Take;
    hide Lex;
    hide Utf8.IsWhitespace;
    LexPlain(u, 0, n);
    LexPlain(u, n + 1, |u|);
    assert u[0..n] == u[..n] && u[n + 1..|u|] == u[n + 1..];
    LexNothing(u);
    assert "" + u[..n] == u[..n] && "" + u[n + 1..] == u[n + 1..];
    StepIsTake(u, n);
    SecondToken(Lex(u, n), u[..n]);
  }

  lemma LexNothing(u: string)
    ensures Lex(u, 0) == Lexer([], "", false)
  {
  }

  lemma PairRepeats(p: Lexeme, c: Lexeme, alnum: char -> bool)
    ensures NoRepeats([p, c], 2, alnum) <==> !RepeatsWord(p, c, alnum)
  {
    hide RepeatsWord;
    var ls := [p, c];
    assert ls[0] == p && ls[1] == c;
    assert NoRepeats(ls, 2, alnum) ==> !RepeatsWord(ls[1 - 1], ls[1], alnum);
  }

  lemma TwoWords(u: string, n: nat, alnum: char -> bool)
    requires 0 < n < |u| - 1 && u[n] == ' ' && forall k :: 0 <= k < |u| && k != n ==> !Utf8.IsWhitespace(u[k])
    requires forall k :: k == 0 || k == n - 1 || k == n + 1 || k == |u| - 1 ==> !IsPunctuation(u[k])
    requires alnum(u[0]) && alnum(u[n + 1])
    ensures WordsSpec(u, alnum) == [] <==> !EqualIgnoreAsciiCase(u[..n], u[n + 1..])
  {
    hide WordsSpec;
    hide Lexemes;
    hide RepeatsWord;
    hide NoRepeats;
    hide IsPunctuation;
    hide Utf8.IsWhitespace;
    hide HasWord;
    hide Trimmed;
    hide TrimFrom;
    hide EqualIgnoreAsciiCase;
    TwoTokens(u, n);
    WordsByText(u, alnum);
    PairRepeats(Lexeme(false, u[..n]), Lexeme(false, u[n + 1..]), alnum);
    WholeWord(u[..n], alnum);
    WholeWord(u[n + 1..], alnum);
    WholeRepeats(u[..n], u[n + 1..], alnum);
  }

  lemma WholeRepeats(x: string, y: string, alnum: char -> bool)
    requires HasWord(x, alnum) && HasWord(y, alnum) && Trimmed(x) == x && Trimmed(y) == y && TrimFrom(y) == 0
    ensures RepeatsWord(Lexeme(false, x), Lexeme(false, y), alnum) <==> EqualIgnoreAsciiCase(x, y)
  {
  }

  lemma CommasMakeWordsEqual(alnum: char -> bool)
    requires alnum('a')
    ensures WordsSpec("a,,b a,b", alnum) == [] && WordsSpec(Once("a,,b a,b"), alnum) != []
  {
    hide WordsSpec;
    hide Once;
    CommasOnce();
    TwoWords("a,,b a,b", 4, alnum);
    TwoWords("a,b a,b", 3, alnum);
    assert "a,b a,b"[..3] == "a,b a,b"[3 + 1..] == "a,b";
  }

  lemma CommasOnce()
    ensures Once("a,,b a,b") == "a,b a,b"
  {
    var s := "a,,b a,b";
    assert OnceTo(s, 1) == "a" && OnceTo(s, 2) == "a," && OnceTo(s, 3) == "a," && OnceTo(s, 4) == "a,b";
    assert OnceTo(s, 5) == "a,b " && OnceTo(s, 6) == "a,b a" && OnceTo(s, 7) == "a,b a,";
  }

  lemma WholeWord(x: string, alnum: char -> bool)
    requires x != "" && !IsPunctuation(x[0]) && !IsPunctuation(Last(x)) && alnum(x[0])
    ensures TrimFrom(x) == 0 && Trimmed(x) == x && HasWord(x, alnum)
  {
    assert x[0..|x|] == x;
  }

  /** "a,,b a,b" repeats no word, and its suggestion does. */
  lemma CollapsedMarksRepeatWords(alnum: char -> bool)
    requires alnum('a') && CaseBlind(alnum)
    ensures WordsSpec("a,,b a,b", alnum) == []
    ensures Check(Check("a,,b a,b", alnum).suggested, alnum).suggested != Check("a,,b a,b", alnum).suggested
  {
    hide *;
    CommasMakeWordsEqual(alnum);
    NoBlankBeforeCommas();
    StableExactly("a,,b a,b", alnum);
  }

  lemma CommasAreTidy()
    ensures Tidy("a,,b a,b")
  {
    hide OpensLine;
  }

  lemma NoBlankBeforeCommas()
    ensures SpacingSpec("a,,b a,b", |"a,,b a,b"|) == []
  {
    var s := "a,,b a,b";
    CommasAreTidy();
    hide Tidy;
    TidyNoSpacing(s, |s|);
  }
}
