/** The tokens of a text by their contents, read in one pass: what the address
    and word rules see of a text, whatever its positions. */
module CleanupTokens {
  import opened Base
  import opened CleanupRules
  import Utf8

  /** A token and whether a newline stands between it and the one before. */
  datatype Lexeme = Lexeme(newline: bool, text: string)

  /** The finished tokens, the one under way, and the newline before it. */
  datatype Lexer = Lexer(done: seq<Lexeme>, word: string, newline: bool)

  function Take(l: Lexer, c: char): Lexer {
    if !Utf8.IsWhitespace(c) then l.(word := l.word + [c])
    else if l.word != "" then Lexer(l.done + [Lexeme(l.newline, l.word)], "", c == '\n')
    else l.(newline := l.newline || c == '\n')
  }

  function Lex(u: string, n: nat): Lexer
    requires n <= |u|
  {
    if n == 0 then Lexer([], "", false) else Take(Lex(u, n - 1), u[n - 1])
  }

  function Finish(l: Lexer): seq<Lexeme> {
    l.done + if l.word != "" then [Lexeme(l.newline, l.word)] else []
  }

  function Lexemes(u: string): seq<Lexeme> {
    Finish(Lex(u, |u|))
  }

  lemma {:induction false} LexOfPrefix(u: string, v: string, n: nat)
    requires u <= v && n <= |u|
    ensures Lex(u, n) == Lex(v, n)
  {
    hide Take;
    if n > 0 {
      LexOfPrefix(u, v, n - 1);
    }
  }

  lemma LexMore(u: string, c: char)
    ensures Lex(u + [c], |u| + 1) == Take(Lex(u, |u|), c)
  {
    hide Take;
    LexOfPrefix(u, u + [c], |u|);
  }

  lemma {:induction false} LexWord(u: string, n: nat)
    requires n <= |u|
    ensures Lex(u, n).word == "" <==> n == 0 || Utf8.IsWhitespace(u[n - 1])
    ensures Lex(u, n).word != "" ==> Lex(u, n).word[|Lex(u, n).word| - 1] == u[n - 1]
  {
    hide Utf8.IsWhitespace;
    if n > 0 {
      LexWord(u, n - 1);
    }
  }

  // ----- the lexer reads the tokens of the scan

  predicate Reads(u: string, spans: seq<Span>, ls: seq<Lexeme>) {
    && |spans| == |ls|
    && (forall k :: 0 <= k < |ls| ==> spans[k].start <= spans[k].end <= |u|
                                      && ls[k].text == u[spans[k].start..spans[k].end])
    && (forall k :: 0 < k < |ls| ==> spans[k - 1].end <= spans[k].start
                                     && ls[k].newline == ('\n' in u[spans[k - 1].end..spans[k].start]))
  }

  /** The tokens that ended before n. */
  function Ended(u: string, n: nat): seq<Span>
    requires n <= |u|
  {
    if n == 0 then [] else TokenSpec(u, n - 1)
  }

  predicate Follows(u: string, n: nat)
    requires n <= |u|
  {
    var spans, l, start := Ended(u, n), Lex(u, n), TokenStart(u, n);
    && Reads(u, spans, l.done) && LastEnd(spans) <= start
    && l.word == u[start..n] && l.newline == ('\n' in u[LastEnd(spans)..start])
  }

  lemma ReadsMore(u: string, spans: seq<Span>, ls: seq<Lexeme>, t: Span, newline: bool)
    requires Reads(u, spans, ls) && LastEnd(spans) <= t.start <= t.end <= |u|
    requires newline == ('\n' in u[LastEnd(spans)..t.start])
    ensures Reads(u, spans + [t], ls + [Lexeme(newline, u[t.start..t.end])])
  {
    var more, read := spans + [t], ls + [Lexeme(newline, u[t.start..t.end])];
    forall k | 0 < k < |read|
      ensures more[k - 1].end <= more[k].start && read[k].newline == ('\n' in u[more[k - 1].end..more[k].start]) {
      if k == |ls| {
        assert more[k - 1] == spans[|spans| - 1];
      } else {
        assert more[k - 1] == spans[k - 1] && more[k] == spans[k] && read[k] == ls[k];
      }
    }
  }

  lemma StepIsTake(u: string, n: nat)
    requires n < |u|
    ensures Lex(u, n + 1) == Take(Lex(u, n), u[n])
    ensures Ended(u, n + 1) == Ended(u, n) + if TokenEnds(u, n) then [Span(TokenStart(u, n), n)] else []
    ensures TokenEnds(u, n) <==> Utf8.IsWhitespace(u[n]) && TokenStart(u, n) < n
    ensures TokenStart(u, n + 1) == if Utf8.IsWhitespace(u[n]) then n + 1 else TokenStart(u, n)
  {
    hide Utf8.IsWhitespace;
  }

  lemma FollowsStep(u: string, n: nat)
    requires n < |u| && Follows(u, n)
    ensures Follows(u, n + 1)
  {
    hide Utf8.IsWhitespace;
    hide Reads;
    hide Lex;
    hide Ended;
    hide TokenStart;
    hide TokenEnds;
    var spans, l, start := Ended(u, n), Lex(u, n), TokenStart(u, n);
    StepIsTake(u, n);
    assert spans + [] == spans;
    if !Utf8.IsWhitespace(u[n]) {
      assert u[start..n + 1] == u[start..n] + [u[n]];
    } else if start < n {
      ReadsMore(u, spans, l.done, Span(start, n), l.newline);
      assert u[n..n + 1] == [u[n]] && u[n + 1..n + 1] == [];
    } else {
      assert u[LastEnd(spans)..n + 1] == u[LastEnd(spans)..n] + [u[n]] && u[n + 1..n + 1] == [];
    }
  }

  lemma {:induction false} LexFollows(u: string, n: nat)
    requires n <= |u|
    ensures Follows(u, n)
  {
    hide Follows;
    if n > 0 {
      LexFollows(u, n - 1);
      FollowsStep(u, n - 1);
    } else {
      FollowsNothing(u);
    }
  }

  lemma FollowsNothing(u: string)
    ensures Follows(u, 0)
  {
  }

  lemma LexemesRead(u: string)
    ensures Reads(u, Tokens(u), Lexemes(u))
  {
    hide Utf8.IsWhitespace;
    hide Reads;
    hide Lex;
    var n := |u|;
    LexFollows(u, n);
    var spans, l, start := Ended(u, n), Lex(u, n), TokenStart(u, n);
    if start < n {
      ReadsMore(u, spans, l.done, Span(start, n), l.newline);
    } else {
      assert l.done + [] == l.done && spans + [] == spans;
    }
  }

  // ----- addresses

  lemma {:induction false} SpansGrow(u: string, n: nat, m: nat)
    requires n <= m <= |u|
    ensures TokenSpec(u, n) <= TokenSpec(u, m)
  {
    hide TokenEnds;
    if n < m {
      SpansGrow(u, n, m - 1);
    }
  }

  lemma {:induction false} StartStays(u: string, i: nat, n: nat)
    requires i <= n <= |u| && forall k :: i <= k < n ==> !Utf8.IsWhitespace(u[k])
    ensures TokenStart(u, n) == TokenStart(u, i)
  {
    hide Utf8.IsWhitespace;
    if i < n {
      StartStays(u, i, n - 1);
    }
  }

  /** The first whitespace from i on, or the end. */
  function TokenStop(u: string, i: nat): (j: nat)
    requires i <= |u|
    ensures i <= j <= |u| && forall k :: i <= k < j ==> !Utf8.IsWhitespace(u[k])
    ensures j < |u| ==> Utf8.IsWhitespace(u[j])
    decreases |u| - i
  {
    if i < |u| && !Utf8.IsWhitespace(u[i]) then TokenStop(u, i + 1) else i
  }

  lemma {:induction false} NoTokenEnds(u: string, i: nat, n: nat)
    requires i <= n <= |u| && forall k :: i <= k < n ==> !Utf8.IsWhitespace(u[k])
    ensures Ended(u, n) == Ended(u, i)
  {
    hide Utf8.IsWhitespace;
    if i < n {
      NoTokenEnds(u, i, n - 1);
      StepIsTake(u, n - 1);
      hide Ended;
      assert Ended(u, i) + [] == Ended(u, i);
    }
  }

  /** The token at character i comes after those that ended before it. */
  lemma TokenAt(u: string, i: nat)
    requires i < |u| && !Utf8.IsWhitespace(u[i])
    ensures |Ended(u, i)| < |Tokens(u)|
    ensures Tokens(u)[|Ended(u, i)|].start <= i < Tokens(u)[|Ended(u, i)|].end
  {
    hide Utf8.IsWhitespace;
    var n := TokenStop(u, i);
    NoTokenEnds(u, i, n);
    StartStays(u, i, n);
    SpansGrow(u, n, |u|);
    EndsAfter(u, n);
  }

  lemma EndsAfter(u: string, n: nat)
    requires 0 < n <= |u| && TokenEnds(u, n)
    ensures TokenSpec(u, n) == Ended(u, n) + [Span(TokenStart(u, n), n)]
  {
  }

  lemma {:induction false} TokensOrdered(u: string, spans: seq<Span>, i: nat, j: nat)
    requires CutsText(u, spans, |u|) && i < j < |spans|
    ensures spans[i].end <= spans[j].start
    decreases j - i
  {
    hide Utf8.IsWhitespace;
    assert AllWhitespace(u, spans[j - 1].end, spans[j - 1 + 1].start);
    if i < j - 1 {
      TokensOrdered(u, spans, i, j - 1);
      assert IsToken(u, spans[j - 1]);
    }
  }

  /** The number of tokens before character i. */
  function Before(u: string, i: nat): nat
    requires i <= |u|
  {
    |Lex(u, i).done|
  }

  lemma ProtectedByLexeme(u: string, i: nat)
    requires i < |u| && CutsText(u, Tokens(u), |u|) && !Utf8.IsWhitespace(u[i])
    ensures Before(u, i) < |Lexemes(u)|
    ensures Protected(u, Tokens(u), i) <==> IsAddress(Lexemes(u)[Before(u, i)].text)
  {
    hide Utf8.IsWhitespace;
    hide IsAddress;
    hide Tokens;
    hide Lexemes;
    hide Lex;
    var at := |Ended(u, i)|;
    LexFollows(u, i);
    LexemesRead(u);
    TokenAt(u, i);
    hide Ended;
    forall k: nat | k < |Tokens(u)| && k != at ensures !(Tokens(u)[k].start <= i < Tokens(u)[k].end) {
      if k < at {
        TokensOrdered(u, Tokens(u), k, at);
      } else {
        TokensOrdered(u, Tokens(u), at, k);
      }
    }
  }

  lemma BlankIsUnprotected(u: string, i: nat)
    requires i < |u| && CutsText(u, Tokens(u), |u|) && Utf8.IsWhitespace(u[i])
    ensures !Protected(u, Tokens(u), i)
  {
    hide Utf8.IsWhitespace;
    hide IsAddress;
    hide Tokens;
  }

  // ----- words

  function TrimFrom(x: string): nat {
    TrimLeft(x, 0, |x|)
  }

  /** The token without its surrounding punctuation. */
  function Trimmed(x: string): string {
    x[TrimFrom(x)..TrimRight(x, TrimFrom(x), |x|)]
  }

  predicate HasWord(x: string, alnum: char -> bool) {
    exists k :: 0 <= k < |Trimmed(x)| && alnum(Trimmed(x)[k])
  }

  predicate RepeatsWord(previous: Lexeme, current: Lexeme, alnum: char -> bool) {
    && HasWord(previous.text, alnum) && HasWord(current.text, alnum)
    && EqualIgnoreAsciiCase(Trimmed(previous.text), Trimmed(current.text))
    && !current.newline && TrimFrom(current.text) == 0
  }

  lemma {:induction false} TrimLeftShifts(s: string, a: nat, b: nat, i: nat)
    requires a <= i <= b <= |s|
    ensures TrimLeft(s[a..b], i - a, b - a) + a == TrimLeft(s, i, b)
    decreases b - i
  {
    hide IsPunctuation;
    if i < b {
      assert s[a..b][i - a] == s[i];
      TrimLeftShifts(s, a, b, i + 1);
    }
  }

  lemma {:induction false} TrimRightShifts(s: string, a: nat, b: nat, i: nat, j: nat)
    requires a <= i <= j <= b <= |s|
    ensures TrimRight(s[a..b], i - a, j - a) + a == TrimRight(s, i, j)
  {
    hide IsPunctuation;
    if i < j {
      assert s[a..b][j - 1 - a] == s[j - 1];
      TrimRightShifts(s, a, b, i, j - 1);
    }
  }

  lemma TrimmedOfSpan(s: string, t: Span)
    requires IsToken(s, t)
    ensures var i := TrimLeft(s, t.start, t.end);
            && Trimmed(s[t.start..t.end]) == s[i..TrimRight(s, i, t.end)]
            && TrimFrom(s[t.start..t.end]) == i - t.start
  {
    hide IsPunctuation;
    hide Utf8.IsWhitespace;
    hide TrimLeft;
    hide TrimRight;
    var i := TrimLeft(s, t.start, t.end);
    TrimLeftShifts(s, t.start, t.end, t.start);
    TrimRightShifts(s, t.start, t.end, i, t.end);
    SliceOfSlice(s, t.start, t.end, i, TrimRight(s, i, t.end));
  }

  /** The word of a token, by the token's content. */
  lemma WordByText(s: string, t: Span, alnum: char -> bool)
    requires IsToken(s, t)
    ensures NormalizedWord(s, t, alnum).Some? <==> HasWord(s[t.start..t.end], alnum)
    ensures NormalizedWord(s, t, alnum).Some? ==>
              var w := NormalizedWord(s, t, alnum).value;
              s[w.start..w.end] == Trimmed(s[t.start..t.end])
              && (w.start == t.start <==> TrimFrom(s[t.start..t.end]) == 0)
  {
    hide IsPunctuation;
    hide Utf8.IsWhitespace;
    hide Trimmed;
    hide TrimFrom;
    TrimmedOfSpan(s, t);
    var i := TrimLeft(s, t.start, t.end);
    var j := TrimRight(s, i, t.end);
    SliceOfSlice(s, t.start, t.end, i, j);
    assert OccursAt(s[t.start..t.end], s[i..j], i - t.start);
    if NormalizedWord(s, t, alnum).Some? {
      WordStartsClean(s, t, alnum);
    }
  }

  lemma RepeatByText(s: string, p: Span, c: Span, alnum: char -> bool, previous: Lexeme, current: Lexeme)
    requires IsToken(s, p) && IsToken(s, c) && p.end <= c.start
    requires previous.text == s[p.start..p.end] && current.text == s[c.start..c.end]
    requires current.newline == ('\n' in s[p.end..c.start])
    ensures RepeatAt(s, p, c, alnum) == [] <==> !RepeatsWord(previous, current, alnum)
  {
    hide NormalizedWord;
    hide IsToken;
    hide HasWord;
    hide Trimmed;
    hide TrimFrom;
    hide EqualIgnoreAsciiCase;
    WordByText(s, p, alnum);
    WordByText(s, c, alnum);
  }

  predicate NoRepeats(ls: seq<Lexeme>, n: nat, alnum: char -> bool)
    requires n <= |ls|
  {
    forall k :: 0 < k < n ==> !RepeatsWord(ls[k - 1], ls[k], alnum)
  }

  lemma {:induction false} RepeatsByText(s: string, tokens: seq<Span>, ls: seq<Lexeme>, n: nat, alnum: char -> bool)
    requires CutsText(s, tokens, |s|) && Reads(s, tokens, ls) && n <= |tokens|
    ensures RepeatSpec(s, tokens, n, alnum) == [] <==> NoRepeats(ls, n, alnum)
  {
    hide RepeatAt;
    hide RepeatsWord;
    hide IsToken;
    if n > 1 {
      RepeatsByText(s, tokens, ls, n - 1, alnum);
      assert AllWhitespace(s, tokens[n - 2].end, tokens[n - 2 + 1].start);
      RepeatByText(s, tokens[n - 2], tokens[n - 1], alnum, ls[n - 2], ls[n - 1]);
    }
  }

  /** The repeated-word rule sees the contents of the tokens only. */
  lemma WordsByText(s: string, alnum: char -> bool)
    ensures WordsSpec(s, alnum) == [] <==> NoRepeats(Lexemes(s), |Lexemes(s)|, alnum)
  {
    hide Tokens;
    hide Lexemes;
    hide NoRepeats;
    hide CutsText;
    hide Reads;
    TokensCut(s);
    LexemesRead(s);
    RepeatsByText(s, Tokens(s), Lexemes(s), |Tokens(s)|, alnum);
    SameCount(s, Tokens(s), Lexemes(s));
  }

  lemma SameCount(u: string, spans: seq<Span>, ls: seq<Lexeme>)
    requires Reads(u, spans, ls)
    ensures |spans| == |ls|
  {
  }
}
