/** When a second cleanup changes nothing, decided on the text before the first:
    for a text without repeated words and without blanks before punctuation. */
module CleanupStable {
  import opened Base
  import opened CleanupRules
  import opened Cleanup
  import opened CleanupSafe
  import opened CleanupEmission
  import opened CleanupSecondPass
  import opened CleanupTokens
  import Utf8

  // ----- the text with single marks

  function Single(s: string, i: nat): string
    requires i < |s|
  {
    if MarkTail(s, i) then "" else [s[i]]
  }

  function OnceTo(s: string, n: nat): string
    requires n <= |s|
  {
    if n == 0 then "" else OnceTo(s, n - 1) + Single(s, n - 1)
  }

  /** Every run of a repeated mark as one mark. */
  function Once(s: string): string {
    OnceTo(s, |s|)
  }

  lemma {:induction false} OnceOfPrefix(u: string, v: string, n: nat)
    requires u <= v && n <= |u|
    ensures OnceTo(u, n) == OnceTo(v, n)
  {
    hide IsCollapsible;
    if n > 0 {
      OnceOfPrefix(u, v, n - 1);
    }
  }

  predicate Repeats(x: string, c: char) {
    x != "" && Last(x) == c && IsCollapsible(c)
  }

  lemma OnceMore(x: string, c: char)
    ensures Once(x + [c]) == if Repeats(x, c) then Once(x) else Once(x) + [c]
  {
    hide IsCollapsible;
    OnceOfPrefix(x, x + [c], |x|);
    assert Once(x) + "" == Once(x);
  }

  lemma {:induction false} OnceEnds(x: string, n: nat)
    requires 0 < n <= |x|
    ensures OnceTo(x, n) != "" && Last(OnceTo(x, n)) == x[n - 1]
  {
    hide IsCollapsible;
    if MarkTail(x, n - 1) {
      OnceEnds(x, n - 1);
    }
  }

  lemma {:induction false} OnceOfSingle(s: string, n: nat)
    requires n <= |s| && !HasTail(s)
    ensures OnceTo(s, n) == s[..n]
  {
    hide MarkTail;
    if n > 0 {
      OnceOfSingle(s, n - 1);
      assert !MarkTail(s, n - 1);
      assert s[..n] == s[..n - 1] + [s[n - 1]];
    }
  }

  // ----- addresses do not depend on repeated marks

  ghost predicate Holds(x: string, needle: string) {
    exists k: nat :: OccursAt(x, needle, k)
  }

  predicate EndsIn(x: string, p: string) {
    |p| <= |x| && x[|x| - |p|..] == p
  }

  lemma EndsInMore(x: string, c: char, p: string, d: char)
    ensures EndsIn(x + [c], p + [d]) <==> EndsIn(x, p) && c == d
  {
    if |p| <= |x| {
      assert (x + [c])[|x| - |p|..] == x[|x| - |p|..] + [c];
      if EndsIn(x + [c], p + [d]) {
        assert x[|x| - |p|..] == (x[|x| - |p|..] + [c])[..|p|] == (p + [d])[..|p|] == p;
        assert c == (x[|x| - |p|..] + [c])[|p|] == (p + [d])[|p|] == d;
      }
    }
  }

  lemma HoldsMore(x: string, c: char, needle: string)
    requires needle != ""
    ensures Holds(x + [c], needle) <==> Holds(x, needle) || EndsIn(x + [c], needle)
  {
    var v := x + [c];
    if Holds(x, needle) {
      var k: nat :| OccursAt(x, needle, k);
      assert v[k..k + |needle|] == x[k..k + |needle|];
      assert OccursAt(v, needle, k);
    }
    if EndsIn(v, needle) {
      assert OccursAt(v, needle, |v| - |needle|);
    }
    if Holds(v, needle) {
      var k: nat :| OccursAt(v, needle, k);
      if k + |needle| <= |x| {
        assert v[k..k + |needle|] == x[k..k + |needle|];
        assert OccursAt(x, needle, k);
      } else {
        assert v[k..k + |needle|] == v[|v| - |needle|..];
      }
    }
  }

  lemma FindIsHolds(x: string, needle: string)
    ensures FindFrom(x, needle, 0).Some? <==> Holds(x, needle)
  {
    hide OccursAt;
    if FindFrom(x, needle, 0).Some? {
      assert OccursAt(x, needle, FindFrom(x, needle, 0).value);
    }
  }

  ghost predicate SameScheme(x: string, y: string) {
    && (Holds(y, "://") <==> Holds(x, "://")) && ('@' in y <==> '@' in x)
    && (EndsIn(y, ":/") <==> EndsIn(x, ":/")) && (EndsIn(y, ":") <==> EndsIn(x, ":"))
  }

  lemma SchemeMore(x: string, y: string, c: char)
    requires SameScheme(x, y)
    ensures SameScheme(x + [c], y + [c])
  {
    hide Holds;
    hide EndsIn;
    EndsInMore(x, c, "", ':');
    EndsInMore(y, c, "", ':');
    assert EndsIn(x, "") && EndsIn(y, "") by {
      NothingEnds(x);
      NothingEnds(y);
    }
    EndsInMore(x, c, ":", '/');
    EndsInMore(y, c, ":", '/');
    EndsInMore(x, c, ":/", '/');
    EndsInMore(y, c, ":/", '/');
    HoldsMore(x, c, "://");
    HoldsMore(y, c, "://");
    assert "" + [':'] == ":" && ":" + ['/'] == ":/" && ":/" + ['/'] == "://";
  }

  lemma NothingEnds(x: string)
    ensures EndsIn(x, "")
  {
    assert x[|x| - 0..] == "";
  }

  lemma EndsInLast(x: string, p: string, d: char)
    requires EndsIn(x, p + [d])
    ensures x != "" && Last(x) == d
  {
    assert x[|x| - |p + [d]|..][|p|] == (p + [d])[|p|] == d;
  }

  lemma SchemeRepeats(x: string, y: string, c: char)
    requires SameScheme(x, y) && Repeats(x, c)
    ensures SameScheme(x + [c], y)
  {
    hide Holds;
    hide EndsIn;
    EndsInMore(x, c, "", ':');
    NothingEnds(x);
    EndsInMore(x, c, ":", '/');
    EndsInMore(x, c, ":/", '/');
    HoldsMore(x, c, "://");
    assert "" + [':'] == ":" && ":" + ['/'] == ":/" && ":/" + ['/'] == "://";
    LastEnds(x, ':');
    if EndsIn(x, ":/") {
      EndsInLast(x, ":", '/');
    }
  }

  lemma LastEnds(x: string, c: char)
    ensures EndsIn(x, [c]) <==> x != "" && Last(x) == c
  {
    if x != "" {
      assert x[|x| - 1..] == [Last(x)];
    }
  }

  lemma {:induction false} OnceKeepsScheme(x: string)
    ensures SameScheme(x, Once(x))
  {
    hide SameScheme;
    if x == "" {
      SchemeOfItself(x);
    } else {
      var n := |x| - 1;
      OnceKeepsScheme(x[..n]);
      assert x == x[..n] + [x[n]];
      OnceMore(x[..n], x[n]);
      if Repeats(x[..n], x[n]) {
        SchemeRepeats(x[..n], Once(x[..n]), x[n]);
      } else {
        SchemeMore(x[..n], Once(x[..n]), x[n]);
      }
    }
  }

  lemma SchemeOfItself(x: string)
    ensures SameScheme(x, x)
  {
  }

  lemma {:induction false} OnceGrows(x: string, i: nat, n: nat)
    requires i <= n <= |x|
    ensures OnceTo(x, i) <= OnceTo(x, n)
  {
    if i < n {
      OnceGrows(x, i, n - 1);
    }
  }

  lemma {:induction false} PlainIsKept(x: string, k: nat)
    requires k <= |x| && forall i :: 0 <= i < k ==> !IsCollapsible(x[i])
    ensures OnceTo(x, k) == x[..k]
  {
    hide IsCollapsible;
    if k > 0 {
      PlainIsKept(x, k - 1);
      assert x[..k] == x[..k - 1] + [x[k - 1]];
    }
  }

  /** As far as the text goes without collapsible marks it is kept, with the character after. */
  lemma PlainPrefix(x: string, k: nat)
    requires k < |x| && forall i :: 0 <= i < k ==> !IsCollapsible(x[i])
    ensures x[..k + 1] <= Once(x)
  {
    hide IsCollapsible;
    PlainIsKept(x, k);
    OnceGrows(x, k + 1, |x|);
    assert x[..k + 1] == x[..k] + [x[k]];
  }

  lemma {:induction false} StartsPlain(x: string, p: string, k: nat)
    requires k <= |p| && p <= Once(x) && forall i :: 0 <= i < |p| ==> !IsCollapsible(p[i])
    ensures p[..k] <= x
  {
    hide IsCollapsible;
    if k > 0 {
      StartsPlain(x, p, k - 1);
      assert x[..k - 1] == p[..k - 1];
      forall i | 0 <= i < k - 1 ensures !IsCollapsible(x[i]) {
        assert x[i] == x[..k - 1][i] == p[i];
      }
      if |x| == k - 1 {
        PlainIsKept(x, k - 1);
      } else {
        PlainPrefix(x, k - 1);
        assert Once(x)[k - 1] == p[k - 1];
      }
    }
  }

  lemma OnceKeepsStart(x: string, p: string)
    requires p != "" && forall i :: 0 <= i < |p| ==> !IsCollapsible(p[i])
    ensures OccursAt(Once(x), p, 0) <==> OccursAt(x, p, 0)
  {
    hide IsCollapsible;
    var n := |p|;
    if OccursAt(x, p, 0) {
      assert x[0..n] == x[..n] == p;
      forall i | 0 <= i < n - 1 ensures !IsCollapsible(x[i]) {
        assert x[i] == p[i];
      }
      PlainPrefix(x, n - 1);
      assert Once(x)[0..n] == p;
    }
    if OccursAt(Once(x), p, 0) {
      assert Once(x)[..n] == Once(x)[0..n] == p;
      StartsPlain(x, p, n);
      assert p[..n] == p && x[0..n] == p;
    }
  }

  lemma OnceKeepsAddress(x: string)
    ensures IsAddress(Once(x)) <==> IsAddress(x)
  {
    hide Holds;
    hide OccursAt;
    hide EndsIn;
    OnceKeepsScheme(x);
    FindIsHolds(x, "://");
    FindIsHolds(Once(x), "://");
    OnceKeepsStart(x, "www.");
  }

  // ----- capital letters make no address

  /** The same text but for letters made capital. */
  predicate Recased(y: string, x: string) {
    |y| == |x| && forall i :: 0 <= i < |x| ==> CopyOf(y[i], x[i])
  }

  lemma RecasedOccurs(y: string, x: string, needle: string, k: nat)
    requires Recased(y, x) && OccursAt(y, needle, k) && forall i :: 0 <= i < |needle| ==> !('A' <= needle[i] <= 'Z')
    ensures OccursAt(x, needle, k)
  {
    forall i | 0 <= i < |needle| ensures x[k + i] == needle[i] {
      assert y[k + i] == y[k..k + |needle|][i] == needle[i];
    }
    assert x[k..k + |needle|] == needle;
  }

  lemma RecasedAddress(y: string, x: string)
    requires Recased(y, x) && IsAddress(y)
    ensures IsAddress(x)
  {
    hide CopyOf;
    hide OccursAt;
    FindIsHolds(y, "://");
    FindIsHolds(x, "://");
    if Holds(y, "://") {
      var k: nat :| OccursAt(y, "://", k);
      RecasedOccurs(y, x, "://", k);
    } else if '@' in y {
      RecasedAt(y, x);
    } else {
      RecasedOccurs(y, x, "www.", 0);
    }
  }

  lemma RecasedAt(y: string, x: string)
    requires Recased(y, x) && '@' in y
    ensures '@' in x
  {
    var i :| 0 <= i < |y| && y[i] == '@';
    assert CopyOf(y[i], x[i]);
    assert x[i] in x;
  }

  // ----- the tokens of the text with single marks

  ghost predicate OnceLexer(b: Lexer, a: Lexer) {
    && |b.done| == |a.done| && b.newline == a.newline && b.word == Once(a.word)
    && forall k :: 0 <= k < |a.done| ==> b.done[k] == Lexeme(a.done[k].newline, Once(a.done[k].text))
  }

  lemma OnceEmpty(x: string)
    ensures Once(x) == "" <==> x == ""
  {
    if x != "" {
      OnceEnds(x, |x|);
    }
  }

  lemma OnceTakes(b: Lexer, a: Lexer, c: char)
    requires OnceLexer(b, a)
    ensures Utf8.IsWhitespace(c) || !Repeats(a.word, c) ==> OnceLexer(Take(b, c), Take(a, c))
    ensures !Utf8.IsWhitespace(c) && Repeats(a.word, c) ==> OnceLexer(b, Take(a, c))
  {
    hide Utf8.IsWhitespace;
    hide Once;
    hide Repeats;
    OnceMore(a.word, c);
    OnceEmpty(a.word);
    OnceEmpty("");
    if Utf8.IsWhitespace(c) {
      var x, y := Take(a, c).done, Take(b, c).done;
      forall k | 0 <= k < |x| ensures y[k] == Lexeme(x[k].newline, Once(x[k].text)) {
        if k < |a.done| {
          assert x[k] == a.done[k] && y[k] == b.done[k];
        }
      }
    }
  }

  lemma {:induction false} OnceLexes(s: string, n: nat)
    requires n <= |s|
    ensures OnceLexer(Lex(OnceTo(s, n), |OnceTo(s, n)|), Lex(s, n))
  {
    hide Utf8.IsWhitespace;
    hide IsCollapsible;
    hide OnceLexer;
    hide Take;
    if n == 0 {
      OnceLexesNothing(s);
    } else {
      OnceLexes(s, n - 1);
      var u, c := OnceTo(s, n - 1), s[n - 1];
      OnceTakes(Lex(u, |u|), Lex(s, n - 1), c);
      LexMore(u, c);
      LexWord(s, n - 1);
      HorizontalIsWhitespace(c);
      Classes(c);
      if MarkTail(s, n - 1) {
        assert u + "" == u;
      }
    }
  }

  lemma OnceLexesNothing(s: string)
    ensures OnceLexer(Lex(OnceTo(s, 0), |OnceTo(s, 0)|), Lex(s, 0))
  {
  }

  // ----- the tokens of the emission

  ghost predicate RecasedLexeme(y: Lexeme, x: Lexeme, same: bool) {
    y.newline == x.newline && Recased(y.text, x.text) && (same ==> y.text == x.text)
  }

  ghost predicate AddressIn(all: seq<Lexeme>, k: nat) {
    k < |all| && IsAddress(all[k].text)
  }

  /** The same tokens but for capital letters, of which those that are addresses in `all` have none. */
  ghost predicate RecasedLexer(c: Lexer, b: Lexer, all: seq<Lexeme>) {
    && |c.done| == |b.done|
    && (forall k :: 0 <= k < |b.done| ==> RecasedLexeme(c.done[k], b.done[k], AddressIn(all, k)))
    && RecasedLexeme(Lexeme(c.newline, c.word), Lexeme(b.newline, b.word), AddressIn(all, |b.done|))
  }

  lemma LetterTakes(c: Lexer, b: Lexer, all: seq<Lexeme>, d: char, x: char)
    requires RecasedLexer(c, b, all) && CopyOf(d, x) && !Utf8.IsWhitespace(x)
    requires d == x || !AddressIn(all, |b.done|)
    ensures RecasedLexer(Take(c, d), Take(b, x), all)
  {
    CopyClasses(d, x);
    hide Utf8.IsWhitespace;
    hide AddressIn;
    hide CopyOf;
  }

  lemma SpaceTakes(c: Lexer, b: Lexer, all: seq<Lexeme>, d: char, x: char)
    requires RecasedLexer(c, b, all) && Utf8.IsWhitespace(x) && Utf8.IsWhitespace(d) && (d == '\n') == (x == '\n')
    ensures RecasedLexer(Take(c, d), Take(b, x), all)
  {
    hide Utf8.IsWhitespace;
    hide AddressIn;
    hide CopyOf;
    var b', c' := Take(b, x), Take(c, d);
    forall k | 0 <= k < |b'.done| ensures RecasedLexeme(c'.done[k], b'.done[k], AddressIn(all, k)) {
      if k < |b.done| {
        assert b'.done[k] == b.done[k] && c'.done[k] == c.done[k];
      }
    }
  }

  lemma BlankTakesNothing(b: Lexer, x: char)
    requires b.word == "" && IsHorizontal(x)
    ensures Take(b, x) == b
  {
  }

  /** A blank that is kept inside a text without blanks before punctuation. */
  lemma InnerBlankIsKept(s: string, k: nat)
    requires SpacingSpec(s, |s|) == [] && k < RunStart(s, |s|) && IsHorizontal(s[k])
    ensures Dropped(s, k) ==> RunStart(s, k) == 0
  {
    hide IsHorizontal;
    hide IsPunctuation;
    var e := RunEnd(s, k);
    SameRunStart(s, k, e);
    if Dropped(s, k) {
      if e < |s| && IsPunctuation(s[e]) {
        SpacingKnown(s, |s|, Candidate(RunStart(s, e), e, "", PunctuationSpacing));
      }
    }
  }

  lemma DroppedBlankFollowsBlank(s: string, k: nat)
    requires SpacingSpec(s, |s|) == [] && k < RunStart(s, |s|) && IsHorizontal(s[k]) && Emitted(s, k) == ""
    ensures Lex(OnceTo(s, k), |OnceTo(s, k)|).word == ""
  {
    hide IsHorizontal;
    hide LongRun;
    hide Capitals;
    hide Utf8.IsWhitespace;
    hide OnceTo;
    BlankEmits(s, k);
    InnerBlankIsKept(s, k);
    hide Dropped;
    var u := OnceTo(s, k);
    LexWord(u, |u|);
    if k > 0 {
      OnceEnds(s, k);
      HorizontalIsWhitespace(s[k - 1]);
    } else {
      OnceNothing(s);
    }
  }

  lemma OnceNothing(s: string)
    ensures OnceTo(s, 0) == ""
  {
  }

  lemma BlankIsSingle(s: string, k: nat)
    requires k < |s| && IsHorizontal(s[k])
    ensures OnceTo(s, k + 1) == OnceTo(s, k) + [s[k]]
  {
    Classes(s[k]);
    hide IsHorizontal;
    hide IsCollapsible;
  }

  /** A blank emits nothing or one blank. */
  lemma BlankStep(s: string, k: nat)
    requires k < |s| && IsHorizontal(s[k])
    ensures Emitted(s, k) == "" ==> EmitTo(s, k + 1) == EmitTo(s, k)
    ensures Emitted(s, k) != "" ==> |Emitted(s, k)| == 1 && EmitTo(s, k + 1) == EmitTo(s, k) + [Emitted(s, k)[0]]
    ensures Emitted(s, k) != "" ==> Utf8.IsWhitespace(Emitted(s, k)[0]) && Emitted(s, k)[0] != '\n'
    ensures Utf8.IsWhitespace(s[k]) && s[k] != '\n'
  {
    hide IsHorizontal;
    hide Utf8.IsWhitespace;
    hide Dropped;
    hide LongRun;
    hide RunStart;
    var e := Emitted(s, k);
    BlankEmits(s, k);
    hide Emitted;
    HorizontalIsWhitespace(s[k]);
    HorizontalIsWhitespace(' ');
    Classes(' ');
    if e == "" {
      assert EmitTo(s, k) + "" == EmitTo(s, k);
    } else {
      assert e == [e[0]];
    }
  }

  lemma BlankLexes(s: string, k: nat, all: seq<Lexeme>)
    requires SpacingSpec(s, |s|) == [] && k < RunStart(s, |s|) && IsHorizontal(s[k])
    requires RecasedLexer(Lex(EmitTo(s, k), |EmitTo(s, k)|), Lex(OnceTo(s, k), |OnceTo(s, k)|), all)
    ensures RecasedLexer(Lex(EmitTo(s, k + 1), |EmitTo(s, k + 1)|), Lex(OnceTo(s, k + 1), |OnceTo(s, k + 1)|), all)
  {
    hide *;
    var t, q, e := EmitTo(s, k), OnceTo(s, k), Emitted(s, k);
    BlankIsSingle(s, k);
    BlankStep(s, k);
    LexMore(q, s[k]);
    if e == "" {
      DroppedBlankFollowsBlank(s, k);
      BlankTakesNothing(Lex(q, |q|), s[k]);
    } else {
      LexMore(t, e[0]);
      SpaceTakes(Lex(t, |t|), Lex(q, |q|), all, e[0], s[k]);
    }
  }

  lemma CapitalIsNoAddress(s: string, k: nat)
    requires k < |s| && Capitals(s, k) != []
    ensures !AddressIn(Lexemes(s), |Lex(OnceTo(s, k), |OnceTo(s, k)|).done|)
  {
    hide BeginsSentence;
    hide IsAddress;
    hide Lex;
    hide Lexemes;
    hide Once;
    hide OnceTo;
    CapitalShape(s, k);
    Classes(s[k]);
    TokensCut(s);
    ProtectedByLexeme(s, k);
    hide Protected;
    OnceLexes(s, k);
  }

  lemma LetterLexes(s: string, k: nat, all: seq<Lexeme>)
    requires k < |s| && !IsHorizontal(s[k]) && all == Lexemes(s)
    requires RecasedLexer(Lex(EmitTo(s, k), |EmitTo(s, k)|), Lex(OnceTo(s, k), |OnceTo(s, k)|), all)
    ensures RecasedLexer(Lex(EmitTo(s, k + 1), |EmitTo(s, k + 1)|), Lex(OnceTo(s, k + 1), |OnceTo(s, k + 1)|), all)
  {
    hide RecasedLexer;
    hide Take;
    hide Lex;
    hide IsHorizontal;
    hide IsCollapsible;
    hide Utf8.IsWhitespace;
    hide Capitals;
    hide Emitted;
    hide AddressIn;
    hide Lexemes;
    hide CopyOf;
    var t, q, e := EmitTo(s, k), OnceTo(s, k), Emitted(s, k);
    LetterEmits(s, k);
    if MarkTail(s, k) {
      assert t + "" == t && q + "" == q;
    } else {
      CopyClasses(e[0], s[k]);
      LexMore(q, s[k]);
      LexMore(t, e[0]);
      assert e == [e[0]];
      if Utf8.IsWhitespace(s[k]) {
        SpaceTakes(Lex(t, |t|), Lex(q, |q|), all, e[0], s[k]);
      } else {
        if Capitals(s, k) != [] {
          CapitalIsNoAddress(s, k);
        }
        LetterTakes(Lex(t, |t|), Lex(q, |q|), all, e[0], s[k]);
      }
    }
  }

  lemma {:induction false} EmissionLexes(s: string, n: nat)
    requires SpacingSpec(s, |s|) == [] && n <= RunStart(s, |s|)
    ensures RecasedLexer(Lex(EmitTo(s, n), |EmitTo(s, n)|), Lex(OnceTo(s, n), |OnceTo(s, n)|), Lexemes(s))
  {
    hide *;
    if n > 0 {
      EmissionLexes(s, n - 1);
      if IsHorizontal(s[n - 1]) {
        BlankLexes(s, n - 1, Lexemes(s));
      } else {
        LetterLexes(s, n - 1, Lexemes(s));
      }
    } else {
      NothingLexes(s, Lexemes(s));
    }
  }

  lemma NothingLexes(s: string, all: seq<Lexeme>)
    ensures RecasedLexer(Lex(EmitTo(s, 0), |EmitTo(s, 0)|), Lex(OnceTo(s, 0), |OnceTo(s, 0)|), all)
  {
  }

  // ----- the end of the text

  lemma SpaceFinishesNothing(l: Lexer, c: char)
    requires Utf8.IsWhitespace(c)
    ensures Finish(Take(l, c)) == Finish(l)
  {
    hide Utf8.IsWhitespace;
  }

  lemma TrailingBlankFinishes(s: string, k: nat)
    requires RunStart(s, |s|) <= k < |s|
    ensures Finish(Lex(OnceTo(s, k + 1), |OnceTo(s, k + 1)|)) == Finish(Lex(OnceTo(s, k), |OnceTo(s, k)|))
  {
    hide IsHorizontal;
    hide IsCollapsible;
    hide Utf8.IsWhitespace;
    hide Finish;
    hide Lex;
    hide Take;
    hide RunStart;
    Classes(s[k]);
    HorizontalIsWhitespace(s[k]);
    var q := OnceTo(s, k);
    LexMore(q, s[k]);
    SpaceFinishesNothing(Lex(q, |q|), s[k]);
  }

  lemma TrailingBlankEmits(s: string, k: nat)
    requires RunStart(s, |s|) <= k < |s|
    ensures EmitTo(s, k + 1) == EmitTo(s, k)
  {
    hide IsHorizontal;
    hide IsPunctuation;
    hide LongRun;
    hide Emitted;
    hide RunStart;
    hide RunEnd;
    RunEndIs(s, k, |s|);
    BlankEmits(s, k);
    assert EmitTo(s, k) + "" == EmitTo(s, k);
  }

  lemma {:induction false} TrailingBlanksFinish(s: string, n: nat)
    requires RunStart(s, |s|) <= n <= |s|
    ensures Finish(Lex(OnceTo(s, n), |OnceTo(s, n)|))
            == Finish(Lex(OnceTo(s, RunStart(s, |s|)), |OnceTo(s, RunStart(s, |s|))|))
    ensures EmitTo(s, n) == EmitTo(s, RunStart(s, |s|))
  {
    hide *;
    if n > RunStart(s, |s|) {
      TrailingBlanksFinish(s, n - 1);
      TrailingBlankFinishes(s, n - 1);
      TrailingBlankEmits(s, n - 1);
    }
  }

  ghost predicate OnceLexemes(qs: seq<Lexeme>, fs: seq<Lexeme>) {
    |qs| == |fs| && forall k :: 0 <= k < |fs| ==> qs[k] == Lexeme(fs[k].newline, Once(fs[k].text))
  }

  ghost predicate RecasedLexemes(ts: seq<Lexeme>, qs: seq<Lexeme>, all: seq<Lexeme>) {
    |ts| == |qs| && forall k :: 0 <= k < |qs| ==> RecasedLexeme(ts[k], qs[k], AddressIn(all, k))
  }

  lemma FinishOnce(b: Lexer, a: Lexer)
    requires OnceLexer(b, a)
    ensures OnceLexemes(Finish(b), Finish(a))
  {
    hide Once;
    OnceEmpty(a.word);
    var x, y := Finish(a), Finish(b);
    forall k | 0 <= k < |x| ensures y[k] == Lexeme(x[k].newline, Once(x[k].text)) {
      if k < |a.done| {
        assert x[k] == a.done[k] && y[k] == b.done[k];
      }
    }
  }

  lemma FinishRecased(c: Lexer, b: Lexer, all: seq<Lexeme>)
    requires RecasedLexer(c, b, all)
    ensures RecasedLexemes(Finish(c), Finish(b), all)
  {
    hide AddressIn;
    hide CopyOf;
    var x, y := Finish(b), Finish(c);
    forall k | 0 <= k < |x| ensures RecasedLexeme(y[k], x[k], AddressIn(all, k)) {
      if k < |b.done| {
        assert x[k] == b.done[k] && y[k] == c.done[k];
      }
    }
  }

  lemma OnceKeepsLexemes(s: string)
    ensures OnceLexemes(Lexemes(Once(s)), Lexemes(s))
  {
    hide OnceLexer;
    hide OnceLexemes;
    hide Finish;
    OnceLexes(s, |s|);
    FinishOnce(Lex(Once(s), |Once(s)|), Lex(s, |s|));
  }

  /** The emission has the tokens of the text with single marks, but for capital letters outside addresses. */
  lemma EmissionKeepsLexemes(s: string)
    requires SpacingSpec(s, |s|) == []
    ensures RecasedLexemes(Lexemes(EmitTo(s, |s|)), Lexemes(Once(s)), Lexemes(s))
  {
    hide RecasedLexer;
    hide RecasedLexemes;
    hide Finish;
    hide SpacingSpec;
    hide EmitTo;
    hide OnceTo;
    hide RunStart;
    var m := RunStart(s, |s|);
    EmissionLexes(s, m);
    TrailingBlanksFinish(s, |s|);
    var t, q := EmitTo(s, m), OnceTo(s, m);
    FinishRecased(Lex(t, |t|), Lex(q, |q|), Lexemes(s));
  }

  lemma SameAddresses(s: string, k: nat)
    requires SpacingSpec(s, |s|) == [] && k < |Lexemes(s)|
    ensures k < |Lexemes(EmitTo(s, |s|))|
    ensures IsAddress(Lexemes(EmitTo(s, |s|))[k].text) <==> IsAddress(Lexemes(s)[k].text)
  {
    hide SpacingSpec;
    hide EmitTo;
    hide Lexemes;
    hide IsAddress;
    hide Recased;
    hide Once;
    OnceKeepsLexemes(s);
    EmissionKeepsLexemes(s);
    var t, x := Lexemes(EmitTo(s, |s|))[k].text, Lexemes(s)[k].text;
    OnceKeepsAddress(x);
    if IsAddress(t) {
      RecasedAddress(t, Once(x));
    }
  }

  // ----- words

  /** Capital letters are letters and digits as much as their small forms. */
  ghost predicate CaseBlind(alnum: char -> bool) {
    forall c :: IsLower(c) ==> alnum(Upper(c)) == alnum(c)
  }

  lemma {:induction false} RecasedTrimLeft(y: string, x: string, a: nat)
    requires Recased(y, x) && a <= |x|
    ensures TrimLeft(y, a, |y|) == TrimLeft(x, a, |x|)
    decreases |x| - a
  {
    hide IsPunctuation;
    hide CopyOf;
    if a < |x| {
      CopyClasses(y[a], x[a]);
      RecasedTrimLeft(y, x, a + 1);
    }
  }

  lemma {:induction false} RecasedTrimRight(y: string, x: string, a: nat, b: nat)
    requires Recased(y, x) && a <= b <= |x|
    ensures TrimRight(y, a, b) == TrimRight(x, a, b)
  {
    hide IsPunctuation;
    hide CopyOf;
    if a < b {
      CopyClasses(y[b - 1], x[b - 1]);
      RecasedTrimRight(y, x, a, b - 1);
    }
  }

  lemma RecasedTrims(y: string, x: string)
    requires Recased(y, x)
    ensures TrimFrom(y) == TrimFrom(x) && Recased(Trimmed(y), Trimmed(x))
  {
    hide IsPunctuation;
    hide CopyOf;
    RecasedTrimLeft(y, x, 0);
    RecasedTrimRight(y, x, TrimFrom(x), |x|);
  }

  lemma RecasedHasWord(y: string, x: string, alnum: char -> bool)
    requires Recased(y, x) && CaseBlind(alnum)
    ensures HasWord(y, alnum) <==> HasWord(x, alnum)
  {
    hide Trimmed;
    RecasedTrims(y, x);
    var v, u := Trimmed(y), Trimmed(x);
    forall k | 0 <= k < |u| ensures alnum(v[k]) == alnum(u[k]) {
      assert CopyOf(v[k], u[k]);
    }
  }

  lemma RecasedEqual(y: string, x: string, v: string, u: string)
    requires Recased(y, x) && Recased(v, u)
    ensures EqualIgnoreAsciiCase(y, v) <==> EqualIgnoreAsciiCase(x, u)
  {
    forall k | 0 <= k < |x| ensures Lower(y[k]) == Lower(x[k]) {
      assert CopyOf(y[k], x[k]);
    }
    forall k | 0 <= k < |u| ensures Lower(v[k]) == Lower(u[k]) {
      assert CopyOf(v[k], u[k]);
    }
    hide Lower;
    hide CopyOf;
  }

  lemma RecasedRepeats(y: Lexeme, v: Lexeme, x: Lexeme, u: Lexeme, alnum: char -> bool)
    requires Recased(y.text, x.text) && Recased(v.text, u.text) && v.newline == u.newline && CaseBlind(alnum)
    ensures RepeatsWord(y, v, alnum) <==> RepeatsWord(x, u, alnum)
  {
    hide CaseBlind;
    hide Recased;
    hide HasWord;
    hide Trimmed;
    hide TrimFrom;
    hide EqualIgnoreAsciiCase;
    RecasedTrims(y.text, x.text);
    RecasedTrims(v.text, u.text);
    RecasedHasWord(y.text, x.text, alnum);
    RecasedHasWord(v.text, u.text, alnum);
    RecasedEqual(Trimmed(y.text), Trimmed(x.text), Trimmed(v.text), Trimmed(u.text));
  }

  /** The emission repeats a word exactly when the text with single marks does. */
  lemma SameWords(s: string, alnum: char -> bool)
    requires SpacingSpec(s, |s|) == [] && CaseBlind(alnum)
    ensures WordsSpec(EmitTo(s, |s|), alnum) == [] <==> WordsSpec(Once(s), alnum) == []
  {
    hide SpacingSpec;
    hide WordsSpec;
    hide EmitTo;
    hide Lexemes;
    hide Once;
    hide CaseBlind;
    hide AddressIn;
    hide Recased;
    hide RepeatsWord;
    EmissionKeepsLexemes(s);
    var t, q := EmitTo(s, |s|), Once(s);
    var ts, qs := Lexemes(t), Lexemes(q);
    WordsByText(t, alnum);
    WordsByText(q, alnum);
    forall k | 0 < k < |qs| ensures RepeatsWord(ts[k - 1], ts[k], alnum) <==> RepeatsWord(qs[k - 1], qs[k], alnum) {
      assert RecasedLexeme(ts[k - 1], qs[k - 1], AddressIn(Lexemes(s), k - 1));
      assert RecasedLexeme(ts[k], qs[k], AddressIn(Lexemes(s), k));
      RecasedRepeats(ts[k - 1], ts[k], qs[k - 1], qs[k], alnum);
    }
  }

  // ----- sentences

  predicate Guarded(s: string, i: nat)
    requires i < |s|
  {
    TokensCut(s);
    Protected(s, Tokens(s), i)
  }

  predicate Starts(s: string, i: nat)
    requires i <= |s|
  {
    TokensCut(s);
    BeginsSentence(s, Tokens(s), i)
  }

  /** Whether a sentence begins after c, by whether one began at c. */
  predicate After(starts: bool, c: char, guarded: bool) {
    !guarded && if starts then !IsLower(c) && (Utf8.IsWhitespace(c) || IsOpeningQuote(c)) else IsTerminator(c)
  }

  /** Whether character i would begin a sentence if every run of a repeated mark were one mark. */
  predicate StartsOnce(s: string, i: nat)
    requires i <= |s|
  {
    if i == 0 then true
    else if MarkTail(s, i - 1) then StartsOnce(s, i - 1)
    else After(StartsOnce(s, i - 1), s[i - 1], Guarded(s, i - 1))
  }

  /** Reading repeated marks as one mark begins no sentence at a small letter that did not begin one. */
  predicate SameSentences(s: string) {
    forall i :: 0 <= i < |s| && IsLower(s[i]) && !Guarded(s, i) && StartsOnce(s, i) ==> Starts(s, i)
  }

  lemma StartsAfter(s: string, i: nat)
    requires i < |s|
    ensures Starts(s, i + 1) == After(Starts(s, i), s[i], Guarded(s, i))
  {
    TokensCut(s);
    hide Protected;
    hide CutsText;
    hide Tokens;
  }

  lemma CapitalsAre(s: string, i: nat)
    requires i < |s|
    ensures Capitals(s, i) != [] <==> IsLower(s[i]) && !Guarded(s, i) && Starts(s, i)
  {
    TokensCut(s);
    hide Protected;
    hide CutsText;
    hide Tokens;
    hide BeginsSentence;
  }

  lemma AfterSpace(starts: bool, c: char)
    requires Utf8.IsWhitespace(c)
    ensures After(starts, c, false) == starts
  {
  }

  lemma AfterCopy(starts: bool, d: char, c: char, guarded: bool)
    requires CopyOf(d, c)
    ensures After(starts, d, guarded) == After(starts, c, guarded)
  {
  }

  lemma SpaceIsOpen(s: string, i: nat)
    requires i < |s| && Utf8.IsWhitespace(s[i])
    ensures !Guarded(s, i)
  {
    TokensCut(s);
    BlankIsUnprotected(s, i);
    hide Protected;
    hide Tokens;
    hide CutsText;
  }

  lemma GuardedByLexeme(u: string, i: nat)
    requires i < |u| && !Utf8.IsWhitespace(u[i])
    ensures Before(u, i) < |Lexemes(u)|
    ensures Guarded(u, i) <==> IsAddress(Lexemes(u)[Before(u, i)].text)
  {
    TokensCut(u);
    ProtectedByLexeme(u, i);
    hide Protected;
    hide Tokens;
    hide CutsText;
    hide Lexemes;
    hide Before;
    hide IsAddress;
  }

  /** What character k emits stands at this position of the emission. */
  lemma EmittedAt(s: string, k: nat)
    requires k < |s| && |Emitted(s, k)| == 1
    ensures |EmitTo(s, k)| < |EmitTo(s, |s|)| && EmitTo(s, |s|)[|EmitTo(s, k)|] == Emitted(s, k)[0]
    ensures |EmitTo(s, k + 1)| == |EmitTo(s, k)| + 1
  {
    hide Emitted;
    EmissionGrows(s, k + 1, |s|);
  }

  lemma SamePlace(s: string, k: nat)
    requires SpacingSpec(s, |s|) == [] && k < |s| && !IsHorizontal(s[k])
    ensures |EmitTo(s, k)| <= |EmitTo(s, |s|)|
    ensures Before(EmitTo(s, |s|), |EmitTo(s, k)|) == Before(s, k)
  {
    hide SpacingSpec;
    hide EmitTo;
    hide OnceTo;
    hide Lex;
    hide Lexemes;
    hide IsHorizontal;
    hide RecasedLexeme;
    hide Once;
    EmissionGrows(s, k, |s|);
    EmissionLexes(s, k);
    OnceLexes(s, k);
    LexOfPrefix(EmitTo(s, k), EmitTo(s, |s|), |EmitTo(s, k)|);
  }

  lemma SameGuard(s: string, k: nat)
    requires SpacingSpec(s, |s|) == [] && k < |s| && !Utf8.IsWhitespace(s[k])
    requires |Emitted(s, k)| == 1 && CopyOf(Emitted(s, k)[0], s[k])
    ensures |EmitTo(s, k)| < |EmitTo(s, |s|)|
    ensures Guarded(EmitTo(s, |s|), |EmitTo(s, k)|) == Guarded(s, k)
  {
    hide *;
    HorizontalIsWhitespace(s[k]);
    EmittedAt(s, k);
    CopyClasses(Emitted(s, k)[0], s[k]);
    SamePlace(s, k);
    GuardedByLexeme(s, k);
    GuardedByLexeme(EmitTo(s, |s|), |EmitTo(s, k)|);
    SameAddresses(s, Before(s, k));
  }

  lemma StartsOnceAfter(s: string, i: nat)
    requires i < |s|
    ensures StartsOnce(s, i + 1) == if MarkTail(s, i) then StartsOnce(s, i)
                                    else After(StartsOnce(s, i), s[i], Guarded(s, i))
  {
  }

  lemma BlankStarts(s: string, k: nat)
    requires k < |s| && IsHorizontal(s[k])
    requires |EmitTo(s, k)| <= |EmitTo(s, |s|)|
    requires Starts(EmitTo(s, |s|), |EmitTo(s, k)|) == StartsOnce(s, k)
    ensures |EmitTo(s, k + 1)| <= |EmitTo(s, |s|)|
    ensures Starts(EmitTo(s, |s|), |EmitTo(s, k + 1)|) == StartsOnce(s, k + 1)
  {
    hide *;
    var t, p, e := EmitTo(s, |s|), |EmitTo(s, k)|, Emitted(s, k);
    BlankStep(s, k);
    BlankIsNoTail(s, k);
    SpaceIsOpen(s, k);
    AfterSpace(StartsOnce(s, k), s[k]);
    StartsOnceAfter(s, k);
    EmissionGrows(s, k + 1, |s|);
    if e != "" {
      EmittedAt(s, k);
      SpaceIsOpen(t, p);
      AfterSpace(Starts(t, p), t[p]);
      StartsAfter(t, p);
    }
  }

  lemma BlankIsNoTail(s: string, k: nat)
    requires k < |s| && IsHorizontal(s[k])
    ensures !MarkTail(s, k)
  {
    Classes(s[k]);
  }

  lemma LetterStarts(s: string, k: nat)
    requires SpacingSpec(s, |s|) == [] && k < |s| && !IsHorizontal(s[k])
    requires |EmitTo(s, k)| <= |EmitTo(s, |s|)|
    requires Starts(EmitTo(s, |s|), |EmitTo(s, k)|) == StartsOnce(s, k)
    ensures |EmitTo(s, k + 1)| <= |EmitTo(s, |s|)|
    ensures Starts(EmitTo(s, |s|), |EmitTo(s, k + 1)|) == StartsOnce(s, k + 1)
  {
    hide Starts;
    hide StartsOnce;
    hide Guarded;
    hide After;
    hide IsHorizontal;
    hide MarkTail;
    hide Utf8.IsWhitespace;
    hide Capitals;
    hide CopyOf;
    hide SpacingSpec;
    hide Emitted;
    var t, p, e := EmitTo(s, |s|), |EmitTo(s, k)|, Emitted(s, k);
    LetterEmits(s, k);
    StartsOnceAfter(s, k);
    EmissionGrows(s, k + 1, |s|);
    if !MarkTail(s, k) {
      EmittedAt(s, k);
      hide EmitTo;
      CopyClasses(e[0], s[k]);
      if Utf8.IsWhitespace(s[k]) {
        SpaceIsOpen(s, k);
        SpaceIsOpen(t, p);
      } else {
        SameGuard(s, k);
      }
      StartsAfter(t, p);
      AfterCopy(Starts(t, p), t[p], s[k], Guarded(s, k));
    }
  }

  /** The emission begins its sentences where the text with single marks does. */
  lemma {:induction false} SentencesFollow(s: string, i: nat)
    requires SpacingSpec(s, |s|) == [] && i <= |s|
    ensures |EmitTo(s, i)| <= |EmitTo(s, |s|)|
    ensures Starts(EmitTo(s, |s|), |EmitTo(s, i)|) == StartsOnce(s, i)
  {
    hide *;
    if i > 0 {
      SentencesFollow(s, i - 1);
      if IsHorizontal(s[i - 1]) {
        BlankStarts(s, i - 1);
      } else {
        LetterStarts(s, i - 1);
      }
    } else {
      NothingEmitted(s);
      AllStart(s, EmitTo(s, |s|));
    }
  }

  lemma AllStart(s: string, t: string)
    ensures StartsOnce(s, 0) && Starts(t, 0)
  {
  }

  lemma EmitsAtMostOne(s: string, k: nat)
    requires k < |s|
    ensures |Emitted(s, k)| <= 1
    ensures |Emitted(s, k)| == 1 ==> Emitted(s, k) == [' '] || CopyOf(Emitted(s, k)[0], s[k])
  {
    hide Capitals;
    hide Dropped;
    hide LongRun;
    hide MarkTail;
    hide IsHorizontal;
  }

  lemma {:induction false} ComesFrom(s: string, n: nat, j: nat) returns (k: nat)
    requires n <= |s| && j < |EmitTo(s, n)|
    ensures k < n && |EmitTo(s, k)| == j && |Emitted(s, k)| == 1
  {
    hide Emitted;
    EmitsAtMostOne(s, n - 1);
    if j < |EmitTo(s, n - 1)| {
      k := ComesFrom(s, n - 1, j);
    } else {
      k := n - 1;
    }
  }

  lemma {:induction false} NoCapitalsSpec(s: string, spans: seq<Span>, n: nat)
    requires CutsText(s, spans, |s|) && n <= |s|
    ensures CaseSpec(s, spans, n) == [] <==> forall i :: 0 <= i < n ==> CaseAt(s, spans, i) == []
  {
    hide CaseAt;
    hide CutsText;
    if n > 0 {
      NoCapitalsSpec(s, spans, n - 1);
    }
  }

  lemma SentencesByCapitals(s: string)
    ensures SentenceSpec(s) == [] <==> forall i :: 0 <= i < |s| ==> Capitals(s, i) == []
  {
    TokensCut(s);
    NoCapitalsSpec(s, Tokens(s), |s|);
    hide CaseSpec;
    hide CaseAt;
    hide Tokens;
    hide CutsText;
    forall i | 0 <= i < |s| ensures Capitals(s, i) == CaseAt(s, Tokens(s), i) {
    }
  }

  /** The letter a second pass makes capital, by the letter it comes from. */
  lemma SecondCapital(s: string, k: nat)
    requires SpacingSpec(s, |s|) == [] && k < |s| && |Emitted(s, k)| == 1
    ensures |EmitTo(s, k)| < |EmitTo(s, |s|)|
    ensures Capitals(EmitTo(s, |s|), |EmitTo(s, k)|) != [] <==>
              IsLower(s[k]) && !Guarded(s, k) && StartsOnce(s, k) && !Starts(s, k)
  {
    hide *;
    var t, p, e := EmitTo(s, |s|), |EmitTo(s, k)|, Emitted(s, k);
    EmittedAt(s, k);
    EmitsAtMostOne(s, k);
    CapitalsAre(t, p);
    CapitalsAre(s, k);
    SentencesFollow(s, k);
    Classes(s[k]);
    Classes(' ');
    if IsHorizontal(s[k]) {
      BlankIsSmallLetter(s, k, e);
    } else {
      LetterEmits(s, k);
      if IsLower(s[k]) {
        SmallLetterMoves(s, k, e[0]);
        SameGuard(s, k);
      } else {
        OnlySmallIsSmall(e[0], s[k]);
      }
    }
  }

  lemma BlankIsSmallLetter(s: string, k: nat, e: string)
    requires k < |s| && IsHorizontal(s[k]) && |e| == 1 && (e == [' '] || CopyOf(e[0], s[k]))
    ensures !IsLower(s[k]) && !IsLower(e[0])
  {
  }

  lemma OnlySmallIsSmall(d: char, c: char)
    requires CopyOf(d, c) && !IsLower(c)
    ensures !IsLower(d)
  {
  }

  lemma SmallLetterMoves(s: string, k: nat, d: char)
    requires k < |s| && IsLower(s[k]) && CopyOf(d, s[k])
    ensures !IsHorizontal(s[k]) && !MarkTail(s, k) && !Utf8.IsWhitespace(s[k])
    ensures IsLower(d) <==> d == s[k]
    ensures Upper(s[k]) != s[k] && !IsLower(Upper(s[k]))
  {
    Classes(s[k]);
  }

  lemma SecondSentences(s: string)
    requires SpacingSpec(s, |s|) == []
    ensures SentenceSpec(EmitTo(s, |s|)) == [] <==> SameSentences(s)
  {
    hide *;
    var t := EmitTo(s, |s|);
    SentencesByCapitals(t);
    SameSentencesAre(s);
    if j: nat :| j < |t| && Capitals(t, j) != [] {
      var k := ComesFrom(s, |s|, j);
      SecondCapital(s, k);
    } else if k: nat :| k < |s| && IsLower(s[k]) && !Guarded(s, k) && StartsOnce(s, k) && !Starts(s, k) {
      LetterStays(s, k);
      SecondCapital(s, k);
    }
  }

  lemma SameSentencesAre(s: string)
    ensures SameSentences(s) <==>
              forall i :: 0 <= i < |s| && IsLower(s[i]) && !Guarded(s, i) && StartsOnce(s, i) ==> Starts(s, i)
  {
  }

  lemma LetterStays(s: string, k: nat)
    requires k < |s| && IsLower(s[k])
    ensures |Emitted(s, k)| == 1
  {
    Classes(s[k]);
    hide Capitals;
    LetterEmits(s, k);
  }

  // ----- when a second cleanup changes nothing

  /** For a text without repeated words and without blanks before punctuation, a second cleanup changes nothing if and
      only if single marks neither make two neighbouring words equal nor begin a sentence at another small letter. */
  lemma StableExactly(s: string, alnum: char -> bool)
    requires WordsSpec(s, alnum) == [] && SpacingSpec(s, |s|) == [] && CaseBlind(alnum)
    ensures Check(Check(s, alnum).suggested, alnum).suggested == Check(s, alnum).suggested <==>
              WordsSpec(Once(s), alnum) == [] && SameSentences(s)
  {
    hide *;
    StableWhen(s, alnum);
    SuggestionIsEmission(s, alnum);
    SameWords(s, alnum);
    SecondSentences(s);
    NothingJoins(s);
  }

  lemma NothingJoins(s: string)
    requires SpacingSpec(s, |s|) == []
    ensures !JoinsMarks(s, |s|)
  {
    hide IsHorizontal;
    hide SpacingSpec;
    if p: nat :| p < |s| && JoinsAt(s, p) {
      SpacingKnown(s, |s|, Candidate(RunStart(s, p), p, "", PunctuationSpacing));
    }
  }

  lemma {:induction false} SingleMarksStart(s: string, i: nat)
    requires i <= |s| && !HasTail(s)
    ensures StartsOnce(s, i) == Starts(s, i)
  {
    hide MarkTail;
    hide After;
    hide Guarded;
    hide Starts;
    if i > 0 {
      SingleMarksStart(s, i - 1);
      assert !MarkTail(s, i - 1);
      StartsAfter(s, i - 1);
    } else {
      AllStart(s, s);
    }
  }

  /** Where only outer blanks, inner blanks and letters are edited, one cleanup is enough. */
  lemma OnceIsEnough(s: string, alnum: char -> bool)
    requires WordsSpec(s, alnum) == [] && SpacingSpec(s, |s|) == [] && CollapseSpec(s, |s|) == [] && CaseBlind(alnum)
    ensures Check(Check(s, alnum).suggested, alnum).suggested == Check(s, alnum).suggested
  {
    hide *;
    StableExactly(s, alnum);
    CollapseIffTail(s);
    OnceOfSingle(s, |s|);
    WholeOnce(s);
    SameSentencesAre(s);
    forall i: nat | i < |s| ensures StartsOnce(s, i) == Starts(s, i) {
      SingleMarksStart(s, i);
    }
  }

  lemma WholeOnce(s: string)
    ensures Once(s) == OnceTo(s, |s|) && s[..|s|] == s
  {
  }
}
