/** The bounded context snapshot: the addon cuts a window out of the surrounding
    text, the client parses it and picks the text to review. */
module FcitxContext {
  import opened Base
  import Utf8
  import Decimal
  import opened FcitxWire

  const MAX_CONTEXT_CHARACTERS := 4096
  const REVIEW_CHARACTERS := 1200
  const CLIENT_BUFFER := 20 * 1024

  // ----- characters and bytes in the addon

  /** Every byte that is not a continuation byte begins a character. */
  function CharacterCount(text: bytes): nat {
    if text == [] then 0 else (if Utf8.IsContinuation(text[0]) then 0 else 1) + CharacterCount(text[1..])
  }

  /** The byte where the given character begins, or the end of the text. */
  function ByteOffset(text: bytes, character: nat): (at: nat)
    ensures at <= |text|
  {
    if text == [] then 0
    else if Utf8.IsContinuation(text[0]) then 1 + ByteOffset(text[1..], character)
    else if character == 0 then 0
    else 1 + ByteOffset(text[1..], character - 1)
  }

  /** The addon's scan for a character. */
  method ByteOffsetOf(text: bytes, character: nat) returns (at: nat)
    ensures at == ByteOffset(text, character)
  {
    var characters: nat := 0;
    assert text[0..] == text;
    for index := 0 to |text|
      invariant characters <= character
      invariant ByteOffset(text, character) == index + ByteOffset(text[index..], character - characters)
    {
      assert text[index..][1..] == text[index + 1..];
      if !Utf8.IsContinuation(text[index]) {
        if characters == character {
          return index;
        }
        characters := characters + 1;
      }
    }
    return |text|;
  }

  lemma {:induction false} CountContinuations(b: bytes, rest: bytes)
    requires forall i :: 0 <= i < |b| ==> Utf8.IsContinuation(b[i])
    ensures CharacterCount(b + rest) == CharacterCount(rest)
    ensures forall k: nat :: ByteOffset(b + rest, k) == |b| + ByteOffset(rest, k)
  {
    if b == [] {
      assert b + rest == rest;
    } else {
      assert (b + rest)[1..] == b[1..] + rest;
      CountContinuations(b[1..], rest);
    }
  }

  lemma {:induction false} CountCharacter(c: char, rest: bytes, k: nat)
    ensures CharacterCount(Utf8.EncodeChar(c) + rest) == 1 + CharacterCount(rest)
    ensures ByteOffset(Utf8.EncodeChar(c) + rest, k) ==
            if k == 0 then 0 else Utf8.Width(c) + ByteOffset(rest, k - 1)
  {
    var e := Utf8.EncodeChar(c);
    Utf8.EncodeCharShape(c);
    assert (e + rest)[1..] == e[1..] + rest;
    CountContinuations(e[1..], rest);
  }

  /** On UTF-8 the addon counts characters and finds their byte positions. */
  lemma {:induction false} OffsetsOfText(s: string, k: nat)
    ensures CharacterCount(Utf8.Encode(s)) == |s|
    ensures ByteOffset(Utf8.Encode(s), k) == Utf8.Offset(s, if k <= |s| then k else |s|)
  {
    if s == [] {
    } else {
      OffsetsOfText(s[1..], if k > 0 then k - 1 else 0);
      CountCharacter(s[0], Utf8.Encode(s[1..]), k);
      var n := if k <= |s| then k else |s|;
      if n > 0 {
        assert s[..n][1..] == s[1..][..n - 1];
      }
    }
  }

  // ----- the window

  datatype Window = Window(text: bytes, cursor: nat, anchor: nat, truncated: bool)

  function Clamp(x: nat, low: nat, high: nat): (c: nat)
    requires low <= high
    ensures low <= c <= high
  {
    if x < low then low else if x > high then high else x
  }

  /** The characters kept when the text has `characters` of them. */
  function WindowBounds(characters: nat, cursor: nat, anchor: nat): (r: (nat, nat))
    requires cursor <= characters && anchor <= characters
    ensures r.0 <= r.1 <= characters && r.1 - r.0 <= MAX_CONTEXT_CHARACTERS
  {
    if characters <= MAX_CONTEXT_CHARACTERS then (0, characters)
    else
      var center := cursor / 2 + anchor / 2 + (cursor % 2 + anchor % 2) / 2;
      var start := if center > MAX_CONTEXT_CHARACTERS / 2 then center - MAX_CONTEXT_CHARACTERS / 2 else 0;
      var end := Min(characters, start + MAX_CONTEXT_CHARACTERS);
      (end - MAX_CONTEXT_CHARACTERS, end)
  }

  lemma {:induction false} ByteOffsetMonotone(text: bytes, i: nat, j: nat)
    requires i <= j
    ensures ByteOffset(text, i) <= ByteOffset(text, j)
  {
    if text != [] {
      ByteOffsetMonotone(text[1..], i, j);
      if i > 0 {
        ByteOffsetMonotone(text[1..], i - 1, j - 1);
      }
    }
  }

  function BoundedContext(text: bytes, cursor: nat, anchor: nat): Window {
    var characters := CharacterCount(text);
    var c, a := Min(cursor, characters), Min(anchor, characters);
    var (start, end) := WindowBounds(characters, c, a);
    ByteOffsetMonotone(text, start, end);
    Window(text[ByteOffset(text, start)..ByteOffset(text, end)], Clamp(c, start, end) - start,
           Clamp(a, start, end) - start, start != 0 || end != characters)
  }

  /** A text of up to 4096 characters is shown whole. A longer one is shown in a window of 4096 that is centred, as far
      as the text reaches, on the middle between cursor and anchor. */
  lemma WindowIsCentred(n: nat, c: nat, a: nat) returns (middle: nat)
    requires c <= n && a <= n
    ensures 2 * middle <= c + a < 2 * middle + 2
    ensures WindowBounds(n, c, a) == if n <= 4096 then (0, n)
                                     else var start := Max(0, Min(middle - 2048, n - 4096)); (start, start + 4096)
  {
    middle := (c + a) / 2;
    assert c / 2 + a / 2 + (c % 2 + a % 2) / 2 == middle;
  }

  /** The window of a UTF-8 text is the UTF-8 of at most 4096 of its characters. */
  lemma WindowIsSlice(s: string, cursor: nat, anchor: nat)
    ensures var c, a := Min(cursor, |s|), Min(anchor, |s|);
            var (start, end) := WindowBounds(|s|, c, a);
            && BoundedContext(Utf8.Encode(s), cursor, anchor)
               == Window(Utf8.Encode(s[start..end]), Clamp(c, start, end) - start, Clamp(a, start, end) - start,
                         start != 0 || end != |s|)
            && end - start <= MAX_CONTEXT_CHARACTERS
  {
    hide WindowBounds;
    hide ByteOffset;
    hide CharacterCount;
    hide Utf8.Encode;
    hide Utf8.Offset;
    hide Clamp;
    var c, a := Min(cursor, |s|), Min(anchor, |s|);
    var (start, end) := WindowBounds(|s|, c, a);
    OffsetsOfText(s, start);
    OffsetsOfText(s, end);
    Utf8.EncodeSlice(s, start, end);
    ByteOffsetMonotone(Utf8.Encode(s), start, end);
  }

  // ----- what the client reviews

  /** `chars().skip(start).take(end - start)` */
  function SliceCharacters(text: string, start: nat, end: nat): string {
    var from := Min(start, |text|);
    text[from..Min(from + SaturatingSub(end, start), |text|)]
  }

  /** The selection, or up to 1200 characters before the cursor. */
  function ReviewText(text: string, cursor: nat, anchor: nat): string {
    var start, end := Min(cursor, anchor), Max(cursor, anchor);
    if start != end then SliceCharacters(text, start, end)
    else SliceCharacters(text, SaturatingSub(cursor, REVIEW_CHARACTERS), cursor)
  }

  /** The client reviews the selection; without one, the 1200 characters before the cursor, or all if there are fewer. */
  lemma ReviewedText(before: string, selection: string, after: string)
    ensures selection != "" ==>
              ReviewText(before + selection + after, |before|, |before| + |selection|) == selection
              && ReviewText(before + selection + after, |before| + |selection|, |before|) == selection
    ensures ReviewText(before + after, |before|, |before|)
         == if |before| <= 1200 then before else before[|before| - 1200..]
  {
    var text := before + selection + after;
    assert text[|before|..|before| + |selection|] == selection;
    assert (before + after)[..|before|] == before;
    if |before| > 1200 {
      assert (before + after)[|before| - 1200..|before|] == before[|before| - 1200..];
    }
  }

  /** Bounds that keep the whole selection and the review range in view. */
  lemma WindowCovers(n: nat, c: nat, a: nat)
    requires c <= n && a <= n && Max(c, a) - Min(c, a) <= MAX_CONTEXT_CHARACTERS
    ensures var (start, end) := WindowBounds(n, c, a);
            && start <= Min(c, a) && Max(c, a) <= end
            && (c == a && start > 0 ==> start + REVIEW_CHARACTERS <= c)
  {
  }

  /** The characters a review covers: the selection, or what is left of 1200 before the cursor. */
  function ReviewBounds(cursor: nat, anchor: nat): (r: (nat, nat))
    ensures r.0 <= r.1 <= Max(cursor, anchor)
  {
    if cursor != anchor then (Min(cursor, anchor), Max(cursor, anchor))
    else (SaturatingSub(cursor, REVIEW_CHARACTERS), cursor)
  }

  lemma ReviewIsSlice(text: string, cursor: nat, anchor: nat)
    requires cursor <= |text| && anchor <= |text|
    ensures ReviewText(text, cursor, anchor) == text[ReviewBounds(cursor, anchor).0..ReviewBounds(cursor, anchor).1]
  {
  }

  lemma ReviewInWindow(s: string, start: nat, end: nat, c: nat, a: nat)
    requires start <= c <= end <= |s| && start <= a <= end
    requires c == a && start > 0 ==> start + REVIEW_CHARACTERS <= c
    ensures ReviewText(s[start..end], c - start, a - start) == ReviewText(s, c, a)
  {
    var (low, high) := ReviewBounds(c, a);
    ReviewIsSlice(s, c, a);
    ReviewIsSlice(s[start..end], c - start, a - start);
    assert ReviewBounds(c - start, a - start) == (low - start, high - start) && start <= low && high <= end;
    hide ReviewText;
    hide ReviewBounds;
    SliceOfSlice(s, start, end, low, high);
  }

  lemma ReviewLength(text: string, cursor: nat, anchor: nat)
    requires cursor <= |text| && anchor <= |text|
    ensures cursor != anchor ==> |ReviewText(text, cursor, anchor)| == Max(cursor, anchor) - Min(cursor, anchor)
    ensures cursor == anchor ==> |ReviewText(text, cursor, anchor)| <= REVIEW_CHARACTERS
  {
  }

  lemma LongSelectionIsCut(s: string, start: nat, end: nat, c: nat, a: nat)
    requires start <= end <= |s| && end - start <= MAX_CONTEXT_CHARACTERS && c <= |s| && a <= |s|
    requires Max(c, a) - Min(c, a) > MAX_CONTEXT_CHARACTERS
    ensures ReviewText(s[start..end], Clamp(c, start, end) - start, Clamp(a, start, end) - start) != ReviewText(s, c, a)
  {
    hide ReviewText;
    ReviewLength(s, c, a);
    ReviewLength(s[start..end], Clamp(c, start, end) - start, Clamp(a, start, end) - start);
  }

  /** The window is invisible to review exactly when the selection fits it. */
  lemma WindowIsInvisible(s: string, cursor: nat, anchor: nat)
    ensures var c, a := Min(cursor, |s|), Min(anchor, |s|);
            var (start, end) := WindowBounds(|s|, c, a);
            ReviewText(s[start..end], Clamp(c, start, end) - start, Clamp(a, start, end) - start) == ReviewText(s, c, a)
            <==> Max(c, a) - Min(c, a) <= 4096
  {
    hide ReviewText;
    hide WindowBounds;
    var c, a := Min(cursor, |s|), Min(anchor, |s|);
    var (start, end) := WindowBounds(|s|, c, a);
    if Max(c, a) - Min(c, a) <= MAX_CONTEXT_CHARACTERS {
      WindowCovers(|s|, c, a);
      assert Clamp(c, start, end) == c && Clamp(a, start, end) == a;
      ReviewInWindow(s, start, end, c, a);
    } else {
      LongSelectionIsCut(s, start, end, c, a);
    }
  }

  // ----- the snapshot response

  datatype Surroundings = Surroundings(text: string, cursor: nat, anchor: nat)

  /** A focused input context as the addon sees it. */
  datatype Surface = Surface(focused: bool, secure: bool, program: string, frontend: string,
                             supportsSurrounding: bool, multiline: bool, terminal: bool, spellCheck: bool,
                             surroundings: Option<Surroundings>)

  function AppendCapability(value: bytes, enabled: bool, capability: bytes): bytes {
    if !enabled then value else (if value == [] then [] else value + [44]) + capability
  }

  const SURROUNDING_TEXT: bytes :=
    [115, 117, 114, 114, 111, 117, 110, 100, 105, 110, 103, 45, 116, 101, 120, 116] // surrounding-text
  const MULTILINE: bytes := [109, 117, 108, 116, 105, 108, 105, 110, 101] // multiline
  const TERMINAL: bytes := [116, 101, 114, 109, 105, 110, 97, 108] // terminal
  const SPELL_CHECK: bytes := [115, 112, 101, 108, 108, 45, 99, 104, 101, 99, 107] // spell-check

  function Capabilities(f: Surface): bytes {
    AppendCapability(
      AppendCapability(
        AppendCapability(
          AppendCapability([], f.supportsSurrounding, SURROUNDING_TEXT),
          f.multiline, MULTILINE),
        f.terminal, TERMINAL),
      f.spellCheck, SPELL_CHECK)
  }

  /** The surrounding text is read only when the context offers it and it is valid. */
  function VisibleText(f: Surface): Surroundings {
    if f.supportsSurrounding && f.surroundings.Some? then f.surroundings.value else Surroundings("", 0, 0)
  }

  function SnapshotParts(f: Surface, generation: nat): seq<bytes> {
    var visible := VisibleText(f);
    var window := BoundedContext(Utf8.Encode(visible.text), visible.cursor, visible.anchor);
    [Utf8.Encode(f.program), Utf8.Encode(f.frontend), Decimal.ToDecimal(generation), Decimal.ToDecimal(window.cursor),
     Decimal.ToDecimal(window.anchor), Capabilities(f), if window.truncated then [49] else [48], window.text]
  }

  /** The addon's answer about a focused, non-secure context. */
  function Describe(f: Surface, generation: nat): Response {
    if !NulFree(Utf8.Encode(VisibleText(f).text)) then Rejected(UnsupportedText)
    else Snapshot(Join(SnapshotParts(f, generation)))
  }

  datatype Snapshotted = Snapshotted(program: string, frontend: string, generation: nat, cursor: nat, anchor: nat,
                                     capabilities: seq<string>, truncated: bool, text: string)

  /** `split(',')`: there is always at least one part. */
  function SplitCommas(s: string): (parts: seq<string>)
    ensures parts != []
  {
    if s == "" then [""]
    else
      var rest := SplitCommas(s[1..]);
      if s[0] == ',' then [""] + rest else [[s[0]] + rest[0]] + rest[1..]
  }

  /** `filter(|value| !value.is_empty())` */
  function NonEmpty(parts: seq<string>): seq<string> {
    if parts == [] then [] else (if parts[0] == "" then [] else [parts[0]]) + NonEmpty(parts[1..])
  }

  function Identity(field: bytes): Option<string> {
    var name :- Utf8.Decode(field);
    Some(if name == "" then "unknown" else name)
  }

  /** `parse_context_response`; a missing field is an error wherever the iterator runs out. */
  function ParseSnapshot(response: bytes): Option<Snapshotted> {
    var parts := Split(response);
    if parts[0] != OK || |parts| < 10 || parts[1] != SNAPSHOT then None
    else
      var program :- Identity(parts[2]);
      var frontend :- Identity(parts[3]);
      var generation :- Decimal.ParseU64(parts[4]);
      var cursor :- Decimal.ParseU64(parts[5]);
      var anchor :- Decimal.ParseU64(parts[6]);
      var capabilities :- Utf8.Decode(parts[7]);
      if parts[8] != [48] && parts[8] != [49] then None
      else
        var text :- Utf8.Decode(parts[9]);
        if |text| > MAX_CONTEXT_CHARACTERS || cursor > |text| || anchor > |text| then None
        else
          Some(Snapshotted(program, frontend, generation, cursor, anchor, NonEmpty(SplitCommas(capabilities)),
                           parts[8] == [49], text))
  }

  lemma {:induction false} DigitsAreNulFree(n: nat)
    ensures NulFree(Decimal.ToDecimal(n))
  {
    assert forall i :: 0 <= i < |Decimal.ToDecimal(n)| ==> Decimal.IsDigit(Decimal.ToDecimal(n)[i]);
  }

  predicate Ascii(b: bytes) {
    forall i :: 0 <= i < |b| ==> 0 < b[i] < 0x80
  }

  /** ASCII is its own UTF-8. */
  lemma {:induction false} AsciiIsUtf8(b: bytes)
    requires Ascii(b)
    ensures NulFree(b) && Utf8.Decode(b).Some?
  {
    if b != [] {
      AsciiIsUtf8(b[1..]);
      assert Utf8.EncodeChar(b[0] as char) == [b[0]] == b[..1];
    }
  }

  lemma AppendShape(value: bytes, enabled: bool, capability: bytes)
    requires Ascii(value) && Ascii(capability)
    ensures Ascii(AppendCapability(value, enabled, capability))
    ensures |AppendCapability(value, enabled, capability)| <= |value| + 1 + |capability|
  {
  }

  /** At most four ASCII names joined by commas. */
  lemma CapabilitiesShape(f: Surface)
    ensures Ascii(Capabilities(f)) && |Capabilities(f)| <= 48
  {
    assert Ascii(SURROUNDING_TEXT) && Ascii(MULTILINE) && Ascii(TERMINAL) && Ascii(SPELL_CHECK);
    var one := AppendCapability([], f.supportsSurrounding, SURROUNDING_TEXT);
    var two := AppendCapability(one, f.multiline, MULTILINE);
    var three := AppendCapability(two, f.terminal, TERMINAL);
    AppendShape([], f.supportsSurrounding, SURROUNDING_TEXT);
    AppendShape(one, f.multiline, MULTILINE);
    AppendShape(two, f.terminal, TERMINAL);
    AppendShape(three, f.spellCheck, SPELL_CHECK);
  }

  // ----- the capability list

  /** Names joined by commas. */
  function Listed(names: seq<string>): string {
    if names == [] then ""
    else if |names| == 1 then names[0]
    else Listed(names[..|names| - 1]) + "," + names[|names| - 1]
  }

  predicate IsName(name: string) {
    name != "" && ',' !in name
  }

  lemma {:induction false} SplitName(name: string)
    requires ',' !in name
    ensures SplitCommas(name) == [name]
  {
    if name != "" {
      SplitName(name[1..]);
      assert [name[0]] + name[1..] == name;
    }
  }

  lemma {:induction false} SplitCommasConcat(a: string, b: string)
    ensures SplitCommas(a + "," + b) == SplitCommas(a) + SplitCommas(b)
  {
    var s := a + "," + b;
    if a == "" {
      assert s[1..] == b;
    } else {
      assert s[1..] == a[1..] + "," + b;
      SplitCommasConcat(a[1..], b);
    }
  }

  /** The client reads a list of names back. */
  lemma {:induction false} ListedIsRead(names: seq<string>)
    requires forall name :: name in names ==> IsName(name)
    ensures NonEmpty(SplitCommas(Listed(names))) == names
    ensures names != [] ==> SplitCommas(Listed(names)) == names && Listed(names) != ""
  {
    if names != [] {
      var n := |names| - 1;
      assert names[n] in names;
      SplitName(names[n]);
      if n > 0 {
        ListedIsRead(names[..n]);
        SplitCommasConcat(Listed(names[..n]), names[n]);
        assert names[..n] + [names[n]] == names;
      } else {
        assert [names[0]] == names;
      }
      NamesAreKept(names);
    }
  }

  lemma {:induction false} NamesAreKept(names: seq<string>)
    requires forall name :: name in names ==> IsName(name)
    ensures NonEmpty(names) == names
  {
    if names != [] {
      assert names[0] in names;
      NamesAreKept(names[1..]);
      assert [names[0]] + names[1..] == names;
    }
  }

  lemma AppendListed(names: seq<string>, enabled: bool, capability: bytes, name: string)
    requires capability == Utf8.Encode(name)
    requires forall n :: n in names ==> IsName(n)
    ensures AppendCapability(Utf8.Encode(Listed(names)), enabled, capability)
         == Utf8.Encode(Listed(names + if enabled then [name] else []))
  {
    assert names + [] == names;
    var more := names + [name];
    assert more[..|more| - 1] == names && more[|more| - 1] == name;
    ListedIsRead(names);
    var list := Listed(names);
    Utf8.EncodeLength(list);
    Utf8.EncodeConcat(list, ",");
    Utf8.EncodeConcat(list + ",", name);
    Utf8.EncodeOne(',');
  }

  lemma NamesOfCapabilities()
    ensures SURROUNDING_TEXT == Utf8.Encode("surrounding-text") && MULTILINE == Utf8.Encode("multiline")
    ensures TERMINAL == Utf8.Encode("terminal") && SPELL_CHECK == Utf8.Encode("spell-check")
    ensures IsName("surrounding-text") && IsName("multiline") && IsName("terminal") && IsName("spell-check")
  {
    hide Utf8.Encode;
    IsText(SURROUNDING_TEXT, "surrounding-text");
    IsText(MULTILINE, "multiline");
    IsText(TERMINAL, "terminal");
    IsText(SPELL_CHECK, "spell-check");
  }

  /** The names of what a context offers, in this order. */
  function Offered(f: Surface): seq<string> {
    (if f.supportsSurrounding then ["surrounding-text"] else []) + (if f.multiline then ["multiline"] else [])
    + (if f.terminal then ["terminal"] else []) + (if f.spellCheck then ["spell-check"] else [])
  }

  /** The addon lists exactly the capabilities its context has, and the client reads that list back. */
  lemma CapabilitiesAreRead(f: Surface)
    ensures Utf8.Decode(Capabilities(f)).Some?
    ensures NonEmpty(SplitCommas(Utf8.Decode(Capabilities(f)).value)) == Offered(f)
  {
    hide Utf8.Encode;
    hide Utf8.Decode;
    hide AppendCapability;
    hide IsName;
    hide Listed;
    hide SplitCommas;
    hide NonEmpty;
    NamesOfCapabilities();
    var one: seq<string> := if f.supportsSurrounding then ["surrounding-text"] else [];
    var two: seq<string> := if f.multiline then ["multiline"] else [];
    var three: seq<string> := if f.terminal then ["terminal"] else [];
    var four: seq<string> := if f.spellCheck then ["spell-check"] else [];
    NothingListed();
    assert [] + one == one;
    AppendListed([], f.supportsSurrounding, SURROUNDING_TEXT, "surrounding-text");
    AppendListed(one, f.multiline, MULTILINE, "multiline");
    AppendListed(one + two, f.terminal, TERMINAL, "terminal");
    AppendListed(one + two + three, f.spellCheck, SPELL_CHECK, "spell-check");
    Utf8.DecodeOfEncode(Listed(Offered(f)));
    ListedIsRead(Offered(f));
  }

  lemma NothingListed()
    ensures Utf8.Encode(Listed([])) == []
  {
  }

  predicate NulFreeText(s: string) {
    NulFree(Utf8.Encode(s))
  }

  lemma SliceIsNulFree(s: string, i: nat, j: nat)
    requires i <= j <= |s| && NulFreeText(s)
    ensures NulFreeText(s[i..j])
  {
    Utf8.EncodeSlice(s, i, j);
  }

  /** The window the addon describes, as text. */
  function WindowText(v: Surroundings): (w: (string, nat, nat))
    ensures w.1 <= |w.0| && w.2 <= |w.0| && |w.0| <= MAX_CONTEXT_CHARACTERS
  {
    var c, a := Min(v.cursor, |v.text|), Min(v.anchor, |v.text|);
    var (start, end) := WindowBounds(|v.text|, c, a);
    (v.text[start..end], Clamp(c, start, end) - start, Clamp(a, start, end) - start)
  }

  /** The bytes of the window, in characters. */
  lemma WindowOfText(v: Surroundings)
    ensures var (text, cursor, anchor) := WindowText(v);
            BoundedContext(Utf8.Encode(v.text), v.cursor, v.anchor)
            == Window(Utf8.Encode(text), cursor, anchor, |text| < |v.text|)
  {
    WindowIsSlice(v.text, v.cursor, v.anchor);
    hide BoundedContext;
  }

  lemma PartsOfSnapshot(f: Surface, generation: nat)
    ensures var (text, cursor, anchor) := WindowText(VisibleText(f));
            SnapshotParts(f, generation)
            == [Utf8.Encode(f.program), Utf8.Encode(f.frontend), Decimal.ToDecimal(generation),
                Decimal.ToDecimal(cursor), Decimal.ToDecimal(anchor), Capabilities(f),
                if |text| < |VisibleText(f).text| then [49] else [48], Utf8.Encode(text)]
  {
    WindowOfText(VisibleText(f));
    hide BoundedContext;
    hide WindowText;
    hide Capabilities;
  }

  lemma WindowIsNulFree(v: Surroundings)
    requires NulFreeText(v.text)
    ensures NulFreeText(WindowText(v).0)
  {
    var c, a := Min(v.cursor, |v.text|), Min(v.anchor, |v.text|);
    var (start, end) := WindowBounds(|v.text|, c, a);
    hide NulFreeText;
    SliceIsNulFree(v.text, start, end);
  }

  lemma SnapshotPartsShape(f: Surface, generation: nat)
    requires NulFreeText(f.program) && NulFreeText(f.frontend) && NulFreeText(VisibleText(f).text)
    ensures forall p :: p in SnapshotParts(f, generation) ==> NulFree(p)
  {
    hide SnapshotParts;
    hide WindowText;
    hide Capabilities;
    hide VisibleText;
    var v := VisibleText(f);
    PartsOfSnapshot(f, generation);
    WindowIsNulFree(v);
    DigitsAreNulFree(generation);
    DigitsAreNulFree(WindowText(v).1);
    DigitsAreNulFree(WindowText(v).2);
    CapabilitiesShape(f);
    AsciiIsUtf8(Capabilities(f));
    assert NulFree([48]) && NulFree([49]);
    hide NulFree;
  }

  lemma SnapshotIsSplit(f: Surface, generation: nat)
    requires NulFreeText(f.program) && NulFreeText(f.frontend) && NulFreeText(VisibleText(f).text)
    ensures Split(EncodeResponse(Snapshot(Join(SnapshotParts(f, generation))))) == [OK, SNAPSHOT] + SnapshotParts(f, generation)
  {
    hide Split;
    hide Join;
    SnapshotPartsShape(f, generation);
    var parts := SnapshotParts(f, generation);
    hide SnapshotParts;
    SplitHead(OK, SNAPSHOT + [0] + Join(parts));
    SplitHead(SNAPSHOT, Join(parts));
    SplitJoin(parts[..7], parts[7]);
    SplitNulFree(parts[7]);
    assert parts[..7] + [parts[7]] == parts;
    assert [OK] + ([SNAPSHOT] + parts) == [OK, SNAPSHOT] + parts;
  }

  /** The addon describes a context unless the text it may show has a NUL. */
  lemma DescribesExactly(f: Surface, generation: nat)
    ensures Describe(f, generation).Snapshot?
       <==> f.supportsSurrounding && f.surroundings.Some? ==> NulFreeText(f.surroundings.value.text)
    ensures !Describe(f, generation).Snapshot? ==> Describe(f, generation) == Rejected(UnsupportedText)
  {
    hide SnapshotParts;
    NothingListed();
  }

  /** The client accepts exactly the responses with all ten fields that it can read: names and text in UTF-8, numbers
      within 64 bits, a flag of one digit, and positions within a text of at most 4096 characters. */
  lemma AcceptsExactly(response: bytes)
    ensures var parts := Split(response);
            ParseSnapshot(response).Some? <==>
              && |parts| >= 10 && parts[0] == Utf8.Encode("OK") && parts[1] == Utf8.Encode("context")
              && Utf8.Decode(parts[2]).Some? && Utf8.Decode(parts[3]).Some?
              && Decimal.ParseU64(parts[4]).Some? && Decimal.ParseU64(parts[5]).Some? && Decimal.ParseU64(parts[6]).Some?
              && Utf8.Decode(parts[7]).Some? && (parts[8] == [48] || parts[8] == [49])
              && Utf8.Decode(parts[9]).Some? && |Utf8.Decode(parts[9]).value| <= 4096
              && Decimal.ParseU64(parts[5]).value <= |Utf8.Decode(parts[9]).value|
              && Decimal.ParseU64(parts[6]).value <= |Utf8.Decode(parts[9]).value|
  {
    hide Split;
    hide Utf8.Decode;
    hide Utf8.Encode;
    hide Decimal.ParseU64;
    hide SplitCommas;
    hide NonEmpty;
    WordsOfProtocol();
  }

  /** The client accepts every snapshot the addon describes and reads back the window and the capabilities exactly. */
  lemma SnapshotRoundTrip(f: Surface, generation: nat)
    requires NulFreeText(f.program) && NulFreeText(f.frontend) && generation <= U64_MAX
    requires Describe(f, generation).Snapshot?
    ensures var r := ParseSnapshot(EncodeResponse(Describe(f, generation)));
            var v := if f.supportsSurrounding && f.surroundings.Some? then f.surroundings.value else Surroundings("", 0, 0);
            var (text, cursor, anchor) := WindowText(v);
            && r.Some?
            && r.value.program == (if f.program == "" then "unknown" else f.program)
            && r.value.frontend == (if f.frontend == "" then "unknown" else f.frontend)
            && r.value.generation == generation && r.value.text == text
            && r.value.cursor == cursor && r.value.anchor == anchor
            && r.value.truncated == (|text| < |v.text|)
            && r.value.capabilities == Offered(f)
  {
    hide SnapshotParts;
    hide WindowText;
    hide Split;
    hide Capabilities;
    hide Utf8.Encode;
    hide Utf8.Decode;
    SnapshotIsSplit(f, generation);
    var parts := SnapshotParts(f, generation);
    var (text, cursor, anchor) := WindowText(VisibleText(f));
    PartsOfSnapshot(f, generation);
    Utf8.DecodeOfEncode(f.program);
    Utf8.DecodeOfEncode(f.frontend);
    Utf8.DecodeOfEncode(text);
    Decimal.ParseOfToDecimal(generation);
    Decimal.ParseOfToDecimal(cursor);
    Decimal.ParseOfToDecimal(anchor);
    CapabilitiesAreRead(f);
    hide Offered;
    hide SplitCommas;
    hide NonEmpty;
    var all := [OK, SNAPSHOT] + parts;
    assert all[0] == OK && all[1] == SNAPSHOT && all[2] == parts[0] && all[3] == parts[1] && all[4] == parts[2];
    assert all[5] == parts[3] && all[6] == parts[4] && all[7] == parts[5] && all[8] == parts[6] && all[9] == parts[7];
  }

  /** What the client reviews from a snapshot is what it would review from the whole text, exactly when the
      selection has at most 4096 characters. */
  lemma SnapshotReview(f: Surface, generation: nat)
    requires NulFreeText(f.program) && NulFreeText(f.frontend) && generation <= U64_MAX
    requires Describe(f, generation).Snapshot?
    ensures var r := ParseSnapshot(EncodeResponse(Describe(f, generation)));
            var v := if f.supportsSurrounding && f.surroundings.Some? then f.surroundings.value else Surroundings("", 0, 0);
            var c, a := Min(v.cursor, |v.text|), Min(v.anchor, |v.text|);
            && r.Some?
            && (ReviewText(r.value.text, r.value.cursor, r.value.anchor) == ReviewText(v.text, c, a)
                <==> Max(c, a) - Min(c, a) <= 4096)
  {
    hide ParseSnapshot;
    hide ReviewText;
    hide Describe;
    hide EncodeResponse;
    hide Offered;
    hide NulFreeText;
    hide WindowBounds;
    hide Clamp;
    SnapshotRoundTrip(f, generation);
    WindowIsInvisible(VisibleText(f).text, VisibleText(f).cursor, VisibleText(f).anchor);
  }

  lemma {:induction false} JoinLength(parts: seq<bytes>)
    requires parts != []
    ensures |Join(parts)| == TotalLength(parts) + |parts| - 1
  {
    if |parts| > 1 {
      JoinLength(parts[1..]);
    } else {
      assert parts[1..] == [];
    }
  }

  function TotalLength(parts: seq<bytes>): nat {
    if parts == [] then 0 else |parts[0]| + TotalLength(parts[1..])
  }

  /** The client's 20 KiB buffer holds every snapshot whose application and frontend names take at most 3900 bytes. */
  lemma SnapshotFitsBuffer(f: Surface, generation: nat)
    requires |Utf8.Encode(f.program)| + |Utf8.Encode(f.frontend)| <= 3900 && generation <= U64_MAX
    requires Describe(f, generation).Snapshot?
    ensures |EncodeResponse(Describe(f, generation))| <= CLIENT_BUFFER
  {
    hide SnapshotParts;
    hide Join;
    var parts := SnapshotParts(f, generation);
    SnapshotPartLengths(f, generation);
    JoinLength(parts);
    LengthOfEight(parts);
    hide TotalLength;
    assert |Join(parts)| <= 3900 + 20 + 5 + 5 + 48 + 1 + 16384 + 7;
  }

  lemma SnapshotPartLengths(f: Surface, generation: nat)
    requires generation <= U64_MAX
    ensures var parts := SnapshotParts(f, generation);
            && |parts| == 8 && |parts[0]| == |Utf8.Encode(f.program)| && |parts[1]| == |Utf8.Encode(f.frontend)|
            && |parts[2]| <= 20 && |parts[3]| <= 5 && |parts[4]| <= 5 && |parts[5]| <= 48 && |parts[6]| == 1
            && |parts[7]| <= 16384
  {
    PartsOfSnapshot(f, generation);
    hide SnapshotParts;
    var (text, cursor, anchor) := WindowText(VisibleText(f));
    hide WindowText;
    Utf8.EncodeLength(text);
    CapabilitiesShape(f);
    PositionLength(cursor);
    PositionLength(anchor);
    GenerationLength(generation);
  }

  lemma PositionLength(position: nat)
    requires position <= MAX_CONTEXT_CHARACTERS
    ensures |Decimal.ToDecimal(position)| <= 5
  {
    assert Decimal.Power10(5) == 100_000 by { assert Decimal.Power10(3) == 1000; }
    Decimal.ToDecimalLength(position, 5);
  }

  lemma GenerationLength(generation: nat)
    requires generation <= U64_MAX
    ensures |Decimal.ToDecimal(generation)| <= 20
  {
    assert Decimal.Power10(20) == 100_000_000_000_000_000_000 by {
      assert Decimal.Power10(5) == 100_000;
      assert Decimal.Power10(10) == 100_000 * Decimal.Power10(5);
      assert Decimal.Power10(15) == 100_000 * Decimal.Power10(10);
    }
    Decimal.ToDecimalLength(generation, 20);
  }

  lemma LengthOfEight(parts: seq<bytes>)
    requires |parts| == 8
    ensures TotalLength(parts) == |parts[0]| + |parts[1]| + |parts[2]| + |parts[3]| + |parts[4]| + |parts[5]| + |parts[6]|
                                  + |parts[7]|
  {
    assert TotalLength(parts[4..]) == |parts[4]| + TotalLength(parts[5..]) by { assert parts[4..][1..] == parts[5..]; }
    assert TotalLength(parts[5..]) == |parts[5]| + TotalLength(parts[6..]) by { assert parts[5..][1..] == parts[6..]; }
    assert TotalLength(parts[6..]) == |parts[6]| + TotalLength(parts[7..]) by { assert parts[6..][1..] == parts[7..]; }
    assert TotalLength(parts[7..]) == |parts[7]| by { assert parts[7..][1..] == []; }
    assert TotalLength(parts) == |parts[0]| + TotalLength(parts[1..]);
    assert TotalLength(parts[1..]) == |parts[1]| + TotalLength(parts[2..]) by { assert parts[1..][1..] == parts[2..]; }
    assert TotalLength(parts[2..]) == |parts[2]| + TotalLength(parts[3..]) by { assert parts[2..][1..] == parts[3..]; }
    assert TotalLength(parts[3..]) == |parts[3]| + TotalLength(parts[4..]) by { assert parts[3..][1..] == parts[4..]; }
  }
}
