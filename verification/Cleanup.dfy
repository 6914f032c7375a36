/** The cleanup report: priority-greedy selection of candidates, byte-addressed
    edits, and their guarded application. */
module Cleanup {
  import opened Base
  import opened CleanupRules
  import Utf8
  import Fingerprint

  // ----- the stable library sort

  type Order = (Candidate, Candidate) -> bool

  function Insert(c: Candidate, cs: seq<Candidate>, before: Order): (r: seq<Candidate>)
    ensures multiset(r) == multiset(cs) + multiset{c}
  {
    if cs == [] then [c]
    else if before(c, cs[0]) then
      assert [c] + cs == [c] + ([cs[0]] + cs[1..]);
      [c] + cs
    else
      assert cs == [cs[0]] + cs[1..];
      [cs[0]] + Insert(c, cs[1..], before)
  }

  /** Stable: an element goes before the earlier ones only if it is strictly smaller. */
  function Sort(cs: seq<Candidate>, before: Order): (r: seq<Candidate>)
    ensures multiset(r) == multiset(cs)
  {
    if cs == [] then []
    else
      var n := |cs| - 1;
      assert cs == cs[..n] + [cs[n]];
      Insert(cs[n], Sort(cs[..n], before), before)
  }

  function RankBefore(a: Candidate, b: Candidate): bool {
    var p, q := Priority(a.rule), Priority(b.rule);
    p < q || (p == q && (a.start < b.start || (a.start == b.start && a.end < b.end)))
  }

  function StartBefore(a: Candidate, b: Candidate): bool {
    a.start < b.start
  }

  ghost predicate Sorted(cs: seq<Candidate>, before: Order) {
    forall i, j :: 0 <= i < j < |cs| ==> !before(cs[j], cs[i])
  }

  /** Neither order puts the later of two elements strictly before the earlier through a third. */
  ghost predicate WeakOrder(before: Order) {
    && (forall a, b :: before(a, b) ==> !before(b, a))
    && (forall a, b, c :: !before(b, a) && !before(c, b) ==> !before(c, a))
  }

  lemma OrdersAreWeak()
    ensures WeakOrder(RankBefore) && WeakOrder(StartBefore)
  {
  }

  lemma {:induction false} InsertSorted(c: Candidate, cs: seq<Candidate>, before: Order)
    requires WeakOrder(before) && Sorted(cs, before)
    ensures Sorted(Insert(c, cs, before), before)
  {
    if cs != [] && !before(c, cs[0]) {
      var rest := Insert(c, cs[1..], before);
      InsertSorted(c, cs[1..], before);
      forall j | 0 <= j < |rest| ensures !before(rest[j], cs[0]) {
        assert rest[j] in multiset(rest);
        assert rest[j] == c || rest[j] in cs[1..];
      }
    }
  }

  lemma {:induction false} SortSorts(cs: seq<Candidate>, before: Order)
    requires WeakOrder(before)
    ensures Sorted(Sort(cs, before), before)
  {
    if cs != [] {
      var n := |cs| - 1;
      SortSorts(cs[..n], before);
      InsertSorted(cs[n], Sort(cs[..n], before), before);
    }
  }

  lemma SortKeepsElements(cs: seq<Candidate>, before: Order)
    ensures forall c :: c in Sort(cs, before) <==> c in cs
  {
    forall c ensures c in Sort(cs, before) <==> c in cs {
      assert c in Sort(cs, before) <==> c in multiset(Sort(cs, before));
      assert c in cs <==> c in multiset(cs);
    }
  }

  // ----- selection

  predicate Overlap(a: Candidate, b: Candidate) {
    a.start < b.end && b.start < a.end
  }

  predicate Blocked(c: Candidate, chosen: seq<Candidate>) {
    exists k :: 0 <= k < |chosen| && Overlap(c, chosen[k])
  }

  /** Takes each candidate in turn unless it is empty or overlaps one already taken. */
  function Select(ranked: seq<Candidate>): seq<Candidate> {
    if ranked == [] then []
    else
      var n := |ranked| - 1;
      var chosen := Select(ranked[..n]);
      if ranked[n].start >= ranked[n].end || Blocked(ranked[n], chosen) then chosen else chosen + [ranked[n]]
  }

  ghost predicate Disjoint(cs: seq<Candidate>) {
    forall i, j :: 0 <= i < j < |cs| ==> !Overlap(cs[i], cs[j])
  }

  lemma {:induction false} SelectIsDisjoint(ranked: seq<Candidate>)
    ensures Disjoint(Select(ranked))
    ensures forall i :: 0 <= i < |Select(ranked)| ==>
              Select(ranked)[i] in ranked && Select(ranked)[i].start < Select(ranked)[i].end
  {
    if ranked != [] {
      SelectIsDisjoint(ranked[..|ranked| - 1]);
    }
  }

  /** A rejected candidate overlaps a selected one that does not rank after it. */
  lemma {:induction false} RejectedIsBlocked(ranked: seq<Candidate>, c: Candidate) returns (winner: Candidate)
    requires Sorted(ranked, RankBefore) && c in ranked && c.start < c.end
    ensures winner in Select(ranked) && Overlap(c, winner) && !RankBefore(c, winner)
  {
    var n := |ranked| - 1;
    var chosen := Select(ranked[..n]);
    SelectIsDisjoint(ranked[..n]);
    if c in ranked[..n] {
      winner := RejectedIsBlocked(ranked[..n], c);
    } else {
      assert c == ranked[n];
      if Blocked(c, chosen) {
        var k :| 0 <= k < |chosen| && Overlap(c, chosen[k]);
        winner := chosen[k];
        var i :| 0 <= i < n && ranked[i] == winner;
      } else {
        assert (chosen + [c])[|chosen|] == c;
        winner := c;
      }
    }
  }

  /** The selected candidates in text order. */
  function Chosen(s: string, alnum: char -> bool): seq<Candidate> {
    Sort(Select(Sort(Candidates(s, alnum), RankBefore)), StartBefore)
  }

  /** In text order, and each range ends before the next begins. */
  ghost predicate InOrder(s: string, cs: seq<Candidate>, from: nat) {
    && (forall i :: 0 <= i < |cs| ==> from <= cs[i].start < cs[i].end <= |s|)
    && (forall i, j :: 0 <= i < j < |cs| ==> cs[i].end <= cs[j].start)
  }

  lemma DisjointSurvivesSort(cs: seq<Candidate>, before: Order)
    requires Disjoint(cs) && forall i :: 0 <= i < |cs| ==> cs[i].start < cs[i].end
    ensures Disjoint(Sort(cs, before))
  {
    var r := Sort(cs, before);
    SortKeepsElements(cs, before);
    hide Sort;
    forall i, j | 0 <= i < j < |r| ensures !Overlap(r[i], r[j]) {
      assert r[i] in cs && r[j] in cs;
      PermutedPair(cs, r, i, j);
    }
  }

  lemma PermutedPair(cs: seq<Candidate>, r: seq<Candidate>, i: nat, j: nat)
    requires Disjoint(cs) && multiset(r) == multiset(cs) && i < j < |r|
    requires r[i] in cs && r[j] in cs && r[i].start < r[i].end
    ensures !Overlap(r[i], r[j])
  {
    if r[i] == r[j] {
      OnceOnly(cs, r[i]);
      TwiceInSort(r, i, j);
    } else {
      var a, b :| 0 <= a < |cs| && 0 <= b < |cs| && cs[a] == r[i] && cs[b] == r[j];
      assert a < b || b < a;
    }
  }

  /** Non-empty ranges overlap themselves, so a disjoint list holds none twice. */
  lemma {:induction false} OnceOnly(cs: seq<Candidate>, c: Candidate)
    requires Disjoint(cs) && c.start < c.end
    ensures multiset(cs)[c] <= 1
  {
    if cs != [] {
      var n := |cs| - 1;
      assert cs == cs[..n] + [cs[n]];
      OnceOnly(cs[..n], c);
      forall i | 0 <= i < n ensures cs[n] == c ==> cs[..n][i] != c {
        assert !Overlap(cs[i], cs[n]);
      }
    }
  }

  lemma TwiceInSort(r: seq<Candidate>, i: nat, j: nat)
    requires i < j < |r| && r[i] == r[j]
    ensures multiset(r)[r[i]] >= 2
  {
    assert r == r[..j] + [r[j]] + r[j + 1..];
    assert r[i] in r[..j];
  }

  lemma SelectedInTextOrder(s: string, all: seq<Candidate>, r: seq<Candidate>)
    requires AllSound(s, all) && Disjoint(r) && Sorted(r, StartBefore)
    requires forall c :: c in r ==> c in all
    ensures InOrder(s, r, 0) && AllSound(s, r)
  {
    hide Sound;
    forall i | 0 <= i < |r| ensures Sound(s, r[i]) {
      assert r[i] in all;
    }
    SoundRanges(s, r);
    forall i, j | 0 <= i < j < |r| ensures r[i].end <= r[j].start {
      assert !Overlap(r[i], r[j]) && !StartBefore(r[j], r[i]);
    }
  }

  lemma SoundRanges(s: string, cs: seq<Candidate>)
    requires AllSound(s, cs)
    ensures forall i :: 0 <= i < |cs| ==> 0 <= cs[i].start < cs[i].end <= |s|
  {
  }

  /** The selected edits are non-empty, in bounds, in text order and disjoint, and each is a sound candidate. */
  lemma ChosenIsInOrder(s: string, alnum: char -> bool)
    ensures InOrder(s, Chosen(s, alnum), 0) && AllSound(s, Chosen(s, alnum))
    ensures forall c :: c in Chosen(s, alnum) ==> c in Candidates(s, alnum)
  {
    hide Candidates;
    hide AllSound;
    hide InOrder;
    hide Disjoint;
    hide Sorted;
    hide Sort;
    hide Select;
    OrdersAreWeak();
    var all := Candidates(s, alnum);
    var ranked := Sort(all, RankBefore);
    var chosen := Select(ranked);
    CandidatesAreSound(s, alnum);
    SelectIsDisjoint(ranked);
    SortKeepsElements(all, RankBefore);
    SortSorts(chosen, StartBefore);
    SortKeepsElements(chosen, StartBefore);
    DisjointSurvivesSort(chosen, StartBefore);
    SelectedInTextOrder(s, all, Chosen(s, alnum));
  }

  /** Every candidate left out overlaps a selected one of no later rank. */
  lemma LeftOutIsBlocked(s: string, alnum: char -> bool, c: Candidate) returns (winner: Candidate)
    requires c in Candidates(s, alnum)
    ensures winner in Chosen(s, alnum) && Overlap(c, winner) && !RankBefore(c, winner)
  {
    hide Candidates;
    OrdersAreWeak();
    var all := Candidates(s, alnum);
    CandidatesAreSound(s, alnum);
    SortSorts(all, RankBefore);
    SortKeepsElements(all, RankBefore);
    var i :| 0 <= i < |all| && all[i] == c;
    assert Sound(s, all[i]);
    winner := RejectedIsBlocked(Sort(all, RankBefore), c);
    SortKeepsElements(Select(Sort(all, RankBefore)), StartBefore);
  }

  // ----- edits and their application

  /** One reviewable edit; its rule fixes its safety, confidence and message. */
  datatype Edit = Edit(startByte: nat, endByte: nat, original: string, replacement: string, rule: Rule)

  /** The text between two byte positions where characters begin. */
  function Slice(text: string, a: nat, b: nat): (r: string)
    requires a <= b && Utf8.IsCharBoundary(text, a) && Utf8.IsCharBoundary(text, b)
    ensures Utf8.Encode(r) == Utf8.Encode(text)[a..b]
  {
    BoundaryPositions(text, a, b);
    var i, j := Utf8.CharIndex(text, a).value, Utf8.CharIndex(text, b).value;
    Utf8.EncodeSlice(text, i, j);
    text[i..j]
  }

  lemma BoundaryPositions(text: string, a: nat, b: nat)
    requires a <= b && Utf8.IsCharBoundary(text, a) && Utf8.IsCharBoundary(text, b)
    ensures Utf8.CharIndex(text, a).Some? && Utf8.CharIndex(text, b).Some?
    ensures Utf8.CharIndex(text, a).value <= Utf8.CharIndex(text, b).value
    ensures Utf8.Offset(text, Utf8.CharIndex(text, a).value) == a && Utf8.Offset(text, Utf8.CharIndex(text, b).value) == b
    ensures b <= |Utf8.Encode(text)|
  {
    Utf8.BoundaryIffCharIndex(text, a);
    Utf8.BoundaryIffCharIndex(text, b);
    Utf8.OffsetOfCharIndex(text, a);
    Utf8.OffsetOfCharIndex(text, b);
    var i, j := Utf8.CharIndex(text, a).value, Utf8.CharIndex(text, b).value;
    if j < i {
      Utf8.OffsetMonotone(text, j, i);
    }
    Utf8.OffsetMonotone(text, j, |text|);
    Utf8.OffsetEnds(text);
  }

  predicate EditFits(text: string, e: Edit, from: nat) {
    && from <= e.startByte <= e.endByte <= |Utf8.Encode(text)|
    && Utf8.IsCharBoundary(text, e.startByte) && Utf8.IsCharBoundary(text, e.endByte)
    && Slice(text, e.startByte, e.endByte) == e.original
  }

  predicate Fits(text: string, edits: seq<Edit>, from: nat) {
    edits != [] ==> EditFits(text, edits[0], from) && Fits(text, edits[1..], edits[0].endByte)
  }

  function Splice(text: string, edits: seq<Edit>, from: nat): string
    requires Utf8.IsCharBoundary(text, from) && from <= |Utf8.Encode(text)| && Fits(text, edits, from)
    decreases |edits|
  {
    if edits == [] then Slice(text, from, |Utf8.Encode(text)|)
    else
      Slice(text, from, edits[0].startByte) + edits[0].replacement + Splice(text, edits[1..], edits[0].endByte)
  }

  /** Nothing is applied unless every edit still fits the text. */
  function ApplyEdits(text: string, edits: seq<Edit>): Option<string> {
    if Fits(text, edits, 0) then Some(Splice(text, edits, 0)) else None
  }

  /** Checks all edits first, then copies the text around them. */
  method ApplyEditsTo(text: string, edits: seq<Edit>) returns (r: Option<string>)
    ensures r == ApplyEdits(text, edits)
  {
    hide EditFits;
    hide Slice;
    hide Utf8.Encode;
    var previousEnd: nat := 0;
    for i := 0 to |edits|
      invariant Fits(text, edits, 0) <==> Fits(text, edits[i..], previousEnd)
    {
      assert edits[i..][0] == edits[i] && edits[i..][1..] == edits[i + 1..];
      if !EditFits(text, edits[i], previousEnd) {
        return None;
      }
      previousEnd := edits[i].endByte;
    }
    assert edits[0..] == edits;
    var output: string, cursor: nat := "", 0;
    for i := 0 to |edits|
      invariant Utf8.IsCharBoundary(text, cursor) && cursor <= |Utf8.Encode(text)| && Fits(text, edits[i..], cursor)
      invariant output + Splice(text, edits[i..], cursor) == Splice(text, edits, 0)
    {
      SpliceHead(text, edits[i..], cursor);
      assert edits[i..][0] == edits[i] && edits[i..][1..] == edits[i + 1..];
      ConcatAssociates(output, Slice(text, cursor, edits[i].startByte) + edits[i].replacement,
                       Splice(text, edits[i + 1..], edits[i].endByte));
      ConcatAssociates(output, Slice(text, cursor, edits[i].startByte), edits[i].replacement);
      output := output + Slice(text, cursor, edits[i].startByte) + edits[i].replacement;
      cursor := edits[i].endByte;
    }
    return Some(output + Slice(text, cursor, |Utf8.Encode(text)|));
  }

  lemma SpliceHead(text: string, edits: seq<Edit>, from: nat)
    requires Utf8.IsCharBoundary(text, from) && from <= |Utf8.Encode(text)| && Fits(text, edits, from) && edits != []
    ensures var e := edits[0];
            && from <= e.startByte <= e.endByte <= |Utf8.Encode(text)|
            && Utf8.IsCharBoundary(text, e.startByte) && Utf8.IsCharBoundary(text, e.endByte)
            && Fits(text, edits[1..], e.endByte)
            && Splice(text, edits, from)
               == Slice(text, from, e.startByte) + e.replacement + Splice(text, edits[1..], e.endByte)
  {
    hide Slice;
  }

  /** The edit still fits: its range lies behind `from`, begins and ends where characters do, and holds its original. */
  predicate Standing(b: bytes, e: Edit, from: nat) {
    && from <= e.startByte <= e.endByte <= |b|
    && (e.startByte == 0 || e.startByte == |b| || b[e.startByte] / 64 != 2)
    && (e.endByte == 0 || e.endByte == |b| || b[e.endByte] / 64 != 2)
    && b[e.startByte..e.endByte] == Utf8.Encode(e.original)
  }

  lemma EditFitsExactly(text: string, e: Edit, from: nat)
    ensures EditFits(text, e, from) <==> Standing(Utf8.Encode(text), e, from)
  {
    hide Utf8.Encode;
    if from <= e.startByte <= e.endByte && Utf8.IsCharBoundary(text, e.startByte)
       && Utf8.IsCharBoundary(text, e.endByte) {
      var slice := Slice(text, e.startByte, e.endByte);
      BoundaryPositions(text, e.startByte, e.endByte);
      hide Slice;
      if Utf8.Encode(slice) == Utf8.Encode(e.original) {
        Utf8.EncodeInjective(slice, e.original);
      }
    }
  }

  /** Where the edit before edit i ends. */
  function EndBefore(edits: seq<Edit>, i: nat, from: nat): nat
    requires i <= |edits|
  {
    if i == 0 then from else edits[i - 1].endByte
  }

  predicate AllStanding(b: bytes, edits: seq<Edit>, from: nat) {
    forall i :: 0 <= i < |edits| ==> Standing(b, edits[i], EndBefore(edits, i, from))
  }

  lemma AllStandingHead(b: bytes, edits: seq<Edit>, from: nat)
    requires edits != []
    ensures AllStanding(b, edits, from) <==>
              Standing(b, edits[0], from) && AllStanding(b, edits[1..], edits[0].endByte)
  {
    hide Standing;
    var rest := edits[1..];
    if AllStanding(b, edits, from) {
      forall i | 0 <= i < |rest| ensures Standing(b, rest[i], EndBefore(rest, i, edits[0].endByte)) {
        assert Standing(b, edits[i + 1], EndBefore(edits, i + 1, from));
      }
      assert Standing(b, edits[0], EndBefore(edits, 0, from));
    }
    if Standing(b, edits[0], from) && AllStanding(b, rest, edits[0].endByte) {
      forall i | 0 <= i < |edits| ensures Standing(b, edits[i], EndBefore(edits, i, from)) {
        if i > 0 {
          assert Standing(b, rest[i - 1], EndBefore(rest, i - 1, edits[0].endByte));
        }
      }
    }
  }

  lemma {:induction false} FitsExactly(text: string, edits: seq<Edit>, from: nat)
    ensures Fits(text, edits, from) <==> AllStanding(Utf8.Encode(text), edits, from)
    decreases |edits|
  {
    hide Utf8.Encode;
    hide Standing;
    hide EditFits;
    if edits != [] {
      EditFitsExactly(text, edits[0], from);
      FitsExactly(text, edits[1..], edits[0].endByte);
      AllStandingHead(Utf8.Encode(text), edits, from);
    }
  }

  /** Edits apply to a text exactly when each of them still fits it behind the one before. */
  lemma AppliesExactly(text: string, edits: seq<Edit>)
    ensures ApplyEdits(text, edits).Some? <==> AllStanding(Utf8.Encode(text), edits, 0)
  {
    FitsExactly(text, edits, 0);
    hide Fits;
    hide AllStanding;
  }

  // ----- the same edits in characters

  function EditOf(s: string, c: Candidate): Edit
    requires c.start <= c.end <= |s|
  {
    Edit(Utf8.Offset(s, c.start), Utf8.Offset(s, c.end), s[c.start..c.end], c.replacement, c.rule)
  }

  function EditsOf(s: string, cs: seq<Candidate>): (es: seq<Edit>)
    requires forall i :: 0 <= i < |cs| ==> cs[i].start <= cs[i].end <= |s|
    ensures |es| == |cs| && forall i :: 0 <= i < |cs| ==> es[i] == EditOf(s, cs[i])
  {
    if cs == [] then [] else [EditOf(s, cs[0])] + EditsOf(s, cs[1..])
  }

  function SpliceChars(s: string, cs: seq<Candidate>, from: nat): string
    requires from <= |s| && InOrder(s, cs, from)
    decreases |cs|
  {
    if cs == [] then s[from..]
    else
      InOrderTail(s, cs, from);
      s[from..cs[0].start] + cs[0].replacement + SpliceChars(s, cs[1..], cs[0].end)
  }

  lemma InOrderTail(s: string, cs: seq<Candidate>, from: nat)
    requires InOrder(s, cs, from) && cs != []
    ensures InOrder(s, cs[1..], cs[0].end)
  {
  }

  lemma SliceOfOffsets(s: string, i: nat, j: nat)
    requires i <= j <= |s|
    ensures Utf8.Offset(s, i) <= Utf8.Offset(s, j) <= |Utf8.Encode(s)|
    ensures Utf8.IsCharBoundary(s, Utf8.Offset(s, i)) && Utf8.IsCharBoundary(s, Utf8.Offset(s, j))
    ensures Slice(s, Utf8.Offset(s, i), Utf8.Offset(s, j)) == s[i..j]
  {
    Utf8.CharIndexOfOffset(s, i);
    Utf8.CharIndexOfOffset(s, j);
    Utf8.BoundaryIffCharIndex(s, Utf8.Offset(s, i));
    Utf8.BoundaryIffCharIndex(s, Utf8.Offset(s, j));
    Utf8.EncodeSlice(s, i, j);
  }

  /** Edits made from ranges in order fit the text, and applying them is the splice in characters. */
  lemma {:induction false} ApplyIsSplice(s: string, cs: seq<Candidate>, from: nat)
    requires from <= |s| && InOrder(s, cs, from)
    ensures Utf8.IsCharBoundary(s, Utf8.Offset(s, from)) && Utf8.Offset(s, from) <= |Utf8.Encode(s)|
    ensures Fits(s, EditsOf(s, cs), Utf8.Offset(s, from))
    ensures Splice(s, EditsOf(s, cs), Utf8.Offset(s, from)) == SpliceChars(s, cs, from)
    decreases |cs|
  {
    hide Slice;
    SliceOfOffsets(s, from, |s|);
    Utf8.OffsetEnds(s);
    if cs != [] {
      InOrderTail(s, cs, from);
      SliceOfOffsets(s, from, cs[0].start);
      SliceOfOffsets(s, cs[0].start, cs[0].end);
      ApplyIsSplice(s, cs[1..], cs[0].end);
      assert EditsOf(s, cs)[1..] == EditsOf(s, cs[1..]);
    } else {
      assert s[from..|s|] == s[from..];
    }
  }

  lemma LastInOrder(s: string, cs: seq<Candidate>, c: Candidate, from: nat)
    requires from <= |s| && InOrder(s, cs + [c], from)
    ensures from <= c.start < c.end <= |s| && InOrder(s[..c.start], cs, from)
  {
    var all := cs + [c];
    assert all[|cs|] == c;
    forall i | 0 <= i < |cs| ensures from <= cs[i].start < cs[i].end <= c.start {
      assert all[i] == cs[i];
    }
    forall i, j | 0 <= i < j < |cs| ensures cs[i].end <= cs[j].start {
      assert all[i] == cs[i] && all[j] == cs[j];
    }
  }

  lemma SpliceFirst(s: string, cs: seq<Candidate>, from: nat)
    requires from <= |s| && InOrder(s, cs, from) && cs != []
    ensures from <= cs[0].start < cs[0].end <= |s| && InOrder(s, cs[1..], cs[0].end)
    ensures SpliceChars(s, cs, from) == s[from..cs[0].start] + cs[0].replacement + SpliceChars(s, cs[1..], cs[0].end)
  {
    InOrderTail(s, cs, from);
  }

  lemma SpliceNothing(s: string, from: nat)
    requires from <= |s|
    ensures InOrder(s, [], from) && SpliceChars(s, [], from) == s[from..]
  {
  }

  /** The last of several edits replaces its own range and leaves what follows alone. */
  lemma {:induction false} SpliceLast(s: string, cs: seq<Candidate>, c: Candidate, from: nat)
    requires from <= |s| && InOrder(s, cs + [c], from)
    ensures from <= c.start < c.end <= |s| && InOrder(s[..c.start], cs, from)
    ensures SpliceChars(s, cs + [c], from) == SpliceChars(s[..c.start], cs, from) + c.replacement + s[c.end..]
    decreases |cs|
  {
    hide SpliceChars;
    LastInOrder(s, cs, c, from);
    SpliceFirst(s, cs + [c], from);
    if cs == [] {
      assert [] + [c] == [c] && [c][1..] == [];
      SpliceNothing(s, c.end);
      SpliceNothing(s[..c.start], from);
      hide InOrder;
      assert s[..c.start][from..] == s[from..c.start];
    } else {
      assert (cs + [c])[1..] == cs[1..] + [c] && (cs + [c])[0] == cs[0];
      SpliceFirst(s[..c.start], cs, from);
      SpliceLast(s, cs[1..], c, cs[0].end);
      hide InOrder;
      var head, mid := s[from..cs[0].start] + cs[0].replacement, SpliceChars(s[..c.start], cs[1..], cs[0].end);
      assert s[..c.start][from..cs[0].start] == s[from..cs[0].start];
      ConcatAssociates(head, mid, c.replacement);
      ConcatAssociates(head, mid + c.replacement, s[c.end..]);
    }
  }

  // ----- what cleanup keeps

  lemma EncodeThree(a: string, b: string, c: string)
    ensures |Utf8.Encode(a + b + c)| == |Utf8.Encode(a)| + |Utf8.Encode(b)| + |Utf8.Encode(c)|
  {
    Utf8.EncodeConcat(a, b);
    Utf8.EncodeConcat(a + b, c);
  }

  function Newlines(s: string): nat {
    if s == "" then 0 else (if s[0] == '\n' then 1 else 0) + Newlines(s[1..])
  }

  lemma {:induction false} NewlinesAdd(a: string, b: string)
    ensures Newlines(a + b) == Newlines(a) + Newlines(b)
  {
    if a == "" {
      assert a + b == b;
    } else {
      assert (a + b)[1..] == a[1..] + b;
      NewlinesAdd(a[1..], b);
    }
  }

  lemma {:induction false} NoNewlines(a: string)
    requires '\n' !in a
    ensures Newlines(a) == 0
  {
    if a != "" {
      NoNewlines(a[1..]);
    }
  }

  lemma NewlinesThree(a: string, b: string, c: string)
    requires '\n' !in b
    ensures Newlines(a + b + c) == Newlines(a) + Newlines(c)
  {
    NewlinesAdd(a + b, c);
    NewlinesAdd(a, b);
    NoNewlines(b);
  }

  lemma CutKeeps(head: string, cut: string, tail: string, replacement: string, rest: string)
    requires '\n' !in cut && '\n' !in replacement
    requires |Utf8.Encode(replacement)| <= |Utf8.Encode(cut)| && |Utf8.Encode(rest)| <= |Utf8.Encode(tail)|
    requires Newlines(rest) == Newlines(tail)
    ensures |Utf8.Encode(head + replacement + rest)| <= |Utf8.Encode(head + cut + tail)|
    ensures Newlines(head + replacement + rest) == Newlines(head + cut + tail)
  {
    EncodeThree(head, cut, tail);
    EncodeThree(head, replacement, rest);
    NewlinesThree(head, cut, tail);
    NewlinesThree(head, replacement, rest);
  }

  /** Splicing sound ranges never adds a byte and keeps every newline. */
  lemma {:induction false} SpliceKeeps(s: string, cs: seq<Candidate>, from: nat)
    requires from <= |s| && InOrder(s, cs, from) && AllSound(s, cs)
    ensures |Utf8.Encode(SpliceChars(s, cs, from))| <= |Utf8.Encode(s[from..])|
    ensures Newlines(SpliceChars(s, cs, from)) == Newlines(s[from..])
    decreases |cs|
  {
    hide Newlines;
    hide Utf8.Encode;
    if cs != [] {
      var c := cs[0];
      InOrderTail(s, cs, from);
      assert Sound(s, c) && AllSound(s, cs[1..]);
      SpliceKeeps(s, cs[1..], c.end);
      CutKeeps(s[from..c.start], s[c.start..c.end], s[c.end..], c.replacement, SpliceChars(s, cs[1..], c.end));
      assert s[from..] == s[from..c.start] + s[c.start..c.end] + s[c.end..];
    }
  }

  // ----- the report

  datatype Report = Report(clean: bool, fingerprint: string, originalBytes: nat, originalCharacters: nat,
                           suggested: string, safeEdits: nat, reviewEdits: nat, edits: seq<Edit>)

  function SafeOnly(edits: seq<Edit>): seq<Edit> {
    if edits == [] then [] else (if IsSafe(edits[0].rule) then [edits[0]] else []) + SafeOnly(edits[1..])
  }

  lemma {:induction false} SafeOnlyFilters(edits: seq<Edit>)
    ensures |SafeOnly(edits)| <= |edits|
    ensures forall e :: e in SafeOnly(edits) <==> e in edits && e.rule in {OuterWhitespace, PunctuationSpacing}
    ensures (forall e :: e in edits ==> e.rule in {OuterWhitespace, PunctuationSpacing}) ==> SafeOnly(edits) == edits
  {
    if edits != [] {
      SafeOnlyFilters(edits[1..]);
      assert edits == [edits[0]] + edits[1..];
    }
  }

  /** A report counts its edits: the safe ones delete blanks, all others are for review. */
  lemma CountsAddUp(s: string, alnum: char -> bool)
    ensures var report := Check(s, alnum);
            && report.safeEdits + report.reviewEdits == |report.edits|
            && (report.clean <==> report.edits == [])
            && (report.safeEdits == 0 <==> forall e :: e in report.edits ==>
                                             e.rule != OuterWhitespace && e.rule != PunctuationSpacing)
            && report.originalBytes == |Utf8.Encode(s)| && report.originalCharacters == |s|
  {
    hide Chosen;
    hide EditsOf;
    SafeOnlyFilters(ChosenEdits(s, alnum));
    hide SafeOnly;
    hide ApplyEdits;
    var safe := SafeOnly(ChosenEdits(s, alnum));
    if safe != [] {
      assert safe[0] in safe;
    }
  }

  function ChosenEdits(s: string, alnum: char -> bool): (es: seq<Edit>)
    ensures |es| == |Chosen(s, alnum)|
  {
    ChosenIsInOrder(s, alnum);
    EditsOf(s, Chosen(s, alnum))
  }

  function Check(s: string, alnum: char -> bool): Report {
    var edits := ChosenEdits(s, alnum);
    var suggested := match ApplyEdits(s, edits) case Some(t) => t case None => s;
    Report(edits == [], Fingerprint.FingerprintText(Utf8.Encode(s)), |Utf8.Encode(s)|, |s|, suggested,
           |SafeOnly(edits)|, SaturatingSub(|edits|, |SafeOnly(edits)|), edits)
  }

  function ApplyReport(text: string, report: Report): Option<string> {
    if |Utf8.Encode(text)| != report.originalBytes || |text| != report.originalCharacters
       || Fingerprint.FingerprintText(Utf8.Encode(text)) != report.fingerprint then None
    else ApplyEdits(text, report.edits)
  }

  /** A report's edits always apply to its own text; the result is the suggestion, which has no more bytes than
      the text and all of its newlines. */
  lemma ReportApplies(s: string, alnum: char -> bool)
    ensures var report := Check(s, alnum);
            && ApplyReport(s, report) == Some(report.suggested)
            && ApplyEdits(s, report.edits) == Some(report.suggested)
            && |Utf8.Encode(report.suggested)| <= |Utf8.Encode(s)|
            && Newlines(report.suggested) == Newlines(s)
  {
    hide Chosen;
    hide AllSound;
    ChosenIsInOrder(s, alnum);
    ApplyIsSplice(s, Chosen(s, alnum), 0);
    SpliceKeeps(s, Chosen(s, alnum), 0);
    Utf8.OffsetEnds(s);
    assert s[0..] == s;
  }

  /** A report is never applied to a text that differs from its own in exactly one byte. */
  lemma OneByteChangeIsRejected(s: string, t: string, alnum: char -> bool, before: bytes, x: byte, y: byte, after: bytes)
    requires Utf8.Encode(s) == before + [x] + after && Utf8.Encode(t) == before + [y] + after && x != y
    ensures ApplyReport(t, Check(s, alnum)) == None
  {
    Fingerprint.OneByteChangesFnv(before, x, y, after);
    if Fingerprint.FingerprintText(Utf8.Encode(t)) == Fingerprint.FingerprintText(Utf8.Encode(s)) {
      Fingerprint.FingerprintTextInjective(Utf8.Encode(t), Utf8.Encode(s));
    }
  }

  /** The scanners in order, the greedy loop over the ranked candidates, and the report. */
  method CheckText(s: string, alnum: char -> bool) returns (report: Report)
    ensures report == Check(s, alnum)
  {
    hide Sort;
    var candidates := OuterSpec(s);
    candidates := ScanRepeatedWords(s, alnum, candidates);
    candidates := ScanSpacing(s, candidates);
    candidates := ScanRepeatedPunctuation(s, candidates);
    candidates := ScanRepeatedWhitespace(s, candidates);
    candidates := ScanSentenceCase(s, candidates);
    var selected := SelectCandidates(Sort(candidates, RankBefore));
    selected := Sort(selected, StartBefore);
    assert selected == Chosen(s, alnum);
    ChosenIsInOrder(s, alnum);
    hide Chosen;
    var edits := EditsOf(s, selected);
    var applied := ApplyEditsTo(s, edits);
    var suggested := if applied.Some? then applied.value else s;
    var safe := |SafeOnly(edits)|;
    var bytes := Utf8.Encode(s);
    var fingerprint := Fingerprint.FingerprintOf(bytes);
    report := Report(edits == [], fingerprint, |bytes|, |s|, suggested, safe, SaturatingSub(|edits|, safe), edits);
  }

  method SelectCandidates(ranked: seq<Candidate>) returns (selected: seq<Candidate>)
    ensures selected == Select(ranked)
  {
    selected := [];
    for i := 0 to |ranked|
      invariant selected == Select(ranked[..i])
    {
      assert ranked[..i + 1][..i] == ranked[..i];
      var c := ranked[i];
      if c.start >= c.end || Blocked(c, selected) {
        continue;
      }
      selected := selected + [c];
    }
    assert ranked[..|ranked|] == ranked;
  }
}
