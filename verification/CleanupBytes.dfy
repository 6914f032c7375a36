/** Ranking, overlap and boundary tests on byte offsets select the same edits as on characters. */
module CleanupBytes {
  import opened Base
  import opened CleanupRules
  import opened Cleanup
  import Utf8

  predicate Inside(s: string, c: Candidate) {
    c.start <= |s| && c.end <= |s|
  }

  predicate AllInside(s: string, cs: seq<Candidate>) {
    forall i :: 0 <= i < |cs| ==> Inside(s, cs[i])
  }

  /** The candidate with byte offsets, as a scanner reports it. */
  function InBytes(s: string, c: Candidate): Candidate
    requires Inside(s, c)
  {
    c.(start := Utf8.Offset(s, c.start), end := Utf8.Offset(s, c.end))
  }

  function AllInBytes(s: string, cs: seq<Candidate>): (bs: seq<Candidate>)
    requires AllInside(s, cs)
    ensures |bs| == |cs| && forall i :: 0 <= i < |cs| ==> bs[i] == InBytes(s, cs[i])
  {
    seq(|cs|, i requires 0 <= i < |cs| => InBytes(s, cs[i]))
  }

  lemma OffsetsCompare(s: string, i: nat, j: nat)
    requires i <= |s| && j <= |s|
    ensures Utf8.Offset(s, i) < Utf8.Offset(s, j) <==> i < j
    ensures Utf8.Offset(s, i) == Utf8.Offset(s, j) <==> i == j
  {
    hide Utf8.Offset;
    if i <= j {
      Utf8.OffsetMonotone(s, i, j);
    } else {
      Utf8.OffsetMonotone(s, j, i);
    }
  }

  lemma SameComparisons(s: string, a: Candidate, b: Candidate)
    requires Inside(s, a) && Inside(s, b)
    ensures RankBefore(InBytes(s, a), InBytes(s, b)) == RankBefore(a, b)
    ensures StartBefore(InBytes(s, a), InBytes(s, b)) == StartBefore(a, b)
    ensures Overlap(InBytes(s, a), InBytes(s, b)) == Overlap(a, b)
  {
    hide Utf8.Offset;
    OffsetsCompare(s, a.start, b.start);
    OffsetsCompare(s, a.end, b.end);
    OffsetsCompare(s, a.start, b.end);
    OffsetsCompare(s, b.start, a.end);
  }

  // ----- sorting

  ghost predicate KeepsOrder(s: string, before: Order) {
    forall a, b :: Inside(s, a) && Inside(s, b) ==> before(InBytes(s, a), InBytes(s, b)) == before(a, b)
  }

  lemma OrdersAreKept(s: string)
    ensures KeepsOrder(s, RankBefore) && KeepsOrder(s, StartBefore)
  {
    forall a, b | Inside(s, a) && Inside(s, b)
      ensures RankBefore(InBytes(s, a), InBytes(s, b)) == RankBefore(a, b)
      ensures StartBefore(InBytes(s, a), InBytes(s, b)) == StartBefore(a, b)
    {
      SameComparisons(s, a, b);
    }
  }

  lemma JoinInBytes(s: string, cs: seq<Candidate>, ds: seq<Candidate>)
    requires AllInside(s, cs) && AllInside(s, ds)
    ensures AllInside(s, cs + ds) && AllInBytes(s, cs + ds) == AllInBytes(s, cs) + AllInBytes(s, ds)
  {
    hide InBytes;
    hide Inside;
  }

  lemma OneInBytes(s: string, c: Candidate)
    requires Inside(s, c)
    ensures AllInside(s, [c]) && AllInBytes(s, [c]) == [InBytes(s, c)]
  {
    hide InBytes;
    hide Inside;
  }

  lemma SliceInBytes(s: string, cs: seq<Candidate>, i: nat, j: nat)
    requires AllInside(s, cs) && i <= j <= |cs|
    ensures AllInside(s, cs[i..j]) && AllInBytes(s, cs[i..j]) == AllInBytes(s, cs)[i..j]
  {
    hide InBytes;
    hide Inside;
  }

  lemma InsertStep(c: Candidate, cs: seq<Candidate>, before: Order)
    ensures cs == [] ==> Insert(c, cs, before) == [c]
    ensures cs != [] ==>
              Insert(c, cs, before) == if before(c, cs[0]) then [c] + cs else [cs[0]] + Insert(c, cs[1..], before)
  {
  }

  lemma HeadInBytes(s: string, c: Candidate, cs: seq<Candidate>, before: Order)
    requires Inside(s, c) && AllInside(s, cs) && cs != [] && KeepsOrder(s, before)
    ensures Inside(s, cs[0]) && AllInBytes(s, cs)[0] == InBytes(s, cs[0])
    ensures before(InBytes(s, c), AllInBytes(s, cs)[0]) == before(c, cs[0])
    ensures AllInside(s, cs[1..]) && AllInBytes(s, cs[1..]) == AllInBytes(s, cs)[1..]
  {
    hide InBytes;
    hide Inside;
  }

  lemma {:induction false} InsertInBytes(s: string, c: Candidate, cs: seq<Candidate>, before: Order)
    requires Inside(s, c) && AllInside(s, cs) && KeepsOrder(s, before)
    ensures AllInside(s, Insert(c, cs, before))
    ensures AllInBytes(s, Insert(c, cs, before)) == Insert(InBytes(s, c), AllInBytes(s, cs), before)
  {
    hide *;
    OneInBytes(s, c);
    InsertStep(c, cs, before);
    InsertStep(InBytes(s, c), AllInBytes(s, cs), before);
    if cs != [] {
      HeadInBytes(s, c, cs, before);
      if before(c, cs[0]) {
        JoinInBytes(s, [c], cs);
      } else {
        InsertInBytes(s, c, cs[1..], before);
        OneInBytes(s, cs[0]);
        JoinInBytes(s, [cs[0]], Insert(c, cs[1..], before));
      }
    }
  }

  lemma SortLast(cs: seq<Candidate>, before: Order)
    requires cs != []
    ensures Sort(cs, before) == Insert(cs[|cs| - 1], Sort(cs[..|cs| - 1], before), before)
  {
    hide Insert;
  }

  lemma {:induction false} SortInBytes(s: string, cs: seq<Candidate>, before: Order)
    requires AllInside(s, cs) && KeepsOrder(s, before)
    ensures AllInside(s, Sort(cs, before)) && AllInBytes(s, Sort(cs, before)) == Sort(AllInBytes(s, cs), before)
  {
    hide InBytes;
    hide Inside;
    hide AllInBytes;
    hide KeepsOrder;
    hide Insert;
    if cs != [] {
      var n := |cs| - 1;
      SliceInBytes(s, cs, 0, n);
      assert cs[0..n] == cs[..n] && AllInBytes(s, cs)[0..n] == AllInBytes(s, cs)[..n];
      SortInBytes(s, cs[..n], before);
      InsertInBytes(s, cs[n], Sort(cs[..n], before), before);
      hide Sort;
      SortLast(cs, before);
      SortLast(AllInBytes(s, cs), before);
    }
  }

  // ----- the greedy loop on bytes

  function SelectBytes(s: string, ranked: seq<Candidate>): seq<Candidate> {
    if ranked == [] then []
    else
      var n := |ranked| - 1;
      var (chosen, c) := (SelectBytes(s, ranked[..n]), ranked[n]);
      if c.start >= c.end || !Utf8.IsCharBoundary(s, c.start) || !Utf8.IsCharBoundary(s, c.end) || Blocked(c, chosen)
      then chosen else chosen + [c]
  }

  lemma BlockedInBytes(s: string, c: Candidate, chosen: seq<Candidate>)
    requires Inside(s, c) && AllInside(s, chosen)
    ensures Blocked(InBytes(s, c), AllInBytes(s, chosen)) <==> Blocked(c, chosen)
  {
    hide InBytes;
    hide Inside;
    hide Overlap;
    var bs := AllInBytes(s, chosen);
    forall k | 0 <= k < |chosen| ensures Overlap(InBytes(s, c), bs[k]) == Overlap(c, chosen[k]) {
      SameComparisons(s, c, chosen[k]);
    }
  }

  lemma BoundariesHold(s: string, c: Candidate)
    requires Inside(s, c)
    ensures Utf8.IsCharBoundary(s, InBytes(s, c).start) && Utf8.IsCharBoundary(s, InBytes(s, c).end)
    ensures InBytes(s, c).start >= InBytes(s, c).end <==> c.start >= c.end
  {
    SliceOfOffsets(s, c.start, |s|);
    SliceOfOffsets(s, c.end, |s|);
    OffsetsCompare(s, c.start, c.end);
  }

  lemma {:induction false} SelectInBytes(s: string, ranked: seq<Candidate>)
    requires AllInside(s, ranked)
    ensures AllInside(s, Select(ranked)) && SelectBytes(s, AllInBytes(s, ranked)) == AllInBytes(s, Select(ranked))
  {
    hide Utf8.IsCharBoundary;
    hide InBytes;
    hide Inside;
    hide AllInBytes;
    hide Blocked;
    if ranked != [] {
      var n := |ranked| - 1;
      var c, chosen := ranked[n], Select(ranked[..n]);
      SliceInBytes(s, ranked, 0, n);
      assert ranked[0..n] == ranked[..n] && AllInBytes(s, ranked)[0..n] == AllInBytes(s, ranked)[..n];
      SelectInBytes(s, ranked[..n]);
      BlockedInBytes(s, c, chosen);
      BoundariesHold(s, c);
      OneInBytes(s, c);
      JoinInBytes(s, chosen, [c]);
    }
  }

  lemma CandidatesInside(s: string, alnum: char -> bool)
    ensures AllInside(s, Candidates(s, alnum))
  {
    hide Candidates;
    CandidatesAreSound(s, alnum);
    forall i | 0 <= i < |Candidates(s, alnum)| ensures Inside(s, Candidates(s, alnum)[i]) {
      assert Sound(s, Candidates(s, alnum)[i]);
    }
  }

  /** The loop over byte offsets selects the candidates selected by character, and their edits carry those offsets. */
  lemma BytesSelectTheSame(s: string, alnum: char -> bool)
    ensures AllInside(s, Candidates(s, alnum)) && AllInside(s, Chosen(s, alnum))
    ensures Sort(SelectBytes(s, Sort(AllInBytes(s, Candidates(s, alnum)), RankBefore)), StartBefore)
            == AllInBytes(s, Chosen(s, alnum))
    ensures forall i :: 0 <= i < |Chosen(s, alnum)| ==>
              var (b, e) := (AllInBytes(s, Chosen(s, alnum))[i], ChosenEdits(s, alnum)[i]);
              e.startByte == b.start && e.endByte == b.end && e.replacement == b.replacement && e.rule == b.rule
  {
    hide Candidates;
    hide Sort;
    hide Select;
    hide SelectBytes;
    hide Utf8.Offset;
    hide InOrder;
    hide AllSound;
    CandidatesInside(s, alnum);
    OrdersAreKept(s);
    var ranked := Sort(Candidates(s, alnum), RankBefore);
    SortInBytes(s, Candidates(s, alnum), RankBefore);
    SelectInBytes(s, ranked);
    SortInBytes(s, Select(ranked), StartBefore);
  }
}
