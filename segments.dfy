/** The secondary-structure segment arithmetic of
    tool/BackboneSegmentAnalyser.java. A segment is a Tuple2 (start, end) of
    bond indices. The chain tree's helix and sheet lists are passed in
    directly: the ChainTree fields that hold them are not part of this
    model. */
module SegmentAnalysis {
  import opened Util
  import opened Tuples
  import opened Sorting

  type Segment = Tuple2<int, int>

  /** getHelixSegments, lines 17-19: the helix list itself. */
  function HelixSegments(helices: seq<Segment>): (r: seq<Segment>)
    ensures r == helices
  {
    helices
  }

  // ---------------------------------------------------------------------
  // getSheetSegments: insertion by start

  /** Non-decreasing by start. */
  predicate ByStart(s: seq<Segment>)
  {
    forall a, b :: 0 <= a < b < |s| ==> s[a].x <= s[b].x
  }

  /** The index the scan of line 26 stops at: the first segment whose start
      is not below x, or the length when there is none. */
  function FirstNotBelow(s: seq<Segment>, x: int): (i: nat)
    ensures i <= |s|
    ensures forall k :: 0 <= k < i ==> s[k].x < x
    ensures i == |s| || s[i].x >= x
  {
    if |s| == 0 || s[0].x >= x then 0 else 1 + FirstNotBelow(s[1..], x)
  }

  /** Line 30: the segment inserted at that index. */
  function InsertByStart(s: seq<Segment>, t: Segment): seq<Segment>
  {
    var i := FirstNotBelow(s, t.x);
    s[..i] + [t] + s[i..]
  }

  /** The list built by lines 22-31 from the sheets in input order. */
  function SortedByStart(s: seq<Segment>): seq<Segment>
    decreases |s|
  {
    if |s| == 0 then [] else InsertByStart(SortedByStart(s[..|s| - 1]), s[|s| - 1])
  }

  /** The inserted list, slot by slot: the segments below the insertion
      index, the new segment, then the rest shifted by one. */
  lemma InsertByStartSlots(s: seq<Segment>, t: Segment)
    ensures var i := FirstNotBelow(s, t.x); var r := InsertByStart(s, t);
      |r| == |s| + 1 && r[i] == t &&
      (forall k :: 0 <= k < i ==> r[k] == s[k]) &&
      (forall k :: i < k < |r| ==> r[k] == s[k - 1])
  {
  }

  /** Inserting into an ordered list keeps it ordered and puts the new
      segment in front of every segment with the same start (so equal
      starts end up in reverse input order). */
  lemma InsertByStartSorted(s: seq<Segment>, t: Segment)
    requires ByStart(s)
    ensures ByStart(InsertByStart(s, t))
    ensures var i := FirstNotBelow(s, t.x);
      InsertByStart(s, t)[i] == t && forall k :: i < k < |s| + 1 ==> InsertByStart(s, t)[k].x >= t.x
  {
    var i := FirstNotBelow(s, t.x);
    var r := InsertByStart(s, t);
    InsertByStartSlots(s, t);
    forall a, b | 0 <= a < b < |r|
      ensures r[a].x <= r[b].x
    {
      if b <= i {
      } else if a <= i {
        assert r[b] == s[b - 1];
      } else {
        assert r[a] == s[a - 1] && r[b] == s[b - 1];
      }
    }
  }

  /** Insertion adds exactly the new segment. */
  lemma InsertByStartAdds(s: seq<Segment>, t: Segment)
    ensures multiset(InsertByStart(s, t)) == multiset(s) + multiset{t}
  {
    var i := FirstNotBelow(s, t.x);
    assert s[..i] + s[i..] == s;
    assert multiset(InsertByStart(s, t)) == multiset(s[..i]) + multiset{t} + multiset(s[i..]);
  }

  /** The sheets come back ordered by start, each one exactly once. */
  lemma {:induction false} SortedByStartSorted(s: seq<Segment>)
    ensures ByStart(SortedByStart(s))
    ensures multiset(SortedByStart(s)) == multiset(s) && |SortedByStart(s)| == |s|
  {
    if |s| > 0 {
      var p := s[..|s| - 1];
      SortedByStartSorted(p);
      InsertByStartSorted(SortedByStart(p), s[|s| - 1]);
      InsertByStartAdds(SortedByStart(p), s[|s| - 1]);
      assert p + [s[|s| - 1]] == s;
    }
  }

  /** getSheetSegments, lines 21-33: each sheet in turn is inserted before
      the first already placed sheet whose start is not below its own. */
  method SheetSegments(sheets: seq<Segment>) returns (sorted: seq<Segment>)
    ensures sorted == SortedByStart(sheets)
    ensures ByStart(sorted) && multiset(sorted) == multiset(sheets)
  {
    sorted := [];
    for t := 0 to |sheets|
      invariant sorted == SortedByStart(sheets[..t])
    {
      var sheet := sheets[t];
      var i := 0;
      while i < |sorted| && sorted[i].x < sheet.x
        invariant 0 <= i <= |sorted|
        invariant forall k :: 0 <= k < i ==> sorted[k].x < sheet.x
      {
        i := i + 1;
      }
      ghost var f := FirstNotBelow(sorted, sheet.x);
      assert i == f;
      sorted := sorted[..i] + [sheet] + sorted[i..];
      assert sheets[..t + 1][..t] == sheets[..t];
    }
    assert sheets[..|sheets|] == sheets;
    SortedByStartSorted(sheets);
  }

  // ---------------------------------------------------------------------
  // getIntermediateSegments

  function Starts(s: seq<Segment>): (r: seq<int>)
    ensures |r| == |s|
  {
    seq(|s|, i requires 0 <= i < |s| => s[i].x)
  }

  function Ends(s: seq<Segment>): (r: seq<int>)
    ensures |r| == |s|
  {
    seq(|s|, i requires 0 <= i < |s| => s[i].y)
  }

  /** What lines 35-60 compute from the helices followed by the sheets:
      the starts and the ends sorted each on its own, and segment i running
      from just after the i-th end to just before the (i+1)-th start; one
      segment fewer than there are structures, and none when there are
      none. */
  function Intermediate(structures: seq<Segment>): (r: seq<Segment>)
    ensures |r| == Max(0, |structures| - 1)
    ensures forall a, b :: 0 <= a < b < |r| ==> r[a].x <= r[b].x && r[a].y <= r[b].y
  {
    var starts := SortInts(Starts(structures));
    var ends := SortInts(Ends(structures));
    seq(Max(0, |structures| - 1), i requires 0 <= i < Max(0, |structures| - 1) => Tuple2(ends[i] + 1, starts[i + 1] - 1))
  }

  /** When the structures are ordered along the chain and do not overlap,
      the intermediate segments are exactly the gaps between consecutive
      structures. */
  lemma IntermediateGaps(structures: seq<Segment>)
    requires forall a :: 0 <= a < |structures| ==> structures[a].x <= structures[a].y
    requires forall a, b :: 0 <= a < b < |structures| ==> structures[a].y < structures[b].x
    ensures forall i :: 0 <= i < |Intermediate(structures)| ==>
      Intermediate(structures)[i] == Tuple2(structures[i].y + 1, structures[i + 1].x - 1)
  {
    var starts := Starts(structures);
    var ends := Ends(structures);
    assert Ascending(starts) by {
      forall a, b | 0 <= a < b < |starts|
        ensures starts[a] <= starts[b]
      {
        assert structures[a].x <= structures[a].y < structures[b].x;
      }
    }
    assert Ascending(ends) by {
      forall a, b | 0 <= a < b < |ends|
        ensures ends[a] <= ends[b]
      {
        assert structures[a].y < structures[b].x <= structures[b].y;
      }
    }
    SortIntsSorted(starts);
    SortIntsSorted(ends);
  }

  /** getIntermediateSegments, lines 35-60. The chain length is appended to
      the starts as a sentinel, but the loop only reads starts[1..k-1], so
      the result does not depend on it. */
  method IntermediateSegments(helices: seq<Segment>, sheets: seq<Segment>, length: int) returns (r: seq<Segment>)
    ensures r == Intermediate(helices + sheets)
  {
    var structures := helices + sheets;
    var starts: seq<int> := [];
    var ends: seq<int> := [];
    for k := 0 to |structures|
      invariant starts == Starts(structures[..k]) && ends == Ends(structures[..k])
    {
      starts := starts + [structures[k].x];
      ends := ends + [structures[k].y];
    }
    assert structures[..|structures|] == structures;
    starts := SortInts(starts);
    ends := SortInts(ends);
    starts := starts + [length];
    r := [];
    var i := 0;
    var j := |ends| - 1;
    while i < j
      invariant 0 <= i <= Max(0, j) && |r| == i
      invariant forall k :: 0 <= k < i ==> r[k] == Intermediate(structures)[k]
    {
      r := r + [Tuple2(ends[i] + 1, starts[i + 1] - 1)];
      i := i + 1;
    }
  }
}
