/** Sorting a list of integers, as java.util.Collections.sort does for the
    bond indices of a helix or sheet and for segment starts and ends. */
module Sorting {
  predicate Ascending(s: seq<int>)
  {
    forall a, b :: 0 <= a < b < |s| ==> s[a] <= s[b]
  }

  /** x inserted before the first element not below it. */
  function Insert(x: int, s: seq<int>): seq<int>
  {
    if |s| == 0 then [x]
    else if x <= s[0] then [x] + s
    else [s[0]] + Insert(x, s[1..])
  }

  lemma {:induction false} InsertSorted(x: int, s: seq<int>)
    requires Ascending(s)
    ensures Ascending(Insert(x, s)) && multiset(Insert(x, s)) == multiset(s) + multiset{x}
    ensures |Insert(x, s)| == |s| + 1
    ensures forall e :: e in Insert(x, s) ==> e == x || e in s
  {
    if |s| == 0 {
    } else if x <= s[0] {
      AscendingCons(x, s);
    } else {
      var t := Insert(x, s[1..]);
      AscendingSplit(s);
      InsertSorted(x, s[1..]);
      assert s == [s[0]] + s[1..];
      AscendingCons(s[0], t);
      assert Insert(x, s) == [s[0]] + t;
    }
  }

  lemma AscendingCons(h: int, t: seq<int>)
    requires Ascending(t) && forall e :: e in t ==> h <= e
    ensures Ascending([h] + t)
  {
    var r := [h] + t;
    forall a, b | 0 <= a < b < |r|
      ensures r[a] <= r[b]
    {
      assert r[b] == t[b - 1] && t[b - 1] in t;
      if a > 0 {
        assert r[a] == t[a - 1];
      }
    }
  }

  /** Collections.sort on a list of integers: the same elements in
      ascending order. */
  function SortInts(s: seq<int>): (r: seq<int>)
    ensures Ascending(r) && multiset(r) == multiset(s) && |r| == |s|
  {
    if |s| == 0 then []
    else
      assert s == s[..|s| - 1] + [s[|s| - 1]];
      var r := SortInts(s[..|s| - 1]);
      InsertSorted(s[|s| - 1], r);
      Insert(s[|s| - 1], r)
  }

  /** Sorting a list that is already in order leaves it as it is. */
  lemma {:induction false} SortIntsSorted(s: seq<int>)
    requires Ascending(s)
    ensures SortInts(s) == s
  {
    if |s| > 0 {
      var p, x := s[..|s| - 1], s[|s| - 1];
      assert p + [x] == s;
      AscendingInit(p, x);
      SortIntsSorted(p);
      InsertLast(x, p);
    }
  }

  /** An ascending list's head is its least element, and its tail stays
      ascending. */
  lemma AscendingSplit(s: seq<int>)
    requires Ascending(s) && |s| > 0
    ensures Ascending(s[1..])
    ensures forall e :: e in s[1..] ==> s[0] <= e
  {
    forall e | e in s[1..]
      ensures s[0] <= e
    {
      var a :| 0 <= a < |s[1..]| && s[1..][a] == e;
      assert s[a + 1] == e;
    }
  }

  /** An ascending list's last element is its greatest, and what comes
      before it stays ascending. */
  lemma AscendingInit(p: seq<int>, x: int)
    requires Ascending(p + [x])
    ensures Ascending(p)
    ensures forall e :: e in p ==> e <= x
  {
    forall e | e in p
      ensures e <= x
    {
      var a :| 0 <= a < |p| && p[a] == e;
      assert (p + [x])[a] == e && (p + [x])[|p|] == x;
    }
    forall a, b | 0 <= a < b < |p|
      ensures p[a] <= p[b]
    {
      assert (p + [x])[a] == p[a] && (p + [x])[b] == p[b];
    }
  }



  /** Inserting a value no smaller than anything in an ordered list appends
      it. */
  lemma {:induction false} InsertLast(x: int, s: seq<int>)
    requires Ascending(s) && forall e :: e in s ==> e <= x
    ensures Insert(x, s) == s + [x]
  {
    if |s| > 0 {
      if x <= s[0] {
        forall k | 0 <= k < |s|
          ensures s[k] == x
        {
          assert s[0] <= s[k] && s[k] in s;
        }
        assert [x] + s == s + [x];
      } else {
        forall e | e in s[1..]
          ensures e <= x
        {
          var a :| 0 <= a < |s[1..]| && s[1..][a] == e;
          assert s[a + 1] in s;
        }
        InsertLast(x, s[1..]);
        assert s == [s[0]] + s[1..];
      }
    }
  }
}
