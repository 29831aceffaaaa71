/** The adjustable chain tree of dataStructure/AdjustableChainTree.java: a
    chain tree whose peptide planes, helices and sheets are locked, and
    whose helices and sheets are each regrouped by rotations into a subtree
    of their own. */
module AdjustableChainTrees {
  import opened Util
  import opened Vectors
  import opened Matrices
  import opened ChainNodes
  import opened ChainShape
  import opened TreeRotations
  import opened Sorting
  import opened ChainTrees

  /** Trees that agree on their leaves agree on their leaf forms and on
      every backbone point. */
  lemma LeavesKeep(trig: Trig, ns: seq<Node>, ms: seq<Node>, n: nat, position: Vec3)
    requires SameLeaves(ns, ms, n) && 1 <= n && LeafForms(trig, ns, n)
    ensures LeafForms(trig, ms, n)
    ensures forall k :: 0 <= k < n ==> PointAt(ms, position, k) == PointAt(ns, position, k)
  {
    PointsUpTo(ns, ms, position, n - 1);
  }

  // ---------------------------------------------------------------------
  // group(i, j): the steps of its two loops

  /** 1 when x is the right child of its parent. */
  function RightSide(ns: seq<Node>, x: nat): int
  {
    if x < |ns| && ns[x].parent.Some? && ns[x].parent.value < |ns| && ns[ns[x].parent.value].right == Some(x)
    then 1 else 0
  }

  /** 1 when x is the left child of its parent. */
  function LeftSide(ns: seq<Node>, x: nat): int
  {
    if x < |ns| && ns[x].parent.Some? && ns[x].parent.value < |ns| && ns[ns[x].parent.value].left == Some(x)
    then 1 else 0
  }

  /** The lexicographic decrease of a three-part measure, each part
      bounded below by zero where it drops. */
  predicate Advanced(a: int, b: int, c: int, a2: int, b2: int, c2: int)
  {
    (0 <= a && a2 < a) || (a2 == a && ((0 <= b && b2 < b) || (b2 == b && 0 <= c && c2 < c)))
  }

  /** The number of bonds x's parent covers. */
  function ParentSize(ns: seq<Node>, x: nat): int
  {
    if x < |ns| && ns[x].parent.Some? && ns[x].parent.value < |ns| then Size(ns[ns[x].parent.value]) else 0
  }

  /** A node with a parent p and a grandparent g: g can be rotated towards
      whichever side p hangs on. */
  lemma Grandparent(ns: seq<Node>, n: nat, x: nat)
    requires Nodes(ns, n) && x < |ns| && ns[x].parent.Some?
    requires ns[x].parent.value < |ns| && ns[ns[x].parent.value].parent.Some?
    ensures var p := ns[x].parent.value;
            var g := ns[p].parent.value;
            && n <= p < |ns| && n <= g < |ns| && (ns[p].left == Some(x) || ns[p].right == Some(x))
            && (ns[g].left == Some(p) || ns[g].right == Some(p))
            && (ns[g].right == Some(p) ==> LeftRotatable(ns, n, g))
            && (ns[g].left == Some(p) ==> RightRotatable(ns, n, g))
  {
    var p := ns[x].parent.value;
    ParentLarger(ns, n, x);
    ParentLarger(ns, n, p);
    assert NodeOk(ns, n, x) && NodeOk(ns, n, p);
  }

  /** First loop, x the right child of p, p the right child of g:
      rotateLeft(g) lifts p into g's place and x stays p's right child. */
  lemma UpLeftRotated(ns: seq<Node>, ms: seq<Node>, n: nat, x: nat, p: nat, g: nat)
    requires Nodes(ns, n) && x < |ns| && p < |ns| && ns[x].parent == Some(p) && ns[p].right == Some(x)
    requires ns[p].parent == Some(g) && g < |ns| && ns[g].right == Some(p) && LeftRotatable(ns, n, g)
    requires SameLinks(RotatedLeft(ns, n, g), ms)
    ensures x < |ms| && p < |ms| && ms[x].low == ns[x].low && ms[x].high == ns[x].high
    ensures ms[x].parent == Some(p) && ms[p].right == Some(x) && Size(ms[p]) > Size(ns[p])
  {
    RotatedLeftAt(ns, n, g);
    LeftSlots(ns, n, g);
    ParentLarger(ns, n, x);
    ParentLarger(ns, n, p);
    if ns[g].parent.Some? {
      ParentLarger(ns, n, g);
    }
  }

  /** First loop, x the right child of p, p the left child of g:
      rotateRight(g) makes x the left child of g. */
  lemma UpRightRotated(ns: seq<Node>, ms: seq<Node>, n: nat, x: nat, p: nat, g: nat)
    requires Nodes(ns, n) && x < |ns| && p < |ns| && ns[x].parent == Some(p) && ns[p].right == Some(x)
    requires ns[p].parent == Some(g) && g < |ns| && ns[g].left == Some(p) && RightRotatable(ns, n, g)
    requires SameLinks(RotatedRight(ns, n, g), ms)
    ensures x < |ms| && g < |ms| && ms[x].low == ns[x].low && ms[x].high == ns[x].high
    ensures ms[x].parent == Some(g) && ms[g].left == Some(x) && ms[g].right != Some(x)
  {
    RotatedRightAt(ns, n, g);
    RightSlots(ns, n, g);
  }

  /** Second loop, x the left child of p, p the left child of g:
      rotateRight(g) lifts p into g's place and x stays p's left child; a
      node spanning from bond i keeps its span, or hands it to p if it was
      g. */
  lemma DownRightRotated(ns: seq<Node>, ms: seq<Node>, n: nat, x: nat, p: nat, g: nat, w: nat)
    requires Nodes(ns, n) && x < |ns| && p < |ns| && ns[x].parent == Some(p) && ns[p].left == Some(x)
    requires ns[p].parent == Some(g) && g < |ns| && ns[g].left == Some(p) && RightRotatable(ns, n, g)
    requires SameLinks(RotatedRight(ns, n, g), ms)
    requires w < |ns| && ns[w].low < ns[x].low
    ensures x < |ms| && p < |ms| && ms[x].low == ns[x].low && ms[x].high == ns[x].high
    ensures ms[x].parent == Some(p) && ms[p].left == Some(x) && Size(ms[p]) > Size(ns[p])
    ensures var w' := if w == g then p else w;
            w' < |ms| && ms[w'].low == ns[w].low && ms[w'].high == ns[w].high
  {
    RotatedRightAt(ns, n, g);
    RightSlots(ns, n, g);
    ParentLarger(ns, n, x);
    ParentLarger(ns, n, p);
    assert NodeOk(ns, n, p);
    if ns[g].parent.Some? {
      ParentLarger(ns, n, g);
    }
  }

  /** Second loop, x the left child of p, p the right child of g:
      rotateLeft(g) makes x the right child of g. */
  lemma DownLeftRotated(ns: seq<Node>, ms: seq<Node>, n: nat, x: nat, p: nat, g: nat, w: nat)
    requires Nodes(ns, n) && x < |ns| && p < |ns| && ns[x].parent == Some(p) && ns[p].left == Some(x)
    requires ns[p].parent == Some(g) && g < |ns| && ns[g].right == Some(p) && LeftRotatable(ns, n, g)
    requires SameLinks(RotatedLeft(ns, n, g), ms)
    requires w < |ns| && ns[w].low < ns[x].low
    ensures x < |ms| && g < |ms| && ms[x].low == ns[x].low && ms[x].high == ns[x].high
    ensures ms[x].parent == Some(g) && ms[g].right == Some(x) && ms[g].left != Some(x)
    ensures var w' := if w == g then p else w;
            w' < |ms| && ms[w'].low == ns[w].low && ms[w'].high == ns[w].high
  {
    RotatedLeftAt(ns, n, g);
    LeftSlots(ns, n, g);
    ParentLarger(ns, n, x);
    assert NodeOk(ns, n, p) && NodeOk(ns, n, g);
  }

  /** Second loop, x the right child of p: since some node w spans from
      bond i to j or beyond, and x lies strictly inside it, so does p. */
  lemma GoUpWithin(ns: seq<Node>, n: nat, x: nat, p: nat, w: nat, i: nat, j: nat)
    requires Nodes(ns, n) && x < |ns| && p < |ns| && w < |ns| && j < n
    requires ns[x].parent == Some(p) && ns[p].right == Some(x)
    requires ns[x].high == j && i < ns[x].low && ns[w].low == i && j <= ns[w].high
    ensures ns[p].high == j && i <= ns[p].low
  {
    ParentLarger(ns, n, x);
    assert NodeOk(ns, n, p) && NodeOk(ns, n, w);
    if p != w {
      if Size(ns[p]) <= Size(ns[w]) {
        Laminar(ns, n, p, w, j);
        var l, r := ns[w].left.value, ns[w].right.value;
        assert NodeOk(ns, n, l) && NodeOk(ns, n, r);
      } else {
        Laminar(ns, n, w, p, j);
        assert false;
      }
    }
  }

  // ---------------------------------------------------------------------
  // Locks

  /** Only the locks differ. */
  predicate OnlyLocks(ns: seq<Node>, ms: seq<Node>)
  {
    |ns| == |ms| && forall y :: 0 <= y < |ns| ==> ms[y] == ns[y].(locked := ms[y].locked)
  }

  /** Locking changes neither the tree, nor its caches, nor its points. */
  lemma LocksKeep(trig: Trig, ns: seq<Node>, ms: seq<Node>, n: nat, root: nat, position: Vec3)
    requires Tree(ns, n, root) && HeightsOk(ns, n) && TransformsOk(ns, n) && LeafForms(trig, ns, n)
    requires OnlyLocks(ns, ms)
    ensures Tree(ms, n, root) && HeightsOk(ms, n) && TransformsOk(ms, n) && LeafForms(trig, ms, n)
    ensures forall k :: 0 <= k < n ==> PointAt(ms, position, k) == PointAt(ns, position, k)
  {
    assert SameShape(ns, ms);
    ShapeTree(ns, ms, n, root);
    ShapeNodes(ns, ms, n);
    forall y: nat | y < |ms|
      ensures TransformOk(ms, n, y)
    {
      assert NodeOk(ns, n, y) && TransformOk(ns, n, y);
    }
    PointsUpTo(ns, ms, position, n - 1);
  }

  /** The leaves of ms are those of ns, but for their parent links. */
  predicate LeavesAsIn(ns: seq<Node>, ms: seq<Node>, n: nat)
  {
    n <= |ns| && n <= |ms| && forall k :: 0 <= k < n ==> ms[k] == ns[k].(parent := ms[k].parent)
  }

  /** After every listed bond is locked, the sorted list holds the same
      bonds, each inside the backbone and locked. */
  lemma SortedBondsLocked(indices: seq<int>, bonds: seq<int>, ns0: seq<Node>, ns1: seq<Node>, n: nat)
    requires bonds == SortInts(indices) && n <= |ns1| == |ns0|
    requires forall t :: 0 <= t < |indices| ==> 0 <= indices[t] < n
    requires forall y :: 0 <= y < |ns1| ==> (ns1[y].locked <==> ns0[y].locked || (y < n && y in indices))
    ensures |bonds| == |indices|
    ensures forall t :: 0 <= t < |bonds| ==> 0 <= bonds[t] < n && ns1[bonds[t]].locked
  {
    forall t | 0 <= t < |bonds|
      ensures 0 <= bonds[t] < n && ns1[bonds[t]].locked
    {
      assert bonds[t] in multiset(indices);
      assert bonds[t] in indices;
    }
  }

  /** Locking the listed bonds and then grouping, which keeps every leaf
      but its parent link, leaves exactly the listed bonds newly locked. */
  lemma LockedThenGrouped(indices: seq<int>, ns0: seq<Node>, ns1: seq<Node>, ns2: seq<Node>, n: nat)
    requires OnlyLocks(ns0, ns1) && LeavesAsIn(ns1, ns2, n)
    requires forall y :: 0 <= y < |ns1| ==> (ns1[y].locked <==> ns0[y].locked || (y < n && y in indices))
    ensures forall k :: 0 <= k < n ==> ns2[k] == ns0[k].(parent := ns2[k].parent, locked := ns2[k].locked)
    ensures forall k :: 0 <= k < n ==> (ns2[k].locked <==> ns0[k].locked || k in indices)
  {
    forall k | 0 <= k < n
      ensures ns2[k] == ns0[k].(parent := ns2[k].parent, locked := ns2[k].locked)
      ensures ns2[k].locked <==> ns0[k].locked || k in indices
    {
      assert ns1[k] == ns0[k].(locked := ns1[k].locked);
      assert ns2[k] == ns1[k].(parent := ns2[k].parent);
    }
  }

  /** Leaves that differ only in their links and locks give the same
      backbone points. */
  lemma LeavesPoints(ns: seq<Node>, ms: seq<Node>, n: nat, position: Vec3)
    requires LeavesAsIn(ns, ms, n)
    ensures PointsOf(ms, position, n) == PointsOf(ns, position, n)
  {
    if 0 < n {
      PointsUpTo(ns, ms, position, n - 1);
    }
  }

  /** The subtree under x depends only on the links. */
  lemma {:induction false} DescShape(ns: seq<Node>, ms: seq<Node>, n: nat, x: nat)
    requires Nodes(ns, n) && SameShape(ns, ms) && x < |ns|
    ensures Nodes(ms, n) && Desc(ms, n, x) == Desc(ns, n, x)
    decreases Size(ns[x])
  {
    ShapeNodes(ns, ms, n);
    assert NodeOk(ns, n, x);
    if n <= x {
      ChildSmaller(ns, n, x);
      DescShape(ns, ms, n, ns[x].left.value);
      DescShape(ns, ms, n, ns[x].right.value);
    }
  }

  // ---------------------------------------------------------------------
  // What grouping leaves alone

  /** Node y keeps its children, its span and any lock it had. */
  predicate Kept(ns: seq<Node>, ms: seq<Node>, y: nat)
  {
    && y < |ns| && y < |ms|
    && ms[y].left == ns[y].left && ms[y].right == ns[y].right
    && ms[y].low == ns[y].low && ms[y].high == ns[y].high
    && (ns[y].locked ==> ms[y].locked)
  }

  /** Node y covers no bond of i..j. */
  predicate Away(ns: seq<Node>, y: nat, i: int, j: int)
  {
    y < |ns| && (ns[y].high < i || j < ns[y].low)
  }

  /** The run r shares no bond with any of the runs rs. */
  predicate Apart(r: (int, int), rs: seq<(int, int)>)
  {
    forall t :: 0 <= t < |rs| ==> r.1 < rs[t].0 || rs[t].1 < r.0
  }

  /** Node y covers no bond of any of the runs. */
  predicate AwayAll(ns: seq<Node>, y: nat, rs: seq<(int, int)>)
  {
    y < |ns| && Apart((ns[y].low, ns[y].high), rs)
  }

  /** The bonds lo..hi are exactly the subtree under x, and all of that
      subtree is locked: what groupAndLockSecondaryStructure(lo, hi)
      leaves behind. */
  ghost predicate Grouped(ns: seq<Node>, n: nat, x: nat, lo: int, hi: int)
  {
    && Nodes(ns, n) && x < |ns| && ns[x].low == lo && ns[x].high == hi
    && forall y :: y in Desc(ns, n, x) ==> ns[y].locked
  }

  /** A rotation at b whose raised child a = b.right covers a bond of i..j
      keeps every node that covers none of them. */
  lemma LeftAway(ns: seq<Node>, ms: seq<Node>, n: nat, b: nat, k: int, i: int, j: int)
    requires LeftRotatable(ns, n, b) && SameLinks(RotatedLeft(ns, n, b), ms)
    requires i <= k <= j && ns[ns[b].right.value].low <= k <= ns[ns[b].right.value].high
    ensures forall y :: Away(ns, y, i, j) ==> Kept(ns, ms, y)
  {
    RotatedLeftAt(ns, n, b);
    LeftSlots(ns, n, b);
    if ns[b].parent.Some? {
      ParentLarger(ns, n, b);
    }
  }

  /** The mirror image: rotateRight at a, whose raised child b = a.left
      covers a bond of i..j. */
  lemma RightAway(ns: seq<Node>, ms: seq<Node>, n: nat, a: nat, k: int, i: int, j: int)
    requires RightRotatable(ns, n, a) && SameLinks(RotatedRight(ns, n, a), ms)
    requires i <= k <= j && ns[ns[a].left.value].low <= k <= ns[ns[a].left.value].high
    ensures forall y :: Away(ns, y, i, j) ==> Kept(ns, ms, y)
  {
    RotatedRightAt(ns, n, a);
    RightSlots(ns, n, a);
    if ns[a].parent.Some? {
      ParentLarger(ns, n, a);
    }
  }

  /** Two steps that each keep the nodes away from i..j keep them
      together. */
  lemma AwayTrans(ns: seq<Node>, ms: seq<Node>, os: seq<Node>, i: int, j: int)
    requires forall y :: Away(ns, y, i, j) ==> Kept(ns, ms, y)
    requires forall y :: Away(ms, y, i, j) ==> Kept(ms, os, y)
    ensures forall y :: Away(ns, y, i, j) ==> Kept(ns, os, y)
  {
    forall y | Away(ns, y, i, j)
      ensures Kept(ns, os, y)
    {
      assert Kept(ns, ms, y) && Away(ms, y, i, j);
    }
  }

  /** Keeping the nodes away from every run so far, then those away from
      one more run, keeps the nodes away from all of them. */
  lemma AwayAllStep(ns: seq<Node>, ms: seq<Node>, os: seq<Node>, rs: seq<(int, int)>, lo: int, hi: int)
    requires forall y :: AwayAll(ns, y, rs) ==> Kept(ns, ms, y)
    requires forall y :: Away(ms, y, lo, hi) ==> Kept(ms, os, y)
    ensures forall y :: AwayAll(ns, y, rs + [(lo, hi)]) ==> Kept(ns, os, y)
  {
    var rs2 := rs + [(lo, hi)];
    forall y | AwayAll(ns, y, rs2)
      ensures Kept(ns, os, y)
    {
      assert forall t :: 0 <= t < |rs| ==> rs2[t] == rs[t];
      assert AwayAll(ns, y, rs);
      assert rs2[|rs|] == (lo, hi);
      assert Kept(ns, ms, y) && Away(ms, y, lo, hi);
    }
  }

  /** The subtree under x stays the same set of slots when each of its
      nodes keeps its children. */
  lemma {:induction false} DescKept(ns: seq<Node>, ms: seq<Node>, n: nat, x: nat)
    requires Nodes(ns, n) && Nodes(ms, n) && x < |ns| && x < |ms|
    requires forall y :: y in Desc(ns, n, x) ==> Kept(ns, ms, y)
    ensures Desc(ms, n, x) == Desc(ns, n, x)
    decreases Size(ns[x])
  {
    assert NodeOk(ns, n, x) && Kept(ns, ms, x);
    if n <= x {
      ChildSmaller(ns, n, x);
      var l, r := ns[x].left.value, ns[x].right.value;
      assert Kept(ns, ms, l) && Kept(ns, ms, r);
      DescKept(ns, ms, n, l);
      DescKept(ns, ms, n, r);
    }
  }

  /** A locked subtree over lo..hi survives any change that keeps every
      node covering no bond of the runs rs, when lo..hi is apart from
      them. */
  lemma GroupedKept(ns: seq<Node>, ms: seq<Node>, n: nat, x: nat, lo: int, hi: int, rs: seq<(int, int)>)
    requires Grouped(ns, n, x, lo, hi) && Nodes(ms, n) && Apart((lo, hi), rs)
    requires forall y :: AwayAll(ns, y, rs) ==> Kept(ns, ms, y)
    ensures Grouped(ms, n, x, lo, hi)
  {
    DescSpan(ns, n, x);
    forall y | y in Desc(ns, n, x)
      ensures Kept(ns, ms, y)
    {
      assert AwayAll(ns, y, rs);
    }
    assert Kept(ns, ms, x);
    DescKept(ns, ms, n, x);
  }

  /** After grouping the runs rs from the arena ns, giving ms: each run is
      the locked subtree under the matching slot of roots, and every node
      of ns that covers no bond of any run is kept. */
  ghost predicate RunsGrouped(ns: seq<Node>, ms: seq<Node>, n: nat, rs: seq<(int, int)>, roots: seq<nat>)
  {
    && |roots| == |rs|
    && (forall t :: 0 <= t < |rs| ==> Grouped(ms, n, roots[t], rs[t].0, rs[t].1))
    && (forall y :: AwayAll(ns, y, rs) ==> Kept(ns, ms, y))
  }

  /** Grouping the helix runs hs and then the sheet runs ss leaves every
      sheet run a locked subtree, and every helix run apart from all sheet
      runs one too. */
  lemma HelicesThenSheets(ns0: seq<Node>, ns1: seq<Node>, ms: seq<Node>, n: nat,
                          hs: seq<(int, int)>, hroots: seq<nat>, ss: seq<(int, int)>, sroots: seq<nat>)
    requires Nodes(ms, n) && RunsGrouped(ns0, ns1, n, hs, hroots) && RunsGrouped(ns1, ms, n, ss, sroots)
    ensures forall r :: r in ss ==> exists x :: Grouped(ms, n, x, r.0, r.1)
    ensures forall r :: r in hs && Apart(r, ss) ==> exists x :: Grouped(ms, n, x, r.0, r.1)
  {
    forall r | r in ss
      ensures exists x :: Grouped(ms, n, x, r.0, r.1)
    {
      var t :| 0 <= t < |ss| && ss[t] == r;
      assert Grouped(ms, n, sroots[t], r.0, r.1);
    }
    forall r | r in hs && Apart(r, ss)
      ensures exists x :: Grouped(ms, n, x, r.0, r.1)
    {
      var t :| 0 <= t < |hs| && hs[t] == r;
      GroupedKept(ns1, ms, n, hroots[t], r.0, r.1, ss);
    }
  }

  /** The same, for one run i..j. */
  lemma GroupedKeptOne(ns: seq<Node>, ms: seq<Node>, n: nat, x: nat, lo: int, hi: int, i: int, j: int)
    requires Grouped(ns, n, x, lo, hi) && Nodes(ms, n) && (hi < i || j < lo)
    requires forall y :: Away(ns, y, i, j) ==> Kept(ns, ms, y)
    ensures Grouped(ms, n, x, lo, hi)
  {
    DescSpan(ns, n, x);
    forall y | y in Desc(ns, n, x)
      ensures Kept(ns, ms, y)
    {
      assert Away(ns, y, i, j);
    }
    assert Kept(ns, ms, x);
    DescKept(ns, ms, n, x);
  }

  // ---------------------------------------------------------------------
  // Helix and sheet runs

  /** Closing a run appends it to the runs handed over so far. */
  lemma SeqAssoc(runs: seq<(int, int)>, run: seq<(int, int)>, rest: seq<(int, int)>)
    ensures (runs + run) + rest == runs + (run + rest)
  {
  }

  /** One step of the scan at position t. */
  lemma ScanAdvance(s: seq<int>, t: nat, start: int, last: int)
    requires t < |s|
    ensures Scan(s[t..], start, last) ==
      if s[t] > last + 1 then [(start, last)] + Scan(s[t + 1..], s[t], s[t])
      else Scan(s[t + 1..], start, s[t])
  {
    assert s[t..][1..] == s[t + 1..];
  }

  /** The scan of lines 104-118 over the rest s of the sorted indices, with
      the current run start..last: a gap closes the run and hands it to
      groupAndLockSecondaryStructure; at the end the open run is handed over
      only when it is not a single value. */
  function Scan(s: seq<int>, start: int, last: int): seq<(int, int)>
    decreases |s|
  {
    if |s| == 0 then (if last != start then [(start, last)] else [])
    else if s[0] > last + 1 then [(start, last)] + Scan(s[1..], s[0], s[0])
    else Scan(s[1..], start, s[0])
  }

  /** The runs grouped for the sorted helix (or sheet) indices s. */
  function Runs(s: seq<int>): seq<(int, int)>
  {
    if |s| == 0 then [] else Scan(s, s[0], s[0])
  }

  /** Every run handed over is a nonempty range of consecutive indices
      that all occur in the input. */
  lemma {:induction false} ScanInside(s: seq<int>, start: int, last: int, all: seq<int>)
    requires Ascending(s) && start <= last && (|s| > 0 ==> last <= s[0])
    requires forall k :: start <= k <= last ==> k in all
    requires forall e :: e in s ==> e in all
    ensures forall r :: r in Scan(s, start, last) ==> r.0 <= r.1 && forall k :: r.0 <= k <= r.1 ==> k in all
    decreases |s|
  {
    if |s| > 0 {
      assert s[0] in s;
      forall e | e in s[1..]
        ensures e in all
      {
        assert e in s;
      }
      if s[0] > last + 1 {
        ScanInside(s[1..], s[0], s[0], all);
      } else {
        ScanInside(s[1..], start, s[0], all);
      }
    }
  }

  lemma RunsInside(s: seq<int>)
    requires Ascending(s)
    ensures forall r :: r in Runs(s) ==> r.0 <= r.1 && forall k :: r.0 <= k <= r.1 ==> k in s
  {
    if |s| > 0 {
      ScanInside(s, s[0], s[0], s);
    }
  }

  /** Every index but the greatest lies in a run handed over: only a final
      run of a single value escapes grouping. */
  lemma {:induction false} ScanCovers(s: seq<int>, start: int, last: int, e: int)
    requires Ascending(s) && start <= last && (|s| > 0 ==> last <= s[0])
    requires start <= e <= last || e in s
    requires e != if |s| == 0 then last else s[|s| - 1]
    ensures exists r :: r in Scan(s, start, last) && r.0 <= e <= r.1
    decreases |s|
  {
    if |s| == 0 {
      assert (start, last) in Scan(s, start, last);
    } else {
      var fin := s[|s| - 1];
      var fin' := if |s[1..]| == 0 then s[0] else s[1..][|s[1..]| - 1];
      assert fin' == fin;
      assert Ascending(s[1..]);
      if s[0] > last + 1 {
        assert Scan(s, start, last) == [(start, last)] + Scan(s[1..], s[0], s[0]);
        if start <= e <= last {
          assert (start, last) in Scan(s, start, last);
        } else {
          assert e == s[0] || e in s[1..];
          ScanCovers(s[1..], s[0], s[0], e);
          var r :| r in Scan(s[1..], s[0], s[0]) && r.0 <= e <= r.1;
          assert r in Scan(s, start, last);
        }
      } else {
        assert Scan(s, start, last) == Scan(s[1..], start, s[0]);
        assert start <= e <= s[0] || e in s[1..];
        ScanCovers(s[1..], start, s[0], e);
      }
    }
  }

  lemma RunsCover(s: seq<int>)
    requires Ascending(s) && |s| > 0
    ensures forall e :: e in s && e != s[|s| - 1] ==> exists r :: r in Runs(s) && r.0 <= e <= r.1
  {
    forall e | e in s && e != s[|s| - 1]
      ensures exists r :: r in Runs(s) && r.0 <= e <= r.1
    {
      ScanCovers(s, s[0], s[0], e);
    }
  }

  /** A singleton closed by a gap is grouped; a final singleton is not. */
  lemma RunsExample()
    ensures Runs([1, 2, 3, 7, 9]) == [(1, 3), (7, 7)]
    ensures Runs([4, 5]) == [(4, 5)] && Runs([4]) == []
  {
    assert [1, 2, 3, 7, 9][1..] == [2, 3, 7, 9];
    assert [2, 3, 7, 9][1..] == [3, 7, 9];
    assert [3, 7, 9][1..] == [7, 9];
    assert [7, 9][1..] == [9];
    assert [4, 5][1..] == [5];
  }

  class AdjustableChainTree {
    /** The chain tree this one extends. */
    const tree: ChainTree

    ghost predicate Valid()
      reads this, tree
    {
      tree.Valid()
    }

    /** AdjustableChainTree(points), lines 42-48: the chain tree of the
        points at the origin, then the peptide planes, the helices and the
        sheets locked, and each helix and sheet run grouped. The helix and
        sheet bond lists are given by the caller. The backbone is the
        points, and exactly the bonds 2, 5, 8, ... and those listed are
        locked. */
    constructor (points: seq<Vec3>, trig: Trig, helix: seq<int>, sheet: seq<int>)
      requires 1 <= |points| && TrigSane(trig)
      requires forall t :: 0 <= t < |helix| ==> 0 <= helix[t] < |points|
      requires forall t :: 0 <= t < |sheet| ==> 0 <= sheet[t] < |points|
      ensures Valid() && fresh(tree) && tree.n == |points| && tree.trig == trig
      ensures tree.Points() == points
      ensures forall k :: 0 <= k < tree.n ==> (tree.nodes[k].locked <==> k % 3 == 2 || k in helix || k in sheet)
      ensures forall r :: r in Runs(SortInts(sheet)) ==> exists x :: Grouped(tree.nodes, tree.n, x, r.0, r.1)
      ensures forall r :: r in Runs(SortInts(helix)) && Apart(r, Runs(SortInts(sheet))) ==>
                exists x :: Grouped(tree.nodes, tree.n, x, r.0, r.1)
    {
      tree := new ChainTree(points, Zero(), trig);
      new;
      LockPeptidePlanes();
      ghost var ns0 := tree.nodes;
      ghost var helixRoots := LockAndGroup(helix);
      ghost var ns1 := tree.nodes;
      ghost var sheetRoots := LockAndGroup(sheet);
      HelicesThenSheets(ns0, ns1, tree.nodes, tree.n, Runs(SortInts(helix)), helixRoots, Runs(SortInts(sheet)), sheetRoots);
    }

    /** changeRotationAngle(i, angle), lines 51-57: a locked bond is
        refused with nothing changed; otherwise the chain tree's own
        operation runs. Locked bonds never rotate. */
    method ChangeRotationAngle(i: int, angle: real) returns (r: Outcome<TreeError>)
      requires Valid()
      modifies tree
      ensures Valid() && tree.root == old(tree.root)
      ensures r == Fail(IndexOutOfBounds) <==> !(0 <= i < tree.n)
      ensures r == Fail(LockedBond) <==> 0 <= i < tree.n && old(tree.nodes)[i].locked
      ensures r.Fail? ==> tree.nodes == old(tree.nodes)
      ensures r.Pass? ==> tree.nodes[i] == RotatedLeaf(tree.trig, old(tree.nodes)[i], angle)
      ensures forall k :: 0 <= k < tree.n && (k != i || old(tree.nodes)[k].locked) ==> tree.nodes[k] == old(tree.nodes)[k]
      ensures forall y :: 0 <= y < |tree.nodes| ==> tree.nodes[y].locked == old(tree.nodes)[y].locked
      ensures SameShape(old(tree.nodes), tree.nodes)
      ensures old(VolumesOk(tree.nodes, tree.n)) ==> VolumesOk(tree.nodes, tree.n)
      ensures r.Pass? ==> forall x: nat :: x < |tree.nodes| && x !in Ups(old(tree.nodes), tree.n, i) ==> tree.nodes[x] == old(tree.nodes)[x]
      ensures r.Pass? ==> forall k :: 0 <= k <= i ==> PointAt(tree.nodes, tree.position, k) == PointAt(old(tree.nodes), tree.position, k)
    {
      if !(0 <= i < tree.n) {
        return Fail(IndexOutOfBounds);
      }
      if tree.nodes[i].locked {
        return Fail(LockedBond);
      }
      r := tree.ChangeRotationAngle(i, angle);
    }

    /** rotatableBonds, lines 65-75: the index of every unlocked leaf, in
        leaf order. */
    method RotatableBonds() returns (r: seq<int>)
      requires Valid()
      ensures forall a, b :: 0 <= a < b < |r| ==> r[a] < r[b]
      ensures forall k :: k in r <==> 0 <= k < tree.n && !tree.nodes[k].locked
    {
      r := [];
      for k := 0 to tree.n
        invariant forall a, b :: 0 <= a < b < |r| ==> r[a] < r[b]
        invariant forall a :: 0 <= a < |r| ==> r[a] < k
        invariant forall e :: e in r <==> 0 <= e < k && !tree.nodes[e].locked
      {
        if !tree.nodes[k].locked {
          assert NodeOk(tree.nodes, tree.n, k);
          r := r + [tree.nodes[k].low];
        }
      }
    }

    /** The bottom-up pass shared by rotateLeft and rotateRight (lines
        294-307 and 344-357): starting at `start`, every ancestor has its
        height recomputed and update() called on it, up to the root. */
    method Climb(start: nat)
      requires Tree(tree.nodes, tree.n, tree.root) && TransformsOk(tree.nodes, tree.n)
      requires LeafForms(tree.trig, tree.nodes, tree.n) && start < |tree.nodes|
      requires forall y: nat :: y < |tree.nodes| && Some(y) != tree.nodes[start].parent ==> HeightOk(tree.nodes, tree.n, y)
      modifies tree
      ensures tree.Valid() && tree.root == old(tree.root)
      ensures Rewired(old(tree.nodes), tree.nodes, tree.n, start)
      ensures SameLeaves(old(tree.nodes), tree.nodes, tree.n)
    {
      ghost var r0 := tree.nodes;
      ghost var root := tree.root;
      var n := tree.n;
      ClimbStart(r0, n, start);
      ghost var k := 0;
      var x := start;
      while tree.nodes[x].parent.Some?
        invariant Climbing(r0, tree.nodes, n, start, k) && x == Ups(r0, n, start)[k]
        invariant tree.root == root
        decreases n - Size(tree.nodes[x])
      {
        var p := tree.nodes[x].parent.value;
        ClimbStep(r0, tree.nodes, n, start, k);
        tree.nodes := Raised(tree.nodes, n, p);
        tree.Update(p);
        x, k := p, k + 1;
      }
      ClimbDone(r0, tree.nodes, n, start, k);
      RewiredLeaves(r0, tree.nodes, n, start);
      LinksTree(r0, tree.nodes, n, root);
      LeavesKeep(tree.trig, r0, tree.nodes, n, tree.position);
    }

    /** rotateLeft(b), lines 266-308: rewire b, its right child a and a's
        left child d, then recompute height, matrix, volume and energy of
        every ancestor of a, bottom-up. */
    method RotateLeft(b: nat)
      requires tree.Valid() && LeftRotatable(tree.nodes, tree.n, b)
      modifies tree
      ensures tree.Valid() && HeightsOk(tree.nodes, tree.n)
      ensures var a := old(tree.nodes[b].right.value);
              && Rewired(RotatedLeft(old(tree.nodes), tree.n, b), tree.nodes, tree.n, a)
              && tree.root == if old(tree.nodes[b].parent).None? then a else old(tree.root)
      ensures SameLeaves(old(tree.nodes), tree.nodes, tree.n)
      ensures tree.Points() == old(tree.Points())
    {
      ghost var ns := tree.nodes;
      var n := tree.n;
      var a := tree.nodes[b].right.value;
      RotatedLeftAt(ns, n, b);
      RotatedLeftTree(ns, n, tree.root, b);
      RotatedLeftTransforms(ns, n, b);
      RotatedLeftHeights(ns, n, b);
      RotatedLeftLeaves(ns, n, b);
      tree.nodes := RotatedLeft(tree.nodes, n, b);
      if tree.nodes[a].parent.None? {
        tree.root := a;
      }
      ghost var r0 := tree.nodes;
      LeavesKeep(tree.trig, ns, r0, n, tree.position);
      Climb(a);
      SameLeavesTrans(ns, r0, tree.nodes, n);
      LeavesKeep(tree.trig, ns, tree.nodes, n, tree.position);
    }

    /** rotateRight(a), lines 316-358, with the heights of the rotated
        nodes computed as RightRotationHeights says: rewire a, its left
        child b and b's right child d, then recompute every ancestor of b,
        bottom-up. */
    method RotateRight(a: nat)
      requires tree.Valid() && RightRotatable(tree.nodes, tree.n, a)
      modifies tree
      ensures tree.Valid() && HeightsOk(tree.nodes, tree.n)
      ensures var b := old(tree.nodes[a].left.value);
              && Rewired(RotatedRight(old(tree.nodes), tree.n, a), tree.nodes, tree.n, b)
              && tree.root == if old(tree.nodes[a].parent).None? then b else old(tree.root)
      ensures SameLeaves(old(tree.nodes), tree.nodes, tree.n)
      ensures tree.Points() == old(tree.Points())
    {
      ghost var ns := tree.nodes;
      var n := tree.n;
      var b := tree.nodes[a].left.value;
      RotatedRightAt(ns, n, a);
      RotatedRightTree(ns, n, tree.root, a);
      RotatedRightTransforms(ns, n, a);
      RotatedRightHeights(ns, n, a);
      RotatedRightLeaves(ns, n, a);
      tree.nodes := RotatedRight(tree.nodes, n, a);
      if tree.nodes[b].parent.None? {
        tree.root := b;
      }
      ghost var r0 := tree.nodes;
      LeavesKeep(tree.trig, ns, r0, n, tree.position);
      Climb(b);
      SameLeavesTrans(ns, r0, tree.nodes, n);
      LeavesKeep(tree.trig, ns, tree.nodes, n, tree.position);
    }

    /** group(i, j), lines 217-258: rotations that gather the bonds i..j
        into a subtree of their own, whose root is returned. Nothing about
        the chain changes: the leaves, the locks and the backbone points
        stay, and the new subtree's matrix is the product of the leaves
        i..j. */
    method Group(i: nat, j: nat) returns (x: nat)
      requires tree.Valid() && i <= j < tree.n
      modifies tree
      ensures tree.Valid()
      ensures x < |tree.nodes| && tree.nodes[x].low == i && tree.nodes[x].high == j
      ensures tree.nodes[x].transform == LeafProduct(tree.nodes, i, j + 1)
      ensures SameLeaves(old(tree.nodes), tree.nodes, tree.n)
      ensures tree.Points() == old(tree.Points())
      ensures forall y :: Away(old(tree.nodes), y, i, j) ==> Kept(old(tree.nodes), tree.nodes, y)
    {
      ghost var ns0 := tree.nodes;
      var w := GroupLeft(i, j);
      ghost var ns1 := tree.nodes;
      x := GroupRight(i, j, w);
      SameLeavesTrans(ns0, ns1, tree.nodes, tree.n);
      AwayTrans(ns0, ns1, tree.nodes, i, j);
      SpanTransform(tree.nodes, tree.n, x);
    }

    /** The first loop of group, lines 222-237: climb from leaf i, rotating
        whenever the node is a right child, until the node spans from bond
        i to bond j or beyond. */
    method GroupLeft(i: nat, j: nat) returns (x: nat)
      requires tree.Valid() && i <= j < tree.n
      modifies tree
      ensures tree.Valid()
      ensures x < |tree.nodes| && tree.nodes[x].low == i && j <= tree.nodes[x].high
      ensures SameLeaves(old(tree.nodes), tree.nodes, tree.n)
      ensures tree.Points() == old(tree.Points())
      ensures forall y :: Away(old(tree.nodes), y, i, j) ==> Kept(old(tree.nodes), tree.nodes, y)
    {
      var n := tree.n;
      ghost var ns0 := tree.nodes;
      x := i;
      assert NodeOk(tree.nodes, n, i);
      while tree.nodes[x].high < j
        invariant tree.Valid() && x < |tree.nodes| && tree.nodes[x].low == i
        invariant SameLeaves(ns0, tree.nodes, n) && tree.Points() == old(tree.Points())
        invariant forall y :: Away(ns0, y, i, j) ==> Kept(ns0, tree.nodes, y)
        decreases n - Size(tree.nodes[x]), RightSide(tree.nodes, x), n - ParentSize(tree.nodes, x)
      {
        ghost var ns := tree.nodes;
        x := StepLeft(i, j, x);
        SameLeavesTrans(ns0, ns, tree.nodes, n);
        AwayTrans(ns0, ns, tree.nodes, i, j);
      }
    }

    /** One pass of the first loop of group: a left child moves up to its
        parent; a right child is lifted by rotating at its grandparent. */
    method StepLeft(i: nat, j: nat, x: nat) returns (x2: nat)
      requires tree.Valid() && i <= j < tree.n
      requires x < |tree.nodes| && tree.nodes[x].low == i && tree.nodes[x].high < j
      modifies tree
      ensures tree.Valid() && x2 < |tree.nodes| && tree.nodes[x2].low == i
      ensures SameLeaves(old(tree.nodes), tree.nodes, tree.n) && tree.Points() == old(tree.Points())
      ensures Advanced(tree.n - Size(old(tree.nodes)[x]), RightSide(old(tree.nodes), x), tree.n - ParentSize(old(tree.nodes), x),
                       tree.n - Size(tree.nodes[x2]), RightSide(tree.nodes, x2), tree.n - ParentSize(tree.nodes, x2))
      ensures forall y :: Away(old(tree.nodes), y, i, j) ==> Kept(old(tree.nodes), tree.nodes, y)
    {
      var n := tree.n;
      ghost var ns := tree.nodes;
      assert x != tree.root;
      var p := tree.nodes[x].parent.value;
      ParentLarger(ns, n, x);
      assert NodeOk(ns, n, x) && NodeOk(ns, n, p);
      if tree.nodes[p].left == Some(x) {
        x2 := p;
      } else {
        assert p != tree.root;
        Grandparent(ns, n, x);
        var g := tree.nodes[p].parent.value;
        if tree.nodes[g].right == Some(p) {
          RotateLeft(g);
          UpLeftRotated(ns, tree.nodes, n, x, p, g);
          LeftAway(ns, tree.nodes, n, g, i, i, j);
        } else {
          RotateRight(g);
          UpRightRotated(ns, tree.nodes, n, x, p, g);
          RightAway(ns, tree.nodes, n, g, i, i, j);
        }
        x2 := x;
      }
    }

    /** The second loop of group, lines 240-255: climb from leaf j,
        rotating whenever the node is a left child, until the node starts
        at bond i; cover, a node spanning from bond i to bond j or beyond, keeps
        the climb from overshooting. */
    method GroupRight(i: nat, j: nat, cover: nat) returns (x: nat)
      requires tree.Valid() && i <= j < tree.n
      requires cover < |tree.nodes| && tree.nodes[cover].low == i && j <= tree.nodes[cover].high
      modifies tree
      ensures tree.Valid()
      ensures x < |tree.nodes| && tree.nodes[x].low == i && tree.nodes[x].high == j
      ensures SameLeaves(old(tree.nodes), tree.nodes, tree.n)
      ensures tree.Points() == old(tree.Points())
      ensures forall y :: Away(old(tree.nodes), y, i, j) ==> Kept(old(tree.nodes), tree.nodes, y)
    {
      var n := tree.n;
      ghost var ns0 := tree.nodes;
      ghost var w: nat := cover;
      x := j;
      assert NodeOk(tree.nodes, n, j);
      while i < tree.nodes[x].low
        invariant tree.Valid() && x < |tree.nodes| && tree.nodes[x].high == j && i <= tree.nodes[x].low
        invariant w < |tree.nodes|
        invariant tree.nodes[w].low == i && j <= tree.nodes[w].high
        invariant SameLeaves(ns0, tree.nodes, n) && tree.Points() == old(tree.Points())
        invariant forall y :: Away(ns0, y, i, j) ==> Kept(ns0, tree.nodes, y)
        decreases n - Size(tree.nodes[x]), LeftSide(tree.nodes, x), n - ParentSize(tree.nodes, x)
      {
        ghost var ns := tree.nodes;
        x, w := StepRight(i, j, x, w);
        SameLeavesTrans(ns0, ns, tree.nodes, n);
        AwayTrans(ns0, ns, tree.nodes, i, j);
      }
    }

    /** One pass of the second loop of group: a right child moves up to its
        parent, which stays within cover's span; a left child is lifted by
        rotating at its grandparent, and cover follows the rotation. */
    method StepRight(i: nat, j: nat, x: nat, ghost w: nat) returns (x2: nat, ghost w2: nat)
      requires tree.Valid() && i <= j < tree.n
      requires x < |tree.nodes| && tree.nodes[x].high == j && i < tree.nodes[x].low
      requires w < |tree.nodes| && tree.nodes[w].low == i && j <= tree.nodes[w].high
      modifies tree
      ensures tree.Valid() && x2 < |tree.nodes| && tree.nodes[x2].high == j && i <= tree.nodes[x2].low
      ensures w2 < |tree.nodes| && tree.nodes[w2].low == i && j <= tree.nodes[w2].high
      ensures SameLeaves(old(tree.nodes), tree.nodes, tree.n) && tree.Points() == old(tree.Points())
      ensures Advanced(tree.n - Size(old(tree.nodes)[x]), LeftSide(old(tree.nodes), x), tree.n - ParentSize(old(tree.nodes), x),
                       tree.n - Size(tree.nodes[x2]), LeftSide(tree.nodes, x2), tree.n - ParentSize(tree.nodes, x2))
      ensures forall y :: Away(old(tree.nodes), y, i, j) ==> Kept(old(tree.nodes), tree.nodes, y)
    {
      var n := tree.n;
      ghost var ns := tree.nodes;
      assert x != tree.root;
      var p := tree.nodes[x].parent.value;
      ParentLarger(ns, n, x);
      assert NodeOk(ns, n, x) && NodeOk(ns, n, p);
      if tree.nodes[p].right == Some(x) {
        GoUpWithin(ns, n, x, p, w, i, j);
        x2, w2 := p, w;
      } else {
        w2 := LiftLeftChild(i, j, x, p, w);
        x2 := x;
      }
    }

    /** The rotation of the second loop of group: x, the left child of p,
        is lifted by rotating at p's parent g, and cover follows the
        rotation. */
    method LiftLeftChild(i: nat, j: nat, x: nat, p: nat, ghost w: nat) returns (ghost w2: nat)
      requires tree.Valid() && i <= j < tree.n
      requires x < |tree.nodes| && tree.nodes[x].high == j && i < tree.nodes[x].low
      requires w < |tree.nodes| && tree.nodes[w].low == i && j <= tree.nodes[w].high
      requires p < |tree.nodes| && tree.nodes[x].parent == Some(p) && tree.nodes[p].left == Some(x)
      modifies tree
      ensures tree.Valid() && x < |tree.nodes| && tree.nodes[x].high == j && i <= tree.nodes[x].low
      ensures w2 < |tree.nodes| && tree.nodes[w2].low == i && j <= tree.nodes[w2].high
      ensures SameLeaves(old(tree.nodes), tree.nodes, tree.n) && tree.Points() == old(tree.Points())
      ensures Advanced(tree.n - Size(old(tree.nodes)[x]), LeftSide(old(tree.nodes), x), tree.n - ParentSize(old(tree.nodes), x),
                       tree.n - Size(tree.nodes[x]), LeftSide(tree.nodes, x), tree.n - ParentSize(tree.nodes, x))
      ensures forall y :: Away(old(tree.nodes), y, i, j) ==> Kept(old(tree.nodes), tree.nodes, y)
    {
      var n := tree.n;
      ghost var ns := tree.nodes;
      ParentLarger(ns, n, x);
      assert NodeOk(ns, n, x) && NodeOk(ns, n, p);
      assert p != tree.root;
      Grandparent(ns, n, x);
      var g := tree.nodes[p].parent.value;
      if tree.nodes[g].left == Some(p) {
        RotateRight(g);
        DownRightRotated(ns, tree.nodes, n, x, p, g, w);
        RightAway(ns, tree.nodes, n, g, j, i, j);
      } else {
        RotateLeft(g);
        DownLeftRotated(ns, tree.nodes, n, x, p, g, w);
        LeftAway(ns, tree.nodes, n, g, j, i, j);
      }
      w2 := if w == g then p else w;
    }

    /** lockSubtree(node), lines 173-179: lock node and, recursively, both
        its children; a missing child ends the recursion. Exactly the nodes
        of the subtree get locked, and nothing else changes. */
    method LockSubtree(node: Option<nat>)
      requires Nodes(tree.nodes, tree.n) && (node.Some? ==> node.value < |tree.nodes|)
      modifies tree
      ensures tree.root == old(tree.root) && OnlyLocks(old(tree.nodes), tree.nodes)
      ensures forall y :: 0 <= y < |tree.nodes| ==>
                (tree.nodes[y].locked <==> old(tree.nodes[y].locked) || (node.Some? && y in Desc(old(tree.nodes), tree.n, node.value)))
      decreases if node.Some? && node.value < |tree.nodes| then Size(tree.nodes[node.value]) else 0
    {
      if node.Some? {
        ghost var ns := tree.nodes;
        var x := node.value;
        tree.nodes := tree.nodes[x := tree.nodes[x].(locked := true)];
        ghost var ms := tree.nodes;
        assert SameShape(ns, ms);
        DescShape(ns, ms, tree.n, x);
        assert NodeOk(ns, tree.n, x);
        if tree.n <= x {
          ChildSmaller(ns, tree.n, x);
        }
        LockSubtree(tree.nodes[x].left);
        ghost var ls := tree.nodes;
        assert SameShape(ns, ls);
        ShapeNodes(ns, ls, tree.n);
        LockSubtree(tree.nodes[x].right);
        if tree.n <= x {
          DescShape(ns, ms, tree.n, ns[x].left.value);
          DescShape(ns, ms, tree.n, ns[x].right.value);
          DescShape(ns, ls, tree.n, ns[x].right.value);
        }
      }
    }

    /** groupAndLockSecondaryStructure(i, j), lines 163-168: group the
        bonds i..j and lock the new subtree; bonds i..j end up locked, the
        others keep their locks, and the chain is unchanged. */
    method GroupAndLock(i: nat, j: nat) returns (x: nat)
      requires tree.Valid() && i <= j < tree.n
      modifies tree
      ensures tree.Valid() && tree.Points() == old(tree.Points())
      ensures x < |tree.nodes| && tree.nodes[x].low == i && tree.nodes[x].high == j
      ensures forall y :: y in Desc(tree.nodes, tree.n, x) ==> tree.nodes[y].locked
      ensures forall k :: 0 <= k < tree.n ==>
                tree.nodes[k] == old(tree.nodes[k]).(parent := tree.nodes[k].parent, locked := tree.nodes[k].locked)
      ensures forall k :: 0 <= k < tree.n ==> (tree.nodes[k].locked <==> old(tree.nodes[k].locked) || i <= k <= j)
      ensures Grouped(tree.nodes, tree.n, x, i, j)
      ensures forall y :: Away(old(tree.nodes), y, i, j) ==> Kept(old(tree.nodes), tree.nodes, y)
    {
      ghost var ns0 := tree.nodes;
      x := Group(i, j);
      ghost var ns := tree.nodes;
      LockSubtree(Some(x));
      LocksKeep(tree.trig, ns, tree.nodes, tree.n, tree.root, tree.position);
      DescSpan(ns, tree.n, x);
      assert SameShape(ns, tree.nodes);
      DescShape(ns, tree.nodes, tree.n, x);
      AwayTrans(ns0, ns, tree.nodes, i, j);
    }

    /** lockAndGroupPeptidePlanes, lines 80-84: lock the bonds 2, 5, 8, ...
        below n. */
    method LockPeptidePlanes()
      requires tree.Valid()
      modifies tree
      ensures tree.Valid() && tree.Points() == old(tree.Points()) && tree.root == old(tree.root)
      ensures OnlyLocks(old(tree.nodes), tree.nodes)
      ensures forall y :: 0 <= y < |tree.nodes| ==>
                (tree.nodes[y].locked <==> old(tree.nodes[y].locked) || (y < tree.n && y % 3 == 2))
    {
      ghost var ns := tree.nodes;
      var k := 2;
      while k < tree.n
        invariant k % 3 == 2 && OnlyLocks(ns, tree.nodes) && tree.root == old(tree.root)
        invariant forall y :: 0 <= y < |tree.nodes| ==>
                    (tree.nodes[y].locked <==> ns[y].locked || (y < k && y < tree.n && y % 3 == 2))
        decreases tree.n - k
      {
        tree.nodes := tree.nodes[k := tree.nodes[k].(locked := true)];
        k := k + 3;
      }
      LocksKeep(tree.trig, ns, tree.nodes, tree.n, tree.root, tree.position);
    }

    /** lockAndGroupAlphaHelices (lines 89-119) and lockAndGroupBetaSheets
        (lines 124-154), which differ only in the list they read: an empty
        list changes nothing; otherwise lock every listed bond, sort the
        list, and group and lock each run of consecutive bonds that Runs
        hands over. Each run ends up as the locked subtree under the
        matching slot of roots, and nodes that cover no bond of any run
        keep their children, span and lock. */
    method LockAndGroup(indices: seq<int>) returns (ghost roots: seq<nat>)
      requires tree.Valid() && forall t :: 0 <= t < |indices| ==> 0 <= indices[t] < tree.n
      modifies tree
      ensures tree.Valid() && tree.Points() == old(tree.Points())
      ensures |indices| == 0 ==> tree.nodes == old(tree.nodes)
      ensures RunsGrouped(old(tree.nodes), tree.nodes, tree.n, Runs(SortInts(indices)), roots)
      ensures forall k :: 0 <= k < tree.n ==>
                tree.nodes[k] == old(tree.nodes[k]).(parent := tree.nodes[k].parent, locked := tree.nodes[k].locked)
      ensures forall k :: 0 <= k < tree.n ==> (tree.nodes[k].locked <==> old(tree.nodes[k].locked) || k in indices)
    {
      roots := [];
      if |indices| == 0 {
        return;
      }
      ghost var ns0 := tree.nodes;
      var bonds := LockBonds(indices);
      ghost var ns1 := tree.nodes;
      bonds := SortInts(bonds);
      SortedBondsLocked(indices, bonds, ns0, ns1, tree.n);
      roots := GroupRuns(bonds);
      LockedThenGrouped(indices, ns0, ns1, tree.nodes, tree.n);
      forall y: nat | AwayAll(ns0, y, Runs(bonds))
        ensures Kept(ns0, tree.nodes, y)
      {
        assert ns1[y] == ns0[y].(locked := ns1[y].locked);
        assert AwayAll(ns1, y, Runs(bonds));
      }
    }

    /** Lines 93-99: lock every listed bond, collecting the list. */
    method LockBonds(indices: seq<int>) returns (bonds: seq<int>)
      requires tree.Valid() && forall t :: 0 <= t < |indices| ==> 0 <= indices[t] < tree.n
      modifies tree
      ensures bonds == indices
      ensures tree.Valid() && tree.Points() == old(tree.Points()) && OnlyLocks(old(tree.nodes), tree.nodes)
      ensures forall y :: 0 <= y < |tree.nodes| ==>
                (tree.nodes[y].locked <==> old(tree.nodes[y].locked) || (y < tree.n && y in indices))
    {
      ghost var ns0 := tree.nodes;
      bonds := [];
      for t := 0 to |indices|
        invariant bonds == indices[..t] && OnlyLocks(ns0, tree.nodes) && tree.root == old(tree.root)
        invariant forall y :: 0 <= y < |tree.nodes| ==>
                    (tree.nodes[y].locked <==> ns0[y].locked || (y < tree.n && y in indices[..t]))
      {
        tree.nodes := tree.nodes[indices[t] := tree.nodes[indices[t]].(locked := true)];
        bonds := bonds + [indices[t]];
      }
      assert indices[..|indices|] == indices;
      LocksKeep(tree.trig, ns0, tree.nodes, tree.n, tree.root, tree.position);
    }

    /** Lines 104-118: scan the sorted, already locked bonds and group and
        lock each run that Runs hands over. The leaves keep their locks,
        each run ends up as the locked subtree under the matching slot of
        roots, and nodes that cover no bond of any run are kept. */
    method GroupRuns(bonds: seq<int>) returns (ghost roots: seq<nat>)
      requires tree.Valid() && |bonds| > 0 && Ascending(bonds)
      requires forall t :: 0 <= t < |bonds| ==> 0 <= bonds[t] < tree.n && tree.nodes[bonds[t]].locked
      modifies tree
      ensures tree.Valid() && tree.Points() == old(tree.Points())
      ensures LeavesAsIn(old(tree.nodes), tree.nodes, tree.n)
      ensures RunsGrouped(old(tree.nodes), tree.nodes, tree.n, Runs(bonds), roots)
    {
      ghost var ns1 := tree.nodes;
      ghost var runs := [];
      roots := [];
      var start := bonds[0];
      var last := start;
      for t := 0 to |bonds|
        invariant tree.Valid() && |tree.nodes| == |ns1|
        invariant runs + Scan(bonds[t..], start, last) == Runs(bonds)
        invariant start <= last && (t == 0 ==> last == bonds[0]) && (t > 0 ==> last == bonds[t - 1])
        invariant 0 <= start && last < tree.n
        invariant forall k :: start <= k <= last ==> ns1[k].locked
        invariant LeavesAsIn(ns1, tree.nodes, tree.n)
        invariant RunsGrouped(ns1, tree.nodes, tree.n, runs, roots)
        invariant forall t :: 0 <= t < |runs| ==> runs[t].1 < start
      {
        start, runs, roots := ScanBond(bonds, t, start, last, runs, ns1, roots);
        last := bonds[t];
      }
      if last != start {
        roots := RunAndLock(start, last, ns1, runs, roots);
        runs := runs + [(start, last)];
      }
      assert runs == Runs(bonds);
      LeavesPoints(ns1, tree.nodes, tree.n, tree.position);
    }

    /** One pass of the loop of lines 104-118 over bond bonds[t]: when it
        does not continue the current run start..last, that run is grouped
        and locked and a new one starts at the bond. */
    method ScanBond(bonds: seq<int>, t: nat, start: int, last: int, ghost runs: seq<(int, int)>, ghost ns1: seq<Node>,
                    ghost roots: seq<nat>)
      returns (start2: int, ghost runs2: seq<(int, int)>, ghost roots2: seq<nat>)
      requires tree.Valid() && |tree.nodes| == |ns1| && t < |bonds| && Ascending(bonds)
      requires forall t :: 0 <= t < |bonds| ==> 0 <= bonds[t] < tree.n && ns1[bonds[t]].locked
      requires runs + Scan(bonds[t..], start, last) == Runs(bonds)
      requires start <= last && (t == 0 ==> last == bonds[0]) && (t > 0 ==> last == bonds[t - 1])
      requires 0 <= start && last < tree.n
      requires forall k :: start <= k <= last ==> ns1[k].locked
      requires LeavesAsIn(ns1, tree.nodes, tree.n)
      requires RunsGrouped(ns1, tree.nodes, tree.n, runs, roots)
      requires forall t :: 0 <= t < |runs| ==> runs[t].1 < start
      modifies tree
      ensures tree.Valid() && |tree.nodes| == |ns1|
      ensures runs2 + Scan(bonds[t + 1..], start2, bonds[t]) == Runs(bonds)
      ensures 0 <= start2 <= bonds[t]
      ensures forall k :: start2 <= k <= bonds[t] ==> ns1[k].locked
      ensures LeavesAsIn(ns1, tree.nodes, tree.n)
      ensures RunsGrouped(ns1, tree.nodes, tree.n, runs2, roots2)
      ensures forall t :: 0 <= t < |runs2| ==> runs2[t].1 < start2
    {
      var i := bonds[t];
      ScanAdvance(bonds, t, start, last);
      assert last <= i && ns1[i].locked;
      start2, runs2, roots2 := start, runs, roots;
      if i > last + 1 {
        roots2 := RunAndLock(start, last, ns1, runs, roots);
        SeqAssoc(runs, [(start, last)], Scan(bonds[t + 1..], i, i));
        runs2 := runs + [(start, last)];
        start2 := i;
      }
    }

    /** One call of groupAndLockSecondaryStructure on a run whose bonds
        are all locked already and that lies after every run grouped so
        far: the leaves keep their locks, the run becomes a locked subtree,
        and the earlier runs stay locked subtrees. */
    method RunAndLock(start: nat, last: nat, ghost ns1: seq<Node>, ghost runs: seq<(int, int)>, ghost roots: seq<nat>)
      returns (ghost roots2: seq<nat>)
      requires tree.Valid() && start <= last < tree.n
      requires forall k :: start <= k <= last ==> k < |ns1| && ns1[k].locked
      requires LeavesAsIn(ns1, tree.nodes, tree.n)
      requires RunsGrouped(ns1, tree.nodes, tree.n, runs, roots)
      requires forall t :: 0 <= t < |runs| ==> runs[t].1 < start
      modifies tree
      ensures tree.Valid() && |tree.nodes| == old(|tree.nodes|)
      ensures LeavesAsIn(ns1, tree.nodes, tree.n)
      ensures RunsGrouped(ns1, tree.nodes, tree.n, runs + [(start, last)], roots2)
    {
      ghost var before := tree.nodes;
      var x := GroupAndLock(start, last);
      forall t | 0 <= t < |runs|
        ensures Grouped(tree.nodes, tree.n, roots[t], runs[t].0, runs[t].1)
      {
        GroupedKeptOne(before, tree.nodes, tree.n, roots[t], runs[t].0, runs[t].1, start, last);
      }
      AwayAllStep(ns1, before, tree.nodes, runs, start, last);
      roots2 := roots + [x];
      assert forall t :: 0 <= t < |runs| ==> (runs + [(start, last)])[t] == runs[t] && roots2[t] == roots[t];
    }
  }
}
