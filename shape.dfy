/** The shape of a chain tree held in an arena of nodes: leaves occupy
    slots 0..n-1 and are bonds 0..n-1, every other slot is an internal node
    with two children. Validity is stated node by node (links, spans,
    parent pointers, cached values); the global facts (in-order leaves,
    nesting of spans, parent chains) are lemmas. */
module ChainShape {
  import opened Util
  import opened Matrices
  import opened Volumes
  import opened ChainNodes

  /** The number of bonds a node covers. */
  function Size(x: Node): int
  {
    x.high - x.low + 1
  }

  // ---------------------------------------------------------------------
  // Local structure

  /** Slots below n are leaves covering exactly their own bond. */
  predicate LeafOk(ns: seq<Node>, n: nat, x: nat)
    requires x < |ns|
  {
    x < n ==> ns[x].left.None? && ns[x].right.None? && ns[x].low == x && ns[x].high == x
  }

  /** Slots from n on are internal: two children pointing back at them,
      covering adjacent spans whose union is the node's span. */
  predicate LinksOk(ns: seq<Node>, n: nat, x: nat)
    requires x < |ns|
  {
    n <= x ==>
      && ns[x].left.Some? && ns[x].right.Some?
      && ns[x].left.value < |ns| && ns[x].right.value < |ns|
      && ns[ns[x].left.value].parent == Some(x)
      && ns[ns[x].right.value].parent == Some(x)
      && ns[x].low == ns[ns[x].left.value].low
      && ns[x].high == ns[ns[x].right.value].high
      && ns[ns[x].left.value].high + 1 == ns[ns[x].right.value].low
  }

  /** A parent is an internal node that has this node as a child. */
  predicate ParentOk(ns: seq<Node>, n: nat, x: nat)
    requires x < |ns|
  {
    ns[x].parent.Some? ==>
      && n <= ns[x].parent.value < |ns|
      && (ns[ns[x].parent.value].left == Some(x) || ns[ns[x].parent.value].right == Some(x))
  }

  predicate SpanOk(ns: seq<Node>, n: nat, x: nat)
    requires x < |ns|
  {
    0 <= ns[x].low <= ns[x].high < n
  }

  predicate NodeOk(ns: seq<Node>, n: nat, x: nat)
    requires x < |ns|
  {
    LeafOk(ns, n, x) && LinksOk(ns, n, x) && ParentOk(ns, n, x) && SpanOk(ns, n, x)
  }

  /** Every slot is locally well formed. */
  predicate Nodes(ns: seq<Node>, n: nat)
  {
    n <= |ns| && forall x: nat :: x < |ns| ==> NodeOk(ns, n, x)
  }

  /** A whole tree: 2n-1 well-formed slots, exactly one of them without a
      parent, and that root spans every bond. */
  predicate Tree(ns: seq<Node>, n: nat, root: nat)
  {
    && 1 <= n && |ns| == 2 * n - 1 && Nodes(ns, n)
    && root < |ns| && ns[root].low == 0 && ns[root].high == n - 1
    && (forall x: nat :: x < |ns| ==> (ns[x].parent.None? <==> x == root))
  }

  // ---------------------------------------------------------------------
  // Cached values

  /** `height = max(left.height, right.height) + 1`, and 0 at a leaf. */
  predicate HeightOk(ns: seq<Node>, n: nat, x: nat)
    requires x < |ns| && NodeOk(ns, n, x)
  {
    if x < n then ns[x].height == 0
    else ns[x].height == Max(ns[ns[x].left.value].height, ns[ns[x].right.value].height) + 1
  }

  /** `transform = compose(left.transform, right.transform)`. */
  predicate TransformOk(ns: seq<Node>, n: nat, x: nat)
    requires x < |ns| && NodeOk(ns, n, x)
  {
    n <= x ==> ns[x].transform == Compose(ns[ns[x].left.value].transform, ns[ns[x].right.value].transform)
  }

  /** The volume and energy update() would compute from the children. */
  predicate VolumeOk(ns: seq<Node>, n: nat, x: nat)
    requires x < |ns| && NodeOk(ns, n, x)
  {
    n <= x ==>
      var l, r := ns[ns[x].left.value], ns[ns[x].right.value];
      ns[x].volume == Combine(l.volume, Transform(r.volume, ns[x].transform))
      && ns[x].energy == l.energy + r.energy
  }

  predicate HeightsOk(ns: seq<Node>, n: nat)
    requires Nodes(ns, n)
  {
    forall x: nat :: x < |ns| ==> HeightOk(ns, n, x)
  }

  predicate TransformsOk(ns: seq<Node>, n: nat)
    requires Nodes(ns, n)
  {
    forall x: nat :: x < |ns| ==> TransformOk(ns, n, x)
  }

  predicate VolumesOk(ns: seq<Node>, n: nat)
    requires Nodes(ns, n)
  {
    forall x: nat :: x < |ns| ==> VolumeOk(ns, n, x)
  }

  /** Every leaf's matrix is its own rotation by its stored angle. */
  predicate LeafForms(trig: Trig, ns: seq<Node>, n: nat)
    requires n <= |ns|
  {
    forall x: nat :: x < n ==> LeafForm(trig, ns[x])
  }

  // ---------------------------------------------------------------------
  // Children and parents

  /** A child covers strictly fewer bonds than its parent, and every node
      covers at most n bonds. */
  lemma ChildSmaller(ns: seq<Node>, n: nat, x: nat)
    requires Nodes(ns, n) && x < |ns| && n <= x
    ensures ns[x].left.Some? && ns[x].right.Some?
    ensures ns[x].left.value < |ns| && ns[x].right.value < |ns|
    ensures 1 <= Size(ns[ns[x].left.value]) < Size(ns[x]) <= n
    ensures 1 <= Size(ns[ns[x].right.value]) < Size(ns[x])
  {
    assert NodeOk(ns, n, x);
    assert NodeOk(ns, n, ns[x].left.value);
    assert NodeOk(ns, n, ns[x].right.value);
  }

  lemma ParentLarger(ns: seq<Node>, n: nat, x: nat)
    requires Nodes(ns, n) && x < |ns| && ns[x].parent.Some?
    ensures n <= ns[x].parent.value < |ns|
    ensures 1 <= Size(ns[x]) < Size(ns[ns[x].parent.value]) <= n
    ensures ns[ns[x].parent.value].low <= ns[x].low && ns[x].high <= ns[ns[x].parent.value].high
  {
    assert NodeOk(ns, n, x);
    var p := ns[x].parent.value;
    ChildSmaller(ns, n, p);
    assert NodeOk(ns, n, p);
    assert NodeOk(ns, n, ns[p].left.value);
    assert NodeOk(ns, n, ns[p].right.value);
  }

  /** The ancestors of x, from x itself up to the node without a parent. */
  ghost function Ups(ns: seq<Node>, n: nat, x: nat): (u: seq<nat>)
    requires Nodes(ns, n) && x < |ns|
    ensures 1 <= |u| && u[0] == x
    ensures forall k :: 0 <= k < |u| ==> u[k] < |ns|
    ensures forall k :: 0 <= k < |u| - 1 ==> ns[u[k]].parent == Some(u[k + 1])
    ensures ns[u[|u| - 1]].parent.None?
    decreases n - Size(ns[x])
  {
    match ns[x].parent
    case None => [x]
    case Some(p) =>
      ParentLarger(ns, n, x);
      [x] + Ups(ns, n, p)
  }

  /** Spans grow along a parent chain. */
  lemma UpsNested(ns: seq<Node>, n: nat, x: nat, i: nat, j: nat)
    requires Nodes(ns, n) && x < |ns|
    requires i <= j < |Ups(ns, n, x)|
    ensures var u := Ups(ns, n, x);
            ns[u[j]].low <= ns[u[i]].low && ns[u[i]].high <= ns[u[j]].high
    ensures i < j ==> Size(ns[Ups(ns, n, x)[i]]) < Size(ns[Ups(ns, n, x)[j]])
    decreases j - i
  {
    var u := Ups(ns, n, x);
    if i < j {
      UpsNested(ns, n, x, i + 1, j);
      ParentLarger(ns, n, u[i]);
    }
  }

  /** The parent chain has no repeated node. */
  lemma UpsDistinct(ns: seq<Node>, n: nat, x: nat)
    requires Nodes(ns, n) && x < |ns|
    ensures forall i, j :: 0 <= i < j < |Ups(ns, n, x)| ==> Ups(ns, n, x)[i] != Ups(ns, n, x)[j]
  {
    var u := Ups(ns, n, x);
    forall i, j | 0 <= i < j < |u|
      ensures u[i] != u[j]
    {
      UpsNested(ns, n, x, i, j);
    }
  }

  /** A parent chain is closed under taking parents. */
  lemma UpsClosed(ns: seq<Node>, n: nat, x: nat, c: nat)
    requires Nodes(ns, n) && x < |ns|
    requires c in Ups(ns, n, x) && ns[c].parent.Some?
    ensures ns[c].parent.value in Ups(ns, n, x)
    decreases n - Size(ns[x])
  {
    if c != x {
      ParentLarger(ns, n, x);
      UpsClosed(ns, n, ns[x].parent.value, c);
    }
  }

  /** Laminarity: a node covering bond k is an ancestor of leaf k. */
  lemma {:induction false} CoverIsAncestor(ns: seq<Node>, n: nat, x: nat, k: nat)
    requires Nodes(ns, n) && x < |ns| && k < n
    requires ns[x].low <= k <= ns[x].high
    ensures x in Ups(ns, n, k)
    decreases Size(ns[x])
  {
    assert NodeOk(ns, n, x);
    if n <= x {
      ChildSmaller(ns, n, x);
      var l, r := ns[x].left.value, ns[x].right.value;
      assert NodeOk(ns, n, l) && NodeOk(ns, n, r);
      var c := if k <= ns[l].high then l else r;
      CoverIsAncestor(ns, n, c, k);
      UpsClosed(ns, n, k, c);
    }
  }

  /** Every ancestor of leaf k covers bond k. */
  lemma AncestorCovers(ns: seq<Node>, n: nat, k: nat, j: nat)
    requires Nodes(ns, n) && k < n && j < |Ups(ns, n, k)|
    ensures ns[Ups(ns, n, k)[j]].low <= k <= ns[Ups(ns, n, k)[j]].high
  {
    UpsNested(ns, n, k, 0, j);
    assert NodeOk(ns, n, k);
  }

  /** Two nodes covering a common bond are nested: one lies on the other's
      parent chain. When y covers bond k and strictly more than x, x lies
      inside the child of y that covers k. */
  lemma {:induction false} Laminar(ns: seq<Node>, n: nat, x: nat, y: nat, k: nat)
    requires Nodes(ns, n) && x < |ns| && y < |ns| && k < n && x != y
    requires ns[x].low <= k <= ns[x].high && ns[y].low <= k <= ns[y].high
    requires Size(ns[x]) <= Size(ns[y])
    ensures n <= y && ns[y].left.Some? && ns[y].right.Some?
    ensures ns[y].left.value < |ns| && ns[y].right.value < |ns|
    ensures var c := if k <= ns[ns[y].left.value].high then ns[y].left.value else ns[y].right.value;
            ns[c].low <= ns[x].low && ns[x].high <= ns[c].high
  {
    CoverIsAncestor(ns, n, x, k);
    CoverIsAncestor(ns, n, y, k);
    var u := Ups(ns, n, k);
    var i :| 0 <= i < |u| && u[i] == x;
    var j :| 0 <= j < |u| && u[j] == y;
    if j < i {
      UpsNested(ns, n, k, j, i);
    }
    assert i < j;
    UpsNested(ns, n, k, i, j - 1);
    ChainChild(ns, n, k, j);
  }

  /** On the parent chain of leaf k, each node is the child of the next one
      that covers bond k. */
  lemma ChainChild(ns: seq<Node>, n: nat, k: nat, j: nat)
    requires Nodes(ns, n) && k < n && 1 <= j < |Ups(ns, n, k)|
    ensures var y := Ups(ns, n, k)[j];
            n <= y && ns[y].left.Some? && ns[y].right.Some?
            && ns[y].left.value < |ns| && ns[y].right.value < |ns|
            && Ups(ns, n, k)[j - 1] == if k <= ns[ns[y].left.value].high then ns[y].left.value else ns[y].right.value
  {
    var u := Ups(ns, n, k);
    var c, y := u[j - 1], u[j];
    ParentLarger(ns, n, c);
    ChildSmaller(ns, n, y);
    AncestorCovers(ns, n, k, j - 1);
    assert NodeOk(ns, n, c);
    assert NodeOk(ns, n, y);
    var l, r := ns[y].left.value, ns[y].right.value;
    assert NodeOk(ns, n, l) && NodeOk(ns, n, r);
  }

  // ---------------------------------------------------------------------
  // In-order leaves and subtrees

  /** [lo, lo+1, ..., hi-1]. */
  function Range(lo: int, hi: int): (r: seq<int>)
    ensures |r| == if lo < hi then hi - lo else 0
    ensures forall k :: 0 <= k < |r| ==> r[k] == lo + k
    decreases hi - lo
  {
    if lo >= hi then [] else [lo] + Range(lo + 1, hi)
  }

  /** The leaves under x, left to right. */
  ghost function InOrder(ns: seq<Node>, n: nat, x: nat): seq<int>
    requires Nodes(ns, n) && x < |ns|
    decreases Size(ns[x])
  {
    assert NodeOk(ns, n, x);
    if x < n then [x]
    else
      ChildSmaller(ns, n, x);
      InOrder(ns, n, ns[x].left.value) + InOrder(ns, n, ns[x].right.value)
  }

  /** The in-order leaves of any node are exactly the bonds of its span, in
      order; for the root that is 0..n-1. */
  lemma {:induction false} InOrderIsSpan(ns: seq<Node>, n: nat, x: nat)
    requires Nodes(ns, n) && x < |ns|
    ensures InOrder(ns, n, x) == Range(ns[x].low, ns[x].high + 1)
    decreases Size(ns[x])
  {
    assert NodeOk(ns, n, x);
    if n <= x {
      var l, r := InOrderChildren(ns, n, x);
      InOrderIsSpan(ns, n, l);
      InOrderIsSpan(ns, n, r);
      RangeSplit(ns[x].low, ns[r].low, ns[x].high + 1);
    }
  }

  /** The in-order leaves of an internal node are those of its left child
      followed by those of its right child, whose spans are adjacent. */
  lemma InOrderChildren(ns: seq<Node>, n: nat, x: nat) returns (l: nat, r: nat)
    requires Nodes(ns, n) && n <= x < |ns|
    ensures ns[x].left == Some(l) && ns[x].right == Some(r) && l < |ns| && r < |ns|
    ensures Size(ns[l]) < Size(ns[x]) && Size(ns[r]) < Size(ns[x])
    ensures InOrder(ns, n, x) == InOrder(ns, n, l) + InOrder(ns, n, r)
    ensures ns[x].low == ns[l].low && ns[l].high + 1 == ns[r].low && ns[r].high == ns[x].high
    ensures ns[l].low <= ns[l].high && ns[r].low <= ns[r].high
  {
    assert NodeOk(ns, n, x);
    ChildSmaller(ns, n, x);
    l, r := ns[x].left.value, ns[x].right.value;
    assert NodeOk(ns, n, l) && NodeOk(ns, n, r);
  }

  /** Two adjacent ranges make up their union. */
  lemma RangeSplit(lo: int, mid: int, hi: int)
    requires lo <= mid <= hi
    ensures Range(lo, mid) + Range(mid, hi) == Range(lo, hi)
  {
    assert forall k :: 0 <= k < hi - lo ==> (Range(lo, mid) + Range(mid, hi))[k] == lo + k;
  }

  lemma TreeInOrder(ns: seq<Node>, n: nat, root: nat)
    requires Tree(ns, n, root)
    ensures InOrder(ns, n, root) == Range(0, n)
  {
    InOrderIsSpan(ns, n, root);
  }

  /** The slots of the subtree under x. */
  ghost function Desc(ns: seq<Node>, n: nat, x: nat): (d: set<nat>)
    requires Nodes(ns, n) && x < |ns|
    ensures x in d
    ensures forall y :: y in d ==> y < |ns|
    decreases Size(ns[x])
  {
    assert NodeOk(ns, n, x);
    if x < n then {x}
    else
      ChildSmaller(ns, n, x);
      {x} + Desc(ns, n, ns[x].left.value) + Desc(ns, n, ns[x].right.value)
  }

  /** A subtree's nodes lie inside its root's span; the leaves among them
      are exactly the bonds of that span. */
  lemma {:induction false} DescSpan(ns: seq<Node>, n: nat, x: nat)
    requires Nodes(ns, n) && x < |ns|
    ensures forall y :: y in Desc(ns, n, x) ==> ns[x].low <= ns[y].low && ns[y].high <= ns[x].high
    ensures forall k: nat :: k < n ==> (k in Desc(ns, n, x) <==> ns[x].low <= k <= ns[x].high)
    decreases Size(ns[x])
  {
    assert NodeOk(ns, n, x);
    if n <= x {
      ChildSmaller(ns, n, x);
      var l, r := ns[x].left.value, ns[x].right.value;
      assert NodeOk(ns, n, l) && NodeOk(ns, n, r);
      DescSpan(ns, n, l);
      DescSpan(ns, n, r);
      forall k: nat | k < n
        ensures k in Desc(ns, n, x) <==> ns[x].low <= k <= ns[x].high
      {
        assert NodeOk(ns, n, k);
      }
    } else {
      forall k: nat | k < n
        ensures k in Desc(ns, n, x) <==> ns[x].low <= k <= ns[x].high
      {
      }
    }
  }

  /** CTNode.isLeaf on a well-formed arena: a node misses a child exactly
      when its slot is a leaf slot. */
  lemma LeafSlots(ns: seq<Node>, n: nat, x: nat)
    requires Nodes(ns, n) && x < |ns|
    ensures IsLeaf(ns[x]) <==> x < n
  {
    assert NodeOk(ns, n, x);
  }

  /** CTNode.inSubChain(k) on a well-formed arena: bond k is in a node's
      sub chain exactly when leaf k is in the node's subtree. */
  lemma SubChainIsSubtree(ns: seq<Node>, n: nat, x: nat, k: nat)
    requires Nodes(ns, n) && x < |ns| && k < n
    ensures InSubChain(ns[x], k) <==> k in Desc(ns, n, x)
  {
    DescSpan(ns, n, x);
  }

  // ---------------------------------------------------------------------
  // What the cached matrices mean

  /** The product of the matrices of leaves lo..hi-1, in chain order. */
  function LeafProduct(ns: seq<Node>, lo: int, hi: int): Mat
    requires 0 <= lo && hi <= |ns|
    decreases hi - lo
  {
    if hi <= lo then Identity() else Compose(LeafProduct(ns, lo, hi - 1), ns[hi - 1].transform)
  }

  lemma {:induction false} LeafProductSplit(ns: seq<Node>, lo: int, mid: int, hi: int)
    requires 0 <= lo <= mid <= hi <= |ns|
    ensures LeafProduct(ns, lo, hi) == Compose(LeafProduct(ns, lo, mid), LeafProduct(ns, mid, hi))
    decreases hi - mid
  {
    if hi == mid {
      IdentityNeutral(LeafProduct(ns, lo, mid));
    } else {
      LeafProductSplit(ns, lo, mid, hi - 1);
      ComposeAssociative(LeafProduct(ns, lo, mid), LeafProduct(ns, mid, hi - 1), ns[hi - 1].transform);
    }
  }

  /** With every cache consistent, a node's matrix is the product of its
      leaves' matrices over its span: the composed transform of that piece
      of the chain. */
  lemma {:induction false} SpanTransform(ns: seq<Node>, n: nat, x: nat)
    requires Nodes(ns, n) && TransformsOk(ns, n) && x < |ns|
    ensures 0 <= ns[x].low <= ns[x].high < n
    ensures ns[x].transform == LeafProduct(ns, ns[x].low, ns[x].high + 1)
    decreases Size(ns[x])
  {
    assert NodeOk(ns, n, x);
    if x < n {
      IdentityNeutral(ns[x].transform);
    } else {
      ChildSmaller(ns, n, x);
      var l, r := ns[x].left.value, ns[x].right.value;
      assert NodeOk(ns, n, l) && NodeOk(ns, n, r);
      assert TransformOk(ns, n, x);
      SpanTransform(ns, n, l);
      SpanTransform(ns, n, r);
      LeafProductSplit(ns, ns[x].low, ns[r].low, ns[x].high + 1);
    }
  }

  /** Only the leaves decide the transforms: two trees with consistent caches
      and the same leaf matrices have the same matrix at every node that
      covers the same span. */
  lemma SameLeavesSameTransforms(ns: seq<Node>, ms: seq<Node>, n: nat, x: nat, y: nat)
    requires Nodes(ns, n) && TransformsOk(ns, n) && x < |ns|
    requires Nodes(ms, n) && TransformsOk(ms, n) && y < |ms|
    requires forall k :: 0 <= k < n ==> ns[k].transform == ms[k].transform
    requires ns[x].low == ms[y].low && ns[x].high == ms[y].high
    ensures ns[x].transform == ms[y].transform
  {
    SpanTransform(ns, n, x);
    SpanTransform(ms, n, y);
    assert NodeOk(ns, n, x);
    LeafProductLeaves(ns, ms, n, ns[x].low, ns[x].high + 1);
  }

  lemma {:induction false} LeafProductLeaves(ns: seq<Node>, ms: seq<Node>, n: nat, lo: int, hi: int)
    requires 0 <= lo && hi <= n <= |ns| && n <= |ms|
    requires forall k :: 0 <= k < n ==> ns[k].transform == ms[k].transform
    ensures LeafProduct(ns, lo, hi) == LeafProduct(ms, lo, hi)
    decreases hi - lo
  {
    if lo < hi {
      LeafProductLeaves(ns, ms, n, lo, hi - 1);
    }
  }

  // ---------------------------------------------------------------------
  // Construction: a forest of subtrees over consecutive spans

  /** The state of the level-by-level construction: well-formed slots whose
      parentless nodes, in `roots` order, cover consecutive spans from bond
      0 to bond n-1. Every merge adds one slot and removes one root. */
  predicate Forest(ns: seq<Node>, n: nat, roots: seq<nat>)
  {
    && 1 <= |roots| && |ns| + |roots| == 2 * n && Nodes(ns, n)
    && RootsOrdered(ns, roots)
    && ns[roots[0]].low == 0 && ns[roots[|roots| - 1]].high == n - 1
    && RootsParentless(ns, roots)
  }

  /** The roots cover spans left to right with no gap between neighbours. */
  predicate RootsOrdered(ns: seq<Node>, roots: seq<nat>)
  {
    && (forall k :: 0 <= k < |roots| ==> roots[k] < |ns|)
    && (forall k :: 0 <= k < |roots| - 1 ==> ns[roots[k]].high + 1 == ns[roots[k + 1]].low)
  }

  /** Ordered roots over non-empty spans lie strictly left to right. */
  lemma {:induction false} RootsSorted(ns: seq<Node>, roots: seq<nat>, a: nat, b: nat)
    requires RootsOrdered(ns, roots) && a < b < |roots|
    requires forall x: nat :: x < |ns| ==> ns[x].low <= ns[x].high
    ensures ns[roots[a]].high < ns[roots[b]].low
    decreases b - a
  {
    if a + 1 < b {
      RootsSorted(ns, roots, a + 1, b);
      assert ns[roots[a + 1]].low <= ns[roots[a + 1]].high;
    }
  }

  /** Exactly the roots have no parent. */
  predicate RootsParentless(ns: seq<Node>, roots: seq<nat>)
  {
    forall x: nat :: x < |ns| ==> (ns[x].parent.None? <==> x in roots)
  }

  /** All cached values consistent. */
  predicate Caches(ns: seq<Node>, n: nat)
    requires Nodes(ns, n)
  {
    HeightsOk(ns, n) && TransformsOk(ns, n) && VolumesOk(ns, n)
  }

  /** A level of the bottom-up construction: a forest with consistent
      caches. */
  predicate Level(ns: seq<Node>, n: nat, roots: seq<nat>)
  {
    Forest(ns, n, roots) && Caches(ns, n)
  }

  /** The n leaves on their own: each is its own root. */
  lemma LeavesForest(ns: seq<Node>, n: nat)
    requires 1 <= n == |ns|
    requires forall k :: 0 <= k < n ==> ns[k].left.None? && ns[k].right.None? && ns[k].parent.None?
    requires forall k :: 0 <= k < n ==> ns[k].low == k && ns[k].high == k && ns[k].height == 0
    ensures Forest(ns, n, seq(n, k requires 0 <= k => k as nat))
    ensures Caches(ns, n)
  {
    var roots: seq<nat> := seq(n, k requires 0 <= k => k as nat);
    forall x: nat | x < |ns|
      ensures NodeOk(ns, n, x)
    {
    }
    forall x: nat | x < |ns|
      ensures x in roots
    {
      assert roots[x] == x;
    }
  }

  /** The CTNode constructor applied to slots li and ri: both point at a
      new last slot built from them. */
  function Merged(ns: seq<Node>, li: nat, ri: nat): (ms: seq<Node>)
    requires li < |ns| && ri < |ns|
    ensures |ms| == |ns| + 1
    ensures ms[|ns|] == NewInternal(li, ns[li], ri, ns[ri])
    ensures forall x :: 0 <= x < |ns| ==>
              ms[x] == if x == li || x == ri then ns[x].(parent := Some(|ns|)) else ns[x]
  {
    var id := |ns|;
    ns[li := ns[li].(parent := Some(id))][ri := ns[ri].(parent := Some(id))]
      + [NewInternal(li, ns[li], ri, ns[ri])]
  }

  /** What a merge does, element by element. */
  predicate MergeFacts(ns: seq<Node>, roots: seq<nat>, i: nat, ms: seq<Node>, rs: seq<nat>)
  {
    && i + 1 < |roots| && roots[i] < |ns| && roots[i + 1] < |ns|
    && |ms| == |ns| + 1
    && ms[|ns|] == NewInternal(roots[i], ns[roots[i]], roots[i + 1], ns[roots[i + 1]])
    && (forall x :: 0 <= x < |ns| ==>
          ms[x] == if x == roots[i] || x == roots[i + 1] then ns[x].(parent := Some(|ns|)) else ns[x])
    && |rs| == |roots| - 1
    && (forall k :: 0 <= k < i ==> rs[k] == roots[k])
    && rs[i] == |ns|
    && (forall k :: i < k < |rs| ==> rs[k] == roots[k + 1])
  }

  /** Pairing two adjacent roots keeps a forest, one root shorter, keeps
      every cache consistent and changes no existing slot but for the two
      children's parent pointers. */
  lemma MergeForest(ns: seq<Node>, n: nat, roots: seq<nat>, i: nat, rs: seq<nat>)
    requires Forest(ns, n, roots) && Caches(ns, n)
    requires i + 1 < |roots| && |rs| == |roots| - 1
    requires forall k :: 0 <= k < i ==> rs[k] == roots[k]
    requires rs[i] == |ns|
    requires forall k :: i < k < |rs| ==> rs[k] == roots[k + 1]
    ensures Forest(Merged(ns, roots[i], roots[i + 1]), n, rs)
    ensures Caches(Merged(ns, roots[i], roots[i + 1]), n)
  {
    var ms := Merged(ns, roots[i], roots[i + 1]);
    assert MergeFacts(ns, roots, i, ms, rs);
    MergeAll(ns, n, roots, i, ms, rs);
  }


  lemma MergeAll(ns: seq<Node>, n: nat, roots: seq<nat>, i: nat, ms: seq<Node>, rs: seq<nat>)
    requires Forest(ns, n, roots) && Caches(ns, n) && MergeFacts(ns, roots, i, ms, rs)
    ensures Forest(ms, n, rs) && Caches(ms, n)
    ensures forall x :: 0 <= x < |ns| ==> ms[x] == ns[x].(parent := ms[x].parent)
  {
    MergeNodes(ns, n, roots, i, ms, rs);
    MergeCaches(ns, n, roots, i, ms, rs);
    MergeOrder(ns, n, roots, i, ms, rs);
    assert forall x: nat :: x < |ns| ==> ns[x].low <= ns[x].high by {
      forall x: nat | x < |ns|
        ensures ns[x].low <= ns[x].high
      {
        assert NodeOk(ns, n, x);
      }
    }
    MergeRoots(ns, n, roots, i, ms, rs);
  }

  lemma MergeNodes(ns: seq<Node>, n: nat, roots: seq<nat>, i: nat, ms: seq<Node>, rs: seq<nat>)
    requires Forest(ns, n, roots) && MergeFacts(ns, roots, i, ms, rs)
    ensures Nodes(ms, n)
  {
    var l, r, id := roots[i], roots[i + 1], |ns|;
    assert ns[l].high + 1 == ns[r].low;
    assert l != r by {
      assert NodeOk(ns, n, l);
    }
    assert ns[l].parent.None? && ns[r].parent.None?;
    forall x: nat | x < |ms|
      ensures NodeOk(ms, n, x)
    {
      if x == id {
        assert NodeOk(ns, n, l) && NodeOk(ns, n, r);
      } else {
        assert NodeOk(ns, n, x);
        if n <= x {
          var cl, cr := ns[x].left.value, ns[x].right.value;
          assert ns[cl].parent == Some(x) && ns[cr].parent == Some(x);
          assert cl != l && cl != r && cr != l && cr != r;
        }
      }
    }
  }

  lemma MergeCaches(ns: seq<Node>, n: nat, roots: seq<nat>, i: nat, ms: seq<Node>, rs: seq<nat>)
    requires Forest(ns, n, roots) && Caches(ns, n) && MergeFacts(ns, roots, i, ms, rs)
    ensures Nodes(ms, n) && Caches(ms, n)
  {
    var l, r, id := roots[i], roots[i + 1], |ns|;
    MergeNodes(ns, n, roots, i, ms, rs);
    assert ns[l].parent.None? && ns[r].parent.None?;
    forall x: nat | x < |ms|
      ensures HeightOk(ms, n, x) && TransformOk(ms, n, x) && VolumeOk(ms, n, x)
    {
      if x != id {
        assert NodeOk(ns, n, x);
        assert HeightOk(ns, n, x) && TransformOk(ns, n, x) && VolumeOk(ns, n, x);
      }
    }
  }

  lemma MergeOrder(ns: seq<Node>, n: nat, roots: seq<nat>, i: nat, ms: seq<Node>, rs: seq<nat>)
    requires RootsOrdered(ns, roots) && i + 1 < |roots|
    requires ns[roots[0]].low == 0 && ns[roots[|roots| - 1]].high == n - 1
    requires |ms| == |ns| + 1 && |rs| == |roots| - 1
    requires forall x :: 0 <= x < |ns| ==> ms[x].low == ns[x].low && ms[x].high == ns[x].high
    requires ms[|ns|].low == ns[roots[i]].low && ms[|ns|].high == ns[roots[i + 1]].high
    requires forall k :: 0 <= k < i ==> rs[k] == roots[k]
    requires rs[i] == |ns|
    requires forall k :: i < k < |rs| ==> rs[k] == roots[k + 1]
    ensures RootsOrdered(ms, rs)
    ensures ms[rs[0]].low == 0 && ms[rs[|rs| - 1]].high == n - 1
  {
    forall k | 0 <= k < |rs|
      ensures rs[k] < |ms|
    {
      if k < i {
        assert roots[k] < |ns|;
      } else if k > i {
        assert roots[k + 1] < |ns|;
      }
    }
    forall k | 0 <= k < |rs| - 1
      ensures ms[rs[k]].high + 1 == ms[rs[k + 1]].low
    {
      if k < i - 1 {
        assert ns[roots[k]].high + 1 == ns[roots[k + 1]].low;
      } else if k == i - 1 {
        assert ns[roots[k]].high + 1 == ns[roots[i]].low;
      } else if k == i {
        assert ns[roots[i + 1]].high + 1 == ns[roots[i + 2]].low;
      } else {
        assert ns[roots[k + 1]].high + 1 == ns[roots[k + 2]].low;
      }
    }
  }

  lemma MergeRoots(ns: seq<Node>, n: nat, roots: seq<nat>, i: nat, ms: seq<Node>, rs: seq<nat>)
    requires RootsOrdered(ns, roots) && RootsParentless(ns, roots) && i + 1 < |roots|
    requires forall x: nat :: x < |ns| ==> ns[x].low <= ns[x].high
    requires |ms| == |ns| + 1 && |rs| == |roots| - 1
    requires forall x :: 0 <= x < |ns| ==>
               ms[x].parent == if x == roots[i] || x == roots[i + 1] then Some(|ns|) else ns[x].parent
    requires ms[|ns|].parent.None?
    requires forall k :: 0 <= k < i ==> rs[k] == roots[k]
    requires rs[i] == |ns|
    requires forall k :: i < k < |rs| ==> rs[k] == roots[k + 1]
    ensures RootsParentless(ms, rs)
  {
    forall x: nat | x < |ms|
      ensures ms[x].parent.None? <==> x in rs
    {
      if x == roots[i] || x == roots[i + 1] {
        MergedNotRoot(ns, roots, i, rs, x);
      } else if x < |ns| {
        KeptRoot(roots, i, rs, x);
      } else {
        assert rs[i] == x;
      }
    }
  }

  /** The two merged roots are roots no longer. */
  lemma MergedNotRoot(ns: seq<Node>, roots: seq<nat>, i: nat, rs: seq<nat>, x: nat)
    requires RootsOrdered(ns, roots) && i + 1 < |roots| && x < |ns|
    requires forall x: nat :: x < |ns| ==> ns[x].low <= ns[x].high
    requires |rs| == |roots| - 1 && (x == roots[i] || x == roots[i + 1])
    requires forall k :: 0 <= k < i ==> rs[k] == roots[k]
    requires rs[i] == |ns|
    requires forall k :: i < k < |rs| ==> rs[k] == roots[k + 1]
    ensures x !in rs
  {
    forall k | 0 <= k < |rs|
      ensures rs[k] != x
    {
      if k < i {
        RootsSorted(ns, roots, k, i);
        RootsSorted(ns, roots, k, i + 1);
      } else if k > i {
        RootsSorted(ns, roots, i, k + 1);
        RootsSorted(ns, roots, i + 1, k + 1);
      }
    }
  }

  /** Every other old slot is a root before the merge exactly when it is
      one after. */
  lemma KeptRoot(roots: seq<nat>, i: nat, rs: seq<nat>, x: nat)
    requires i + 1 < |roots| && |rs| == |roots| - 1 && x != roots[i] && x != roots[i + 1]
    requires forall k :: 0 <= k < i ==> rs[k] == roots[k]
    requires rs[i] != x
    requires forall k :: i < k < |rs| ==> rs[k] == roots[k + 1]
    ensures x in roots <==> x in rs
  {
    if x in roots {
      var k :| 0 <= k < |roots| && roots[k] == x;
      if k < i {
        assert rs[k] == x;
      } else {
        assert rs[k - 1] == x;
      }
    }
    if x in rs {
      var k :| 0 <= k < |rs| && rs[k] == x;
      if k < i {
        assert roots[k] == x;
      } else {
        assert roots[k + 1] == x;
      }
    }
  }

  /** A forest with a single root is a whole tree. */
  lemma ForestTree(ns: seq<Node>, n: nat, roots: seq<nat>)
    requires Forest(ns, n, roots) && |roots| == 1
    ensures Tree(ns, n, roots[0])
  {
    forall x: nat | x < |ns|
      ensures ns[x].parent.None? <==> x == roots[0]
    {
      assert x in roots <==> x == roots[0];
    }
  }

  // ---------------------------------------------------------------------
  // Recomputing caches

  /** Two arenas with the same links, spans and heights. */
  predicate SameShape(ns: seq<Node>, ms: seq<Node>)
  {
    && |ns| == |ms|
    && forall x :: 0 <= x < |ns| ==>
         && ms[x].left == ns[x].left && ms[x].right == ns[x].right && ms[x].parent == ns[x].parent
         && ms[x].low == ns[x].low && ms[x].high == ns[x].high && ms[x].height == ns[x].height
  }

  /** Well-formedness and heights depend only on the shape. */
  lemma ShapeNodes(ns: seq<Node>, ms: seq<Node>, n: nat)
    requires Nodes(ns, n) && SameShape(ns, ms)
    ensures Nodes(ms, n)
    ensures HeightsOk(ns, n) ==> HeightsOk(ms, n)
  {
    forall x: nat | x < |ms|
      ensures NodeOk(ms, n, x)
    {
      assert NodeOk(ns, n, x);
      if n <= x {
        assert NodeOk(ns, n, ns[x].left.value) && NodeOk(ns, n, ns[x].right.value);
      }
    }
    if HeightsOk(ns, n) {
      forall x: nat | x < |ms|
        ensures HeightOk(ms, n, x)
      {
        assert NodeOk(ns, n, x) && HeightOk(ns, n, x);
      }
    }
  }

  lemma ShapeTree(ns: seq<Node>, ms: seq<Node>, n: nat, root: nat)
    requires Tree(ns, n, root) && SameShape(ns, ms)
    ensures Tree(ms, n, root)
  {
    ShapeNodes(ns, ms, n);
  }

  /** The arena after update() at internal node x. */
  function UpdatedAt(ns: seq<Node>, n: nat, x: nat): (ms: seq<Node>)
    requires Nodes(ns, n) && n <= x < |ns|
    ensures |ms| == |ns|
    ensures ns[x].left.Some? && ns[x].right.Some? && ns[x].left.value < |ns| && ns[x].right.value < |ns|
    ensures ms[x] == Updated(ns[x], ns[ns[x].left.value], ns[ns[x].right.value])
    ensures forall y :: 0 <= y < |ns| && y != x ==> ms[y] == ns[y]
  {
    ChildSmaller(ns, n, x);
    ns[x := Updated(ns[x], ns[ns[x].left.value], ns[ns[x].right.value])]
  }

  /** update() at x keeps the arena well formed and makes x's volume and
      energy consistent with its children. */
  lemma UpdatedAtVolume(ns: seq<Node>, n: nat, x: nat)
    requires Nodes(ns, n) && n <= x < |ns|
    ensures Nodes(UpdatedAt(ns, n, x), n) && VolumeOk(UpdatedAt(ns, n, x), n, x)
  {
    var ms := UpdatedAt(ns, n, x);
    assert SameShape(ns, ms);
    ShapeNodes(ns, ms, n);
    ChildSmaller(ns, n, x);
    assert NodeOk(ms, n, x);
  }

  /** Changing the cached values of one node x, consistently with its own
      children, can break consistency only at x's parent. */
  lemma ChangedOne(ns: seq<Node>, ms: seq<Node>, n: nat, x: nat, vol: bool)
    requires Nodes(ns, n) && SameShape(ns, ms) && x < |ns| && NodeOk(ns, n, x)
    requires forall y :: 0 <= y < |ns| && y != x ==> ms[y] == ns[y]
    requires forall y: nat :: y < |ns| && y != x ==> TransformOk(ns, n, y)
    requires vol ==> forall y: nat :: y < |ns| && y != x ==> VolumeOk(ns, n, y)
    requires n <= x ==> ms[x].transform == Compose(ns[ns[x].left.value].transform, ns[ns[x].right.value].transform)
    requires vol && n <= x ==>
               var l, r := ns[ns[x].left.value], ns[ns[x].right.value];
               ms[x].volume == Combine(l.volume, Transform(r.volume, ms[x].transform))
               && ms[x].energy == l.energy + r.energy
    ensures Nodes(ms, n)
    ensures forall y: nat :: y < |ms| && Some(y) != ns[x].parent ==> TransformOk(ms, n, y)
    ensures vol ==> forall y: nat :: y < |ms| && Some(y) != ns[x].parent ==> VolumeOk(ms, n, y)
  {
    ShapeNodes(ns, ms, n);
    forall y: nat | y < |ms| && Some(y) != ns[x].parent
      ensures TransformOk(ms, n, y) && (vol ==> VolumeOk(ms, n, y))
    {
      assert NodeOk(ns, n, y);
      if n <= y && y != x {
        var l, r := ns[y].left.value, ns[y].right.value;
        assert ns[l].parent == Some(y) && ns[r].parent == Some(y);
        assert l != x && r != x;
        assert TransformOk(ns, n, y) && (vol ==> VolumeOk(ns, n, y));
      } else if n <= x && y == x {
        assert NodeOk(ns, n, ns[x].left.value) && NodeOk(ns, n, ns[x].right.value);
      }
    }
  }

  // ---------------------------------------------------------------------
  // Walking up the parent chain

  /** Only the start of a parent chain can be a leaf. */
  lemma UpsAboveLeaves(ns: seq<Node>, n: nat, x: nat, y: nat)
    requires Nodes(ns, n) && x < |ns| && y in Ups(ns, n, x) && y != x
    ensures n <= y
    decreases n - Size(ns[x])
  {
    ParentLarger(ns, n, x);
    var p := ns[x].parent.value;
    if y != p {
      UpsAboveLeaves(ns, n, p, y);
    }
  }

  /** The state of a walk of update() calls up the parent chain of `start`
      that has reached x: `ms` has the shape and locks of `ns`, differs from
      it only on that chain, and every node but x's parent is consistent. */
  ghost predicate Walking(ns: seq<Node>, ms: seq<Node>, n: nat, start: nat, x: nat, vol: bool)
  {
    && Nodes(ns, n) && start < |ns| && x < |ns| && SameShape(ns, ms) && Nodes(ms, n)
    && x in Ups(ns, n, start)
    && (forall y: nat :: y < |ms| && Some(y) != ms[x].parent ==> TransformOk(ms, n, y))
    && (vol ==> forall y: nat :: y < |ms| && Some(y) != ms[x].parent ==> VolumeOk(ms, n, y))
    && (forall y: nat :: y < |ms| && y !in Ups(ns, n, start) ==> ms[y] == ns[y])
    && (forall y :: 0 <= y < |ms| ==> ms[y].locked == ns[y].locked)
  }

  /** A consistent tree in which only leaf `start` has changed is a walk
      that has reached that leaf. */
  lemma WalkStart(ns: seq<Node>, ms: seq<Node>, n: nat, start: nat, vol: bool)
    requires Nodes(ns, n) && TransformsOk(ns, n) && (vol ==> VolumesOk(ns, n)) && start < n
    requires SameShape(ns, ms) && ms[start].locked == ns[start].locked
    requires forall y :: 0 <= y < |ns| && y != start ==> ms[y] == ns[y]
    ensures Walking(ns, ms, n, start, start, vol)
  {
    assert NodeOk(ns, n, start);
    ChangedOne(ns, ms, n, start, vol);
  }

  /** One update() at the parent of x moves the walk one step up. */
  lemma WalkStep(ns: seq<Node>, ms: seq<Node>, n: nat, start: nat, x: nat, vol: bool)
    requires Walking(ns, ms, n, start, x, vol) && ms[x].parent.Some?
    ensures n <= ms[x].parent.value < |ms|
    ensures Size(ms[x]) < Size(ms[ms[x].parent.value]) <= n
    ensures Walking(ns, UpdatedAt(ms, n, ms[x].parent.value), n, start, ms[x].parent.value, vol)
  {
    var p := ms[x].parent.value;
    ParentLarger(ms, n, x);
    UpsClosed(ns, n, start, x);
    UpdatedOne(ms, n, p, vol);
  }

  /** update() at p, when only p was stale, leaves only p's parent stale. */
  lemma UpdatedOne(ms: seq<Node>, n: nat, p: nat, vol: bool)
    requires Nodes(ms, n) && n <= p < |ms|
    requires forall y: nat :: y < |ms| && y != p ==> TransformOk(ms, n, y)
    requires vol ==> forall y: nat :: y < |ms| && y != p ==> VolumeOk(ms, n, y)
    ensures SameShape(ms, UpdatedAt(ms, n, p)) && Nodes(UpdatedAt(ms, n, p), n)
    ensures forall y: nat :: y < |ms| && Some(y) != ms[p].parent ==> TransformOk(UpdatedAt(ms, n, p), n, y)
    ensures vol ==> forall y: nat :: y < |ms| && Some(y) != ms[p].parent ==> VolumeOk(UpdatedAt(ms, n, p), n, y)
  {
    var ms' := UpdatedAt(ms, n, p);
    assert NodeOk(ms, n, p);
    ChangedOne(ms, ms', n, p, vol);
  }

  /** A walk that has reached a node without a parent has made every cache
      consistent and changed no leaf but its start. */
  lemma WalkDone(ns: seq<Node>, ms: seq<Node>, n: nat, start: nat, x: nat, vol: bool)
    requires Walking(ns, ms, n, start, x, vol) && ms[x].parent.None?
    ensures Nodes(ms, n) && TransformsOk(ms, n) && (vol ==> VolumesOk(ms, n))
    ensures forall y :: 0 <= y < n && y != start ==> ms[y] == ns[y]
  {
    forall y | 0 <= y < n && y != start
      ensures ms[y] == ns[y]
    {
      if y in Ups(ns, n, start) {
        UpsAboveLeaves(ns, n, start, y);
      }
    }
  }
}
