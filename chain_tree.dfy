/** The chain tree of dataStructure/ChainTree.java: the backbone bonds as
    leaves, built pairwise level by level into a balanced tree whose nodes
    cache the composed transform of their piece of the chain. */
module ChainTrees {
  import opened Util
  import opened Vectors
  import opened Matrices
  import opened Volumes
  import opened ChainNodes
  import opened ChainShape

  datatype TreeError = IndexOutOfBounds | LockedBond

  /** The position of point k relative to the point before it; the offset
      stands in front of point 0. */
  function Relative(points: seq<Vec3>, offset: Vec3, k: nat): (v: Vec3)
    requires k < |points|
    ensures Add(if k == 0 then offset else points[k - 1], v) == points[k]
  {
    Subtract(points[k], if k == 0 then offset else points[k - 1])
  }

  // ---------------------------------------------------------------------
  // Backbone points

  /** The running product of getBackbonePoints after k leaves: the
      translation to the tree's position, then leaves 0..k-1 multiplied on
      the right one at a time. */
  function Prefix(ns: seq<Node>, position: Vec3, k: nat): Mat
    requires k <= |ns|
  {
    if k == 0 then Translation(position) else Compose(Prefix(ns, position, k - 1), ns[k - 1].transform)
  }

  /** The first n backbone points. */
  function PointsOf(ns: seq<Node>, position: Vec3, n: nat): (ps: seq<Vec3>)
    requires n <= |ns|
    ensures |ps| == n && forall k :: 0 <= k < n ==> ps[k] == PointAt(ns, position, k)
  {
    seq(n, k requires 0 <= k < n => PointAt(ns, position, k))
  }

  /** Point k of the backbone: the translation column after leaf k. */
  function PointAt(ns: seq<Node>, position: Vec3, k: nat): Vec3
    requires k < |ns|
  {
    TranslationOf(Prefix(ns, position, k + 1))
  }

  /** The running product is the position's translation composed with the
      product of the leaves, the quantity the tree caches at its nodes. */
  lemma {:induction false} PrefixIsProduct(ns: seq<Node>, position: Vec3, k: nat)
    requires k <= |ns|
    ensures Prefix(ns, position, k) == Compose(Translation(position), LeafProduct(ns, 0, k))
  {
    if k == 0 {
      IdentityNeutral(Translation(position));
    } else {
      PrefixIsProduct(ns, position, k - 1);
      ComposeAssociative(Translation(position), LeafProduct(ns, 0, k - 1), ns[k - 1].transform);
    }
  }

  /** Leaves that are the pure translations built from `points` give back
      exactly those points: the relative positions telescope. */
  lemma {:induction false} PrefixOfTranslations(ns: seq<Node>, points: seq<Vec3>, offset: Vec3, k: nat)
    requires |points| <= |ns| && k < |points|
    requires forall j :: 0 <= j < |points| ==> ns[j].transform == Translation(Relative(points, offset, j))
    ensures Prefix(ns, offset, k + 1) == Translation(points[k])
  {
    var prev := if k == 0 then offset else points[k - 1];
    if k > 0 {
      PrefixOfTranslations(ns, points, offset, k - 1);
    }
    TranslationsCompose(prev, Relative(points, offset, k));
  }

  /** Two leaf sequences that agree before leaf i, and whose leaf i has the
      same translation column, give the same points 0..i. */
  lemma PointsUpTo(ns: seq<Node>, ms: seq<Node>, position: Vec3, i: nat)
    requires i < |ns| && i < |ms|
    requires forall k :: 0 <= k < i ==> ms[k].transform == ns[k].transform
    requires TranslationOf(ms[i].transform) == TranslationOf(ns[i].transform)
    ensures forall k :: 0 <= k <= i ==> PointAt(ms, position, k) == PointAt(ns, position, k)
  {
    PrefixesAgree(ns, ms, position, i);
    forall k | 0 <= k <= i
      ensures PointAt(ms, position, k) == PointAt(ns, position, k)
    {
      if k == i {
        TranslationOfCompose(Prefix(ns, position, i), ns[i].transform);
        TranslationOfCompose(Prefix(ms, position, i), ms[i].transform);
      } else {
        PrefixesAgree(ns, ms, position, k + 1);
      }
    }
  }

  lemma {:induction false} PrefixesAgree(ns: seq<Node>, ms: seq<Node>, position: Vec3, k: nat)
    requires k <= |ns| && k <= |ms|
    requires forall j :: 0 <= j < k ==> ms[j].transform == ns[j].transform
    ensures Prefix(ms, position, k) == Prefix(ns, position, k)
  {
    if k > 0 {
      PrefixesAgree(ns, ms, position, k - 1);
    }
  }

  // ---------------------------------------------------------------------
  // Level-by-level construction

  /** One pass of the do-while loop of the constructor: adjacent roots are
      paired left to right into new nodes and an odd last root is carried up
      unchanged. Only the parent pointers of existing slots change. */
  method PairLevel(ns: seq<Node>, n: nat, current: seq<nat>) returns (ms: seq<Node>, next: seq<nat>)
    requires Level(ns, n, current)
    ensures Level(ms, n, next)
    ensures |next| == (|current| + 1) / 2
    ensures LeafPart(ms, n) == LeafPart(ns, n)
  {
    ms, next := ns, [];
    var i := 0;
    while i + 1 < |current|
      invariant 0 <= i <= |current| && i == 2 * |next|
      invariant Level(ms, n, next + current[i..])
      invariant LeafPart(ms, n) == LeafPart(ns, n)
    {
      ms, next := PairRoots(ms, n, next, current, i);
      i := i + 2;
    }
    next := CarryOdd(ms, n, next, current, i);
  }

  /** After the pairing loop: an odd last root is carried up to the next
      level as it is. */
  method CarryOdd(ms: seq<Node>, n: nat, next: seq<nat>, current: seq<nat>, i: nat) returns (next2: seq<nat>)
    requires i <= |current| && i + 1 >= |current| && Level(ms, n, next + current[i..])
    ensures Level(ms, n, next2) && |next2| == |next| + |current| - i
  {
    if i < |current| {
      CarryShift(next, current, i);
      next2 := next + [current[i]];
    } else {
      assert next + current[i..] == next;
      next2 := next;
    }
  }

  /** The loop body: roots i and i+1 of the current level are paired
      into a new node, appended as the next root of the next level. */
  method PairRoots(ms: seq<Node>, n: nat, next: seq<nat>, current: seq<nat>, i: nat) returns (ms2: seq<Node>, next2: seq<nat>)
    requires i + 1 < |current| && Level(ms, n, next + current[i..])
    ensures Level(ms2, n, next2 + current[i + 2..]) && |next2| == |next| + 1
    ensures n <= |ms| && LeafPart(ms2, n) == LeafPart(ms, n)
  {
    PairStep(ms, n, next, current, i);
    var id: nat := |ms|;
    ms2, next2 := Merged(ms, current[i], current[i + 1]), next + [id];
  }

  /** The merge of the loop body: roots i and i+1 of the current level
      become the next root of the next level. */
  lemma PairStep(ms: seq<Node>, n: nat, next: seq<nat>, current: seq<nat>, i: nat)
    requires i + 1 < |current|
    requires Level(ms, n, next + current[i..])
    ensures current[i] < |ms| && current[i + 1] < |ms|
    ensures Level(Merged(ms, current[i], current[i + 1]), n, (next + [|ms|]) + current[i + 2..])
    ensures n <= |ms| && LeafPart(Merged(ms, current[i], current[i + 1]), n) == LeafPart(ms, n)
  {
    var roots := next + current[i..];
    var rs := (next + [|ms|]) + current[i + 2..];
    assert roots[|next|] == current[i] && roots[|next| + 1] == current[i + 1];
    assert forall k :: |next| < k < |rs| ==> rs[k] == roots[k + 1];
    MergeForest(ms, n, roots, |next|, rs);
    MergedLeafPart(ms, n, current[i], current[i + 1]);
  }

  lemma MergedLeafPart(ms: seq<Node>, n: nat, l: nat, r: nat)
    requires l < |ms| && r < |ms| && n <= |ms|
    ensures LeafPart(Merged(ms, l, r), n) == LeafPart(ms, n)
  {
    var a, b := LeafPart(Merged(ms, l, r), n), LeafPart(ms, n);
    forall k | 0 <= k < n
      ensures a[k] == b[k]
    {
    }
  }

  function LeafPart(ns: seq<Node>, n: nat): seq<Node>
    requires n <= |ns|
  {
    seq(n, k requires 0 <= k < n => ns[k].(parent := None))
  }

  function Min(a: int, b: int): int
  {
    if a <= b then a else b
  }

  /** The leaf loop of the constructor: leaf k is built from point k's
      position relative to the point before it. */
  method NewLeaves(points: seq<Vec3>, offset: Vec3) returns (leaves: seq<Node>)
    ensures |leaves| == |points|
    ensures forall k :: 0 <= k < |points| ==> leaves[k] == NewLeaf(k, Relative(points, offset, k))
  {
    leaves := [];
    var current := offset;
    var k := 0;
    while k < |points|
      invariant 0 <= k <= |points| && |leaves| == k
      invariant current == if k == 0 then offset else points[k - 1]
      invariant forall j :: 0 <= j < k ==> leaves[j] == NewLeaf(j, Relative(points, offset, j))
    {
      var next := points[k];
      leaves := leaves + [NewLeaf(k, Subtract(next, current))];
      current := next;
      k := k + 1;
    }
  }

  /** The do-while loop of the constructor: pair levels until a single
      root is left. The leaves keep everything but their parent pointer. */
  method Build(leaves: seq<Node>, n: nat) returns (ns: seq<Node>, root: nat)
    requires 1 <= n == |leaves|
    requires forall k :: 0 <= k < n ==> leaves[k].left.None? && leaves[k].right.None? && leaves[k].parent.None?
    requires forall k :: 0 <= k < n ==> leaves[k].low == k && leaves[k].high == k && leaves[k].height == 0
    ensures Tree(ns, n, root) && Caches(ns, n)
    ensures LeafPart(ns, n) == LeafPart(leaves, n)
  {
    LeavesForest(leaves, n);
    var level;
    ns, level := PairLevel(leaves, n, seq(n, k requires 0 <= k => k as nat));
    while |level| > 1
      invariant Level(ns, n, level)
      invariant LeafPart(ns, n) == LeafPart(leaves, n)
      decreases |level|
    {
      ns, level := PairLevel(ns, n, level);
    }
    ForestTree(ns, n, level);
    root := level[0];
  }

  lemma LeafPartAt(ns: seq<Node>, ms: seq<Node>, n: nat, x: nat)
    requires n <= |ns| && n <= |ms| && x < n
    requires LeafPart(ns, n) == LeafPart(ms, n)
    ensures ns[x] == ms[x].(parent := ns[x].parent)
  {
    assert LeafPart(ns, n)[x] == LeafPart(ms, n)[x];
  }

  lemma CarryShift(next: seq<nat>, current: seq<nat>, i: nat)
    requires i + 1 == |current|
    ensures next + current[i..] == next + [current[i]]
  {
    assert current[i..] == [current[i]];
  }


  // ---------------------------------------------------------------------
  // The tree

  /** The end of changeRotationAngle: once the walk of update() calls
      from leaf i has passed the root, the tree is valid again with the
      same shape, consistent volumes stay consistent, no other leaf has
      changed, and points 0..i have not moved. */
  lemma RotationWalked(trig: Trig, ns: seq<Node>, ms: seq<Node>, n: nat, root: nat, i: nat, x: nat,
                       angle: real, position: Vec3, vol: bool)
    requires Tree(ns, n, root) && HeightsOk(ns, n) && LeafForms(trig, ns, n) && i < n
    requires Walking(ns, ms, n, i, x, vol) && ms[x].parent.None?
    requires ms[i] == RotatedLeaf(trig, ns[i], angle)
    ensures Tree(ms, n, root) && HeightsOk(ms, n) && TransformsOk(ms, n) && LeafForms(trig, ms, n)
    ensures SameShape(ns, ms) && (vol ==> VolumesOk(ms, n))
    ensures forall k :: 0 <= k < n && k != i ==> ms[k] == ns[k]
    ensures forall k :: 0 <= k <= i ==> PointAt(ms, position, k) == PointAt(ns, position, k)
  {
    WalkDone(ns, ms, n, i, x, vol);
    ShapeTree(ns, ms, n, root);
    ShapeNodes(ns, ms, n);
    forall k: nat | k < n
      ensures LeafForm(trig, ms[k])
    {
      if k == i {
        RotateKeepsForm(trig, ns[i], angle);
      }
    }
    RotateKeepsTranslation(trig, ns[i].transform, ns[i].angle - angle);
    PointsUpTo(ns, ms, position, i);
  }

  class ChainTree {
    /** The arena: leaves (the backbone bonds) in slots 0..n-1, then the
        internal nodes. */
    var nodes: seq<Node>
    var root: nat
    const n: nat
    /** The position of the leftmost node in the world. */
    const position: Vec3
    const trig: Trig

    /** A tree over the n bonds whose heights and matrices are consistent
        and whose leaves are rotations of themselves by their own angles. */
    ghost predicate Valid()
      reads this
    {
      && Tree(nodes, n, root) && HeightsOk(nodes, n) && TransformsOk(nodes, n)
      && LeafForms(trig, nodes, n)
    }

    /** The backbone points the tree currently represents. */
    ghost function Points(): (ps: seq<Vec3>)
      reads this
      requires n <= |nodes|
      ensures |ps| == n
    {
      PointsOf(nodes, position, n)
    }

    /** ChainTree(points, offset): one leaf per point holding its position
        relative to the previous point (the offset before the first), then
        pairwise levels until one root is left. A list without points fails
        on its first get(0) in the source, so at least one is needed. */
    constructor (points: seq<Vec3>, offset: Vec3, trig: Trig)
      requires 1 <= |points| && TrigSane(trig)
      ensures n == |points| && position == offset && this.trig == trig
      ensures Valid() && VolumesOk(nodes, n)
      ensures forall k :: 0 <= k < n ==> nodes[k] == NewLeaf(k, Relative(points, offset, k)).(parent := nodes[k].parent)
      ensures InOrder(nodes, n, root) == Range(0, n)
      ensures Points() == points
    {
      var leaves := NewLeaves(points, offset);
      var count := |points|;
      var ns, r := Build(leaves, count);
      forall x | 0 <= x < count
        ensures ns[x] == NewLeaf(x, Relative(points, offset, x)).(parent := ns[x].parent)
        ensures LeafForm(trig, ns[x])
      {
        LeafPartAt(ns, leaves, count, x);
        NewLeafHasForm(trig, x, Relative(points, offset, x));
      }
      TreeInOrder(ns, count, r);
      forall j | 0 <= j < count
        ensures PointAt(ns, offset, j) == points[j]
      {
        PrefixOfTranslations(ns, points, offset, j);
      }
      nodes := ns;
      root := r;
      n := count;
      position := offset;
      this.trig := trig;
    }

    /** getBackbonePoints: multiplies the leaf matrices onto the position's
        translation left to right and reads off each translation column. */
    method GetBackbonePoints() returns (ps: seq<Vec3>)
      requires n <= |nodes|
      ensures ps == Points()
    {
      var m := Translation(position);
      ps := [];
      var i := 0;
      while i < n
        invariant 0 <= i <= n && |ps| == i
        invariant m == Prefix(nodes, position, i)
        invariant forall k :: 0 <= k < i ==> ps[k] == PointAt(nodes, position, k)
      {
        m := Compose(m, nodes[i].transform);
        ps := ps + [TranslationOf(m)];
        i := i + 1;
      }
    }

    /** isPeptide: no bond is reported as a peptide bond. */
    function IsPeptide(i: int): (r: bool)
      ensures !r
    {
      false
    }

    /** isInAlphaHelix: no bond is reported as part of a helix. */
    function IsInAlphaHelix(i: int): (r: bool)
      ensures !r
    {
      false
    }

    /** isInBetaSheet: no bond is reported as part of a sheet. */
    function IsInBetaSheet(i: int): (r: bool)
      ensures !r
    {
      false
    }

    /** CTNode.update() at internal node x. */
    method Update(x: nat)
      requires Nodes(nodes, n) && n <= x < |nodes|
      modifies this
      ensures nodes == UpdatedAt(old(nodes), n, x)
      ensures root == old(root)
    {
      nodes := UpdatedAt(nodes, n, x);
    }

    /** The loop of changeRotationAngle: from leaf i up to the root, each
        parent in turn recomputes its matrix, volume and energy. Leaf i
        itself is left as it is. */
    method WalkUp(ghost ns: seq<Node>, i: nat, ghost vol: bool) returns (x: nat)
      requires Walking(ns, nodes, n, i, i, vol) && i < n
      modifies this
      ensures Walking(ns, nodes, n, i, x, vol) && nodes[x].parent.None?
      ensures nodes[i] == old(nodes[i]) && root == old(root)
    {
      x := i;
      while nodes[x].parent.Some?
        invariant Walking(ns, nodes, n, i, x, vol) == true
        invariant nodes[i] == old(nodes[i]) && root == old(root)
        decreases n - Size(nodes[x])
      {
        var p := nodes[x].parent.value;
        WalkStep(ns, nodes, n, i, x, vol);
        Update(p);
        x := p;
      }
    }

    /** changeRotationAngle(i, angle): leaf i rotates by `angle`, then every
        ancestor of it, bottom-up, recomputes its matrix, volume and energy.
        An index outside the backbone is an error that changes nothing. */
    method ChangeRotationAngle(i: int, angle: real) returns (r: Outcome<TreeError>)
      requires Valid()
      modifies this
      ensures r.Fail? <==> !(0 <= i < n)
      ensures r.Fail? ==> r.error == IndexOutOfBounds && nodes == old(nodes)
      ensures Valid() && root == old(root) && SameShape(old(nodes), nodes)
      ensures old(VolumesOk(nodes, n)) ==> VolumesOk(nodes, n)
      ensures r.Pass? ==> nodes[i] == RotatedLeaf(trig, old(nodes)[i], angle)
      ensures forall k :: 0 <= k < n && k != i ==> nodes[k] == old(nodes)[k]
      ensures r.Pass? ==> forall x: nat :: x < |nodes| && x !in Ups(old(nodes), n, i) ==> nodes[x] == old(nodes)[x]
      ensures forall x :: 0 <= x < |nodes| ==> nodes[x].locked == old(nodes)[x].locked
      ensures r.Pass? ==> forall k :: 0 <= k <= i ==> PointAt(nodes, position, k) == PointAt(old(nodes), position, k)
    {
      if !(0 <= i < n) {
        return Fail(IndexOutOfBounds);
      }
      ghost var ns := nodes;
      ghost var vol := VolumesOk(nodes, n);
      nodes := nodes[i := RotatedLeaf(trig, nodes[i], angle)];
      WalkStart(ns, nodes, n, i, vol);
      var x := WalkUp(ns, i, vol);
      RotationWalked(trig, ns, nodes, n, root, i, x, angle, position, vol);
      return Pass;
    }
  }

  // ---------------------------------------------------------------------
  // What the caches mean

  /** The root's cached matrix carries the position to the last backbone
      point: the tree answers the end-to-end query without a walk. */
  lemma EndThroughRoot(ns: seq<Node>, n: nat, root: nat, position: Vec3)
    requires Tree(ns, n, root) && TransformsOk(ns, n)
    ensures PointAt(ns, position, n - 1) == TranslationOf(Compose(Translation(position), ns[root].transform))
  {
    SpanTransform(ns, n, root);
    PrefixIsProduct(ns, position, n);
  }

  /** Rotating a bond and rotating it back restores the tree's leaves. */
  lemma RotateBack(trig: Trig, ns: seq<Node>, i: nat, a: real)
    requires i < |ns| && LeafForm(trig, ns[i])
    ensures ns[i := RotatedLeaf(trig, ns[i], a)][i := RotatedLeaf(trig, RotatedLeaf(trig, ns[i], a), -a)] == ns
  {
    RotateInverse(trig, ns[i], a);
  }
}
