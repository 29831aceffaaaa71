/** The two tree rotations of dataStructure/AdjustableChainTree.java on the
    arena of a chain tree: the pointer rewiring they perform, and why it
    keeps the tree well formed, the in-order bonds, every span but the two
    rotated ones, and every cached matrix (composition is associative). */
module TreeRotations {
  import opened Util
  import opened Matrices
  import opened ChainNodes
  import opened ChainShape

  /** Same links, spans and locks: what recomputing heights and calling
      update() leave alone. */
  predicate SameLinks(ns: seq<Node>, ms: seq<Node>)
  {
    && |ns| == |ms|
    && forall x :: 0 <= x < |ns| ==>
         && ms[x].left == ns[x].left && ms[x].right == ns[x].right && ms[x].parent == ns[x].parent
         && ms[x].low == ns[x].low && ms[x].high == ns[x].high && ms[x].locked == ns[x].locked
  }

  lemma LinksNodes(ns: seq<Node>, ms: seq<Node>, n: nat)
    requires Nodes(ns, n) && SameLinks(ns, ms)
    ensures Nodes(ms, n)
  {
    forall x: nat | x < |ms|
      ensures NodeOk(ms, n, x)
    {
      assert NodeOk(ns, n, x);
    }
  }

  lemma LinksTree(ns: seq<Node>, ms: seq<Node>, n: nat, root: nat)
    requires Tree(ns, n, root) && SameLinks(ns, ms)
    ensures Tree(ms, n, root)
  {
    LinksNodes(ns, ms, n);
  }

  // ---------------------------------------------------------------------
  // rotateLeft

  /** rotateLeft(b) needs b's right child a to be an internal node. */
  predicate LeftRotatable(ns: seq<Node>, n: nat, b: nat)
  {
    Nodes(ns, n) && n <= b < |ns| && ns[b].right.Some? && n <= ns[b].right.value < |ns|
  }

  /** The slots rotateLeft(b) works with: a = b.right, d = a.left,
      c = a.right and l = b.left, with the facts the tree gives about them. */
  lemma LeftSlots(ns: seq<Node>, n: nat, b: nat)
    requires LeftRotatable(ns, n, b)
    ensures var a := ns[b].right.value;
            && ns[b].left.Some? && ns[a].left.Some? && ns[a].right.Some?
            && var l, d, c := ns[b].left.value, ns[a].left.value, ns[a].right.value;
            && l < |ns| && d < |ns| && c < |ns|
            && ns[a].parent == Some(b) && ns[l].parent == Some(b)
            && ns[d].parent == Some(a) && ns[c].parent == Some(a)
            && ns[b].low == ns[l].low && ns[l].high + 1 == ns[a].low == ns[d].low
            && ns[d].high + 1 == ns[c].low && ns[c].high == ns[a].high == ns[b].high
            && ns[l].low <= ns[l].high && ns[d].low <= ns[d].high && ns[c].low <= ns[c].high
            && a != b && d != a && d != b && c != a && c != b && c != d
            && l != a && l != b && l != d && l != c
            && (ns[b].parent.Some? ==>
                  var g := ns[b].parent.value;
                  && n <= g < |ns| && (ns[g].left == Some(b) || ns[g].right == Some(b))
                  && g != a && g != b && g != d && g != c && g != l
                  && Size(ns[b]) < Size(ns[g]))
  {
    var a := ns[b].right.value;
    assert NodeOk(ns, n, b) && NodeOk(ns, n, a);
    var l, d, c := ns[b].left.value, ns[a].left.value, ns[a].right.value;
    assert NodeOk(ns, n, l) && NodeOk(ns, n, d) && NodeOk(ns, n, c);
    if ns[b].parent.Some? {
      ParentLarger(ns, n, b);
    }
  }

  /** The rewiring of rotateLeft(b), lines 271-299: a takes b's place (its
      span, its matrix and its parent's link) with b as its left child; b
      keeps its left child l, adopts a's old left child d, covers l and d,
      and multiplies their matrices. Heights are recomputed at b, then a. */
  function RotatedLeft(ns: seq<Node>, n: nat, b: nat): (ms: seq<Node>)
    requires LeftRotatable(ns, n, b)
    ensures |ms| == |ns|
  {
    LeftSlots(ns, n, b);
    var a := ns[b].right.value;
    var l, d, c := ns[b].left.value, ns[a].left.value, ns[a].right.value;
    var bh := Max(ns[l].height, ns[d].height) + 1;
    var b' := ns[b].(high := ns[d].high, transform := Compose(ns[l].transform, ns[d].transform),
                     right := Some(d), parent := Some(a), height := bh);
    var a' := ns[a].(low := ns[b].low, transform := ns[b].transform, left := Some(b),
                     parent := ns[b].parent, height := Max(bh, ns[c].height) + 1);
    var ms := ns[a := a'][b := b'][d := ns[d].(parent := Some(b))];
    match ns[b].parent
    case None => ms
    case Some(g) => ms[g := if ns[g].left == Some(b) then ns[g].(left := Some(a)) else ns[g].(right := Some(a))]
  }

  /** What RotatedLeft does, slot by slot. */
  lemma RotatedLeftAt(ns: seq<Node>, n: nat, b: nat)
    requires LeftRotatable(ns, n, b)
    ensures LeftRotatable(ns, n, b)
    ensures var a := ns[b].right.value;
            var ms := RotatedLeft(ns, n, b);
            && ns[b].left.Some? && ns[a].left.Some? && ns[a].right.Some?
            && var l, d, c := ns[b].left.value, ns[a].left.value, ns[a].right.value;
            && |ms| == |ns| && l < |ns| && d < |ns| && c < |ns|
            && ms[a] == ns[a].(low := ns[b].low, transform := ns[b].transform, left := Some(b),
                               parent := ns[b].parent, height := Max(ms[b].height, ns[c].height) + 1)
            && ms[b] == ns[b].(high := ns[d].high, transform := Compose(ns[l].transform, ns[d].transform),
                               right := Some(d), parent := Some(a), height := Max(ns[l].height, ns[d].height) + 1)
            && ms[d] == ns[d].(parent := Some(b))
            && (ns[b].parent.Some? ==>
                  var g := ns[b].parent.value;
                  g < |ns| && ms[g] == if ns[g].left == Some(b) then ns[g].(left := Some(a)) else ns[g].(right := Some(a)))
            && forall y :: 0 <= y < |ns| && y != a && y != b && y != d && Some(y) != ns[b].parent ==> ms[y] == ns[y]
  {
    LeftSlots(ns, n, b);
  }

  /** rotateLeft keeps a well-formed arena. */
  lemma RotatedLeftNodes(ns: seq<Node>, n: nat, b: nat)
    requires LeftRotatable(ns, n, b)
    ensures Nodes(RotatedLeft(ns, n, b), n)
  {
    var ms := RotatedLeft(ns, n, b);
    forall y: nat | y < |ms|
      ensures NodeOk(ms, n, y)
    {
      RotatedLeftNodeOk(ns, n, b, y);
    }
  }

  lemma RotatedLeftNodeOk(ns: seq<Node>, n: nat, b: nat, y: nat)
    requires LeftRotatable(ns, n, b) && y < |ns|
    ensures y < |RotatedLeft(ns, n, b)| && NodeOk(RotatedLeft(ns, n, b), n, y)
  {
    LeftSlots(ns, n, b);
    RotatedLeftAt(ns, n, b);
    var ms := RotatedLeft(ns, n, b);
    var a := ns[b].right.value;
    var l, d, c := ns[b].left.value, ns[a].left.value, ns[a].right.value;
    assert NodeOk(ns, n, y);
    if y == a {
      assert NodeOk(ns, n, b);
      assert LinksOk(ms, n, y);
    } else if y == b {
      assert NodeOk(ns, n, a);
      assert LinksOk(ms, n, y);
    } else if y == d {
      assert ParentOk(ms, n, y);
    } else if Some(y) == ns[b].parent {
      var o := if ns[y].left == Some(b) then ns[y].right.value else ns[y].left.value;
      assert ns[o].parent == Some(y);
      assert LinksOk(ms, n, y);
    } else {
      RotatedLeftOtherOk(ns, n, b, y);
    }
  }

  /** A slot that rotateLeft(b) does not rewire stays well formed. */
  lemma RotatedLeftOtherOk(ns: seq<Node>, n: nat, b: nat, y: nat)
    requires LeftRotatable(ns, n, b) && y < |ns|
    requires y != b && y != ns[b].right.value && ns[ns[b].right.value].left != Some(y) && Some(y) != ns[b].parent
    ensures y < |RotatedLeft(ns, n, b)| && NodeOk(RotatedLeft(ns, n, b), n, y)
  {
    LeftSlots(ns, n, b);
    RotatedLeftAt(ns, n, b);
    var ms := RotatedLeft(ns, n, b);
    var a := ns[b].right.value;
    var l, d, c := ns[b].left.value, ns[a].left.value, ns[a].right.value;
    assert NodeOk(ns, n, y);
    assert ms[y] == ns[y];
    if n <= y {
      var yl, yr := ns[y].left.value, ns[y].right.value;
      assert ns[yl].parent == Some(y) && ns[yr].parent == Some(y);
      assert yl != a && yl != b && yl != d && yr != a && yr != b && yr != d;
      assert LinksOk(ms, n, y);
    }
    if ns[y].parent.Some? {
      var q := ns[y].parent.value;
      assert q == a ==> y == c;
      assert q == b ==> y == l;
      assert ParentOk(ms, n, y);
    }
  }

  /** rotateLeft keeps a whole tree; the root moves to a when b was the
      root. */
  lemma RotatedLeftTree(ns: seq<Node>, n: nat, root: nat, b: nat)
    requires Tree(ns, n, root) && LeftRotatable(ns, n, b)
    ensures Tree(RotatedLeft(ns, n, b), n, if ns[b].parent.None? then ns[b].right.value else root)
  {
    LeftSlots(ns, n, b);
    RotatedLeftAt(ns, n, b);
    RotatedLeftNodes(ns, n, b);
    var ms := RotatedLeft(ns, n, b);
    var a := ns[b].right.value;
    var r := if ns[b].parent.None? then a else root;
    forall x: nat | x < |ms|
      ensures ms[x].parent.None? <==> x == r
    {
    }
  }

  /** rotateLeft keeps every matrix consistent: b now multiplies l and d,
      and a, holding b's old matrix, equals b's new one times c by
      associativity. */
  lemma RotatedLeftTransforms(ns: seq<Node>, n: nat, b: nat)
    requires LeftRotatable(ns, n, b) && TransformsOk(ns, n)
    ensures Nodes(RotatedLeft(ns, n, b), n) && TransformsOk(RotatedLeft(ns, n, b), n)
  {
    LeftSlots(ns, n, b);
    RotatedLeftAt(ns, n, b);
    RotatedLeftNodes(ns, n, b);
    var ms := RotatedLeft(ns, n, b);
    var a := ns[b].right.value;
    var l, d, c := ns[b].left.value, ns[a].left.value, ns[a].right.value;
    forall y: nat | y < |ms|
      ensures TransformOk(ms, n, y)
    {
      assert NodeOk(ns, n, y) && TransformOk(ns, n, y);
      if y == a {
        assert TransformOk(ns, n, b) && TransformOk(ns, n, a);
        ComposeAssociative(ns[l].transform, ns[d].transform, ns[c].transform);
      } else if y == b || y == d || Some(y) == ns[b].parent {
      } else if n <= y {
        var yl, yr := ns[y].left.value, ns[y].right.value;
        assert ns[yl].parent == Some(y) && ns[yr].parent == Some(y);
      }
    }
  }

  /** rotateLeft recomputes the heights of b and a; only b's old parent, now
      a's parent, can be left with a stale height. */
  lemma RotatedLeftHeights(ns: seq<Node>, n: nat, b: nat)
    requires LeftRotatable(ns, n, b) && HeightsOk(ns, n)
    ensures Nodes(RotatedLeft(ns, n, b), n)
    ensures forall y: nat :: y < |ns| && Some(y) != ns[b].parent ==> HeightOk(RotatedLeft(ns, n, b), n, y)
  {
    LeftSlots(ns, n, b);
    RotatedLeftAt(ns, n, b);
    RotatedLeftNodes(ns, n, b);
    var ms := RotatedLeft(ns, n, b);
    var a := ns[b].right.value;
    forall y: nat | y < |ms| && Some(y) != ns[b].parent
      ensures HeightOk(ms, n, y)
    {
      assert NodeOk(ns, n, y) && HeightOk(ns, n, y);
      if n <= y && y != a && y != b {
        var yl, yr := ns[y].left.value, ns[y].right.value;
        assert ns[yl].parent == Some(y) && ns[yr].parent == Some(y);
      }
    }
  }

  // ---------------------------------------------------------------------
  // rotateRight

  /** rotateRight(a) needs a's left child b to be an internal node. */
  predicate RightRotatable(ns: seq<Node>, n: nat, a: nat)
  {
    Nodes(ns, n) && n <= a < |ns| && ns[a].left.Some? && n <= ns[a].left.value < |ns|
  }

  /** The slots rotateRight(a) works with: b = a.left, e = b.left,
      d = b.right and c = a.right. */
  lemma RightSlots(ns: seq<Node>, n: nat, a: nat)
    requires RightRotatable(ns, n, a)
    ensures var b := ns[a].left.value;
            && ns[a].right.Some? && ns[b].left.Some? && ns[b].right.Some?
            && var e, d, c := ns[b].left.value, ns[b].right.value, ns[a].right.value;
            && e < |ns| && d < |ns| && c < |ns|
            && ns[b].parent == Some(a) && ns[c].parent == Some(a)
            && ns[e].parent == Some(b) && ns[d].parent == Some(b)
            && ns[a].low == ns[b].low == ns[e].low && ns[e].high + 1 == ns[d].low
            && ns[d].high == ns[b].high && ns[b].high + 1 == ns[c].low && ns[c].high == ns[a].high
            && ns[e].low <= ns[e].high && ns[d].low <= ns[d].high && ns[c].low <= ns[c].high
            && a != b && d != a && d != b && e != a && e != b && e != d
            && c != a && c != b && c != d && c != e
            && (ns[a].parent.Some? ==>
                  var g := ns[a].parent.value;
                  && n <= g < |ns| && (ns[g].left == Some(a) || ns[g].right == Some(a))
                  && g != a && g != b && g != d && g != e && g != c
                  && Size(ns[a]) < Size(ns[g]))
  {
    var b := ns[a].left.value;
    assert NodeOk(ns, n, a) && NodeOk(ns, n, b);
    var e, d, c := ns[b].left.value, ns[b].right.value, ns[a].right.value;
    assert NodeOk(ns, n, e) && NodeOk(ns, n, d) && NodeOk(ns, n, c);
    if ns[a].parent.Some? {
      ParentLarger(ns, n, a);
    }
  }

  /** The rewiring of rotateRight(a), lines 321-349: b takes a's place (its
      span, its matrix and its parent's link) with a as its right child; a
      keeps its right child c, adopts b's old right child d, covers d and c,
      and multiplies their matrices. The heights are those of
      RightRotationHeights: a's from its new children, then b's. */
  function RotatedRight(ns: seq<Node>, n: nat, a: nat): (ms: seq<Node>)
    requires RightRotatable(ns, n, a)
    ensures |ms| == |ns|
  {
    RightSlots(ns, n, a);
    var b := ns[a].left.value;
    var e, d, c := ns[b].left.value, ns[b].right.value, ns[a].right.value;
    var (ah, bh) := RightRotationHeights(ns[e].height, ns[d].height, ns[c].height);
    var b' := ns[b].(high := ns[a].high, transform := ns[a].transform, right := Some(a),
                     parent := ns[a].parent, height := bh);
    var a' := ns[a].(low := ns[d].low, transform := Compose(ns[d].transform, ns[c].transform),
                     left := Some(d), parent := Some(b), height := ah);
    var ms := ns[b := b'][a := a'][d := ns[d].(parent := Some(a))];
    match ns[a].parent
    case None => ms
    case Some(g) => ms[g := if ns[g].left == Some(a) then ns[g].(left := Some(b)) else ns[g].(right := Some(b))]
  }

  /** The heights rotateRight should give the rotated nodes a and b, from
      the heights of e = b.left, d and c: each one above its taller new
      child. */
  function RightRotationHeights(eh: int, dh: int, ch: int): (hs: (int, int))
    ensures hs.0 > dh && hs.0 > ch && (hs.0 == dh + 1 || hs.0 == ch + 1)
    ensures hs.1 > eh && hs.1 > hs.0 && (hs.1 == eh + 1 || hs.1 == hs.0 + 1)
  {
    var ah := Max(dh, ch) + 1;
    (ah, Max(eh, ah) + 1)
  }

  /** The heights lines 348-349 actually assign: by then b.right is a, so
      a's new height is read from e and a's OLD height instead of from d
      and c, and b's follows from that. */
  function RightRotationHeightsAsWritten(eh: int, oldAh: int): (int, int)
  {
    var ah := Max(eh, oldAh) + 1;
    (ah, Max(eh, ah) + 1)
  }

  /** The as-written heights are wrong whenever a was taller than its new
      children warrant: rotating right at the root of the three-bond tree
      ((0 1) 2), whose height is 2, leaves a over the leaves 1 and 2 with
      height 3 instead of 1, and b with height 4 instead of 2. */
  lemma RightRotationHeightsAsWrittenWrong()
    ensures RightRotationHeightsAsWritten(0, 2) == (3, 4)
    ensures RightRotationHeights(0, 0, 0) == (1, 2)
  {
  }

  /** What RotatedRight does, slot by slot. */
  lemma RotatedRightAt(ns: seq<Node>, n: nat, a: nat)
    requires RightRotatable(ns, n, a)
    ensures var b := ns[a].left.value;
            var ms := RotatedRight(ns, n, a);
            && ns[a].right.Some? && ns[b].left.Some? && ns[b].right.Some?
            && var e, d, c := ns[b].left.value, ns[b].right.value, ns[a].right.value;
            && |ms| == |ns| && e < |ns| && d < |ns| && c < |ns|
            && ms[a] == ns[a].(low := ns[d].low, transform := Compose(ns[d].transform, ns[c].transform),
                               left := Some(d), parent := Some(b), height := Max(ns[d].height, ns[c].height) + 1)
            && ms[b] == ns[b].(high := ns[a].high, transform := ns[a].transform, right := Some(a),
                               parent := ns[a].parent, height := Max(ns[e].height, ms[a].height) + 1)
            && ms[d] == ns[d].(parent := Some(a))
            && (ns[a].parent.Some? ==>
                  var g := ns[a].parent.value;
                  g < |ns| && ms[g] == if ns[g].left == Some(a) then ns[g].(left := Some(b)) else ns[g].(right := Some(b)))
            && forall y :: 0 <= y < |ns| && y != a && y != b && y != d && Some(y) != ns[a].parent ==> ms[y] == ns[y]
  {
    RightSlots(ns, n, a);
  }

  /** rotateRight keeps a well-formed arena. */
  lemma RotatedRightNodes(ns: seq<Node>, n: nat, a: nat)
    requires RightRotatable(ns, n, a)
    ensures Nodes(RotatedRight(ns, n, a), n)
  {
    var ms := RotatedRight(ns, n, a);
    forall y: nat | y < |ms|
      ensures NodeOk(ms, n, y)
    {
      RotatedRightNodeOk(ns, n, a, y);
    }
  }

  lemma RotatedRightNodeOk(ns: seq<Node>, n: nat, a: nat, y: nat)
    requires RightRotatable(ns, n, a) && y < |ns|
    ensures y < |RotatedRight(ns, n, a)| && NodeOk(RotatedRight(ns, n, a), n, y)
  {
    RightSlots(ns, n, a);
    RotatedRightAt(ns, n, a);
    var ms := RotatedRight(ns, n, a);
    var b := ns[a].left.value;
    var e, d, c := ns[b].left.value, ns[b].right.value, ns[a].right.value;
    assert NodeOk(ns, n, y);
    if y == a {
      assert NodeOk(ns, n, b);
      assert LinksOk(ms, n, y);
    } else if y == b {
      assert NodeOk(ns, n, a);
      assert LinksOk(ms, n, y);
    } else if y == d {
      assert ParentOk(ms, n, y);
    } else if Some(y) == ns[a].parent {
      var o := if ns[y].left == Some(a) then ns[y].right.value else ns[y].left.value;
      assert ns[o].parent == Some(y);
      assert LinksOk(ms, n, y);
    } else {
      RotatedRightOtherOk(ns, n, a, y);
    }
  }

  /** A slot that rotateRight(a) does not rewire stays well formed. */
  lemma RotatedRightOtherOk(ns: seq<Node>, n: nat, a: nat, y: nat)
    requires RightRotatable(ns, n, a) && y < |ns|
    requires y != a && y != ns[a].left.value && ns[ns[a].left.value].right != Some(y) && Some(y) != ns[a].parent
    ensures y < |RotatedRight(ns, n, a)| && NodeOk(RotatedRight(ns, n, a), n, y)
  {
    RightSlots(ns, n, a);
    RotatedRightAt(ns, n, a);
    var ms := RotatedRight(ns, n, a);
    var b := ns[a].left.value;
    var e, d, c := ns[b].left.value, ns[b].right.value, ns[a].right.value;
    assert NodeOk(ns, n, y);
    assert ms[y] == ns[y];
    if n <= y {
      var yl, yr := ns[y].left.value, ns[y].right.value;
      assert ns[yl].parent == Some(y) && ns[yr].parent == Some(y);
      assert yl != a && yl != b && yl != d && yr != a && yr != b && yr != d;
      assert LinksOk(ms, n, y);
    }
    if ns[y].parent.Some? {
      var q := ns[y].parent.value;
      assert q == a ==> y == c;
      assert q == b ==> y == e;
      assert ParentOk(ms, n, y);
    }
  }

  /** rotateRight keeps a whole tree; the root moves to b when a was the
      root. */
  lemma RotatedRightTree(ns: seq<Node>, n: nat, root: nat, a: nat)
    requires Tree(ns, n, root) && RightRotatable(ns, n, a)
    ensures Tree(RotatedRight(ns, n, a), n, if ns[a].parent.None? then ns[a].left.value else root)
  {
    RightSlots(ns, n, a);
    RotatedRightAt(ns, n, a);
    RotatedRightNodes(ns, n, a);
    var ms := RotatedRight(ns, n, a);
    var b := ns[a].left.value;
    var r := if ns[a].parent.None? then b else root;
    forall x: nat | x < |ms|
      ensures ms[x].parent.None? <==> x == r
    {
    }
  }

  /** rotateRight keeps every matrix consistent: a now multiplies d and c,
      and b, holding a's old matrix, equals e times a's new one by
      associativity. */
  lemma RotatedRightTransforms(ns: seq<Node>, n: nat, a: nat)
    requires RightRotatable(ns, n, a) && TransformsOk(ns, n)
    ensures Nodes(RotatedRight(ns, n, a), n) && TransformsOk(RotatedRight(ns, n, a), n)
  {
    RightSlots(ns, n, a);
    RotatedRightAt(ns, n, a);
    RotatedRightNodes(ns, n, a);
    var ms := RotatedRight(ns, n, a);
    var b := ns[a].left.value;
    var e, d, c := ns[b].left.value, ns[b].right.value, ns[a].right.value;
    forall y: nat | y < |ms|
      ensures TransformOk(ms, n, y)
    {
      assert NodeOk(ns, n, y) && TransformOk(ns, n, y);
      if y == b {
        assert TransformOk(ns, n, b) && TransformOk(ns, n, a);
        ComposeAssociative(ns[e].transform, ns[d].transform, ns[c].transform);
      } else if y == a || y == d || Some(y) == ns[a].parent {
      } else if n <= y {
        var yl, yr := ns[y].left.value, ns[y].right.value;
        assert ns[yl].parent == Some(y) && ns[yr].parent == Some(y);
      }
    }
  }

  /** With the corrected heights, rotateRight leaves a and b consistent;
      only a's old parent, now b's parent, can be left with a stale
      height. */
  lemma RotatedRightHeights(ns: seq<Node>, n: nat, a: nat)
    requires RightRotatable(ns, n, a) && HeightsOk(ns, n)
    ensures Nodes(RotatedRight(ns, n, a), n)
    ensures forall y: nat :: y < |ns| && Some(y) != ns[a].parent ==> HeightOk(RotatedRight(ns, n, a), n, y)
  {
    RightSlots(ns, n, a);
    RotatedRightAt(ns, n, a);
    RotatedRightNodes(ns, n, a);
    var ms := RotatedRight(ns, n, a);
    var b := ns[a].left.value;
    forall y: nat | y < |ms| && Some(y) != ns[a].parent
      ensures HeightOk(ms, n, y)
    {
      assert NodeOk(ns, n, y) && HeightOk(ns, n, y);
      if n <= y && y != a && y != b {
        var yl, yr := ns[y].left.value, ns[y].right.value;
        assert ns[yl].parent == Some(y) && ns[yr].parent == Some(y);
      }
    }
  }

  // ---------------------------------------------------------------------
  // The loop over the ancestors of a rotated subtree

  /** Line 304 (and 354): the height of internal node p recomputed from its
      children. */
  function Raised(ms: seq<Node>, n: nat, p: nat): (rs: seq<Node>)
    requires Nodes(ms, n) && n <= p < |ms|
    ensures SameLinks(ms, rs) && Nodes(rs, n)
    ensures forall y :: 0 <= y < |ms| && y != p ==> rs[y] == ms[y]
    ensures ms[p].left.Some? && ms[p].right.Some? && ms[p].left.value < |ms| && ms[p].right.value < |ms|
    ensures rs[p].height == Max(ms[ms[p].left.value].height, ms[ms[p].right.value].height) + 1
    ensures rs[p] == ms[p].(height := rs[p].height)
  {
    ChildSmaller(ms, n, p);
    var rs := ms[p := ms[p].(height := Max(ms[ms[p].left.value].height, ms[ms[p].right.value].height) + 1)];
    LinksNodes(ms, rs, n);
    rs
  }

  /** The state of the ancestor loop of a rotation whose rewired arena is
      r0 and whose new subtree root is `start`, after k steps up its parent
      chain U: ms differs from r0 only in the heights, volumes and energies
      of proper ancestors of start, every matrix is consistent and the one
      of r0, every height is consistent but perhaps that of U[k]'s parent,
      and U[1..k] have had update() called after their children. */
  ghost predicate Climbing(r0: seq<Node>, ms: seq<Node>, n: nat, start: nat, k: nat)
  {
    && Nodes(r0, n) && start < |r0| && SameLinks(r0, ms) && Nodes(ms, n)
    && k < |Ups(r0, n, start)|
    && TransformsOk(ms, n)
    && (forall y: nat :: y < |ms| && Some(y) != r0[Ups(r0, n, start)[k]].parent ==> HeightOk(ms, n, y))
    && (forall y :: 0 <= y < |ms| ==> ms[y].transform == r0[y].transform)
    && (forall y :: 0 <= y < |ms| && (y !in Ups(r0, n, start) || y == start) ==> ms[y] == r0[y])
    && (forall m :: 1 <= m <= k ==> VolumeOk(ms, n, Ups(r0, n, start)[m]))
  }

  /** Right after the rewiring the loop stands at the new subtree root. */
  lemma ClimbStart(r0: seq<Node>, n: nat, start: nat)
    requires Nodes(r0, n) && start < |r0| && TransformsOk(r0, n)
    requires forall y: nat :: y < |r0| && Some(y) != r0[start].parent ==> HeightOk(r0, n, y)
    ensures Climbing(r0, r0, n, start, 0)
  {
  }

  /** One step of the loop: the height of U[k]'s parent U[k+1] is
      recomputed and update() is called on it. */
  lemma ClimbStep(r0: seq<Node>, ms: seq<Node>, n: nat, start: nat, k: nat)
    requires Climbing(r0, ms, n, start, k) && ms[Ups(r0, n, start)[k]].parent.Some?
    ensures var u := Ups(r0, n, start);
            && k + 1 < |u| && ms[u[k]].parent == Some(u[k + 1]) && n <= u[k + 1] < |ms|
            && Size(ms[u[k]]) < Size(ms[u[k + 1]]) <= n
            && Climbing(r0, UpdatedAt(Raised(ms, n, u[k + 1]), n, u[k + 1]), n, start, k + 1)
  {
    var u := Ups(r0, n, start);
    var x := u[k];
    assert k + 1 < |u|;
    var p := u[k + 1];
    ParentLarger(ms, n, x);
    ClimbStepLinks(r0, ms, n, start, k);
    ClimbStepHeights(r0, ms, n, start, k);
    ClimbStepVolumes(r0, ms, n, start, k);
    ClimbStepFixed(r0, ms, n, start, k);
  }

  /** A step changes only U[k+1], a proper ancestor of start. */
  lemma ClimbStepFixed(r0: seq<Node>, ms: seq<Node>, n: nat, start: nat, k: nat)
    requires Climbing(r0, ms, n, start, k) && ms[Ups(r0, n, start)[k]].parent.Some?
    ensures var u := Ups(r0, n, start);
            && k + 1 < |u| && n <= u[k + 1] < |ms|
            && var ms2 := UpdatedAt(Raised(ms, n, u[k + 1]), n, u[k + 1]);
            && forall y :: 0 <= y < |ms2| && (y !in u || y == start) ==> ms2[y] == r0[y]
  {
    var u := Ups(r0, n, start);
    assert k + 1 < |u|;
    var p := u[k + 1];
    ParentLarger(ms, n, u[k]);
    UpsDistinct(r0, n, start);
    assert u[0] == start && p in u && p != start;
  }

  /** A step keeps the links and every matrix. */
  lemma ClimbStepLinks(r0: seq<Node>, ms: seq<Node>, n: nat, start: nat, k: nat)
    requires Climbing(r0, ms, n, start, k) && ms[Ups(r0, n, start)[k]].parent.Some?
    ensures var u := Ups(r0, n, start);
            && k + 1 < |u| && n <= u[k + 1] < |ms|
            && var ms2 := UpdatedAt(Raised(ms, n, u[k + 1]), n, u[k + 1]);
            && SameLinks(r0, ms2) && Nodes(ms2, n) && TransformsOk(ms2, n)
            && forall y :: 0 <= y < |ms2| ==> ms2[y].transform == r0[y].transform
  {
    var u := Ups(r0, n, start);
    assert k + 1 < |u|;
    var p := u[k + 1];
    ParentLarger(ms, n, u[k]);
    var ms2 := UpdatedAt(Raised(ms, n, p), n, p);
    RaisedUpdated(ms, n, p);
    MatricesKept(ms, ms2, n);
  }

  /** Raising and updating a node whose matrix is consistent keeps the
      links and every matrix. */
  lemma RaisedUpdated(ms: seq<Node>, n: nat, p: nat)
    requires Nodes(ms, n) && n <= p < |ms| && TransformOk(ms, n, p)
    ensures SameLinks(ms, UpdatedAt(Raised(ms, n, p), n, p))
    ensures forall y :: 0 <= y < |ms| ==> UpdatedAt(Raised(ms, n, p), n, p)[y].transform == ms[y].transform
  {
    var rs := Raised(ms, n, p);
    var ms2 := UpdatedAt(rs, n, p);
    assert NodeOk(ms, n, p);
    assert ms2[p].transform == ms[p].transform;
    assert forall y :: 0 <= y < |ms| && y != p ==> ms2[y] == ms[y];
  }

  /** Links and matrices unchanged: the matrices stay consistent. */
  lemma MatricesKept(ms: seq<Node>, ms2: seq<Node>, n: nat)
    requires Nodes(ms, n) && TransformsOk(ms, n) && SameLinks(ms, ms2)
    requires forall y :: 0 <= y < |ms| ==> ms2[y].transform == ms[y].transform
    ensures Nodes(ms2, n) && TransformsOk(ms2, n)
  {
    LinksNodes(ms, ms2, n);
    forall y: nat | y < |ms2|
      ensures TransformOk(ms2, n, y)
    {
      assert NodeOk(ms, n, y) && TransformOk(ms, n, y);
    }
  }

  /** A step makes U[k+1]'s height consistent, leaving only its parent's
      in doubt. */
  lemma ClimbStepHeights(r0: seq<Node>, ms: seq<Node>, n: nat, start: nat, k: nat)
    requires Climbing(r0, ms, n, start, k) && ms[Ups(r0, n, start)[k]].parent.Some?
    ensures var u := Ups(r0, n, start);
            && k + 1 < |u| && n <= u[k + 1] < |ms|
            && var ms2 := UpdatedAt(Raised(ms, n, u[k + 1]), n, u[k + 1]);
            && Nodes(ms2, n)
            && forall y: nat :: y < |ms2| && Some(y) != r0[u[k + 1]].parent ==> HeightOk(ms2, n, y)
  {
    var u := Ups(r0, n, start);
    assert k + 1 < |u|;
    var p := u[k + 1];
    ParentLarger(ms, n, u[k]);
    var ms2 := UpdatedAt(Raised(ms, n, p), n, p);
    ClimbStepLinks(r0, ms, n, start, k);
    ChildSmaller(ms, n, p);
    forall y: nat | y < |ms2| && Some(y) != r0[p].parent
      ensures HeightOk(ms2, n, y)
    {
      assert NodeOk(ms, n, y);
      if y != p {
        assert HeightOk(ms, n, y);
        if n <= y {
          assert ms[y].left.value != p && ms[y].right.value != p;
        }
      }
    }
  }

  /** A step gives U[k+1] a consistent volume and keeps those of U[1..k],
      which lie below it. */
  lemma ClimbStepVolumes(r0: seq<Node>, ms: seq<Node>, n: nat, start: nat, k: nat)
    requires Climbing(r0, ms, n, start, k) && ms[Ups(r0, n, start)[k]].parent.Some?
    ensures var u := Ups(r0, n, start);
            && k + 1 < |u| && n <= u[k + 1] < |ms|
            && var ms2 := UpdatedAt(Raised(ms, n, u[k + 1]), n, u[k + 1]);
            && Nodes(ms2, n)
            && forall m :: 1 <= m <= k + 1 ==> VolumeOk(ms2, n, u[m])
  {
    var u := Ups(r0, n, start);
    assert k + 1 < |u|;
    var p := u[k + 1];
    ParentLarger(ms, n, u[k]);
    var ms2 := UpdatedAt(Raised(ms, n, p), n, p);
    ClimbStepLinks(r0, ms, n, start, k);
    forall m | 1 <= m <= k
      ensures Size(ms[u[m]]) < Size(ms[p])
    {
      UpsNested(r0, n, start, m, k + 1);
    }
    UpdatedAtVolume(Raised(ms, n, p), n, p);
    VolumesBelow(ms, ms2, n, u, k, p);
  }

  /** Volumes along a chain below the one changed node p survive. */
  lemma VolumesBelow(ms: seq<Node>, ms2: seq<Node>, n: nat, u: seq<nat>, k: nat, p: nat)
    requires Nodes(ms, n) && Nodes(ms2, n) && SameLinks(ms, ms2)
    requires k + 1 < |u| && u[k + 1] == p && forall i :: 0 <= i < |u| ==> u[i] < |ms|
    requires forall z :: 0 <= z < |ms| && z != p ==> ms2[z] == ms[z]
    requires forall m :: 1 <= m <= k ==> Size(ms[u[m]]) < Size(ms[p])
    requires forall m :: 1 <= m <= k ==> VolumeOk(ms, n, u[m])
    requires VolumeOk(ms2, n, p)
    ensures forall m :: 1 <= m <= k + 1 ==> VolumeOk(ms2, n, u[m])
  {
    forall m | 1 <= m <= k
      ensures VolumeOk(ms2, n, u[m])
    {
      VolumeAway(ms, ms2, n, u[m], p);
    }
  }

  /** The volume check at y reads only y and its children, so changing a
      larger node p leaves it as it was. */
  lemma VolumeAway(ms: seq<Node>, ms2: seq<Node>, n: nat, y: nat, p: nat)
    requires Nodes(ms, n) && Nodes(ms2, n) && SameLinks(ms, ms2)
    requires y < |ms| && p < |ms| && Size(ms[y]) < Size(ms[p])
    requires forall z :: 0 <= z < |ms| && z != p ==> ms2[z] == ms[z]
    ensures VolumeOk(ms2, n, y) == VolumeOk(ms, n, y)
  {
    assert NodeOk(ms, n, y) && NodeOk(ms2, n, y);
    if n <= y {
      ChildSmaller(ms, n, y);
    }
  }

  /** The outcome of a whole rotation whose rewired arena is r0 and whose
      new subtree root is `start`: the links, spans, locks and matrices of
      r0, the records of r0 off the chain of proper ancestors of start, and
      on that chain volumes and energies recomputed from the children. */
  ghost predicate Rewired(r0: seq<Node>, ms: seq<Node>, n: nat, start: nat)
  {
    && Nodes(r0, n) && start < |r0| && SameLinks(r0, ms) && Nodes(ms, n)
    && (forall y :: 0 <= y < |ms| ==> ms[y].transform == r0[y].transform)
    && (forall y :: 0 <= y < |ms| && (y !in Ups(r0, n, start) || y == start) ==> ms[y] == r0[y])
    && (forall y :: y in Ups(r0, n, start) && y != start ==> VolumeOk(ms, n, y))
  }

  /** When the loop reaches the root every height is consistent and every
      proper ancestor of start has been updated. */
  lemma ClimbDone(r0: seq<Node>, ms: seq<Node>, n: nat, start: nat, k: nat)
    requires Climbing(r0, ms, n, start, k) && ms[Ups(r0, n, start)[k]].parent.None?
    ensures Rewired(r0, ms, n, start) && HeightsOk(ms, n) && TransformsOk(ms, n)
    ensures forall y :: 0 <= y < n ==> ms[y] == r0[y]
  {
    var u := Ups(r0, n, start);
    assert k == |u| - 1;
    forall y | y in u && y != start
      ensures VolumeOk(ms, n, y)
    {
      var m :| 0 <= m < |u| && u[m] == y;
    }
    forall y | 0 <= y < n
      ensures ms[y] == r0[y]
    {
      if y in u && y != start {
        UpsAboveLeaves(r0, n, start, y);
      }
    }
  }

  // ---------------------------------------------------------------------
  // What a rotation leaves alone

  /** The leaves keep everything but their parent link, and every node
      keeps its lock. */
  predicate SameLeaves(ns: seq<Node>, ms: seq<Node>, n: nat)
  {
    && |ns| == |ms| && n <= |ns|
    && (forall k :: 0 <= k < n ==> ms[k] == ns[k].(parent := ms[k].parent))
    && (forall y :: 0 <= y < |ns| ==> ms[y].locked == ns[y].locked)
  }

  lemma SameLeavesTrans(ns: seq<Node>, ms: seq<Node>, os: seq<Node>, n: nat)
    requires SameLeaves(ns, ms, n) && SameLeaves(ms, os, n)
    ensures SameLeaves(ns, os, n)
  {
  }

  /** Neither rotation touches a leaf's own data or any lock. */
  lemma RotatedLeftLeaves(ns: seq<Node>, n: nat, b: nat)
    requires LeftRotatable(ns, n, b)
    ensures SameLeaves(ns, RotatedLeft(ns, n, b), n)
  {
    RotatedLeftAt(ns, n, b);
    assert NodeOk(ns, n, b);
  }

  lemma RotatedRightLeaves(ns: seq<Node>, n: nat, a: nat)
    requires RightRotatable(ns, n, a)
    ensures SameLeaves(ns, RotatedRight(ns, n, a), n)
  {
    RotatedRightAt(ns, n, a);
    assert NodeOk(ns, n, a);
  }

  /** The ancestor loop leaves the leaves and the locks of the rewired
      arena. */
  lemma RewiredLeaves(r0: seq<Node>, ms: seq<Node>, n: nat, start: nat)
    requires Rewired(r0, ms, n, start) && forall y :: 0 <= y < n ==> ms[y] == r0[y]
    ensures SameLeaves(r0, ms, n)
  {
  }
}
