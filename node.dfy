/** The nodes of a chain tree (dataStructure/CTNode.java and CTLeaf.java)
    as records in an arena: a node refers to its children and parent by
    their slot in the tree's node sequence. Leaves are the backbone bonds;
    a leaf's `low` and `high` are its own bond index. */
module ChainNodes {
  import opened Util
  import opened Vectors
  import opened Matrices
  import opened Volumes

  datatype Node = Node(
    left: Option<nat>,
    right: Option<nat>,
    parent: Option<nat>,
    low: int,
    high: int,
    height: int,
    transform: Mat,
    volume: Volume,
    energy: real,
    locked: bool,
    angle: real)

  /** The CTLeaf constructor for the bond with the given index: a pure
      translation by the bond's relative position, a capsule of radius 1.0
      from the origin to that position, angle 0 and no links. */
  function NewLeaf(index: nat, relative: Vec3): (x: Node)
    ensures x.transform == Translation(relative)
    ensures Position(x) == relative
    ensures x.volume == Capsule(Zero(), relative, 1.0)
    ensures x.angle == 0.0 && x.energy == 0.0 && x.height == 0 && !x.locked
    ensures x.low == index && x.high == index
    ensures x.left.None? && x.right.None? && x.parent.None?
  {
    Node(None, None, None, index, index, 0, Translation(relative),
         Capsule(Zero(), relative, 1.0), 0.0, false, 0.0)
  }

  /** CTLeaf.getPosition: the translation column of the leaf's matrix. */
  function Position(x: Node): (p: Vec3)
    ensures p == Vec3(x.transform.a14, x.transform.a24, x.transform.a34)
  {
    TranslationOf(x.transform)
  }

  /** CTLeaf.rotate(a): the stored angle decreases by `a` and the matrix's
      rotation block is rewritten from the accumulated angle. */
  function RotatedLeaf(trig: Trig, x: Node, a: real): (r: Node)
    ensures r.angle == x.angle - a
    ensures r.transform == Rotated(trig, x.transform, x.angle - a)
    ensures r == x.(angle := r.angle, transform := r.transform)
  {
    var angle := x.angle - a;
    x.(angle := angle, transform := Rotated(trig, x.transform, angle))
  }

  /** A leaf whose matrix is the rotation of itself by its own angle; every
      new leaf is of this form when sin 0 = 0 and cos 0 = 1, and rotate keeps
      it so. */
  predicate LeafForm(trig: Trig, x: Node)
  {
    x.transform == Rotated(trig, x.transform, x.angle)
  }

  /** rotate never moves the leaf's position. */
  lemma RotateKeepsPosition(trig: Trig, x: Node, a: real)
    ensures Position(RotatedLeaf(trig, x, a)) == Position(x)
  {
    RotateKeepsTranslation(trig, x.transform, x.angle - a);
  }

  lemma NewLeafHasForm(trig: Trig, index: nat, relative: Vec3)
    requires TrigSane(trig)
    ensures LeafForm(trig, NewLeaf(index, relative))
  {
    RotateZeroOfTranslation(trig, relative);
  }

  lemma RotateKeepsForm(trig: Trig, x: Node, a: real)
    ensures LeafForm(trig, RotatedLeaf(trig, x, a))
  {
    RotateOverrides(trig, x.transform, x.angle - a, x.angle - a);
  }

  /** rotate(a) followed by rotate(-a) restores the stored angle and the
      whole matrix. */
  lemma RotateInverse(trig: Trig, x: Node, a: real)
    requires LeafForm(trig, x)
    ensures RotatedLeaf(trig, RotatedLeaf(trig, x, a), -a) == x
  {
    var y := RotatedLeaf(trig, x, a);
    assert y.angle - -a == x.angle;
    RotateOverrides(trig, x.transform, x.angle - a, x.angle);
  }

  /** CTNode.isLeaf: at least one child is missing. */
  predicate IsLeaf(x: Node)
  {
    x.left.None? || x.right.None?
  }

  /** CTNode.inSubChain(i). */
  predicate InSubChain(x: Node, i: int)
  {
    x.low <= i <= x.high
  }

  /** CTNode.update: the node's matrix becomes the product of its
      children's, its volume the fit of the left volume and the right volume
      moved by that NEW product, and its energy the children's sum. Links,
      span, height and lock are untouched. */
  function Updated(x: Node, l: Node, r: Node): (u: Node)
    ensures u.transform == Compose(l.transform, r.transform)
    ensures u.volume == Combine(l.volume, Transform(r.volume, u.transform))
    ensures u.energy == l.energy + r.energy
    ensures u == x.(transform := u.transform, volume := u.volume, energy := u.energy)
  {
    var t := Compose(l.transform, r.transform);
    x.(transform := t, volume := Combine(l.volume, Transform(r.volume, t)), energy := l.energy + r.energy)
  }

  /** The CTNode constructor's own fields for children `l` (slot li) and `r`
      (slot ri): height one above the taller child, span from l's low to r's
      high, no parent, unlocked, then update(). */
  function NewInternal(li: nat, l: Node, ri: nat, r: Node): (x: Node)
    ensures x.left == Some(li) && x.right == Some(ri) && x.parent.None?
    ensures x.height == Max(l.height, r.height) + 1
    ensures x.height > l.height && x.height > r.height
    ensures x.low == l.low && x.high == r.high && !x.locked
    ensures x.transform == Compose(l.transform, r.transform)
    ensures x.volume == Combine(l.volume, Transform(r.volume, x.transform))
    ensures x.energy == l.energy + r.energy
  {
    var bare := Node(Some(li), Some(ri), None, l.low, r.high, Max(l.height, r.height) + 1,
                     Identity(), Empty, 0.0, false, 0.0);
    Updated(bare, l, r)
  }

  /** CTNode.setLeft(child): only the left link, low and possibly the
      height change; the height is raised to child.height + 1 when needed
      and never lowered. */
  function SetLeft(x: Node, ci: nat, c: Node): (r: Node)
    ensures r == x.(left := Some(ci), low := c.low, height := r.height)
    ensures r.height >= x.height && r.height > c.height
    ensures r.height == x.height || r.height == c.height + 1
  {
    x.(left := Some(ci), low := c.low, height := if c.height >= x.height then c.height + 1 else x.height)
  }

  /** CTNode.setRight(child), the mirror image of setLeft. */
  function SetRight(x: Node, ci: nat, c: Node): (r: Node)
    ensures r == x.(right := Some(ci), high := c.high, height := r.height)
    ensures r.height >= x.height && r.height > c.height
    ensures r.height == x.height || r.height == c.height + 1
  {
    x.(right := Some(ci), high := c.high, height := if c.height >= x.height then c.height + 1 else x.height)
  }

  /** setLeft then setRight on a fresh node yields the span of the two
      children, and a height that is the larger of the old height and one
      above either child. */
  lemma SetBothSpan(x: Node, li: nat, l: Node, ri: nat, r: Node)
    ensures var y := SetRight(SetLeft(x, li, l), ri, r);
            y.low == l.low && y.high == r.high && y.parent == x.parent
            && y.height == Max(x.height, Max(l.height, r.height) + 1)
  {
  }
}
