/** The 3x4 affine transformation matrices of math/matrix/TransformationMatrix.java,
    over the reals. `Mat` is the value of the twelve entries; the class
    `TransformationMatrix` is the mutable object whose methods overwrite them.
    Sine, cosine and vector normalisation are not computed here: they are the
    function values of a `Trig` record supplied by the caller. */
module Matrices {
  import opened Vectors

  /** The entries a11..a34: a 3x3 rotation block and a translation column. */
  datatype Mat = Mat(a11: real, a12: real, a13: real, a14: real,
                     a21: real, a22: real, a23: real, a24: real,
                     a31: real, a32: real, a33: real, a34: real)

  /** Math.sin, Math.cos and the normalisation of a non-zero vector. */
  datatype Trig = Trig(sin: real -> real, cos: real -> real, norm: Vec3 -> Vec3)

  /** The trigonometric facts the model relies on: sin 0 = 0 and cos 0 = 1. */
  predicate TrigSane(trig: Trig)
  {
    trig.sin(0.0) == 0.0 && trig.cos(0.0) == 1.0
  }

  function Identity(): Mat
  {
    Mat(1.0, 0.0, 0.0, 0.0,
        0.0, 1.0, 0.0, 0.0,
        0.0, 0.0, 1.0, 0.0)
  }

  function Translation(v: Vec3): Mat
  {
    Mat(1.0, 0.0, 0.0, v.x,
        0.0, 1.0, 0.0, v.y,
        0.0, 0.0, 1.0, v.z)
  }

  /** The translation column (a14, a24, a34). */
  function TranslationOf(m: Mat): Vec3
  {
    Vec3(m.a14, m.a24, m.a34)
  }

  /** The homogeneous product l * r (the two-matrix constructor). */
  function Compose(l: Mat, r: Mat): Mat
  {
    Mat(l.a11 * r.a11 + l.a12 * r.a21 + l.a13 * r.a31,
        l.a11 * r.a12 + l.a12 * r.a22 + l.a13 * r.a32,
        l.a11 * r.a13 + l.a12 * r.a23 + l.a13 * r.a33,
        l.a11 * r.a14 + l.a12 * r.a24 + l.a13 * r.a34 + l.a14,
        l.a21 * r.a11 + l.a22 * r.a21 + l.a23 * r.a31,
        l.a21 * r.a12 + l.a22 * r.a22 + l.a23 * r.a32,
        l.a21 * r.a13 + l.a22 * r.a23 + l.a23 * r.a33,
        l.a21 * r.a14 + l.a22 * r.a24 + l.a23 * r.a34 + l.a24,
        l.a31 * r.a11 + l.a32 * r.a21 + l.a33 * r.a31,
        l.a31 * r.a12 + l.a32 * r.a22 + l.a33 * r.a32,
        l.a31 * r.a13 + l.a32 * r.a23 + l.a33 * r.a33,
        l.a31 * r.a14 + l.a32 * r.a24 + l.a33 * r.a34 + l.a34)
  }

  /** Maps a point: block * v + translation (the `transform` method). */
  function Apply(m: Mat, v: Vec3): Vec3
  {
    Vec3(m.a11 * v.x + m.a12 * v.y + m.a13 * v.z + m.a14,
         m.a21 * v.x + m.a22 * v.y + m.a23 * v.z + m.a24,
         m.a31 * v.x + m.a32 * v.y + m.a33 * v.z + m.a34)
  }

  /** The unit rotation axis used by `rotate`: the translation column,
      normalised when it is not the zero vector. */
  function Axis(trig: Trig, t: Vec3): Vec3
  {
    if LengthSq(t) > 0.0 then trig.norm(t) else t
  }

  /** The nine entries of a 3x3 block. */
  datatype Block = Block(b11: real, b12: real, b13: real,
                         b21: real, b22: real, b23: real,
                         b31: real, b32: real, b33: real)

  /** The block that `rotate(angle)` writes: the rotation by `angle` about
      the axis of the translation column `t`. */
  function RotationBlock(trig: Trig, t: Vec3, angle: real): Block
  {
    var u := Axis(trig, t);
    var s := trig.sin(angle);
    var c := trig.cos(angle);
    var d := 1.0 - c;
    Block(d * u.x * u.x + c, d * u.x * u.y - u.z * s, d * u.x * u.z + u.y * s,
          d * u.x * u.y + u.z * s, d * u.y * u.y + c, d * u.y * u.z - u.x * s,
          d * u.x * u.z - u.y * s, d * u.y * u.z + u.x * s, d * u.z * u.z + c)
  }

  /** `m` with its 3x3 block replaced and its translation column kept. */
  function WithBlock(m: Mat, b: Block): Mat
  {
    m.(a11 := b.b11, a12 := b.b12, a13 := b.b13,
       a21 := b.b21, a22 := b.b22, a23 := b.b23,
       a31 := b.b31, a32 := b.b32, a33 := b.b33)
  }

  /** `rotate(angle)`: rewrites only the 3x3 block, with the rotation by
      `angle` about the matrix's own translation axis. */
  function Rotated(trig: Trig, m: Mat, angle: real): Mat
  {
    WithBlock(m, RotationBlock(trig, TranslationOf(m), angle))
  }

  // ---------------------------------------------------------------------
  // The algebra of composition

  lemma IdentityNeutral(m: Mat)
    ensures Compose(Identity(), m) == m
    ensures Compose(m, Identity()) == m
  {
  }

  /** Composing two translations translates by the sum. */
  lemma TranslationsCompose(u: Vec3, v: Vec3)
    ensures Compose(Translation(u), Translation(v)) == Translation(Add(u, v))
  {
  }

  lemma ComposeAssociative(a: Mat, b: Mat, c: Mat)
    ensures Compose(Compose(a, b), c) == Compose(a, Compose(b, c))
  {
    EntryAssoc11(a, b, c);
    EntryAssoc12(a, b, c);
    EntryAssoc13(a, b, c);
    EntryAssoc14(a, b, c);
    EntryAssoc21(a, b, c);
    EntryAssoc22(a, b, c);
    EntryAssoc23(a, b, c);
    EntryAssoc24(a, b, c);
    EntryAssoc31(a, b, c);
    EntryAssoc32(a, b, c);
    EntryAssoc33(a, b, c);
    EntryAssoc34(a, b, c);
  }

  // One lemma per entry keeps each nonlinear proof obligation small.

  lemma EntryAssoc11(a: Mat, b: Mat, c: Mat)
    ensures Compose(Compose(a, b), c).a11 == Compose(a, Compose(b, c)).a11
  {
    var ab, bc := Compose(a, b), Compose(b, c);
    ColumnAssoc(a.a11, a.a12, a.a13, b, c.a11, c.a21, c.a31,
                ab.a11, ab.a12, ab.a13, bc.a11, bc.a21, bc.a31);
  }

  lemma EntryAssoc12(a: Mat, b: Mat, c: Mat)
    ensures Compose(Compose(a, b), c).a12 == Compose(a, Compose(b, c)).a12
  {
    var ab, bc := Compose(a, b), Compose(b, c);
    ColumnAssoc(a.a11, a.a12, a.a13, b, c.a12, c.a22, c.a32,
                ab.a11, ab.a12, ab.a13, bc.a12, bc.a22, bc.a32);
  }

  lemma EntryAssoc13(a: Mat, b: Mat, c: Mat)
    ensures Compose(Compose(a, b), c).a13 == Compose(a, Compose(b, c)).a13
  {
    var ab, bc := Compose(a, b), Compose(b, c);
    ColumnAssoc(a.a11, a.a12, a.a13, b, c.a13, c.a23, c.a33,
                ab.a11, ab.a12, ab.a13, bc.a13, bc.a23, bc.a33);
  }

  lemma EntryAssoc14(a: Mat, b: Mat, c: Mat)
    ensures Compose(Compose(a, b), c).a14 == Compose(a, Compose(b, c)).a14
  {
    var ab, bc := Compose(a, b), Compose(b, c);
    TranslationAssoc(a.a11, a.a12, a.a13, a.a14, b, c.a14, c.a24, c.a34,
                     ab.a11, ab.a12, ab.a13, ab.a14, bc.a14, bc.a24, bc.a34);
  }

  lemma EntryAssoc21(a: Mat, b: Mat, c: Mat)
    ensures Compose(Compose(a, b), c).a21 == Compose(a, Compose(b, c)).a21
  {
    var ab, bc := Compose(a, b), Compose(b, c);
    ColumnAssoc(a.a21, a.a22, a.a23, b, c.a11, c.a21, c.a31,
                ab.a21, ab.a22, ab.a23, bc.a11, bc.a21, bc.a31);
  }

  lemma EntryAssoc22(a: Mat, b: Mat, c: Mat)
    ensures Compose(Compose(a, b), c).a22 == Compose(a, Compose(b, c)).a22
  {
    var ab, bc := Compose(a, b), Compose(b, c);
    ColumnAssoc(a.a21, a.a22, a.a23, b, c.a12, c.a22, c.a32,
                ab.a21, ab.a22, ab.a23, bc.a12, bc.a22, bc.a32);
  }

  lemma EntryAssoc23(a: Mat, b: Mat, c: Mat)
    ensures Compose(Compose(a, b), c).a23 == Compose(a, Compose(b, c)).a23
  {
    var ab, bc := Compose(a, b), Compose(b, c);
    ColumnAssoc(a.a21, a.a22, a.a23, b, c.a13, c.a23, c.a33,
                ab.a21, ab.a22, ab.a23, bc.a13, bc.a23, bc.a33);
  }

  lemma EntryAssoc24(a: Mat, b: Mat, c: Mat)
    ensures Compose(Compose(a, b), c).a24 == Compose(a, Compose(b, c)).a24
  {
    var ab, bc := Compose(a, b), Compose(b, c);
    TranslationAssoc(a.a21, a.a22, a.a23, a.a24, b, c.a14, c.a24, c.a34,
                     ab.a21, ab.a22, ab.a23, ab.a24, bc.a14, bc.a24, bc.a34);
  }

  lemma EntryAssoc31(a: Mat, b: Mat, c: Mat)
    ensures Compose(Compose(a, b), c).a31 == Compose(a, Compose(b, c)).a31
  {
    var ab, bc := Compose(a, b), Compose(b, c);
    ColumnAssoc(a.a31, a.a32, a.a33, b, c.a11, c.a21, c.a31,
                ab.a31, ab.a32, ab.a33, bc.a11, bc.a21, bc.a31);
  }

  lemma EntryAssoc32(a: Mat, b: Mat, c: Mat)
    ensures Compose(Compose(a, b), c).a32 == Compose(a, Compose(b, c)).a32
  {
    var ab, bc := Compose(a, b), Compose(b, c);
    ColumnAssoc(a.a31, a.a32, a.a33, b, c.a12, c.a22, c.a32,
                ab.a31, ab.a32, ab.a33, bc.a12, bc.a22, bc.a32);
  }

  lemma EntryAssoc33(a: Mat, b: Mat, c: Mat)
    ensures Compose(Compose(a, b), c).a33 == Compose(a, Compose(b, c)).a33
  {
    var ab, bc := Compose(a, b), Compose(b, c);
    ColumnAssoc(a.a31, a.a32, a.a33, b, c.a13, c.a23, c.a33,
                ab.a31, ab.a32, ab.a33, bc.a13, bc.a23, bc.a33);
  }

  lemma EntryAssoc34(a: Mat, b: Mat, c: Mat)
    ensures Compose(Compose(a, b), c).a34 == Compose(a, Compose(b, c)).a34
  {
    var ab, bc := Compose(a, b), Compose(b, c);
    TranslationAssoc(a.a31, a.a32, a.a33, a.a34, b, c.a14, c.a24, c.a34,
                     ab.a31, ab.a32, ab.a33, ab.a34, bc.a14, bc.a24, bc.a34);
  }

  /** A block entry of (a*b)*c against a*(b*c): (p, q, s) is a row of a,
      (c1, c2, c3) a block column of c, x the row of a*b and y the column
      of b*c. */
  lemma ColumnAssoc(p: real, q: real, s: real, b: Mat, c1: real, c2: real, c3: real,
                    x1: real, x2: real, x3: real, y1: real, y2: real, y3: real)
    requires x1 == p * b.a11 + q * b.a21 + s * b.a31
    requires x2 == p * b.a12 + q * b.a22 + s * b.a32
    requires x3 == p * b.a13 + q * b.a23 + s * b.a33
    requires y1 == b.a11 * c1 + b.a12 * c2 + b.a13 * c3
    requires y2 == b.a21 * c1 + b.a22 * c2 + b.a23 * c3
    requires y3 == b.a31 * c1 + b.a32 * c2 + b.a33 * c3
    ensures x1 * c1 + x2 * c2 + x3 * c3 == p * y1 + q * y2 + s * y3
  {
  }

  /** A translation entry of (a*b)*c against a*(b*c): (p, q, s, t) is a row
      of a, (c1, c2, c3) the translation column of c. */
  lemma TranslationAssoc(p: real, q: real, s: real, t: real, b: Mat, c1: real, c2: real, c3: real,
                         x1: real, x2: real, x3: real, x4: real, y1: real, y2: real, y3: real)
    requires x1 == p * b.a11 + q * b.a21 + s * b.a31
    requires x2 == p * b.a12 + q * b.a22 + s * b.a32
    requires x3 == p * b.a13 + q * b.a23 + s * b.a33
    requires x4 == p * b.a14 + q * b.a24 + s * b.a34 + t
    requires y1 == b.a11 * c1 + b.a12 * c2 + b.a13 * c3 + b.a14
    requires y2 == b.a21 * c1 + b.a22 * c2 + b.a23 * c3 + b.a24
    requires y3 == b.a31 * c1 + b.a32 * c2 + b.a33 * c3 + b.a34
    ensures x1 * c1 + x2 * c2 + x3 * c3 + x4 == p * y1 + q * y2 + s * y3 + t
  {
  }

  /** Transforming by compose(l, r) applies r first, then l. */
  lemma ApplyCompose(l: Mat, r: Mat, v: Vec3)
    ensures Apply(Compose(l, r), v) == Apply(l, Apply(r, v))
  {
    var w := Apply(r, v);
    var lhs := Apply(Compose(l, r), v);
    assert lhs.x == l.a11 * w.x + l.a12 * w.y + l.a13 * w.z + l.a14;
    assert lhs.y == l.a21 * w.x + l.a22 * w.y + l.a23 * w.z + l.a24;
    assert lhs.z == l.a31 * w.x + l.a32 * w.y + l.a33 * w.z + l.a34;
  }

  /** The translation column of a product is the left factor applied to the
      right factor's translation. */
  lemma TranslationOfCompose(l: Mat, r: Mat)
    ensures TranslationOf(Compose(l, r)) == Apply(l, TranslationOf(r))
  {
    TranslationIsImageOfOrigin(r);
    TranslationIsImageOfOrigin(Compose(l, r));
    ApplyCompose(l, r, Zero());
  }

  /** The translation column is where the matrix sends the origin. */
  lemma TranslationIsImageOfOrigin(m: Mat)
    ensures TranslationOf(m) == Apply(m, Zero())
  {
  }

  // ---------------------------------------------------------------------
  // rotate

  /** rotate never touches the translation column. */
  lemma RotateKeepsTranslation(trig: Trig, m: Mat, angle: real)
    ensures TranslationOf(Rotated(trig, m, angle)) == TranslationOf(m)
  {
  }

  /** The new block depends only on the translation column and the angle,
      so rotating twice by the same angle is rotating once. */
  lemma RotateIdempotent(trig: Trig, m: Mat, angle: real)
    ensures Rotated(trig, Rotated(trig, m, angle), angle) == Rotated(trig, m, angle)
  {
    RotateKeepsTranslation(trig, m, angle);
  }

  /** A later rotate overrides an earlier one completely. */
  lemma RotateOverrides(trig: Trig, m: Mat, a: real, b: real)
    ensures Rotated(trig, Rotated(trig, m, a), b) == Rotated(trig, m, b)
  {
    RotateKeepsTranslation(trig, m, a);
  }

  /** With sin 0 = 0 and cos 0 = 1 the rotation by 0 is the identity block,
      so a pure translation is unchanged by rotate(0). */
  lemma RotateZeroOfTranslation(trig: Trig, v: Vec3)
    requires TrigSane(trig)
    ensures Rotated(trig, Translation(v), 0.0) == Translation(v)
  {
  }

  // ---------------------------------------------------------------------
  // The mutable matrix object

  class TransformationMatrix {
    var a11: real, a12: real, a13: real, a14: real
    var a21: real, a22: real, a23: real, a24: real
    var a31: real, a32: real, a33: real, a34: real

    function Value(): Mat
      reads this
    {
      Mat(a11, a12, a13, a14, a21, a22, a23, a24, a31, a32, a33, a34)
    }

    /** The unit matrix. */
    constructor ()
      ensures Value() == Identity()
    {
      a11, a12, a13, a14 := 1.0, 0.0, 0.0, 0.0;
      a21, a22, a23, a24 := 0.0, 1.0, 0.0, 0.0;
      a31, a32, a33, a34 := 0.0, 0.0, 1.0, 0.0;
    }

    /** Translation by (x, y, z) with the identity block. */
    constructor Translate(x: real, y: real, z: real)
      ensures Value() == Translation(Vec3(x, y, z))
      ensures Value() == Compose(Translation(Vec3(x, y, z)), Identity())
    {
      a11, a12, a13, a14 := 1.0, 0.0, 0.0, x;
      a21, a22, a23, a24 := 0.0, 1.0, 0.0, y;
      a31, a32, a33, a34 := 0.0, 0.0, 1.0, z;
    }

    /** The matrix with the twelve given entries. */
    constructor FromEntries(a11: real, a12: real, a13: real, a14: real,
                            a21: real, a22: real, a23: real, a24: real,
                            a31: real, a32: real, a33: real, a34: real)
      ensures Value() == Mat(a11, a12, a13, a14, a21, a22, a23, a24, a31, a32, a33, a34)
    {
      this.a11, this.a12, this.a13, this.a14 := a11, a12, a13, a14;
      this.a21, this.a22, this.a23, this.a24 := a21, a22, a23, a24;
      this.a31, this.a32, this.a33, this.a34 := a31, a32, a33, a34;
    }

    /** A copy: a fresh object with entry-wise equal entries. */
    constructor Copy(m: TransformationMatrix)
      ensures Value() == m.Value()
      ensures this != m
    {
      a11, a12, a13, a14 := m.a11, m.a12, m.a13, m.a14;
      a21, a22, a23, a24 := m.a21, m.a22, m.a23, m.a24;
      a31, a32, a33, a34 := m.a31, m.a32, m.a33, m.a34;
    }

    /** The product l * r, built from a node's two children. */
    constructor Product(l: TransformationMatrix, r: TransformationMatrix)
      ensures Value() == Compose(l.Value(), r.Value())
    {
      var p := Compose(l.Value(), r.Value());
      a11, a12, a13, a14 := p.a11, p.a12, p.a13, p.a14;
      a21, a22, a23, a24 := p.a21, p.a22, p.a23, p.a24;
      a31, a32, a33, a34 := p.a31, p.a32, p.a33, p.a34;
    }

    /** this := this * m; m itself is not modified (m may be this). All
        twelve products are computed before any entry is overwritten. */
    method MultR(m: TransformationMatrix)
      modifies this
      ensures Value() == Compose(old(Value()), old(m.Value()))
      ensures m != this ==> m.Value() == old(m.Value())
    {
      var p := Compose(Value(), m.Value());
      a11, a12, a13, a14 := p.a11, p.a12, p.a13, p.a14;
      a21, a22, a23, a24 := p.a21, p.a22, p.a23, p.a24;
      a31, a32, a33, a34 := p.a31, p.a32, p.a33, p.a34;
    }

    /** this := m * this; m itself is not modified (m may be this). */
    method MultL(m: TransformationMatrix)
      modifies this
      ensures Value() == Compose(old(m.Value()), old(Value()))
      ensures m != this ==> m.Value() == old(m.Value())
    {
      var p := Compose(m.Value(), Value());
      a11, a12, a13, a14 := p.a11, p.a12, p.a13, p.a14;
      a21, a22, a23, a24 := p.a21, p.a22, p.a23, p.a24;
      a31, a32, a33, a34 := p.a31, p.a32, p.a33, p.a34;
    }

    /** Overwrites the nine block entries with the rotation by `angle` about
        the normalised translation column; the translation is kept. */
    method Rotate(trig: Trig, angle: real)
      modifies this
      ensures Value() == Rotated(trig, old(Value()), angle)
      ensures a14 == old(a14) && a24 == old(a24) && a34 == old(a34)
    {
      var b := RotationBlock(trig, Vec3(a14, a24, a34), angle);
      a11, a12, a13 := b.b11, b.b12, b.b13;
      a21, a22, a23 := b.b21, b.b22, b.b23;
      a31, a32, a33 := b.b31, b.b32, b.b33;
    }

    /** Maps a vector by this matrix; nothing is modified. */
    method Transform(v: Vec3) returns (r: Vec3)
      ensures r == Apply(Value(), v)
    {
      r := Apply(Value(), v);
    }
  }
}
